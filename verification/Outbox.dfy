/** The two outboxes, notifications and knowledge ingestion. Workers claim rows in
    batches, count the attempt inside the claim, and mark the result afterwards with
    an update that checks nothing but that the row is being processed. Times are
    nanoseconds. */
module Outbox {

  type Id = nat

  datatype Status = Pending | Processing | Failed | Done | DeadLetter | Read

  datatype Moment = Never | At(time: int)

  /** Whose notification a row is. */
  datatype Owner = Owner(tenant: string, user: string)

  /** Done is "delivered" for notifications and "completed" for ingestion jobs. */
  datatype Row = Row(status: Status, attempts: nat, claimed: Moment, next: Moment, created: int, inApp: bool,
    owner: Owner)

  type Rows = map<Id, Row>

  datatype Kind = Notification | Ingestion

  datatype Config = Config(kind: Kind, maxAttempts: int)

  const MINUTE := 60_000_000_000

  function StaleAfter(kind: Kind): int {
    if kind.Notification? then 5 * MINUTE else 10 * MINUTE
  }

  function BatchSize(kind: Kind, configured: int): nat {
    if configured >= 1 then configured else if kind.Notification? then 25 else 5
  }

  function Doublings(k: nat): (d: nat)
    ensures d >= 1
  {
    if k == 0 then 1 else 2 * Doublings(k - 1)
  }

  function Delay(kind: Kind, attempt: nat): nat {
    var k := if attempt < 1 then 0 else attempt - 1;
    var cap := if kind.Notification? then 6 else 5;
    Doublings(if k < cap then k else cap) * MINUTE
  }

  /** Notifications with no positive maximum retry for ever; ingestion falls back to three. */
  predicate GivesUp(config: Config, attempts: nat) {
    if config.kind.Notification? then config.maxAttempts > 0 && attempts >= config.maxAttempts
    else attempts >= if config.maxAttempts < 1 then 3 else config.maxAttempts
  }

  predicate Terminal(row: Row) {
    row.status.Done? || row.status.DeadLetter? || row.status.Read?
  }

  predicate Eligible(row: Row, now: int, staleAfter: int) {
    || ((row.status.Pending? || row.status.Failed?) && (row.next.Never? || row.next.time <= now))
    || (row.status.Processing? && row.claimed.At? && row.claimed.time < now - staleAfter)
  }

  // ---- Row updates -----------------------------------------------------------------

  function Taken(row: Row, now: int): Row {
    row.(status := Processing, attempts := row.attempts + 1, claimed := At(now))
  }

  datatype Verdict = Delivered | Refused(computed: int)

  /** What a worker that holds attempt number `attempt` writes, when the row is still being processed. */
  function Marked(config: Config, row: Row, attempt: nat, verdict: Verdict): Row {
    if !row.status.Processing? then row
    else match verdict
      case Delivered => row.(status := Done, claimed := Never, next := Never)
      case Refused(computed) =>
        if GivesUp(config, attempt) then row.(status := DeadLetter, claimed := Never, next := Never)
        else row.(status := Failed, claimed := Never, next := At(computed + Delay(config.kind, attempt)))
  }

  // ---- When a row comes up again ---------------------------------------------------

  /** The delay starts at a minute and doubles with every attempt, up to 64 minutes for
      notifications and 32 for ingestion. */
  lemma DelayDoublesToItsCap(kind: Kind, attempt: nat)
    requires attempt >= 1
    ensures Delay(kind, 0) == Delay(kind, 1) == 60_000_000_000
    ensures var cap := if kind.Notification? then 3_840_000_000_000 else 1_920_000_000_000;
      Delay(kind, attempt + 1) == if 2 * Delay(kind, attempt) <= cap then 2 * Delay(kind, attempt) else cap
  {
    assert Doublings(1) == 2 && Doublings(2) == 4 && Doublings(3) == 8;
    assert Doublings(4) == 16 && Doublings(5) == 32 && Doublings(6) == 64;
    DoublingsGrow(if attempt < 6 then attempt else 6, 6);
  }

  lemma {:induction false} DoublingsGrow(j: nat, k: nat)
    requires j <= k
    ensures Doublings(j) <= Doublings(k)
  {
    if j < k { DoublingsGrow(j, k - 1); }
  }

  /** A row whose worker died comes up again once five minutes have passed since its claim,
      ten for ingestion, and not before. */
  lemma AbandonedRowsComeBack(kind: Kind, row: Row, at: int, now: int)
    ensures Eligible(Taken(row, at), now, StaleAfter(kind))
      <==> now > at + if kind.Notification? then 300_000_000_000 else 600_000_000_000
  {
  }

  /** A new row comes up at once. */
  lemma NewRowsComeUp(row: Row, now: int, staleAfter: int)
    requires row.status.Pending? && row.next.Never?
    ensures Eligible(row, now, staleAfter)
  {
  }

  /** A row that was refused comes up again when its delay is over, and not before; one whose
      attempts are used up, was delivered or was read never does. */
  lemma RefusedRowsComeBack(config: Config, row: Row, attempt: nat, computed: int, now: int, staleAfter: int)
    requires row.status.Processing?
    ensures Eligible(Marked(config, row, attempt, Refused(computed)), now, staleAfter)
      <==> !GivesUp(config, attempt) && now >= computed + Delay(config.kind, attempt)
    ensures !Eligible(Marked(config, row, attempt, Delivered), now, staleAfter)
    ensures !Eligible(row.(status := Read), now, staleAfter)
  {
  }

  // ---- The tables --------------------------------------------------------------------

  predicate Distinct(ids: seq<Id>) {
    forall i, j :: 0 <= i < j < |ids| ==> ids[i] != ids[j]
  }

  function Candidates(rows: Rows, locked: set<Id>, now: int, staleAfter: int): set<Id> {
    set id | id in rows && id !in locked && Eligible(rows[id], now, staleAfter)
  }

  /** The answer of the locking query: the oldest eligible rows nobody else has locked. */
  ghost predicate Selected(rows: Rows, locked: set<Id>, now: int, staleAfter: int, limit: nat, batch: seq<Id>) {
    var c := Candidates(rows, locked, now, staleAfter);
    && Distinct(batch) && |batch| <= limit && (forall i :: 0 <= i < |batch| ==> batch[i] in c)
    && (forall i, j :: 0 <= i < j < |batch| ==> rows[batch[i]].created <= rows[batch[j]].created)
    && (forall id :: id in c && id !in batch ==>
          |batch| == limit && forall i :: 0 <= i < |batch| ==> rows[batch[i]].created <= rows[id].created)
  }

  /** Every row of a batch is taken once. */
  function TakenAll(rows: Rows, batch: seq<Id>, now: int): Rows {
    map id | id in rows :: if id in batch then Taken(rows[id], now) else rows[id]
  }

  function MarkedAll(config: Config, rows: Rows, batch: seq<Id>, verdicts: map<Id, Verdict>): Rows
    requires forall id :: id in batch ==> id in verdicts
  {
    map id | id in rows :: if id in batch then Marked(config, rows[id], rows[id].attempts, verdicts[id]) else rows[id]
  }

  /** What one attempt leaves of a row: delivered, or dead when that was the last permitted
      attempt, or put off by the delay of that attempt; and nobody holds it. */
  ghost predicate EndsAs(config: Config, before: Row, after: Row, verdict: Verdict) {
    && after.attempts == before.attempts + 1 && after.claimed == Never
    && after.created == before.created && after.inApp == before.inApp && after.owner == before.owner
    && match verdict
       case Delivered => after.status == Done && after.next == Never
       case Refused(computed) =>
         if GivesUp(config, before.attempts + 1) then after.status == DeadLetter && after.next == Never
         else after.status == Failed && after.next == At(computed + Delay(config.kind, before.attempts + 1))
  }

  lemma OneMoreMarked(config: Config, rows: Rows, batch: seq<Id>, i: nat, verdicts: map<Id, Verdict>)
    requires i < |batch| && Distinct(batch) && batch[i] in rows && forall id :: id in batch ==> id in verdicts
    ensures var id := batch[i]; var before := MarkedAll(config, rows, batch[..i], verdicts);
      && id in before && before[id] == rows[id]
      && MarkedAll(config, rows, batch[..i + 1], verdicts)
         == before[id := Marked(config, rows[id], rows[id].attempts, verdicts[id])]
  {
    assert batch[i] !in batch[..i];
    assert batch[..i + 1] == batch[..i] + [batch[i]];
  }

  lemma BatchEnds(config: Config, rows: Rows, batch: seq<Id>, now: int, verdicts: map<Id, Verdict>)
    requires (forall id :: id in batch ==> id in rows) && forall id :: id in batch ==> id in verdicts
    ensures var after := MarkedAll(config, TakenAll(rows, batch, now), batch, verdicts);
      && after.Keys == rows.Keys
      && (forall id :: id in batch ==> EndsAs(config, rows[id], after[id], verdicts[id]))
      && (forall id :: id in rows && id !in batch ==> after[id] == rows[id])
  {
  }

  lemma {:induction false} OldestExists(rows: Rows, ids: set<Id>) returns (oldest: Id)
    requires ids != {} && ids <= rows.Keys
    ensures oldest in ids && forall id :: id in ids ==> rows[oldest].created <= rows[id].created
    decreases ids
  {
    var id :| id in ids;
    if ids == {id} {
      oldest := id;
    } else {
      assert ids == ids - {id} + {id};
      var other := OldestExists(rows, ids - {id});
      oldest := if rows[id].created <= rows[other].created then id else other;
    }
  }

  class Table {
    const config: Config
    var rows: Rows

    constructor (config: Config)
      ensures this.config == config && rows == map[]
    {
      this.config := config;
      rows := map[];
    }

    method Select(locked: set<Id>, now: int, limit: nat) returns (batch: seq<Id>)
      ensures Selected(rows, locked, now, StaleAfter(config.kind), limit, batch)
    {
      var all := Candidates(rows, locked, now, StaleAfter(config.kind));
      var left := all;
      batch := [];
      while |batch| < limit && left != {}
        invariant |batch| <= limit && left <= all && Distinct(batch)
        invariant forall id :: id in all <==> id in left || id in batch
        invariant forall id :: id in left ==> id !in batch
        invariant forall i :: 0 <= i < |batch| ==> batch[i] in all
        invariant forall i, j :: 0 <= i < j < |batch| ==> rows[batch[i]].created <= rows[batch[j]].created
        invariant forall i, id :: 0 <= i < |batch| && id in left ==> rows[batch[i]].created <= rows[id].created
        decreases left
      {
        ghost var someOldest := OldestExists(rows, left);
        var oldest: Id :| oldest in left && forall id :: id in left ==> rows[oldest].created <= rows[id].created;
        batch := batch + [oldest];
        left := left - {oldest};
      }
    }

    /** One claiming transaction; `locked` are the rows other transactions hold. */
    method ClaimPending(configured: int, now: int, locked: set<Id>) returns (batch: seq<Id>)
      modifies this
      ensures Selected(old(rows), locked, now, StaleAfter(config.kind), BatchSize(config.kind, configured), batch)
      ensures rows == TakenAll(old(rows), batch, now)
      ensures forall id :: id in batch ==> id in old(rows) && id !in locked
      ensures |batch| < BatchSize(config.kind, configured) ==> forall id :: id in old(rows) && id !in locked ==>
        (id in batch <==> Eligible(old(rows)[id], now, StaleAfter(config.kind)))
      ensures |batch| <= if configured >= 1 then configured else if config.kind.Notification? then 25 else 5
      ensures rows.Keys == old(rows).Keys && forall id :: id in old(rows) && id !in batch ==> rows[id] == old(rows)[id]
      ensures forall id :: id in batch ==>
        var row := old(rows)[id];
        rows[id] == row.(status := Processing, attempts := row.attempts + 1, claimed := At(now))
    {
      batch := Select(locked, now, BatchSize(config.kind, configured));
      var i := 0;
      assert rows == TakenAll(rows, batch[..0], now);
      while i < |batch|
        invariant 0 <= i <= |batch|
        invariant rows == TakenAll(old(rows), batch[..i], now)
      {
        assert batch[i] !in batch[..i];
        rows := rows[batch[i] := Taken(rows[batch[i]], now)];
        assert batch[..i + 1] == batch[..i] + [batch[i]];
        i := i + 1;
      }
      assert batch[..i] == batch;
    }

    /** The three guarded updates. The answer is false when no row was updated. */
    method Mark(id: Id, attempt: nat, verdict: Verdict) returns (updated: bool)
      modifies this
      ensures updated == (id in old(rows) && old(rows)[id].status.Processing?)
      ensures rows == if id in old(rows) then old(rows)[id := Marked(config, old(rows)[id], attempt, verdict)]
          else old(rows)
    {
      updated := id in rows && rows[id].status.Processing?;
      if updated {
        rows := rows[id := Marked(config, rows[id], attempt, verdict)];
      }
    }

    /** A recipient opens a notification, whatever its status is. */
    method ReadNotification(id: Id, reader: Owner) returns (found: bool)
      modifies this
      ensures found == (id in old(rows) && old(rows)[id].inApp && old(rows)[id].owner == reader)
      ensures rows == if found then old(rows)[id := old(rows)[id].(status := Read)] else old(rows)
    {
      found := id in rows && rows[id].inApp && rows[id].owner == reader;
      if found {
        rows := rows[id := rows[id].(status := Read)];
      }
    }

    /** One batch with nobody interfering: every selected row is attempted once and
        ends as its delivery went, and no other row changes. */
    method ProcessBatch(configured: int, now: int, locked: set<Id>, verdicts: map<Id, Verdict>) returns (batch: seq<Id>)
      requires rows.Keys <= verdicts.Keys
      modifies this
      ensures Selected(old(rows), locked, now, StaleAfter(config.kind), BatchSize(config.kind, configured), batch)
      ensures forall id :: id in batch ==> id in old(rows)
      ensures rows == MarkedAll(config, TakenAll(old(rows), batch, now), batch, verdicts)
      ensures |batch| <= if configured >= 1 then configured else if config.kind.Notification? then 25 else 5
      ensures rows.Keys == old(rows).Keys && forall id :: id in old(rows) && id !in batch ==> rows[id] == old(rows)[id]
      ensures forall id :: id in batch ==> EndsAs(config, old(rows)[id], rows[id], verdicts[id])
    {
      batch := ClaimPending(configured, now, locked);
      ghost var taken := rows;
      BatchEnds(config, old(rows), batch, now, verdicts);
      var i := 0;
      assert rows == MarkedAll(config, taken, batch[..0], verdicts);
      while i < |batch|
        invariant 0 <= i <= |batch|
        invariant rows == MarkedAll(config, taken, batch[..i], verdicts)
      {
        var id := batch[i];
        OneMoreMarked(config, taken, batch, i, verdicts);
        var updated := Mark(id, rows[id].attempts, verdicts[id]);
        i := i + 1;
      }
      assert batch[..i] == batch;
    }
  }
}
