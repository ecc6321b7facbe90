/** The outboxes as a protocol: any number of workers, some of which crash, stall or
    come back after their claim went stale, interleaved with readers. Nothing relates
    the clocks of different workers. */
module OutboxProtocol {
  import opened Outbox

  /** One row given to one worker: the attempt it must count as, and when it was claimed. */
  datatype Handout = Handout(worker: nat, id: Id, attempt: nat, at: int)

  datatype System = System(
    rows: Rows,
    handed: seq<Handout>, // every claim ever made
    held: set<Handout>,   // claims whose worker has not finished with them
    uploads: set<Id>,     // ingestion payloads in the object store
    doomed: set<Id>)      // payloads whose job ended, to be deleted by the worker that ended it

  const START := System(map[], [], {}, {}, {})

  datatype Event =
    | Insert(id: Id, inApp: bool, owner: Owner, created: int)
    | Claim(worker: nat, id: Id, now: int)
    | Settle(h: Handout, verdict: Verdict, lost: bool)
    | Crash(worker: nat)
    | Open(id: Id, reader: Owner)
    | Discard(id: Id)

  predicate Enabled(config: Config, s: System, e: Event) {
    match e
    case Insert(id, _, _, _) => id !in s.rows
    case Claim(_, id, now) => id in s.rows && Eligible(s.rows[id], now, StaleAfter(config.kind))
    case Settle(h, verdict, _) => h in s.held && (verdict.Refused? ==> h.at <= verdict.computed)
    case Crash(_) => true
    case Open(id, reader) => config.kind.Notification? && id in s.rows && s.rows[id].inApp && s.rows[id].owner == reader
    case Discard(id) => id in s.doomed
  }

  function SettledRows(config: Config, rows: Rows, h: Handout, verdict: Verdict, lost: bool): Rows {
    if lost || h.id !in rows then rows else rows[h.id := Marked(config, rows[h.id], h.attempt, verdict)]
  }

  predicate Ends(config: Config, rows: Rows, h: Handout, verdict: Verdict, lost: bool) {
    !lost && h.id in rows && rows[h.id].status.Processing? && (verdict.Delivered? || GivesUp(config, h.attempt))
  }

  function Step(config: Config, s: System, e: Event): System
    requires Enabled(config, s, e)
  {
    match e
    case Insert(id, inApp, owner, created) =>
      s.(rows := s.rows[id := Row(Pending, 0, Never, Never, created, inApp, owner)],
         uploads := if config.kind.Ingestion? then s.uploads + {id} else s.uploads)
    case Claim(worker, id, now) =>
      var h := Handout(worker, id, s.rows[id].attempts + 1, now);
      s.(rows := s.rows[id := Taken(s.rows[id], now)], handed := s.handed + [h], held := s.held + {h})
    case Settle(h, verdict, lost) =>
      s.(rows := SettledRows(config, s.rows, h, verdict, lost),
         held := s.held - {h},
         doomed := if config.kind.Ingestion? && Ends(config, s.rows, h, verdict, lost) then s.doomed + {h.id}
           else s.doomed)
    case Crash(worker) => s.(held := set h | h in s.held && h.worker != worker)
    case Open(id, _) => s.(rows := s.rows[id := s.rows[id].(status := Read)])
    case Discard(id) => s.(uploads := s.uploads - {id})
  }

  /** A batch is claimed in one transaction; its effect is that of its claims one after
      another, none of which disables the next. */
  lemma {:induction false} BatchIsSingleClaims(config: Config, s: System, worker: nat, batch: seq<Id>, now: int)
    returns (states: seq<System>)
    requires Distinct(batch) && forall i :: 0 <= i < |batch|
                                 ==> batch[i] in s.rows && Eligible(s.rows[batch[i]], now, StaleAfter(config.kind))
    ensures |states| == |batch| + 1 && states[0] == s
    ensures forall i :: 0 <= i < |batch| ==>
      Enabled(config, states[i], Claim(worker, batch[i], now))
        && states[i + 1] == Step(config, states[i], Claim(worker, batch[i], now))
    ensures states[|batch|].rows == TakenAll(s.rows, batch, now)
  {
    if batch == [] {
      states := [s];
    } else {
      var n := |batch| - 1;
      var before := BatchIsSingleClaims(config, s, worker, batch[..n], now);
      assert batch == batch[..n] + [batch[n]] && batch[n] !in batch[..n];
      states := before + [Step(config, before[n], Claim(worker, batch[n], now))];
      forall i | 0 <= i < |batch|
        ensures Enabled(config, states[i], Claim(worker, batch[i], now))
            && states[i + 1] == Step(config, states[i], Claim(worker, batch[i], now))
      {
        if i < n { assert batch[..n][i] == batch[i]; }
      }
    }
  }

  // ---- Invariant -----------------------------------------------------------------------

  ghost function Claims(handed: seq<Handout>, id: Id): nat {
    if handed == [] then 0 else
      Claims(handed[..|handed| - 1], id) + if handed[|handed| - 1].id == id then 1 else 0
  }

  ghost predicate Counted(rows: Rows, handed: seq<Handout>) {
    && (forall id :: id in rows ==> rows[id].attempts == Claims(handed, id))
    && (forall id :: id !in rows ==> Claims(handed, id) == 0)
  }

  ghost predicate Numbered(rows: Rows, handed: seq<Handout>) {
    && (forall i :: 0 <= i < |handed| ==> handed[i].id in rows && 1 <= handed[i].attempt <= rows[handed[i].id].attempts)
    && (forall i, j :: 0 <= i < j < |handed| && handed[i].id == handed[j].id ==> handed[i].attempt < handed[j].attempt)
  }

  ghost predicate Plausible(config: Config, row: Row) {
    && (row.status.Pending? ==> row.attempts == 0)
    && (row.status.Failed? ==> row.next.At?)
    && (row.status.DeadLetter? ==> GivesUp(config, row.attempts))
  }

  ghost predicate RowsMakeSense(config: Config, s: System) {
    && (forall id :: id in s.rows ==> Plausible(config, s.rows[id]))
    && (forall id :: id in s.doomed ==> id in s.rows && Terminal(s.rows[id]))
    && (config.kind.Ingestion? ==> forall id :: id in s.rows && !Terminal(s.rows[id]) ==> id in s.uploads)
  }

  ghost predicate Inv(config: Config, s: System) {
    && Counted(s.rows, s.handed) && Numbered(s.rows, s.handed) && RowsMakeSense(config, s)
    && (forall h :: h in s.held ==> h in s.handed)
  }

  lemma ClaimIsCounted(handed: seq<Handout>, h: Handout)
    ensures forall id :: Claims(handed + [h], id) == Claims(handed, id) + if h.id == id then 1 else 0
  {
    assert (handed + [h])[..|handed|] == handed;
  }

  lemma ClaimKeepsCounts(rows: Rows, handed: seq<Handout>, h: Handout)
    requires Counted(rows, handed) && h.id in rows
    ensures Counted(rows[h.id := Taken(rows[h.id], h.at)], handed + [h])
  {
    ClaimIsCounted(handed, h);
  }

  lemma ClaimKeepsNumbers(rows: Rows, handed: seq<Handout>, h: Handout)
    requires Counted(rows, handed) && Numbered(rows, handed) && h.id in rows && h.attempt == rows[h.id].attempts + 1
    ensures var after := rows[h.id := Taken(rows[h.id], h.at)];
      Counted(after, handed + [h]) && Numbered(after, handed + [h])
  {
    ClaimKeepsCounts(rows, handed, h);
    var after := rows[h.id := Taken(rows[h.id], h.at)];
    assert forall id :: id in rows ==> rows[id].attempts <= after[id].attempts;
  }

  lemma ClaimKeepsSense(config: Config, s: System, e: Event)
    requires RowsMakeSense(config, s) && Enabled(config, s, e) && e.Claim?
    ensures RowsMakeSense(config, Step(config, s, e))
  {
  }

  lemma ClaimKeepsInv(config: Config, s: System, e: Event)
    requires Inv(config, s) && Enabled(config, s, e) && e.Claim?
    ensures Inv(config, Step(config, s, e))
  {
    var h := Handout(e.worker, e.id, s.rows[e.id].attempts + 1, e.now);
    ClaimKeepsNumbers(s.rows, s.handed, h);
    ClaimKeepsSense(config, s, e);
    var t := Step(config, s, e);
    assert t.rows == s.rows[h.id := Taken(s.rows[h.id], h.at)] && t.handed == s.handed + [h];
    assert Counted(t.rows, t.handed) && Numbered(t.rows, t.handed);
    assert forall g :: g in s.handed + [h] <==> g in s.handed || g == h;
  }

  lemma SettleKeepsInv(config: Config, s: System, e: Event)
    requires Inv(config, s) && Enabled(config, s, e) && e.Settle?
    ensures Inv(config, Step(config, s, e))
  {
    var i :| 0 <= i < |s.handed| && s.handed[i] == e.h;
    var row := s.rows[e.h.id];
    assert Plausible(config, Marked(config, row, e.h.attempt, e.verdict));
    assert Marked(config, row, e.h.attempt, e.verdict).attempts == row.attempts;
  }

  lemma StepKeepsInv(config: Config, s: System, e: Event)
    requires Inv(config, s) && Enabled(config, s, e)
    ensures Inv(config, Step(config, s, e))
  {
    if e.Claim? { ClaimKeepsInv(config, s, e); }
    else if e.Settle? { SettleKeepsInv(config, s, e); }
  }

  // ---- Runs ------------------------------------------------------------------------------

  ghost predicate Run(config: Config, es: seq<Event>, states: seq<System>) {
    && |states| == |es| + 1 && states[0] == START
    && forall i :: 0 <= i < |es| ==> Enabled(config, states[i], es[i])
                                     && states[i + 1] == Step(config, states[i], es[i])
  }

  lemma {:induction false} RunKeepsInv(config: Config, es: seq<Event>, states: seq<System>, i: nat)
    requires Run(config, es, states) && i < |states|
    ensures Inv(config, states[i])
  {
    if i > 0 {
      RunKeepsInv(config, es, states, i - 1);
      assert states[i - 1 + 1] == Step(config, states[i - 1], es[i - 1]);
      StepKeepsInv(config, states[i - 1], es[i - 1]);
    }
  }

  /** Whatever the interleaving: the attempt counter of a row is the number of times it
      was claimed, and no attempt of a row is ever handed out twice, to one worker or to two. */
  lemma EachAttemptIsHandedOutOnce(config: Config, es: seq<Event>, states: seq<System>, i: nat)
    requires Run(config, es, states) && i < |states|
    ensures var s := states[i];
      && (forall id :: id in s.rows ==> s.rows[id].attempts == Claims(s.handed, id))
      && (forall j, k :: 0 <= j < k < |s.handed| && s.handed[j].id == s.handed[k].id
           ==> s.handed[j].attempt < s.handed[k].attempt)
  {
    RunKeepsInv(config, es, states, i);
  }

  predicate SameOrOpened(before: Row, after: Row) {
    after == before || after == before.(status := Read)
  }

  lemma TerminalStays(config: Config, s: System, e: Event, id: Id)
    requires Enabled(config, s, e) && id in s.rows && Terminal(s.rows[id])
    ensures var t := Step(config, s, e); id in t.rows && SameOrOpened(s.rows[id], t.rows[id]) && Terminal(t.rows[id])
  {
  }

  /** A delivered, completed, dead or read row is never claimed again; it can only be opened. */
  lemma {:induction false} TerminalIsForEver(config: Config, es: seq<Event>, states: seq<System>, i: nat, j: nat,
    id: Id)
    requires Run(config, es, states) && i <= j < |states| && id in states[i].rows && Terminal(states[i].rows[id])
    ensures id in states[j].rows && SameOrOpened(states[i].rows[id], states[j].rows[id]) && Terminal(states[j].rows[id])
    ensures Claims(states[j].handed, id) == Claims(states[i].handed, id)
  {
    if i < j {
      TerminalIsForEver(config, es, states, i, j - 1, id);
      assert states[j - 1 + 1] == Step(config, states[j - 1], es[j - 1]);
      TerminalStays(config, states[j - 1], es[j - 1], id);
    }
    EachAttemptIsHandedOutOnce(config, es, states, i);
    EachAttemptIsHandedOutOnce(config, es, states, j);
  }

  /** An ingestion job that has not ended can still read its upload. */
  lemma UploadsOutliveTheirJobs(config: Config, es: seq<Event>, states: seq<System>, i: nat, id: Id)
    requires config.kind.Ingestion? && Run(config, es, states) && i < |states|
    requires id in states[i].rows && !Terminal(states[i].rows[id])
    ensures id in states[i].uploads
  {
    RunKeepsInv(config, es, states, i);
  }

  lemma EndingDooms(config: Config, s: System, e: Event, id: Id)
    requires config.kind.Ingestion? && Inv(config, s) && Enabled(config, s, e)
    requires id in s.rows && Terminal(s.rows[id]) ==> id in s.doomed
    ensures id in Step(config, s, e).rows && Terminal(Step(config, s, e).rows[id]) ==> id in Step(config, s, e).doomed
  {
  }

  /** And the upload of every job that has ended is down for deletion. */
  lemma {:induction false} EndedUploadsAreDoomed(config: Config, es: seq<Event>, states: seq<System>, i: nat, id: Id)
    requires config.kind.Ingestion? && Run(config, es, states) && i < |states|
    requires id in states[i].rows && Terminal(states[i].rows[id])
    ensures id in states[i].doomed
  {
    if i > 0 {
      RunKeepsInv(config, es, states, i - 1);
      if id in states[i - 1].rows && Terminal(states[i - 1].rows[id]) {
        EndedUploadsAreDoomed(config, es, states, i - 1, id);
      }
      assert states[i - 1 + 1] == Step(config, states[i - 1], es[i - 1]);
      EndingDooms(config, states[i - 1], es[i - 1], id);
    }
  }

  // ---- How often a row is attempted --------------------------------------------------------

  predicate IsStaleClaim(s: System, e: Event, id: Id) {
    e.Claim? && e.id == id && id in s.rows && s.rows[id].status.Processing?
  }

  /** How often a row was taken from a worker that had it. */
  ghost function StaleClaims(es: seq<Event>, states: seq<System>, id: Id, i: nat): nat
    requires i <= |es| < |states|
  {
    if i == 0 then 0 else
      StaleClaims(es, states, id, i - 1) + if IsStaleClaim(states[i - 1], es[i - 1], id) then 1 else 0
  }

  predicate Refuses(config: Config, s: System, e: Event, id: Id) {
    && e.Settle? && e.h.id == id && !e.lost && e.verdict.Refused?
    && id in s.rows && s.rows[id].status.Processing? && !GivesUp(config, e.h.attempt)
  }

  /** The attempts whose failure put the row back. */
  ghost function Refusals(config: Config, es: seq<Event>, states: seq<System>, id: Id, i: nat): set<nat>
    requires i <= |es| < |states|
  {
    if i == 0 then {} else
      Refusals(config, es, states, id, i - 1)
        + if Refuses(config, states[i - 1], es[i - 1], id) then {es[i - 1].h.attempt} else {}
  }

  function Waiting(row: Row): nat {
    if row.status.Pending? || row.status.Failed? then 1 else 0
  }

  ghost predicate Budgeted(config: Config, s: System, id: Id, refusals: set<nat>, stale: nat) {
    && (id in s.rows ==> s.rows[id].attempts + Waiting(s.rows[id]) <= 1 + |refusals| + stale)
    && (forall a :: a in refusals ==> id in s.rows && 1 <= a <= s.rows[id].attempts && !GivesUp(config, a))
    && (forall h :: h in s.held && h.id == id ==> h.attempt !in refusals)
  }

  lemma StepKeepsBudget(config: Config, s: System, e: Event, id: Id, refusals: set<nat>, stale: nat)
    requires Inv(config, s) && Enabled(config, s, e) && Budgeted(config, s, id, refusals, stale)
    ensures Budgeted(config, Step(config, s, e), id,
                     refusals + if Refuses(config, s, e, id) then {e.h.attempt} else {},
                     stale + if IsStaleClaim(s, e, id) then 1 else 0)
  {
    if e.Settle? && e.h.id == id {
      var i :| 0 <= i < |s.handed| && s.handed[i] == e.h;
      forall h | h in s.held && h.id == id && h != e.h ensures h.attempt != e.h.attempt {
        var j :| 0 <= j < |s.handed| && s.handed[j] == h;
      }
      assert |refusals + {e.h.attempt}| == |refusals| + 1;
    } else {
      assert refusals + {} == refusals;
    }
  }

  lemma {:induction false} RunKeepsBudget(config: Config, es: seq<Event>, states: seq<System>, id: Id, i: nat)
    requires Run(config, es, states) && i <= |es|
    ensures Budgeted(config, states[i], id, Refusals(config, es, states, id, i), StaleClaims(es, states, id, i))
  {
    if i > 0 {
      RunKeepsBudget(config, es, states, id, i - 1);
      RunKeepsInv(config, es, states, i - 1);
      assert states[i - 1 + 1] == Step(config, states[i - 1], es[i - 1]);
      StepKeepsBudget(config, states[i - 1], es[i - 1], id, Refusals(config, es, states, id, i - 1),
        StaleClaims(es, states, id, i - 1));
    }
  }

  /** The number of attempts after which a failure is final. */
  function Maximum(config: Config): nat
    requires config.kind.Ingestion? || config.maxAttempts > 0
  {
    if config.maxAttempts < 1 then 3 else config.maxAttempts
  }

  lemma {:induction false} FewBelow(s: set<nat>, max: nat)
    requires max > 0 && forall a :: a in s ==> 1 <= a < max
    ensures |s| < max
  {
    if max == 1 {
      assert s == {};
    } else {
      FewBelow(s - {max - 1}, max - 1);
    }
  }

  /** Whatever crashes or comes back late, a row is claimed at most as often as the
      maximum plus the times it was taken from a worker that had it. */
  lemma AttemptsAreBounded(config: Config, es: seq<Event>, states: seq<System>, id: Id, i: nat)
    requires config.kind.Ingestion? || config.maxAttempts > 0
    requires Run(config, es, states) && i <= |es| && id in states[i].rows
    ensures Claims(states[i].handed, id) + Waiting(states[i].rows[id])
      <= Maximum(config) + StaleClaims(es, states, id, i)
  {
    RunKeepsInv(config, es, states, i);
    RunKeepsBudget(config, es, states, id, i);
    FewBelow(Refusals(config, es, states, id, i), Maximum(config));
  }

  /** A row that never went stale and was neither delivered nor read is dead exactly when
      its last permitted attempt has been marked: not before, and never later. */
  lemma DeadAtExactlyTheMaximum(config: Config, es: seq<Event>, states: seq<System>, id: Id, i: nat)
    requires config.kind.Ingestion? || config.maxAttempts > 0
    requires Run(config, es, states) && i <= |es| && id in states[i].rows && StaleClaims(es, states, id, i) == 0
    ensures Claims(states[i].handed, id) <= Maximum(config)
    ensures var row := states[i].rows[id]; row.status in {Pending, Failed, DeadLetter} ==>
      (row.status.DeadLetter? <==> Claims(states[i].handed, id) == Maximum(config))
  {
    RunKeepsInv(config, es, states, i);
    AttemptsAreBounded(config, es, states, id, i);
  }

  /** Notifications without a maximum are retried for ever: none is ever dead. */
  lemma NoMaximumNoDeath(config: Config, es: seq<Event>, states: seq<System>, id: Id, i: nat)
    requires config.kind.Notification? && config.maxAttempts < 1
    requires Run(config, es, states) && i <= |es| && id in states[i].rows
    ensures !states[i].rows[id].status.DeadLetter?
  {
    RunKeepsInv(config, es, states, i);
    assert Plausible(config, states[i].rows[id]);
  }

  // ---- Spacing of attempts -----------------------------------------------------------------------

  /** Every earlier attempt of a row lies at least its own delay before the time. */
  ghost predicate Rested(config: Config, handed: seq<Handout>, id: Id, n: nat, time: int)
    requires n <= |handed|
  {
    forall i :: 0 <= i < n && handed[i].id == id ==> handed[i].at + Delay(config.kind, handed[i].attempt) <= time
  }

  ghost predicate Spaced(config: Config, s: System, id: Id) {
    && (forall h :: h in s.held && h.id == id ==> id in s.rows && s.rows[id].attempts == h.attempt)
    && (forall h :: h in s.held && h.id == id ==> s.rows[id].status in {Processing, Read})
    && (forall j :: 0 <= j < |s.handed| && s.handed[j].id == id ==> Rested(config, s.handed, id, j, s.handed[j].at))
    && (id in s.rows && s.rows[id].status.Failed?
        ==> s.rows[id].next.At? && Rested(config, s.handed, id, |s.handed|, s.rows[id].next.time))
  }

  lemma ClaimKeepsSpacing(config: Config, s: System, e: Event, id: Id)
    requires Inv(config, s) && Enabled(config, s, e) && Spaced(config, s, id) && e.Claim? && !IsStaleClaim(s, e, id)
    ensures Spaced(config, Step(config, s, e), id)
  {
    var t := Step(config, s, e);
    forall j | 0 <= j < |t.handed| && t.handed[j].id == id ensures Rested(config, t.handed, id, j, t.handed[j].at) {
      if j < |s.handed| {
        assert Rested(config, s.handed, id, j, s.handed[j].at);
      } else if s.rows[id].status.Pending? {
        assert forall i :: 0 <= i < |s.handed| ==> s.handed[i].id != id;
      } else {
        assert Rested(config, s.handed, id, |s.handed|, s.rows[id].next.time);
      }
    }
  }

  lemma SettleKeepsSpacing(config: Config, s: System, e: Event, id: Id)
    requires Inv(config, s) && Enabled(config, s, e) && Spaced(config, s, id) && e.Settle?
    ensures Spaced(config, Step(config, s, e), id)
  {
    if e.h.id == id {
      var k :| 0 <= k < |s.handed| && s.handed[k] == e.h;
      forall h | h in s.held && h.id == id ensures h == e.h {
        var j :| 0 <= j < |s.handed| && s.handed[j] == h;
      }
      assert Rested(config, s.handed, id, k, e.h.at);
      assert forall i :: k < i < |s.handed| ==> s.handed[i].id != id;
    }
  }

  lemma {:induction false} RunKeepsSpacing(config: Config, es: seq<Event>, states: seq<System>, id: Id, i: nat)
    requires Run(config, es, states) && i <= |es| && StaleClaims(es, states, id, i) == 0
    ensures Spaced(config, states[i], id)
  {
    if i > 0 {
      RunKeepsSpacing(config, es, states, id, i - 1);
      RunKeepsInv(config, es, states, i - 1);
      var s, e := states[i - 1], es[i - 1];
      assert states[i - 1 + 1] == Step(config, s, e);
      if e.Claim? { ClaimKeepsSpacing(config, s, e, id); }
      else if e.Settle? { SettleKeepsSpacing(config, s, e, id); }
    }
  }

  /** The attempts of a row that never went stale are apart by at least the delay that
      belongs to the earlier one, on the claiming workers' own clocks. */
  lemma RetriesWaitTheirDelay(config: Config, es: seq<Event>, states: seq<System>, id: Id, i: nat, j: nat, k: nat)
    requires Run(config, es, states) && i <= |es| && StaleClaims(es, states, id, i) == 0
    requires j < k < |states[i].handed| && states[i].handed[j].id == id && states[i].handed[k].id == id
    ensures states[i].handed[j].at + Delay(config.kind, states[i].handed[j].attempt) <= states[i].handed[k].at
  {
    RunKeepsSpacing(config, es, states, id, i);
    assert Rested(config, states[i].handed, id, k, states[i].handed[k].at);
  }

  // ---- What stale claims break ------------------------------------------------------------------------

  predicate CountsAsDelivered(row: Row) {
    row.status.Done? || row.status.Read?
  }

  /** Event `k` of the run is a worker writing down that it delivered the row. */
  ghost predicate MarksDelivered(es: seq<Event>, k: nat, id: Id) {
    k < |es| && es[k].Settle? && es[k].h.id == id && es[k].verdict.Delivered? && !es[k].lost
  }

  /** A delivery that is written down counts for ever if and only if the row is being
      processed at that moment, or already counts as delivered or read: not if another
      worker's failure has put it back or ended it. */
  lemma DeliveryCountsExactly(config: Config, es: seq<Event>, states: seq<System>, k: nat, id: Id)
    requires Run(config, es, states) && MarksDelivered(es, k, id)
    ensures id in states[k].rows
    ensures (forall i :: k < i < |states| ==> id in states[i].rows && CountsAsDelivered(states[i].rows[id]))
      <==> states[k].rows[id].status.Processing? || CountsAsDelivered(states[k].rows[id])
  {
    RunKeepsInv(config, es, states, k);
    var h := es[k].h;
    assert h in states[k].held && h in states[k].handed;
    assert states[k + 1] == Step(config, states[k], es[k]);
    assert states[k + 1].rows[id] == Marked(config, states[k].rows[id], h.attempt, Delivered);
    if states[k].rows[id].status.Processing? || CountsAsDelivered(states[k].rows[id]) {
      forall i | k < i < |states| ensures id in states[i].rows && CountsAsDelivered(states[i].rows[id]) {
        TerminalIsForEver(config, es, states, k + 1, i, id);
      }
    }
  }

  /** Without stale claims a delivered row always counts as delivered. */
  lemma DeliveredStaysDelivered(config: Config, es: seq<Event>, states: seq<System>, k: nat, id: Id, i: nat)
    requires Run(config, es, states) && MarksDelivered(es, k, id) && k < i < |states|
    requires StaleClaims(es, states, id, k) == 0
    ensures id in states[i].rows && CountsAsDelivered(states[i].rows[id])
  {
    RunKeepsSpacing(config, es, states, id, k);
    assert es[k].h in states[k].held;
    DeliveryCountsExactly(config, es, states, k, id);
  }

  // ---- The bound on attempts is reached ------------------------------------------------------------------

  lemma {:induction false} StaleClaimsOfPrefix(es: seq<Event>, states: seq<System>, longer: seq<Event>,
    more: seq<System>, id: Id, i: nat)
    requires es <= longer && states <= more && i <= |es| < |states| && |longer| < |more|
    ensures StaleClaims(longer, more, id, i) == StaleClaims(es, states, id, i)
  {
    if i > 0 { StaleClaimsOfPrefix(es, states, longer, more, id, i - 1); }
  }

  /** One more event of a run. */
  lemma Then(config: Config, es: seq<Event>, states: seq<System>, e: Event)
    returns (longer: seq<Event>, more: seq<System>)
    requires Run(config, es, states) && Enabled(config, states[|es|], e)
    ensures Run(config, longer, more) && |longer| == |es| + 1 && longer[|es|] == e
        && more[|longer|] == Step(config, states[|es|], e)
    ensures StaleClaims(longer, more, 0, |longer|) ==
      StaleClaims(es, states, 0, |es|) + if IsStaleClaim(states[|es|], e, 0) then 1 else 0
  {
    longer, more := es + [e], states + [Step(config, states[|es|], e)];
    StaleClaimsOfPrefix(es, states, longer, more, 0, |es|);
  }

  /** The table holds row 0 alone, waiting after `n` attempts. */
  predicate WaitsAfter(s: System, n: nat) {
    && 0 in s.rows && s.rows[0].attempts == n && (s.rows[0].status.Pending? || s.rows[0].status.Failed?)
  }

  /** A row can be attempted and refused any number of times below the maximum. */
  lemma {:induction false} RefusedTimes(config: Config, n: nat) returns (es: seq<Event>, states: seq<System>)
    requires (config.kind.Ingestion? || config.maxAttempts > 0) && n < Maximum(config)
    ensures Run(config, es, states) && WaitsAfter(states[|es|], n) && StaleClaims(es, states, 0, |es|) == 0
  {
    if n == 0 {
      es, states := Then(config, [], [START], Insert(0, false, Owner("", ""), 0));
    } else {
      es, states := RefusedTimes(config, n - 1);
      var row := states[|es|].rows[0];
      var now := if row.next.Never? then 0 else row.next.time;
      es, states := Then(config, es, states, Claim(0, 0, now));
      var h := Handout(0, 0, n, now);
      es, states := Then(config, es, states, Settle(h, Refused(now), false));
    }
  }

  /** The table's row 0 is in the hands of the worker it was handed to last. */
  predicate InHands(s: System, h: Handout) {
    && 0 in s.rows && s.rows[0].status.Processing? && s.rows[0].claimed == At(h.at) && s.rows[0].attempts == h.attempt
    && h in s.held && h.id == 0
  }

  /** After its last permitted attempt a row can be taken from its worker any number of times. */
  lemma {:induction false} TakenTimes(config: Config, k: nat) returns (es: seq<Event>, states: seq<System>, h: Handout)
    requires config.kind.Ingestion? || config.maxAttempts > 0
    ensures Run(config, es, states) && StaleClaims(es, states, 0, |es|) == k
    ensures InHands(states[|es|], h) && h.attempt == Maximum(config) + k && h.worker == k
  {
    if k == 0 {
      es, states := RefusedTimes(config, Maximum(config) - 1);
      var row := states[|es|].rows[0];
      h := Handout(0, 0, Maximum(config), if row.next.Never? then 0 else row.next.time);
    } else {
      es, states, h := TakenTimes(config, k - 1);
      h := Handout(k, 0, Maximum(config) + k, h.at + StaleAfter(config.kind) + 1);
    }
    es, states := Then(config, es, states, Claim(k, 0, h.at));
  }

  /** The bound on attempts is reached: for every maximum and every number of stale claims
      there is a run with exactly so many stale claims that claims a row as often as the
      bound allows. */
  lemma AttemptBoundIsReached(config: Config, k: nat) returns (es: seq<Event>, states: seq<System>)
    requires config.kind.Ingestion? || config.maxAttempts > 0
    ensures Run(config, es, states) && StaleClaims(es, states, 0, |es|) == k
    ensures Claims(states[|es|].handed, 0) == Maximum(config) + k
  {
    var h;
    es, states, h := TakenTimes(config, k);
    EachAttemptIsHandedOutOnce(config, es, states, |es|);
  }

  /** One stale claim is enough to lose a delivery, under every maximum: the row is taken
      from its worker, refused by the next one and ended, and then the first worker writes
      down that it delivered it. */
  lemma StaleClaimLosesADelivery(config: Config) returns (es: seq<Event>, states: seq<System>)
    requires config.kind.Ingestion? || config.maxAttempts > 0
    ensures Run(config, es, states) && es != [] && MarksDelivered(es, |es| - 1, 0)
    ensures StaleClaims(es, states, 0, |es|) == 1
    ensures 0 in states[|es|].rows && states[|es|].rows[0].status.DeadLetter?
  {
    var first;
    es, states, first := TakenTimes(config, 0);
    var second := Handout(1, 0, Maximum(config) + 1, first.at + StaleAfter(config.kind) + 1);
    es, states := Then(config, es, states, Claim(1, 0, second.at));
    es, states := Then(config, es, states, Settle(second, Refused(second.at), false));
    es, states := Then(config, es, states, Settle(first, Delivered, false));
  }
}
