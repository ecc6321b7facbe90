/** Metered quotas: a locked counter per month, and the reserve, create, refund protocol
    the record and knowledge services run around it, raced by any number of requests. */
module Quota {

  type Month = int

  // ---- The counter -----------------------------------------------------------------

  /** Only growth is limited. */
  predicate Allowed(quantity: nat, q: int, limit: int) {
    !(q > 0 && quantity + q > limit)
  }

  function Recorded(quantity: nat, q: int, limit: int): nat {
    if !Allowed(quantity, q, limit) then quantity
    else if quantity + q < 0 then 0
    else quantity + q
  }

  datatype Metric = Users | Records | KnowledgeBytes | AITokens

  datatype Key = Key(tenant: string, metric: Metric, month: Month)

  function Quantity(counters: map<Key, nat>, key: Key): nat {
    if key in counters then counters[key] else 0
  }

  datatype Answer = Fine | QuotaExceeded | UnknownMetric | CreateFailed | NotFound | Conflict

  predicate Known(name: string) {
    name in {"users", "records", "knowledge_bytes", "ai_tokens"}
  }

  function MetricOf(name: string): Metric
    requires Known(name)
  {
    if name == "users" then Users else if name == "records" then Records
    else if name == "knowledge_bytes" then KnowledgeBytes else AITokens
  }

  class Usage {
    var counters: map<Key, nat>

    constructor ()
      ensures counters == map[]
    {
      counters := map[];
    }

    /** One transaction: insert the row if it is missing, lock it, decide, write. */
    method RecordUsage(key: Key, q: int, limit: int) returns (allowed: bool)
      modifies this
      ensures allowed == Allowed(Quantity(old(counters), key), q, limit)
      ensures Quantity(counters, key) == Recorded(Quantity(old(counters), key), q, limit)
      ensures counters == old(counters)[key := Quantity(counters, key)]
    {
      if key !in counters {
        counters := counters[key := 0];
      }
      var quantity := counters[key];
      if q > 0 && quantity + q > limit {
        return false;
      }
      var next: int := quantity + q;
      if next < 0 {
        next := 0;
      }
      counters := counters[key := next];
      return true;
    }

    /** The service in front of it: an unknown metric touches nothing. */
    method Consume(tenant: string, metric: string, month: Month, q: int, limits: Metric -> int) returns (a: Answer)
      modifies this
      ensures !Known(metric) ==> a == UnknownMetric && counters == old(counters)
      ensures a == UnknownMetric <==> metric !in {"users", "records", "knowledge_bytes", "ai_tokens"}
      ensures Known(metric) ==> forall key :: Quantity(counters, key) != Quantity(old(counters), key) ==>
        && key.tenant == tenant && key.month == month
        && key.metric == match metric
             case "users" => Users
             case "records" => Records
             case "knowledge_bytes" => KnowledgeBytes
             case _ => AITokens
      ensures Known(metric) ==> var key := Key(tenant, MetricOf(metric), month);
        && a == (if Allowed(Quantity(old(counters), key), q, limits(key.metric)) then Fine else QuotaExceeded)
        && counters == old(counters)[key := Recorded(Quantity(old(counters), key), q, limits(key.metric))]
    {
      if !Known(metric) {
        return UnknownMetric;
      }
      var key := Key(tenant, MetricOf(metric), month);
      var allowed := RecordUsage(key, q, limits(key.metric));
      return if allowed then Fine else QuotaExceeded;
    }
  }

  datatype Row = Row(version: nat, active: bool)

  /** Records of one tenant behind the meter. */
  class RecordService {
    const tenant: string
    const limits: Metric -> int
    const usage: Usage
    var rows: map<nat, Row>

    constructor (tenant: string, limits: Metric -> int, usage: Usage)
      ensures this.tenant == tenant && this.limits == limits && this.usage == usage && rows == map[]
    {
      this.tenant, this.limits, this.usage := tenant, limits, usage;
      rows := map[];
    }

    function Used(month: Month): nat
      reads this, usage
    {
      Quantity(usage.counters, Key(tenant, Records, month))
    }

    /** A creation counts one exactly when a row appears, and a failed insert gives one back,
        to the month it is by then: the counters are as they were if that is the same month. */
    method Create(id: nat, month: Month, later: Month, inserts: bool) returns (a: Answer)
      requires id !in rows
      modifies this, usage
      ensures a == if old(Used(month)) + 1 > limits(Records) then QuotaExceeded else if inserts then Fine
          else CreateFailed
      ensures rows == if a == Fine then old(rows)[id := Row(1, true)] else old(rows)
      ensures Used(month) == old(Used(month)) + if a == Fine || (a == CreateFailed && later != month) then 1 else 0
      ensures later != month ==>
        Used(later) == old(Used(later)) - if a == CreateFailed && old(Used(later)) > 0 then 1 else 0
      ensures forall other :: other != month && other != later ==> Used(other) == old(Used(other))
    {
      a := usage.Consume(tenant, "records", month, 1, limits);
      if a != Fine {
        return;
      }
      if inserts {
        rows := rows[id := Row(1, true)];
        return;
      }
      var refund := usage.Consume(tenant, "records", later, -1, limits);
      return CreateFailed;
    }

    /** A deletion refunds one exactly when it archived the row, so a row is refunded at most once. */
    method Delete(id: nat, expected: nat, month: Month) returns (a: Answer)
      modifies this, usage
      ensures a == if id !in old(rows) || !old(rows)[id].active then NotFound
                   else if old(rows)[id].version != expected then Conflict else Fine
      ensures rows == if a == Fine then old(rows)[id := Row(expected + 1, false)] else old(rows)
      ensures Used(month) == if a == Fine && old(Used(month)) > 0 then old(Used(month)) - 1 else old(Used(month))
      ensures forall other :: other != month ==> Used(other) == old(Used(other))
    {
      if id in rows && rows[id].active && rows[id].version == expected {
        rows := rows[id := Row(expected + 1, false)];
        var refund := usage.Consume(tenant, "records", month, -1, limits);
        return Fine;
      }
      return if id !in rows || !rows[id].active then NotFound else Conflict;
    }
  }
}

/** The races: one counter, any number of requests between their steps, crashes at any
    point, refunds that fail and refunds that arrive in another month. */
module QuotaProtocol {
  import opened Quota

  datatype Phase =
    | Reserved             // counted, nothing stored yet
    | Aborted              // storing failed, refund owed
    | Stored(version: nat)
    | Archived             // deleted, refund owed
    | Refunded             // the month it was counted in got it back
    | Strayed              // another month got it back
    | Lost                 // its process died, or the refund failed: nobody will refund it

  datatype Ticket = Ticket(month: Month, weight: nat, phase: Phase)

  datatype System = System(counters: map<Month, nat>, tickets: seq<Ticket>)

  const START := System(map[], [])

  function Counter(s: System, m: Month): nat {
    if m in s.counters then s.counters[m] else 0
  }

  datatype Event =
    | Reserve(month: Month, weight: nat)
    | Store(t: nat, ok: bool)
    | Update(t: nat, expected: nat)
    | Delete(t: nat, expected: nat)
    | Refund(t: nat, month: Month, ok: bool)
    | Crash(t: nat)

  predicate Enabled(s: System, e: Event) {
    match e
    case Reserve(_, weight) => weight > 0
    case Store(t, _) => t < |s.tickets| && s.tickets[t].phase.Reserved?
    case Update(t, _) => t < |s.tickets|
    case Delete(t, _) => t < |s.tickets|
    case Refund(t, _, _) => t < |s.tickets| && (s.tickets[t].phase.Aborted? || s.tickets[t].phase.Archived?)
    case Crash(t) => t < |s.tickets|
                      && (s.tickets[t].phase.Reserved? || s.tickets[t].phase.Aborted? || s.tickets[t].phase.Archived?)
  }

  function Moved(s: System, t: nat, phase: Phase): seq<Ticket>
    requires t < |s.tickets|
  {
    s.tickets[t := s.tickets[t].(phase := phase)]
  }

  function Step(s: System, e: Event, limit: int): System
    requires Enabled(s, e)
  {
    match e
    case Reserve(month, weight) =>
      if !Allowed(Counter(s, month), weight, limit) then s
      else System(s.counters[month := Recorded(Counter(s, month), weight, limit)],
        s.tickets + [Ticket(month, weight, Reserved)])
    case Store(t, ok) => s.(tickets := Moved(s, t, if ok then Stored(1) else Aborted))
    case Update(t, expected) =>
      if s.tickets[t].phase == Stored(expected) then s.(tickets := Moved(s, t, Stored(expected + 1))) else s
    case Delete(t, expected) =>
      if s.tickets[t].phase == Stored(expected) then s.(tickets := Moved(s, t, Archived)) else s
    case Refund(t, month, ok) =>
      if !ok then s.(tickets := Moved(s, t, Lost))
      else System(s.counters[month := Recorded(Counter(s, month), -(s.tickets[t].weight as int), limit)],
                  Moved(s, t, if month == s.tickets[t].month then Refunded else Strayed))
    case Crash(t) => s.(tickets := Moved(s, t, Lost))
  }

  // ---- Where the counted units are ------------------------------------------------------

  datatype Part = Active | InFlight | Owed | Leaked | Returned

  function PartOf(p: Phase): Part {
    match p
    case Reserved => InFlight
    case Aborted => Owed
    case Stored(_) => Active
    case Archived => Owed
    case Refunded => Returned
    case Strayed => Leaked
    case Lost => Leaked
  }

  function Units(t: Ticket, m: Month, part: Part): nat {
    if t.month == m && PartOf(t.phase) == part then t.weight else 0
  }

  ghost function Sum(tickets: seq<Ticket>, m: Month, part: Part): nat {
    if tickets == [] then 0 else
      Sum(tickets[..|tickets| - 1], m, part) + Units(tickets[|tickets| - 1], m, part)
  }

  /** Everything counted in a month and not given back to it. */
  ghost function Outstanding(tickets: seq<Ticket>, m: Month): nat {
    Sum(tickets, m, Active) + Sum(tickets, m, InFlight) + Sum(tickets, m, Owed) + Sum(tickets, m, Leaked)
  }

  lemma {:induction false} SumMoves(tickets: seq<Ticket>, i: nat, t: Ticket, m: Month, part: Part)
    requires i < |tickets|
    ensures Sum(tickets[i := t], m, part) == Sum(tickets, m, part) - Units(tickets[i], m, part) + Units(t, m, part)
    ensures Units(tickets[i], m, part) <= Sum(tickets, m, part)
  {
    var n := |tickets| - 1;
    if i == n {
      assert tickets[i := t][..n] == tickets[..n];
    } else {
      SumMoves(tickets[..n], i, t, m, part);
      assert tickets[i := t][..n] == tickets[..n][i := t];
    }
  }

  lemma OutstandingMoves(tickets: seq<Ticket>, i: nat, phase: Phase, m: Month)
    requires i < |tickets|
    ensures var t := tickets[i]; var after := tickets[i := t.(phase := phase)];
      Outstanding(after, m) == Outstanding(tickets, m)
        - (if t.month == m && !t.phase.Refunded? then t.weight else 0)
        + (if t.month == m && !phase.Refunded? then t.weight else 0)
    ensures tickets[i].month == m && !tickets[i].phase.Refunded? ==> tickets[i].weight <= Outstanding(tickets, m)
  {
    var t := tickets[i].(phase := phase);
    SumMoves(tickets, i, t, m, Active);
    SumMoves(tickets, i, t, m, InFlight);
    SumMoves(tickets, i, t, m, Owed);
    SumMoves(tickets, i, t, m, Leaked);
  }

  // ---- Runs --------------------------------------------------------------------------------

  ghost predicate Run(limit: int, es: seq<Event>, states: seq<System>) {
    && |states| == |es| + 1 && states[0] == START
    && forall i :: 0 <= i < |es| ==> Enabled(states[i], es[i]) && states[i + 1] == Step(states[i], es[i], limit)
  }

  /** Units a step gives back to a month they were not counted in. */
  function Foreign(s: System, e: Event, m: Month): nat {
    if e.Refund? && e.ok && e.month == m && e.t < |s.tickets| && s.tickets[e.t].month != m
    then s.tickets[e.t].weight else 0
  }

  /** Units a step fails to give back because the counter stops at zero. */
  function Clamped(s: System, e: Event, m: Month): nat {
    if e.Refund? && e.ok && e.month == m && e.t < |s.tickets| && Counter(s, m) < s.tickets[e.t].weight
    then s.tickets[e.t].weight - Counter(s, m) else 0
  }

  ghost function AllForeign(es: seq<Event>, states: seq<System>, m: Month, i: nat): nat
    requires i <= |es| < |states|
  {
    if i == 0 then 0 else AllForeign(es, states, m, i - 1) + Foreign(states[i - 1], es[i - 1], m)
  }

  ghost function AllClamped(es: seq<Event>, states: seq<System>, m: Month, i: nat): nat
    requires i <= |es| < |states|
  {
    if i == 0 then 0 else AllClamped(es, states, m, i - 1) + Clamped(states[i - 1], es[i - 1], m)
  }

  /** What a limit lets a counter reach: a negative one refuses everything. */
  function Cap(limit: int): nat {
    if limit < 0 then 0 else limit
  }

  /** The cap, and the balance with what was given back for others and what the clamp took. */
  ghost predicate Balanced(s: System, limit: int, m: Month, foreign: nat, clamped: nat) {
    Counter(s, m) <= Cap(limit) && Counter(s, m) + foreign == Outstanding(s.tickets, m) + clamped
  }

  lemma ReserveBalances(s: System, e: Event, limit: int, m: Month, foreign: nat, clamped: nat)
    requires Enabled(s, e) && e.Reserve? && Balanced(s, limit, m, foreign, clamped)
    ensures Balanced(Step(s, e, limit), limit, m, foreign, clamped)
  {
    var more := s.tickets + [Ticket(e.month, e.weight, Reserved)];
    assert more[..|more| - 1] == s.tickets;
  }

  lemma RefundBalances(s: System, e: Event, limit: int, m: Month, foreign: nat, clamped: nat)
    requires Enabled(s, e) && e.Refund? && e.ok && Balanced(s, limit, m, foreign, clamped)
    ensures Balanced(Step(s, e, limit), limit, m, foreign + Foreign(s, e, m), clamped + Clamped(s, e, m))
  {
    OutstandingMoves(s.tickets, e.t, if e.month == s.tickets[e.t].month then Refunded else Strayed, m);
  }

  /** Any other step moves a ticket between the phases that count. */
  lemma OthersBalance(s: System, e: Event, limit: int, m: Month, foreign: nat, clamped: nat)
    requires Enabled(s, e) && !e.Reserve? && !(e.Refund? && e.ok) && Balanced(s, limit, m, foreign, clamped)
    ensures Balanced(Step(s, e, limit), limit, m, foreign, clamped)
  {
    match e
    case Store(t, ok) => OutstandingMoves(s.tickets, t, if ok then Stored(1) else Aborted, m);
    case Update(t, expected) => OutstandingMoves(s.tickets, t, Stored(expected + 1), m);
    case Delete(t, _) => OutstandingMoves(s.tickets, t, Archived, m);
    case Refund(t, _, _) => OutstandingMoves(s.tickets, t, Lost, m);
    case Crash(t) => OutstandingMoves(s.tickets, t, Lost, m);
  }

  lemma StepBalances(s: System, e: Event, limit: int, m: Month, foreign: nat, clamped: nat)
    requires Enabled(s, e) && Balanced(s, limit, m, foreign, clamped)
    ensures Balanced(Step(s, e, limit), limit, m, foreign + Foreign(s, e, m), clamped + Clamped(s, e, m))
  {
    if e.Reserve? {
      ReserveBalances(s, e, limit, m, foreign, clamped);
    } else if e.Refund? && e.ok {
      RefundBalances(s, e, limit, m, foreign, clamped);
    } else {
      OthersBalance(s, e, limit, m, foreign, clamped);
    }
  }

  /** The books of every month balance in every run, crashes, failed refunds and refunds
      from other months included; and the counter never passes the limit. */
  lemma {:induction false} BooksBalance(limit: int, es: seq<Event>, states: seq<System>, m: Month, i: nat)
    requires Run(limit, es, states) && i <= |es|
    ensures Counter(states[i], m) <= Cap(limit)
    ensures Counter(states[i], m) + AllForeign(es, states, m, i)
        == Outstanding(states[i].tickets, m) + AllClamped(es, states, m, i)
  {
    if i > 0 {
      BooksBalance(limit, es, states, m, i - 1);
      assert states[i - 1 + 1] == Step(states[i - 1], es[i - 1], limit);
      StepBalances(states[i - 1], es[i - 1], limit, m, AllForeign(es, states, m, i - 1),
        AllClamped(es, states, m, i - 1));
    }
  }

  /** When a month gets back only what was counted in it, the clamp never acts on it. */
  lemma {:induction false} ClampNeverFires(limit: int, es: seq<Event>, states: seq<System>, m: Month, i: nat)
    requires Run(limit, es, states) && i <= |es| && AllForeign(es, states, m, i) == 0
    ensures AllClamped(es, states, m, i) == 0
  {
    if i > 0 {
      ClampNeverFires(limit, es, states, m, i - 1);
      BooksBalance(limit, es, states, m, i - 1);
      var s, e := states[i - 1], es[i - 1];
      assert Enabled(s, e);
      if e.Refund? && e.ok && e.month == m {
        OutstandingMoves(s.tickets, e.t, Refunded, m);
      }
    }
  }

  /** A month that only gets back what was counted in it is exact: its counter is what is
      stored, plus what is being stored, plus what is being given back, plus what crashes
      and failed refunds leaked. So concurrent creations never exceed the limit. */
  lemma QuotaIsSafe(limit: int, es: seq<Event>, states: seq<System>, m: Month, i: nat)
    requires Run(limit, es, states) && i <= |es| && AllForeign(es, states, m, i) == 0
    ensures var ts := states[i].tickets;
      Counter(states[i], m) == Sum(ts, m, Active) + Sum(ts, m, InFlight) + Sum(ts, m, Owed)
        + Sum(ts, m, Leaked) <= Cap(limit)
  {
    BooksBalance(limit, es, states, m, i);
    ClampNeverFires(limit, es, states, m, i);
  }

  /** In every run, what a month stores exceeds the limit by at most what it gave back for
      other months. */
  lemma OverrunIsForeign(limit: int, es: seq<Event>, states: seq<System>, m: Month, i: nat)
    requires Run(limit, es, states) && i <= |es|
    ensures Sum(states[i].tickets, m, Active) <= Cap(limit) + AllForeign(es, states, m, i)
  {
    BooksBalance(limit, es, states, m, i);
  }

  // ---- The bound is reached ---------------------------------------------------------------------

  lemma {:induction false} ForeignOfPrefix(es: seq<Event>, states: seq<System>, e: Event, t: System, m: Month, i: nat)
    requires i <= |es| && |states| == |es| + 1
    ensures AllForeign(es + [e], states + [t], m, i) == AllForeign(es, states, m, i)
  {
    if i > 0 { ForeignOfPrefix(es, states, e, t, m, i - 1); }
  }

  /** A run so far: the state it led to, and what it gave back to a month for others. */
  ghost predicate LeadsTo(limit: int, es: seq<Event>, states: seq<System>, s: System, m: Month, foreign: nat) {
    Run(limit, es, states) && states[|es|] == s && AllForeign(es, states, m, |es|) == foreign
  }

  lemma Then(limit: int, es: seq<Event>, states: seq<System>, s: System, m: Month, foreign: nat, e: Event)
    returns (longer: seq<Event>, more: seq<System>)
    requires LeadsTo(limit, es, states, s, m, foreign) && Enabled(s, e)
    ensures LeadsTo(limit, longer, more, Step(s, e, limit), m, foreign + Foreign(s, e, m))
  {
    longer, more := es + [e], states + [Step(s, e, limit)];
    ForeignOfPrefix(es, states, e, Step(s, e, limit), m, |es|);
  }

  function Kept(month: Month): Ticket {
    Ticket(month, 1, Stored(1))
  }

  function StoredOne(s: System, month: Month): System {
    System(s.counters[month := Counter(s, month) + 1], s.tickets + [Kept(month)])
  }

  /** A record is created while there is room. */
  lemma StoreOne(limit: int, es: seq<Event>, states: seq<System>, s: System, m: Month, foreign: nat, month: Month)
    returns (longer: seq<Event>, more: seq<System>)
    requires LeadsTo(limit, es, states, s, m, foreign) && Counter(s, month) + 1 <= limit
    ensures LeadsTo(limit, longer, more, StoredOne(s, month), m, foreign)
  {
    longer, more := Then(limit, es, states, s, m, foreign, Reserve(month, 1));
    var t := Step(s, Reserve(month, 1), limit);
    longer, more := Then(limit, longer, more, t, m, foreign, Store(|s.tickets|, true));
    assert Step(t, Store(|s.tickets|, true), limit).tickets == s.tickets + [Kept(month)];
  }

  function GivenBack(s: System, i: nat, m: Month): System
    requires i < |s.tickets| && Counter(s, m) > 0
  {
    System(s.counters[m := Counter(s, m) - 1], Moved(s, i, Strayed))
  }

  /** A record counted in another month is deleted now. */
  lemma DeleteOne(limit: int, es: seq<Event>, states: seq<System>, s: System, m: Month, foreign: nat, i: nat,
    month: Month)
    returns (longer: seq<Event>, more: seq<System>)
    requires LeadsTo(limit, es, states, s, m, foreign)
    requires i < |s.tickets| && s.tickets[i] == Kept(month) && month != m && Counter(s, m) > 0
    ensures LeadsTo(limit, longer, more, GivenBack(s, i, m), m, foreign + 1)
  {
    longer, more := Then(limit, es, states, s, m, foreign, Delete(i, 1));
    var t := Step(s, Delete(i, 1), limit);
    longer, more := Then(limit, longer, more, t, m, foreign, Refund(i, m, true));
    assert Step(t, Refund(i, m, true), limit).tickets == Moved(s, i, Strayed);
  }

  /** Before month m: one record of each of the months 1 to n. */
  ghost predicate Early(s: System, n: nat, m: Month) {
    && |s.tickets| == n && (forall i :: 0 <= i < n ==> s.tickets[i] == Kept(i + 1))
    && (forall k :: k > n ==> Counter(s, k) == 0) && Sum(s.tickets, m, Active) == 0
  }

  lemma EarlyStore(s: System, n: nat, m: Month)
    requires n + 1 < m && Early(s, n, m)
    ensures Early(StoredOne(s, n + 1), n + 1, m)
  {
    var t := StoredOne(s, n + 1);
    assert t.tickets[..n] == s.tickets;
    forall k | k > n + 1 ensures Counter(t, k) == 0 {
      assert Counter(s, k) == 0;
    }
  }

  lemma {:induction false} EarlyMonths(limit: int, n: nat, m: Month)
    returns (es: seq<Event>, states: seq<System>, s: System)
    requires limit >= 1 && n < m
    ensures LeadsTo(limit, es, states, s, m, 0) && Early(s, n, m)
  {
    if n == 0 {
      es, states, s := [], [START], START;
    } else {
      es, states, s := EarlyMonths(limit, n - 1, m);
      es, states := StoreOne(limit, es, states, s, m, 0, n);
      EarlyStore(s, n - 1, m);
      s := StoredOne(s, n);
    }
  }

  /** In month m: the first of the n early records given back to it, and what it stores. */
  ghost predicate Late(s: System, n: nat, m: Month, given: nat, active: nat) {
    && |s.tickets| >= n && (forall i :: given <= i < n ==> s.tickets[i] == Kept(i + 1))
    && Counter(s, m) + given == Sum(s.tickets, m, Active) == active
  }

  lemma LateStore(s: System, n: nat, m: Month, given: nat, active: nat)
    requires Late(s, n, m, given, active)
    ensures Late(StoredOne(s, m), n, m, given, active + 1)
  {
    assert (s.tickets + [Kept(m)])[..|s.tickets|] == s.tickets;
  }

  lemma LateDelete(s: System, n: nat, m: Month, given: nat, active: nat)
    requires given < n < m && Late(s, n, m, given, active) && Counter(s, m) > 0
    ensures Late(GivenBack(s, given, m), n, m, given + 1, active)
  {
    SumMoves(s.tickets, given, s.tickets[given].(phase := Strayed), m, Active);
  }

  lemma {:induction false} FillMonth(limit: int, n: nat, m: Month, active: nat)
    returns (es: seq<Event>, states: seq<System>, s: System)
    requires active <= limit && 1 <= limit && n < m
    ensures LeadsTo(limit, es, states, s, m, 0) && Late(s, n, m, 0, active)
  {
    if active == 0 {
      es, states, s := EarlyMonths(limit, n, m);
    } else {
      es, states, s := FillMonth(limit, n, m, active - 1);
      es, states := StoreOne(limit, es, states, s, m, 0, m);
      LateStore(s, n, m, 0, active - 1);
      s := StoredOne(s, m);
    }
  }

  lemma {:induction false} GiveBackAndFill(limit: int, n: nat, m: Month, given: nat)
    returns (es: seq<Event>, states: seq<System>, s: System)
    requires given <= n < m && 1 <= limit
    ensures LeadsTo(limit, es, states, s, m, given) && Late(s, n, m, given, limit + given)
  {
    if given == 0 {
      es, states, s := FillMonth(limit, n, m, limit);
    } else {
      es, states, s := GiveBackAndFill(limit, n, m, given - 1);
      es, states := DeleteOne(limit, es, states, s, m, given - 1, given - 1, given);
      LateDelete(s, n, m, given - 1, limit + given - 1);
      s := GivenBack(s, given - 1, m);
      es, states := StoreOne(limit, es, states, s, m, given, m);
      LateStore(s, n, m, given, limit + given - 1);
      s := StoredOne(s, m);
    }
  }

  /** Deleting earlier months' records makes room this month: for every limit and every n,
      some run gives back n units to a month and stores that many beyond the limit in it. */
  lemma CrossingMonthsOverruns(limit: int, n: nat) returns (es: seq<Event>, states: seq<System>, m: Month)
    requires limit >= 1
    ensures Run(limit, es, states) && AllForeign(es, states, m, |es|) == n
    ensures Sum(states[|es|].tickets, m, Active) == Cap(limit) + n
  {
    m := n + 1;
    var s;
    es, states, s := GiveBackAndFill(limit, n, m, n);
  }
}
