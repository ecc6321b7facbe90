/** Leases against a shared clock: live workers renew before they expire, so
    fencing never has to stop a live worker. Times are milliseconds. */
module QueueLeases {
  import opened JobStore
  import opened QueueProtocol
  import opened QueueFencing

  /** The renewal period a worker uses for a lease of the given length. */
  function RenewalInterval(lease: nat): nat {
    if lease / 2 < 1000 then 1000 else lease / 2
  }

  /** The renewal due one interval after `since` is late by less than half a lease. */
  predicate OnTime(lease: nat, since: int, now: int) {
    2 * (now - since - RenewalInterval(lease)) < lease
  }

  /** Being on time means the lease is still alive, for exactly the leases of two
      seconds and more: the one-second floor on the interval eats the margin below. */
  lemma MarginHoldsFromTwoSeconds(lease: nat)
    requires lease > 0
    ensures (forall since: int, now: int :: OnTime(lease, since, now) ==> now < since + lease) <==> lease >= 2000
  {
    if lease < 2000 {
      var now := 1000 + (lease + 1) / 2 - 1;
      assert OnTime(lease, 0, now) && now >= 0 + lease;
    }
  }

  /** `leased` is when each live worker last claimed or renewed. */
  datatype Timed = Timed(sys: System, now: int, leased: map<nat, int>)

  datatype TimedEvent =
    | Tick(now: int)
    | Renew(w: nat, at: int)   // a worker renews the job it holds
    | Land(id: Id, at: int)    // any other renewal, computed at `at`, arrives: its attempt may long be over
    | ClaimAt(w: nat, at: int)
    | Act(e: Event)

  const BEGIN := Timed(START, 0, map[])

  /** Live workers are never late, nobody uses a timestamp from the future, and
      a worker without a live lease has crashed. */
  predicate Possible(t: Timed, lease: nat, te: TimedEvent) {
    match te
    case Tick(now) => now >= t.now && forall w :: w in t.leased ==> OnTime(lease, t.leased[w], now)
    case Renew(w, at) => w in t.leased && t.sys.Held(w) && t.leased[w] <= at <= t.now
    case Land(_, at) => at <= t.now
    case ClaimAt(w, at) => at <= t.now && OnTime(lease, at, t.now) && Enabled(t.sys, Claim(w, at + lease))
    case Act(e) =>
      Enabled(t.sys, e) &&
      match e
      case Claim(_, _) => false      // a claim is ClaimAt
      case Heartbeat(_, _) => false  // a heartbeat is Renew or Land
      case Load(w) => w in t.leased
      case Succeed(w) => w in t.leased
      case Fail(w, _, _) => w in t.leased
      case Move(src, now, _) => src == Processing ==> now <= t.now
      case _ => true
  }

  /** A renewal that arrives is not older than the lease of whoever owns the job now. */
  predicate Orderly(t: Timed, te: TimedEvent) {
    te.Land? ==> forall w :: w in t.leased && Owns(t.sys, w, te.id) ==> t.leased[w] <= te.at
  }

  predicate Allowed(t: Timed, lease: nat, te: TimedEvent) {
    Possible(t, lease, te) && Orderly(t, te)
  }

  /** The queue event behind a timed event. */
  function Underlying(t: Timed, lease: nat, te: TimedEvent): Option<Event>
    requires Possible(t, lease, te)
  {
    match te
    case Tick(_) => None
    case Renew(w, at) => Some(Heartbeat(t.sys.workers[w].job.id, at + lease))
    case Land(id, at) => Some(Heartbeat(id, at + lease))
    case ClaimAt(w, at) => Some(Claim(w, at + lease))
    case Act(e) => Some(e)
  }

  function TimedStep(t: Timed, lease: nat, te: TimedEvent): Timed
    requires WellFormed(t.sys) && Possible(t, lease, te)
  {
    var e := Underlying(t, lease, te);
    var sys := if e.None? then t.sys else Step(t.sys, e.value);
    match te
    case Tick(now) => t.(now := now)
    case Renew(w, at) => t.(sys := sys, leased := t.leased[w := at])
    case Land(_, _) => t.(sys := sys)
    case ClaimAt(w, at) =>
      t.(sys := sys, leased := if ClaimAnswer(t.sys.store).Some? then t.leased[w := at] else t.leased - {w})
    case Act(e) =>
      match e
      case Succeed(w) => t.(sys := sys, leased := t.leased - {w})
      case Fail(w, _, _) => t.(sys := sys, leased := t.leased - {w})
      case Crash(w) => t.(sys := sys, leased := t.leased - {w})
      case _ => t.(sys := sys)
  }

  /** The owner is live, and its entry lasts at least as long as its lease. */
  predicate EntryFits(t: Timed, lease: nat, w: nat, id: Id) {
    w in t.leased && (id in t.sys.store.processing ==> t.sys.store.processing[id] >= t.leased[w] + lease)
  }

  ghost predicate Busy(t: Timed, w: nat) {
    w in t.sys.workers && (t.sys.workers[w].Claimed? || t.sys.workers[w].Holding?)
  }

  /** Every worker with a job is live, on time, and covered by its lease entry. */
  ghost predicate Leased(t: Timed, lease: nat) {
    && (forall w, id :: Owns(t.sys, w, id) ==> EntryFits(t, lease, w, id))
    && (forall w :: w in t.leased ==> Busy(t, w) && OnTime(lease, t.leased[w], t.now))
  }

  ghost predicate TimedInv(t: Timed, lease: nat) {
    FencedInv(t.sys) && Leased(t, lease)
  }

  /** A reclaim that looks at the clock never takes the entry of a live worker. */
  lemma ReclaimSparesTheLive(t: Timed, lease: nat, now: int, limit: nat, w: nat, id: Id)
    requires lease >= 2000 && TimedInv(t, lease) && now <= t.now && Owns(t.sys, w, id)
    ensures id !in DueBatch(t.sys.store.processing, now, limit)
  {
    DueBatchMeaning(t.sys.store.processing, now, limit);
    MarginHoldsFromTwoSeconds(lease);
    assert EntryFits(t, lease, w, id);
  }

  lemma ReclaimFencesNobody(t: Timed, lease: nat, e: Event)
    requires lease >= 2000 && TimedInv(t, lease) && Enabled(t.sys, e)
    requires e.Move? && (e.src == Processing ==> e.now <= t.now)
    ensures Fence(Step(t.sys, e).workers, Reclaimed(t.sys, e)) == t.sys.workers
  {
    forall w | w in t.sys.workers
      ensures t.sys.workers[w].Claimed? ==> t.sys.workers[w].id !in Reclaimed(t.sys, e)
      ensures t.sys.workers[w].Holding? ==> t.sys.workers[w].job.id !in Reclaimed(t.sys, e)
    {
      if e.src == Processing && (t.sys.workers[w].Claimed? || t.sys.workers[w].Holding?) {
        var id := if t.sys.workers[w].Claimed? then t.sys.workers[w].id else t.sys.workers[w].job.id;
        assert Owns(t.sys, w, id);
        ReclaimSparesTheLive(t, lease, e.now, e.limit, w, id);
      }
    }
  }

  /** On the clock, a plain step is a fenced step: the discipline is met, not assumed. */
  lemma TimedStepIsFenced(t: Timed, lease: nat, te: TimedEvent)
    requires lease >= 2000 && TimedInv(t, lease) && Possible(t, lease, te)
    ensures var e := Underlying(t, lease, te);
      e.Some? ==> Enabled(t.sys, e.value) && Step(t.sys, e.value) == FencedStep(t.sys, e.value)
  {
    var e := Underlying(t, lease, te);
    if e.Some? {
      if e.value.Move? {
        ReclaimFencesNobody(t, lease, e.value);
      } else {
        NoFenceNeeded(Step(t.sys, e.value).workers);
      }
    }
  }

  // ---- Which renewals are harmless -----------------------------------------------------

  /** The latest moment at which a renewal is still on time. */
  function LastOnTime(lease: nat, since: int): int {
    since + lease - 1
  }

  /** Everything due is in a batch as large as there are due members. */
  lemma LargeBatchTakesAll(z: Scores, now: int, id: Id)
    requires id in z && z[id] <= now
    ensures id in DueBatch(z, now, |Due(z, now)|)
  {
    var due := Due(z, now);
    RankedIsRanked(due);
    assert id in due;
  }

  /** A stray renewal, of an attempt that may long be over, leaves the owner safe for as
      long as the owner is on time exactly when it is not older than the owner's own
      lease. An older one moves the entry back, and a reclaim can then take it from a
      live and punctual worker. */
  lemma StrayRenewalIsHarmlessExactly(t: Timed, lease: nat, w: nat, id: Id, at: int)
    requires lease >= 2000 && TimedInv(t, lease) && Owns(t.sys, w, id)
    ensures var z := HeartbeatCommand(t.sys.store, id, at + lease).processing;
      (forall now, limit :: now >= t.now && OnTime(lease, t.leased[w], now) ==> id !in DueBatch(z, now, limit))
      <==> t.leased[w] <= at
  {
    var z := HeartbeatCommand(t.sys.store, id, at + lease).processing;
    assert EntryFits(t, lease, w, id) && id in t.sys.store.processing && z[id] == at + lease;
    if t.leased[w] <= at {
      forall now, limit | now >= t.now && OnTime(lease, t.leased[w], now) ensures id !in DueBatch(z, now, limit) {
        MarginHoldsFromTwoSeconds(lease);
        DueBatchMeaning(z, now, limit);
      }
    } else {
      var late := LastOnTime(lease, t.leased[w]);
      assert OnTime(lease, t.leased[w], late) && late >= t.now && z[id] <= late;
      LargeBatchTakesAll(z, late, id);
    }
  }

  // ---- Every event keeps the leases ------------------------------------------------------

  /** Owners and entries only go away, and whoever stays is as it was. */
  lemma FewerAreLeased(t: Timed, u: Timed, lease: nat)
    requires Leased(t, lease) && u.now == t.now
    requires forall w, id :: Owns(u.sys, w, id) ==> Owns(t.sys, w, id) && (w in t.leased ==> w in u.leased)
    requires forall id :: id in u.sys.store.processing ==>
      id in t.sys.store.processing && u.sys.store.processing[id] == t.sys.store.processing[id]
    requires forall w :: w in u.leased ==> w in t.leased && u.leased[w] == t.leased[w] && Busy(u, w)
    ensures Leased(u, lease)
  {
    forall w, id | Owns(u.sys, w, id) ensures EntryFits(u, lease, w, id) {
      assert EntryFits(t, lease, w, id);
    }
  }

  lemma ClaimKeepsLeased(t: Timed, lease: nat, te: TimedEvent)
    requires TimedInv(t, lease) && Possible(t, lease, te) && te.ClaimAt?
    ensures Leased(TimedStep(t, lease, te), lease)
  {
    var u := TimedStep(t, lease, te);
    forall w, id | Owns(u.sys, w, id) ensures EntryFits(u, lease, w, id) {
      if w != te.w {
        assert Owns(t.sys, w, id) && EntryFits(t, lease, w, id);
        if ClaimAnswer(t.sys.store).Some? {
          assert t.sys.store.InReady(ClaimAnswer(t.sys.store).value);
          OnePlaceOnly(t.sys.store, ClaimAnswer(t.sys.store).value);
        }
      }
    }
  }

  /** What a heartbeat changes in the queue: the score of an entry that is there. */
  lemma HeartbeatChanges(s: System, id: Id, score: int)
    requires WellFormed(s)
    ensures var t := Step(s, Heartbeat(id, score));
      && t.workers == s.workers
      && t.store.processing == if id in s.store.processing then s.store.processing[id := score] else s.store.processing
  {
  }

  /** A renewal by the only owner moves its own entry and its own lease together. */
  lemma RenewedIsLeased(t: Timed, u: Timed, lease: nat, mine: Id, me: nat, at: int)
    requires Leased(t, lease) && me in t.leased && t.leased[me] <= at && Owns(t.sys, me, mine)
    requires forall w :: Owns(t.sys, w, mine) ==> w == me
    requires u.now == t.now && u.sys.workers == t.sys.workers && u.leased == t.leased[me := at]
    requires var z := t.sys.store.processing;
      u.sys.store.processing == if mine in z then z[mine := at + lease] else z
    ensures Leased(u, lease)
  {
    forall w, id | Owns(u.sys, w, id) ensures EntryFits(u, lease, w, id) {
      assert Owns(t.sys, w, id) && EntryFits(t, lease, w, id);
    }
    forall w | w in u.leased ensures Busy(u, w) && OnTime(lease, u.leased[w], u.now) {
      assert Busy(t, w) && OnTime(lease, t.leased[w], t.now);
    }
  }

  lemma RenewChanges(t: Timed, lease: nat, te: TimedEvent)
    requires WellFormed(t.sys) && Possible(t, lease, te) && te.Renew?
    ensures var u := TimedStep(t, lease, te); var mine := t.sys.workers[te.w].job.id; var z := t.sys.store.processing;
      && u.now == t.now && u.sys.workers == t.sys.workers && u.leased == t.leased[te.w := te.at]
      && u.sys.store.processing == if mine in z then z[mine := te.at + lease] else z
  {
    HeartbeatChanges(t.sys, t.sys.workers[te.w].job.id, te.at + lease);
  }

  lemma RenewKeepsLeased(t: Timed, lease: nat, te: TimedEvent)
    requires Leased(t, lease) && Owned(t.sys) && WellFormed(t.sys) && Possible(t, lease, te) && te.Renew?
    ensures Leased(TimedStep(t, lease, te), lease)
  {
    var mine := t.sys.workers[te.w].job.id;
    assert Owns(t.sys, te.w, mine);
    RenewChanges(t, lease, te);
    RenewedIsLeased(t, TimedStep(t, lease, te), lease, mine, te.w, te.at);
  }

  lemma LandKeepsLeased(t: Timed, lease: nat, te: TimedEvent)
    requires TimedInv(t, lease) && Allowed(t, lease, te) && te.Land?
    ensures Leased(TimedStep(t, lease, te), lease)
  {
    var u := TimedStep(t, lease, te);
    HeartbeatChanges(t.sys, te.id, te.at + lease);
    forall w, id | Owns(u.sys, w, id) ensures EntryFits(u, lease, w, id) {
      assert Owns(t.sys, w, id) && EntryFits(t, lease, w, id);
    }
  }

  lemma MoveKeepsLeased(t: Timed, lease: nat, te: TimedEvent)
    requires TimedInv(t, lease) && Possible(t, lease, te) && te.Act? && te.e.Move?
    ensures Leased(TimedStep(t, lease, te), lease)
  {
    MoveAllFrame(t.sys.store, te.e.src, DueBatch(Members(t.sys.store, te.e.src), te.e.now, te.e.limit));
    var u := TimedStep(t, lease, te);
    assert u.sys.workers == t.sys.workers && u.leased == t.leased;
    FewerAreLeased(t, u, lease);
  }

  lemma LoadKeepsLeased(t: Timed, lease: nat, te: TimedEvent)
    requires TimedInv(t, lease) && Possible(t, lease, te) && te.Act? && te.e.Load?
    ensures Leased(TimedStep(t, lease, te), lease)
  {
    var mine := t.sys.workers[te.e.w].id;
    assert Owns(t.sys, te.e.w, mine);
    OnePlaceOnly(t.sys.store, mine);
    var u := TimedStep(t, lease, te);
    assert u.sys.workers == t.sys.workers[te.e.w := Holding(t.sys.store.jobs[mine])] && u.sys.store == t.sys.store;
    FewerAreLeased(t, u, lease);
  }

  lemma FinishChanges(t: Timed, lease: nat, te: TimedEvent)
    requires WellFormed(t.sys) && Possible(t, lease, te) && te.Act? && (te.e.Succeed? || te.e.Fail? || te.e.Crash?)
    ensures var u := TimedStep(t, lease, te);
      && u.now == t.now && u.sys.workers == t.sys.workers[te.e.w := Idle] && u.leased == t.leased - {te.e.w}
      && u.sys.store.processing.Keys <= t.sys.store.processing.Keys
      && forall id :: id in u.sys.store.processing ==> u.sys.store.processing[id] == t.sys.store.processing[id]
  {
  }

  lemma FinishKeepsLeased(t: Timed, lease: nat, te: TimedEvent)
    requires Leased(t, lease) && WellFormed(t.sys) && Possible(t, lease, te)
    requires te.Act? && (te.e.Succeed? || te.e.Fail? || te.e.Crash?)
    ensures Leased(TimedStep(t, lease, te), lease)
  {
    var u := TimedStep(t, lease, te);
    FinishChanges(t, lease, te);
    forall w | w in u.leased ensures Busy(u, w) { assert Busy(t, w); }
    FewerAreLeased(t, u, lease);
  }

  lemma OthersKeepLeased(t: Timed, lease: nat, te: TimedEvent)
    requires TimedInv(t, lease) && Possible(t, lease, te) && te.Act?
    requires te.e.Enqueue? || te.e.Drop? || te.e.ReplayLoad? || te.e.ReplayMove?
    ensures Leased(TimedStep(t, lease, te), lease)
  {
    var u := TimedStep(t, lease, te);
    FewerAreLeased(t, u, lease);
  }

  lemma TimedSystem(t: Timed, lease: nat, te: TimedEvent)
    requires WellFormed(t.sys) && Possible(t, lease, te)
    ensures TimedStep(t, lease, te).sys ==
      if te.Tick? then t.sys else Step(t.sys, Underlying(t, lease, te).value)
    ensures Underlying(t, lease, te).None? <==> te.Tick?
  {
  }

  lemma TimedStepKeepsLeased(t: Timed, lease: nat, te: TimedEvent)
    requires TimedInv(t, lease) && Allowed(t, lease, te)
    ensures Leased(TimedStep(t, lease, te), lease)
  {
    match te
    case Tick(_) =>
      forall w, id | Owns(t.sys, w, id) ensures EntryFits(TimedStep(t, lease, te), lease, w, id) {
        assert EntryFits(t, lease, w, id);
      }
    case ClaimAt(_, _) => ClaimKeepsLeased(t, lease, te);
    case Renew(_, _) => RenewKeepsLeased(t, lease, te);
    case Land(_, _) => LandKeepsLeased(t, lease, te);
    case Act(e) =>
      if e.Move? { MoveKeepsLeased(t, lease, te); }
      else if e.Load? { LoadKeepsLeased(t, lease, te); }
      else if e.Succeed? || e.Fail? || e.Crash? { FinishKeepsLeased(t, lease, te); }
      else { OthersKeepLeased(t, lease, te); }
  }

  lemma TimedStepKeepsInv(t: Timed, lease: nat, te: TimedEvent)
    requires lease >= 2000 && TimedInv(t, lease) && Allowed(t, lease, te)
    ensures TimedInv(TimedStep(t, lease, te), lease)
  {
    TimedStepKeepsLeased(t, lease, te);
    TimedSystem(t, lease, te);
    if !te.Tick? {
      TimedStepIsFenced(t, lease, te);
      FencedStepKeepsInv(t.sys, Underlying(t, lease, te).value);
    }
  }

  // ---- Timed runs ---------------------------------------------------------------

  /** The state after a timed run, or nothing when some event could not happen. */
  ghost function TimedAfter(lease: nat, tes: seq<TimedEvent>): Option<Timed> {
    if tes == [] then Some(BEGIN) else TimedNext(lease, TimedAfter(lease, tes[..|tes| - 1]), tes[|tes| - 1])
  }

  ghost function TimedNext(lease: nat, before: Option<Timed>, te: TimedEvent): Option<Timed> {
    if before.None? || !WellFormed(before.value.sys) || !Possible(before.value, lease, te) then None
    else Some(TimedStep(before.value, lease, te))
  }

  /** Every renewal of the run that outlived its attempt arrived in order. */
  ghost predicate OrderlyRun(lease: nat, tes: seq<TimedEvent>) {
    tes == [] ||
      var front, before := tes[..|tes| - 1], TimedAfter(lease, tes[..|tes| - 1]);
      OrderlyRun(lease, front) && before.Some? && Orderly(before.value, tes[|tes| - 1])
  }

  lemma TimedExtend(lease: nat, tes: seq<TimedEvent>, t: Timed, te: TimedEvent)
    requires TimedAfter(lease, tes) == Some(t) && WellFormed(t.sys) && Possible(t, lease, te)
    ensures TimedAfter(lease, tes + [te]) == Some(TimedStep(t, lease, te))
  {
    assert (tes + [te])[..|tes + [te]| - 1] == tes;
  }

  lemma {:induction false} TimedRunKeepsInv(lease: nat, tes: seq<TimedEvent>)
    requires lease >= 2000 && TimedAfter(lease, tes).Some? && OrderlyRun(lease, tes)
    ensures TimedInv(TimedAfter(lease, tes).value, lease)
  {
    if tes == [] {
      FencedInvStart();
    } else {
      TimedRunKeepsInv(lease, tes[..|tes| - 1]);
      TimedStepKeepsInv(TimedAfter(lease, tes[..|tes| - 1]).value, lease, tes[|tes| - 1]);
    }
  }

  /** With leases of two seconds or more, workers that are on time or dead, and stray
      renewals that arrive in order: every job sits in exactly one place, no job has two
      owners, and whatever a reclaim takes next, it takes nothing a live worker owns. */
  lemma PunctualWorkersKeepTheirJobs(lease: nat, tes: seq<TimedEvent>, now: int, limit: nat)
    requires lease >= 2000 && TimedAfter(lease, tes).Some? && OrderlyRun(lease, tes)
    requires now <= TimedAfter(lease, tes).value.now
    ensures var t := TimedAfter(lease, tes).value;
      && Bag(t.sys.store) == multiset(t.sys.store.jobs.Keys)
      && (forall v, w, id :: Owns(t.sys, v, id) && Owns(t.sys, w, id) ==> v == w)
      && (forall w, id :: Owns(t.sys, w, id) ==>
            id in t.sys.store.processing && id !in DueBatch(t.sys.store.processing, now, limit))
  {
    TimedRunKeepsInv(lease, tes);
    var t := TimedAfter(lease, tes).value;
    forall w, id | Owns(t.sys, w, id) ensures id !in DueBatch(t.sys.store.processing, now, limit) {
      ReclaimSparesTheLive(t, lease, now, limit, w, id);
    }
  }
}
