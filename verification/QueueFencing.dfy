/** What the queue guarantees once leases mean something: a worker whose lease
    was reclaimed takes no further step. Then every job is in exactly one place,
    and the attempt counters count. */
module QueueFencing {
  import opened JobStore
  import opened QueueProtocol

  // ---- Everything a store holds, with multiplicity ---------------------------

  ghost function ReadyBag(ready: seq<seq<Id>>): multiset<Id> {
    if ready == [] then multiset{} else ReadyBag(ready[..|ready| - 1]) + multiset(ready[|ready| - 1])
  }

  ghost function Bag(s: Store): multiset<Id> {
    ReadyBag(s.ready) + multiset(s.delayed.Keys) + multiset(s.processing.Keys) + multiset(s.dlq.Keys)
  }

  /** Every stored job is registered and occurs exactly once in all the lists and sets together. */
  ghost predicate ExactlyOnce(s: Store) {
    Bag(s) == multiset(s.jobs.Keys) && s.jobs.Keys == s.priorities.Keys
  }

  lemma {:induction false} ReadyBagUpdate(ready: seq<seq<Id>>, p: nat, list: seq<Id>)
    requires p < |ready|
    ensures multiset(ready[p]) <= ReadyBag(ready)
    ensures ReadyBag(ready[p := list]) == ReadyBag(ready) - multiset(ready[p]) + multiset(list)
  {
    var n := |ready| - 1;
    if p == n {
      assert ready[p := list][..n] == ready[..n];
    } else {
      ReadyBagUpdate(ready[..n], p, list);
      assert ready[p := list][..n] == ready[..n][p := list];
    }
  }

  lemma {:induction false} ReadyBagMember(ready: seq<seq<Id>>, id: Id)
    ensures id in ReadyBag(ready) <==> exists p :: 0 <= p < |ready| && id in ready[p]
  {
    if ready != [] {
      var front := ready[..|ready| - 1];
      ReadyBagMember(front, id);
      if id in ReadyBag(front) {
        var p :| 0 <= p < |front| && id in front[p];
        assert id in ready[p];
      }
      if p :| 0 <= p < |ready| && id in ready[p] && p < |front| {
        assert id in front[p];
      }
    }
  }

  lemma PushBag(s: Store, p: nat, id: Id)
    requires p < |s.ready|
    ensures ReadyBag(PushReady(s.ready, p, id)) == ReadyBag(s.ready) + multiset{id}
  {
    ReadyBagUpdate(s.ready, p, s.ready[p] + [id]);
  }

  /** Adding a new member or removing one moves the multiset of keys by one. */
  lemma KeysBag(z: Scores, id: Id, score: int)
    ensures id !in z ==> multiset(z[id := score].Keys) == multiset(z.Keys) + multiset{id}
    ensures id in z ==> multiset(z[id := score].Keys) == multiset(z.Keys)
    ensures id in z ==> multiset((z - {id}).Keys) == multiset(z.Keys) - multiset{id}
  {
    assert z[id := score].Keys == z.Keys + {id};
    assert (z - {id}).Keys == z.Keys - {id};
    if id in z { assert z[id := score].Keys == z.Keys; }
  }

  lemma JobsBag(jobs: map<Id, Job>, id: Id, job: Job)
    ensures id !in jobs ==> multiset(jobs[id := job].Keys) == multiset(jobs.Keys) + multiset{id}
    ensures id in jobs ==> jobs[id := job].Keys == jobs.Keys
    ensures id in jobs ==> multiset((jobs - {id}).Keys) == multiset(jobs.Keys) - multiset{id}
  {
    assert jobs[id := job].Keys == jobs.Keys + {id};
    assert (jobs - {id}).Keys == jobs.Keys - {id};
  }

  /** Being in one place excludes the others. */
  lemma OnePlaceOnly(s: Store, id: Id)
    requires ExactlyOnce(s)
    ensures id in s.processing ==> id in s.jobs && id !in s.delayed && id !in s.dlq && !s.InReady(id)
    ensures id in s.dlq ==> id in s.jobs && id !in s.delayed && id !in s.processing && !s.InReady(id)
    ensures id in s.delayed ==> id in s.jobs && id !in s.dlq && id !in s.processing && !s.InReady(id)
    ensures s.InReady(id) ==> id in s.jobs && id !in s.delayed && id !in s.processing && id !in s.dlq
    ensures id !in s.jobs ==> !s.Placed(id)
  {
    ReadyBagMember(s.ready, id);
    assert multiset(s.jobs.Keys)[id] <= 1;
    assert Bag(s)[id] == ReadyBag(s.ready)[id] + multiset(s.delayed.Keys)[id]
                       + multiset(s.processing.Keys)[id] + multiset(s.dlq.Keys)[id];
  }

  /** |jobs| is the depth the queue reports plus the running and the dead jobs. */
  ghost function ReadyTotal(ready: seq<seq<Id>>): nat {
    if ready == [] then 0 else ReadyTotal(ready[..|ready| - 1]) + |ready[|ready| - 1]|
  }

  lemma {:induction false} ReadyTotalIsBagSize(ready: seq<seq<Id>>)
    ensures |ReadyBag(ready)| == ReadyTotal(ready)
  {
    if ready != [] {
      ReadyTotalIsBagSize(ready[..|ready| - 1]);
    }
  }

  lemma CountsAddUp(s: Store)
    requires ExactlyOnce(s)
    ensures |s.jobs| == ReadyTotal(s.ready) + |s.delayed| + |s.processing| + |s.dlq|
  {
    ReadyTotalIsBagSize(s.ready);
    assert |multiset(s.jobs.Keys)| == |s.jobs.Keys| == |s.jobs|;
    assert |multiset(s.delayed.Keys)| == |s.delayed.Keys| == |s.delayed|;
    assert |multiset(s.processing.Keys)| == |s.processing.Keys| == |s.processing|;
    assert |multiset(s.dlq.Keys)| == |s.dlq.Keys| == |s.dlq|;
  }

  // ---- Fencing ------------------------------------------------------------------

  predicate Owns(s: System, w: nat, id: Id) {
    w in s.workers && (s.workers[w] == Claimed(id) || (s.workers[w].Holding? && s.workers[w].job.id == id))
  }

  function Fence(workers: map<nat, Worker>, ids: set<Id>): map<nat, Worker> {
    map w | w in workers ::
      match workers[w]
      case Claimed(id) => if id in ids then Idle else workers[w]
      case Holding(job) => if job.id in ids then Idle else workers[w]
      case _ => workers[w]
  }

  function Reclaimed(s: System, e: Event): set<Id> {
    if e.Move? && e.src == Processing then Elements(DueBatch(s.store.processing, e.now, e.limit)) else {}
  }

  function FencedStep(s: System, e: Event): System
    requires WellFormed(s) && Enabled(s, e)
  {
    var t := Step(s, e);
    t.(workers := Fence(t.workers, Reclaimed(s, e)))
  }

  /** One owner per leased job, and nobody waits on a job that is gone. */
  ghost predicate Owned(s: System) {
    && (forall w, id :: Owns(s, w, id) ==> id in s.store.processing)
    && (forall v, w, id :: Owns(s, v, id) && Owns(s, w, id) ==> v == w)
    && (forall w :: w in s.workers ==> !s.workers[w].Missed?)
  }

  /** The attempt counter is below its maximum until the job is dead, and at it then. */
  ghost predicate JobCounted(s: Store, id: Id)
    requires id in s.jobs
  {
    var job := s.jobs[id];
    job.maxAttempts >= 1 && if id in s.dlq then job.attempt == job.maxAttempts else job.attempt < job.maxAttempts
  }

  ghost predicate Counted(s: System) {
    && (forall id :: id in s.store.jobs ==> JobCounted(s.store, id))
    && (forall w :: s.Held(w) ==> s.workers[w].job.id in s.store.jobs
                                  && s.store.jobs[s.workers[w].job.id] == s.workers[w].job)
    && (forall r :: r in s.replayers ==> s.replayers[r].maxAttempts >= 1)
  }

  ghost predicate FencedInv(s: System) {
    Inv(s) && ExactlyOnce(s.store) && Owned(s) && Counted(s)
  }

  // ---- Each script's effect on the multiset ------------------------------------

  lemma EnqueueBag(s: Store, key: string, job: Job, now: int, clock: int, ttl: nat)
    requires s.WellFormed() && job.priority < LEVELS && Creates(s, key, clock) && job.id !in s.delayed
    ensures Bag(EnqueueScript(s, key, job, now, clock, ttl)) == Bag(s) + multiset{job.id}
  {
    PushBag(s, job.priority, job.id);
    KeysBag(s.delayed, job.id, job.availableAt);
  }

  lemma ClaimBag(s: Store, expiry: int)
    requires ClaimAnswer(s).Some? && ClaimAnswer(s).value !in s.processing
    ensures Bag(ClaimScript(s, expiry)) == Bag(s)
  {
    var p := HighestReady(s.ready, |s.ready|).value;
    var list := s.ready[p];
    assert list == [list[0]] + list[1..];
    ReadyBagUpdate(s.ready, p, list[1..]);
    KeysBag(s.processing, list[0], expiry);
  }

  lemma MoveOneBag(s: Store, src: Source, id: Id)
    requires s.WellFormed() && id in Members(s, src) && id in s.priorities
    ensures Bag(MoveOne(s, src, id)) == Bag(s)
  {
    PushBag(s, s.priorities[id], id);
    KeysBag(Members(s, src), id, 0);
  }

  lemma AckBag(s: Store, id: Id)
    requires id in s.processing
    ensures Bag(AckScript(s, id)) == Bag(s) - multiset{id}
  {
    KeysBag(s.processing, id, 0);
  }

  lemma RetryBag(s: Store, job: Job, score: int)
    requires job.id in s.processing && job.id !in s.delayed
    ensures Bag(RetryScript(s, job, score)) == Bag(s)
  {
    KeysBag(s.processing, job.id, 0);
    KeysBag(s.delayed, job.id, score);
  }

  lemma DeadBag(s: Store, job: Job, score: int)
    requires job.id in s.processing && job.id !in s.dlq
    ensures Bag(DeadScript(s, job, score)) == Bag(s)
  {
    KeysBag(s.processing, job.id, 0);
    KeysBag(s.dlq, job.id, score);
  }

  lemma ReplayBag(s: Store, job: Job)
    requires s.WellFormed() && job.priority < LEVELS && job.id in s.dlq
    ensures Bag(ReplayScript(s, job)) == Bag(s)
  {
    PushBag(s, job.priority, job.id);
    KeysBag(s.dlq, job.id, 0);
  }

  // ---- Each step keeps every job in exactly one place -----------------------------

  /** A step that keeps the multiset and the stored ids keeps the property. */
  lemma SameBag(s: Store, t: Store)
    requires ExactlyOnce(s) && Bag(t) == Bag(s) && t.jobs.Keys == s.jobs.Keys && t.priorities == s.priorities
    ensures ExactlyOnce(t)
  {
  }

  lemma EnqueueKeepsExact(s: Store, key: string, job: Job, now: int, clock: int, ttl: nat)
    requires s.WellFormed() && job.priority < LEVELS && ExactlyOnce(s) && job.id !in s.jobs
    ensures ExactlyOnce(EnqueueScript(s, key, job, now, clock, ttl))
  {
    if Creates(s, key, clock) {
      OnePlaceOnly(s, job.id);
      EnqueueBag(s, key, job, now, clock, ttl);
      JobsBag(s.jobs, job.id, job);
      var t := EnqueueScript(s, key, job, now, clock, ttl);
      assert t.priorities.Keys == s.priorities.Keys + {job.id} && t.jobs.Keys == s.jobs.Keys + {job.id};
    }
  }

  lemma {:induction false} MoveKeepsExact(s: Store, src: Source, ids: seq<Id>)
    requires s.WellFormed() && ExactlyOnce(s) && NoDuplicates(ids)
    requires forall id :: id in ids ==> id in Members(s, src)
    ensures ExactlyOnce(MoveAll(s, src, ids))
  {
    if ids != [] {
      var front, last := ids[..|ids| - 1], ids[|ids| - 1];
      MoveKeepsExact(s, src, front);
      MoveAllFrame(s, src, front);
      MoveLastKeepsExact(MoveAll(s, src, front), src, last);
    }
  }

  lemma MoveLastKeepsExact(s: Store, src: Source, id: Id)
    requires s.WellFormed() && ExactlyOnce(s) && id in Members(s, src)
    ensures ExactlyOnce(MoveOne(s, src, id))
  {
    OnePlaceOnly(s, id);
    assert id in s.priorities.Keys;
    MoveOneBag(s, src, id);
    SameBag(s, MoveOne(s, src, id));
  }

  lemma AckKeepsExact(s: Store, id: Id)
    requires ExactlyOnce(s) && id in s.processing
    ensures ExactlyOnce(AckScript(s, id))
  {
    OnePlaceOnly(s, id);
    AckBag(s, id);
    JobsBag(s.jobs, id, s.jobs[id]);
    assert (s.priorities - {id}).Keys == s.priorities.Keys - {id} && (s.jobs - {id}).Keys == s.jobs.Keys - {id};
  }

  lemma RetryKeepsExact(s: Store, job: Job, score: int)
    requires ExactlyOnce(s) && job.id in s.processing
    ensures ExactlyOnce(RetryScript(s, job, score))
  {
    OnePlaceOnly(s, job.id);
    RetryBag(s, job, score);
    JobsBag(s.jobs, job.id, job);
    SameBag(s, RetryScript(s, job, score));
  }

  lemma DeadKeepsExact(s: Store, job: Job, score: int)
    requires ExactlyOnce(s) && job.id in s.processing
    ensures ExactlyOnce(DeadScript(s, job, score))
  {
    OnePlaceOnly(s, job.id);
    DeadBag(s, job, score);
    JobsBag(s.jobs, job.id, job);
    SameBag(s, DeadScript(s, job, score));
  }

  lemma FailKeepsExact(s: Store, job: Job, now: int, delay: int)
    requires ExactlyOnce(s) && job.id in s.processing
    ensures ExactlyOnce(FinishFailed(s, job, now, delay))
  {
    var failed := Failed(job);
    if failed.attempt >= failed.maxAttempts {
      DeadKeepsExact(s, failed, now);
    } else {
      RetryKeepsExact(s, failed.(availableAt := now + delay), now + delay);
    }
  }

  lemma ReplayKeepsExact(s: Store, job: Job)
    requires s.WellFormed() && job.priority < LEVELS && ExactlyOnce(s)
    ensures ExactlyOnce(ReplayScript(s, job))
  {
    if job.id in s.dlq {
      OnePlaceOnly(s, job.id);
      ReplayBag(s, job);
      JobsBag(s.jobs, job.id, job);
      SameBag(s, ReplayScript(s, job));
    }
  }

  lemma StepKeepsExact(s: System, e: Event)
    requires Inv(s) && ExactlyOnce(s.store) && Owned(s) && Enabled(s, e)
    ensures ExactlyOnce(Step(s, e).store)
  {
    match e
    case Enqueue(job, key, now, clock, ttl) => EnqueueKeepsExact(s.store, key, job, now, clock, ttl);
    case Claim(_, expiry) =>
      if ClaimAnswer(s.store).Some? {
        assert s.store.InReady(ClaimAnswer(s.store).value);
        OnePlaceOnly(s.store, ClaimAnswer(s.store).value);
        ClaimBag(s.store, expiry);
      }
    case Move(src, now, limit) =>
      DueBatchMeaning(Members(s.store, src), now, limit);
      MoveKeepsExact(s.store, src, DueBatch(Members(s.store, src), now, limit));
    case ReplayMove(r, now) => ReplayKeepsExact(s.store, Replayed(s.replayers[r], now));
    case Succeed(w) =>
      assert Owns(s, w, s.workers[w].job.id);
      AckKeepsExact(s.store, s.workers[w].job.id);
    case Fail(w, now, delay) =>
      assert Owns(s, w, s.workers[w].job.id);
      FailKeepsExact(s.store, s.workers[w].job, now, delay);
    case Heartbeat(id, score) => KeysBag(s.store.processing, id, score);
    case Drop(_) =>
    case Load(_) =>
    case ReplayLoad(_, _) =>
    case Crash(_) =>
  }

  // ---- Owners and counters ---------------------------------------------------------

  lemma FenceKeepsInv(s: System, ids: set<Id>)
    requires Inv(s)
    ensures Inv(s.(workers := Fence(s.workers, ids)))
  {
  }

  /** A claim hands the id to one worker; nobody else had it. */
  lemma ClaimKeepsOwned(s: System, e: Event)
    requires Inv(s) && ExactlyOnce(s.store) && Owned(s) && Enabled(s, e) && e.Claim?
    ensures Owned(Step(s, e))
  {
    var t := Step(s, e);
    if ClaimAnswer(s.store).Some? {
      var id := ClaimAnswer(s.store).value;
      assert s.store.InReady(id);
      OnePlaceOnly(s.store, id);
      forall w, x | Owns(t, w, x) ensures if w == e.w then x == id else Owns(s, w, x) {}
    } else {
      forall w, x | Owns(t, w, x) ensures Owns(s, w, x) {}
    }
  }

  /** Reclaiming takes the ids of a batch off the leases and off their owners at once. */
  lemma ReclaimKeepsOwned(s: System, e: Event)
    requires Inv(s) && Owned(s) && Enabled(s, e) && e.Move?
    ensures Owned(FencedStep(s, e))
  {
    var t := FencedStep(s, e);
    MoveAllFrame(s.store, e.src, DueBatch(Members(s.store, e.src), e.now, e.limit));
    forall w, x | Owns(t, w, x) ensures Owns(s, w, x) && x !in Reclaimed(s, e) {}
  }

  /** Every other step only takes ids off a worker together with its own lease. */
  lemma OthersKeepOwned(s: System, e: Event)
    requires Inv(s) && ExactlyOnce(s.store) && Owned(s) && Enabled(s, e) && !e.Claim? && !e.Move?
    ensures Owned(Step(s, e))
  {
    var t := Step(s, e);
    if e.Load? {
      var id := s.workers[e.w].id;
      assert Owns(s, e.w, id);
      OnePlaceOnly(s.store, id);
    }
    forall w, x | Owns(t, w, x) ensures Owns(s, w, x) && x in t.store.processing {
      assert Owns(s, w, x);
      if e.Succeed? || e.Fail? {
        assert Owns(s, e.w, s.workers[e.w].job.id);
      }
    }
  }

  lemma NoFenceNeeded(workers: map<nat, Worker>)
    ensures Fence(workers, {}) == workers
  {
  }

  lemma StepKeepsOwned(s: System, e: Event)
    requires Inv(s) && ExactlyOnce(s.store) && Owned(s) && Enabled(s, e)
    ensures Owned(FencedStep(s, e))
  {
    if e.Move? {
      ReclaimKeepsOwned(s, e);
    } else {
      NoFenceNeeded(Step(s, e).workers);
      if e.Claim? { ClaimKeepsOwned(s, e); } else { OthersKeepOwned(s, e); }
    }
  }

  /** Finishing touches one job, which no other worker holds. */
  lemma FinishKeepsCounted(s: System, t: System, w: nat)
    requires Inv(s) && ExactlyOnce(s.store) && Owned(s) && Counted(s) && s.Held(w)
    requires t == s.(store := t.store, workers := s.workers[w := Idle])
    requires forall id :: id in t.store.jobs && id != s.workers[w].job.id
              ==> id in s.store.jobs && t.store.jobs[id] == s.store.jobs[id]
    requires forall id :: id in s.store.jobs && id != s.workers[w].job.id
              ==> id in t.store.jobs && (id in t.store.dlq <==> id in s.store.dlq)
    requires var id := s.workers[w].job.id;
      id in t.store.jobs ==> JobCounted(t.store, id)
    ensures Counted(t)
  {
    forall v | t.Held(v) ensures s.Held(v) && s.workers[v].job.id != s.workers[w].job.id {
      assert Owns(s, v, s.workers[v].job.id);
      assert Owns(s, w, s.workers[w].job.id);
    }
    forall id | id in t.store.jobs ensures JobCounted(t.store, id) {
      assert id != s.workers[w].job.id ==> JobCounted(s.store, id);
    }
  }

  lemma FailedIsCounted(s: Store, job: Job, now: int, delay: int)
    requires job.maxAttempts >= 1 && job.attempt < job.maxAttempts && job.id !in s.dlq
    ensures job.id in FinishFailed(s, job, now, delay).jobs && JobCounted(FinishFailed(s, job, now, delay), job.id)
  {
  }

  lemma OutcomeKeepsCounted(s: System, e: Event)
    requires FencedInv(s) && Enabled(s, e) && (e.Succeed? || e.Fail?)
    ensures Counted(Step(s, e))
  {
    var job := s.workers[e.w].job;
    assert Owns(s, e.w, job.id);
    OnePlaceOnly(s.store, job.id);
    assert JobCounted(s.store, job.id);
    if e.Fail? { FailedIsCounted(s.store, job, e.now, e.delay); }
    FinishKeepsCounted(s, Step(s, e), e.w);
  }

  lemma ReplayKeepsCounted(s: System, e: Event)
    requires FencedInv(s) && Enabled(s, e) && e.ReplayMove?
    ensures Counted(Step(s, e))
  {
    var job := s.replayers[e.r];
    OnePlaceOnly(s.store, job.id);
    forall w | s.Held(w) && job.id in s.store.dlq ensures s.workers[w].job.id != job.id {
      assert Owns(s, w, s.workers[w].job.id);
    }
  }

  lemma EnqueueKeepsCounted(s: System, e: Event)
    requires FencedInv(s) && Enabled(s, e) && e.Enqueue?
    ensures Counted(Step(s, e))
  {
    var t := Step(s, e);
    assert e.job.id !in s.store.jobs;
    OnePlaceOnly(s.store, e.job.id);
    forall id | id in t.store.jobs ensures JobCounted(t.store, id) {
      assert id in s.store.jobs ==> JobCounted(s.store, id);
    }
  }

  lemma MoveKeepsCounted(s: System, e: Event)
    requires Counted(s) && WellFormed(s) && Enabled(s, e) && e.Move?
    ensures Counted(FencedStep(s, e))
  {
    var t := FencedStep(s, e);
    MoveAllFrame(s.store, e.src, DueBatch(Members(s.store, e.src), e.now, e.limit));
    forall id | id in t.store.jobs ensures JobCounted(t.store, id) {
      assert JobCounted(s.store, id);
    }
  }

  lemma QuietKeepsCounted(s: System, e: Event)
    requires Counted(s) && SnapshotsTruthful(s) && WellFormed(s) && Enabled(s, e)
    requires e.Claim? || e.Load? || e.Drop? || e.Heartbeat? || e.ReplayLoad? || e.Crash?
    ensures Counted(Step(s, e))
  {
    var t := Step(s, e);
    forall id | id in t.store.jobs ensures JobCounted(t.store, id) {
      assert JobCounted(s.store, id);
    }
  }

  lemma FencedStepKeepsInv(s: System, e: Event)
    requires FencedInv(s) && Enabled(s, e)
    ensures FencedInv(FencedStep(s, e))
  {
    StepKeepsInv(s, e);
    FenceKeepsInv(Step(s, e), Reclaimed(s, e));
    StepKeepsExact(s, e);
    StepKeepsOwned(s, e);
    NoFenceNeeded(Step(s, e).workers);
    match e
    case Move(_, _, _) => MoveKeepsCounted(s, e);
    case Enqueue(_, _, _, _, _) => EnqueueKeepsCounted(s, e);
    case ReplayMove(_, _) => ReplayKeepsCounted(s, e);
    case Succeed(_) => OutcomeKeepsCounted(s, e);
    case Fail(_, _, _) => OutcomeKeepsCounted(s, e);
    case _ => QuietKeepsCounted(s, e);
  }

  lemma FencedInvStart()
    ensures FencedInv(START)
  {
    forall p | 0 <= p <= LEVELS ensures ReadyBag(EMPTY.ready[..p]) == multiset{} {
      EmptyBag(p);
    }
    assert EMPTY.ready[..LEVELS] == EMPTY.ready;
  }

  lemma {:induction false} EmptyBag(n: nat)
    requires n <= LEVELS
    ensures ReadyBag(EMPTY.ready[..n]) == multiset{}
  {
    if n > 0 {
      EmptyBag(n - 1);
      assert EMPTY.ready[..n][..n - 1] == EMPTY.ready[..n - 1];
    }
  }

  // ---- Fenced runs -----------------------------------------------------------------

  ghost function FencedAfter(es: seq<Event>): Option<System> {
    if es == [] then Some(START) else FencedNext(FencedAfter(es[..|es| - 1]), es[|es| - 1])
  }

  ghost function FencedNext(before: Option<System>, e: Event): Option<System> {
    if before.None? || !WellFormed(before.value) || !Enabled(before.value, e) then None
    else Some(FencedStep(before.value, e))
  }

  lemma {:induction false} FencedRunKeepsInv(es: seq<Event>)
    requires FencedAfter(es).Some?
    ensures FencedInv(FencedAfter(es).value)
  {
    if es == [] {
      FencedInvStart();
    } else {
      FencedRunKeepsInv(es[..|es| - 1]);
      FencedStepKeepsInv(FencedAfter(es[..|es| - 1]).value, es[|es| - 1]);
    }
  }

  /** Conservation: in a fenced run the lists and sets together hold every stored
      job once and nothing else, and the three depths the queue can report add
      up to the number of jobs. */
  lemma EveryJobInExactlyOnePlace(es: seq<Event>)
    requires FencedAfter(es).Some?
    ensures var s := FencedAfter(es).value.store;
      && Bag(s) == multiset(s.jobs.Keys)
      && |s.jobs| == ReadyTotal(s.ready) + |s.delayed| + |s.processing| + |s.dlq|
  {
    FencedRunKeepsInv(es);
    CountsAddUp(FencedAfter(es).value.store);
  }

  /** Failures recorded for an id since it was created or last replayed, read off the run. */
  ghost function Failures(es: seq<Event>, id: Id): nat {
    if es == [] then 0 else
      var front := es[..|es| - 1];
      FailuresNext(FencedAfter(front), es[|es| - 1], id, Failures(front, id))
  }

  ghost function FailuresNext(before: Option<System>, e: Event, id: Id, n: nat): nat {
    if before.None? then n
    else if e.Fail? && before.value.Held(e.w) && before.value.workers[e.w].job.id == id then n + 1
    else if e.Enqueue? && e.job.id == id then 0
    else if e.ReplayMove? && e.r in before.value.replayers && before.value.replayers[e.r].id == id
      && id in before.value.store.dlq then 0
    else n
  }

  lemma FailedAttempt(s: Store, job: Job, now: int, delay: int)
    ensures var t := FinishFailed(s, job, now, delay);
      && t.jobs.Keys == s.jobs.Keys + {job.id} && t.jobs[job.id].attempt == job.attempt + 1
      && forall id :: id in s.jobs && id != job.id ==> t.jobs[id] == s.jobs[id]
  {
  }

  lemma AttemptCounts(s: System, e: Event, id: Id)
    requires WellFormed(s) && Counted(s) && Enabled(s, e) && id in Step(s, e).store.jobs
    requires forall x :: x in s.store.dlq ==> x in s.store.jobs
    requires e.Enqueue? ==> e.job.id !in s.store.jobs
    ensures id in s.store.jobs ==> Step(s, e).store.jobs[id].attempt
                                   == FailuresNext(Some(s), e, id, s.store.jobs[id].attempt)
    ensures id !in s.store.jobs ==> e.Enqueue? && e.job.id == id && Step(s, e).store.jobs[id].attempt == 0
  {
    match e
    case Move(src, now, limit) => MoveAllFrame(s.store, src, DueBatch(Members(s.store, src), now, limit));
    case Fail(w, now, delay) => FailedAttempt(s.store, s.workers[w].job, now, delay);
    case Enqueue(job, key, now, clock, ttl) =>
      assert Step(s, e).store.jobs == if Creates(s.store, key, clock) then s.store.jobs[job.id := job]
        else s.store.jobs;
    case ReplayMove(r, now) =>
      var job := Replayed(s.replayers[r], now);
      assert Step(s, e).store.jobs == if job.id in s.store.dlq then s.store.jobs[job.id := job] else s.store.jobs;
    case _ =>
  }

  /** The retry bound: a stored job's attempt counter is the number of failures
      recorded since it was created or last replayed, and the job is in the
      dead-letter queue exactly when that number has reached its maximum. */
  lemma {:induction false} DeadAfterExactlyMaxFailures(es: seq<Event>, id: Id)
    requires FencedAfter(es).Some? && id in FencedAfter(es).value.store.jobs
    ensures var s := FencedAfter(es).value.store;
      && s.jobs[id].attempt == Failures(es, id) <= s.jobs[id].maxAttempts
      && (id in s.dlq <==> Failures(es, id) == s.jobs[id].maxAttempts)
  {
    FencedRunKeepsInv(es);
    var front, e := es[..|es| - 1], es[|es| - 1];
    FencedRunKeepsInv(front);
    var s := FencedAfter(front).value;
    forall x | x in s.store.dlq ensures x in s.store.jobs { OnePlaceOnly(s.store, x); }
    assert e.Enqueue? ==> e.job.id !in s.store.jobs;
    AttemptCounts(s, e, id);
    if id in s.store.jobs {
      DeadAfterExactlyMaxFailures(front, id);
    }
  }
}
