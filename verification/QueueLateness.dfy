/** What the lease discipline leaves open, with runs that show it: workers that come back
    late, renewals that arrive late, and leases under two seconds. */
module QueueLateness {
  import opened JobStore
  import opened QueueProtocol
  import opened QueueFencing
  import opened QueueLeases

  // ---- Late workers ---------------------------------------------------------------

  /** Adding an id to a place it is not in makes it one too many, or one nobody registered. */
  lemma OneTooMany(s: Store, t: Store, id: Id)
    requires ExactlyOnce(s) && Bag(t) == Bag(s) + multiset{id}
    requires t.jobs.Keys == s.jobs.Keys + {id} && t.priorities == s.priorities
    ensures !ExactlyOnce(t)
  {
    if id in s.jobs.Keys {
      assert multiset(s.jobs.Keys)[id] == 1;
      assert Bag(t)[id] == 2 && multiset(t.jobs.Keys)[id] <= 1;
    }
  }

  lemma LateDead(s: Store, job: Job, score: int)
    requires ExactlyOnce(s) && job.id !in s.processing && job.id in s.dlq
    ensures ExactlyOnce(DeadScript(s, job, score))
  {
    var t := DeadScript(s, job, score);
    OnePlaceOnly(s, job.id);
    assert t.processing == s.processing;
    KeysBag(s.dlq, job.id, score);
    JobsBag(s.jobs, job.id, job);
    SameBag(s, t);
  }

  lemma StrayDeadBag(s: Store, job: Job, score: int)
    requires job.id !in s.processing && job.id !in s.dlq
    ensures Bag(DeadScript(s, job, score)) == Bag(s) + multiset{job.id}
  {
    assert DeadScript(s, job, score).processing == s.processing;
    KeysBag(s.dlq, job.id, score);
  }

  lemma LateDeadHarms(s: Store, job: Job, score: int)
    requires ExactlyOnce(s) && job.id !in s.processing && job.id !in s.dlq
    ensures !ExactlyOnce(DeadScript(s, job, score))
  {
    StrayDeadBag(s, job, score);
    OneTooMany(s, DeadScript(s, job, score), job.id);
  }

  lemma LateRetry(s: Store, job: Job, score: int)
    requires ExactlyOnce(s) && job.id !in s.processing && job.id in s.delayed
    ensures ExactlyOnce(RetryScript(s, job, score))
  {
    var t := RetryScript(s, job, score);
    OnePlaceOnly(s, job.id);
    assert t.processing == s.processing;
    KeysBag(s.delayed, job.id, score);
    JobsBag(s.jobs, job.id, job);
    SameBag(s, t);
  }

  lemma StrayRetryBag(s: Store, job: Job, score: int)
    requires job.id !in s.processing && job.id !in s.delayed
    ensures Bag(RetryScript(s, job, score)) == Bag(s) + multiset{job.id}
  {
    assert RetryScript(s, job, score).processing == s.processing;
    KeysBag(s.delayed, job.id, score);
  }

  lemma LateRetryHarms(s: Store, job: Job, score: int)
    requires ExactlyOnce(s) && job.id !in s.processing && job.id !in s.delayed
    ensures !ExactlyOnce(RetryScript(s, job, score))
  {
    StrayRetryBag(s, job, score);
    OneTooMany(s, RetryScript(s, job, score), job.id);
  }

  /** The job already is where this failure would put it. */
  predicate AlreadyThere(s: Store, job: Job) {
    if job.attempt + 1 >= job.maxAttempts then job.id in s.dlq else job.id in s.delayed
  }

  lemma LateFailureHarmless(s: Store, job: Job, now: int, delay: int)
    requires ExactlyOnce(s) && job.id !in s.processing && AlreadyThere(s, job)
    ensures ExactlyOnce(FinishFailed(s, job, now, delay))
  {
    var failed := Failed(job);
    if failed.attempt >= failed.maxAttempts {
      LateDead(s, failed, now);
    } else {
      LateRetry(s, failed.(availableAt := now + delay), now + delay);
    }
  }

  lemma LateFailureHarms(s: Store, job: Job, now: int, delay: int)
    requires ExactlyOnce(s) && job.id !in s.processing && !AlreadyThere(s, job)
    ensures !ExactlyOnce(FinishFailed(s, job, now, delay))
  {
    var failed := Failed(job);
    if failed.attempt >= failed.maxAttempts {
      LateDeadHarms(s, failed, now);
    } else {
      LateRetryHarms(s, failed.(availableAt := now + delay), now + delay);
    }
  }

  /** A failure reported by a worker, late or not, keeps every job in exactly one place if
      and only if the lease entry is still there, or the job already is where the failure
      would put it. */
  lemma LateFailureIsHarmlessExactly(s: Store, job: Job, now: int, delay: int)
    requires ExactlyOnce(s)
    ensures ExactlyOnce(FinishFailed(s, job, now, delay)) <==> job.id in s.processing || AlreadyThere(s, job)
  {
    if job.id in s.processing {
      FailKeepsExact(s, job, now, delay);
    } else if AlreadyThere(s, job) {
      LateFailureHarmless(s, job, now, delay);
    } else {
      LateFailureHarms(s, job, now, delay);
    }
  }

  lemma LateAckHarms(s: Store, id: Id)
    requires ExactlyOnce(s) && id !in s.processing && id in s.jobs
    ensures !ExactlyOnce(AckScript(s, id))
  {
    var t := AckScript(s, id);
    assert t.processing == s.processing && id in s.jobs.Keys && id !in t.jobs.Keys;
    assert Bag(t) == Bag(s);
    assert Bag(t)[id] == 1 && multiset(t.jobs.Keys)[id] == 0;
  }

  /** A success reported by a worker, late or not, keeps every job in exactly one place if
      and only if the lease entry is still there or the job is gone. */
  lemma LateSuccessIsHarmlessExactly(s: Store, id: Id)
    requires ExactlyOnce(s)
    ensures ExactlyOnce(AckScript(s, id)) <==> id in s.processing || id !in s.jobs
  {
    if id in s.processing {
      AckKeepsExact(s, id);
    } else if id in s.jobs {
      LateAckHarms(s, id);
    } else {
      assert id !in s.priorities.Keys;
      assert AckScript(s, id) == s;
    }
  }

  const JOB := Job(7, "k", "", 4, 0, 3, 0, "")

  lemma {:induction false} OneMemberBatch(z: Scores, id: Id, now: int, limit: nat)
    requires z.Keys == {id} && z[id] <= now && limit > 0
    ensures DueBatch(z, now, limit) == [id]
  {
    var due := Due(z, now);
    assert due.Keys == {id};
    RankedIsRanked(due);
    assert |due| == |due.Keys| == 1;
    assert Ranked(due)[0] in due;
  }

  /** The state after the job is enqueued, claimed with a lease until 10, and loaded. */
  lemma Loaded() returns (es: seq<Event>, s: System)
    ensures After(es) == Some(s) && s.store == EMPTY.(jobs := map[7 := JOB], priorities := map[7 := 4],
        processing := map[7 := 10])
    ensures s.workers == map[0 := Holding(JOB)] && s.replayers == map[]
  {
    var e := Enqueue(JOB, "", 0, 0, 0);
    Extend([], START, e);
    var s1 := Step(START, e);
    assert s1.store.ready[4] == [7];
    assert HighestReady(s1.store.ready, 10) == Some(4);
    Extend([] + [e], s1, Claim(0, 10));
    var s2 := Step(s1, Claim(0, 10));
    assert [7][1..] == [] && s2.store.ready == EMPTY.ready;
    Extend([] + [e] + [Claim(0, 10)], s2, Load(0));
    es, s := [] + [e] + [Claim(0, 10)] + [Load(0)], Step(s2, Load(0));
  }

  /** The same, reclaimed at 20 while its worker still runs. */
  lemma TakenBack() returns (es: seq<Event>, s: System)
    ensures After(es) == Some(s) && WellFormed(s) && s.workers == map[0 := Holding(JOB)] && 7 in s.store.ready[4]
  {
    es, s := Loaded();
    OneMemberBatch(s.store.processing, 7, 20, 250);
    MoveAllReady(s.store, Processing, [7], 4);
    assert [7][..0] == [];
    assert OfPriority(s.store.priorities, [7], 4) == [7];
    var reclaim := Move(Processing, 20, 250);
    Extend(es, s, reclaim);
    es, s := es + [reclaim], Step(s, reclaim);
  }

  /** When the late worker then fails, the job is ready and delayed at once. */
  lemma LateFailureDuplicates()
    ensures exists es, s :: After(es) == Some(s) && s.store.InReady(7) && 7 in s.store.delayed && !ExactlyOnce(s.store)
  {
    var es, s := TakenBack();
    var fail := Fail(0, 30, 5);
    Extend(es, s, fail);
    var t := Step(s, fail);
    assert 7 in t.store.ready[4];
    if ExactlyOnce(t.store) { OnePlaceOnly(t.store, 7); }
    assert After(es + [fail]) == Some(t) && t.store.InReady(7);
  }

  // ---- One job, step by step --------------------------------------------------------

  const ONLY_SEVEN: seq<seq<Id>> := [[], [], [], [], [7], [], [], [], [], []]

  /** Claiming when job 7 is the only one ready. */
  lemma ClaimSeven(s: Store, expiry: int)
    requires s.ready == ONLY_SEVEN
    ensures ClaimAnswer(s) == Some(7)
    ensures ClaimScript(s, expiry) == s.(ready := EMPTY.ready, processing := s.processing[7 := expiry])
  {
    assert HighestReady(s.ready, 10) == Some(4);
    assert [7][1..] == [] && s.ready[4 := []] == EMPTY.ready;
  }

  lemma PromoteSeven(s: Store, now: int)
    requires s.ready == EMPTY.ready && s.WellFormed() && s.delayed.Keys == {7} && s.delayed[7] <= now
    requires 7 in s.priorities && s.priorities[7] == 4
    ensures MoveScript(s, Delayed, now, 250) == s.(ready := ONLY_SEVEN, delayed := map[])
  {
    OneMemberBatch(s.delayed, 7, now, 250);
    assert [7][..0] == [];
    assert MoveAll(s, Delayed, [7]) == MoveOne(s, Delayed, 7);
    assert [] + [7] == [7];
    assert s.delayed - {7} == map[];
  }

  lemma EnqueueSeven()
    ensures EnqueueScript(EMPTY, "", JOB, 0, 0, 0)
        == EMPTY.(jobs := map[7 := JOB], priorities := map[7 := 4], ready := ONLY_SEVEN)
  {
    assert [] + [7] == [7];
    assert PushReady(EMPTY.ready, 4, 7) == ONLY_SEVEN;
  }

  /** A system that knows job 7 and nothing else. */
  function Seven(job: Job, ready: seq<seq<Id>>, delayed: Scores, processing: Scores,
    workers: map<nat, Worker>): System {
    System(Store(map[7 := job], map[7 := 4], ready, delayed, processing, map[], map[]), workers, map[], {7}, 0)
  }

  function Waiting(job: Job, now: int, workers: map<nat, Worker>): Timed {
    Timed(Seven(job, ONLY_SEVEN, map[], map[], workers), now, map[])
  }

  /** Worker 0 runs job 7 under a lease it took at time zero. */
  function Running(lease: nat, now: int, worker: Worker): Timed {
    Timed(Seven(JOB, EMPTY.ready, map[], map[7 := lease], map[0 := worker]), now, map[0 := 0])
  }

  function FailedOnce(now: int): Job {
    Failed(JOB).(availableAt := now)
  }

  /** Worker 1 has job 7 under a lease it took at `since`; its entry lasts until `expiry`. */
  function RunningAgain(since: int, now: int, expiry: int): Timed {
    Timed(Seven(FailedOnce(since), EMPTY.ready, map[], map[7 := expiry], map[0 := Idle, 1 := Claimed(7)]), now,
      map[1 := since])
  }

  /** One more event of a run. */
  lemma GoesOn(lease: nat, tes: seq<TimedEvent>, t: Timed, te: TimedEvent, u: Timed) returns (longer: seq<TimedEvent>)
    requires TimedAfter(lease, tes) == Some(t) && WellFormed(t.sys) && Possible(t, lease, te)
        && TimedStep(t, lease, te) == u
    ensures longer == tes + [te] && TimedAfter(lease, longer) == Some(u)
    ensures OrderlyRun(lease, tes) && Orderly(t, te) ==> OrderlyRun(lease, longer)
  {
    longer := tes + [te];
    TimedExtend(lease, tes, t, te);
    assert longer[..|longer| - 1] == tes;
  }

  lemma EnqueuedAtZero(lease: nat) returns (tes: seq<TimedEvent>)
    ensures TimedAfter(lease, tes) == Some(Waiting(JOB, 0, map[])) && OrderlyRun(lease, tes)
  {
    EnqueueSeven();
    tes := GoesOn(lease, [], BEGIN, Act(Enqueue(JOB, "", 0, 0, 0)), Waiting(JOB, 0, map[]));
  }

  /** Worker 0 claims job 7 at time zero. */
  lemma ClaimedAtZero(lease: nat) returns (tes: seq<TimedEvent>)
    requires lease > 0
    ensures TimedAfter(lease, tes) == Some(Running(lease, 0, Claimed(7))) && OrderlyRun(lease, tes)
  {
    tes := EnqueuedAtZero(lease);
    var t := Waiting(JOB, 0, map[]);
    ClaimSeven(t.sys.store, lease);
    tes := GoesOn(lease, tes, t, ClaimAt(0, 0), Running(lease, 0, Claimed(7)));
  }

  // ---- Short leases -------------------------------------------------------------------

  /** Under every lease shorter than two seconds there is a run in which a live worker is
      on time and the next reclaim takes its entry all the same. */
  lemma ShortLeasesAreReclaimed(lease: nat) returns (tes: seq<TimedEvent>, t: Timed)
    requires 0 < lease < 2000
    ensures TimedAfter(lease, tes) == Some(t) && OrderlyRun(lease, tes)
    ensures Owns(t.sys, 0, 7) && 0 in t.leased && OnTime(lease, t.leased[0], t.now)
    ensures 7 in DueBatch(t.sys.store.processing, t.now, 250)
  {
    var now := 1000 + (lease + 1) / 2 - 1;
    tes := ClaimedAtZero(lease);
    t := Running(lease, now, Claimed(7));
    tes := GoesOn(lease, tes, Running(lease, 0, Claimed(7)), Tick(now), t);
    OneMemberBatch(t.sys.store.processing, 7, now, 250);
  }

  // ---- Stray renewals --------------------------------------------------------------------

  /** Worker 0 is about to renew job 7 when its renewal is due. */
  lemma AboutToRenew(lease: nat) returns (tes: seq<TimedEvent>)
    requires lease >= 2000
    ensures TimedAfter(lease, tes) == Some(Running(lease, RenewalInterval(lease), Holding(JOB)))
  {
    tes := ClaimedAtZero(lease);
    var loaded := Running(lease, 0, Holding(JOB));
    tes := GoesOn(lease, tes, Running(lease, 0, Claimed(7)), Act(Load(0)), loaded);
    tes := GoesOn(lease, tes, loaded, Tick(RenewalInterval(lease)),
      Running(lease, RenewalInterval(lease), Holding(JOB)));
  }

  /** Job 7 fails on worker 0 and is promoted at once. */
  lemma FailedAndPromoted(lease: nat, begun: seq<TimedEvent>, now: int) returns (tes: seq<TimedEvent>)
    requires lease >= 2000 && TimedAfter(lease, begun) == Some(Running(lease, now, Holding(JOB)))
    ensures tes == begun + [Act(Fail(0, now, 0))] + [Act(Move(Delayed, now, 250))]
    ensures TimedAfter(lease, tes) == Some(Waiting(FailedOnce(now), now, map[0 := Idle]))
  {
    var failed := Timed(Seven(FailedOnce(now), EMPTY.ready, map[7 := now], map[], map[0 := Idle]), now, map[]);
    tes := GoesOn(lease, begun, Running(lease, now, Holding(JOB)), Act(Fail(0, now, 0)), failed);
    PromoteSeven(failed.sys.store, now);
    tes := GoesOn(lease, tes, failed, Act(Move(Delayed, now, 250)), Waiting(FailedOnce(now), now, map[0 := Idle]));
  }

  lemma ClaimedByOne(lease: nat, begun: seq<TimedEvent>, now: int) returns (tes: seq<TimedEvent>)
    requires lease >= 2000 && TimedAfter(lease, begun) == Some(Waiting(FailedOnce(now), now, map[0 := Idle]))
    ensures tes == begun + [ClaimAt(1, now)] && TimedAfter(lease, tes) == Some(RunningAgain(now, now, now + lease))
  {
    var t := Waiting(FailedOnce(now), now, map[0 := Idle]);
    ClaimSeven(t.sys.store, now + lease);
    tes := GoesOn(lease, begun, t, ClaimAt(1, now), RunningAgain(now, now, now + lease));
  }

  lemma SixMore(begun: seq<TimedEvent>, a: TimedEvent, b: TimedEvent, c: TimedEvent, d: TimedEvent, e: TimedEvent,
    f: TimedEvent)
    ensures var tes := begun + [a] + [b] + [c] + [d] + [e] + [f]; begun <= tes && e in tes
  {
    assert e in begun + [a] + [b] + [c] + [d] + [e];
  }

  lemma LosesItsEntry(lease: nat, at: int)
    requires lease >= 2000
    ensures var t := RunningAgain(at + 1, at + lease, at + lease);
      Owns(t.sys, 1, 7) && OnTime(lease, t.leased[1], t.now) && 7 in DueBatch(t.sys.store.processing, t.now, 250)
  {
    OneMemberBatch(RunningAgain(at + 1, at + lease, at + lease).sys.store.processing, 7, at + lease, 250);
  }

  lemma OldRenewalLands(lease: nat, begun: seq<TimedEvent>, at: int) returns (tes: seq<TimedEvent>)
    requires lease >= 2000 && TimedAfter(lease, begun) == Some(RunningAgain(at + 1, at + 1, at + 1 + lease))
    ensures tes == begun + [Land(7, at)] && TimedAfter(lease, tes) == Some(RunningAgain(at + 1, at + 1, at + lease))
  {
    HeartbeatChanges(RunningAgain(at + 1, at + 1, at + 1 + lease).sys, 7, at + lease);
    tes := GoesOn(lease, begun, RunningAgain(at + 1, at + 1, at + 1 + lease), Land(7, at),
      RunningAgain(at + 1, at + 1, at + lease));
  }

  /** An older renewal arrives, and worker 1 stays on time. */
  lemma ArrivesLate(lease: nat, begun: seq<TimedEvent>, at: int) returns (tes: seq<TimedEvent>)
    requires lease >= 2000 && TimedAfter(lease, begun) == Some(RunningAgain(at + 1, at + 1, at + 1 + lease))
    ensures tes == begun + [Land(7, at)] + [Tick(at + lease)]
    ensures TimedAfter(lease, tes) == Some(RunningAgain(at + 1, at + lease, at + lease))
  {
    tes := OldRenewalLands(lease, begun, at);
    tes := GoesOn(lease, tes, RunningAgain(at + 1, at + 1, at + lease), Tick(at + lease),
      RunningAgain(at + 1, at + lease, at + lease));
  }

  lemma KeepsRunning(lease: nat, begun: seq<TimedEvent>, now: int, later: int) returns (tes: seq<TimedEvent>)
    requires TimedAfter(lease, begun) == Some(Running(lease, now, Holding(JOB))) && now <= later
        && OnTime(lease, 0, later)
    ensures tes == begun + [Tick(later)] && TimedAfter(lease, tes) == Some(Running(lease, later, Holding(JOB)))
  {
    tes := GoesOn(lease, begun, Running(lease, now, Holding(JOB)), Tick(later), Running(lease, later, Holding(JOB)));
  }

  /** The job fails and waits again, a millisecond after the renewal was computed. */
  lemma LetsGo(lease: nat, begun: seq<TimedEvent>, at: int) returns (tes: seq<TimedEvent>)
    requires lease >= 2000 && OnTime(lease, 0, at + 1)
        && TimedAfter(lease, begun) == Some(Running(lease, at, Holding(JOB)))
    ensures tes == begun + [Tick(at + 1)] + [Act(Fail(0, at + 1, 0))] + [Act(Move(Delayed, at + 1, 250))]
    ensures TimedAfter(lease, tes) == Some(Waiting(FailedOnce(at + 1), at + 1, map[0 := Idle]))
  {
    tes := KeepsRunning(lease, begun, at, at + 1);
    tes := FailedAndPromoted(lease, tes, at + 1);
  }

  lemma TakenOver(lease: nat, begun: seq<TimedEvent>, at: int) returns (tes: seq<TimedEvent>)
    requires lease >= 2000 && OnTime(lease, 0, at + 1)
        && TimedAfter(lease, begun) == Some(Running(lease, at, Holding(JOB)))
    ensures tes == begun + [Tick(at + 1)] + [Act(Fail(0, at + 1, 0))]
      + [Act(Move(Delayed, at + 1, 250))] + [ClaimAt(1, at + 1)]
    ensures TimedAfter(lease, tes) == Some(RunningAgain(at + 1, at + 1, at + 1 + lease))
  {
    tes := LetsGo(lease, begun, at);
    tes := ClaimedByOne(lease, tes, at + 1);
  }

  /** Under every lease of two seconds and more there is a run in which a live, punctual
      worker loses its entry: worker 0 computes a renewal while it holds the job, the job
      fails, is retried and claimed by worker 1, and then the renewal arrives. */
  lemma StrayRenewalTakesALiveJob(lease: nat)
    returns (begun: seq<TimedEvent>, computed: Timed, tes: seq<TimedEvent>, t: Timed)
    requires lease >= 2000
    ensures TimedAfter(lease, begun) == Some(computed) && Owns(computed.sys, 0, 7)
    ensures TimedAfter(lease, tes) == Some(t) && begun <= tes && Land(7, computed.now) in tes
    ensures Owns(t.sys, 1, 7) && 1 in t.leased && OnTime(lease, t.leased[1], t.now)
    ensures 7 in DueBatch(t.sys.store.processing, t.now, 250)
  {
    var at := RenewalInterval(lease);
    computed, t := Running(lease, at, Holding(JOB)), RunningAgain(at + 1, at + lease, at + lease);
    begun := AboutToRenew(lease);
    tes := TakenOver(lease, begun, at);
    tes := ArrivesLate(lease, tes, at);
    SixMore(begun, Tick(at + 1), Act(Fail(0, at + 1, 0)), Act(Move(Delayed, at + 1, 250)), ClaimAt(1, at + 1),
      Land(7, at), Tick(at + lease));
    LosesItsEntry(lease, at);
  }
}
