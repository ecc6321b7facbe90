/** No job runs early: what a fenced run may hand out was due at some time a client
    put into the queue. Times are milliseconds. */
module QueueTiming {
  import opened JobStore
  import opened QueueProtocol
  import opened QueueFencing

  predicate Started(s: Store, id: Id) {
    s.InReady(id) || id in s.processing
  }

  /** The delayed set is scored by the jobs' own times, and everything ready or running
      was due at `latest`. */
  ghost predicate Timely(s: Store, latest: int) {
    && (forall id :: id in s.jobs && id in s.delayed ==> s.delayed[id] == s.jobs[id].availableAt)
    && (forall id :: id in s.jobs && Started(s, id) ==> s.jobs[id].availableAt <= latest)
  }

  /** The times clients name: when they enqueue, promote or replay. */
  function Named(latest: int, e: Event): int {
    match e
    case Enqueue(_, _, now, _, _) => if now > latest then now else latest
    case Move(_, now, _) => if now > latest then now else latest
    case ReplayMove(_, now) => if now > latest then now else latest
    case _ => latest
  }

  lemma EnqueueIsTimely(s: Store, key: string, job: Job, now: int, clock: int, ttl: nat, latest: int)
    requires s.WellFormed() && job.priority < LEVELS && Timely(s, latest) && job.id !in s.jobs && !s.Placed(job.id)
    ensures Timely(EnqueueScript(s, key, job, now, clock, ttl), if now > latest then now else latest)
  {
    var t := EnqueueScript(s, key, job, now, clock, ttl);
    forall id | id in t.jobs && Started(t, id) ensures t.jobs[id].availableAt <= if now > latest then now else latest {
      if id != job.id && t.InReady(id) {
        var q :| 0 <= q < |t.ready| && id in t.ready[q];
        assert id in s.ready[q];
      }
    }
  }

  lemma ClaimIsTimely(s: Store, expiry: int, latest: int)
    requires Timely(s, latest)
    ensures Timely(ClaimScript(s, expiry), latest)
  {
    var t := ClaimScript(s, expiry);
    var best := HighestReady(s.ready, |s.ready|);
    if best.Some? {
      assert s.ready[best.value][0] in s.ready[best.value];
      forall id | id in t.jobs && Started(t, id) ensures t.jobs[id].availableAt <= latest {
        if t.InReady(id) {
          var q :| 0 <= q < |t.ready| && id in t.ready[q];
          assert id in s.ready[q];
        }
      }
    }
  }

  lemma MovedReady(s: Store, src: Source, ids: seq<Id>, id: Id)
    requires s.WellFormed() && MoveAll(s, src, ids).InReady(id)
    ensures s.InReady(id) || id in ids
  {
    var t := MoveAll(s, src, ids);
    var q :| 0 <= q < |t.ready| && id in t.ready[q];
    MoveAllReady(s, src, ids, q);
    OfPriorityMembers(s.priorities, ids, q);
    assert id in s.ready[q] || id in OfPriority(s.priorities, ids, q);
  }

  lemma MoveIsTimely(s: Store, src: Source, now: int, limit: nat, latest: int)
    requires s.WellFormed() && Timely(s, latest)
    ensures Timely(MoveScript(s, src, now, limit), if now > latest then now else latest)
  {
    var ids := DueBatch(Members(s, src), now, limit);
    var t := MoveScript(s, src, now, limit);
    DueBatchMeaning(Members(s, src), now, limit);
    MoveAllFrame(s, src, ids);
    forall id | id in t.jobs && Started(t, id) ensures t.jobs[id].availableAt <= if now > latest then now else latest {
      if t.InReady(id) { MovedReady(s, src, ids, id); }
    }
    assert forall id :: id in t.delayed ==> id in s.delayed && t.delayed[id] == s.delayed[id];
  }

  lemma FailIsTimely(s: Store, job: Job, now: int, delay: int, latest: int)
    requires Timely(s, latest) && !s.InReady(job.id) && job.id !in s.delayed
    ensures Timely(FinishFailed(s, job, now, delay), latest)
  {
  }

  lemma ReplayIsTimely(s: Store, job: Job, now: int, latest: int)
    requires s.WellFormed() && job.priority < LEVELS && Timely(s, latest) && (job.id in s.dlq ==> job.id !in s.delayed)
    ensures Timely(ReplayScript(s, Replayed(job, now)), if now > latest then now else latest)
  {
    var t := ReplayScript(s, Replayed(job, now));
    forall id | id in t.jobs && Started(t, id) ensures t.jobs[id].availableAt <= if now > latest then now else latest {
      if id != job.id && t.InReady(id) {
        var q :| 0 <= q < |t.ready| && id in t.ready[q];
        assert id in s.ready[q];
      }
    }
  }

  lemma QuietIsTimely(s: System, e: Event, latest: int)
    requires WellFormed(s) && Enabled(s, e) && Timely(s.store, latest)
    requires e.Load? || e.Drop? || e.Succeed? || e.Heartbeat? || e.ReplayLoad? || e.Crash?
    ensures Timely(Step(s, e).store, latest)
  {
    var t := Step(s, e).store;
    assert t.ready == s.store.ready && t.delayed == s.store.delayed && t.processing.Keys <= s.store.processing.Keys;
    assert forall id :: id in t.jobs ==> id in s.store.jobs && t.jobs[id] == s.store.jobs[id];
    assert forall id :: Started(t, id) ==> Started(s.store, id);
  }

  lemma StepIsTimely(s: System, e: Event, latest: int)
    requires FencedInv(s) && Enabled(s, e) && Timely(s.store, latest)
    ensures Timely(FencedStep(s, e).store, Named(latest, e))
  {
    match e
    case Enqueue(job, key, now, clock, ttl) => EnqueueIsTimely(s.store, key, job, now, clock, ttl, latest);
    case Claim(_, expiry) => ClaimIsTimely(s.store, expiry, latest);
    case Move(src, now, limit) => MoveIsTimely(s.store, src, now, limit, latest);
    case Fail(w, now, delay) =>
      var job := s.workers[w].job;
      assert Owns(s, w, job.id);
      OnePlaceOnly(s.store, job.id);
      FailIsTimely(s.store, job, now, delay, latest);
    case ReplayMove(r, now) =>
      OnePlaceOnly(s.store, s.replayers[r].id);
      ReplayIsTimely(s.store, s.replayers[r], now, latest);
    case _ => QuietIsTimely(s, e, latest);
  }

  /** The latest time a client has named in the run. */
  function Latest(es: seq<Event>): int {
    if es == [] then 0 else Named(Latest(es[..|es| - 1]), es[|es| - 1])
  }

  lemma {:induction false} RunIsTimely(es: seq<Event>)
    requires FencedAfter(es).Some?
    ensures Timely(FencedAfter(es).value.store, Latest(es))
  {
    if es != [] {
      var front := es[..|es| - 1];
      FencedRunKeepsInv(front);
      RunIsTimely(front);
      StepIsTimely(FencedAfter(front).value, es[|es| - 1], Latest(front));
    }
  }

  /** In a fenced run no job is ready or running before it is due: its own time, set by
      its delay or its last retry, is not after the latest time a client has named. And
      what waits in the delayed set waits for exactly its own time. */
  lemma NoJobRunsEarly(es: seq<Event>, id: Id)
    requires FencedAfter(es).Some? && id in FencedAfter(es).value.store.jobs
    ensures var s := FencedAfter(es).value.store;
      && (Started(s, id) ==> s.jobs[id].availableAt <= Latest(es))
      && (id in s.delayed ==> s.delayed[id] == s.jobs[id].availableAt)
  {
    RunIsTimely(es);
  }
}
