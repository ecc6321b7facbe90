/** Waiting: a job that failed, or was enqueued with a delay, is neither ready nor running
    until a promotion names a time at which it is due. Times are milliseconds. */
module QueueDelays {
  import opened JobStore
  import opened QueueProtocol
  import opened QueueFencing
  import opened QueueTiming
  import opened QueueSchedules
  import opened QueueLeases
  import opened QueueClock

  /** The job sits in the delayed set, scored by its own time, and nowhere else. */
  ghost predicate Waits(s: Store, id: Id, due: int) {
    && id in s.jobs && s.jobs[id].availableAt == due
    && id in s.delayed && s.delayed[id] == due
    && !Started(s, id) && id !in s.dlq
  }

  /** A promotion at a time at which the job is due. */
  predicate Promotes(e: Event, due: int) {
    e.Move? && e.src.Delayed? && e.now >= due
  }

  /** A failure below the maximum puts the job off by exactly its delay. */
  lemma FailureStartsWait(s: System, e: Event)
    requires FencedInv(s) && Enabled(s, e) && e.Fail?
    requires s.workers[e.w].job.attempt + 1 < s.workers[e.w].job.maxAttempts
    ensures Waits(FencedStep(s, e).store, s.workers[e.w].job.id, e.now + e.delay)
  {
    var job := s.workers[e.w].job;
    assert Owns(s, e.w, job.id);
    OnePlaceOnly(s.store, job.id);
    assert FencedStep(s, e).store.ready == s.store.ready;
  }

  /** So does an enqueue for a later time. */
  lemma DelayStartsWait(s: System, e: Event)
    requires FencedInv(s) && Enabled(s, e) && e.Enqueue? && Creates(s.store, e.key, e.clock)
        && e.job.availableAt > e.now
    ensures Waits(FencedStep(s, e).store, e.job.id, e.job.availableAt)
  {
    assert e.job.id !in s.store.jobs;
    OnePlaceOnly(s.store, e.job.id);
    assert FencedStep(s, e).store.ready == s.store.ready;
  }

  lemma MoveKeepsWaiting(s: System, e: Event, id: Id, due: int)
    requires FencedInv(s) && Enabled(s, e) && e.Move? && Waits(s.store, id, due) && !Promotes(e, due)
    ensures Waits(FencedStep(s, e).store, id, due)
  {
    var ids := DueBatch(Members(s.store, e.src), e.now, e.limit);
    var t := FencedStep(s, e).store;
    DueBatchMeaning(Members(s.store, e.src), e.now, e.limit);
    MoveAllFrame(s.store, e.src, ids);
    if t.InReady(id) { MovedReady(s.store, e.src, ids, id); }
  }

  lemma ClaimKeepsWaiting(s: System, e: Event, id: Id, due: int)
    requires FencedInv(s) && Enabled(s, e) && e.Claim? && Waits(s.store, id, due)
    ensures Waits(FencedStep(s, e).store, id, due)
  {
    var t := FencedStep(s, e).store;
    var best := HighestReady(s.store.ready, |s.store.ready|);
    if best.Some? {
      assert s.store.ready[best.value][0] in s.store.ready[best.value];
      forall q | 0 <= q < |t.ready| ensures id !in t.ready[q] {
        assert id !in s.store.ready[q];
      }
    }
  }

  lemma PushKeepsWaiting(s: Store, t: Store, p: nat, other: Id, id: Id)
    requires p < |s.ready| && t.ready == PushReady(s.ready, p, other) && other != id && !s.InReady(id)
    ensures !t.InReady(id)
  {
    forall q | 0 <= q < |t.ready| ensures id !in t.ready[q] {
      assert id !in s.ready[q];
    }
  }

  /** A step on another job leaves this one alone. */
  lemma SettledElsewhere(s: System, w: nat, id: Id, due: int)
    requires FencedInv(s) && s.Held(w) && Waits(s.store, id, due)
    ensures s.workers[w].job.id != id
  {
    assert Owns(s, w, s.workers[w].job.id);
  }

  lemma PushesKeepWaiting(s: System, e: Event, id: Id, due: int)
    requires FencedInv(s) && Enabled(s, e) && (e.Enqueue? || e.ReplayMove?) && Waits(s.store, id, due)
    ensures Waits(Step(s, e).store, id, due)
  {
    var t := Step(s, e).store;
    if t.ready != s.store.ready {
      var job := if e.Enqueue? then e.job else s.replayers[e.r];
      PushKeepsWaiting(s.store, t, job.priority, job.id, id);
    }
  }

  lemma OthersKeepWaiting(s: System, e: Event, id: Id, due: int)
    requires FencedInv(s) && Enabled(s, e) && !e.Move? && !e.Claim? && Waits(s.store, id, due)
    ensures Waits(Step(s, e).store, id, due)
  {
    if e.Enqueue? || e.ReplayMove? {
      PushesKeepWaiting(s, e, id, due);
    } else {
      if e.Fail? || e.Succeed? { SettledElsewhere(s, e.w, id, due); }
      assert Step(s, e).store.ready == s.store.ready;
    }
  }

  lemma WaitGoesOn(s: System, e: Event, id: Id, due: int)
    requires FencedInv(s) && Enabled(s, e) && Waits(s.store, id, due) && !Promotes(e, due)
    ensures Waits(FencedStep(s, e).store, id, due)
  {
    if e.Move? { MoveKeepsWaiting(s, e, id, due); }
    else if e.Claim? { ClaimKeepsWaiting(s, e, id, due); }
    else { OthersKeepWaiting(s, e, id, due); }
  }

  /** In every fenced run a waiting job goes on waiting until a promotion names its time. */
  lemma {:induction false} WaitsUntilPromoted(es: seq<Event>, n: nat, id: Id, due: int)
    requires FencedAfter(es).Some? && n <= |es| && FencedAfter(es[..n]).Some?
    requires Waits(FencedAfter(es[..n]).value.store, id, due)
    requires forall k :: n <= k < |es| ==> !Promotes(es[k], due)
    ensures Waits(FencedAfter(es).value.store, id, due)
  {
    if n < |es| {
      var front := es[..|es| - 1];
      assert front[..n] == es[..n];
      WaitsUntilPromoted(front, n, id, due);
      FencedRunKeepsInv(front);
      WaitGoesOn(FencedAfter(front).value, es[|es| - 1], id, due);
    } else {
      assert es[..n] == es;
    }
  }

  lemma FencedAt(es: seq<Event>, n: nat)
    requires n < |es| && FencedAfter(es[..n]).Some? && FencedAfter(es[..n + 1]).Some?
    ensures var s := FencedAfter(es[..n]).value;
      WellFormed(s) && Enabled(s, es[n]) && FencedAfter(es[..n + 1]).value == FencedStep(s, es[n])
  {
    var more := es[..n + 1];
    assert more[..|more| - 1] == es[..n] && more[|more| - 1] == es[n];
  }

  /** The backoff acts: after a failure the job is neither ready nor running until a
      promotion names a time that is the delay or more after it. */
  lemma RetriesWaitTheirBackoff(es: seq<Event>, n: nat)
    requires FencedAfter(es).Some? && n < |es| && es[n].Fail?
    requires FencedAfter(es[..n]).Some? && FencedAfter(es[..n + 1]).Some?
    requires var s := FencedAfter(es[..n]).value; var w := es[n].w;
      s.Held(w) && s.workers[w].job.attempt + 1 < s.workers[w].job.maxAttempts
    requires forall k :: n < k < |es| ==> !Promotes(es[k], es[n].now + es[n].delay)
    ensures var id := FencedAfter(es[..n]).value.workers[es[n].w].job.id;
      Waits(FencedAfter(es).value.store, id, es[n].now + es[n].delay)
  {
    var s := FencedAfter(es[..n]).value;
    FencedAt(es, n);
    FencedRunKeepsInv(es[..n]);
    FailureStartsWait(s, es[n]);
    WaitsUntilPromoted(es, n + 1, s.workers[es[n].w].job.id, es[n].now + es[n].delay);
  }

  // ---- And then it is ready --------------------------------------------------------------

  /** A promotion at its time or later that has room for everything due makes it ready, in
      the list of its priority. */
  lemma PromotionReadies(s: System, id: Id, due: int, now: int, limit: nat)
    requires FencedInv(s) && Waits(s.store, id, due) && due <= now && |Due(s.store.delayed, now)| <= limit
    ensures var t := MoveScript(s.store, Delayed, now, limit);
      id !in t.delayed && s.store.jobs[id].priority < LEVELS && id in t.ready[s.store.jobs[id].priority]
  {
    var ids := DueBatch(s.store.delayed, now, limit);
    RankedIsRanked(Due(s.store.delayed, now));
    assert id in Due(s.store.delayed, now);
    assert id in ids;
    var p := s.store.jobs[id].priority;
    assert id in s.store.priorities.Keys;
    MoveAllFrame(s.store, Delayed, ids);
    MoveAllReady(s.store, Delayed, ids, p);
    OfPriorityMembers(s.store.priorities, ids, p);
  }

  // ---- On the shared clock -----------------------------------------------------------------

  lemma TimedWaitGoesOn(t: Timed, lease: nat, te: TimedEvent, id: Id, due: int)
    requires lease >= 2000 && TimedInv(t, lease) && Possible(t, lease, te) && Waits(t.sys.store, id, due)
    requires (te.Act? ==> HasCome(te.e, t.now)) && t.now < due
    ensures Waits(TimedStep(t, lease, te).sys.store, id, due)
  {
    TimedSystem(t, lease, te);
    if !te.Tick? {
      var e := Underlying(t, lease, te).value;
      TimedStepIsFenced(t, lease, te);
      WaitGoesOn(t.sys, e, id, due);
    }
  }

  /** On the clock: while no process is ahead of it, a waiting job is neither ready nor
      running before its time. */
  lemma {:induction false} WaitsOnTheClock(lease: nat, tes: seq<TimedEvent>, n: nat, id: Id, due: int)
    requires lease >= 2000 && TimedAfter(lease, tes).Some? && OrderlyRun(lease, tes) && NobodyIsAhead(lease, tes)
    requires n <= |tes| && TimedAfter(lease, tes[..n]).Some?
        && Waits(TimedAfter(lease, tes[..n]).value.sys.store, id, due)
    requires TimedAfter(lease, tes).value.now < due
    ensures Waits(TimedAfter(lease, tes).value.sys.store, id, due)
  {
    if n < |tes| {
      var front, te := tes[..|tes| - 1], tes[|tes| - 1];
      assert front[..n] == tes[..n];
      TimedRunKeepsInv(lease, front);
      var t := TimedAfter(lease, front).value;
      ClockMovesOn(t, lease, te);
      WaitsOnTheClock(lease, front, n, id, due);
      TimedWaitGoesOn(t, lease, te, id, due);
    } else {
      assert tes[..n] == tes;
    }
  }

  lemma ClockMovesOn(t: Timed, lease: nat, te: TimedEvent)
    requires WellFormed(t.sys) && Possible(t, lease, te)
    ensures TimedStep(t, lease, te).now >= t.now
  {
  }
}
