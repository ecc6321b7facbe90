/** What holds of the queue on a shared clock, where the lease discipline is met and not
    assumed: timed runs are fenced runs, so every guarantee of a fenced run is one of a
    timed run. Times are milliseconds. */
module QueueClock {
  import opened JobStore
  import opened QueueProtocol
  import opened QueueFencing
  import opened QueueLeases
  import opened QueueTiming

  /** The queue events of a timed run: everything but the passing of time. */
  ghost function Events(lease: nat, tes: seq<TimedEvent>): seq<Event> {
    if tes == [] then [] else
      var front, te := tes[..|tes| - 1], tes[|tes| - 1];
      Events(lease, front) + EventOf(lease, TimedAfter(lease, front), te)
  }

  ghost function EventOf(lease: nat, before: Option<Timed>, te: TimedEvent): seq<Event> {
    if before.None? || !Possible(before.value, lease, te) then [] else
      var e := Underlying(before.value, lease, te);
      if e.None? then [] else [e.value]
  }

  lemma FencedExtend(es: seq<Event>, s: System, e: Event)
    requires FencedAfter(es) == Some(s) && WellFormed(s) && Enabled(s, e)
    ensures FencedAfter(es + [e]) == Some(FencedStep(s, e))
  {
    assert (es + [e])[..|es + [e]| - 1] == es;
  }

  /** With leases of two seconds or more, workers that are on time or dead and renewals
      that arrive in order, a timed run is a fenced run: no worker ever has to be stopped. */
  lemma {:induction false} TimedRunsAreFenced(lease: nat, tes: seq<TimedEvent>)
    requires lease >= 2000 && TimedAfter(lease, tes).Some? && OrderlyRun(lease, tes)
    ensures FencedAfter(Events(lease, tes)) == Some(TimedAfter(lease, tes).value.sys)
  {
    if tes != [] {
      var front, te := tes[..|tes| - 1], tes[|tes| - 1];
      TimedRunsAreFenced(lease, front);
      TimedRunKeepsInv(lease, front);
      var t := TimedAfter(lease, front).value;
      TimedSystem(t, lease, te);
      if te.Tick? {
        assert Events(lease, tes) == Events(lease, front);
      } else {
        TimedStepIsFenced(t, lease, te);
        FencedExtend(Events(lease, front), t.sys, Underlying(t, lease, te).value);
      }
    }
  }

  /** The retry bound on the clock: attempts are the failures recorded since creation or
      replay, and a job is dead exactly when they have reached its maximum. */
  lemma DeadAfterMaxFailuresOnTheClock(lease: nat, tes: seq<TimedEvent>, id: Id)
    requires lease >= 2000 && TimedAfter(lease, tes).Some? && OrderlyRun(lease, tes)
    requires id in TimedAfter(lease, tes).value.sys.store.jobs
    ensures var s := TimedAfter(lease, tes).value.sys.store; var n := Failures(Events(lease, tes), id);
      && s.jobs[id].attempt == n <= s.jobs[id].maxAttempts
      && (id in s.dlq <==> n == s.jobs[id].maxAttempts)
  {
    TimedRunsAreFenced(lease, tes);
    DeadAfterExactlyMaxFailures(Events(lease, tes), id);
  }

  /** Conservation on the clock: the places together hold each stored job once, and the
      depths add up. */
  lemma DepthsAddUpOnTheClock(lease: nat, tes: seq<TimedEvent>)
    requires lease >= 2000 && TimedAfter(lease, tes).Some? && OrderlyRun(lease, tes)
    ensures var s := TimedAfter(lease, tes).value.sys.store;
      && Bag(s) == multiset(s.jobs.Keys)
      && |s.jobs| == ReadyTotal(s.ready) + |s.delayed| + |s.processing| + |s.dlq|
  {
    TimedRunsAreFenced(lease, tes);
    EveryJobInExactlyOnePlace(Events(lease, tes));
  }

  // ---- Nothing runs early ----------------------------------------------------------

  /** The time a client names in an event has come. */
  predicate HasCome(e: Event, now: int) {
    match e
    case Enqueue(_, _, named, _, _) => named <= now
    case Move(_, named, _) => named <= now
    case ReplayMove(_, named) => named <= now
    case _ => true
  }

  /** No client's clock runs ahead of the shared one. */
  ghost predicate NobodyIsAhead(lease: nat, tes: seq<TimedEvent>) {
    tes == [] ||
      var front, te, before := tes[..|tes| - 1], tes[|tes| - 1], TimedAfter(lease, tes[..|tes| - 1]);
      NobodyIsAhead(lease, front) && before.Some? && (te.Act? ==> HasCome(te.e, before.value.now))
  }

  lemma {:induction false} LatestHasCome(lease: nat, tes: seq<TimedEvent>)
    requires TimedAfter(lease, tes).Some? && NobodyIsAhead(lease, tes)
    ensures Latest(Events(lease, tes)) <= TimedAfter(lease, tes).value.now
  {
    if tes != [] {
      var front, te := tes[..|tes| - 1], tes[|tes| - 1];
      LatestHasCome(lease, front);
      var t := TimedAfter(lease, front).value;
      TimedSystem(t, lease, te);
      var es := Events(lease, front);
      if te.Tick? {
        assert Events(lease, tes) == es;
      } else {
        var e := Underlying(t, lease, te).value;
        assert Events(lease, tes) == es + [e] && (es + [e])[..|es|] == es;
        NamedHasCome(Latest(es), e, t.now);
      }
    }
  }

  lemma NamedHasCome(latest: int, e: Event, now: int)
    requires latest <= now && HasCome(e, now)
    ensures Named(latest, e) <= now
  {
  }

  /** No job is ready or running before its time on the shared clock. */
  lemma NoJobRunsEarlyOnTheClock(lease: nat, tes: seq<TimedEvent>, id: Id)
    requires lease >= 2000 && TimedAfter(lease, tes).Some? && OrderlyRun(lease, tes) && NobodyIsAhead(lease, tes)
    requires id in TimedAfter(lease, tes).value.sys.store.jobs
    ensures var t := TimedAfter(lease, tes).value; var s := t.sys.store;
      && (Started(s, id) ==> s.jobs[id].availableAt <= t.now)
      && (id in s.delayed ==> s.delayed[id] == s.jobs[id].availableAt)
  {
    TimedRunsAreFenced(lease, tes);
    LatestHasCome(lease, tes);
    NoJobRunsEarly(Events(lease, tes), id);
  }
}
