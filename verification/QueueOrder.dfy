/** Each ready list is a queue. Over every run, what was handed out from a list, followed by
    what still waits in it, is what was put into it, in that order. */
module QueueOrder {
  import opened JobStore
  import opened QueueProtocol
  import opened QueueSchedules

  /** The ids that wait for a priority. */
  function Line(s: Store, p: nat): seq<Id> {
    if p < |s.ready| then s.ready[p] else []
  }

  /** What an event puts at the back of list `p`: a job created when it is due, the due jobs
      of a batch, a replayed job. */
  ghost function Put(s: System, e: Event, p: nat): seq<Id>
    requires WellFormed(s) && Enabled(s, e)
  {
    match e
    case Enqueue(job, key, now, clock, _) =>
      if Creates(s.store, key, clock) && job.availableAt <= now && job.priority == p then [job.id] else []
    case Move(src, now, limit) => OfPriority(s.store.priorities, DueBatch(Members(s.store, src), now, limit), p)
    case ReplayMove(r, _) =>
      if s.replayers[r].id in s.store.dlq && s.replayers[r].priority == p then [s.replayers[r].id] else []
    case _ => []
  }

  /** What a claim hands its worker from list `p`, when every list above is empty. */
  ghost function Got(s: System, e: Event, p: nat): seq<Id>
    requires WellFormed(s) && Enabled(s, e)
  {
    if e.Claim? && Line(s.store, p) != [] && forall q :: p < q < LEVELS ==> Line(s.store, q) == [] then
      match Step(s, e).workers[e.w]
      case Claimed(id) => [id]
      case _ => []
    else []
  }

  lemma ClaimPops(s: System, e: Event, p: nat)
    requires WellFormed(s) && Enabled(s, e) && p < LEVELS && e.Claim? && HighestReady(s.store.ready, LEVELS) == Some(p)
    ensures Line(s.store, p) == Got(s, e, p) + Line(Step(s, e).store, p)
  {
    assert forall q :: 0 <= q < LEVELS ==> Line(s.store, q) == s.store.ready[q];
    assert s.store.ready[p] == [s.store.ready[p][0]] + s.store.ready[p][1..];
  }

  lemma ClaimPassesBy(s: System, e: Event, p: nat)
    requires WellFormed(s) && Enabled(s, e) && p < LEVELS && e.Claim? && HighestReady(s.store.ready, LEVELS) != Some(p)
    ensures Got(s, e, p) == [] && Line(Step(s, e).store, p) == Line(s.store, p)
  {
    assert forall q :: 0 <= q < LEVELS ==> Line(s.store, q) == s.store.ready[q];
  }

  /** One event: put at the back, taken from the front. */
  lemma StepQueues(s: System, e: Event, p: nat)
    requires WellFormed(s) && Enabled(s, e) && p < LEVELS
    ensures Line(s.store, p) + Put(s, e, p) == Got(s, e, p) + Line(Step(s, e).store, p)
  {
    match e
    case Claim(_, _) =>
      if HighestReady(s.store.ready, LEVELS) == Some(p) { ClaimPops(s, e, p); } else { ClaimPassesBy(s, e, p); }
    case Move(src, now, limit) => MoveAllReady(s.store, src, DueBatch(Members(s.store, src), now, limit), p);
    case _ =>
  }

  ghost function AllPut(es: seq<Event>, p: nat): seq<Id>
    requires After(es).Some?
  {
    if es == [] then [] else
      var front, e := es[..|es| - 1], es[|es| - 1];
      AllPut(front, p) + Put(After(front).value, e, p)
  }

  ghost function AllGot(es: seq<Event>, p: nat): seq<Id>
    requires After(es).Some?
  {
    if es == [] then [] else
      var front, e := es[..|es| - 1], es[|es| - 1];
      AllGot(front, p) + Got(After(front).value, e, p)
  }

  /** First in, first out, over every run of any processes. */
  lemma {:induction false} ListsAreQueues(es: seq<Event>, p: nat)
    requires After(es).Some? && p < LEVELS
    ensures AllGot(es, p) + Line(After(es).value.store, p) == AllPut(es, p)
  {
    if es != [] {
      var front, e := es[..|es| - 1], es[|es| - 1];
      ListsAreQueues(front, p);
      var s := After(front).value;
      StepQueues(s, e, p);
      assert After(es).value == Step(s, e);
      Regroup(AllGot(front, p), Line(s.store, p), Put(s, e, p), Got(s, e, p), Line(Step(s, e).store, p));
    }
  }

  lemma Regroup(got: seq<Id>, list: seq<Id>, put: seq<Id>, more: seq<Id>, after: seq<Id>)
    requires list + put == more + after
    ensures got + list + put == got + more + after
  {
    assert got + list + put == got + (list + put);
  }

  lemma {:induction false} PutsOfPrefix(es: seq<Event>, n: nat, p: nat)
    requires After(es).Some? && n <= |es|
    ensures After(es[..n]).Some? && AllPut(es[..n], p) <= AllPut(es, p)
  {
    PrefixRuns(es, n);
    if n < |es| {
      var front := es[..|es| - 1];
      assert front[..n] == es[..n];
      PutsOfPrefix(front, n, p);
    } else {
      assert es[..n] == es;
    }
  }

  /** None overtakes an earlier one, whatever else happens: what was handed out from a list
      and then waits in it at some moment, in that order, is handed out and then waits in that
      order ever after, before anything else. */
  lemma ServedInOrder(es: seq<Event>, n: nat, p: nat)
    requires After(es).Some? && n <= |es| && p < LEVELS && After(es[..n]).Some?
    ensures AllGot(es[..n], p) + Line(After(es[..n]).value.store, p) <= AllGot(es, p) + Line(After(es).value.store, p)
  {
    ListsAreQueues(es, p);
    ListsAreQueues(es[..n], p);
    PutsOfPrefix(es, n, p);
  }
}
