/** The job queue as a protocol: any number of workers, crashed workers, stale
    workers, heartbeats, maintenance loops and replayers, interleaved at the
    grain of single Redis commands. Nothing here assumes that leases are honoured. */
module QueueProtocol {
  import opened JobStore

  /** What a worker is in the middle of. A worker that stops answering keeps its
      state for ever; a worker that comes back late continues from it. */
  datatype Worker =
    | Idle
    | Claimed(id: Id)   // the claim script returned, the job is not loaded yet
    | Missed(id: Id)    // the job had no entry; the lease is about to be dropped
    | Holding(job: Job) // running the handler on this snapshot

  datatype System = System(
    store: Store,
    workers: map<nat, Worker>,
    replayers: map<nat, Job>, // snapshots taken by replays in progress
    used: set<Id>,            // every id ever drawn
    clock: int)               // the server's clock
  {
    predicate Held(w: nat) { w in workers && workers[w].Holding? }
  }

  const START := System(EMPTY, map[], map[], {}, 0)

  datatype Event =
    | Enqueue(job: Job, key: string, now: int, clock: int, ttl: nat)
    | Claim(w: nat, expiry: int)
    | Load(w: nat)
    | Drop(w: nat)
    | Succeed(w: nat)
    | Fail(w: nat, now: int, delay: int)
    | Heartbeat(id: Id, score: int)
    | Move(src: Source, now: int, limit: nat)
    | ReplayLoad(r: nat, id: Id)
    | ReplayMove(r: nat, now: int)
    | Crash(w: nat)

  predicate Enabled(s: System, e: Event) {
    match e
    case Enqueue(job, _, _, clock, _) =>
      job.id !in s.used && job.priority < LEVELS && job.attempt == 0 && job.maxAttempts >= 1 && clock >= s.clock
    case Claim(w, _) => w in s.workers ==> s.workers[w].Idle?
    case Load(w) => w in s.workers && s.workers[w].Claimed?
    case Drop(w) => w in s.workers && s.workers[w].Missed?
    case Succeed(w) => s.Held(w)
    case Fail(w, _, _) => s.Held(w)
    case Heartbeat(_, _) => true
    case Move(_, _, _) => true
    case ReplayLoad(_, id) => id in s.store.jobs
    case ReplayMove(r, _) => r in s.replayers
    case Crash(_) => true
  }

  ghost predicate WellFormed(s: System) {
    && s.store.WellFormed()
    && (forall r :: r in s.replayers ==> s.replayers[r].priority < LEVELS)
  }

  function Step(s: System, e: Event): System
    requires WellFormed(s) && Enabled(s, e)
  {
    match e
    case Enqueue(job, key, now, clock, ttl) =>
      s.(store := EnqueueScript(s.store, key, job, now, clock, ttl), used := s.used + {job.id}, clock := clock)
    case Claim(w, expiry) =>
      var id := ClaimAnswer(s.store);
      s.(store := ClaimScript(s.store, expiry), workers := s.workers[w := if id.None? then Idle else Claimed(id.value)])
    case Load(w) =>
      var id := s.workers[w].id;
      s.(workers := s.workers[w := if id in s.store.jobs then Holding(s.store.jobs[id]) else Missed(id)])
    case Drop(w) =>
      s.(store := ForgetLease(s.store, s.workers[w].id), workers := s.workers[w := Idle])
    case Succeed(w) =>
      s.(store := AckScript(s.store, s.workers[w].job.id), workers := s.workers[w := Idle])
    case Fail(w, now, delay) =>
      s.(store := FinishFailed(s.store, s.workers[w].job, now, delay), workers := s.workers[w := Idle])
    case Heartbeat(id, score) => s.(store := HeartbeatCommand(s.store, id, score))
    case Move(src, now, limit) => s.(store := MoveScript(s.store, src, now, limit))
    case ReplayLoad(r, id) => s.(replayers := s.replayers[r := s.store.jobs[id]])
    case ReplayMove(r, now) =>
      s.(store := ReplayScript(s.store, Replayed(s.replayers[r], now)), replayers := s.replayers - {r})
    case Crash(w) => s.(workers := s.workers[w := Idle])
  }

  // ---- The invariant of every interleaving -----------------------------------

  /** A snapshot some process holds still tells the truth about the job's priority. */
  ghost predicate Truthful(s: System, job: Job) {
    && job.id in s.used
    && job.priority < LEVELS
    && (job.id in s.store.priorities ==> s.store.priorities[job.id] == job.priority)
  }

  /** Registered jobs are stored and sit somewhere. */
  ghost predicate NoneLost(s: Store) {
    forall id :: id in s.priorities ==> id in s.jobs && s.Placed(id)
  }

  /** A registered id waits in the list of its registered and stored priority. */
  ghost predicate PriorityFaithful(s: Store) {
    forall id :: id in s.priorities ==>
      && (id in s.jobs ==> s.jobs[id].priority == s.priorities[id])
      && (forall p :: 0 <= p < |s.ready| && id in s.ready[p] ==> p == s.priorities[id])
  }

  ghost predicate OnlyUsed(s: System) {
    && (forall id :: id in s.store.priorities || id in s.store.jobs || s.store.Placed(id) ==> id in s.used)
    && (forall w :: w in s.workers && s.workers[w].Claimed? ==> s.workers[w].id in s.used)
    && (forall w :: w in s.workers && s.workers[w].Missed? ==>
          s.workers[w].id in s.used && s.workers[w].id !in s.store.priorities)
  }

  ghost predicate SnapshotsTruthful(s: System) {
    && (forall id :: id in s.store.jobs ==> s.store.jobs[id].id == id && Truthful(s, s.store.jobs[id]))
    && (forall w :: s.Held(w) ==> Truthful(s, s.workers[w].job))
    && (forall r :: r in s.replayers ==> Truthful(s, s.replayers[r]))
  }

  ghost predicate Inv(s: System) {
    WellFormed(s) && NoneLost(s.store) && PriorityFaithful(s.store) && OnlyUsed(s) && SnapshotsTruthful(s)
  }

  lemma InvStart()
    ensures Inv(START)
  {
  }

  lemma {:induction false} MoveKeepsPlaces(s: Store, src: Source, ids: seq<Id>, id: Id)
    requires s.WellFormed()
    ensures var r := MoveAll(s, src, ids);
      && (id in s.priorities && s.Placed(id) ==> r.Placed(id))
      && (r.Placed(id) ==> s.Placed(id) || id in ids)
  {
    var r := MoveAll(s, src, ids);
    MoveAllFrame(s, src, ids);
    forall p | 0 <= p < LEVELS
      ensures r.ready[p] == s.ready[p] + OfPriority(s.priorities, ids, p)
      ensures id in OfPriority(s.priorities, ids, p) <==> id in ids && id in s.priorities && s.priorities[id] == p
    {
      MoveAllReady(s, src, ids, p);
      OfPriorityMembers(s.priorities, ids, p);
    }
    if id in s.priorities && s.Placed(id) {
      if id in ids {
        assert id in r.ready[s.priorities[id]];
      } else if s.InReady(id) {
        var p :| 0 <= p < |s.ready| && id in s.ready[p];
        assert id in r.ready[p];
      }
    }
  }

  lemma StepMove(s: System, e: Event)
    requires Inv(s) && Enabled(s, e) && e.Move?
    ensures Inv(Step(s, e))
  {
    var src := e.src;
    var ids := DueBatch(Members(s.store, src), e.now, e.limit);
    var t := Step(s, e).store;
    DueBatchMeaning(Members(s.store, src), e.now, e.limit);
    MoveAllFrame(s.store, src, ids);
    forall id
      ensures id in s.store.priorities && s.store.Placed(id) ==> t.Placed(id)
      ensures t.Placed(id) ==> s.store.Placed(id)
    {
      MoveKeepsPlaces(s.store, src, ids, id);
    }
    forall id, p | id in t.priorities && 0 <= p < |t.ready| && id in t.ready[p]
      ensures p == t.priorities[id]
    {
      MoveAllReady(s.store, src, ids, p);
      OfPriorityMembers(s.store.priorities, ids, p);
    }
  }

  lemma StepEnqueue(s: System, e: Event)
    requires Inv(s) && Enabled(s, e) && e.Enqueue?
    ensures Inv(Step(s, e))
  {
    var t := Step(s, e).store;
    if Creates(s.store, e.key, e.clock) {
      var id := e.job.id;
      assert id in s.store.priorities ==> id in s.used;
      forall x | x != id && s.store.Placed(x) ensures t.Placed(x) {
        if s.store.InReady(x) {
          var p :| 0 <= p < |s.store.ready| && x in s.store.ready[p];
          assert x in t.ready[p];
        }
      }
      assert t.Placed(id) by {
        if e.job.availableAt <= e.now { assert id in t.ready[e.job.priority]; }
      }
      forall x | t.Placed(x) ensures x == id || s.store.Placed(x) {
        if t.InReady(x) {
          var p :| 0 <= p < |t.ready| && x in t.ready[p];
          assert x == id || x in s.store.ready[p];
        }
      }
    }
  }

  lemma StepClaim(s: System, e: Event)
    requires Inv(s) && Enabled(s, e) && e.Claim?
    ensures Inv(Step(s, e))
  {
    var t := Step(s, e).store;
    var best := HighestReady(s.store.ready, |s.store.ready|);
    if best.Some? {
      var id := s.store.ready[best.value][0];
      assert s.store.InReady(id);
      forall x | s.store.Placed(x) ensures t.Placed(x) {
        if x != id && s.store.InReady(x) {
          var p :| 0 <= p < |s.store.ready| && x in s.store.ready[p];
          assert x in t.ready[p];
        }
      }
      forall x | t.Placed(x) ensures s.store.Placed(x) {
        if t.InReady(x) {
          var p :| 0 <= p < |t.ready| && x in t.ready[p];
          assert x in s.store.ready[p];
        }
      }
    }
  }

  lemma StepSucceed(s: System, e: Event)
    requires Inv(s) && Enabled(s, e) && e.Succeed?
    ensures Inv(Step(s, e))
  {
    var t := Step(s, e).store;
    assert forall x :: s.store.InReady(x) == t.InReady(x);
  }

  /** Putting a job back under its own id, off the leases and into another set. */
  ghost predicate PutBack(s: Store, t: Store, job: Job) {
    && t.priorities == s.priorities && t.ready == s.ready
    && t.jobs == s.jobs[job.id := job]
    && t.processing == s.processing - {job.id}
    && (|| (t.delayed.Keys == s.delayed.Keys + {job.id} && t.dlq == s.dlq)
        || (t.dlq.Keys == s.dlq.Keys + {job.id} && t.delayed == s.delayed))
  }

  lemma PutBackPlaces(s: Store, t: Store, job: Job)
    requires PutBack(s, t, job)
    ensures forall x :: t.Placed(x) <==> x == job.id || s.Placed(x)
  {
    forall x ensures t.Placed(x) <==> x == job.id || s.Placed(x) {
      assert s.InReady(x) == t.InReady(x);
      assert x in t.delayed <==> x in t.delayed.Keys;
      assert x in t.dlq <==> x in t.dlq.Keys;
      assert x in s.delayed <==> x in s.delayed.Keys;
      assert x in s.dlq <==> x in s.dlq.Keys;
    }
  }

  lemma PutBackKeepsInv(s: System, t: System, w: nat, job: Job)
    requires Inv(s) && s.Held(w) && job.id == s.workers[w].job.id && job.priority == s.workers[w].job.priority
    requires t == s.(store := t.store, workers := s.workers[w := Idle])
    requires t.store.priorities == s.store.priorities && t.store.ready == s.store.ready
    requires t.store.jobs == s.store.jobs[job.id := job]
    requires forall x :: t.store.Placed(x) <==> x == job.id || s.store.Placed(x)
    ensures Inv(t)
  {
  }

  lemma StepFail(s: System, e: Event)
    requires Inv(s) && Enabled(s, e) && e.Fail?
    ensures Inv(Step(s, e))
  {
    var failed := Failed(s.workers[e.w].job);
    var job := if failed.attempt >= failed.maxAttempts then failed else failed.(availableAt := e.now + e.delay);
    PutBackPlaces(s.store, Step(s, e).store, job);
    PutBackKeepsInv(s, Step(s, e), e.w, job);
  }

  lemma StepDrop(s: System, e: Event)
    requires Inv(s) && Enabled(s, e) && e.Drop?
    ensures Inv(Step(s, e))
  {
    var t := Step(s, e).store;
    assert forall x :: s.store.InReady(x) == t.InReady(x);
  }

  lemma StepReplay(s: System, e: Event)
    requires Inv(s) && Enabled(s, e) && e.ReplayMove?
    ensures Inv(Step(s, e))
  {
    var job := s.replayers[e.r];
    var t := Step(s, e).store;
    if job.id in s.store.dlq {
      assert s.store.Placed(job.id);
      forall x | s.store.Placed(x) ensures t.Placed(x) {
        if x == job.id {
          assert x in t.ready[job.priority];
        } else if s.store.InReady(x) {
          var p :| 0 <= p < |s.store.ready| && x in s.store.ready[p];
          assert x in t.ready[p];
        }
      }
      forall x | t.Placed(x) ensures s.store.Placed(x) {
        if t.InReady(x) {
          var p :| 0 <= p < |t.ready| && x in t.ready[p];
          assert x == job.id || x in s.store.ready[p];
        }
      }
    }
  }

  lemma StepQuiet(s: System, e: Event)
    requires Inv(s) && Enabled(s, e) && (e.Load? || e.Heartbeat? || e.ReplayLoad? || e.Crash?)
    ensures Inv(Step(s, e))
  {
    var t := Step(s, e).store;
    assert forall x :: s.store.InReady(x) == t.InReady(x);
  }

  lemma StepKeepsInv(s: System, e: Event)
    requires Inv(s) && Enabled(s, e)
    ensures Inv(Step(s, e))
  {
    match e
    case Enqueue(_, _, _, _, _) => StepEnqueue(s, e);
    case Claim(_, _) => StepClaim(s, e);
    case Move(_, _, _) => StepMove(s, e);
    case ReplayMove(_, _) => StepReplay(s, e);
    case Succeed(_) => StepSucceed(s, e);
    case Fail(_, _, _) => StepFail(s, e);
    case Drop(_) => StepDrop(s, e);
    case Load(_) => StepQuiet(s, e);
    case Heartbeat(_, _) => StepQuiet(s, e);
    case ReplayLoad(_, _) => StepQuiet(s, e);
    case Crash(_) => StepQuiet(s, e);
  }

  // ---- Runs -------------------------------------------------------------------

  /** The state after a run, or nothing when some event could not happen. */
  ghost function After(es: seq<Event>): Option<System> {
    if es == [] then Some(START) else Next(After(es[..|es| - 1]), es[|es| - 1])
  }

  ghost function Next(before: Option<System>, e: Event): Option<System> {
    if before.None? || !WellFormed(before.value) || !Enabled(before.value, e) then None
    else Some(Step(before.value, e))
  }

  lemma Extend(es: seq<Event>, s: System, e: Event)
    requires After(es) == Some(s) && WellFormed(s) && Enabled(s, e)
    ensures After(es + [e]) == Some(Step(s, e))
  {
    assert (es + [e])[..|es + [e]| - 1] == es;
  }

  lemma {:induction false} RunKeepsInv(es: seq<Event>)
    requires After(es).Some?
    ensures Inv(After(es).value)
  {
    if es == [] {
      InvStart();
    } else {
      RunKeepsInv(es[..|es| - 1]);
      StepKeepsInv(After(es[..|es| - 1]).value, es[|es| - 1]);
    }
  }

  /** The ids a run created a job for: enqueues that did not answer with an older id. */
  ghost function Created(es: seq<Event>): set<Id> {
    if es == [] then {} else
      var front, e := es[..|es| - 1], es[|es| - 1];
      var before := After(front);
      Created(front)
        + if e.Enqueue? && before.Some? && Creates(before.value.store, e.key, e.clock) then {e.job.id} else {}
  }

  /** The ids whose success some worker, stale or not, acknowledged. */
  ghost function Acknowledged(es: seq<Event>): set<Id> {
    if es == [] then {} else
      var front, e := es[..|es| - 1], es[|es| - 1];
      var before := After(front);
      Acknowledged(front) + if e.Succeed? && before.Some? && before.value.Held(e.w)
        then {before.value.workers[e.w].job.id} else {}
  }

  /** Only a creating enqueue registers an id, only an acknowledgement unregisters one. */
  lemma StepRegisters(s: System, e: Event)
    requires WellFormed(s) && Enabled(s, e)
    ensures Step(s, e).store.priorities.Keys ==
      if e.Enqueue? && Creates(s.store, e.key, e.clock) then s.store.priorities.Keys + {e.job.id}
      else if e.Succeed? then s.store.priorities.Keys - {s.workers[e.w].job.id}
      else s.store.priorities.Keys
    ensures Step(s, e).used == if e.Enqueue? then s.used + {e.job.id} else s.used
  {
    if e.Move? {
      MoveAllFrame(s.store, e.src, DueBatch(Members(s.store, e.src), e.now, e.limit));
    }
  }

  lemma {:induction false} RegisteredExactly(es: seq<Event>)
    requires After(es).Some?
    ensures After(es).value.store.priorities.Keys == Created(es) - Acknowledged(es)
    ensures Acknowledged(es) <= After(es).value.used
  {
    if es != [] {
      var front, e := es[..|es| - 1], es[|es| - 1];
      RegisteredExactly(front);
      RunKeepsInv(front);
      var s := After(front).value;
      StepRegisters(s, e);
      assert After(es).value == Step(s, e);
      if e.Succeed? { assert s.workers[e.w].job.id in s.used; }
    }
  }

  /** No job is ever lost: whatever the interleaving, a job that was created and
      never acknowledged is stored and sits in a list or a set. */
  lemma NoJobIsLost(es: seq<Event>, id: Id)
    requires After(es).Some?
    requires id in Created(es) && id !in Acknowledged(es)
    ensures var s := After(es).value.store; id in s.jobs && s.jobs[id].id == id && s.Placed(id)
  {
    RegisteredExactly(es);
    RunKeepsInv(es);
  }

  /** Priorities survive every interleaving: a registered id in a ready list waits in the
      list of the priority it was enqueued with, which is also the stored one. */
  lemma ReadyListsKeepPriorities(es: seq<Event>, p: nat, id: Id)
    requires After(es).Some? && p < LEVELS && id in After(es).value.store.priorities
        && id in After(es).value.store.ready[p]
    ensures var s := After(es).value.store; id in s.jobs && s.priorities[id] == p == s.jobs[id].priority
  {
    RunKeepsInv(es);
  }

  /** A claim never overtakes: no registered job of a higher priority is waiting
      in any ready list when a registered job is handed out. */
  lemma ClaimServesHighestPriority(es: seq<Event>, s: Store, claimed: Id, other: Id)
    requires After(es).Some? && After(es).value.store == s
    requires ClaimAnswer(s) == Some(claimed) && claimed in s.priorities
    requires other in s.priorities && s.InReady(other)
    ensures other in s.jobs && claimed in s.jobs && s.jobs[other].priority <= s.jobs[claimed].priority
  {
    RunKeepsInv(es);
    var best := HighestReady(s.ready, |s.ready|).value;
    assert claimed in s.ready[best];
    var p :| 0 <= p < |s.ready| && other in s.ready[p];
  }
}
