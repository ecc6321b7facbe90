/** The Lua scripts, run in place on Redis's keys. Each method is one script (or one
    command) and is proved equal to the function the protocol is stated with. */
module RedisScripts {
  import opened JobStore

  /** The ready lists in the order the scripts receive their keys: highest priority first. */
  method ReadyKeys() returns (keys: seq<nat>)
    ensures |keys| == LEVELS && forall i :: 0 <= i < LEVELS ==> keys[i] == LEVELS - 1 - i
  {
    keys := [];
    var p := LEVELS;
    while p > 0
      invariant 0 <= p <= LEVELS && |keys| == LEVELS - p
      invariant forall i :: 0 <= i < |keys| ==> keys[i] == LEVELS - 1 - i
    {
      p := p - 1;
      keys := keys + [p];
    }
  }

  class Redis {
    var jobs: map<Id, Job>
    var priorities: map<Id, nat>
    var ready: seq<seq<Id>>
    var delayed: Scores
    var processing: Scores
    var dlq: Scores
    var keys: map<string, KeyEntry>

    ghost function View(): Store
      reads this
    {
      Store(jobs, priorities, ready, delayed, processing, dlq, keys)
    }

    constructor ()
      ensures View() == EMPTY
    {
      jobs, priorities, delayed, processing, dlq, keys := map[], map[], map[], map[], map[], map[];
      ready := [[], [], [], [], [], [], [], [], [], []];
    }

    method Enqueue(key: string, job: Job, now: int, clock: int, ttl: nat) returns (answer: Id)
      requires View().WellFormed() && job.priority < LEVELS
      modifies this
      ensures View() == EnqueueScript(old(View()), key, job, now, clock, ttl)
      ensures answer == EnqueueAnswer(old(View()), key, job, clock)
      ensures !Creates(old(View()), key, clock) ==> View() == old(View())
      ensures Creates(old(View()), key, clock) ==>
        && answer == job.id && jobs == old(jobs)[job.id := job] && processing == old(processing) && dlq == old(dlq)
        && (job.availableAt > now ==> ready == old(ready) && delayed == old(delayed)[job.id := job.availableAt])
        && (job.availableAt <= now ==>
              && delayed == old(delayed) && |ready| == LEVELS
              && forall p :: 0 <= p < LEVELS ==>
                   ready[p] == if p == job.priority then old(ready)[p] + [job.id] else old(ready)[p])
    {
      if key != "" {
        if key in keys && clock <= keys[key].expiresAt {
          return keys[key].id;
        }
        keys := keys[key := KeyEntry(job.id, clock + ttl)];
      }
      jobs := jobs[job.id := job];
      priorities := priorities[job.id := job.priority];
      if job.availableAt > now {
        delayed := delayed[job.id := job.availableAt];
      } else {
        ready := ready[job.priority := ready[job.priority] + [job.id]];
      }
      return job.id;
    }

    method Claim(expiry: int) returns (answer: Option<Id>)
      requires View().WellFormed()
      modifies this
      ensures View() == ClaimScript(old(View()), expiry)
      ensures answer == ClaimAnswer(old(View()))
    {
      var args := ReadyKeys();
      var i := 0;
      while i < |args|
        invariant 0 <= i <= LEVELS
        invariant View() == old(View())
        invariant HighestReady(ready, LEVELS) == HighestReady(ready, LEVELS - i)
      {
        var p := args[i];
        if ready[p] != [] {
          var id := ready[p][0];
          ready := ready[p := ready[p][1..]];
          processing := processing[id := expiry];
          return Some(id);
        }
        i := i + 1;
      }
      return None;
    }

    /** The body shared by promotion and reclaiming: the list is found at position
        10 - priority of the arguments, counting from 1. */
    method MoveDue(src: Source, now: int, limit: nat) returns (moved: nat)
      requires View().WellFormed()
      modifies this
      ensures View() == MoveScript(old(View()), src, now, limit)
      ensures moved == |DueBatch(Members(old(View()), src), now, limit)|
    {
      var args := ReadyKeys();
      var ids := DueBatch(match src case Delayed => delayed case Processing => processing, now, limit);
      var i := 0;
      while i < |ids|
        invariant 0 <= i <= |ids|
        invariant View() == MoveAll(old(View()), src, ids[..i])
        invariant View().WellFormed()
      {
        var id := ids[i];
        assert ids[..i + 1][..i] == ids[..i];
        if id in priorities {
          var list := args[LEVELS - priorities[id] - 1];
          ready := ready[list := ready[list] + [id]];
        }
        match src {
          case Delayed => delayed := delayed - {id};
          case Processing => processing := processing - {id};
        }
        i := i + 1;
      }
      assert ids[..|ids|] == ids;
      moved := |ids|;
    }

    method Ack(id: Id)
      modifies this
      ensures View() == AckScript(old(View()), id)
    {
      processing := processing - {id};
      jobs := jobs - {id};
      priorities := priorities - {id};
    }

    method Retry(job: Job, score: int)
      modifies this
      ensures View() == RetryScript(old(View()), job, score)
    {
      processing := processing - {job.id};
      jobs := jobs[job.id := job];
      delayed := delayed[job.id := score];
    }

    method Dead(job: Job, score: int)
      modifies this
      ensures View() == DeadScript(old(View()), job, score)
    {
      processing := processing - {job.id};
      jobs := jobs[job.id := job];
      dlq := dlq[job.id := score];
    }

    method Replay(job: Job) returns (moved: nat)
      requires View().WellFormed() && job.priority < LEVELS
      modifies this
      ensures View() == ReplayScript(old(View()), job)
      ensures moved == if job.id in old(dlq) then 1 else 0
    {
      if job.id !in dlq { return 0; }
      dlq := dlq - {job.id};
      jobs := jobs[job.id := job];
      ready := ready[job.priority := ready[job.priority] + [job.id]];
      return 1;
    }

    method Heartbeat(id: Id, score: int)
      modifies this
      ensures View() == HeartbeatCommand(old(View()), id, score)
    {
      if id in processing {
        processing := processing[id := score];
      }
    }

    method Forget(id: Id)
      modifies this
      ensures View() == ForgetLease(old(View()), id)
    {
      processing := processing - {id};
    }
  }
}
