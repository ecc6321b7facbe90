/** The queue the application talks to: one object over the Redis scripts. Each
    method's contract is what it does when no other process runs in between.

    `ns` is a client clock in nanoseconds, as are request delays and retry delays;
    scores, leases and the times stored with a job are whole milliseconds. */
module JobQueue {
  import opened JobStore
  import opened RedisScripts
  import QueueProtocol
  import opened QueueFencing
  import opened QueueSchedules
  import opened RetryBackoff

  datatype Error = KindRequired | BadPriority | AlreadyRegistered | JobMissing(id: Id) | BadSchedule

  datatype Result<+T> = Ok(value: T) | Err(error: Error)

  datatype Request = Request(kind: string, payload: string, priority: int, maxAttempts: int, delay: int, key: string)

  datatype Schedule = Schedule(name: string, every: nat, request: Request)

  datatype Config = Config(namespace: string, lease: nat, retryBase: nat, retryMax: nat, ttl: nat, huge: int)

  /** The times one enqueue reads: as it makes the job, as it sends it, and the server's. */
  datatype Reading = Reading(made: nat, sent: nat, clock: int)

  /** Stored jobs carry their own id and a priority that has a list. */
  ghost predicate Sound(s: Store) {
    s.WellFormed() && forall id :: id in s.jobs ==> s.jobs[id].id == id && s.jobs[id].priority < LEVELS
  }

  predicate Acceptable(r: Request) {
    r.kind != "" && 0 <= r.priority < LEVELS
  }

  /** The job a request asks for. */
  function NewJob(r: Request, id: Id, ns: nat): Job
    requires Acceptable(r)
  {
    var attempts := if r.maxAttempts < 1 then 5 else r.maxAttempts;
    Job(id, r.kind, r.payload, r.priority, 0, attempts, (ns + r.delay) / NS_PER_MS, r.key)
  }

  function KeyOf(c: Config, r: Request): string {
    if r.key == "" then "" else RedisKey(c.namespace, r.kind, r.key)
  }

  function EnqueueRequest(s: Store, c: Config, r: Request, id: Id, at: Reading): Store
    requires s.WellFormed()
  {
    if !Acceptable(r) then s
    else EnqueueScript(s, KeyOf(c, r), NewJob(r, id, at.made), at.sent / NS_PER_MS, at.clock, c.ttl)
  }

  /** The request a maintenance pass makes for a schedule at a time in nanoseconds. */
  function Occurrence(s: Schedule, ns: nat): Request
    requires s.every > 0
  {
    s.request.(key := s.name + ":" + Decimal(ns / s.every))
  }

  ghost predicate ValidSchedules(schedules: seq<Schedule>) {
    forall i :: 0 <= i < |schedules| ==> schedules[i].every > 0
  }

  /** After the enqueues of the first `k` schedules. */
  ghost function EnqueueFirst(s: Store, c: Config, schedules: seq<Schedule>, ids: seq<Id>, ns: nat, at: seq<Reading>,
    k: nat): (r: Store)
    requires s.WellFormed() && |ids| == |at| == |schedules| && ValidSchedules(schedules) && k <= |schedules|
    ensures r.WellFormed()
  {
    if k == 0 then s else
      EnqueueRequest(EnqueueFirst(s, c, schedules, ids, ns, at, k - 1), c, Occurrence(schedules[k - 1], ns), ids[k - 1],
        at[k - 1])
  }

  ghost function EnqueueSchedules(s: Store, c: Config, schedules: seq<Schedule>, ids: seq<Id>, ns: nat,
    at: seq<Reading>): (r: Store)
    requires s.WellFormed() && |ids| == |at| == |schedules| && ValidSchedules(schedules)
    ensures r.WellFormed()
  {
    EnqueueFirst(s, c, schedules, ids, ns, at, |schedules|)
  }

  // ---- Which job a pass makes ---------------------------------------------------------

  /** A schedule's request carries the key of the window the pass began in, and is the
      schedule's otherwise. */
  lemma OccurrenceHasItsWindow(c: Config, s: Schedule, ns: nat)
    requires s.every > 0
    ensures KeyOf(c, Occurrence(s, ns)) == ScheduleKey(c.namespace, s.request.kind, s.name, ns / s.every)
    ensures Occurrence(s, ns).(key := s.request.key) == s.request
  {
    assert |Occurrence(s, ns).key| > 0;
  }

  /** Two passes use the same key for a schedule exactly when they began in the same window. */
  lemma PassesShareKeysExactly(c: Config, s: Schedule, v: nat, w: nat)
    requires s.every > 0
    ensures KeyOf(c, Occurrence(s, v)) == KeyOf(c, Occurrence(s, w)) <==> v / s.every == w / s.every
  {
    OccurrenceHasItsWindow(c, s, v);
    OccurrenceHasItsWindow(c, s, w);
    WindowsHaveTheirOwnKeys(c.namespace, s.request.kind, s.name, v / s.every, w / s.every);
  }

  /** The queue event a pass produces for a schedule. */
  function PassEvent(c: Config, s: Schedule, ns: nat, id: Id, at: Reading): QueueProtocol.Event
    requires s.every > 0 && Acceptable(s.request)
  {
    var r := Occurrence(s, ns);
    QueueProtocol.Event.Enqueue(NewJob(r, id, at.made), KeyOf(c, r), at.sent / NS_PER_MS, at.clock, c.ttl)
  }

  /** It is the scheduled call the theorems about windows are about, and has the effect of
      the request. */
  lemma PassMakesScheduledCalls(c: Config, s: Schedule, ns: nat, id: Id, at: Reading, served: nat, delay: nat)
    requires s.every > 0 && Acceptable(s.request) && at.clock == served / NS_PER_MS && ns <= served <= ns + delay
    ensures var e := PassEvent(c, s, ns, id, at);
      && ScheduledCall(e, c.namespace, s.request.kind, s.name, s.every, ns, served, delay)
      && forall sys :: QueueProtocol.WellFormed(sys) && QueueProtocol.Enabled(sys, e) ==>
           QueueProtocol.Step(sys, e).store == EnqueueRequest(sys.store, c, Occurrence(s, ns), id, at)
  {
    OccurrenceHasItsWindow(c, s, ns);
  }

  /** What one enqueue can change: the jobs by its own id, the keys by its own key. */
  lemma EnqueueFrame(s: Store, c: Config, r: Request, id: Id, at: Reading)
    requires s.WellFormed()
    ensures var t := EnqueueRequest(s, c, r, id, at);
      && (id in s.jobs || (id in t.jobs <==> Acceptable(r) && Creates(s, KeyOf(c, r), at.clock)))
      && (forall x :: x != id ==> (x in t.jobs <==> x in s.jobs) && (x in s.jobs ==> t.jobs[x] == s.jobs[x]))
      && (forall k, clock :: k != KeyOf(c, r) ==> (KeyAlive(t, k, clock) <==> KeyAlive(s, k, clock)))
  {
  }

  predicate KeysBeforeDiffer(c: Config, schedules: seq<Schedule>, ns: nat, i: nat)
    requires i < |schedules| && ValidSchedules(schedules)
  {
    forall j :: 0 <= j < i ==> KeyOf(c, Occurrence(schedules[j], ns)) != KeyOf(c, Occurrence(schedules[i], ns))
  }

  /** The id is still free, and the key as alive as it was. */
  ghost predicate Untouched(s: Store, t: Store, id: Id, key: string) {
    id !in t.jobs && forall clock :: KeyAlive(t, key, clock) <==> KeyAlive(s, key, clock)
  }

  lemma OtherEnqueuesLeave(s: Store, t: Store, c: Config, r: Request, other: Id, at: Reading, id: Id, key: string)
    requires t.WellFormed() && Untouched(s, t, id, key) && other != id && KeyOf(c, r) != key
    ensures Untouched(s, EnqueueRequest(t, c, r, other, at), id, key)
  {
    EnqueueFrame(t, c, r, other, at);
  }

  lemma {:induction false} BeforeItsTurn(s: Store, c: Config, schedules: seq<Schedule>, ids: seq<Id>, ns: nat,
    at: seq<Reading>, i: nat, k: nat)
    requires s.WellFormed() && |ids| == |at| == |schedules| && ValidSchedules(schedules) && k <= i < |schedules|
    requires NoDuplicates(ids) && ids[i] !in s.jobs && KeysBeforeDiffer(c, schedules, ns, i)
    ensures Untouched(s, EnqueueFirst(s, c, schedules, ids, ns, at, k), ids[i],
                      KeyOf(c, Occurrence(schedules[i], ns)))
  {
    if k > 0 {
      BeforeItsTurn(s, c, schedules, ids, ns, at, i, k - 1);
      OtherEnqueuesLeave(s, EnqueueFirst(s, c, schedules, ids, ns, at, k - 1), c,
        Occurrence(schedules[k - 1], ns), ids[k - 1], at[k - 1], ids[i], KeyOf(c, Occurrence(schedules[i], ns)));
    }
  }

  lemma {:induction false} AfterItsTurn(s: Store, c: Config, schedules: seq<Schedule>, ids: seq<Id>, ns: nat,
    at: seq<Reading>, i: nat, k: nat)
    requires s.WellFormed() && |ids| == |at| == |schedules| && ValidSchedules(schedules) && i < k <= |schedules|
    requires NoDuplicates(ids)
    ensures var t := EnqueueFirst(s, c, schedules, ids, ns, at, i + 1);
      var u := EnqueueFirst(s, c, schedules, ids, ns, at, k);
      (ids[i] in u.jobs <==> ids[i] in t.jobs) && (ids[i] in t.jobs ==> u.jobs[ids[i]] == t.jobs[ids[i]])
    decreases k
  {
    if k > i + 1 {
      AfterItsTurn(s, c, schedules, ids, ns, at, i, k - 1);
      EnqueueFrame(EnqueueFirst(s, c, schedules, ids, ns, at, k - 1), c,
        Occurrence(schedules[k - 1], ns), ids[k - 1], at[k - 1]);
    }
  }

  /** A pass creates the job of a schedule if and only if the key of that schedule and window
      is not alive, so in particular when it was never used; and it is the schedule's job. */
  lemma PassCreatesExactly(s: Store, c: Config, schedules: seq<Schedule>, ids: seq<Id>, ns: nat, at: seq<Reading>,
    i: nat)
    requires s.WellFormed() && |ids| == |at| == |schedules| && ValidSchedules(schedules) && i < |schedules|
    requires NoDuplicates(ids) && ids[i] !in s.jobs && KeysBeforeDiffer(c, schedules, ns, i)
    ensures var t, sch := EnqueueSchedules(s, c, schedules, ids, ns, at), schedules[i];
      var key := ScheduleKey(c.namespace, sch.request.kind, sch.name, ns / sch.every);
      && (ids[i] in t.jobs <==> Acceptable(sch.request) && !KeyAlive(s, key, at[i].clock))
      && (ids[i] in t.jobs ==> var job := t.jobs[ids[i]];
            && job.id == ids[i] && job.kind == sch.request.kind && job.payload == sch.request.payload
            && job.priority == sch.request.priority && job.attempt == 0
            && job.availableAt == (at[i].made + sch.request.delay) / NS_PER_MS)
  {
    var before := EnqueueFirst(s, c, schedules, ids, ns, at, i);
    BeforeItsTurn(s, c, schedules, ids, ns, at, i, i);
    EnqueueFrame(before, c, Occurrence(schedules[i], ns), ids[i], at[i]);
    OccurrenceHasItsWindow(c, schedules[i], ns);
    AfterItsTurn(s, c, schedules, ids, ns, at, i, |schedules|);
  }

  // ---- Replaying ------------------------------------------------------------------------

  ghost function ReplayOne(s: Store, id: Id, now: int): (r: Store)
    requires Sound(s) && id in s.jobs
    ensures Sound(r) && r.jobs.Keys == s.jobs.Keys
  {
    ReplayScript(s, Replayed(s.jobs[id], now))
  }

  /** The time read as each job is replayed. */
  type Times = nat -> int

  /** Replaying a list of dead jobs in order. */
  ghost function ReplayAll(s: Store, ids: seq<Id>, times: Times): (r: Store)
    requires Sound(s) && forall i :: 0 <= i < |ids| ==> ids[i] in s.jobs
    ensures Sound(r) && r.jobs.Keys == s.jobs.Keys
  {
    if ids == [] then s else
      var n := |ids| - 1;
      ReplayOne(ReplayAll(s, ids[..n], times), ids[n], times(n))
  }

  lemma ReplayOneMeaning(s: Store, id: Id, now: int)
    requires Sound(s) && id in s.jobs && id in s.dlq
    ensures var r := ReplayOne(s, id, now);
      && r.dlq.Keys == s.dlq.Keys - {id}
      && r.jobs == s.jobs[id := Replayed(s.jobs[id], now)]
      && r.ready == PushReady(s.ready, s.jobs[id].priority, id)
      && r.delayed == s.delayed && r.processing == s.processing && r.priorities == s.priorities && r.keys == s.keys
  {
  }

  /** Replayed jobs leave the dead-letter queue with a fresh attempt counter; all other
      jobs and sets stay as they were. */
  ghost predicate ReplayedOf(s: Store, r: Store, ids: seq<Id>, times: Times) {
    && r.jobs.Keys == s.jobs.Keys
    && (forall id :: id in r.dlq <==> id in s.dlq && id !in ids)
    && (forall i :: 0 <= i < |ids| && ids[i] in s.jobs ==>
          r.jobs[ids[i]] == s.jobs[ids[i]].(attempt := 0, availableAt := times(i)))
    && (forall id :: id in s.jobs && id !in ids ==> r.jobs[id] == s.jobs[id])
    && r.delayed == s.delayed && r.processing == s.processing && r.priorities == s.priorities && r.keys == s.keys
  }

  lemma OneMoreReplayed(s: Store, t: Store, ids: seq<Id>, last: Id, times: Times)
    requires Sound(t) && ReplayedOf(s, t, ids, times) && last !in ids && last in s.jobs && last in s.dlq
    ensures ReplayedOf(s, ReplayOne(t, last, times(|ids|)), ids + [last], times)
  {
    ReplayOneMeaning(t, last, times(|ids|));
    var r := ReplayOne(t, last, times(|ids|));
    assert forall id :: id in r.dlq <==> id in r.dlq.Keys;
    assert forall id :: id in ids + [last] <==> id in ids || id == last;
  }

  lemma {:induction false} ReplayAllFrame(s: Store, ids: seq<Id>, times: Times)
    requires Sound(s) && NoDuplicates(ids) && forall i :: 0 <= i < |ids| ==> ids[i] in s.jobs && ids[i] in s.dlq
    ensures ReplayedOf(s, ReplayAll(s, ids, times), ids, times)
  {
    if ids != [] {
      var front, last := ids[..|ids| - 1], ids[|ids| - 1];
      assert ids == front + [last];
      ReplayAllFrame(s, front, times);
      OneMoreReplayed(s, ReplayAll(s, front, times), front, last, times);
    }
  }

  lemma NextReplay(s: Store, ids: seq<Id>, times: Times, i: nat)
    requires Sound(s) && NoDuplicates(ids) && (forall k :: 0 <= k < |ids| ==> ids[k] in s.dlq)
    requires i < |ids| && forall k :: 0 <= k <= i ==> ids[k] in s.jobs
    ensures ids[i] in ReplayAll(s, ids[..i], times).dlq
    ensures ReplayAll(s, ids[..i], times).jobs[ids[i]] == s.jobs[ids[i]]
    ensures ReplayAll(s, ids[..i + 1], times) == ReplayOne(ReplayAll(s, ids[..i], times), ids[i], times(i))
  {
    assert ids[..i + 1][..i] == ids[..i];
    ReplayAllFrame(s, ids[..i], times);
    assert ids[i] in ids && ids[i] !in ids[..i];
  }

  ghost function StoredPriorities(s: Store): map<Id, nat> {
    map id | id in s.jobs :: s.jobs[id].priority
  }

  lemma LastIsStillDead(s: Store, ids: seq<Id>, times: Times)
    requires Sound(s) && NoDuplicates(ids) && ids != []
    requires forall i :: 0 <= i < |ids| ==> ids[i] in s.jobs && ids[i] in s.dlq
    ensures var last := ids[|ids| - 1]; var t := ReplayAll(s, ids[..|ids| - 1], times);
      last in t.jobs && last in t.dlq && t.jobs[last].priority == s.jobs[last].priority
  {
    var front, last := ids[..|ids| - 1], ids[|ids| - 1];
    ReplayAllFrame(s, front, times);
    assert last !in front;
  }

  /** They join the list of their own priority, in the order they were dead-lettered. */
  lemma {:induction false} ReplayAllReady(s: Store, ids: seq<Id>, times: Times, p: nat)
    requires Sound(s) && NoDuplicates(ids) && forall i :: 0 <= i < |ids| ==> ids[i] in s.jobs && ids[i] in s.dlq
    requires p < LEVELS
    ensures ReplayAll(s, ids, times).ready[p] == s.ready[p] + OfPriority(StoredPriorities(s), ids, p)
  {
    if ids != [] {
      var front, last := ids[..|ids| - 1], ids[|ids| - 1];
      ReplayAllReady(s, front, times, p);
      LastIsStillDead(s, ids, times);
      ReplayOneReady(ReplayAll(s, front, times), last, times(|front|), p);
      OfPriorityNext(StoredPriorities(s), s.ready[p], ids, p);
    }
  }

  lemma OfPriorityNext(priorities: map<Id, nat>, list: seq<Id>, ids: seq<Id>, p: nat)
    requires ids != []
    ensures var last := ids[|ids| - 1]; var more := if last in priorities && priorities[last] == p then [last] else [];
      list + OfPriority(priorities, ids, p) == list + OfPriority(priorities, ids[..|ids| - 1], p) + more
  {
  }

  lemma ReplayOneReady(t: Store, id: Id, now: int, p: nat)
    requires Sound(t) && id in t.jobs && id in t.dlq && p < LEVELS
    ensures ReplayOne(t, id, now).ready[p] == t.ready[p] + if t.jobs[id].priority == p then [id] else []
  {
    ReplayOneMeaning(t, id, now);
  }

  class Queue {
    const config: Config
    const redis: Redis
    var handlers: set<string>
    var schedules: seq<Schedule>

    constructor (config: Config, redis: Redis)
      ensures this.config == config && this.redis == redis && handlers == {} && schedules == []
    {
      this.config, this.redis, handlers, schedules := config, redis, {}, [];
    }

    /** `hasHandler` says that the handler passed is not nil. */
    method Register(kind: string, hasHandler: bool) returns (r: Result<()>)
      modifies this
      ensures r == if kind == "" || !hasHandler then Err(KindRequired)
          else if kind in old(handlers) then Err(AlreadyRegistered) else Ok(())
      ensures handlers == if r.Ok? then old(handlers) + {kind} else old(handlers)
      ensures schedules == old(schedules)
    {
      if kind == "" || !hasHandler { return Err(KindRequired); }
      if kind in handlers { return Err(AlreadyRegistered); }
      handlers := handlers + {kind};
      return Ok(());
    }

    method AddSchedule(name: string, every: int, request: Request) returns (r: Result<()>)
      requires ValidSchedules(schedules)
      modifies this
      ensures r == if name == "" || every <= 0 || request.kind == "" then Err(BadSchedule) else Ok(())
      ensures ValidSchedules(schedules) && handlers == old(handlers)
      ensures r.Ok? ==> every > 0 && schedules == old(schedules) + [Schedule(name, every, request)]
      ensures r.Err? ==> schedules == old(schedules)
    {
      if name == "" || every <= 0 || request.kind == "" { return Err(BadSchedule); }
      schedules := schedules + [Schedule(name, every, request)];
      return Ok(());
    }

    /** `id` is the id drawn for this call. A duplicate is answered with the
        stored job, or with its bare id once it is gone. */
    method Enqueue(request: Request, id: Id, at: Reading) returns (r: Result<Job>)
      requires Sound(redis.View())
      modifies redis
      ensures redis.View() == EnqueueRequest(old(redis.View()), config, request, id, at) && Sound(redis.View())
      ensures r == (
        if request.kind == "" then Err(KindRequired)
        else if !(0 <= request.priority < LEVELS) then Err(BadPriority)
        else
          var job := NewJob(request, id, at.made);
          var answer := EnqueueAnswer(old(redis.View()), KeyOf(config, request), job, at.clock);
          Ok(if answer == id then job
             else if answer in redis.jobs then redis.jobs[answer]
             else Job(answer, request.kind, "", 0, 0, 0, 0, request.key)))
      ensures r.Ok? && Creates(old(redis.View()), KeyOf(config, request), at.clock) && request.key != "" ==>
        var key := config.namespace + ":jobs:idempotency:" + request.kind + ":" + request.key;
        redis.keys == old(redis.keys)[key := KeyEntry(id, at.clock + config.ttl)]
      ensures r.Ok? && (request.key == "" || !Creates(old(redis.View()), KeyOf(config, request), at.clock)) ==>
        redis.keys == old(redis.keys)
      ensures r.Ok? && Creates(old(redis.View()), KeyOf(config, request), at.clock) ==>
        var job := r.value; var due := (at.made + request.delay) / NS_PER_MS;
        && job == Job(id, request.kind, request.payload, request.priority, 0,
                      if request.maxAttempts >= 1 then request.maxAttempts else 5, due, request.key)
        && redis.jobs == old(redis.jobs)[id := job]
        && (due > at.sent / NS_PER_MS ==> redis.ready == old(redis.ready)
                                          && redis.delayed == old(redis.delayed)[id := due])
        && (due <= at.sent / NS_PER_MS ==>
              redis.delayed == old(redis.delayed) && redis.ready[job.priority] == old(redis.ready)[job.priority] + [id])
    {
      if request.kind == "" { return Err(KindRequired); }
      if request.priority < 0 || request.priority >= LEVELS { return Err(BadPriority); }
      var attempts := if request.maxAttempts < 1 then 5 else request.maxAttempts;
      var due := (at.made + request.delay) / NS_PER_MS;
      var job := Job(id, request.kind, request.payload, request.priority, 0, attempts, due, request.key);
      var key := "";
      if request.key != "" {
        key := RedisKey(config.namespace, request.kind, request.key);
      }
      var answer := redis.Enqueue(key, job, at.sent / NS_PER_MS, at.clock, config.ttl);
      if answer != id {
        if answer in redis.jobs {
          return Ok(redis.jobs[answer]);
        }
        return Ok(Job(answer, request.kind, "", 0, 0, 0, 0, request.key));
      }
      return Ok(job);
    }

    /** Claim and load: hands out the stored job, or drops the lease of an id whose job is gone. */
    method Claim(now: int) returns (r: Option<Job>)
      requires Sound(redis.View())
      modifies redis
      ensures var before := old(redis.View());
        match ClaimAnswer(before)
        case None => r == None && redis.View() == before
        case Some(id) =>
          if id in before.jobs then r == Some(before.jobs[id])
            && redis.View() == ClaimScript(before, now + config.lease)
          else r == None && redis.View() == ForgetLease(ClaimScript(before, now + config.lease), id)
      ensures r.Some? ==> redis.processing == old(redis.processing)[r.value.id := now + config.lease]
      ensures r.None? && ClaimAnswer(old(redis.View())).Some? ==>
        redis.processing == old(redis.processing) - {ClaimAnswer(old(redis.View())).value}
    {
      var id := redis.Claim(now + config.lease);
      if id == None { return None; }
      if id.value !in redis.jobs {
        redis.Forget(id.value);
        return None;
      }
      return Some(redis.jobs[id.value]);
    }

    /** Runs a claimed job to its end; `succeeded` is what its handler returned. A kind
        without a handler fails like any other job. */
    method Handle(job: Job, succeeded: bool, ns: nat)
      modifies redis
      ensures var now := ns / NS_PER_MS;
        var due := (ns + Backoff(config.retryBase, config.retryMax, job.attempt + 1, config.huge)) / NS_PER_MS;
        redis.View() ==
          if succeeded && job.kind in handlers then AckScript(old(redis.View()), job.id)
          else FinishFailed(old(redis.View()), job, now, due - now)
      ensures succeeded && job.kind in handlers ==>
        && redis.jobs == old(redis.jobs) - {job.id} && redis.priorities == old(redis.priorities) - {job.id}
        && redis.delayed == old(redis.delayed) && redis.dlq == old(redis.dlq)
      ensures !(succeeded && job.kind in handlers) && job.attempt + 1 < job.maxAttempts ==>
        var due := (ns + Backoff(config.retryBase, config.retryMax, job.attempt + 1, config.huge)) / NS_PER_MS;
        && redis.delayed == old(redis.delayed)[job.id := due] && redis.dlq == old(redis.dlq)
        && redis.jobs == old(redis.jobs)[job.id := job.(attempt := job.attempt + 1, availableAt := due)]
      ensures !(succeeded && job.kind in handlers) && job.attempt + 1 >= job.maxAttempts ==>
        && redis.dlq == old(redis.dlq)[job.id := ns / NS_PER_MS] && redis.delayed == old(redis.delayed)
        && redis.jobs == old(redis.jobs)[job.id := job.(attempt := job.attempt + 1)]
      ensures redis.ready == old(redis.ready) && redis.processing == old(redis.processing) - {job.id}
    {
      if job.kind in handlers && succeeded {
        redis.Ack(job.id);
        return;
      }
      var failed := job.(attempt := job.attempt + 1);
      if failed.attempt >= failed.maxAttempts {
        redis.Dead(failed, ns / NS_PER_MS);
        return;
      }
      var delay := Wrap64(config.retryBase * Factor(failed.attempt - 1, config.huge));
      if delay > config.retryMax {
        delay := config.retryMax;
      }
      failed := failed.(availableAt := (ns + delay) / NS_PER_MS);
      redis.Retry(failed, failed.availableAt);
    }

    /** One maintenance pass: promote, reclaim, then enqueue what is due of each schedule. The
        windows follow the time the pass began; each enqueue reads its own times. */
    method Maintain(ns: nat, ids: seq<Id>, at: seq<Reading>)
      requires Sound(redis.View()) && |ids| == |at| == |schedules| && ValidSchedules(schedules)
      modifies redis
      ensures Sound(redis.View())
      ensures var ms := ns / NS_PER_MS;
        var moved := MoveScript(MoveScript(old(redis.View()), Delayed, ms, 250), Processing, ms, 250);
        redis.View() == EnqueueSchedules(moved, config, schedules, ids, ns, at)
    {
      var ms := ns / NS_PER_MS;
      ghost var start := redis.View();
      MoveAllFrame(start, Delayed, DueBatch(start.delayed, ms, 250));
      var promoted := redis.MoveDue(Delayed, ms, 250);
      ghost var mid := redis.View();
      MoveAllFrame(mid, Processing, DueBatch(mid.processing, ms, 250));
      var reclaimed := redis.MoveDue(Processing, ms, 250);
      EnqueueDue(ns, ids, at);
    }

    method EnqueueDue(ns: nat, ids: seq<Id>, at: seq<Reading>)
      requires Sound(redis.View()) && |ids| == |at| == |schedules| && ValidSchedules(schedules)
      modifies redis
      ensures Sound(redis.View())
      ensures redis.View() == EnqueueSchedules(old(redis.View()), config, schedules, ids, ns, at)
    {
      ghost var start := redis.View();
      var i := 0;
      while i < |schedules|
        invariant 0 <= i <= |schedules|
        invariant Sound(redis.View())
        invariant redis.View() == EnqueueFirst(start, config, schedules, ids, ns, at, i)
      {
        var answer := Enqueue(Occurrence(schedules[i], ns), ids[i], at[i]);
        i := i + 1;
      }
    }

    /** Replays the dead jobs that died first, up to the limit, and stops at the first
        dead id that has no stored job. */
    method ReplayDLQ(limit: int, times: Times) returns (replayed: nat, r: Result<()>)
      requires Sound(redis.View())
      modifies redis
      ensures Sound(redis.View())
      ensures var before := old(redis.View());
        var ids := Take(Ranked(before.dlq), if limit < 1 then 100 else limit);
        && replayed <= |ids| && (forall i :: 0 <= i < replayed ==> ids[i] in before.jobs)
        && redis.View() == ReplayAll(before, ids[..replayed], times)
        && (r.Ok? ==> replayed == |ids|)
        && (r.Err? ==> replayed < |ids| && ids[replayed] !in before.jobs && r.error == JobMissing(ids[replayed]))
    {
      var ids := Take(Ranked(redis.dlq), if limit < 1 then 100 else limit);
      RankedIsRanked(redis.dlq);
      replayed, r := ReplayIds(ids, times);
    }

    method ReplayIds(ids: seq<Id>, times: Times) returns (replayed: nat, r: Result<()>)
      requires Sound(redis.View()) && NoDuplicates(ids) && forall i :: 0 <= i < |ids| ==> ids[i] in redis.dlq
      modifies redis
      ensures replayed <= |ids| && forall i :: 0 <= i < replayed ==> ids[i] in old(redis.jobs)
      ensures Sound(redis.View()) && redis.View() == ReplayAll(old(redis.View()), ids[..replayed], times)
      ensures r.Ok? ==> replayed == |ids|
      ensures r.Err? ==> replayed < |ids| && ids[replayed] !in old(redis.jobs) && r.error == JobMissing(ids[replayed])
    {
      replayed := 0;
      ghost var before := redis.View();
      while replayed < |ids|
        invariant replayed <= |ids|
        invariant forall k :: 0 <= k < replayed ==> ids[k] in before.jobs
        invariant redis.View() == ReplayAll(before, ids[..replayed], times)
      {
        var id := ids[replayed];
        if id !in redis.jobs {
          return replayed, Err(JobMissing(id));
        }
        var job := redis.jobs[id].(attempt := 0, availableAt := times(replayed));
        NextReplay(before, ids, times, replayed);
        var moved := redis.Replay(job);
        replayed := replayed + moved;
      }
      assert ids[..replayed] == ids;
      return replayed, Ok(());
    }

    /** How many jobs are waiting (ready or delayed) and how many are dead. */
    method Depth() returns (waiting: nat, dead: nat)
      requires redis.View().WellFormed()
      ensures waiting == ReadyTotal(redis.ready) + |redis.delayed| && dead == |redis.dlq|
      ensures ExactlyOnce(redis.View()) ==> waiting + |redis.processing| + dead == |redis.jobs|
    {
      waiting := 0;
      var p := 0;
      while p < LEVELS
        invariant 0 <= p <= LEVELS
        invariant waiting == ReadyTotal(redis.ready[..p])
      {
        waiting := waiting + |redis.ready[p]|;
        assert redis.ready[..p + 1][..p] == redis.ready[..p];
        p := p + 1;
      }
      assert redis.ready[..p] == redis.ready;
      waiting := waiting + |redis.delayed|;
      dead := |redis.dlq|;
      if ExactlyOnce(redis.View()) { CountsAddUp(redis.View()); }
    }
  }
}
