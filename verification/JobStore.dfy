/** The Redis data the job queue lives on, and the effect of each of its Lua
    scripts as a function on that data.

    Sorted sets are maps from member to score; the ten ready lists are one
    sequence of lists indexed by priority. A job id is a 128-bit value printed
    as fixed-width hexadecimal, so its byte order is the numeric order. */
module JobStore {

  type Id = nat

  const LEVELS: nat := 10

  datatype Option<+T> = None | Some(value: T)

  datatype Job = Job(
    id: Id, kind: string, payload: string, priority: nat,
    attempt: nat, maxAttempts: nat, availableAt: int, key: string)

  /** An idempotency key: the id it answers with and the last millisecond it is alive. */
  datatype KeyEntry = KeyEntry(id: Id, expiresAt: int)

  type Scores = map<Id, int>

  datatype Store = Store(
    jobs: map<Id, Job>,
    priorities: map<Id, nat>,
    ready: seq<seq<Id>>,
    delayed: Scores,
    processing: Scores,
    dlq: Scores,
    keys: map<string, KeyEntry>)
  {
    /** Ten lists, and every registered priority names one of them. */
    predicate WellFormed() {
      |ready| == LEVELS && forall id :: id in priorities ==> priorities[id] < LEVELS
    }

    predicate InReady(id: Id) {
      exists p :: 0 <= p < |ready| && id in ready[p]
    }

    /** The id sits in at least one of the places a job can wait or run in. */
    predicate Placed(id: Id) {
      InReady(id) || id in delayed || id in processing || id in dlq
    }
  }

  const EMPTY := Store(map[], map[], [[], [], [], [], [], [], [], [], [], []], map[], map[], map[], map[])

  // ---- Sorted sets: members by score, ties by member ------------------------

  predicate Before(z: Scores, a: Id, b: Id) {
    a in z && b in z && (z[a] < z[b] || (z[a] == z[b] && a <= b))
  }

  predicate IsLeast(z: Scores, id: Id) {
    id in z && forall x :: x in z ==> Before(z, id, x)
  }

  lemma LeastExists(z: Scores)
    requires z != map[]
    ensures exists id :: IsLeast(z, id)
  {
    var x :| x in z;
    var rest := z - {x};
    assert rest.Keys == z.Keys - {x};
    assert forall y :: y in z ==> y == x || y in rest;
    if rest == map[] {
      assert IsLeast(z, x);
    } else {
      LeastExists(rest);
      var m :| IsLeast(rest, m);
      if Before(z, x, m) { assert IsLeast(z, x); } else { assert IsLeast(z, m); }
    }
  }

  function Least(z: Scores): (id: Id)
    requires z != map[]
    ensures IsLeast(z, id)
  {
    LeastExists(z);
    var id :| IsLeast(z, id);
    id
  }

  /** ZRANGE 0 -1: every member, lowest score first. */
  function Ranked(z: Scores): seq<Id>
    decreases |z|
  {
    if z == map[] then [] else
      var m := Least(z);
      assert |z - {m}| < |z| by { assert (z - {m}).Keys == z.Keys - {m}; }
      [m] + Ranked(z - {m})
  }

  function Due(z: Scores, now: int): Scores {
    map id | id in z && z[id] <= now :: z[id]
  }

  function Take(s: seq<Id>, limit: nat): seq<Id> {
    if |s| <= limit then s else s[..limit]
  }

  /** ZRANGEBYSCORE -inf now LIMIT 0 limit */
  function DueBatch(z: Scores, now: int, limit: nat): seq<Id> {
    Take(Ranked(Due(z, now)), limit)
  }

  ghost predicate NoDuplicates(s: seq<Id>) {
    forall i, j :: 0 <= i < j < |s| ==> s[i] != s[j]
  }

  ghost predicate InOrder(z: Scores, s: seq<Id>) {
    forall i, j :: 0 <= i < j < |s| ==> Before(z, s[i], s[j])
  }

  /** The sequence holds exactly the members, each once, in order. */
  ghost predicate RanksExactly(z: Scores, s: seq<Id>) {
    (forall id :: id in s <==> id in z) && NoDuplicates(s) && InOrder(z, s) && |s| == |z|
  }

  lemma LeastComesFirst(z: Scores, m: Id, r: seq<Id>)
    requires IsLeast(z, m) && RanksExactly(z - {m}, r)
    ensures RanksExactly(z, [m] + r)
  {
    var rest, all := z - {m}, [m] + r;
    assert rest.Keys == z.Keys - {m};
    assert forall id :: id in all <==> id == m || id in r;
    forall i, j | 0 <= i < j < |all| ensures all[i] != all[j] && Before(z, all[i], all[j]) {
      assert all[j] == r[j - 1] && r[j - 1] in rest;
      if i > 0 { assert Before(rest, r[i - 1], r[j - 1]); }
    }
  }

  lemma {:induction false} RankedIsRanked(z: Scores)
    ensures RanksExactly(z, Ranked(z))
    decreases |z|
  {
    if z != map[] {
      var m := Least(z);
      assert (z - {m}).Keys == z.Keys - {m};
      RankedIsRanked(z - {m});
      LeastComesFirst(z, m, Ranked(z - {m}));
    }
  }

  lemma FirstOnesRank(due: Scores, r: seq<Id>, limit: nat)
    requires RanksExactly(due, r)
    ensures var b := Take(r, limit);
      && |b| <= limit && NoDuplicates(b) && InOrder(due, b) && (forall id :: id in b ==> id in due)
      && (forall x, i :: x in due && x !in b && 0 <= i < |b| ==> Before(due, b[i], x))
      && (forall x :: x in due && x !in b ==> |b| == limit)
  {
    var b := Take(r, limit);
    assert forall i :: 0 <= i < |b| ==> b[i] == r[i];
    forall x | x in due && x !in b ensures |b| == limit && forall i :: 0 <= i < |b| ==> Before(due, b[i], x) {
      var j :| 0 <= j < |r| && r[j] == x;
    }
  }

  /** A batch is exactly the due members that come first: distinct, due, in
      due-time order, never more than the limit, and nothing left behind while
      there was room comes before anything taken. */
  lemma DueBatchMeaning(z: Scores, now: int, limit: nat)
    ensures var b := DueBatch(z, now, limit);
      && |b| <= limit && NoDuplicates(b) && InOrder(z, b)
      && (forall id :: id in b ==> id in z && z[id] <= now)
      && (forall x, i :: x in z && z[x] <= now && x !in b && 0 <= i < |b| ==> Before(z, b[i], x))
      && (forall x :: x in z && z[x] <= now && x !in b ==> |b| == limit)
  {
    var due := Due(z, now);
    RankedIsRanked(due);
    FirstOnesRank(due, Ranked(due), limit);
    assert forall x :: x in due <==> x in z && z[x] <= now;
    assert forall a, b :: Before(due, a, b) ==> Before(z, a, b);
  }

  // ---- The scripts ----------------------------------------------------------

  function PushReady(ready: seq<seq<Id>>, p: nat, id: Id): seq<seq<Id>>
    requires p < |ready|
  {
    ready[p := ready[p] + [id]]
  }

  predicate KeyAlive(s: Store, key: string, clock: int) {
    key in s.keys && clock <= s.keys[key].expiresAt
  }

  /** Does this enqueue create the job, or answer with the id of an earlier one? */
  predicate Creates(s: Store, key: string, clock: int) {
    key == "" || !KeyAlive(s, key, clock)
  }

  /** `now` is the caller's clock, `clock` the server's, both in milliseconds. */
  function EnqueueScript(s: Store, key: string, job: Job, now: int, clock: int, ttl: nat): Store
    requires s.WellFormed() && job.priority < LEVELS
  {
    if !Creates(s, key, clock) then s else
      var later := job.availableAt > now;
      s.(keys := if key == "" then s.keys else s.keys[key := KeyEntry(job.id, clock + ttl)],
         jobs := s.jobs[job.id := job],
         priorities := s.priorities[job.id := job.priority],
         delayed := if later then s.delayed[job.id := job.availableAt] else s.delayed,
         ready := if later then s.ready else PushReady(s.ready, job.priority, job.id))
  }

  function EnqueueAnswer(s: Store, key: string, job: Job, clock: int): Id {
    if Creates(s, key, clock) then job.id else s.keys[key].id
  }

  /** The highest of the levels below `n` that has a job waiting. */
  function HighestReady(ready: seq<seq<Id>>, n: nat): (r: Option<nat>)
    requires n <= |ready|
    ensures r.Some? ==> r.value < n && ready[r.value] != [] && forall q :: r.value < q < n ==> ready[q] == []
    ensures r.None? ==> forall q :: 0 <= q < n ==> ready[q] == []
  {
    if n == 0 then None
    else if ready[n - 1] != [] then Some(n - 1)
    else HighestReady(ready, n - 1)
  }

  function ClaimAnswer(s: Store): Option<Id> {
    var p := HighestReady(s.ready, |s.ready|);
    if p.None? then None else Some(s.ready[p.value][0])
  }

  function ClaimScript(s: Store, expiry: int): Store {
    var p := HighestReady(s.ready, |s.ready|);
    if p.None? then s else
      var id := s.ready[p.value][0];
      s.(ready := s.ready[p.value := s.ready[p.value][1..]], processing := s.processing[id := expiry])
  }

  /** Promotion drains the delayed set, reclaiming drains the leases: one script, two keys. */
  datatype Source = Delayed | Processing

  function Members(s: Store, src: Source): Scores {
    match src case Delayed => s.delayed case Processing => s.processing
  }

  function Without(s: Store, src: Source, id: Id): Store {
    match src
    case Delayed => s.(delayed := s.delayed - {id})
    case Processing => s.(processing := s.processing - {id})
  }

  function MoveOne(s: Store, src: Source, id: Id): (r: Store)
    requires s.WellFormed()
    ensures r.WellFormed()
  {
    Without(if id in s.priorities then s.(ready := PushReady(s.ready, s.priorities[id], id)) else s, src, id)
  }

  function MoveAll(s: Store, src: Source, ids: seq<Id>): (r: Store)
    requires s.WellFormed()
    ensures r.WellFormed()
  {
    if ids == [] then s else MoveOne(MoveAll(s, src, ids[..|ids| - 1]), src, ids[|ids| - 1])
  }

  function MoveScript(s: Store, src: Source, now: int, limit: nat): (r: Store)
    requires s.WellFormed()
    ensures r.WellFormed()
  {
    MoveAll(s, src, DueBatch(Members(s, src), now, limit))
  }

  function AckScript(s: Store, id: Id): Store {
    s.(processing := s.processing - {id}, jobs := s.jobs - {id}, priorities := s.priorities - {id})
  }

  function RetryScript(s: Store, job: Job, score: int): Store {
    s.(processing := s.processing - {job.id}, jobs := s.jobs[job.id := job], delayed := s.delayed[job.id := score])
  }

  function DeadScript(s: Store, job: Job, score: int): Store {
    s.(processing := s.processing - {job.id}, jobs := s.jobs[job.id := job], dlq := s.dlq[job.id := score])
  }

  function ReplayScript(s: Store, job: Job): Store
    requires s.WellFormed() && job.priority < LEVELS
  {
    if job.id !in s.dlq then s else
      s.(dlq := s.dlq - {job.id}, jobs := s.jobs[job.id := job],
         ready := PushReady(s.ready, job.priority, job.id))
  }

  /** ZADD XX: a heartbeat moves the lease of an entry that exists. */
  function HeartbeatCommand(s: Store, id: Id, score: int): Store {
    if id in s.processing then s.(processing := s.processing[id := score]) else s
  }

  function ForgetLease(s: Store, id: Id): Store {
    s.(processing := s.processing - {id})
  }

  // ---- Finishing a job ------------------------------------------------------

  function Failed(job: Job): Job {
    job.(attempt := job.attempt + 1)
  }

  /** What a worker does with the outcome of a handler: acknowledge, dead-letter, or delay. */
  function FinishFailed(s: Store, job: Job, now: int, delay: int): Store {
    var failed := Failed(job);
    if failed.attempt >= failed.maxAttempts then DeadScript(s, failed, now)
    else RetryScript(s, failed.(availableAt := now + delay), now + delay)
  }

  function Replayed(job: Job, now: int): Job {
    job.(attempt := 0, availableAt := now)
  }

  // ---- What a batch does to the ready lists ---------------------------------

  function Elements(ids: seq<Id>): set<Id> {
    set id | id in ids
  }

  ghost function OfPriority(priorities: map<Id, nat>, ids: seq<Id>, p: nat): seq<Id> {
    if ids == [] then [] else
      var last := ids[|ids| - 1];
      OfPriority(priorities, ids[..|ids| - 1], p) + if last in priorities && priorities[last] == p then [last] else []
  }

  /** Only the ready lists and the source differ. */
  predicate SameButSource(s: Store, r: Store, src: Source) {
    && r.jobs == s.jobs && r.priorities == s.priorities && r.dlq == s.dlq && r.keys == s.keys
    && (src == Delayed ==> r.processing == s.processing)
    && (src == Processing ==> r.delayed == s.delayed)
  }

  lemma MoveOneFrame(s: Store, src: Source, id: Id)
    requires s.WellFormed()
    ensures SameButSource(s, MoveOne(s, src, id), src)
    ensures Members(MoveOne(s, src, id), src) == Members(s, src) - {id}
  {
  }

  /** A batch touches the ready lists and its source, nothing else. */
  lemma {:induction false} MoveAllFrame(s: Store, src: Source, ids: seq<Id>)
    requires s.WellFormed()
    ensures SameButSource(s, MoveAll(s, src, ids), src)
    ensures Members(MoveAll(s, src, ids), src) == Members(s, src) - Elements(ids)
  {
    if ids != [] {
      var front, last := ids[..|ids| - 1], ids[|ids| - 1];
      MoveAllFrame(s, src, front);
      MoveOneFrame(MoveAll(s, src, front), src, last);
      assert Elements(ids) == Elements(front) + {last} by { assert ids == front + [last]; }
      assert Members(s, src) - Elements(front) - {last} == Members(s, src) - Elements(ids);
    } else {
      assert Members(s, src) - Elements(ids) == Members(s, src);
    }
  }

  lemma MoveOneReady(s: Store, src: Source, id: Id, p: nat)
    requires s.WellFormed() && p < LEVELS
    ensures var more := if id in s.priorities && s.priorities[id] == p then [id] else [];
      MoveOne(s, src, id).ready[p] == s.ready[p] + more
  {
  }

  /** A batch appends to each ready list its registered ids of that priority, in
      batch order (so in due-time order), and drops the unregistered ones. */
  lemma {:induction false} MoveAllReady(s: Store, src: Source, ids: seq<Id>, p: nat)
    requires s.WellFormed() && p < LEVELS
    ensures MoveAll(s, src, ids).ready[p] == s.ready[p] + OfPriority(s.priorities, ids, p)
  {
    if ids != [] {
      var front, last := ids[..|ids| - 1], ids[|ids| - 1];
      MoveAllReady(s, src, front, p);
      MoveAllFrame(s, src, front);
      MoveOneReady(MoveAll(s, src, front), src, last, p);
    }
  }

  lemma {:induction false} OfPriorityMembers(priorities: map<Id, nat>, ids: seq<Id>, p: nat)
    ensures forall id :: id in OfPriority(priorities, ids, p) <==> id in ids && id in priorities && priorities[id] == p
  {
    if ids != [] {
      assert ids == ids[..|ids| - 1] + [ids[|ids| - 1]];
      OfPriorityMembers(priorities, ids[..|ids| - 1], p);
    }
  }
}
