/** The process-local rate limiter: a fixed window per key, in a map that is pruned of
    expired windows when it grows large. Times are nanoseconds. */
module RateLimit {

  const CAPACITY: nat := 10000

  datatype Bucket = Bucket(started: int, count: nat)

  type Key = string

  type Buckets = map<Key, Bucket>

  // ---- One request ----------------------------------------------------------------

  /** The bucket after counting a request. */
  function Hit(buckets: Buckets, key: Key, now: int, window: int): Bucket {
    if key !in buckets || now - buckets[key].started >= window then Bucket(now, 1)
    else Bucket(buckets[key].started, buckets[key].count + 1)
  }

  function Live(buckets: Buckets, now: int, window: int): Buckets {
    map k | k in buckets && now - buckets[k].started < window :: buckets[k]
  }

  /** Without pruning. */
  function Counted(buckets: Buckets, key: Key, now: int, window: int): Buckets {
    buckets[key := Hit(buckets, key, now, window)]
  }

  /** With pruning. */
  function Pruned(buckets: Buckets, key: Key, now: int, window: int): Buckets {
    var b := Counted(buckets, key, now, window);
    if |b| > CAPACITY then Live(b, now, window) else b
  }

  class RateLimiter {
    const limit: nat
    const window: int
    var buckets: Buckets

    constructor (limit: int, window: int)
      ensures this.limit == (if limit < 1 then 1 else limit)
          && this.window == (if window <= 0 then 60_000_000_000 else window)
      ensures buckets == map[]
    {
      this.limit := if limit < 1 then 1 else limit;
      this.window := if window <= 0 then 60_000_000_000 else window;
      buckets := map[];
    }

    /** The critical section of one request; `now` is the time it read. */
    method Allow(key: Key, now: int) returns (allowed: bool)
      modifies this
      ensures buckets == Pruned(old(buckets), key, now, window)
      ensures allowed == (Hit(old(buckets), key, now, window).count <= limit)
    {
      var bucket := if key in buckets then buckets[key] else Bucket(now, 0);
      if key !in buckets || now - bucket.started >= window {
        bucket := Bucket(now, 0);
      }
      bucket := bucket.(count := bucket.count + 1);
      buckets := buckets[key := bucket];
      if |buckets| > CAPACITY {
        Prune(now);
      }
      allowed := bucket.count <= limit;
    }

    method Prune(now: int)
      modifies this
      ensures buckets == Live(old(buckets), now, window)
    {
      var candidates := buckets.Keys;
      while candidates != {}
        invariant candidates <= old(buckets).Keys
        invariant forall k :: k in buckets
                   <==> k in old(buckets) && (k in candidates || now - old(buckets)[k].started < window)
        invariant forall k :: k in buckets ==> buckets[k] == old(buckets)[k]
        decreases candidates
      {
        var k :| k in candidates;
        if k in buckets && now - buckets[k].started >= window {
          buckets := buckets - {k};
        }
        candidates := candidates - {k};
      }
    }
  }

  // ---- Traces ------------------------------------------------------------------------

  datatype Request = Request(key: Key, now: int)

  function PlainAfter(trace: seq<Request>, window: int): Buckets {
    if trace == [] then map[] else
      var r := trace[|trace| - 1];
      Counted(PlainAfter(trace[..|trace| - 1], window), r.key, r.now, window)
  }

  function PrunedAfter(trace: seq<Request>, window: int): Buckets {
    if trace == [] then map[] else
      var r := trace[|trace| - 1];
      Pruned(PrunedAfter(trace[..|trace| - 1], window), r.key, r.now, window)
  }

  predicate PlainAllows(trace: seq<Request>, i: nat, limit: nat, window: int)
    requires i < |trace|
  {
    Hit(PlainAfter(trace[..i], window), trace[i].key, trace[i].now, window).count <= limit
  }

  predicate PrunedAllows(trace: seq<Request>, i: nat, limit: nat, window: int)
    requires i < |trace|
  {
    Hit(PrunedAfter(trace[..i], window), trace[i].key, trace[i].now, window).count <= limit
  }

  ghost predicate Ordered(trace: seq<Request>) {
    forall i, j :: 0 <= i <= j < |trace| ==> trace[i].now <= trace[j].now
  }

  // ---- Pruning changes no decision ------------------------------------------------------

  /** The pruned map is the plain map without some windows that have already ended. */
  ghost predicate Abridges(pruned: Buckets, plain: Buckets, now: int, window: int) {
    && (forall k :: k in pruned ==> k in plain && pruned[k] == plain[k])
    && (forall k :: k in plain && k !in pruned ==> now - plain[k].started >= window)
  }

  lemma StepAbridges(pruned: Buckets, plain: Buckets, before: int, key: Key, now: int, window: int)
    requires window > 0 && before <= now && Abridges(pruned, plain, before, window)
    ensures Hit(pruned, key, now, window) == Hit(plain, key, now, window)
    ensures Abridges(Pruned(pruned, key, now, window), Counted(plain, key, now, window), now, window)
  {
  }

  lemma {:induction false} PrunedAbridgesPlain(trace: seq<Request>, now: int, window: int)
    requires window > 0 && Ordered(trace) && (trace != [] ==> trace[|trace| - 1].now <= now)
    ensures Abridges(PrunedAfter(trace, window), PlainAfter(trace, window), now, window)
  {
    if trace != [] {
      var n := |trace| - 1;
      var front, r := trace[..n], trace[n];
      var before := if n > 0 then front[n - 1].now else r.now;
      PrunedAbridgesPlain(front, before, window);
      StepAbridges(PrunedAfter(front, window), PlainAfter(front, window), before, r.key, r.now, window);
    }
  }

  /** For requests whose critical sections see nondecreasing times, the pruned limiter
      decides every request as an unpruned one would. */
  lemma PruningIsInvisible(trace: seq<Request>, i: nat, limit: nat, window: int)
    requires window > 0 && Ordered(trace) && i < |trace|
    ensures PrunedAllows(trace, i, limit, window) <==> PlainAllows(trace, i, limit, window)
  {
    PrunedAbridgesPlain(trace[..i], trace[i].now, window);
    StepAbridges(PrunedAfter(trace[..i], window), PlainAfter(trace[..i], window), trace[i].now, trace[i].key,
      trace[i].now, window);
  }

  /** Request j of a trace makes the map too large, so it removes the windows ended by then. */
  ghost predicate Prunes(trace: seq<Request>, j: nat, window: int) {
    j < |trace| && |Counted(PrunedAfter(trace[..j], window), trace[j].key, trace[j].now, window)| > CAPACITY
  }

  /** Some request removed windows when a window begun at `started` had ended. */
  ghost predicate Removed(trace: seq<Request>, started: int, window: int) {
    exists j :: 0 <= j < |trace| && Prunes(trace, j, window) && trace[j].now - started >= window
  }

  lemma RemovedEarlierOrNow(trace: seq<Request>, started: int, window: int)
    requires trace != []
    ensures var n := |trace| - 1;
      Removed(trace, started, window)
      <==> Removed(trace[..n], started, window) || (Prunes(trace, n, window) && trace[n].now - started >= window)
  {
    var n := |trace| - 1;
    forall j | 0 <= j < n ensures Prunes(trace[..n], j, window) == Prunes(trace, j, window) {
      assert trace[..n][..j] == trace[..j];
    }
    if Removed(trace[..n], started, window) {
      var j :| 0 <= j < n && Prunes(trace[..n], j, window) && trace[..n][j].now - started >= window;
      assert Prunes(trace, j, window) && trace[j].now - started >= window;
    }
  }

  /** A window is missing from the pruned map exactly when some request removed it. */
  lemma {:induction false} ForgottenExactly(trace: seq<Request>, key: Key, window: int)
    requires window > 0 && Ordered(trace) && key in PlainAfter(trace, window)
    ensures key !in PrunedAfter(trace, window) <==> Removed(trace, PlainAfter(trace, window)[key].started, window)
  {
    var n := |trace| - 1;
    var front, r := trace[..n], trace[n];
    var before := PlainAfter(front, window);
    PrunedAbridgesPlain(front, if n > 0 then front[n - 1].now else r.now, window);
    StepAbridges(PrunedAfter(front, window), before, if n > 0 then front[n - 1].now else r.now, r.key, r.now, window);
    RemovedEarlierOrNow(trace, PlainAfter(trace, window)[key].started, window);
    if key in before {
      ForgottenExactly(front, key, window);
    }
  }

  /** A request that read an earlier time than one already served can be decided
      differently, exactly when a request in between removed its window, which for the
      straggler is still open and already full; then it is let through. */
  lemma StragglersDifferExactly(trace: seq<Request>, straggler: Request, limit: nat, window: int)
    requires window > 0 && limit >= 1 && Ordered(trace)
    ensures var plain, all := PlainAfter(trace, window), trace + [straggler];
      PrunedAllows(all, |trace|, limit, window) && !PlainAllows(all, |trace|, limit, window)
      <==> straggler.key in plain && plain[straggler.key].count >= limit
           && straggler.now - plain[straggler.key].started < window
               && Removed(trace, plain[straggler.key].started, window)
    ensures var all := trace + [straggler];
      PlainAllows(all, |trace|, limit, window) ==> PrunedAllows(all, |trace|, limit, window)
  {
    assert (trace + [straggler])[..|trace|] == trace;
    PrunedAbridgesPlain(trace, if trace == [] then 0 else trace[|trace| - 1].now, window);
    if straggler.key in PlainAfter(trace, window) { ForgottenExactly(trace, straggler.key, window); }
  }

  // ---- A straggler let through ----------------------------------------------------------------

  /** n further hits of a key. */
  function Hits(trace: seq<Request>, key: Key, now: int, n: nat): seq<Request> {
    if n == 0 then trace else Hits(trace, key, now, n - 1) + [Request(key, now)]
  }

  /** One further hit each of some keys. */
  function Crowd(trace: seq<Request>, keys: seq<Key>, now: int): seq<Request> {
    if keys == [] then trace else
      var m := |keys| - 1;
      Crowd(trace, keys[..m], now) + [Request(keys[m], now)]
  }

  ghost predicate Apart(keys: seq<Key>) {
    forall i, j :: 0 <= i < j < |keys| ==> keys[i] != keys[j]
  }

  ghost predicate OrderedUntil(trace: seq<Request>, now: int) {
    Ordered(trace) && forall i :: 0 <= i < |trace| ==> trace[i].now <= now
  }

  lemma {:induction false} HitsAreOrdered(trace: seq<Request>, key: Key, now: int, n: nat)
    requires OrderedUntil(trace, now)
    ensures OrderedUntil(Hits(trace, key, now, n), now)
  {
    if n > 0 { HitsAreOrdered(trace, key, now, n - 1); }
  }

  lemma {:induction false} CrowdIsOrdered(trace: seq<Request>, keys: seq<Key>, now: int)
    requires OrderedUntil(trace, now)
    ensures OrderedUntil(Crowd(trace, keys, now), now)
  {
    if keys != [] { CrowdIsOrdered(trace, keys[..|keys| - 1], now); }
  }

  lemma {:induction false} HitsFill(key: Key, n: nat, window: int)
    requires window > 0 && n > 0
    ensures PrunedAfter(Hits([], key, 0, n), window) == PlainAfter(Hits([], key, 0, n), window)
        == map[key := Bucket(0, n)]
  {
    assert Hits([], key, 0, n)[..|Hits([], key, 0, n)| - 1] == Hits([], key, 0, n - 1);
    if n > 1 { HitsFill(key, n - 1, window); }
  }

  /** A hit of a key that is not in a map below its capacity. */
  lemma NewcomerFits(trace: seq<Request>, r: Request, window: int)
    requires r.key !in PrunedAfter(trace, window) && |PrunedAfter(trace, window)| < CAPACITY
    ensures PrunedAfter(trace + [r], window) == PrunedAfter(trace, window)[r.key := Bucket(r.now, 1)]
    ensures |PrunedAfter(trace + [r], window)| == |PrunedAfter(trace, window)| + 1
  {
    assert (trace + [r])[..|trace|] == trace;
  }

  lemma OthersKeepTheirWindows(trace: seq<Request>, r: Request, key: Key, window: int)
    requires key != r.key && key in PlainAfter(trace, window)
    ensures key in PlainAfter(trace + [r], window)
        && PlainAfter(trace + [r], window)[key] == PlainAfter(trace, window)[key]
  {
    assert (trace + [r])[..|trace|] == trace;
  }

  ghost predicate Only(buckets: Buckets, key: Key, keys: seq<Key>) {
    |buckets| == |keys| + 1 && forall k :: k in buckets ==> k == key || k in keys
  }

  lemma {:induction false} CrowdKeepsWindow(trace: seq<Request>, key: Key, keys: seq<Key>, now: int, window: int)
    requires key in PlainAfter(trace, window) && key !in keys
    ensures var plain := PlainAfter(Crowd(trace, keys, now), window);
      key in plain && plain[key] == PlainAfter(trace, window)[key]
  {
    if keys != [] {
      var m := |keys| - 1;
      CrowdKeepsWindow(trace, key, keys[..m], now, window);
      OthersKeepTheirWindows(Crowd(trace, keys[..m], now), Request(keys[m], now), key, window);
    }
  }

  lemma {:induction false} CrowdFills(trace: seq<Request>, key: Key, keys: seq<Key>, now: int, window: int)
    requires PrunedAfter(trace, window).Keys == {key} && Apart(keys) && key !in keys && |keys| < CAPACITY
    ensures Only(PrunedAfter(Crowd(trace, keys, now), window), key, keys)
  {
    if keys == [] {
      assert |PrunedAfter(trace, window).Keys| == 1;
    } else {
      var m := |keys| - 1;
      CrowdFills(trace, key, keys[..m], now, window);
      NewcomerFits(Crowd(trace, keys[..m], now), Request(keys[m], now), window);
    }
  }

  /** A key that spends its budget, and then as many others as the map has room for. */
  function Rush(key: Key, keys: seq<Key>, limit: nat, window: int): seq<Request> {
    Crowd(Hits([], key, 0, limit), keys, window)
  }

  lemma RushIsOrdered(key: Key, keys: seq<Key>, limit: nat, window: int)
    requires window > 0
    ensures Ordered(Rush(key, keys, limit, window))
  {
    HitsAreOrdered([], key, 0, limit);
    CrowdIsOrdered(Hits([], key, 0, limit), keys, window);
  }

  lemma RushPrunes(key: Key, keys: seq<Key>, limit: nat, window: int)
    requires window > 0 && limit >= 1 && |keys| == 10_000 && Apart(keys) && key !in keys
    ensures Removed(Rush(key, keys, limit, window), 0, window)
  {
    var m := CAPACITY - 1;
    var trace, before := Rush(key, keys, limit, window), Rush(key, keys[..m], limit, window);
    HitsFill(key, limit, window);
    CrowdFills(Hits([], key, 0, limit), key, keys[..m], window, window);
    assert trace == before + [Request(keys[m], window)];
    assert trace[..|before|] == before;
    assert keys[m] !in PrunedAfter(before, window);
    assert Prunes(trace, |before|, window);
  }

  /** For every limit and window: a key spends its budget, the map outgrows its capacity just
      as that window ends, and a request of the key that read its clock before is let through. */
  lemma StragglerIsLetThrough(key: Key, keys: seq<Key>, limit: nat, window: int)
    requires window > 0 && limit >= 1 && |keys| == 10_000 && Apart(keys) && key !in keys
    ensures var trace := Rush(key, keys, limit, window);
      && Ordered(trace)
      && PrunedAllows(trace + [Request(key, window - 1)], |trace|, limit, window)
      && !PlainAllows(trace + [Request(key, window - 1)], |trace|, limit, window)
  {
    RushIsOrdered(key, keys, limit, window);
    HitsFill(key, limit, window);
    CrowdKeepsWindow(Hits([], key, 0, limit), key, keys, window, window);
    RushPrunes(key, keys, limit, window);
    StragglersDifferExactly(Rush(key, keys, limit, window), Request(key, window - 1), limit, window);
  }

  function Client(i: nat): (key: Key)
    ensures |key| == i
  {
    seq(i, _ => '*')
  }

  /** There are that many keys. */
  lemma StragglersExist(limit: nat, window: int) returns (trace: seq<Request>, straggler: Request)
    requires window > 0 && limit >= 1
    ensures Ordered(trace)
    ensures var all := trace + [straggler];
      PrunedAllows(all, |trace|, limit, window) != PlainAllows(all, |trace|, limit, window)
  {
    var keys := seq(CAPACITY, i requires 0 <= i < CAPACITY => Client(i + 1));
    assert forall i :: 0 <= i < |keys| ==> |keys[i]| == i + 1;
    assert |Client(0)| == 0;
    trace, straggler := Rush(Client(0), keys, limit, window), Request(Client(0), window - 1);
    StragglerIsLetThrough(Client(0), keys, limit, window);
  }

  // ---- Admission bound -----------------------------------------------------------------------

  /** How many requests of a key the limiter lets through at times in [lo, hi). */
  ghost function Admitted(trace: seq<Request>, key: Key, lo: int, hi: int, limit: nat, window: int): nat {
    if trace == [] then 0 else
      var n := |trace| - 1;
      Admitted(trace[..n], key, lo, hi, limit, window)
        + if trace[n].key == key && lo <= trace[n].now < hi && PrunedAllows(trace, n, limit, window) then 1 else 0
  }

  function AtMost(a: nat, b: nat): nat {
    if a <= b then a else b
  }

  /** What the open window of a key bounds: after the request that began it, one less than
      its count; since one window before that, what one more budget leaves. */
  ghost predicate Bounded(trace: seq<Request>, key: Key, limit: nat, window: int) {
    var b := PlainAfter(trace, window);
    if key !in b then forall lo, hi :: Admitted(trace, key, lo, hi, limit, window) == 0
    else
      && b[key].count >= 1
      && (forall lo, hi :: lo > b[key].started
           ==> Admitted(trace, key, lo, hi, limit, window) <= AtMost(b[key].count, limit) - 1)
      && (forall lo, hi :: lo > b[key].started - window
            ==> Admitted(trace, key, lo, hi, limit, window) <= limit - 1 + AtMost(b[key].count, limit))
      && (forall lo, hi :: hi <= lo + window ==> Admitted(trace, key, lo, hi, limit, window) <= 2 * limit - 1)
      && (trace != [] ==> b[key].started <= trace[|trace| - 1].now)
      && (trace != [] ==> forall lo, hi :: lo > trace[|trace| - 1].now
                           ==> Admitted(trace, key, lo, hi, limit, window) == 0)
  }

  lemma {:induction false} AdmissionIsBounded(trace: seq<Request>, key: Key, limit: nat, window: int)
    requires window > 0 && limit >= 1 && Ordered(trace)
    ensures Bounded(trace, key, limit, window)
  {
    if trace != [] {
      var n := |trace| - 1;
      var front, r := trace[..n], trace[n];
      AdmissionIsBounded(front, key, limit, window);
      PruningIsInvisible(trace, n, limit, window);
      var b := PlainAfter(front, window);
      assert trace[..n] == front;
      assert n > 0 ==> front[n - 1].now <= r.now;
      var c := PlainAfter(trace, window);
      forall lo, hi
        ensures Admitted(trace, key, lo, hi, limit, window) == Admitted(front, key, lo, hi, limit, window)
          + if r.key == key && lo <= r.now < hi && c[key].count <= limit then 1 else 0
      {
      }
    }
  }

  /** Any half-open interval as long as the window lets through less than twice the limit
      for each key: the request that began the earlier of two windows lies before it. */
  lemma LessThanTwiceTheLimit(trace: seq<Request>, key: Key, lo: int, limit: nat, window: int)
    requires window > 0 && limit >= 1 && Ordered(trace)
    ensures Admitted(trace, key, lo, lo + window, limit, window) <= 2 * limit - 1
  {
    AdmissionIsBounded(trace, key, limit, window);
  }

  function TimeOfHit(n: nat, limit: nat, window: int): int {
    if n == 0 then 0 else if n < limit then window - 1 else window
  }

  function WindowAfter(n: nat, limit: nat, window: int): Bucket {
    if n <= limit then Bucket(0, n) else Bucket(window, n - limit)
  }

  /** A lone window counts on while it is open, and then makes room for the next. */
  lemma LoneWindow(key: Key, b: Bucket, now: int, window: int)
    ensures Pruned(map[key := b], key, now, window)
      == map[key := if now - b.started >= window then Bucket(now, 1) else Bucket(b.started, b.count + 1)]
  {
    assert |map[key := b]| == 1;
  }

  lemma NextHit(key: Key, n: nat, limit: nat, window: int)
    requires window >= 2 && 1 <= n < 2 * limit
    ensures Pruned(map[key := WindowAfter(n, limit, window)], key, TimeOfHit(n, limit, window), window)
      == map[key := WindowAfter(n + 1, limit, window)]
    ensures Hit(map[key := WindowAfter(n, limit, window)], key, TimeOfHit(n, limit, window), window).count <= limit
  {
    LoneWindow(key, WindowAfter(n, limit, window), TimeOfHit(n, limit, window), window);
  }

  /** The first n hits of two budgets: one, the rest of its budget as its window ends, and
      the next budget at once. */
  ghost predicate TwoBudgets(trace: seq<Request>, key: Key, n: nat, limit: nat, window: int) {
    && OrderedUntil(trace, TimeOfHit(n, limit, window))
    && PrunedAfter(trace, window) == map[key := WindowAfter(n, limit, window)]
    && Admitted(trace, key, 1, 1 + window, limit, window) == n - 1
  }

  lemma FirstHit(key: Key, limit: nat, window: int)
    requires window >= 2 && limit >= 1
    ensures TwoBudgets([Request(key, 0)], key, 1, limit, window)
  {
    assert [Request(key, 0)][..0] == [];
  }

  lemma OneMoreRequest(trace: seq<Request>, r: Request, lo: int, hi: int, limit: nat, window: int)
    ensures PrunedAfter(trace + [r], window) == Pruned(PrunedAfter(trace, window), r.key, r.now, window)
    ensures Admitted(trace + [r], r.key, lo, hi, limit, window) == Admitted(trace, r.key, lo, hi, limit, window)
      + if lo <= r.now < hi && Hit(PrunedAfter(trace, window), r.key, r.now, window).count <= limit then 1 else 0
  {
    assert (trace + [r])[..|trace|] == trace;
  }

  lemma NextOfTwoBudgets(front: seq<Request>, key: Key, n: nat, limit: nat, window: int) returns (trace: seq<Request>)
    requires window >= 2 && 1 <= n < 2 * limit && TwoBudgets(front, key, n, limit, window)
    ensures TwoBudgets(trace, key, n + 1, limit, window)
  {
    var r := Request(key, TimeOfHit(n, limit, window));
    trace := front + [r];
    NextHit(key, n, limit, window);
    OneMoreRequest(front, r, 1, 1 + window, limit, window);
  }

  lemma {:induction false} BudgetsAreAdmitted(key: Key, n: nat, limit: nat, window: int) returns (trace: seq<Request>)
    requires window >= 2 && 1 <= n <= 2 * limit
    ensures TwoBudgets(trace, key, n, limit, window)
  {
    if n == 1 {
      FirstHit(key, limit, window);
      trace := [Request(key, 0)];
    } else {
      trace := BudgetsAreAdmitted(key, n - 1, limit, window);
      trace := NextOfTwoBudgets(trace, key, n - 1, limit, window);
    }
  }

  /** The bound is reached for every limit. */
  lemma LessThanTwiceIsReached(key: Key, limit: nat, window: int) returns (trace: seq<Request>)
    requires window >= 2 && limit >= 1
    ensures Ordered(trace) && Admitted(trace, key, 1, 1 + window, limit, window) == 2 * limit - 1
  {
    trace := BudgetsAreAdmitted(key, 2 * limit, limit, window);
  }
}
