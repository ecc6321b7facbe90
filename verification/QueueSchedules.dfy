/** Idempotency keys and the recurring jobs every replica schedules with them.
    Client times are nanoseconds; the server's clock and lifetimes are milliseconds. */
module QueueSchedules {
  import opened JobStore
  import opened QueueProtocol

  const NS_PER_MS := 1_000_000

  // ---- One key, one job -----------------------------------------------------------

  /** Event `i` of the run is an enqueue that created its job. */
  ghost predicate CreatedAt(es: seq<Event>, i: nat) {
    && i < |es| && es[i].Enqueue? && After(es[..i]).Some?
    && Creates(After(es[..i]).value.store, es[i].key, es[i].clock)
  }

  lemma ClockNeverRunsBack(s: System, e: Event)
    requires WellFormed(s) && Enabled(s, e)
    ensures s.clock <= Step(s, e).clock
    ensures e.Enqueue? ==> Step(s, e).clock == e.clock
  {
  }

  lemma KeyChanges(s: System, e: Event, key: string)
    requires WellFormed(s) && Enabled(s, e) && key in s.store.keys
    ensures key in Step(s, e).store.keys
    ensures Step(s, e).store.keys[key] ==
      if e.Enqueue? && e.key == key != "" && Creates(s.store, key, e.clock) then KeyEntry(e.job.id, e.clock + e.ttl)
        else s.store.keys[key]
  {
    if e.Move? { MoveAllFrame(s.store, e.src, DueBatch(Members(s.store, e.src), e.now, e.limit)); }
  }

  /** While a key lives it keeps naming the job that was created under it, whatever
      happens to that job: acknowledged, dead, replayed or stale. */
  lemma {:induction false} KeyRemembers(es: seq<Event>, i: nat)
    requires After(es).Some? && CreatedAt(es, i) && es[i].key != ""
    requires After(es).value.clock <= es[i].clock + es[i].ttl
    ensures var keys := After(es).value.store.keys;
      es[i].key in keys && keys[es[i].key] == KeyEntry(es[i].job.id, es[i].clock + es[i].ttl)
  {
    var n := |es| - 1;
    var front, e := es[..n], es[n];
    var s := After(front).value;
    assert After(es).value == Step(s, e);
    ClockNeverRunsBack(s, e);
    if i < n {
      assert front[..i] == es[..i];
      KeyRemembers(front, i);
      KeyChanges(s, e, es[i].key);
    }
  }

  lemma {:induction false} PrefixRuns(es: seq<Event>, i: nat)
    requires After(es).Some? && i <= |es|
    ensures After(es[..i]).Some?
  {
    if i < |es| {
      var front := es[..|es| - 1];
      PrefixRuns(front, i);
      assert front[..i] == es[..i];
    } else {
      assert es[..i] == es;
    }
  }

  lemma EventCouldHappen(es: seq<Event>, j: nat)
    requires After(es).Some? && j < |es|
    ensures After(es[..j]).Some? && WellFormed(After(es[..j]).value) && Enabled(After(es[..j]).value, es[j])
  {
    PrefixRuns(es, j + 1);
    var more := es[..j + 1];
    assert more[..|more| - 1] == es[..j] && more[|more| - 1] == es[j];
    assert After(more) == Next(After(es[..j]), es[j]);
  }

  lemma LiveKeyAnswers(s: Store, key: string, job: Job, clock: int, entry: KeyEntry)
    requires key != "" && key in s.keys && s.keys[key] == entry && clock <= entry.expiresAt
    ensures !Creates(s, key, clock) && EnqueueAnswer(s, key, job, clock) == entry.id
  {
  }

  /** A duplicate within the lifetime creates nothing and is answered with the id
      of the job the key created. */
  lemma DuplicateAnswersFirst(es: seq<Event>, i: nat, j: nat)
    requires After(es).Some? && i < j < |es| && CreatedAt(es, i) && es[j].Enqueue?
    requires es[j].key == es[i].key != "" && es[j].clock <= es[i].clock + es[i].ttl
    ensures !CreatedAt(es, j) && After(es[..j]).Some?
    ensures EnqueueAnswer(After(es[..j]).value.store, es[j].key, es[j].job, es[j].clock) == es[i].job.id
  {
    var before := es[..j];
    EventCouldHappen(es, j);
    assert before[..i] == es[..i];
    KeyRemembers(before, i);
    LiveKeyAnswers(After(before).value.store, es[j].key, es[j].job, es[j].clock,
      KeyEntry(es[i].job.id, es[i].clock + es[i].ttl));
  }

  // ---- Keys of schedules --------------------------------------------------------------

  function Decimal(n: nat): string {
    if n < 10 then [['0', '1', '2', '3', '4', '5', '6', '7', '8', '9'][n]] else Decimal(n / 10) + Decimal(n % 10)
  }

  lemma {:induction false} DecimalInjective(m: nat, n: nat)
    requires Decimal(m) == Decimal(n)
    ensures m == n
  {
    DecimalLength(m);
    DecimalLength(n);
    if m >= 10 && n >= 10 {
      var a, b := Decimal(m / 10), Decimal(n / 10);
      DecimalLength(m % 10);
      DecimalLength(n % 10);
      assert Decimal(m)[..|Decimal(m)| - 1] == a && Decimal(n)[..|Decimal(n)| - 1] == b;
      DecimalInjective(m / 10, n / 10);
      assert Decimal(m)[|Decimal(m)| - 1] == Decimal(m % 10)[0];
      assert Decimal(n)[|Decimal(n)| - 1] == Decimal(n % 10)[0];
      DecimalInjective(m % 10, n % 10);
    }
  }

  lemma {:induction false} DecimalLength(n: nat)
    ensures |Decimal(n)| >= 1 && (|Decimal(n)| == 1 <==> n < 10)
  {
    if n >= 10 {
      DecimalLength(n / 10);
      DecimalLength(n % 10);
    }
  }

  /** The Redis key of an idempotency key. */
  function RedisKey(namespace: string, kind: string, key: string): string {
    namespace + ":jobs:idempotency:" + kind + ":" + key
  }

  function ScheduleKey(namespace: string, kind: string, name: string, window: nat): string {
    RedisKey(namespace, kind, name + ":" + Decimal(window))
  }

  lemma CancelPrefix(a: string, x: string, y: string)
    requires a + x == a + y
    ensures x == y
  {
    assert (a + x)[|a|..] == x && (a + y)[|a|..] == y;
  }

  lemma WindowsHaveTheirOwnKeys(namespace: string, kind: string, name: string, v: nat, w: nat)
    ensures ScheduleKey(namespace, kind, name, v) == ScheduleKey(namespace, kind, name, w) <==> v == w
  {
    if ScheduleKey(namespace, kind, name, v) == ScheduleKey(namespace, kind, name, w) {
      CancelPrefix(namespace + ":jobs:idempotency:" + kind + ":", name + ":" + Decimal(v), name + ":" + Decimal(w));
      assert name + ":" + Decimal(v) == (name + ":") + Decimal(v)
        && name + ":" + Decimal(w) == (name + ":") + Decimal(w);
      CancelPrefix(name + ":", Decimal(v), Decimal(w));
      DecimalInjective(v, w);
    }
  }

  /** Two kinds have some keys of theirs in common. */
  ghost predicate Collide(namespace: string, k1: string, k2: string) {
    exists x1, x2 :: x1 != "" && x2 != "" && RedisKey(namespace, k1, x1) == RedisKey(namespace, k2, x2)
  }

  lemma SameKeySameTail(namespace: string, k1: string, x1: string, k2: string, x2: string)
    ensures RedisKey(namespace, k1, x1) == RedisKey(namespace, k2, x2) <==> k1 + ":" + x1 == k2 + ":" + x2
  {
    var p := namespace + ":jobs:idempotency:";
    assert RedisKey(namespace, k1, x1) == p + (k1 + ":" + x1) && RedisKey(namespace, k2, x2) == p + (k2 + ":" + x2);
    if p + (k1 + ":" + x1) == p + (k2 + ":" + x2) {
      CancelPrefix(p, k1 + ":" + x1, k2 + ":" + x2);
    }
  }

  /** A common key makes the shorter kind, with its colon, a prefix of the longer one. */
  lemma CommonKeyIsPrefix(k1: string, x1: string, k2: string, x2: string)
    requires k1 + ":" + x1 == k2 + ":" + x2 && |k1| <= |k2| && k1 != k2
    ensures k1 + ":" <= k2 && ':' in k2
  {
    var s := k1 + ":" + x1;
    assert s[..|k1|] == k1 && s[..|k2|] == k2 && s[..|k1| + 1] == k1 + ":";
    assert k2[|k1|] == ':';
  }

  lemma PrefixCollides(namespace: string, k1: string, k2: string)
    requires k1 + ":" <= k2
    ensures Collide(namespace, k1, k2) && Collide(namespace, k2, k1)
  {
    var rest := k2[|k1| + 1..];
    var x1 := rest + ":x";
    assert k2 == k1 + ":" + rest;
    assert k1 + ":" + x1 == k2 + ":" + "x";
    SameKeySameTail(namespace, k1, x1, k2, "x");
    assert x1 != "" && "x" != "" && RedisKey(namespace, k1, x1) == RedisKey(namespace, k2, "x");
  }

  /** Two different kinds can share a key exactly when one of them, followed by a colon,
      begins the other. */
  lemma KindsCollideExactly(namespace: string, k1: string, k2: string)
    requires k1 != k2
    ensures Collide(namespace, k1, k2) <==> k1 + ":" <= k2 || k2 + ":" <= k1
  {
    if Collide(namespace, k1, k2) {
      var x1, x2 :| x1 != "" && x2 != "" && RedisKey(namespace, k1, x1) == RedisKey(namespace, k2, x2);
      SameKeySameTail(namespace, k1, x1, k2, x2);
      if |k1| <= |k2| { CommonKeyIsPrefix(k1, x1, k2, x2); } else { CommonKeyIsPrefix(k2, x2, k1, x1); }
    }
    if k1 + ":" <= k2 { PrefixCollides(namespace, k1, k2); }
    if k2 + ":" <= k1 { PrefixCollides(namespace, k2, k1); }
  }

  /** So kinds without a colon have their keys to themselves. */
  lemma KindsHaveTheirOwnKeys(namespace: string, k1: string, x1: string, k2: string, x2: string)
    requires ':' !in k1 && ':' !in k2
    ensures RedisKey(namespace, k1, x1) == RedisKey(namespace, k2, x2) <==> k1 == k2 && x1 == x2
  {
    if RedisKey(namespace, k1, x1) == RedisKey(namespace, k2, x2) {
      SameKeySameTail(namespace, k1, x1, k2, x2);
      if k1 == k2 {
        CancelPrefix(k1 + ":", x1, x2);
      } else if |k1| <= |k2| {
        CommonKeyIsPrefix(k1, x1, k2, x2);
      } else {
        CommonKeyIsPrefix(k2, x2, k1, x1);
      }
    }
  }

  lemma ColonKindsCollide(namespace: string)
    ensures RedisKey(namespace, "a:b", "c") == RedisKey(namespace, "a", "b:c")
  {
    assert "a:b" + ":" + "c" == "a" + ":" + "b:c";
    SameKeySameTail(namespace, "a:b", "c", "a", "b:c");
  }

  // ---- One job per window ---------------------------------------------------------------

  /** An enqueue some replica's maintenance pass made for a schedule: the window is
      taken from the replica's time `at`, and the script runs at `served`, at most
      `delay` later. */
  predicate ScheduledCall(e: Event, namespace: string, kind: string, name: string, every: nat, at: nat, served: nat,
    delay: nat)
    requires every > 0
  {
    && e.Enqueue? && e.key == ScheduleKey(namespace, kind, name, at / every)
    && e.clock == served / NS_PER_MS && at <= served <= at + delay
  }

  lemma SameWindowIsWithinLifetime(every: nat, a1: nat, s1: nat, a2: nat, s2: nat, delay: nat, ttl: nat)
    requires every > 0 && a1 / every == a2 / every
    requires a1 <= s1 && s2 <= a2 + delay && ttl * NS_PER_MS >= every + delay
    ensures s2 / NS_PER_MS <= s1 / NS_PER_MS + ttl
  {
    var w := a1 / every;
    assert every * w <= a1 && a2 < every * w + every;
    assert s2 < s1 + ttl * NS_PER_MS;
  }

  /** However many replicas run maintenance however often, the second and every later
      call for the same window of a schedule creates nothing and gets the id of the
      first, provided keys outlive the interval plus the delay of a call. */
  lemma OneJobPerWindow(es: seq<Event>, i: nat, j: nat, namespace: string, kind: string, name: string,
                        every: nat, a1: nat, s1: nat, a2: nat, s2: nat, delay: nat)
    requires After(es).Some? && i < j < |es| && every > 0 && CreatedAt(es, i)
    requires ScheduledCall(es[i], namespace, kind, name, every, a1, s1, delay)
    requires ScheduledCall(es[j], namespace, kind, name, every, a2, s2, delay)
    requires a1 / every == a2 / every && es[i].ttl * NS_PER_MS >= every + delay
    ensures !CreatedAt(es, j) && After(es[..j]).Some?
    ensures EnqueueAnswer(After(es[..j]).value.store, es[j].key, es[j].job, es[j].clock) == es[i].job.id
  {
    SameWindowIsWithinLifetime(every, a1, s1, a2, s2, delay, es[i].ttl);
    assert |es[i].key| > 0;
    PrefixRuns(es, j);
    DuplicateAnswersFirst(es, i, j);
  }

  /** A shorter lifetime does not do: keys that die two milliseconds before the
      window ends let a prompt second call create a second job. */
  lemma ShortLivedKeysRepeat(namespace: string, kind: string, name: string, every: nat, ttl: nat)
    requires every >= (ttl + 2) * NS_PER_MS
    ensures exists es: seq<Event>, at: nat ::
      && |es| == 2 && After(es).Some? && CreatedAt(es, 0) && CreatedAt(es, 1)
      && es[0].ttl == ttl && at / every == 0
      && ScheduledCall(es[0], namespace, kind, name, every, 0, 0, 0)
      && ScheduledCall(es[1], namespace, kind, name, every, at, at, 0)
  {
    var at := every - 1;
    LastMoment(every, ttl);
    var es := ExpiredKeyRepeats(kind, ScheduleKey(namespace, kind, name, 0), ttl, at / NS_PER_MS);
    assert es[0].Enqueue? && es[1].Enqueue?;
    assert ScheduledCall(es[0], namespace, kind, name, every, 0, 0, 0);
    assert ScheduledCall(es[1], namespace, kind, name, every, at, at, 0);
  }

  /** Whatever a run does, two prompt calls for one window never both create a job. */
  ghost predicate OncePerWindow(namespace: string, kind: string, name: string, every: nat, ttl: nat)
    requires every > 0
  {
    forall es: seq<Event>, i: nat, j: nat, a1: nat, a2: nat ::
      && After(es).Some? && i < j && CreatedAt(es, i) && CreatedAt(es, j) && es[i].ttl == ttl
      && ScheduledCall(es[i], namespace, kind, name, every, a1, a1, 0)
      && ScheduledCall(es[j], namespace, kind, name, every, a2, a2, 0)
      ==> a1 / every != a2 / every
  }

  lemma SameWindowIsWithinMillis(millis: nat, a1: nat, a2: nat)
    requires millis > 0 && a1 / (millis * NS_PER_MS) == a2 / (millis * NS_PER_MS)
    ensures a2 / NS_PER_MS <= a1 / NS_PER_MS + millis - 1
  {
    var every := millis * NS_PER_MS;
    var w := a1 / every;
    var start := millis * w;
    assert every * w == start * NS_PER_MS;
    assert start * NS_PER_MS <= a1 && a2 < start * NS_PER_MS + millis * NS_PER_MS;
    assert start <= a1 / NS_PER_MS && a2 / NS_PER_MS < start + millis;
  }

  /** For an interval of whole milliseconds and prompt calls the bound is exact: a key has
      to live at least one millisecond less than the interval. */
  lemma OneJobPerWindowExactly(namespace: string, kind: string, name: string, millis: nat, ttl: nat)
    requires millis > 0
    ensures OncePerWindow(namespace, kind, name, millis * NS_PER_MS, ttl) <==> ttl >= millis - 1
  {
    var every := millis * NS_PER_MS;
    if ttl >= millis - 1 {
      forall es: seq<Event>, i: nat, j: nat, a1: nat, a2: nat
        | && After(es).Some? && i < j && CreatedAt(es, i) && CreatedAt(es, j) && es[i].ttl == ttl
          && ScheduledCall(es[i], namespace, kind, name, every, a1, a1, 0)
          && ScheduledCall(es[j], namespace, kind, name, every, a2, a2, 0)
        ensures a1 / every != a2 / every
      {
        if a1 / every == a2 / every {
          SameWindowIsWithinMillis(millis, a1, a2);
          assert |es[i].key| > 0;
          DuplicateAnswersFirst(es, i, j);
        }
      }
    } else {
      ShortLivedKeysRepeat(namespace, kind, name, every, ttl);
      var es: seq<Event>, at: nat :| |es| == 2 && After(es).Some? && CreatedAt(es, 0) && CreatedAt(es, 1)
        && es[0].ttl == ttl && at / every == 0
        && ScheduledCall(es[0], namespace, kind, name, every, 0, 0, 0)
        && ScheduledCall(es[1], namespace, kind, name, every, at, at, 0);
      assert 0 / every == 0;
    }
  }

  lemma LastMoment(every: nat, ttl: nat)
    requires every >= (ttl + 2) * NS_PER_MS
    ensures every > 0 && (every - 1) / every == 0 && (every - 1) / NS_PER_MS > ttl
  {
  }

  lemma FirstOfKey(kind: string, key: string, ttl: nat) returns (e: Event, s: System)
    requires key != ""
    ensures e == Enqueue(Job(0, kind, "", 0, 0, 1, 0, key), key, 0, 0, ttl) && After([e]) == Some(s) && WellFormed(s)
    ensures CreatedAt([e], 0) && s.store.keys == map[key := KeyEntry(0, ttl)] && s.clock == 0 && s.used == {0}
  {
    e := Enqueue(Job(0, kind, "", 0, 0, 1, 0, key), key, 0, 0, ttl);
    assert After([]) == Some(START) && WellFormed(START) && Enabled(START, e);
    Extend([], START, e);
    s := Step(START, e);
    assert [] + [e] == [e] && [e][..0] == [];
  }

  /** Two enqueues under one key create two jobs when the second comes after its end. */
  lemma ExpiredKeyRepeats(kind: string, key: string, ttl: nat, late: nat) returns (es: seq<Event>)
    requires late > ttl && key != ""
    ensures |es| == 2 && After(es).Some? && CreatedAt(es, 0) && CreatedAt(es, 1)
    ensures es[0].key == key && es[0].ttl == ttl && es[0].clock == 0
    ensures es[1].key == key && es[1].clock == late
  {
    var e0, s1 := FirstOfKey(kind, key, ttl);
    var e1 := Enqueue(Job(1, kind, "", 0, 0, 1, 0, key), key, late, late, ttl);
    Extend([e0], s1, e1);
    es := [e0, e1];
    assert [e0] + [e1] == es && es[..1] == [e0] && es[..0] == [] && [e0][..0] == [];
  }
}
