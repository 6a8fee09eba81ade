/** The token-bucket limiter. Tokens are reals here, where the program uses float64;
    instants are nanoseconds. */
module RateLimiter {

  const IDLE: int := 600_000_000_000
  const CROWDED: int := 10000

  datatype Limits = Limits(rate: real, burst: real) {
    predicate Valid() {
      rate >= 0.0 && burst >= 0.0
    }

    /** An idle bucket is full again by the time it may be evicted. */
    predicate RefillsWhileIdle() {
      Valid() && Refilled(IDLE) >= burst
    }

    /** Tokens gained over some nanoseconds. */
    function Refilled(elapsed: int): real {
      elapsed as real / 1_000_000_000.0 * rate
    }
  }

  datatype Bucket = Bucket(tokens: real, last: int)

  type Buckets = map<string, Bucket>

  function Refill(l: Limits, b: Bucket, now: int): Bucket {
    var tokens := b.tokens + l.Refilled(now - b.last);
    Bucket(if tokens > l.burst then l.burst else tokens, now)
  }

  predicate Stale(b: Bucket, now: int) {
    now - b.last > IDLE
  }

  function Swept(bs: Buckets, now: int): Buckets {
    map k | k in bs && !Stale(bs[k], now) :: bs[k]
  }

  /** The bucket a call sees, refilled. */
  function BucketFor(l: Limits, bs: Buckets, key: string, now: int): Bucket {
    Refill(l, if key in bs then bs[key] else Bucket(l.burst, now), now)
  }

  /** One call: the new buckets and the answer. `evicting` is the limiter as it is; without
      it no bucket is ever dropped. */
  function Decide(l: Limits, evicting: bool, bs: Buckets, key: string, now: int): (Buckets, bool) {
    var kept := if evicting && key !in bs && |bs| > CROWDED then Swept(bs, now) else bs;
    var b := BucketFor(l, bs, key, now);
    if b.tokens < 1.0 then (kept[key := b], false)
    else (kept[key := b.(tokens := b.tokens - 1.0)], true)
  }

  class Limiter {
    const limits: Limits
    var buckets: Buckets

    constructor (rate: real, burst: real)
      ensures limits == Limits(rate, burst) && buckets == map[]
    {
      limits := Limits(rate, burst);
      buckets := map[];
    }

    method Allow(key: string, now: int) returns (ok: bool)
      modifies this
      ensures (buckets, ok) == Decide(limits, true, old(buckets), key, now)
    {
      ghost var kept := buckets;
      if key !in buckets {
        if |buckets| > CROWDED {
          Sweep(now);
          kept := buckets;
        }
        buckets := buckets[key := Bucket(limits.burst, now)];
      }
      var b := buckets[key];
      b := b.(tokens := b.tokens + limits.Refilled(now - b.last));
      if b.tokens > limits.burst {
        b := b.(tokens := limits.burst);
      }
      b := b.(last := now);
      ok := b.tokens >= 1.0;
      if ok {
        b := b.(tokens := b.tokens - 1.0);
      }
      assert b == Refill(limits, buckets[key], now).(tokens := b.tokens);
      buckets := buckets[key := b];
      assert buckets == kept[key := b];
    }

    /** Deletes stale buckets one by one, in any order. */
    method Sweep(now: int)
      modifies this
      ensures buckets == Swept(old(buckets), now)
    {
      ghost var was := buckets;
      var left := buckets.Keys;
      while left != {}
        invariant left <= was.Keys
        invariant forall k :: k in buckets <==> k in was && (k in left || !Stale(was[k], now))
        invariant forall k :: k in buckets ==> buckets[k] == was[k]
        decreases |left|
      {
        var k :| k in left;
        if Stale(buckets[k], now) {
          buckets := buckets - {k};
        }
        left := left - {k};
      }
    }
  }

  // ---- arithmetic of refilling ----

  lemma RefilledAdds(l: Limits, a: int, b: int)
    ensures l.Refilled(a + b) == l.Refilled(a) + l.Refilled(b)
  {
    var x, y := a as real / 1_000_000_000.0, b as real / 1_000_000_000.0;
    assert (a + b) as real / 1_000_000_000.0 == x + y;
    assert (x + y) * l.rate == x * l.rate + y * l.rate;
  }

  lemma RefilledPositive(l: Limits, a: int)
    requires l.Valid() && a >= 0
    ensures l.Refilled(a) >= 0.0
  {
    assert a as real / 1_000_000_000.0 >= 0.0;
  }

  predicate Level(l: Limits, b: Bucket, now: int) {
    0.0 <= b.tokens <= l.burst && b.last <= now
  }

  ghost predicate Levels(l: Limits, bs: Buckets, now: int) {
    forall k :: k in bs ==> Level(l, bs[k], now)
  }

  lemma RefillLevel(l: Limits, b: Bucket, now: int)
    requires l.Valid() && Level(l, b, now)
    ensures Level(l, Refill(l, b, now), now) && Refill(l, b, now).last == now
  {
    RefilledPositive(l, now - b.last);
  }

  lemma StaleIsFull(l: Limits, b: Bucket, now: int)
    requires l.RefillsWhileIdle() && Level(l, b, now) && Stale(b, now)
    ensures Refill(l, b, now) == Bucket(l.burst, now)
  {
    RefilledAdds(l, IDLE, now - b.last - IDLE);
    RefilledPositive(l, now - b.last - IDLE);
  }

  // ---- runs ----

  datatype Call = Call(key: string, at: int)

  ghost predicate Timeline(calls: seq<Call>) {
    forall i, j :: 0 <= i < j < |calls| ==> calls[i].at <= calls[j].at
  }

  function Answers(l: Limits, evicting: bool, bs: Buckets, calls: seq<Call>): (r: seq<bool>)
    decreases |calls|
  {
    if calls == [] then [] else
      var (bs', ok) := Decide(l, evicting, bs, calls[0].key, calls[0].at);
      [ok] + Answers(l, evicting, bs', calls[1..])
  }

  // ---- eviction ----

  /** `some` is `all` without buckets that are stale, hence as good as new. */
  ghost predicate Thinned(l: Limits, some: Buckets, all: Buckets, now: int) {
    && Levels(l, all, now)
    && (forall k :: k in some ==> k in all && some[k] == all[k])
    && (forall k :: k in all && k !in some ==> Stale(all[k], now))
  }

  lemma ThinnedLater(l: Limits, some: Buckets, all: Buckets, now: int, later: int)
    requires Thinned(l, some, all, now) && now <= later
    ensures Thinned(l, some, all, later)
  {
    forall k | k in all
      ensures Level(l, all[k], later)
    {
      assert Level(l, all[k], now);
    }
  }

  lemma SameBucket(l: Limits, some: Buckets, all: Buckets, key: string, now: int)
    requires l.RefillsWhileIdle() && Thinned(l, some, all, now)
    ensures BucketFor(l, some, key, now) == BucketFor(l, all, key, now)
    ensures Level(l, BucketFor(l, all, key, now), now)
  {
    assert l.Refilled(0) == 0.0;
    if key in all {
      assert Level(l, all[key], now);
      RefillLevel(l, all[key], now);
      if key !in some {
        StaleIsFull(l, all[key], now);
      }
    }
  }

  lemma ThinnedStep(l: Limits, some: Buckets, all: Buckets, key: string, now: int)
    requires l.RefillsWhileIdle() && Thinned(l, some, all, now)
    ensures Decide(l, true, some, key, now).1 == Decide(l, false, all, key, now).1
    ensures Thinned(l, Decide(l, true, some, key, now).0, Decide(l, false, all, key, now).0, now)
  {
    SameBucket(l, some, all, key, now);
  }

  lemma {:induction false} EvictionInvisibleFrom(l: Limits, some: Buckets, all: Buckets, calls: seq<Call>)
    requires l.RefillsWhileIdle() && Timeline(calls)
    requires calls != [] ==> Thinned(l, some, all, calls[0].at)
    ensures Answers(l, true, some, calls) == Answers(l, false, all, calls)
    decreases |calls|
  {
    if calls != [] {
      var c := calls[0];
      ThinnedStep(l, some, all, c.key, c.at);
      var some', all' := Decide(l, true, some, c.key, c.at).0, Decide(l, false, all, c.key, c.at).0;
      if |calls| > 1 {
        ThinnedLater(l, some', all', c.at, calls[1].at);
      }
      EvictionInvisibleFrom(l, some', all', calls[1..]);
    }
  }

  /** Dropping idle buckets changes no answer in any run, on any keys, if the limiter
      refills a bucket within the ten minutes it must be idle. */
  lemma EvictionInvisible(l: Limits, calls: seq<Call>)
    requires l.RefillsWhileIdle() && Timeline(calls)
    ensures Answers(l, true, map[], calls) == Answers(l, false, map[], calls)
  {
    EvictionInvisibleFrom(l, map[], map[], calls);
  }

  /** The login limiter: five tries, then one per five seconds. */
  lemma LoginLimiterRefills()
    ensures Limits(0.2, 5.0).RefillsWhileIdle()
  {
    assert IDLE as real / 1_000_000_000.0 == 600.0;
  }

  // ---- keys are independent ----

  function CallsOn(calls: seq<Call>, key: string): seq<Call> {
    if calls == [] then [] else (if calls[0].key == key then [calls[0]] else []) + CallsOn(calls[1..], key)
  }

  function AnswersOn(calls: seq<Call>, answers: seq<bool>, key: string): seq<bool>
    requires |calls| == |answers|
  {
    if calls == [] then []
    else (if calls[0].key == key then [answers[0]] else []) + AnswersOn(calls[1..], answers[1..], key)
  }

  lemma {:induction false} AnswersLength(l: Limits, evicting: bool, bs: Buckets, calls: seq<Call>)
    ensures |Answers(l, evicting, bs, calls)| == |calls|
    decreases |calls|
  {
    if calls != [] {
      AnswersLength(l, evicting, Decide(l, evicting, bs, calls[0].key, calls[0].at).0, calls[1..]);
    }
  }

  predicate AgreeOn(a: Buckets, b: Buckets, key: string) {
    (key in a <==> key in b) && (key in a ==> a[key] == b[key])
  }

  lemma {:induction false} KeysIndependentFrom(l: Limits, a: Buckets, b: Buckets, calls: seq<Call>, key: string)
    requires AgreeOn(a, b, key)
    ensures |Answers(l, false, a, calls)| == |calls|
    ensures AnswersOn(calls, Answers(l, false, a, calls), key) == Answers(l, false, b, CallsOn(calls, key))
    decreases |calls|
  {
    AnswersLength(l, false, a, calls);
    if calls != [] {
      var c := calls[0];
      var a' := Decide(l, false, a, c.key, c.at).0;
      if c.key == key {
        assert CallsOn(calls, key)[1..] == CallsOn(calls[1..], key);
        KeysIndependentFrom(l, a', Decide(l, false, b, c.key, c.at).0, calls[1..], key);
      } else {
        assert CallsOn(calls, key) == CallsOn(calls[1..], key);
        KeysIndependentFrom(l, a', b, calls[1..], key);
      }
    }
  }

  /** A key's answers are those it would get with no other key in the run. */
  lemma KeysIndependent(l: Limits, calls: seq<Call>, key: string)
    requires l.RefillsWhileIdle() && Timeline(calls)
    ensures |Answers(l, true, map[], calls)| == |calls|
    ensures AnswersOn(calls, Answers(l, true, map[], calls), key) == Answers(l, true, map[], CallsOn(calls, key))
  {
    EvictionInvisible(l, calls);
    KeysIndependentFrom(l, map[], map[], calls, key);
    CallsOnTimeline(calls, key);
    EvictionInvisible(l, CallsOn(calls, key));
  }

  lemma {:induction false} CallsOnMembers(calls: seq<Call>, key: string)
    ensures forall i :: 0 <= i < |CallsOn(calls, key)| ==> CallsOn(calls, key)[i] in calls
  {
    if calls != [] {
      CallsOnMembers(calls[1..], key);
    }
  }

  lemma {:induction false} CallsOnTimeline(calls: seq<Call>, key: string)
    requires Timeline(calls)
    ensures Timeline(CallsOn(calls, key))
  {
    if calls != [] {
      var rest := CallsOn(calls[1..], key);
      CallsOnTimeline(calls[1..], key);
      CallsOnMembers(calls[1..], key);
      forall i | 0 <= i < |rest|
        ensures calls[0].at <= rest[i].at
      {
        var k :| 0 <= k < |calls[1..]| && calls[1..][k] == rest[i];
        assert calls[k + 1] == rest[i];
      }
    }
  }

  // ---- the window bound ----

  /** Calls on the key between the two instants that were let through. */
  function Let(calls: seq<Call>, answers: seq<bool>, key: string, from: int, to: int): nat
    requires |calls| == |answers|
  {
    if calls == [] then 0 else
      (if calls[0].key == key && from <= calls[0].at <= to && answers[0] then 1 else 0)
      + Let(calls[1..], answers[1..], key, from, to)
  }

  /** What the key could spend at an instant. */
  function Budget(l: Limits, bs: Buckets, key: string, now: int): real {
    BucketFor(l, bs, key, now).tokens
  }

  lemma BudgetGrows(l: Limits, bs: Buckets, key: string, now: int, later: int)
    requires l.Valid() && Levels(l, bs, now) && now <= later
    ensures 0.0 <= Budget(l, bs, key, now) <= l.burst
    ensures Budget(l, bs, key, later) <= Budget(l, bs, key, now) + l.Refilled(later - now)
  {
    assert l.Refilled(0) == 0.0;
    RefilledPositive(l, later - now);
    if key in bs {
      assert Level(l, bs[key], now);
      RefillLevel(l, bs[key], now);
      RefilledAdds(l, now - bs[key].last, later - now);
    }
  }

  lemma AllowLevels(l: Limits, evicting: bool, bs: Buckets, key: string, now: int)
    requires l.Valid() && Levels(l, bs, now)
    ensures Levels(l, Decide(l, evicting, bs, key, now).0, now)
  {
    assert l.Refilled(0) == 0.0;
    if key in bs {
      assert Level(l, bs[key], now);
      RefillLevel(l, bs[key], now);
    }
  }

  /** The buckets after some calls. */
  function After(l: Limits, bs: Buckets, calls: seq<Call>): Buckets
    decreases |calls|
  {
    if calls == [] then bs
    else After(l, Decide(l, true, bs, calls[0].key, calls[0].at).0, calls[1..])
  }

  /** No bucket ever leaves [0, burst], nor runs ahead of the clock. */
  lemma {:induction false} TokensBounded(l: Limits, bs: Buckets, calls: seq<Call>, now: int)
    requires l.Valid() && Timeline(calls) && Levels(l, bs, now)
    requires calls != [] ==> now <= calls[0].at
    ensures Levels(l, After(l, bs, calls), if calls == [] then now else calls[|calls| - 1].at)
    decreases |calls|
  {
    if calls != [] {
      LevelsLater(l, bs, now, calls[0].at);
      AllowLevels(l, true, bs, calls[0].key, calls[0].at);
      TokensBounded(l, Decide(l, true, bs, calls[0].key, calls[0].at).0, calls[1..], calls[0].at);
    }
  }

  lemma SpendOne(l: Limits, bs: Buckets, key: string, c: Call)
    requires l.Valid() && Levels(l, bs, c.at)
    ensures var (bs', ok) := Decide(l, false, bs, c.key, c.at);
            Budget(l, bs', key, c.at) ==
            Budget(l, bs, key, c.at) - (if c.key == key && ok then 1.0 else 0.0)
  {
    assert l.Refilled(0) == 0.0;
    if c.key in bs {
      assert Level(l, bs[c.key], c.at);
      RefillLevel(l, bs[c.key], c.at);
    }
  }

  lemma LevelsLater(l: Limits, bs: Buckets, now: int, later: int)
    requires Levels(l, bs, now) && now <= later
    ensures Levels(l, bs, later)
  {
    forall k | k in bs
      ensures Level(l, bs[k], later)
    {
      assert Level(l, bs[k], now);
    }
  }

  /** From an instant inside the window on, the budget and what refills bound what is let through. */
  lemma {:induction false} BudgetBound(l: Limits, bs: Buckets, calls: seq<Call>, key: string, now: int, from: int, to: int)
    requires l.Valid() && Timeline(calls) && Levels(l, bs, now) && from <= now <= to
    requires forall i :: 0 <= i < |calls| ==> now <= calls[i].at
    ensures |Answers(l, false, bs, calls)| == |calls|
    ensures Let(calls, Answers(l, false, bs, calls), key, from, to) as real
            <= Budget(l, bs, key, now) + l.Refilled(to - now)
    decreases |calls|
  {
    AnswersLength(l, false, bs, calls);
    BudgetGrows(l, bs, key, now, now);
    RefilledPositive(l, to - now);
    if calls != [] {
      var c := calls[0];
      var (bs', ok) := Decide(l, false, bs, c.key, c.at);
      if c.at > to {
        NoneAfter(calls, Answers(l, false, bs, calls), key, from, to);
      } else {
        LevelsLater(l, bs, now, c.at);
        AllowLevels(l, false, bs, c.key, c.at);
        BudgetGrows(l, bs, key, now, c.at);
        SpendOne(l, bs, key, c);
        BudgetBound(l, bs', calls[1..], key, c.at, from, to);
        RefilledAdds(l, c.at - now, to - c.at);
      }
    }
  }

  lemma {:induction false} NoneAfter(calls: seq<Call>, answers: seq<bool>, key: string, from: int, to: int)
    requires |calls| == |answers| && forall i :: 0 <= i < |calls| ==> calls[i].at > to
    ensures Let(calls, answers, key, from, to) == 0
  {
    if calls != [] {
      NoneAfter(calls[1..], answers[1..], key, from, to);
    }
  }

  lemma {:induction false} WindowBoundFrom(l: Limits, bs: Buckets, calls: seq<Call>, key: string, now: int, from: int, to: int)
    requires l.Valid() && Timeline(calls) && Levels(l, bs, now) && now <= from <= to
    requires forall i :: 0 <= i < |calls| ==> now <= calls[i].at
    ensures |Answers(l, false, bs, calls)| == |calls|
    ensures Let(calls, Answers(l, false, bs, calls), key, from, to) as real <= l.burst + l.Refilled(to - from)
    decreases |calls|
  {
    AnswersLength(l, false, bs, calls);
    if calls == [] || calls[0].at >= from {
      LevelsLater(l, bs, now, from);
      BudgetBound(l, bs, calls, key, from, from, to);
      BudgetGrows(l, bs, key, from, from);
    } else {
      var c := calls[0];
      LevelsLater(l, bs, now, c.at);
      AllowLevels(l, false, bs, c.key, c.at);
      WindowBoundFrom(l, Decide(l, false, bs, c.key, c.at).0, calls[1..], key, c.at, from, to);
    }
  }

  /** In any run, between any two instants a key gets at most `burst` calls through, plus
      `rate` for each second between them. */
  lemma WindowBound(l: Limits, calls: seq<Call>, key: string, from: int, to: int)
    requires l.RefillsWhileIdle() && Timeline(calls) && from <= to
    ensures |Answers(l, true, map[], calls)| == |calls|
    ensures Let(calls, Answers(l, true, map[], calls), key, from, to) as real <= l.burst + l.Refilled(to - from)
  {
    EvictionInvisible(l, calls);
    var start := if calls == [] || calls[0].at > from then from else calls[0].at;
    WindowBoundFrom(l, map[], calls, key, start, from, to);
  }

  // ---- what is refused ----

  lemma {:induction false} AfterSnoc(l: Limits, bs: Buckets, calls: seq<Call>, c: Call)
    ensures After(l, bs, calls + [c]) == Decide(l, true, After(l, bs, calls), c.key, c.at).0
    decreases |calls|
  {
    if calls == [] {
      assert [] + [c] == [c] && [c][1..] == [];
    } else {
      AfterSnoc(l, Decide(l, true, bs, calls[0].key, calls[0].at).0, calls[1..], c);
      assert (calls + [c])[0] == calls[0] && (calls + [c])[1..] == calls[1..] + [c];
    }
  }

  lemma AnswersCons(l: Limits, bs: Buckets, c: Call, rest: seq<Call>)
    ensures var (bs', ok) := Decide(l, true, bs, c.key, c.at);
            Answers(l, true, bs, [c] + rest) == [ok] + Answers(l, true, bs', rest)
  {
    assert ([c] + rest)[0] == c && ([c] + rest)[1..] == rest;
  }

  lemma {:induction false} AnswersSnoc(l: Limits, bs: Buckets, calls: seq<Call>, c: Call)
    ensures Answers(l, true, bs, calls + [c]) == Answers(l, true, bs, calls) + [Decide(l, true, After(l, bs, calls), c.key, c.at).1]
    decreases |calls|
  {
    if calls == [] {
      assert [] + [c] == [c] + [];
      AnswersCons(l, bs, c, []);
    } else {
      var first, rest := calls[0], calls[1..];
      assert calls == [first] + rest && calls + [c] == [first] + (rest + [c]);
      AnswersCons(l, bs, first, rest + [c]);
      AnswersCons(l, bs, first, rest);
      AnswersSnoc(l, Decide(l, true, bs, first.key, first.at).0, rest, c);
    }
  }

  lemma RunSnoc(l: Limits, bs: Buckets, calls: seq<Call>, c: Call)
    ensures var (bs', ok) := Decide(l, true, After(l, bs, calls), c.key, c.at);
            && Answers(l, true, bs, calls + [c]) == Answers(l, true, bs, calls) + [ok]
            && After(l, bs, calls + [c]) == bs'
  {
    AfterSnoc(l, bs, calls, c);
    AnswersSnoc(l, bs, calls, c);
  }

  lemma {:induction false} LetSnoc(calls: seq<Call>, answers: seq<bool>, c: Call, ok: bool, key: string, from: int, to: int)
    requires |calls| == |answers|
    ensures Let(calls + [c], answers + [ok], key, from, to) ==
            Let(calls, answers, key, from, to) + (if c.key == key && from <= c.at <= to && ok then 1 else 0)
  {
    if calls == [] {
      assert [] + [c] == [c] && [c][1..] == [];
    } else {
      LetSnoc(calls[1..], answers[1..], c, ok, key, from, to);
      assert (calls + [c])[1..] == calls[1..] + [c] && (answers + [ok])[1..] == answers[1..] + [ok];
    }
  }

  lemma {:induction false} LetLater(calls: seq<Call>, answers: seq<bool>, key: string, from: int, to: int, later: int)
    requires |calls| == |answers| && to <= later
    ensures Let(calls, answers, key, from, to) <= Let(calls, answers, key, from, later)
  {
    if calls != [] {
      LetLater(calls[1..], answers[1..], key, from, to, later);
    }
  }

  /** What the key has left covers all it may have since `from`, less what it got. */
  predicate Covered(l: Limits, bs: Buckets, calls: seq<Call>, answers: seq<bool>, key: string, from: int, now: int)
    requires |calls| == |answers|
  {
    from <= now
    && Budget(l, bs, key, now) + Let(calls, answers, key, from, now) as real >= l.burst + l.Refilled(now - from)
  }

  lemma BudgetAfter(l: Limits, bs: Buckets, key: string, c: Call)
    requires l.Valid()
    ensures var (bs', ok) := Decide(l, true, bs, c.key, c.at);
            && Budget(l, bs', key, c.at) >= Budget(l, bs, key, c.at) - (if c.key == key && ok then 1.0 else 0.0)
            && (c.key == key ==> (ok <==> Budget(l, bs, key, c.at) >= 1.0))
  {
    assert l.Refilled(0) == 0.0;
  }

  lemma CoveredCall(l: Limits, bs: Buckets, calls: seq<Call>, answers: seq<bool>, c: Call, key: string, from: int)
    requires l.Valid() && |calls| == |answers| && Covered(l, bs, calls, answers, key, from, c.at)
    ensures var (bs', ok) := Decide(l, true, bs, c.key, c.at);
            Covered(l, bs', calls + [c], answers + [ok], key, from, c.at)
  {
    BudgetAfter(l, bs, key, c);
    LetSnoc(calls, answers, c, Decide(l, true, bs, c.key, c.at).1, key, from, c.at);
  }

  /** A full bucket covers from then on; one that is not has gained all there was to gain. */
  lemma CoveredLater(l: Limits, bs: Buckets, calls: seq<Call>, answers: seq<bool>, key: string, from: int, now: int, later: int)
    requires l.Valid() && |calls| == |answers| && now <= later && Covered(l, bs, calls, answers, key, from, now)
    ensures Covered(l, bs, calls, answers, key, from, later) || Covered(l, bs, calls, answers, key, later, later)
  {
    assert l.Refilled(0) == 0.0;
    LetLater(calls, answers, key, from, now, later);
    RefilledAdds(l, now - from, later - now);
    if key in bs {
      RefilledAdds(l, now - bs[key].last, later - now);
    }
  }

  ghost predicate Accounted(l: Limits, bs: Buckets, calls: seq<Call>, answers: seq<bool>, key: string, now: int)
    requires |calls| == |answers|
  {
    exists from :: Covered(l, bs, calls, answers, key, from, now)
  }

  lemma AccountedCall(l: Limits, bs: Buckets, calls: seq<Call>, answers: seq<bool>, c: Call, key: string, now: int)
    requires l.Valid() && |calls| == |answers| && c.at <= now && Accounted(l, bs, calls, answers, key, c.at)
    ensures var (bs', ok) := Decide(l, true, bs, c.key, c.at);
            Accounted(l, bs', calls + [c], answers + [ok], key, now)
  {
    var from :| Covered(l, bs, calls, answers, key, from, c.at);
    var (bs', ok) := Decide(l, true, bs, c.key, c.at);
    CoveredCall(l, bs, calls, answers, c, key, from);
    CoveredLater(l, bs', calls + [c], answers + [ok], key, from, c.at, now);
  }

  lemma AccountedSnoc(l: Limits, head: seq<Call>, c: Call, key: string, now: int)
    requires l.Valid() && c.at <= now && |Answers(l, true, map[], head)| == |head|
    requires Accounted(l, After(l, map[], head), head, Answers(l, true, map[], head), key, c.at)
    ensures |Answers(l, true, map[], head + [c])| == |head + [c]|
    ensures Accounted(l, After(l, map[], head + [c]), head + [c], Answers(l, true, map[], head + [c]), key, now)
  {
    RunSnoc(l, map[], head, c);
    AccountedCall(l, After(l, map[], head), head, Answers(l, true, map[], head), c, key, now);
  }

  lemma TimelineHead(calls: seq<Call>)
    requires calls != [] && Timeline(calls)
    ensures var n := |calls| - 1;
            Timeline(calls[..n]) && (n > 0 ==> calls[..n][n - 1].at <= calls[n].at)
  {
  }

  lemma {:induction false} RunAccounted(l: Limits, calls: seq<Call>, key: string, now: int)
    requires l.Valid() && Timeline(calls) && (calls != [] ==> calls[|calls| - 1].at <= now)
    ensures |Answers(l, true, map[], calls)| == |calls|
    ensures Accounted(l, After(l, map[], calls), calls, Answers(l, true, map[], calls), key, now)
    decreases |calls|
  {
    if calls == [] {
      assert l.Refilled(0) == 0.0;
      assert Covered(l, map[], [], [], key, now, now);
    } else {
      var head, c := calls[..|calls| - 1], calls[|calls| - 1];
      TimelineHead(calls);
      RunAccounted(l, head, key, c.at);
      AccountedSnoc(l, head, c, key, now);
      assert calls == head + [c];
    }
  }

  /** One more call let through now would be more than the burst and what refills since `from`. */
  predicate Exceeds(l: Limits, calls: seq<Call>, answers: seq<bool>, key: string, from: int, now: int)
    requires |calls| == |answers|
  {
    Let(calls, answers, key, from, now) as real + 1.0 > l.burst + l.Refilled(now - from)
  }

  /** A refused call would have gone over the bound from some instant on. */
  lemma RefusedForCause(l: Limits, calls: seq<Call>, c: Call)
    requires l.Valid() && Timeline(calls + [c])
    ensures |Answers(l, true, map[], calls)| == |calls| && |Answers(l, true, map[], calls + [c])| == |calls| + 1
    ensures !Answers(l, true, map[], calls + [c])[|calls|] ==>
              exists from :: from <= c.at && Exceeds(l, calls, Answers(l, true, map[], calls), c.key, from, c.at)
  {
    var answers := Answers(l, true, map[], calls);
    AnswersLength(l, true, map[], calls + [c]);
    assert calls == (calls + [c])[..|calls|] && (calls + [c])[|calls|] == c;
    assert calls != [] ==> (calls + [c])[|calls| - 1] == calls[|calls| - 1];
    RunAccounted(l, calls, c.key, c.at);
    RunSnoc(l, map[], calls, c);
    BudgetAfter(l, After(l, map[], calls), c.key, c);
    var from :| Covered(l, After(l, map[], calls), calls, answers, c.key, from, c.at);
    assert Budget(l, After(l, map[], calls), c.key, c.at) < 1.0 ==> Exceeds(l, calls, answers, c.key, from, c.at);
  }

  lemma AllowedWithin(l: Limits, calls: seq<Call>, c: Call, from: int)
    requires l.RefillsWhileIdle() && Timeline(calls + [c]) && from <= c.at
    ensures |Answers(l, true, map[], calls)| == |calls| && |Answers(l, true, map[], calls + [c])| == |calls| + 1
    ensures Answers(l, true, map[], calls + [c])[|calls|] ==> !Exceeds(l, calls, Answers(l, true, map[], calls), c.key, from, c.at)
  {
    AnswersLength(l, true, map[], calls);
    AnswersLength(l, true, map[], calls + [c]);
    RunSnoc(l, map[], calls, c);
    WindowBound(l, calls + [c], c.key, from, c.at);
    LetSnoc(calls, Answers(l, true, map[], calls), c, Answers(l, true, map[], calls + [c])[|calls|], c.key, from, c.at);
  }

  /** In any run a call is refused exactly if letting it through would break the bound on what the
      key gets from some earlier instant on: `burst`, and `rate` for each second. */
  lemma RefusedExactly(l: Limits, calls: seq<Call>, c: Call)
    requires l.RefillsWhileIdle() && Timeline(calls + [c])
    ensures |Answers(l, true, map[], calls)| == |calls| && |Answers(l, true, map[], calls + [c])| == |calls| + 1
    ensures !Answers(l, true, map[], calls + [c])[|calls|] <==>
              exists from :: from <= c.at && Exceeds(l, calls, Answers(l, true, map[], calls), c.key, from, c.at)
  {
    RefusedForCause(l, calls, c);
    if Answers(l, true, map[], calls + [c])[|calls|] {
      forall from | from <= c.at
        ensures !Exceeds(l, calls, Answers(l, true, map[], calls), c.key, from, c.at)
      {
        AllowedWithin(l, calls, c, from);
      }
    }
  }

  lemma {:induction false} LetAtMostCalls(calls: seq<Call>, answers: seq<bool>, key: string, from: int, to: int)
    requires |calls| == |answers|
    ensures Let(calls, answers, key, from, to) <= |CallsOn(calls, key)|
  {
    if calls != [] {
      LetAtMostCalls(calls[1..], answers[1..], key, from, to);
    }
  }

  /** The first five tries to log in pass, at whatever times, and whatever others do. */
  lemma FiveTries(calls: seq<Call>, c: Call)
    requires Timeline(calls + [c]) && |CallsOn(calls, c.key)| <= 4
    ensures |Answers(Limits(0.2, 5.0), true, map[], calls + [c])| == |calls| + 1
    ensures Answers(Limits(0.2, 5.0), true, map[], calls + [c])[|calls|]
  {
    var l := Limits(0.2, 5.0);
    RefusedForCause(l, calls, c);
    if !Answers(l, true, map[], calls + [c])[|calls|] {
      var from :| from <= c.at && Exceeds(l, calls, Answers(l, true, map[], calls), c.key, from, c.at);
      LetAtMostCalls(calls, Answers(l, true, map[], calls), c.key, from, c.at);
      RefilledPositive(l, c.at - from);
      assert false;
    }
  }

  // ---- how many buckets there are ----

  /** A new key that comes when there are more than 10000 others leaves no bucket behind that has been
      idle for more than ten minutes, and drops no other. */
  lemma CrowdedIsSwept(l: Limits, bs: Buckets, key: string, now: int, other: string)
    requires key !in bs && |bs| > 10000 && other != key
    ensures other in Decide(l, true, bs, key, now).0 <==> other in bs && now - bs[other].last <= 600_000_000_000
    ensures other in Decide(l, true, bs, key, now).0 ==> Decide(l, true, bs, key, now).0[other] == bs[other]
  {
  }

  /** Otherwise none is dropped. */
  lemma UncrowdedIsKept(l: Limits, bs: Buckets, key: string, now: int)
    requires key in bs || |bs| <= 10000
    ensures Decide(l, true, bs, key, now).0.Keys == bs.Keys + {key}
    ensures forall other :: other in bs && other != key ==> Decide(l, true, bs, key, now).0[other] == bs[other]
  {
  }
}
