/** The panel's request limiter: fixed one-minute windows per key, with eviction of old windows. */
module RateLimiter {

  /** Nanoseconds; 0 is Go's zero time. */
  type Time = int

  const MINUTE: Time := 60_000_000_000

  datatype Bucket = Bucket(count: int, resetAt: Time)

  type Buckets = map<string, Bucket>

  datatype Call = Call(key: string, limit: int, now: Time)

  function EffectiveLimit(limit: int): int {
    if limit < 1 then 300 else limit
  }

  predicate Expired(b: Bucket, now: Time) {
    now > b.resetAt + MINUTE
  }

  function Evict(bs: Buckets, now: Time): Buckets {
    map k | k in bs && !Expired(bs[k], now) :: bs[k]
  }

  /** The bucket of `key` after one more request. */
  function Hit(bs: Buckets, key: string, now: Time): Bucket {
    var b := if key in bs then bs[key] else Bucket(0, 0);
    var b := if b.resetAt == 0 || now >= b.resetAt then Bucket(0, now + MINUTE) else b;
    b.(count := b.count + 1)
  }

  function After(bs: Buckets, c: Call): Buckets {
    bs[c.key := Hit(bs, c.key, c.now)]
  }

  predicate Allowed(bs: Buckets, c: Call) {
    Hit(bs, c.key, c.now).count <= EffectiveLimit(c.limit)
  }

  class PanelRateLimiter {
    var buckets: Buckets

    constructor ()
      ensures buckets == map[]
    {
      buckets := map[];
    }

    method Allow(key: string, limit: int, now: Time) returns (ok: bool)
      modifies this
      ensures ok == Allowed(Evict(old(buckets), now), Call(key, limit, now))
      ensures buckets == After(Evict(old(buckets), now), Call(key, limit, now))
      // Every window left began within the last two minutes.
      ensures forall k | k in buckets :: now - 2 * MINUTE <= buckets[k].resetAt - MINUTE
    {
      var limit := if limit < 1 then 300 else limit;
      var keys := buckets.Keys;
      while keys != {}
        invariant keys <= old(buckets).Keys
        invariant buckets == map k | k in old(buckets) && (k in keys || !Expired(old(buckets)[k], now)) :: old(buckets)[k]
        decreases keys
      {
        var itemKey :| itemKey in keys;
        if now > buckets[itemKey].resetAt + MINUTE {
          buckets := buckets - {itemKey};
        }
        keys := keys - {itemKey};
      }
      assert buckets == Evict(old(buckets), now);
      var bucket := if key in buckets then buckets[key] else Bucket(0, 0);
      if bucket.resetAt == 0 || now >= bucket.resetAt {
        bucket := Bucket(0, now + MINUTE);
      }
      bucket := bucket.(count := bucket.count + 1);
      buckets := buckets[key := bucket];
      ok := bucket.count <= limit;
    }
  }

  // ---- Whole runs, with and without eviction ----

  function EvictingState(bs: Buckets, calls: seq<Call>): Buckets
    decreases calls
  {
    if calls == [] then bs else EvictingState(After(Evict(bs, calls[0].now), calls[0]), calls[1..])
  }

  function EvictingRun(bs: Buckets, calls: seq<Call>): (ds: seq<bool>)
    ensures |ds| == |calls|
    decreases calls
  {
    if calls == [] then []
    else
      var kept := Evict(bs, calls[0].now);
      [Allowed(kept, calls[0])] + EvictingRun(After(kept, calls[0]), calls[1..])
  }

  /** A counter per key that forgets nothing: the reference. */
  function PlainState(bs: Buckets, calls: seq<Call>): Buckets
    decreases calls
  {
    if calls == [] then bs else PlainState(After(bs, calls[0]), calls[1..])
  }

  function PlainRun(bs: Buckets, calls: seq<Call>): (ds: seq<bool>)
    ensures |ds| == |calls|
    decreases calls
  {
    if calls == [] then [] else [Allowed(bs, calls[0])] + PlainRun(After(bs, calls[0]), calls[1..])
  }

  /** No call comes more than a minute and a nanosecond before an earlier one; `latest` is the maximum
      so far. */
  predicate Steady(calls: seq<Call>, latest: Time) {
    calls == [] ||
    (calls[0].now >= latest - MINUTE - 1 &&
     Steady(calls[1..], if calls[0].now > latest then calls[0].now else latest))
  }

  /** The evicting map holds the reference's buckets, minus some that ended over a minute ago. */
  predicate Shadows(kept: Buckets, all: Buckets, latest: Time) {
    && (forall k | k in kept :: k in all && all[k] == kept[k])
    && (forall k | k in all && k !in kept :: all[k].resetAt + MINUTE < latest)
  }

  lemma ShadowStep(kept: Buckets, all: Buckets, latest: Time, c: Call)
    requires Shadows(kept, all, latest) && c.now >= latest - MINUTE - 1
    ensures var latest' := if c.now > latest then c.now else latest;
            var kept' := Evict(kept, c.now);
            && Allowed(kept', c) == Allowed(all, c)
            && Shadows(After(kept', c), After(all, c), latest')
  {
  }

  lemma {:induction false} ShadowRun(kept: Buckets, all: Buckets, latest: Time, calls: seq<Call>)
    requires Shadows(kept, all, latest) && Steady(calls, latest)
    ensures EvictingRun(kept, calls) == PlainRun(all, calls)
    decreases calls
  {
    hide Allowed, After, Evict, Shadows;
    if calls != [] {
      var c := calls[0];
      ShadowStep(kept, all, latest, c);
      ShadowRun(After(Evict(kept, c.now), c), After(all, c), if c.now > latest then c.now else latest, calls[1..]);
    }
  }

  /** Eviction is invisible: the same decisions, call by call, as counters that are never deleted. */
  lemma EvictionIsInvisible(calls: seq<Call>)
    requires calls != [] ==> Steady(calls, calls[0].now)
    ensures EvictingRun(map[], calls) == PlainRun(map[], calls)
  {
    if calls != [] {
      ShadowRun(map[], map[], calls[0].now, calls);
    }
  }

  /** The bound is sharp: for every larger step back, from one nanosecond more on, there is a run on which
      eviction shows, because it reopened a window that had not ended. */
  lemma FurtherBackShows(start: Time, back: Time)
    requires start > 0 && back >= MINUTE + 2
    ensures var latest := start + 2 * MINUTE + 1;
            var calls := [Call("a", 1, start), Call("b", 1, latest), Call("a", 1, latest - back)];
            && EvictingRun(map[], calls) == [true, true, true]
            && PlainRun(map[], calls) == [true, true, false]
  {
    var latest := start + 2 * MINUTE + 1;
    var a1, b, a2 := Call("a", 1, start), Call("b", 1, latest), Call("a", 1, latest - back);
    assert [a1, b, a2][1..] == [b, a2] && [b, a2][1..] == [a2] && [a2][1..] == [];
    var bs1: Buckets := map["a" := Bucket(1, start + MINUTE)];
    assert After(map[], a1) == bs1 && Evict(map[], a1.now) == map[];
    var bs2: Buckets := map["b" := Bucket(1, latest + MINUTE)];
    assert Evict(bs1, b.now) == map[] && After(map[], b) == bs2;
    assert Evict(bs2, a2.now) == bs2;
    assert "a" != "b" by { assert "a"[0] != "b"[0]; }
    assert EvictingRun(bs2, [a2]) == [true];
    assert EvictingRun(bs1, [b, a2]) == [true, true];
    assert PlainRun(After(bs1, b), [a2]) == [false];
    assert PlainRun(bs1, [b, a2]) == [true, false];
  }

  // ---- At most twice the limit in any minute ----

  /** How many of the calls for `key` were allowed. */
  function Admitted(calls: seq<Call>, ds: seq<bool>, key: string): nat
    requires |calls| == |ds|
    decreases calls
  {
    if calls == [] then 0
    else (if calls[0].key == key && ds[0] then 1 else 0) + Admitted(calls[1..], ds[1..], key)
  }

  /** Calls in time order between `from` and `to`, all under the same limit. */
  predicate Orderly(calls: seq<Call>, limit: int, from: Time, to: Time) {
    calls == [] ||
    (calls[0].limit == limit && from <= calls[0].now <= to && Orderly(calls[1..], limit, calls[0].now, to))
  }

  function Room(b: Bucket, limit: int): nat {
    if b.count < limit then limit - b.count else 0
  }

  /** An upper bound on what can still be admitted from `from` to `to`. */
  function Potential(bs: Buckets, key: string, limit: int, from: Time, to: Time): nat
    requires limit >= 1
  {
    if key !in bs || bs[key].resetAt == 0 || bs[key].resetAt <= from then
      (if from == to - MINUTE then 2 * limit else limit)
    else if bs[key].resetAt > to then Room(bs[key], limit)
    else Room(bs[key], limit) + limit
  }

  /** A stored bucket has counted the request that made it. */
  predicate Counted(bs: Buckets) {
    forall k | k in bs :: bs[k].count >= 1
  }

  lemma PotentialStep(bs: Buckets, c: Call, key: string, limit: int, from: Time, to: Time)
    requires limit >= 1 && c.limit == limit && Counted(bs)
    requires 0 < from <= c.now <= to <= from + MINUTE
    ensures var admitted := if c.key == key && Allowed(bs, c) then 1 else 0;
            && Counted(After(bs, c))
            && admitted + Potential(After(bs, c), key, limit, c.now, to) <= Potential(bs, key, limit, from, to)
  {
  }

  lemma {:induction false} AdmittedBound(bs: Buckets, calls: seq<Call>, key: string, limit: int, from: Time, to: Time)
    requires limit >= 1 && Counted(bs) && 0 < from && to <= from + MINUTE && Orderly(calls, limit, from, to)
    ensures Admitted(calls, PlainRun(bs, calls), key) <= Potential(bs, key, limit, from, to)
    decreases calls
  {
    hide Allowed, After, Potential, Counted;
    if calls != [] {
      var c := calls[0];
      PotentialStep(bs, c, key, limit, from, to);
      AdmittedBound(After(bs, c), calls[1..], key, limit, c.now, to);
    }
  }

  lemma {:induction false} RunConcat(bs: Buckets, a: seq<Call>, b: seq<Call>)
    ensures PlainRun(bs, a + b) == PlainRun(bs, a) + PlainRun(PlainState(bs, a), b)
    decreases a
  {
    hide Allowed, After;
    if a == [] {
      assert a + b == b;
    } else {
      assert (a + b)[1..] == a[1..] + b;
      RunConcat(After(bs, a[0]), a[1..], b);
    }
  }

  lemma {:induction false} StateCounted(bs: Buckets, calls: seq<Call>)
    requires Counted(bs)
    ensures Counted(PlainState(bs, calls))
    decreases calls
  {
    if calls != [] {
      StateCounted(After(bs, calls[0]), calls[1..]);
    }
  }

  lemma {:induction false} OrderlyIsSteady(calls: seq<Call>, limit: int, from: Time, to: Time, latest: Time)
    requires Orderly(calls, limit, from, to) && latest <= from
    ensures Steady(calls, latest)
    decreases calls
  {
    if calls != [] {
      OrderlyIsSteady(calls[1..], limit, calls[0].now, to, calls[0].now);
    }
  }

  lemma {:induction false} OrderlyMiddle(before: seq<Call>, minute: seq<Call>, after: seq<Call>, limit: int, from: Time, to: Time)
    returns (start: Time)
    requires Orderly(before + minute + after, limit, from, to)
    ensures from <= start && Orderly(minute + after, limit, start, to)
    decreases before
  {
    var all := before + minute + after;
    if before == [] {
      assert all == minute + after;
      start := from;
    } else {
      assert all[1..] == before[1..] + minute + after;
      start := OrderlyMiddle(before[1..], minute, after, limit, all[0].now, to);
    }
  }

  lemma {:induction false} OrderlyUntil(minute: seq<Call>, after: seq<Call>, limit: int, from: Time, to: Time, last: Time)
    requires Orderly(minute + after, limit, from, to)
    requires forall i | 0 <= i < |minute| :: minute[i].now <= last
    ensures Orderly(minute, limit, from, last)
    decreases minute
  {
    if minute != [] {
      assert (minute + after)[1..] == minute[1..] + after;
      OrderlyUntil(minute[1..], after, limit, minute[0].now, to, last);
    }
  }

  /** The calls of any stretch of a run admit no more than its start leaves room for. */
  lemma StretchBound(before: seq<Call>, minute: seq<Call>, after: seq<Call>, key: string, limit: int, from: Time,
                     to: Time, last: Time)
    requires limit >= 1 && 0 < from && Orderly(before + minute + after, limit, from, to)
    requires minute != [] && last <= minute[0].now + MINUTE
    requires forall i | 0 <= i < |minute| :: minute[i].now <= last
    ensures var ds := EvictingRun(map[], before + minute + after);
            var bs := PlainState(map[], before);
            && Counted(bs)
            && Admitted(minute, ds[|before|..|before| + |minute|], key) <=
               Potential(bs, key, limit, minute[0].now, last)
  {
    hide Allowed, After, Evict, Potential;
    var all := before + minute + after;
    OrderlyIsSteady(all, limit, from, to, from);
    SteadyLater(all, from);
    EvictionIsInvisible(all);
    var start := OrderlyMiddle(before, minute, after, limit, from, to);
    assert before + minute + after == before + (minute + after);
    RunConcat(map[], before, minute + after);
    var bs := PlainState(map[], before);
    RunConcat(bs, minute, after);
    assert PlainRun(map[], all)[|before|..|before| + |minute|] == PlainRun(bs, minute);
    OrderlyUntil(minute, after, limit, start, to, last);
    StateCounted(map[], before);
    AdmittedBound(bs, minute, key, limit, minute[0].now, last);
  }

  /** Under one limit and a clock that never runs backwards, the calls of any minute, both ends included,
      contain at most twice the limit of allowed requests for a key. */
  lemma TwiceTheLimit(before: seq<Call>, minute: seq<Call>, after: seq<Call>, key: string, limit: int, from: Time, to: Time)
    requires limit >= 1 && 0 < from && Orderly(before + minute + after, limit, from, to)
    requires minute != [] && forall i | 0 <= i < |minute| :: minute[i].now <= minute[0].now + MINUTE
    ensures var ds := EvictingRun(map[], before + minute + after);
            Admitted(minute, ds[|before|..|before| + |minute|], key) <= 2 * limit
  {
    StretchBound(before, minute, after, key, limit, from, to, minute[0].now + MINUTE);
  }

  /** Without its last instant, one request less. */
  lemma HalfOpenMinute(before: seq<Call>, minute: seq<Call>, after: seq<Call>, key: string, limit: int, from: Time, to: Time)
    requires limit >= 1 && 0 < from && Orderly(before + minute + after, limit, from, to)
    requires minute != [] && forall i | 0 <= i < |minute| :: minute[i].now < minute[0].now + MINUTE
    ensures var ds := EvictingRun(map[], before + minute + after);
            Admitted(minute, ds[|before|..|before| + |minute|], key) <= 2 * limit - 1
  {
    StretchBound(before, minute, after, key, limit, from, to, minute[0].now + MINUTE - 1);
  }

  lemma SteadyLater(calls: seq<Call>, latest: Time)
    requires Steady(calls, latest) && calls != [] && latest <= calls[0].now
    ensures Steady(calls, calls[0].now)
  {
  }

  // ---- Both bounds are reached ----

  function Burst(key: string, limit: int, now: Time, n: nat): (calls: seq<Call>)
    ensures |calls| == n
  {
    if n == 0 then [] else [Call(key, limit, now)] + Burst(key, limit, now, n - 1)
  }

  lemma BurstRest(key: string, limit: int, now: Time, n: nat)
    requires n > 0
    ensures var calls := Burst(key, limit, now, n);
            calls[0] == Call(key, limit, now) && calls[1..] == Burst(key, limit, now, n - 1)
  {
  }

  lemma {:induction false} AdmittedConcat(a: seq<Call>, da: seq<bool>, b: seq<Call>, db: seq<bool>, key: string)
    requires |a| == |da| && |b| == |db|
    ensures Admitted(a + b, da + db, key) == Admitted(a, da, key) + Admitted(b, db, key)
    decreases a
  {
    if a == [] {
      assert a + b == b && da + db == db;
    } else {
      assert (a + b)[1..] == a[1..] + b && (da + db)[1..] == da[1..] + db;
      AdmittedConcat(a[1..], da[1..], b, db, key);
    }
  }

  /** A burst into an open window with room for it is admitted as a whole. */
  lemma {:induction false} BurstFits(bs: Buckets, key: string, limit: int, now: Time, n: nat)
    requires limit >= 1 && key in bs && bs[key].resetAt != 0 && now < bs[key].resetAt && bs[key].count + n <= limit
    ensures Admitted(Burst(key, limit, now, n), PlainRun(bs, Burst(key, limit, now, n)), key) == n
    ensures PlainState(bs, Burst(key, limit, now, n)) == bs[key := Bucket(bs[key].count + n, bs[key].resetAt)]
    decreases n
  {
    var calls := Burst(key, limit, now, n);
    if n == 0 {
      assert bs[key := bs[key]] == bs;
    } else {
      var next := bs[key := Bucket(bs[key].count + 1, bs[key].resetAt)];
      assert calls[1..] == Burst(key, limit, now, n - 1);
      assert After(bs, calls[0]) == next && Allowed(bs, calls[0]);
      BurstFits(next, key, limit, now, n - 1);
      assert next[key := Bucket(bs[key].count + n, bs[key].resetAt)] == bs[key := Bucket(bs[key].count + n, bs[key].resetAt)];
    }
  }

  lemma RunUnfolds(bs: Buckets, calls: seq<Call>, key: string)
    requires calls != []
    ensures var next := After(bs, calls[0]);
            && PlainState(bs, calls) == PlainState(next, calls[1..])
            && Admitted(calls, PlainRun(bs, calls), key) ==
               (if calls[0].key == key && Allowed(bs, calls[0]) then 1 else 0)
               + Admitted(calls[1..], PlainRun(next, calls[1..]), key)
  {
    hide After, Allowed;
  }

  /** A burst of up to the limit that opens a new window. */
  lemma BurstOpens(bs: Buckets, key: string, limit: int, now: Time, n: nat)
    requires 1 <= n <= limit && now > 0 && (key in bs ==> bs[key].resetAt == 0 || bs[key].resetAt <= now)
    ensures Admitted(Burst(key, limit, now, n), PlainRun(bs, Burst(key, limit, now, n)), key) == n
    ensures PlainState(bs, Burst(key, limit, now, n)) == bs[key := Bucket(n, now + MINUTE)]
  {
    hide PlainRun, PlainState, Admitted, Burst, After, Allowed;
    var calls := Burst(key, limit, now, n);
    var next := bs[key := Bucket(1, now + MINUTE)];
    RunUnfolds(bs, calls, key);
    BurstRest(key, limit, now, n);
    FirstOpens(bs, Call(key, limit, now));
    BurstFits(next, key, limit, now, n - 1);
    SameKeyAgain(bs, key, Bucket(1, now + MINUTE), Bucket(n, now + MINUTE));
  }

  lemma FirstOpens(bs: Buckets, c: Call)
    requires c.limit >= 1 && (c.key in bs ==> bs[c.key].resetAt == 0 || bs[c.key].resetAt <= c.now)
    ensures After(bs, c) == bs[c.key := Bucket(1, c.now + MINUTE)] && Allowed(bs, c)
  {
  }

  lemma SameKeyAgain(bs: Buckets, key: string, a: Bucket, b: Bucket)
    ensures bs[key := a][key := b] == bs[key := b]
  {
  }

  /** Two bursts after each other, as the evicting limiter sees them. */
  lemma {:induction false} TwoBursts(bs: Buckets, key: string, limit: int, first: Time, m: nat, second: Time, n: nat)
    requires first <= second
    ensures var a, b := Burst(key, limit, first, m), Burst(key, limit, second, n);
            && Orderly(a + b, limit, first, second)
            && EvictingRun(bs, a + b) == PlainRun(bs, a) + PlainRun(PlainState(bs, a), b)
  {
    var a, b := Burst(key, limit, first, m), Burst(key, limit, second, n);
    BurstsOrderly(key, limit, first, m, second, n);
    OrderlyIsSteady(a + b, limit, first, second, first);
    ShadowRun(bs, bs, first, a + b);
    RunConcat(bs, a, b);
  }

  lemma {:induction false} BurstsOrderly(key: string, limit: int, first: Time, m: nat, second: Time, n: nat)
    requires first <= second
    ensures Orderly(Burst(key, limit, first, m) + Burst(key, limit, second, n), limit, first, second)
    decreases m, n
  {
    var a, b := Burst(key, limit, first, m), Burst(key, limit, second, n);
    if m > 0 {
      assert (a + b)[1..] == Burst(key, limit, first, m - 1) + b;
      BurstsOrderly(key, limit, first, m - 1, second, n);
    } else if n > 0 {
      assert (a + b)[1..] == Burst(key, limit, second, 0) + Burst(key, limit, second, n - 1);
      BurstsOrderly(key, limit, second, 0, second, n - 1);
    }
  }

  /** For every limit: a burst at the first instant of a minute and one at the last. */
  lemma TwiceIsReached(key: string, limit: nat, start: Time)
    requires limit >= 1 && start > 0
    ensures var calls := Burst(key, limit, start, limit) + Burst(key, limit, start + MINUTE, limit);
            && Orderly(calls, limit, start, start + MINUTE)
            && Admitted(calls, EvictingRun(map[], calls), key) == 2 * limit
  {
    hide Burst;
    var a, b := Burst(key, limit, start, limit), Burst(key, limit, start + MINUTE, limit);
    TwoBursts(map[], key, limit, start, limit, start + MINUTE, limit);
    BurstOpens(map[], key, limit, start, limit);
    var bs := PlainState(map[], a);
    BurstOpens(bs, key, limit, start + MINUTE, limit);
    AdmittedConcat(a, PlainRun(map[], a), b, PlainRun(bs, b), key);
  }

  /** For every limit: one request opens a window, the rest of it and a whole new one follow within two
      nanoseconds. */
  lemma HalfOpenIsReached(key: string, limit: nat, start: Time)
    requires limit >= 1 && start > 0
    ensures var bs := map[key := Bucket(1, start + MINUTE)];
            var calls := Burst(key, limit, start + MINUTE - 1, limit - 1) + Burst(key, limit, start + MINUTE, limit);
            && bs == EvictingState(map[], [Call(key, limit, start)])
            && Orderly(calls, limit, start + MINUTE - 1, start + MINUTE)
            && Admitted(calls, EvictingRun(bs, calls), key) == 2 * limit - 1
  {
    hide Burst;
    var bs: Buckets := map[key := Bucket(1, start + MINUTE)];
    assert Evict(map[], start) == map[] && After(map[], Call(key, limit, start)) == bs;
    assert [Call(key, limit, start)][1..] == [];
    var a, b := Burst(key, limit, start + MINUTE - 1, limit - 1), Burst(key, limit, start + MINUTE, limit);
    TwoBursts(bs, key, limit, start + MINUTE - 1, limit - 1, start + MINUTE, limit);
    BurstFits(bs, key, limit, start + MINUTE - 1, limit - 1);
    var bs' := PlainState(bs, a);
    BurstOpens(bs', key, limit, start + MINUTE, limit);
    AdmittedConcat(a, PlainRun(bs, a), b, PlainRun(bs', b), key);
  }

  // ---- When the limit itself is the bound ----

  /** The key's window is open, still has room, and ends by `to`. */
  predicate EndsWithRoom(bs: Buckets, key: string, limit: int, from: Time, to: Time) {
    key in bs && from < bs[key].resetAt <= to && bs[key].count < limit
  }

  /** Whatever is called from `from` to `to`, less than a minute apart: at most the limit is admitted,
      exactly when no window that still has room ends in between. */
  lemma AtMostTheLimitIff(bs: Buckets, key: string, limit: nat, from: Time, to: Time)
    requires limit >= 1 && Counted(bs) && 0 < from <= to < from + MINUTE
    ensures (forall calls :: Orderly(calls, limit, from, to) ==> Admitted(calls, EvictingRun(bs, calls), key) <= limit)
            <==> !EndsWithRoom(bs, key, limit, from, to)
  {
    hide Burst;
    if EndsWithRoom(bs, key, limit, from, to) {
      LimitIsPassed(bs, key, limit, from, to);
    } else {
      forall calls | Orderly(calls, limit, from, to)
        ensures Admitted(calls, EvictingRun(bs, calls), key) <= limit
      {
        OrderlyIsSteady(calls, limit, from, to, from);
        ShadowRun(bs, bs, from, calls);
        AdmittedBound(bs, calls, key, limit, from, to);
      }
    }
  }

  lemma LimitIsPassed(bs: Buckets, key: string, limit: nat, from: Time, to: Time)
    requires limit >= 1 && Counted(bs) && 0 < from <= to && EndsWithRoom(bs, key, limit, from, to)
    ensures exists calls :: Orderly(calls, limit, from, to) && Admitted(calls, EvictingRun(bs, calls), key) > limit
  {
    hide Burst;
    var end := bs[key].resetAt;
    var a, b := Burst(key, limit, from, 1), Burst(key, limit, end, limit);
    TwoBursts(bs, key, limit, from, 1, end, limit);
    BurstFits(bs, key, limit, from, 1);
    var bs' := PlainState(bs, a);
    BurstOpens(bs', key, limit, end, limit);
    AdmittedConcat(a, PlainRun(bs, a), b, PlainRun(bs', b), key);
    OrderlyLonger(a + b, limit, from, end, to);
  }

  lemma {:induction false} OrderlyLonger(calls: seq<Call>, limit: int, from: Time, to: Time, later: Time)
    requires Orderly(calls, limit, from, to) && to <= later
    ensures Orderly(calls, limit, from, later)
    decreases calls
  {
    if calls != [] {
      OrderlyLonger(calls[1..], limit, calls[0].now, to, later);
    }
  }

  // ---- One key at a time ----

  function OfKey(calls: seq<Call>, key: string): seq<Call>
    decreases calls
  {
    if calls == [] then [] else (if calls[0].key == key then [calls[0]] else []) + OfKey(calls[1..], key)
  }

  /** The decisions on the calls of one key. */
  function Decisions(calls: seq<Call>, ds: seq<bool>, key: string): seq<bool>
    requires |calls| == |ds|
    decreases calls
  {
    if calls == [] then []
    else (if calls[0].key == key then [ds[0]] else []) + Decisions(calls[1..], ds[1..], key)
  }

  /** What is decided for a key does not depend on the calls of other keys, nor on their counters. */
  lemma {:induction false} KeysDoNotMix(bs: Buckets, alone: Buckets, calls: seq<Call>, key: string)
    requires (key in bs <==> key in alone) && (key in bs ==> bs[key] == alone[key])
    ensures Decisions(calls, PlainRun(bs, calls), key) == PlainRun(alone, OfKey(calls, key))
    decreases calls
  {
    hide Hit, EffectiveLimit;
    if calls != [] {
      var c := calls[0];
      SameHit(bs, alone, c, key);
      assert PlainRun(bs, calls)[1..] == PlainRun(After(bs, c), calls[1..]);
      if c.key == key {
        KeysDoNotMix(After(bs, c), After(alone, c), calls[1..], key);
        assert OfKey(calls, key) == [c] + OfKey(calls[1..], key);
      } else {
        KeysDoNotMix(After(bs, c), alone, calls[1..], key);
        assert OfKey(calls, key) == [] + OfKey(calls[1..], key) == OfKey(calls[1..], key);
      }
    }
  }

  lemma SameHit(bs: Buckets, alone: Buckets, c: Call, key: string)
    requires (key in bs <==> key in alone) && (key in bs ==> bs[key] == alone[key])
    ensures c.key == key ==> Hit(bs, key, c.now) == Hit(alone, key, c.now)
  {
  }

  // ---- Limits that are not given ----

  /** The calls with 300 in the place of every limit below one. */
  function Given(calls: seq<Call>): (given: seq<Call>)
    ensures |given| == |calls|
    ensures forall i | 0 <= i < |calls| :: given[i] == if calls[i].limit < 1 then calls[i].(limit := 300) else calls[i]
  {
    seq(|calls|, i requires 0 <= i < |calls| => if calls[i].limit < 1 then calls[i].(limit := 300) else calls[i])
  }

  lemma {:induction false} DefaultLimit(bs: Buckets, calls: seq<Call>)
    ensures EvictingRun(bs, calls) == EvictingRun(bs, Given(calls))
    decreases calls
  {
    hide Evict, Hit;
    if calls != [] {
      assert Given(calls)[1..] == Given(calls[1..]);
      DefaultLimit(After(Evict(bs, calls[0].now), calls[0]), calls[1..]);
    }
  }

  /** A first request opens a window of sixty seconds. */
  lemma FirstWindow(bs: Buckets, c: Call)
    requires c.key !in bs
    ensures After(bs, c) == bs[c.key := Bucket(1, c.now + 60 * 1_000_000_000)]
  {
  }
}
