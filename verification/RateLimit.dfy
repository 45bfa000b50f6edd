/** The token bucket limiter (aoms/auth.py), with exact arithmetic. */
module RateLimit {
  type Key = string

  datatype Bucket = Bucket(tokens: real, updatedAt: real)

  type Buckets = map<Key, Bucket>

  datatype Call = Call(key: Key, now: real)

  datatype Limits = Limits(rate: real, capacity: nat) {
    predicate Valid() { rate > 0.0 && capacity >= 1 }
  }

  function Min(a: real, b: real): real { if a <= b then a else b }
  function Max(a: real, b: real): real { if a <= b then b else a }

  // ---- what one call does ----

  function Refill(l: Limits, span: real): real { span * l.rate }

  /** What a key may spend at `now`: a key never seen has everything. */
  function Level(l: Limits, buckets: Buckets, key: Key, now: real): real {
    if key !in buckets then l.capacity as real
    else
      var b := buckets[key];
      Min(l.capacity as real, b.tokens + Refill(l, Max(0.0, now - b.updatedAt)))
  }

  predicate Accepts(l: Limits, buckets: Buckets, call: Call) { Level(l, buckets, call.key, call.now) >= 1.0 }

  function After(l: Limits, buckets: Buckets, call: Call): Buckets {
    var level := Level(l, buckets, call.key, call.now);
    buckets[call.key := Bucket(if level >= 1.0 then level - 1.0 else level, call.now)]
  }

  class TokenBucketLimiter {
    const limits: Limits
    var buckets: Buckets

    constructor (rate: real, capacity: nat)
      requires rate > 0.0 && capacity >= 1
      ensures limits == Limits(rate, capacity) && buckets == map[]
    {
      limits := Limits(rate, capacity);
      buckets := map[];
    }

    method Consume(tokenId: Key, now: real) returns (accepted: bool)
      requires limits.Valid()
      modifies this`buckets
      ensures accepted == Accepts(limits, old(buckets), Call(tokenId, now))
      ensures buckets == After(limits, old(buckets), Call(tokenId, now))
    {
      if tokenId !in buckets {
        buckets := buckets[tokenId := Bucket(limits.capacity as real - 1.0, now)];
        return true;
      }
      var bucket := buckets[tokenId];
      var elapsed := Max(0.0, now - bucket.updatedAt);
      bucket := Bucket(Min(limits.capacity as real, bucket.tokens + elapsed * limits.rate), now);
      if bucket.tokens < 1.0 {
        buckets := buckets[tokenId := bucket];
        return false;
      }
      buckets := buckets[tokenId := bucket.(tokens := bucket.tokens - 1.0)];
      return true;
    }
  }

  // ---- runs ----

  function State(l: Limits, calls: seq<Call>): Buckets {
    if calls == [] then map[] else After(l, State(l, calls[..|calls| - 1]), calls[|calls| - 1])
  }

  predicate Accepted(l: Limits, calls: seq<Call>, i: nat)
    requires i < |calls|
  {
    Accepts(l, State(l, calls[..i]), calls[i])
  }

  /** How many calls of `key` among the last ones, from the `i`th on, were accepted. */
  function Spent(l: Limits, calls: seq<Call>, key: Key, i: nat): nat
    requires i <= |calls|
  {
    if i == |calls| then 0
    else
      var n := |calls| - 1;
      Spent(l, calls[..n], key, i) + if calls[n].key == key && Accepted(l, calls, n) then 1 else 0
  }

  predicate ClockRises(calls: seq<Call>) { forall i, j | 0 <= i <= j < |calls| :: calls[i].now <= calls[j].now }

  /** Under any clock, every bucket holds between nothing and the capacity. */
  lemma {:induction false} TokensStayInRange(l: Limits, calls: seq<Call>)
    requires l.Valid()
    ensures forall k | k in State(l, calls) :: 0.0 <= State(l, calls)[k].tokens <= l.capacity as real
  {
    if calls != [] {
      var init, last := calls[..|calls| - 1], calls[|calls| - 1];
      TokensStayInRange(l, init);
      if last.key in State(l, init) {
        RefillNotNegative(l, Max(0.0, last.now - State(l, init)[last.key].updatedAt));
      }
    }
  }

  lemma RefillIs(l: Limits, span: real)
    ensures Refill(l, span) == l.rate * span
  {}

  lemma RefillNotNegative(l: Limits, elapsed: real)
    requires l.Valid() && elapsed >= 0.0
    ensures Refill(l, elapsed) >= 0.0
  {}

  /** The bucket's refill over a stretch of time splits at any point in between. */
  lemma RefillSplits(l: Limits, u: real, t: real, now: real)
    ensures Refill(l, now - u) == Refill(l, t - u) + Refill(l, now - t)
  {}

  /** What a window from time `start` on still allows. */
  function Allowance(l: Limits, start: real, now: real, spent: nat): real {
    l.capacity as real + Refill(l, now - start) - spent as real
  }

  lemma AllowanceLater(l: Limits, start: real, t: real, now: real, spent: nat)
    ensures Allowance(l, start, now, spent) == Allowance(l, start, t, spent) + Refill(l, now - t)
  {
    RefillSplits(l, start, t, now);
  }

  /** After a call at `t`, the caller's level grows by the refill alone, up to the capacity. */
  lemma LevelAfterOwnCall(l: Limits, before: Buckets, call: Call, now: real)
    requires l.Valid() && call.now <= now
    ensures var spent := if Accepts(l, before, call) then 1.0 else 0.0;
            Level(l, After(l, before, call), call.key, now)
            == Min(l.capacity as real, Level(l, before, call.key, call.now) - spent + Refill(l, now - call.now))
  {}

  /** No other key's call touches a bucket. */
  lemma LevelAfterOtherCall(l: Limits, before: Buckets, call: Call, key: Key, now: real)
    requires call.key != key
    ensures Level(l, After(l, before, call), key, now) == Level(l, before, key, now)
  {}

  lemma SpentSnoc(l: Limits, calls: seq<Call>, key: Key, i: nat)
    requires i < |calls|
    ensures var n := |calls| - 1;
            Spent(l, calls, key, i) == Spent(l, calls[..n], key, i)
                                       + if calls[n].key == key && Accepts(l, State(l, calls[..n]), calls[n])
                                         then 1 else 0
  {}

  function Cost(l: Limits, before: Buckets, call: Call): nat { if Accepts(l, before, call) then 1 else 0 }

  ghost predicate Within(l: Limits, b: Buckets, key: Key, now: real, start: real, spent: nat) {
    Level(l, b, key, now) <= Allowance(l, start, now, spent)
  }

  lemma WithinAfterOwnCall(l: Limits, before: Buckets, call: Call, now: real, start: real, spent: nat)
    requires l.Valid() && call.now <= now && Within(l, before, call.key, call.now, start, spent)
    ensures Within(l, After(l, before, call), call.key, now, start, spent + Cost(l, before, call))
  {
    LevelAfterOwnCall(l, before, call, now);
    AllowanceLater(l, start, call.now, now, spent);
  }

  lemma WithinOwnWindow(l: Limits, before: Buckets, call: Call, now: real)
    requires l.Valid() && call.now <= now
    ensures Within(l, After(l, before, call), call.key, now, call.now, Cost(l, before, call))
  {
    LevelAfterOwnCall(l, before, call, now);
  }

  lemma WithinAfterOtherCall(l: Limits, before: Buckets, call: Call, key: Key, now: real, start: real, spent: nat)
    requires call.key != key && Within(l, before, key, now, start, spent)
    ensures Within(l, After(l, before, call), key, now, start, spent)
  {
    LevelAfterOtherCall(l, before, call, key, now);
  }

  lemma WithinOtherWindow(l: Limits, b: Buckets, key: Key, start: real, now: real)
    requires l.Valid() && start <= now
    ensures Within(l, b, key, now, start, 0)
  {
    RefillNotNegative(l, now - start);
    assert Level(l, b, key, now) <= l.capacity as real;
  }

  /** A key's level never exceeds what any window, from any earlier call on, still allows. */
  lemma {:induction false} LevelWithinEveryWindow(l: Limits, calls: seq<Call>, key: Key, i: nat, now: real)
    requires l.Valid() && ClockRises(calls) && i < |calls| && calls[|calls| - 1].now <= now
    ensures Within(l, State(l, calls), key, now, calls[i].now, Spent(l, calls, key, i))
    decreases |calls|
  {
    var n := |calls| - 1;
    var init, last := calls[..n], calls[n];
    var before := State(l, init);
    if last.key == key {
      if i < n {
        LevelWithinEveryWindow(l, init, key, i, last.now);
        WithinAfterOwnCall(l, before, last, now, calls[i].now, Spent(l, init, key, i));
      } else {
        WithinOwnWindow(l, before, last, now);
      }
    } else if i < n {
      LevelWithinEveryWindow(l, init, key, i, now);
      WithinAfterOtherCall(l, before, last, key, now, calls[i].now, Spent(l, init, key, i));
    } else {
      WithinOtherWindow(l, After(l, before, last), key, last.now, now);
    }
  }

  lemma LevelNotNegative(l: Limits, b: Buckets, key: Key, now: real)
    requires l.Valid() && (key in b ==> b[key].tokens >= 0.0)
    ensures Level(l, b, key, now) >= 0.0
  {
    if key in b { RefillNotNegative(l, Max(0.0, now - b[key].updatedAt)); }
  }

  lemma AllowanceLeft(l: Limits, calls: seq<Call>, key: Key, i: nat)
    requires l.Valid() && ClockRises(calls) && i < |calls|
    ensures Allowance(l, calls[i].now, calls[|calls| - 1].now, Spent(l, calls, key, i)) >= 0.0
  {
    var t := calls[|calls| - 1].now;
    LevelWithinEveryWindow(l, calls, key, i, t);
    TokensStayInRange(l, calls);
    LevelNotNegative(l, State(l, calls), key, t);
    WithinNotNegative(l, State(l, calls), key, t, calls[i].now, Spent(l, calls, key, i));
  }

  lemma WithinNotNegative(l: Limits, b: Buckets, key: Key, now: real, start: real, spent: nat)
    requires Within(l, b, key, now, start, spent) && Level(l, b, key, now) >= 0.0
    ensures Allowance(l, start, now, spent) >= 0.0
  {}

  /** What a window allows, written out. */
  lemma AllowanceIs(l: Limits, start: real, now: real, spent: nat, length: real)
    requires length == now - start
    ensures Allowance(l, start, now, spent) == l.capacity as real + l.rate * length - spent as real
  {
    RefillIs(l, length);
  }

  /** A window of any length T starting at a call holds at most capacity + rate * T accepted calls of
      any one key, whatever the other keys do. */
  lemma RateBound(l: Limits, calls: seq<Call>, key: Key, i: nat, length: real)
    requires l.Valid() && ClockRises(calls) && i < |calls| && length == calls[|calls| - 1].now - calls[i].now
    ensures Spent(l, calls, key, i) as real <= l.capacity as real + l.rate * length
  {
    AllowanceLeft(l, calls, key, i);
    AllowanceIs(l, calls[i].now, calls[|calls| - 1].now, Spent(l, calls, key, i), length);
  }

  /** The level is exactly what the tightest window allows: one from an earlier call, or the one opening now. */
  lemma {:induction false} LevelIsSomeWindow(l: Limits, calls: seq<Call>, key: Key, now: real)
    requires l.Valid() && ClockRises(calls) && forall i | 0 <= i < |calls| :: calls[i].now <= now
    ensures Full(l, State(l, calls), key, now) || exists i: nat :: WindowGives(l, calls, key, i, now)
    decreases |calls|
  {
    if calls != [] {
      var n := |calls| - 1;
      var init, last := calls[..n], calls[n];
      LevelIsSomeWindow(l, init, key, if last.key == key then last.now else now);
      if last.key == key {
        OwnCallWindow(l, calls, now);
      } else {
        OtherCallWindow(l, calls, key, now);
      }
    }
  }

  ghost predicate Gives(l: Limits, b: Buckets, key: Key, now: real, start: real, spent: nat) {
    Level(l, b, key, now) == Allowance(l, start, now, spent)
  }

  ghost predicate Full(l: Limits, b: Buckets, key: Key, now: real) { Level(l, b, key, now) == l.capacity as real }

  ghost predicate WindowGives(l: Limits, calls: seq<Call>, key: Key, i: nat, now: real) {
    i < |calls| && Gives(l, State(l, calls), key, now, calls[i].now, Spent(l, calls, key, i))
  }

  lemma GivesAfterOwnCall(l: Limits, before: Buckets, call: Call, now: real, start: real, spent: nat)
    requires l.Valid() && call.now <= now && Gives(l, before, call.key, call.now, start, spent)
    ensures var b := After(l, before, call);
            Full(l, b, call.key, now) || Gives(l, b, call.key, now, start, spent + Cost(l, before, call))
  {
    LevelAfterOwnCall(l, before, call, now);
    AllowanceLater(l, start, call.now, now, spent);
  }

  lemma GivesOwnWindow(l: Limits, before: Buckets, call: Call, now: real)
    requires l.Valid() && call.now <= now && Full(l, before, call.key, call.now)
    ensures var b := After(l, before, call);
            Full(l, b, call.key, now) || Gives(l, b, call.key, now, call.now, Cost(l, before, call))
  {
    LevelAfterOwnCall(l, before, call, now);
  }

  lemma OwnCallWindow(l: Limits, calls: seq<Call>, now: real)
    requires l.Valid() && calls != [] && calls[|calls| - 1].now <= now
    requires var last := calls[|calls| - 1];
             var init := calls[..|calls| - 1];
             Full(l, State(l, init), last.key, last.now) || exists i: nat :: WindowGives(l, init, last.key, i, last.now)
    ensures var key := calls[|calls| - 1].key;
            Full(l, State(l, calls), key, now) || exists i: nat :: WindowGives(l, calls, key, i, now)
  {
    var n := |calls| - 1;
    var init, last := calls[..n], calls[n];
    var before := State(l, init);
    var i: nat;
    if Full(l, before, last.key, last.now) {
      GivesOwnWindow(l, before, last, now);
      i := n;
    } else {
      i :| WindowGives(l, init, last.key, i, last.now);
      GivesAfterOwnCall(l, before, last, now, calls[i].now, Spent(l, init, last.key, i));
    }
    SpentSnoc(l, calls, last.key, i);
    assert State(l, calls) == After(l, before, last) && calls[n] == last;
    assert Spent(l, calls, last.key, i) == Spent(l, init, last.key, i) + Cost(l, before, last);
    assert Full(l, State(l, calls), last.key, now) || WindowGives(l, calls, last.key, i, now);
  }

  lemma OtherCallWindow(l: Limits, calls: seq<Call>, key: Key, now: real)
    requires calls != [] && calls[|calls| - 1].key != key
    requires var init := calls[..|calls| - 1];
             Full(l, State(l, init), key, now) || exists i: nat :: WindowGives(l, init, key, i, now)
    ensures Full(l, State(l, calls), key, now) || exists i: nat :: WindowGives(l, calls, key, i, now)
  {
    var init, last := calls[..|calls| - 1], calls[|calls| - 1];
    LevelAfterOtherCall(l, State(l, init), last, key, now);
    if !Full(l, State(l, init), key, now) {
      var i: nat :| WindowGives(l, init, key, i, now);
      SpentSnoc(l, calls, key, i);
      assert WindowGives(l, calls, key, i, now);
    }
  }

  /** One more accepted call would break the bound of some window. */
  ghost predicate WouldExceed(l: Limits, calls: seq<Call>, call: Call) {
    exists i: nat, length: real, refill: real :: ExceedsFrom(l, calls, call, i, length, refill)
  }

  /** The window of that length which starts at the `i`th call. */
  ghost predicate ExceedsFrom(l: Limits, calls: seq<Call>, call: Call, i: nat, length: real, refill: real) {
    && i < |calls| && length == call.now - calls[i].now && refill == l.rate * length
    && Spent(l, calls, call.key, i) as real + 1.0 > l.capacity as real + refill
  }

  /** Less than one call is left exactly where one more would exceed. */
  lemma LeftIs(l: Limits, start: real, now: real, spent: nat, length: real, refill: real)
    requires length == now - start && refill == l.rate * length
    ensures Allowance(l, start, now, spent) < 1.0 <==> spent as real + 1.0 > l.capacity as real + refill
  {
    AllowanceIs(l, start, now, spent, length);
  }

  lemma ExceedingIsRefused(l: Limits, calls: seq<Call>, call: Call, i: nat, length: real, refill: real)
    requires l.Valid() && ClockRises(calls) && i < |calls| && calls[|calls| - 1].now <= call.now
    requires ExceedsFrom(l, calls, call, i, length, refill)
    ensures !Accepts(l, State(l, calls), call)
  {
    LeftIs(l, calls[i].now, call.now, Spent(l, calls, call.key, i), length, refill);
    LevelWithinEveryWindow(l, calls, call.key, i, call.now);
    GivesDecides(l, State(l, calls), call, calls[i].now, Spent(l, calls, call.key, i));
  }

  lemma RefusedExceeds(l: Limits, calls: seq<Call>, call: Call, i: nat) returns (length: real, refill: real)
    requires WindowGives(l, calls, call.key, i, call.now) && !Accepts(l, State(l, calls), call)
    ensures ExceedsFrom(l, calls, call, i, length, refill)
  {
    length := call.now - calls[i].now;
    refill := l.rate * length;
    LeftIs(l, calls[i].now, call.now, Spent(l, calls, call.key, i), length, refill);
    GivesDecides(l, State(l, calls), call, calls[i].now, Spent(l, calls, call.key, i));
  }

  lemma ClockUpTo(calls: seq<Call>, call: Call)
    requires ClockRises(calls + [call])
    ensures ClockRises(calls) && forall i | 0 <= i < |calls| :: calls[i].now <= call.now
  {
    var all := calls + [call];
    forall i, j | 0 <= i <= j < |calls| ensures calls[i].now <= calls[j].now { assert all[i].now <= all[j].now; }
    forall i | 0 <= i < |calls| ensures calls[i].now <= call.now { assert all[i].now <= all[|calls|].now; }
  }

  lemma FullAccepts(l: Limits, b: Buckets, call: Call)
    requires l.Valid() && Full(l, b, call.key, call.now)
    ensures Accepts(l, b, call)
  {}

  lemma GivesDecides(l: Limits, b: Buckets, call: Call, start: real, spent: nat)
    ensures Gives(l, b, call.key, call.now, start, spent)
        ==> (Accepts(l, b, call) <==> Allowance(l, start, call.now, spent) >= 1.0)
    ensures Within(l, b, call.key, call.now, start, spent) && Accepts(l, b, call)
        ==> Allowance(l, start, call.now, spent) >= 1.0
  {}

  /** The limiter refuses a call exactly when accepting it would break the bound of some window. */
  lemma RefusedOnlyAtTheBound(l: Limits, calls: seq<Call>, call: Call)
    requires l.Valid() && ClockRises(calls + [call])
    ensures !Accepts(l, State(l, calls), call) <==> WouldExceed(l, calls, call)
  {
    var b := State(l, calls);
    ClockUpTo(calls, call);
    LevelIsSomeWindow(l, calls, call.key, call.now);
    if Full(l, b, call.key, call.now) {
      FullAccepts(l, b, call);
    } else if !Accepts(l, b, call) {
      var i: nat :| WindowGives(l, calls, call.key, i, call.now);
      var length, refill := RefusedExceeds(l, calls, call, i);
    }
    forall i: nat, length: real, refill: real | ExceedsFrom(l, calls, call, i, length, refill)
      ensures !Accepts(l, b, call)
    {
      ExceedingIsRefused(l, calls, call, i, length, refill);
    }
  }

  lemma SpacedCall(l: Limits, b: Buckets, call: Call)
    requires l.Valid()
    requires call.key in b ==> b[call.key].tokens >= 0.0 && Refill(l, call.now - b[call.key].updatedAt) >= 1.0
    ensures Accepts(l, b, call)
  {
    if call.key in b { PositiveSpan(l.rate, call.now - b[call.key].updatedAt); }
  }

  lemma SpanNotPositive(rate: real, d: real)
    requires rate > 0.0 && d <= 0.0
    ensures d * rate <= 0.0
  {}

  lemma PositiveSpan(rate: real, d: real)
    requires rate > 0.0 && d * rate >= 1.0
    ensures d > 0.0
  {
    if d <= 0.0 { SpanNotPositive(rate, d); }
  }

  /** The time kept with a bucket is that of the key's last call. */
  lemma {:induction false} UpdatedAtLastCall(l: Limits, calls: seq<Call>, i: nat)
    requires i < |calls| && forall j | i < j < |calls| :: calls[j].key != calls[i].key
    ensures calls[i].key in State(l, calls) && State(l, calls)[calls[i].key].updatedAt == calls[i].now
    decreases |calls|
  {
    var init := calls[..|calls| - 1];
    if i < |init| {
      assert calls[|calls| - 1].key != calls[i].key;
      UpdatedAtLastCall(l, init, i);
    }
  }

  /** A key nobody has used has no bucket. */
  lemma {:induction false} UnusedKey(l: Limits, calls: seq<Call>, key: Key)
    requires forall c | c in calls :: c.key != key
    ensures key !in State(l, calls)
  {
    if calls != [] {
      var init := calls[..|calls| - 1];
      assert calls[|calls| - 1] in calls;
      forall c | c in init ensures c in calls {}
      UnusedKey(l, init, key);
    }
  }

  /** The key's previous call. */
  predicate IsPrevious(calls: seq<Call>, key: Key, i: nat) {
    i < |calls| && calls[i].key == key && forall j | i < j < |calls| :: calls[j].key != key
  }

  /** A key's bucket, if it has one, was last refilled at the key's previous call. */
  lemma BucketIsFromPrevious(l: Limits, calls: seq<Call>, key: Key)
    ensures key in State(l, calls) ==>
              exists i: nat :: IsPrevious(calls, key, i) && State(l, calls)[key].updatedAt == calls[i].now
  {
    if forall c | c in calls :: c.key != key {
      UnusedKey(l, calls, key);
    } else {
      var i := PreviousCall(calls, key);
      UpdatedAtLastCall(l, calls, i);
    }
  }

  /** Under any clock, a key's first call, and a call at least 1/rate after the key's previous one, is accepted. */
  lemma SpacedCallsAreAccepted(l: Limits, calls: seq<Call>, call: Call)
    requires l.Valid()
    requires forall i: nat | IsPrevious(calls, call.key, i) :: l.rate * (call.now - calls[i].now) >= 1.0
    ensures Accepts(l, State(l, calls), call)
  {
    TokensStayInRange(l, calls);
    BucketIsFromPrevious(l, calls, call.key);
    forall i: nat | IsPrevious(calls, call.key, i) { RefillIs(l, call.now - calls[i].now); }
    SpacedCall(l, State(l, calls), call);
  }

  lemma {:induction false} PreviousCall(calls: seq<Call>, key: Key) returns (i: nat)
    requires exists c :: c in calls && c.key == key
    ensures IsPrevious(calls, key, i)
  {
    var n := |calls| - 1;
    if calls[n].key == key {
      i := n;
    } else {
      var c :| c in calls && c.key == key;
      assert c in calls[..n];
      i := PreviousCall(calls[..n], key);
    }
  }
}
