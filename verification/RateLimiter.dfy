/**
 The token bucket.  Tokens and seconds are reals.  The bucket is refilled only once at least one whole
 token has accrued since the last refill, and the very first call only starts the clock.
 */
module RateLimiter {
  import opened Common

  datatype Limits = Limits(requestsPerSecond: real, maxBucketSize: real)
  {
    predicate Valid() { requestsPerSecond > 0.0 && maxBucketSize >= 1.0 }
  }

  /** last is the zero time until the first call. */
  datatype Bucket = Bucket(available: real, last: Option<real>)

  const EMPTY := Bucket(0.0, None)

  /** Tokens that accrue from s to t. */
  function Earned(l: Limits, s: real, t: real): real {
    (t - s) * l.requestsPerSecond
  }

  function Clipped(l: Limits, b: Bucket): Bucket {
    if b.available > l.maxBucketSize then b.(available := l.maxBucketSize) else b
  }

  /** One call at time now: the bucket after it and whether it was granted. */
  function Consume(l: Limits, b: Bucket, now: real): (Bucket, bool) {
    if b.last.None? then (b.(last := Some(now)), false)
    else
      var accrued := Earned(l, b.last.value, now);
      var filled := Clipped(l, if accrued >= 1.0 then Bucket(b.available + accrued, Some(now)) else b);
      if filled.available >= 1.0 then (filled.(available := filled.available - 1.0), true) else (filled, false)
  }

  class InMemoryRateLimiter {
    const limits: Limits
    var availableTokens: real
    var last: Option<real>

    constructor (requestsPerSecond: real, maxBucketSize: real)
      ensures limits.Valid() && State() == EMPTY
      ensures requestsPerSecond > 0.0 ==> limits.requestsPerSecond == requestsPerSecond
      ensures maxBucketSize >= 1.0 ==> limits.maxBucketSize == maxBucketSize
    {
      limits := Limits(if requestsPerSecond <= 0.0 then 1.0 else requestsPerSecond,
                       if maxBucketSize < 1.0 then 1.0 else maxBucketSize);
      availableTokens := 0.0;
      last := None;
    }

    function State(): Bucket
      reads this
    {
      Bucket(availableTokens, last)
    }

    method TryConsume(now: real) returns (granted: bool)
      modifies this
      ensures (State(), granted) == Consume(limits, old(State()), now)
    {
      if last.None? {
        last := Some(now);
        return false;
      }
      var elapsed := now - last.value;
      assert elapsed * limits.requestsPerSecond == Earned(limits, last.value, now);
      hide Earned;
      if elapsed * limits.requestsPerSecond >= 1.0 {
        availableTokens := availableTokens + elapsed * limits.requestsPerSecond;
        last := Some(now);
      }
      if availableTokens > limits.maxBucketSize {
        availableTokens := limits.maxBucketSize;
      }
      if availableTokens >= 1.0 {
        availableTokens := availableTokens - 1.0;
        return true;
      }
      granted := false;
    }
  }

  // ----- runs of calls -----

  predicate InOrder(times: seq<real>) {
    forall i: nat :: i + 1 < |times| ==> times[i] <= times[i + 1]
  }

  function After(l: Limits, b: Bucket, times: seq<real>): Bucket
    decreases |times|
  {
    if times == [] then b else After(l, Consume(l, b, times[0]).0, times[1..])
  }

  function Grants(l: Limits, b: Bucket, times: seq<real>): nat
    decreases |times|
  {
    if times == [] then 0
    else (if Consume(l, b, times[0]).1 then 1 else 0) + Grants(l, Consume(l, b, times[0]).0, times[1..])
  }

  /** The time of the last call, or s when there is none. */
  function LastOf(s: real, times: seq<real>): real {
    if times == [] then s else times[|times| - 1]
  }

  /** Between 0 and the bucket size, refilled no later than now. */
  predicate Sound(l: Limits, b: Bucket, now: real) {
    && 0.0 <= b.available <= l.maxBucketSize
    && (b.last.None? ==> b.available == 0.0)
    && (b.last.Some? ==> b.last.value <= now)
  }

  /** The tokens there and the tokens accrued but not yet refilled. */
  function Credit(l: Limits, b: Bucket, now: real): real {
    b.available + if b.last.None? then 0.0 else Earned(l, b.last.value, now)
  }

  lemma EarnedNotNegative(l: Limits, s: real, t: real)
    requires l.Valid() && s <= t
    ensures Earned(l, s, t) >= 0.0
  {
  }

  lemma EarnedAdds(l: Limits, s: real, m: real, t: real)
    ensures Earned(l, s, m) + Earned(l, m, t) == Earned(l, s, t)
  {
  }

  /** One call keeps the bucket sound, spends only credit, and leaves less than the bucket plus one token. */
  lemma ConsumeSpendsCredit(l: Limits, b: Bucket, now: real)
    requires l.Valid() && Sound(l, b, now)
    ensures var (after, granted) := Consume(l, b, now);
            var spent := if granted then 1.0 else 0.0;
            && Sound(l, after, now) && after.last.Some?
            && 0.0 <= Credit(l, after, now)
            && Credit(l, after, now) + spent <= Credit(l, b, now)
            && Credit(l, after, now) + spent < l.maxBucketSize + 1.0
  {
    assert Earned(l, now, now) == 0.0;
    if b.last.Some? {
      EarnedNotNegative(l, b.last.value, now);
    }
    hide Earned;
  }

  lemma CreditAccrues(l: Limits, b: Bucket, s: real, t: real)
    requires b.last.Some?
    ensures Credit(l, b, t) == Credit(l, b, s) + Earned(l, s, t)
  {
    EarnedAdds(l, b.last.value, s, t);
    hide Earned;
  }

  lemma TailInOrder(s: real, times: seq<real>)
    requires InOrder([s] + times)
    ensures InOrder(times) && s <= LastOf(s, times)
    ensures times != [] ==> s <= times[0] && InOrder([times[0]] + times[1..])
    ensures times != [] ==> LastOf(s, times) == LastOf(times[0], times[1..])
    decreases |times|
  {
    var all := [s] + times;
    forall i: nat | i + 1 < |times| ensures times[i] <= times[i + 1] {
      assert all[i + 1] <= all[i + 2];
    }
    if times != [] {
      assert all[0] <= all[1];
      assert [times[0]] + times[1..] == times;
      TailInOrder(times[0], times[1..]);
    }
  }

  /** From a sound bucket at s: what is granted until the last call is paid for by the credit at s and what accrues. */
  lemma {:induction false} GrantsArePaid(l: Limits, b: Bucket, s: real, times: seq<real>)
    requires l.Valid() && Sound(l, b, s) && b.last.Some? && InOrder([s] + times)
    ensures var (after, t) := (After(l, b, times), LastOf(s, times));
            && Sound(l, after, t) && after.last.Some?
            && Grants(l, b, times) as real + Credit(l, after, t) <= Credit(l, b, s) + Earned(l, s, t)
    decreases |times|
  {
    hide Earned, Consume, Sound, Credit;
    if times == [] {
      EarnedAdds(l, s, s, s);
    } else {
      var now := times[0];
      TailInOrder(s, times);
      StillSound(l, b, s, now);
      CreditAccrues(l, b, s, now);
      ConsumeSpendsCredit(l, b, now);
      GrantsArePaid(l, Consume(l, b, now).0, now, times[1..]);
      EarnedAdds(l, s, now, LastOf(s, times));
    }
  }

  lemma StillSound(l: Limits, b: Bucket, s: real, t: real)
    requires Sound(l, b, s) && s <= t
    ensures Sound(l, b, t)
  {
  }

  /** Earlier calls leave a sound bucket at the first call of the window. */
  lemma {:induction false} SoundAtWindow(l: Limits, b: Bucket, s: real, earlier: seq<real>, now: real)
    requires l.Valid() && Sound(l, b, s) && InOrder([s] + earlier + [now])
    ensures Sound(l, After(l, b, earlier), now)
    decreases |earlier|
  {
    hide Consume, Sound;
    var all := [s] + earlier + [now];
    assert all[0] <= all[1];
    StillSound(l, b, s, all[1]);
    if earlier != [] {
      ConsumeSpendsCredit(l, b, earlier[0]);
      assert [s] + (earlier + [now]) == all;
      TailInOrder(s, earlier + [now]);
      assert earlier + [now] == [earlier[0]] + earlier[1..] + [now];
      SoundAtWindow(l, Consume(l, b, earlier[0]).0, earlier[0], earlier[1..], now);
    }
  }

  lemma SplitInOrder(earlier: seq<real>, window: seq<real>)
    requires InOrder(earlier + window) && window != []
    ensures InOrder(window) && InOrder(earlier + [window[0]])
  {
    var all := earlier + window;
    forall i: nat | i + 1 < |window| ensures window[i] <= window[i + 1] {
      assert all[|earlier| + i] <= all[|earlier| + i + 1];
    }
    var front := earlier + [window[0]];
    forall i: nat | i + 1 < |front| ensures front[i] <= front[i + 1] {
      assert all[i] <= all[i + 1];
    }
  }

  /**
   In every window of calls, whatever calls came before it, fewer are granted than
   MaxBucketSize + 1 + what RequestsPerSecond earns over the length of the window.
   */
  lemma WindowBound(l: Limits, earlier: seq<real>, window: seq<real>)
    requires l.Valid() && InOrder(earlier + window) && window != []
    ensures Grants(l, After(l, EMPTY, earlier), window) as real
            < l.maxBucketSize + 1.0 + Earned(l, window[0], window[|window| - 1])
  {
    SplitInOrder(earlier, window);
    var s, b := window[0], After(l, EMPTY, earlier);
    if earlier != [] {
      var first, front := earlier[0], earlier + [s];
      assert InOrder([first] + front) by {
        forall i: nat | i + 1 < |front| + 1 ensures ([first] + front)[i] <= ([first] + front)[i + 1] {
          assert i > 0 ==> front[i - 1] <= front[i];
        }
      }
      assert [first] + front == [first] + earlier + [s];
      SoundAtWindow(l, EMPTY, first, earlier, s);
    }
    assert Sound(l, b, s);
    GrantsOfWindow(l, b, window);
  }

  lemma GrantsOfWindow(l: Limits, b: Bucket, window: seq<real>)
    requires l.Valid() && window != [] && InOrder(window) && Sound(l, b, window[0])
    ensures Grants(l, b, window) as real < l.maxBucketSize + 1.0 + Earned(l, window[0], window[|window| - 1])
  {
    var s, rest := window[0], window[1..];
    var t := window[|window| - 1];
    hide Consume, Sound, Credit, Earned;
    var after := Consume(l, b, s).0;
    ConsumeSpendsCredit(l, b, s);
    assert [s] + rest == window;
    assert Grants(l, b, window) == (if Consume(l, b, s).1 then 1 else 0) + Grants(l, after, rest);
    hide Grants, After;
    assert t == LastOf(s, rest);
    GrantsArePaid(l, after, s, rest);
    CreditNotNegative(l, After(l, after, rest), t);
  }

  lemma CreditNotNegative(l: Limits, b: Bucket, now: real)
    requires l.Valid() && Sound(l, b, now)
    ensures Credit(l, b, now) >= b.available >= 0.0
  {
    if b.last.Some? {
      EarnedNotNegative(l, b.last.value, now);
    }
  }

  /** Over a whole run grants and available tokens together never exceed the rate times the time from the first call to the last refill. */
  lemma RunBound(l: Limits, times: seq<real>)
    requires l.Valid() && InOrder(times) && times != []
    ensures var b := After(l, EMPTY, times);
            && b.last.Some?
            && Grants(l, EMPTY, times) as real + b.available <= Earned(l, times[0], b.last.value)
  {
    var s, rest := times[0], times[1..];
    var first := Bucket(0.0, Some(s));
    assert Consume(l, EMPTY, s) == (first, false);
    assert Grants(l, EMPTY, times) == Grants(l, first, rest);
    EarnedAdds(l, s, s, s);
    hide Earned;
    assert Credit(l, first, s) == 0.0 && Sound(l, first, s);
    var b := After(l, EMPTY, times);
    assert b == After(l, first, rest) && [s] + rest == times;
    hide After, Grants, Consume, Sound;
    GrantsArePaid(l, first, s, rest);
    EarnedAdds(l, s, b.last.value, LastOf(s, rest));
  }

  /** A call is granted exactly when a token is there or one token's time has passed since the last refill. */
  lemma GrantedIff(l: Limits, b: Bucket, now: real)
    requires l.Valid() && b.available >= 0.0
    ensures Consume(l, b, now).1 <==>
            b.last.Some? && (b.available >= 1.0 || (now - b.last.value) * l.requestsPerSecond >= 1.0)
  {
  }
}
