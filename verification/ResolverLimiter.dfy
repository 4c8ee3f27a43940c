/**
 The DKIM resolver's limiter: a deque of admission times, cleaned from its head. Callers read
 the clock before they take the lock, so a call may carry a time up to `skew` seconds behind
 an earlier one.
 */
module ResolverLimiter {
  const LIMIT := 120

  // One call: expired heads go, then the call is admitted if there is room.
  function Expire(times: seq<real>, now: real): seq<real> {
    if times != [] && times[0] <= now - 60.0 then Expire(times[1..], now) else times
  }

  // The deque and, as history, every admitted time in the order of the lock.
  datatype Limiter = Limiter(times: seq<real>, admitted: seq<real>)

  function Call(s: Limiter, now: real): Limiter {
    var kept := Expire(s.times, now);
    if |kept| >= LIMIT then s.(times := kept) else Limiter(kept + [now], s.admitted + [now])
  }

  function Calls(nows: seq<real>): Limiter {
    if nows == [] then Limiter([], []) else Call(Calls(nows[..|nows| - 1]), nows[|nows| - 1])
  }

  ghost predicate Skewed(nows: seq<real>, skew: real) {
    forall i, j :: 0 <= i < j < |nows| ==> nows[i] - skew <= nows[j]
  }

  // How many times lie in the half-open window [from, from + length).
  function Count(times: seq<real>, from: real, length: real): nat {
    if times == [] then 0
    else Count(times[..|times| - 1], from, length) + if from <= times[|times| - 1] < from + length then 1 else 0
  }

  // The times after `since`, in order.
  function After(times: seq<real>, since: real): seq<real> {
    if times == [] then []
    else After(times[..|times| - 1], since) + if since < times[|times| - 1] then [times[|times| - 1]] else []
  }

  ghost predicate Bounded(admitted: seq<real>, window: real) {
    forall from: real :: Count(admitted, from, window) <= LIMIT
  }

  // ---------- Safety under skew ----------

  // Some call was a minute or more after this time.
  ghost predicate Overtaken(nows: seq<real>, t: real) { exists j :: 0 <= j < |nows| && t <= nows[j] - 60.0 }

  // The deque is the history without its first `gone` entries, all of them a minute behind
  // some call.
  ghost predicate Suffix(s: Limiter, nows: seq<real>, gone: nat) {
    && gone <= |s.admitted| && s.times == s.admitted[gone..] && |s.times| <= LIMIT
    && (forall i :: 0 <= i < gone ==> Overtaken(nows, s.admitted[i]))
  }

  lemma {:induction false} ExpireDropsHeads(times: seq<real>, now: real) returns (k: nat)
    ensures k <= |times| && Expire(times, now) == times[k..]
    ensures forall i :: 0 <= i < k ==> times[i] <= now - 60.0
    ensures k < |times| ==> now - 60.0 < times[k]
  {
    if times != [] && times[0] <= now - 60.0 {
      var k' := ExpireDropsHeads(times[1..], now);
      k := k' + 1;
    } else {
      k := 0;
    }
  }

  lemma SuffixStep(s: Limiter, nows: seq<real>, gone: nat, now: real) returns (gone': nat)
    requires Suffix(s, nows, gone)
    ensures Suffix(Call(s, now), nows + [now], gone')
    ensures gone <= gone' <= |s.admitted| && Expire(s.times, now) == s.admitted[gone'..]
    ensures forall i :: gone <= i < gone' ==> s.admitted[i] <= now - 60.0
    ensures gone' < |s.admitted| ==> now - 60.0 < s.admitted[gone']
  {
    var k := ExpireDropsHeads(s.times, now);
    gone' := gone + k;
    var t, all := Call(s, now), nows + [now];
    forall i | 0 <= i < gone' ensures Overtaken(all, t.admitted[i]) {
      if i < gone {
        assert Overtaken(nows, s.admitted[i]);
        var j :| 0 <= j < |nows| && s.admitted[i] <= nows[j] - 60.0;
        assert all[j] == nows[j];
      } else {
        assert s.times[i - gone] <= now - 60.0 && all[|nows|] == now;
      }
    }
  }

  lemma {:induction false} SuffixHolds(nows: seq<real>) returns (gone: nat)
    ensures Suffix(Calls(nows), nows, gone)
  {
    if nows == [] {
      gone := 0;
    } else {
      var n := |nows| - 1;
      var g := SuffixHolds(nows[..n]);
      gone := SuffixStep(Calls(nows[..n]), nows[..n], g, nows[n]);
      assert nows[..n] + [nows[n]] == nows;
    }
  }

  lemma {:induction false} CountOfTail(times: seq<real>, k: nat, from: real, length: real)
    requires k <= |times| && forall i :: 0 <= i < k ==> times[i] < from
    ensures Count(times, from, length) <= |times| - k
  {
    if times != [] {
      var n := |times| - 1;
      CountOfTail(times[..n], if k == |times| then n else k, from, length);
    }
  }

  // A window holding the new admission holds only entries still in the deque, and it had room.
  lemma StepKeepsBound(s: Limiter, nows: seq<real>, gone: nat, now: real, skew: real, window: real)
    requires Suffix(s, nows, gone) && Bounded(s.admitted, window)
    requires 0.0 <= skew && window <= 60.0 - skew && forall j :: 0 <= j < |nows| ==> nows[j] - skew <= now
    ensures Bounded(Call(s, now).admitted, window)
  {
    var g := SuffixStep(s, nows, gone, now);
    var t := Call(s, now);
    if t.admitted != s.admitted {
      assert t.admitted == s.admitted + [now] && t.admitted[..|s.admitted|] == s.admitted;
      forall from: real ensures Count(t.admitted, from, window) <= LIMIT {
        assert Count(s.admitted, from, window) <= LIMIT;
        if from <= now < from + window {
          forall i | 0 <= i < g ensures s.admitted[i] < from {
            if i < gone {
              assert Overtaken(nows, s.admitted[i]);
              var j :| 0 <= j < |nows| && s.admitted[i] <= nows[j] - 60.0;
            }
          }
          CountOfTail(s.admitted, g, from, window);
        }
      }
    }
  }

  lemma {:induction false} SkewedRunsAreBounded(nows: seq<real>, skew: real, window: real)
    requires Skewed(nows, skew) && 0.0 <= skew && window <= 60.0 - skew
    ensures Bounded(Calls(nows).admitted, window)
  {
    if nows != [] {
      var n := |nows| - 1;
      SkewedRunsAreBounded(nows[..n], skew, window);
      var gone := SuffixHolds(nows[..n]);
      StepKeepsBound(Calls(nows[..n]), nows[..n], gone, nows[n], skew, window);
    }
  }

  // ---------- The bound is tight ----------

  function Zeros(k: nat): seq<real> { if k == 0 then [] else Zeros(k - 1) + [0.0] }

  lemma {:induction false} ZerosAre(k: nat)
    ensures |Zeros(k)| == k && forall i :: 0 <= i < k ==> Zeros(k)[i] == 0.0
  {
    if k > 0 { ZerosAre(k - 1); }
  }

  lemma {:induction false} ZerosCount(k: nat, length: real)
    requires 0.0 < length
    ensures Count(Zeros(k), 0.0, length) == k
  {
    if k > 0 {
      ZerosCount(k - 1, length);
      CountPush(Zeros(k - 1), 0.0, 0.0, length);
    }
  }

  lemma CountPush(times: seq<real>, t: real, from: real, length: real)
    ensures Count(times + [t], from, length) == Count(times, from, length) + if from <= t < from + length then 1 else 0
  {
    assert (times + [t])[..|times|] == times;
  }

  lemma CallsPush(nows: seq<real>, now: real)
    ensures Calls(nows + [now]) == Call(Calls(nows), now)
  {
    assert (nows + [now])[..|nows|] == nows;
  }

  // A burst of calls at time 0 is admitted up to the limit.
  lemma {:induction false} BurstAdmitted(nows: seq<real>)
    requires |nows| <= LIMIT && forall i :: 0 <= i < |nows| ==> nows[i] == 0.0
    ensures Calls(nows) == Limiter(nows, nows)
  {
    if nows != [] {
      var front := nows[..|nows| - 1];
      BurstAdmitted(front);
      BurstPush(front, nows);
    }
  }

  lemma BurstPush(front: seq<real>, nows: seq<real>)
    requires |front| < LIMIT && forall i :: 0 <= i < |front| ==> front[i] == 0.0
    requires Calls(front) == Limiter(front, front)
    requires |nows| == |front| + 1 && nows[..|front|] == front && nows[|front|] == 0.0
    ensures Calls(nows) == Limiter(nows, nows)
  {
    assert nows == front + [0.0];
    CallsPush(front, 0.0);
    ZeroCall(front);
  }

  lemma ZeroCall(times: seq<real>)
    requires |times| < LIMIT && forall i :: 0 <= i < |times| ==> times[i] == 0.0
    ensures Call(Limiter(times, times), 0.0) == Limiter(times + [0.0], times + [0.0])
  {
  }

  lemma {:induction false} ZerosExpire(times: seq<real>)
    requires forall i :: 0 <= i < |times| ==> times[i] == 0.0
    ensures Expire(times, 60.0) == []
  {
    if times != [] { ZerosExpire(times[1..]); }
  }

  // A full minute at 0, a call at 60 that clears it, and one that read the clock earlier.
  lemma LateCallExceeds(skew: real, window: real) returns (nows: seq<real>)
    requires 0.0 <= skew && 0.0 < window && 60.0 - skew < window
    ensures Skewed(nows, skew) && !Bounded(Calls(nows).admitted, window)
  {
    var late := if skew < 60.0 then 60.0 - skew else 0.0;
    var zeros := Zeros(LIMIT);
    ZerosAre(LIMIT);
    BurstAdmitted(zeros);
    ZerosExpire(zeros);
    nows := zeros + [60.0] + [late];
    CallsPush(zeros, 60.0);
    CallsPush(zeros + [60.0], late);
    ZerosCount(LIMIT, window);
    CountPush(zeros, 60.0, 0.0, window);
    CountPush(zeros + [60.0], late, 0.0, window);
    assert Count(nows, 0.0, window) > LIMIT;
    assert Calls(nows).admitted == nows;
  }

  /** Every half-open window of this length holds at most 120 admissions in every run with calls
      at most `skew` out of order, exactly when length and skew fit into a minute together. */
  lemma WindowBoundIff(skew: real, window: real)
    requires 0.0 <= skew && 0.0 < window
    ensures (forall nows :: Skewed(nows, skew) ==> Bounded(Calls(nows).admitted, window)) <==> window <= 60.0 - skew
  {
    if window <= 60.0 - skew {
      forall nows | Skewed(nows, skew) ensures Bounded(Calls(nows).admitted, window) {
        SkewedRunsAreBounded(nows, skew, window);
      }
    } else {
      var nows := LateCallExceeds(skew, window);
    }
  }

  // ---------- Calls in order ----------

  predicate Ordered(times: seq<real>) { forall i, j :: 0 <= i < j < |times| ==> times[i] <= times[j] }

  lemma {:induction false} AfterNone(times: seq<real>, since: real)
    requires forall i :: 0 <= i < |times| ==> times[i] <= since
    ensures After(times, since) == []
  {
    if times != [] { AfterNone(times[..|times| - 1], since); }
  }

  lemma {:induction false} AfterAll(times: seq<real>, k: nat, since: real)
    requires k <= |times|
    requires forall i :: 0 <= i < k ==> times[i] <= since
    requires forall i :: k <= i < |times| ==> since < times[i]
    ensures After(times, since) == times[k..]
  {
    if k == |times| {
      AfterNone(times, since);
    } else {
      var n := |times| - 1;
      AfterAll(times[..n], k, since);
      assert times[k..] == times[..n][k..] + [times[n]];
    }
  }

  lemma AfterOfOrdered(times: seq<real>, k: nat, since: real)
    requires Ordered(times) && k <= |times|
    requires forall i :: 0 <= i < k ==> times[i] <= since
    requires k < |times| ==> since < times[k]
    ensures After(times, since) == times[k..]
  {
    forall i | k <= i < |times| ensures since < times[i] { assert i > k ==> times[k] <= times[i]; }
    AfterAll(times, k, since);
  }

  lemma {:induction false} AdmittedInOrder(nows: seq<real>)
    requires Ordered(nows)
    ensures Ordered(Calls(nows).admitted)
    ensures forall i :: 0 <= i < |Calls(nows).admitted| ==> nows != [] && Calls(nows).admitted[i] <= nows[|nows| - 1]
  {
    if nows != [] { AdmittedInOrder(nows[..|nows| - 1]); }
  }

  lemma ExpireIsAfter(s: Limiter, nows: seq<real>, gone: nat, now: real)
    requires Suffix(s, nows, gone) && Ordered(s.admitted)
    requires forall j :: 0 <= j < |nows| ==> nows[j] <= now
    ensures Expire(s.times, now) == After(s.admitted, now - 60.0)
  {
    var g := SuffixStep(s, nows, gone, now);
    forall i | 0 <= i < g ensures s.admitted[i] <= now - 60.0 {
      if i < gone {
        assert Overtaken(nows, s.admitted[i]);
        var j :| 0 <= j < |nows| && s.admitted[i] <= nows[j] - 60.0;
      }
    }
    AfterOfOrdered(s.admitted, g, now - 60.0);
  }

  /** When call times never go back, a call is admitted exactly when fewer than 120 of all
      admissions ever made lie in the minute before it, and the deque afterwards is exactly
      those admissions in the last minute. */
  lemma {:induction false} DequeIsTheLastMinute(nows: seq<real>, now: real)
    requires Ordered(nows + [now])
    ensures var s, t := Calls(nows), Call(Calls(nows), now);
            && t.admitted == (if |After(s.admitted, now - 60.0)| < LIMIT then s.admitted + [now] else s.admitted)
            && t.times == After(t.admitted, now - 60.0)
  {
    var all := nows + [now];
    forall j | 0 <= j < |nows| ensures nows[j] <= now { assert all[j] <= all[|nows|]; }
    assert Ordered(nows) by {
      forall i, j | 0 <= i < j < |nows| ensures nows[i] <= nows[j] { assert all[i] <= all[j]; }
    }
    var s := Calls(nows);
    var gone := SuffixHolds(nows);
    AdmittedInOrder(nows);
    ExpireIsAfter(s, nows, gone, now);
    assert (s.admitted + [now])[..|s.admitted|] == s.admitted;
  }

  // ---------- The shared deque ----------

  class RateLimiter {
    var requestTimes: seq<real>
    ghost var admitted: seq<real>
    ghost var calls: seq<real>

    ghost predicate Valid()
      reads this
    {
      Calls(calls) == Limiter(requestTimes, admitted)
    }

    constructor ()
      ensures Valid() && calls == []
    {
      requestTimes, admitted, calls := [], [], [];
    }

    // The heads a minute old go.
    method DropExpired(now: real)
      modifies this`requestTimes
      ensures requestTimes == Expire(old(requestTimes), now)
    {
      while requestTimes != [] && requestTimes[0] <= now - 60.0
        invariant Expire(requestTimes, now) == Expire(old(requestTimes), now)
        decreases |requestTimes|
      {
        requestTimes := requestTimes[1..];
      }
    }

    // _rate_allowed, under the lock.
    method RateAllowed(now: real) returns (allowed: bool)
      requires Valid()
      modifies this
      ensures Valid() && calls == old(calls) + [now]
      ensures allowed <==> |Expire(old(requestTimes), now)| < 120
      ensures admitted == if allowed then old(admitted) + [now] else old(admitted)
    {
      CallsPush(calls, now);
      calls := calls + [now];
      DropExpired(now);
      if |requestTimes| >= LIMIT {
        return false;
      }
      requestTimes := requestTimes + [now];
      admitted := admitted + [now];
      return true;
    }
  }
}
