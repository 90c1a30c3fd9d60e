/** The token bucket that limits notifications, with time in whole units and exact division. */
module RateLimiter {
  import opened Common

  /** tokens left, and the time of the last call. */
  datatype Bucket = Bucket(tokens: int, last: int)

  /** The most tokens, and the time in which an empty bucket fills. */
  datatype Rate = Rate(max: nat, interval: int)

  predicate Sane(b: Bucket, r: Rate) {
    0 <= b.tokens <= r.max && r.interval > 0
  }

  /** The whole tokens that accrue in a time shorter than the interval. */
  function Accrual(max: nat, elapsed: int, interval: int): int
    requires interval > 0
  {
    max * elapsed / interval
  }

  /** The tokens found by a call at time now: part of a token is never carried over. */
  function Refilled(b: Bucket, r: Rate, now: int): int
    requires r.interval > 0
  {
    if now - b.last >= r.interval then r.max
    else Min(b.tokens + Accrual(r.max, now - b.last, r.interval), r.max)
  }

  predicate Granted(b: Bucket, r: Rate, now: int)
    requires r.interval > 0
  {
    Refilled(b, r, now) > 0
  }

  function Called(b: Bucket, r: Rate, now: int): Bucket
    requires r.interval > 0
  {
    Bucket(Refilled(b, r, now) - if Granted(b, r, now) then 1 else 0, now)
  }

  // ---- Runs -----------------------------------------------------------------------------------

  ghost predicate NonDecreasing(times: seq<int>) {
    forall i, j :: 0 <= i < j < |times| ==> times[i] <= times[j]
  }

  /** The clock does not run back, neither before the first call nor between calls. */
  ghost predicate Orderly(b: Bucket, times: seq<int>) {
    NonDecreasing(times) && (times != [] ==> b.last <= times[0])
  }

  function After(b: Bucket, r: Rate, times: seq<int>): Bucket
    requires r.interval > 0
  {
    if times == [] then b else Called(After(b, r, times[..|times| - 1]), r, times[|times| - 1])
  }

  /** How many of the calls were allowed. */
  function Count(b: Bucket, r: Rate, times: seq<int>): nat
    requires r.interval > 0
  {
    if times == [] then 0
    else
      var front, now := times[..|times| - 1], times[|times| - 1];
      Count(b, r, front) + if Granted(After(b, r, front), r, now) then 1 else 0
  }

  lemma ProductOrder(a: nat, b: int, c: int)
    requires b <= c
    ensures a * b <= a * c
  {
  }

  /** One call in units of token times interval: what is granted and left was there or has accrued. */
  lemma CallAccrues(b: Bucket, r: Rate, now: int)
    requires Sane(b, r) && b.last <= now
    ensures Sane(Called(b, r, now), r)
    ensures Refilled(b, r, now) * r.interval <= b.tokens * r.interval + r.max * (now - b.last)
  {
    var dt := now - b.last;
    if dt >= r.interval {
      ProductOrder(r.max, r.interval, dt);
      ProductOrder(r.interval, 0, b.tokens);
    } else {
      ProductOrder(r.max, 0, dt);
      var refill := r.max * dt / r.interval;
      assert refill * r.interval <= r.max * dt;
      ProductOrder(r.interval, Refilled(b, r, now), b.tokens + refill);
    }
  }

  lemma {:induction false} StaysSane(b: Bucket, r: Rate, times: seq<int>)
    requires Sane(b, r) && Orderly(b, times)
    ensures Sane(After(b, r, times), r)
    ensures times != [] ==> After(b, r, times).last == times[|times| - 1]
  {
    if times != [] {
      StaysSane(b, r, times[..|times| - 1]);
      CallAccrues(After(b, r, times[..|times| - 1]), r, times[|times| - 1]);
    }
  }

  /** Calls from the first to the last of a run, whatever the bucket held before. */
  lemma {:induction false} RunBound(b: Bucket, r: Rate, times: seq<int>)
    requires Sane(b, r) && Orderly(b, times) && times != []
    ensures (After(b, r, times).tokens + Count(b, r, times)) * r.interval
         <= r.max * r.interval + r.max * (times[|times| - 1] - times[0])
  {
    var front, now := times[..|times| - 1], times[|times| - 1];
    var before := After(b, r, front);
    StaysSane(b, r, front);
    CallAccrues(before, r, now);
    assert After(b, r, times).tokens + Count(b, r, times) == Refilled(before, r, now) + Count(b, r, front);
    if front == [] {
      assert before == b && Count(b, r, front) == 0;
      hide After, Count, Refilled, NonDecreasing;
      ProductOrder(r.interval, Refilled(b, r, now), r.max);
    } else {
      hide After, Count, Refilled, NonDecreasing;
      RunBound(b, r, front);
      Accrued(Refilled(before, r, now), before.tokens, Count(b, r, front), r, now - before.last, before.last - times[0]);
    }
  }

  lemma Accrued(refilled: int, tokens: int, count: int, r: Rate, step: int, sofar: int)
    requires refilled * r.interval <= tokens * r.interval + r.max * step
    requires (tokens + count) * r.interval <= r.max * r.interval + r.max * sofar
    ensures (refilled + count) * r.interval <= r.max * r.interval + r.max * (step + sofar)
  {
  }

  lemma {:induction false} RunsJoin(b: Bucket, r: Rate, times: seq<int>, i: nat)
    requires i <= |times| && r.interval > 0
    ensures After(b, r, times) == After(After(b, r, times[..i]), r, times[i..])
    ensures Count(b, r, times) == Count(b, r, times[..i]) + Count(After(b, r, times[..i]), r, times[i..])
  {
    if i == |times| {
      assert times[..i] == times && times[i..] == [];
    } else {
      var front := times[..|times| - 1];
      RunsJoin(b, r, front, i);
      assert front[..i] == times[..i];
      assert times[i..][..|times| - i - 1] == front[i..];
    }
  }

  /** granted calls in a time of the given duration are within the limit. */
  predicate Within(granted: int, r: Rate, duration: int) {
    granted * r.interval <= r.max * r.interval + r.max * duration
  }

  lemma CountBound(b: Bucket, r: Rate, times: seq<int>)
    requires Sane(b, r) && Orderly(b, times) && times != []
    ensures Within(Count(b, r, times), r, times[|times| - 1] - times[0])
  {
    RunBound(b, r, times);
    StaysSane(b, r, times);
    WithinLess(Count(b, r, times), After(b, r, times).tokens, r, times[|times| - 1] - times[0]);
  }

  lemma WithinLess(granted: int, left: int, r: Rate, duration: int)
    requires left >= 0 && r.interval > 0
    requires (left + granted) * r.interval <= r.max * r.interval + r.max * duration
    ensures Within(granted, r, duration)
  {
    var spare := left * r.interval;
    assert spare >= 0;
    assert (left + granted) * r.interval == spare + granted * r.interval;
  }

  lemma SuffixOrderly(b: Bucket, r: Rate, times: seq<int>, i: nat)
    requires Sane(b, r) && Orderly(b, times) && i <= |times|
    ensures Orderly(After(b, r, times[..i]), times[i..]) && Sane(After(b, r, times[..i]), r)
  {
    StaysSane(b, r, times[..i]);
  }

  /** In any window from one call to another, at most max + max * duration / interval calls are allowed. */
  lemma WindowBound(b: Bucket, r: Rate, times: seq<int>, i: nat, j: nat)
    requires Sane(b, r) && Orderly(b, times) && i <= j < |times|
    ensures Within(Count(b, r, times[..j + 1]) - Count(b, r, times[..i]), r, times[j] - times[i])
  {
    hide After, Count, Within;
    var upto := times[..j + 1];
    RunsJoin(b, r, upto, i);
    assert upto[..i] == times[..i];
    SuffixOrderly(b, r, upto, i);
    CountBound(After(b, r, times[..i]), r, upto[i..]);
  }

  // ---- What rounding costs ---------------------------------------------------------------------

  /** A call is refused exactly when no token is left and less than the time of one token has passed. */
  lemma RefusedExactly(b: Bucket, r: Rate, now: int)
    requires Sane(b, r) && b.last <= now
    ensures !Granted(b, r, now) <==> r.max == 0 || (b.tokens == 0 && r.max * (now - b.last) < r.interval)
  {
    var dt := now - b.last;
    ProductOrder(r.max, 0, dt);
    if r.max > 0 && dt >= r.interval {
      ProductOrder(dt, 1, r.max);
    }
  }

  /** A call finds a full bucket after a whole interval; sooner it finds what was left and as many whole tokens as have
      accrued, up to a full bucket. */
  lemma RefilledExactly(b: Bucket, r: Rate, now: int)
    requires Sane(b, r) && b.last <= now
    ensures var t, dt := Refilled(b, r, now), now - b.last;
      && b.tokens <= t <= r.max
      && (dt >= r.interval ==> t == r.max)
      && (dt < r.interval ==> (t - b.tokens) * r.interval <= r.max * dt)
      && (t == r.max || r.max * dt < (t + 1 - b.tokens) * r.interval)
  {
    var t, dt := Refilled(b, r, now), now - b.last;
    ProductOrder(r.max, 0, dt);
    if dt < r.interval {
      var refill := r.max * dt / r.interval;
      assert 0 <= refill && refill * r.interval <= r.max * dt < (refill + 1) * r.interval;
      ProductOrder(r.interval, t - b.tokens, refill);
    }
  }

  // ---- What a pause brings ---------------------------------------------------------------------

  lemma {:induction false} ServesHeld(b: Bucket, r: Rate, times: seq<int>, k: nat)
    requires Sane(b, r) && Orderly(b, times) && 0 < |times| <= k <= Refilled(b, r, times[0])
    ensures Count(b, r, times) == |times| && After(b, r, times).tokens >= k - |times|
  {
    var front, now := times[..|times| - 1], times[|times| - 1];
    hide Refilled;
    if front == [] {
      assert Count(b, r, front) == 0 && After(b, r, front) == b;
    } else {
      ServesHeld(b, r, front, k);
      StaysSane(b, r, front);
      RefilledExactly(After(b, r, front), r, now);
    }
  }

  lemma ScaledOrder(m: int, x: int, y: int)
    requires m > 0
    ensures x <= y ==> x * m <= y * m
  {
    if x <= y {
      ProductOrder(m, x, y);
    }
  }

  /** What the bucket lacks of k tokens accrues until time now. */
  ghost predicate Accrues(b: Bucket, r: Rate, now: int, k: nat) {
    r.max * (now - b.last) >= (k - b.tokens) * r.interval
  }

  lemma EnoughFound(b: Bucket, r: Rate, now: int, k: nat)
    requires Sane(b, r) && b.last <= now && k <= r.max && Accrues(b, r, now, k)
    ensures Refilled(b, r, now) >= k
  {
    var t := Refilled(b, r, now);
    RefilledExactly(b, r, now);
    hide Refilled;
    ScaledOrder(r.interval, t + 1 - b.tokens, k - b.tokens);
  }

  lemma PrefixOrderly(b: Bucket, times: seq<int>, i: nat)
    requires Orderly(b, times) && i <= |times|
    ensures Orderly(b, times[..i])
  {
  }

  /** After a pause in which the bucket comes to hold k tokens, the next k calls are all allowed. */
  lemma PauseServes(b: Bucket, r: Rate, times: seq<int>, i: nat, k: nat)
    requires Sane(b, r) && Orderly(b, times) && i + k <= |times| && 0 < k <= r.max
    requires Accrues(After(b, r, times[..i]), r, times[i], k)
    ensures Count(b, r, times[..i + k]) == Count(b, r, times[..i]) + k
  {
    var upto, held := times[..i + k], After(b, r, times[..i]);
    PrefixOrderly(b, times, i + k);
    assert b.last <= times[0] && r.interval > 0;
    hide After, Count, Refilled, NonDecreasing, Accrues;
    RunsJoin(b, r, upto, i);
    assert upto[..i] == times[..i] && upto[i..][0] == times[i];
    SuffixOrderly(b, r, upto, i);
    EnoughFound(held, r, times[i], k);
    ServesHeld(held, r, upto[i..], k);
  }

  /** Call i comes before a whole token has accrued. */
  ghost predicate TooSoon(b: Bucket, r: Rate, times: seq<int>, i: nat)
    requires i < |times|
  {
    r.max * (times[i] - if i == 0 then b.last else times[i - 1]) < r.interval
  }

  /** Calls closer together than the time of one token never refill the bucket: it serves what it held and then nothing. */
  lemma {:induction false} FrequentCallsStarve(b: Bucket, r: Rate, times: seq<int>)
    requires Sane(b, r) && Orderly(b, times)
    requires forall i :: 0 <= i < |times| ==> TooSoon(b, r, times, i)
    ensures Count(b, r, times) == Min(|times|, b.tokens)
    ensures After(b, r, times).tokens == b.tokens - Count(b, r, times)
  {
    if times != [] {
      var n := |times| - 1;
      assert TooSoon(b, r, times, n);
      forall i | 0 <= i < n ensures TooSoon(b, r, times[..n], i) {
        assert TooSoon(b, r, times, i);
      }
      FrequentCallsStarve(b, r, times[..n]);
      StaysSane(b, r, times[..n]);
      hide Refilled;
      NoRefill(After(b, r, times[..n]), r, times[n]);
    }
  }

  lemma NoRefill(b: Bucket, r: Rate, now: int)
    requires Sane(b, r) && b.last <= now && r.max * (now - b.last) < r.interval
    ensures Refilled(b, r, now) == b.tokens
  {
    var dt := now - b.last;
    ProductOrder(r.max, 0, dt);
    assert r.max * dt / r.interval == 0;
    if r.max > 0 && dt >= r.interval {
      ProductOrder(dt, 1, r.max);
      assert false;
    }
  }

  lemma StaysOrderly(b: Bucket, r: Rate, times: seq<int>, now: int)
    requires Sane(b, r) && Orderly(b, times) && After(b, r, times).last <= now
    ensures Orderly(b, times + [now])
    ensures (times + [now])[..|times|] == times
    ensures After(b, r, times + [now]) == Called(After(b, r, times), r, now)
    ensures Count(b, r, times + [now]) == Count(b, r, times) + if Granted(After(b, r, times), r, now) then 1 else 0
  {
    StaysSane(b, r, times);
    assert (times + [now])[..|times|] == times;
  }

  class RateLimiter {
    const maxTokens: nat
    const interval: int
    var tokens: int
    var lastTime: int
    ghost const start: Bucket
    ghost var calls: seq<int>
    ghost var allowed: nat

    ghost function Limit(): Rate {
      Rate(maxTokens, interval)
    }

    /** The fields are those of the run so far. */
    ghost predicate Valid()
      reads this
    {
      && interval > 0 && start.tokens == maxTokens
      && Orderly(start, calls)
      && Bucket(tokens, lastTime) == After(start, Limit(), calls)
      && allowed == Count(start, Limit(), calls)
    }

    constructor (ratePerMinute: nat, minute: int, now: int)
      requires minute > 0
      ensures Valid() && calls == [] && lastTime == now
      ensures maxTokens == ratePerMinute && interval == minute
    {
      maxTokens, interval := ratePerMinute, minute;
      tokens, lastTime := ratePerMinute, now;
      start, calls, allowed := Bucket(ratePerMinute, now), [], 0;
    }

    method Allow(now: int) returns (ok: bool)
      requires Valid() && now >= lastTime
      modifies this
      ensures Valid() && calls == old(calls) + [now] && 0 <= tokens <= maxTokens
      ensures lastTime == now
      ensures var t, elapsed := tokens + (if ok then 1 else 0), now - old(lastTime);
        && (ok <==> t > 0)
        && old(tokens) <= t <= maxTokens
        && (elapsed >= interval ==> t == maxTokens)
        && (elapsed < interval ==> (t - old(tokens)) * interval <= maxTokens * elapsed)
        && (t == maxTokens || maxTokens * elapsed < (t + 1 - old(tokens)) * interval)
      ensures ok <==> Granted(old(Bucket(tokens, lastTime)), Limit(), now)
      ensures allowed == old(allowed) + if ok then 1 else 0
    {
      hide Sane, NonDecreasing, Accrual, Orderly, After, Count;
      SaneNow(now);
      StaysOrderly(start, Limit(), calls, now);
      var elapsed := now - lastTime;
      ghost var before := Bucket(tokens, lastTime);
      if elapsed >= interval {
        tokens := maxTokens;
        lastTime := now;
      } else {
        var refill := Accrual(maxTokens, elapsed, interval);
        tokens := tokens + refill;
        if tokens > maxTokens {
          tokens := maxTokens;
        }
        lastTime := now;
      }
      assert tokens == Refilled(before, Limit(), now);
      RefilledExactly(before, Limit(), now);
      ok := false;
      if tokens > 0 {
        tokens := tokens - 1;
        ok := true;
      }
      allowed := allowed + if ok then 1 else 0;
      calls := calls + [now];
    }

    lemma SaneNow(now: int)
      requires Valid() && now >= lastTime
      ensures Sane(start, Limit()) && After(start, Limit(), calls).last <= now
      ensures Sane(Bucket(tokens, lastTime), Limit())
      ensures 0 <= Called(Bucket(tokens, lastTime), Limit(), now).tokens <= maxTokens
    {
      StaysSane(start, Limit(), calls);
      CallAccrues(Bucket(tokens, lastTime), Limit(), now);
    }
  }
}
