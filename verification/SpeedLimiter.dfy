/** The token-bucket limiter of common/src/server/speed_limiter.rs.

Time is a nanosecond clock passed in by the caller.  Quantities are `nat`; the 64-bit saturation
of the source is written out. */
module SpeedLimiter {
  import opened Numbers

  const NANOS_PER_SECOND: nat := 1_000_000_000

  /** The fields of the limiter. */
  datatype Bucket = Bucket(lastCheck: nat, tokens: nat, rate: nat)

  /** One call: how many bytes, when it was made, and when it returned. */
  datatype Call = Call(bytes: nat, now: nat, done: nat)

  function Replenished(elapsed: nat, rate: nat): nat {
    Min(elapsed * rate / NANOS_PER_SECOND, U64_MAX)
  }

  function SleepFor(deficit: nat, rate: nat): nat
    requires rate > 0
  {
    Min(deficit * NANOS_PER_SECOND / rate, U64_MAX)
  }

  /** The tokens on hand when the call decides whether to sleep. */
  function Available(b: Bucket, now: nat): nat {
    var elapsed := if now > b.lastCheck then now - b.lastCheck else 0;
    Min(b.tokens + Replenished(elapsed, b.rate), U64_MAX)
  }

  function Deficit(b: Bucket, bytes: nat, now: nat): nat {
    if b.rate == 0 || bytes <= Available(b, now) then 0 else bytes - Available(b, now)
  }

  /** The sleep a call asks for. */
  function Sleep(b: Bucket, bytes: nat, now: nat): nat {
    if b.rate == 0 then 0 else SleepFor(Deficit(b, bytes, now), b.rate)
  }

  /** The limiter after a call. */
  function Next(b: Bucket, bytes: nat, now: nat): Bucket {
    if b.rate == 0 || bytes == 0 then b
    else
      var tokens := Available(b, now);
      b.(lastCheck := now, tokens := if tokens >= bytes then tokens - bytes else 0)
  }

  class Limiter {
    var lastCheck: nat
    var tokens: nat
    var maxBytesPerSecond: nat

    ghost function State(): Bucket
      reads this
    {
      Bucket(lastCheck, tokens, maxBytesPerSecond)
    }

    constructor (maxKbps: nat, now: nat)
      ensures State() == Bucket(now, 0, maxKbps * 1024)
    {
      lastCheck, tokens, maxBytesPerSecond := now, 0, maxKbps * 1024;
    }

    /** One call at time `now`; `slept` is the sleep it asks for, 0 when it asks for none. */
    method Throttle(bytes: nat, now: nat) returns (slept: nat)
      modifies this
      ensures State() == Next(old(State()), bytes, now)
      ensures slept == Sleep(old(State()), bytes, now)
    {
      slept := 0;
      if maxBytesPerSecond == 0 || bytes == 0 {
        if maxBytesPerSecond != 0 {
          NoDeficitNoSleep(maxBytesPerSecond);
        }
        return;
      }
      var elapsed := if now > lastCheck then now - lastCheck else 0;
      lastCheck := now;
      tokens := Min(tokens + Replenished(elapsed, maxBytesPerSecond), U64_MAX);
      var newTokens := tokens;
      if newTokens < bytes {
        slept := SleepFor(bytes - newTokens, maxBytesPerSecond);
      } else {
        NoDeficitNoSleep(maxBytesPerSecond);
      }
      tokens := if tokens >= bytes then tokens - bytes else 0;
    }
  }

  lemma NoDeficitNoSleep(rate: nat)
    requires rate > 0
    ensures SleepFor(0, rate) == 0
  {
    assert 0 * NANOS_PER_SECOND == 0;
    assert 0 / rate == 0;
  }

  // ---- Whole runs ----

  /** The limiter after a sequence of calls. */
  function After(b: Bucket, calls: seq<Call>): Bucket {
    if calls == [] then b
    else
      var last := calls[|calls| - 1];
      Next(After(b, calls[..|calls| - 1]), last.bytes, last.now)
  }

  function TotalBytes(calls: seq<Call>): nat {
    if calls == [] then 0 else TotalBytes(calls[..|calls| - 1]) + calls[|calls| - 1].bytes
  }

  function LastSleep(b: Bucket, calls: seq<Call>): nat
    requires calls != []
  {
    var last := calls[|calls| - 1];
    Sleep(After(b, calls[..|calls| - 1]), last.bytes, last.now)
  }

  function TotalSleep(b: Bucket, calls: seq<Call>): nat {
    if calls == [] then 0 else TotalSleep(b, calls[..|calls| - 1]) + LastSleep(b, calls)
  }

  /** How many calls ran out of tokens. */
  function Shortages(b: Bucket, calls: seq<Call>): nat {
    if calls == [] then 0
    else
      var last := calls[|calls| - 1];
      Shortages(b, calls[..|calls| - 1])
      + if Deficit(After(b, calls[..|calls| - 1]), last.bytes, last.now) > 0 then 1 else 0
  }

  /** When the run is over: the return of its last call. */
  function Clock(start: nat, calls: seq<Call>): nat {
    if calls == [] then start else calls[|calls| - 1].done
  }

  /** Calls follow one another, and each returns no sooner than the sleep it asked for. */
  ghost predicate Sequential(b: Bucket, calls: seq<Call>)
    decreases |calls|
  {
    calls != [] ==>
      var last := calls[|calls| - 1];
      && Sequential(b, calls[..|calls| - 1])
      && Clock(b.lastCheck, calls[..|calls| - 1]) <= last.now
      && last.now + LastSleep(b, calls) <= last.done
  }

  /** No request is so large that its sleep would not fit 64 bits. */
  ghost predicate Unsaturated(rate: nat, calls: seq<Call>) {
    forall c :: c in calls ==> c.bytes * NANOS_PER_SECOND < rate * (U64_MAX + 1)
  }

  function Fresh(maxKbps: nat, start: nat): Bucket {
    Bucket(start, 0, maxKbps * 1024)
  }

  lemma DivisionBounds(a: nat, rate: nat)
    requires rate > 0
    ensures rate * (a / rate) <= a < rate * (a / rate) + rate
  {
  }

  lemma MulMono(a: nat, b: nat, k: nat)
    requires a <= b
    ensures a * k <= b * k && k * a <= k * b
  {
  }

  /** The sleep covers the deficit up to one token, and never more than the deficit. */
  lemma SleepCoversDeficit(deficit: nat, bytes: nat, rate: nat)
    requires rate > 0 && deficit <= bytes
    ensures SleepFor(deficit, rate) * rate <= deficit * NANOS_PER_SECOND
    ensures bytes * NANOS_PER_SECOND < rate * (U64_MAX + 1) ==>
              deficit * NANOS_PER_SECOND <= rate * SleepFor(deficit, rate) + rate
  {
    var a := deficit * NANOS_PER_SECOND;
    DivisionBounds(a, rate);
    MulMono(SleepFor(deficit, rate), a / rate, rate);
    if bytes * NANOS_PER_SECOND < rate * (U64_MAX + 1) {
      assert a <= bytes * NANOS_PER_SECOND;
      if a / rate > U64_MAX {
        MulMono(U64_MAX + 1, a / rate, rate);
        assert false;
      }
    }
  }

  lemma AvailableBound(b: Bucket, now: nat)
    requires b.lastCheck <= now
    ensures NANOS_PER_SECOND * Available(b, now) <= NANOS_PER_SECOND * b.tokens + b.rate * (now - b.lastCheck)
  {
    var p := (now - b.lastCheck) * b.rate;
    assert NANOS_PER_SECOND * (p / NANOS_PER_SECOND) <= p;
  }

  /** What one call does to the books: bytes let through are paid for by elapsed time, by tokens
      or by a deficit. */
  lemma CallBalance(b: Bucket, bytes: nat, now: nat)
    requires b.rate > 0 && b.lastCheck <= now
    ensures var b' := Next(b, bytes, now);
            && b'.rate == b.rate && b.lastCheck <= b'.lastCheck <= now
            && NANOS_PER_SECOND * (bytes + b'.tokens)
               <= NANOS_PER_SECOND * (b.tokens + Deficit(b, bytes, now)) + b.rate * (b'.lastCheck - b.lastCheck)
  {
    AvailableBound(b, now);
  }

  /** Where the clocks stand: sleeps are disjoint stretches of the run's time. */
  lemma {:induction false} RunClock(b: Bucket, calls: seq<Call>)
    requires b.rate > 0 && Sequential(b, calls)
    ensures After(b, calls).rate == b.rate
    ensures b.lastCheck <= After(b, calls).lastCheck <= Clock(b.lastCheck, calls)
    ensures b.lastCheck + TotalSleep(b, calls) <= Clock(b.lastCheck, calls)
    ensures Shortages(b, calls) <= |calls|
  {
    if calls != [] {
      RunClock(b, calls[..|calls| - 1]);
    }
  }

  /** The sleep of one call, in the units of the books. */
  lemma CallSleep(b: Bucket, bytes: nat, now: nat)
    requires b.rate > 0
    ensures Sleep(b, bytes, now) * b.rate <= bytes * NANOS_PER_SECOND
    ensures Deficit(b, bytes, now) == 0 ==> Sleep(b, bytes, now) == 0
    ensures bytes * NANOS_PER_SECOND < b.rate * (U64_MAX + 1) ==>
              Deficit(b, bytes, now) * NANOS_PER_SECOND
              <= b.rate * (Sleep(b, bytes, now) + if Deficit(b, bytes, now) > 0 then 1 else 0)
  {
    var d := Deficit(b, bytes, now);
    assert d <= bytes;
    SleepCoversDeficit(d, bytes, b.rate);
    var s := SleepFor(d, b.rate);
    assert b.rate * s + b.rate == b.rate * (s + 1);
    NoDeficitNoSleep(b.rate);
  }

  /** Sleep asked for never exceeds the time the bytes take at the configured rate, and a run
      without a shortage does not sleep. */
  lemma {:induction false} RunSleep(b: Bucket, calls: seq<Call>)
    requires b.rate > 0 && Sequential(b, calls)
    ensures TotalSleep(b, calls) * b.rate <= TotalBytes(calls) * NANOS_PER_SECOND
    ensures Shortages(b, calls) == 0 ==> TotalSleep(b, calls) == 0
  {
    if calls != [] {
      var prefix, last := calls[..|calls| - 1], calls[|calls| - 1];
      RunSleep(b, prefix);
      RunClock(b, prefix);
      CallSleep(After(b, prefix), last.bytes, last.now);
      AddSleep(b.rate, TotalSleep(b, prefix), LastSleep(b, calls), TotalBytes(prefix), last.bytes);
    }
  }

  lemma AddSleep(rate: nat, s0: nat, s1: nat, bytes0: nat, bytes1: nat)
    requires s0 * rate <= bytes0 * NANOS_PER_SECOND && s1 * rate <= bytes1 * NANOS_PER_SECOND
    ensures (s0 + s1) * rate <= (bytes0 + bytes1) * NANOS_PER_SECOND
  {
    Distribute(rate, s0, s1, 0);
  }

  /** Adding one call to the books, in integers only. */
  lemma AddCall(rate: nat, e0: nat, e1: nat, s0: nat, s1: nat, n0: nat, n1: nat, bytes0: nat, bytes1: nat,
                deficit: nat, t: nat, t0: nat, t1: nat)
    requires NANOS_PER_SECOND * (bytes0 + t0) <= NANOS_PER_SECOND * t + rate * (e0 + s0 + n0)
    requires NANOS_PER_SECOND * (bytes1 + t1) <= NANOS_PER_SECOND * (t0 + deficit) + rate * e1
    requires deficit * NANOS_PER_SECOND <= rate * (s1 + n1)
    ensures NANOS_PER_SECOND * (bytes0 + bytes1 + t1)
            <= NANOS_PER_SECOND * t + rate * (e0 + e1 + (s0 + s1) + (n0 + n1))
  {
    Distribute(rate, e0 + s0 + n0, e1, s1 + n1);
    assert e0 + s0 + n0 + e1 + (s1 + n1) == e0 + e1 + (s0 + s1) + (n0 + n1);
  }

  /** The central inequality: every byte let through is paid for by time elapsed up to the last
      check, by requested sleep, or by one token of rounding per call that ran short. */
  lemma {:induction false} RunBalance(b: Bucket, calls: seq<Call>)
    requires b.rate > 0 && Sequential(b, calls) && Unsaturated(b.rate, calls)
    ensures After(b, calls).lastCheck >= b.lastCheck
    ensures NANOS_PER_SECOND * (TotalBytes(calls) + After(b, calls).tokens)
            <= NANOS_PER_SECOND * b.tokens
               + b.rate * (After(b, calls).lastCheck - b.lastCheck + TotalSleep(b, calls) + Shortages(b, calls))
  {
    RunClock(b, calls);
    if calls == [] {
      assert b.rate * 0 == 0;
    } else {
      var prefix, last := calls[..|calls| - 1], calls[|calls| - 1];
      RunClock(b, prefix);
      RunBalance(b, prefix);
      var mid, end := After(b, prefix), After(b, calls);
      var d := Deficit(mid, last.bytes, last.now);
      CallBalance(mid, last.bytes, last.now);
      assert last in calls;
      CallSleep(mid, last.bytes, last.now);
      AddCall(b.rate, mid.lastCheck - b.lastCheck, end.lastCheck - mid.lastCheck,
              TotalSleep(b, prefix), LastSleep(b, calls), Shortages(b, prefix), if d > 0 then 1 else 0,
              TotalBytes(prefix), last.bytes, d, b.tokens, mid.tokens, end.tokens);
    }
  }

  lemma Distribute(k: nat, x: nat, y: nat, z: nat)
    ensures k * (x + y + z) == k * x + k * y + k * z
  {
  }

  lemma BytesBound(b: Bucket, calls: seq<Call>, at: nat)
    requires b.rate > 0 && Sequential(b, calls) && Unsaturated(b.rate, calls) && Clock(b.lastCheck, calls) <= at
    requires at >= b.lastCheck
    ensures NANOS_PER_SECOND * TotalBytes(calls)
            <= NANOS_PER_SECOND * b.tokens + b.rate * (2 * (at - b.lastCheck) + |calls|)
  {
    RunClock(b, calls);
    RunBalance(b, calls);
    var used := After(b, calls).lastCheck - b.lastCheck + TotalSleep(b, calls) + Shortages(b, calls);
    MulMono(used, 2 * (at - b.lastCheck) + |calls|, b.rate);
  }

  /** Rate bound.  At any time `at` once the run is over, the bytes let through since creation obey
      bytes * 10^9 <= rate * (2 * T + n), and the total sleep asked for never exceeds the time those
      bytes take at the configured rate. */
  lemma RateBound(maxKbps: nat, start: nat, calls: seq<Call>, at: nat)
    requires maxKbps > 0
    requires Sequential(Fresh(maxKbps, start), calls) && Clock(start, calls) <= at
    ensures TotalSleep(Fresh(maxKbps, start), calls) * (maxKbps * 1024) <= TotalBytes(calls) * NANOS_PER_SECOND
    ensures Unsaturated(maxKbps * 1024, calls) ==>
              TotalBytes(calls) * NANOS_PER_SECOND <= (maxKbps * 1024) * (2 * (at - start) + |calls|)
  {
    var b := Fresh(maxKbps, start);
    RunClock(b, calls);
    RunSleep(b, calls);
    if Unsaturated(b.rate, calls) {
      BytesBound(b, calls, at);
    }
  }

  // ---- The excess over the configured rate ----

  function Earlier(calls: seq<Call>): seq<Call>
    requires calls != []
  {
    calls[..|calls| - 1]
  }

  /** Tokens are paid for by elapsed time. */
  lemma {:induction false} TokensBound(b: Bucket, calls: seq<Call>)
    requires b.rate > 0 && Sequential(b, calls)
    ensures After(b, calls).lastCheck >= b.lastCheck
    ensures NANOS_PER_SECOND * After(b, calls).tokens
            <= NANOS_PER_SECOND * b.tokens + b.rate * (After(b, calls).lastCheck - b.lastCheck)
  {
    RunClock(b, calls);
    if calls != [] {
      var last := calls[|calls| - 1];
      var mid, end := After(b, Earlier(calls)), After(b, calls);
      TokensBound(b, Earlier(calls));
      RunClock(b, Earlier(calls));
      AvailableBound(mid, last.now);
      Distribute(b.rate, mid.lastCheck - b.lastCheck, end.lastCheck - mid.lastCheck, 0);
    } else {
      assert b.rate * 0 == 0;
    }
  }

  /** The tokens that the time of the run is worth fit 64 bits. */
  ghost predicate Unclipped(b: Bucket, until: nat) {
    b.lastCheck <= until ==>
      NANOS_PER_SECOND * b.tokens + b.rate * (until - b.lastCheck) < NANOS_PER_SECOND * (U64_MAX + 1)
  }

  /** The tokens on hand fall short of what has been paid for by less than one. */
  lemma AvailableBelow(b: Bucket, now: nat)
    requires b.lastCheck <= now && Unclipped(b, now)
    ensures NANOS_PER_SECOND * b.tokens + b.rate * (now - b.lastCheck) < NANOS_PER_SECOND * (Available(b, now) + 1)
  {
    var p := (now - b.lastCheck) * b.rate;
    var q := p / NANOS_PER_SECOND;
    assert NANOS_PER_SECOND * q <= p < NANOS_PER_SECOND * q + NANOS_PER_SECOND;
    assert p == b.rate * (now - b.lastCheck);
    assert b.tokens + q <= U64_MAX;
  }

  lemma CallBalanceBelow(b: Bucket, bytes: nat, now: nat)
    requires b.rate > 0 && b.lastCheck <= now && Unclipped(b, now)
    ensures var b' := Next(b, bytes, now);
            && b.lastCheck <= b'.lastCheck
            && NANOS_PER_SECOND * (b.tokens + Deficit(b, bytes, now)) + b.rate * (b'.lastCheck - b.lastCheck)
               <= NANOS_PER_SECOND * (bytes + b'.tokens + 1)
  {
    AvailableBelow(b, now);
    if bytes == 0 {
      assert b.rate * 0 == 0;
    }
  }

  lemma UnclippedLater(b: Bucket, calls: seq<Call>, now: nat)
    requires b.rate > 0 && Sequential(b, calls) && Clock(b.lastCheck, calls) <= now && Unclipped(b, now)
    ensures Unclipped(After(b, calls), now)
  {
    RunClock(b, calls);
    TokensBound(b, calls);
    var mid := After(b, calls);
    Distribute(b.rate, mid.lastCheck - b.lastCheck, now - mid.lastCheck, 0);
  }

  lemma UnclippedSooner(b: Bucket, now: nat, until: nat)
    requires Unclipped(b, until) && b.lastCheck <= now <= until
    ensures Unclipped(b, now)
  {
    MulMono(now - b.lastCheck, until - b.lastCheck, b.rate);
  }

  lemma AddCallBelow(rate: nat, e0: nat, e1: nat, s0: nat, s1: nat, bytes0: nat, bytes1: nat, deficit: nat,
                     t: nat, t0: nat, t1: nat, n: nat)
    requires NANOS_PER_SECOND * t + rate * (e0 + s0) <= NANOS_PER_SECOND * (bytes0 + t0 + n)
    requires NANOS_PER_SECOND * (t0 + deficit) + rate * e1 <= NANOS_PER_SECOND * (bytes1 + t1 + 1)
    requires s1 * rate <= deficit * NANOS_PER_SECOND
    ensures NANOS_PER_SECOND * t + rate * (e0 + e1 + (s0 + s1)) <= NANOS_PER_SECOND * (bytes0 + bytes1 + t1 + (n + 1))
  {
    Distribute(rate, e0 + s0, e1, s1);
    assert e0 + s0 + e1 + s1 == e0 + e1 + (s0 + s1);
  }

  lemma SleepWithinDeficit(b: Bucket, bytes: nat, now: nat)
    requires b.rate > 0
    ensures Sleep(b, bytes, now) * b.rate <= Deficit(b, bytes, now) * NANOS_PER_SECOND
  {
    var d := Deficit(b, bytes, now);
    SleepCoversDeficit(d, d, b.rate);
  }

  /** The bytes let through and the tokens left over are paid for by the first tokens and by the time, at the
      configured rate. */
  ghost predicate PaidBy(b: Bucket, calls: seq<Call>, time: nat) {
    NANOS_PER_SECOND * (TotalBytes(calls) + After(b, calls).tokens) <= NANOS_PER_SECOND * b.tokens + b.rate * time
  }

  /** What the time is worth at the configured rate does not exceed the bytes let through, the tokens left
      over, and one token of rounding per call. */
  ghost predicate WorthAtMost(b: Bucket, calls: seq<Call>, time: nat) {
    NANOS_PER_SECOND * b.tokens + b.rate * time <= NANOS_PER_SECOND * (TotalBytes(calls) + After(b, calls).tokens + |calls|)
  }

  /** The other side of the books: time and sleep pay for nothing but bytes, for the tokens left over, and
      for less than one token of rounding per call. */
  lemma {:induction false} RunBalanceBelow(b: Bucket, calls: seq<Call>, until: nat)
    requires b.rate > 0 && Sequential(b, calls) && Clock(b.lastCheck, calls) <= until && Unclipped(b, until)
    ensures After(b, calls).lastCheck >= b.lastCheck
    ensures WorthAtMost(b, calls, After(b, calls).lastCheck - b.lastCheck + TotalSleep(b, calls))
    decreases |calls|
  {
    RunClock(b, calls);
    if calls == [] {
      assert b.rate * 0 == 0;
    } else {
      var last := calls[|calls| - 1];
      var mid, end := After(b, Earlier(calls)), After(b, calls);
      RunClock(b, Earlier(calls));
      UnclippedSooner(b, last.now, until);
      RunBalanceBelow(b, Earlier(calls), until);
      UnclippedLater(b, Earlier(calls), last.now);
      CallBalanceBelow(mid, last.bytes, last.now);
      SleepWithinDeficit(mid, last.bytes, last.now);
      AddCallBelow(b.rate, mid.lastCheck - b.lastCheck, end.lastCheck - mid.lastCheck, TotalSleep(b, Earlier(calls)),
                   LastSleep(b, calls), TotalBytes(Earlier(calls)), last.bytes, Deficit(mid, last.bytes, last.now),
                   b.tokens, mid.tokens, end.tokens, |calls| - 1);
    }
  }

  /** The last call passed something, and the run is over as soon as it has slept. */
  ghost predicate EndsWithSleep(b: Bucket, calls: seq<Call>, at: nat)
    requires calls != []
  {
    var last := calls[|calls| - 1];
    last.bytes > 0 && at == last.now + LastSleep(b, calls)
  }

  /** The last sleep fits between the last check and the end. */
  lemma LastStretch(b: Bucket, calls: seq<Call>, at: nat)
    requires b.rate > 0 && calls != [] && Sequential(b, calls) && Clock(b.lastCheck, calls) <= at
    ensures After(b, calls).lastCheck + TotalSleep(b, calls) <= at + TotalSleep(b, Earlier(calls))
    ensures EndsWithSleep(b, calls, at) ==>
              After(b, calls).lastCheck + TotalSleep(b, calls) == at + TotalSleep(b, Earlier(calls))
  {
    RunClock(b, Earlier(calls));
  }

  lemma ExcessAtMost(b: Bucket, calls: seq<Call>, at: nat)
    requires b.rate > 0 && calls != [] && Sequential(b, calls) && Clock(b.lastCheck, calls) <= at
    requires Unsaturated(b.rate, calls)
    ensures at >= b.lastCheck
    ensures PaidBy(b, calls, at - b.lastCheck + TotalSleep(b, Earlier(calls)) + Shortages(b, calls))
  {
    RunClock(b, calls);
    LastStretch(b, calls, at);
    RunBalance(b, calls);
    MulMono(After(b, calls).lastCheck - b.lastCheck + TotalSleep(b, calls) + Shortages(b, calls),
            at - b.lastCheck + TotalSleep(b, Earlier(calls)) + Shortages(b, calls), b.rate);
  }

  lemma ExcessAtLeast(b: Bucket, calls: seq<Call>, at: nat)
    requires b.rate > 0 && calls != [] && Sequential(b, calls) && Clock(b.lastCheck, calls) <= at
    requires EndsWithSleep(b, calls, at) && Unclipped(b, at)
    requires at >= b.lastCheck
    ensures WorthAtMost(b, calls, at - b.lastCheck + TotalSleep(b, Earlier(calls)))
  {
    LastStretch(b, calls, at);
    RunBalanceBelow(b, calls, at);
  }

  /** What a run passes beyond the configured rate is the sleep of all its calls but the last, which the
      calls after them credit once more: never more than that, up to a nanosecond per shortage; and,
      when the run ends as the last call's sleep does, never less, up to one token of rounding per call. */
  lemma ExcessIsEarlierSleep(b: Bucket, calls: seq<Call>, at: nat)
    requires b.rate > 0 && calls != [] && Sequential(b, calls) && Clock(b.lastCheck, calls) <= at
    ensures at >= b.lastCheck
    ensures Unsaturated(b.rate, calls) ==>
              PaidBy(b, calls, at - b.lastCheck + TotalSleep(b, Earlier(calls)) + Shortages(b, calls))
    ensures EndsWithSleep(b, calls, at) && Unclipped(b, at) ==>
              WorthAtMost(b, calls, at - b.lastCheck + TotalSleep(b, Earlier(calls)))
  {
    RunClock(b, calls);
    if Unsaturated(b.rate, calls) {
      ExcessAtMost(b, calls, at);
    }
    if EndsWithSleep(b, calls, at) && Unclipped(b, at) {
      ExcessAtLeast(b, calls, at);
    }
  }

  /** So the configured rate holds, up to a nanosecond, if no call before the last runs short. */
  lemma RateMetWithoutEarlierShortage(b: Bucket, calls: seq<Call>, at: nat)
    requires b.rate > 0 && calls != [] && Sequential(b, calls) && Clock(b.lastCheck, calls) <= at
    requires Unsaturated(b.rate, calls) && Shortages(b, Earlier(calls)) == 0
    ensures at >= b.lastCheck
    ensures NANOS_PER_SECOND * TotalBytes(calls) <= NANOS_PER_SECOND * b.tokens + b.rate * (at - b.lastCheck + 1)
  {
    RunSleep(b, Earlier(calls));
    ExcessAtMost(b, calls, at);
    MulMono(at - b.lastCheck + Shortages(b, calls), at - b.lastCheck + 1, b.rate);
  }

  /** Calls of one second's worth of bytes each, in pairs: the first sleeps for a second, and the second
      is let through at once. */
  function Relay(rate: nat, start: nat, m: nat): seq<Call> {
    if m == 0 then []
    else
      var t := start + m * NANOS_PER_SECOND;
      Relay(rate, start, m - 1) + [Call(rate, t - NANOS_PER_SECOND, t)] + [Call(rate, t, t)]
  }

  lemma RelayPair(rate: nat, t: nat)
    requires 0 < rate <= U64_MAX
    ensures var b, t' := Bucket(t, 0, rate), t + NANOS_PER_SECOND;
            && Next(b, rate, t) == b && Sleep(b, rate, t) == NANOS_PER_SECOND
            && Next(b, rate, t') == Bucket(t', 0, rate) && Sleep(b, rate, t') == 0
  {
    var b, t' := Bucket(t, 0, rate), t + NANOS_PER_SECOND;
    assert 0 * rate / NANOS_PER_SECOND == 0;
    assert Available(b, t) == 0;
    Quotient(NANOS_PER_SECOND, rate);
    assert Available(b, t') == rate;
    NoDeficitNoSleep(rate);
  }

  lemma Quotient(a: nat, d: nat)
    requires d > 0
    ensures d * a / d == a && a * d == d * a
  {
    var q := d * a / d;
    DivisionBounds(d * a, d);
    StrictlyMore(d, q, a);
    StrictlyMore(d, a, q);
  }

  lemma StrictlyMore(d: nat, x: nat, y: nat)
    ensures x < y ==> d * x + d <= d * y
  {
    if x < y {
      MulMono(x + 1, y, d);
      Distribute(d, x, 1, 0);
    }
  }

  lemma AppendCall(b: Bucket, calls: seq<Call>, c: Call)
    ensures var more := calls + [c];
            && After(b, more) == Next(After(b, calls), c.bytes, c.now)
            && TotalBytes(more) == TotalBytes(calls) + c.bytes
            && LastSleep(b, more) == Sleep(After(b, calls), c.bytes, c.now)
            && (Sequential(b, more) <==> Sequential(b, calls) && Clock(b.lastCheck, calls) <= c.now
                                         && c.now + LastSleep(b, more) <= c.done)
  {
    assert (calls + [c])[..|calls|] == calls;
  }

  /** One pair more. */
  lemma AppendPair(b: Bucket, calls: seq<Call>, t: nat, t': nat)
    requires 0 < b.rate <= U64_MAX && Sequential(b, calls) && Clock(b.lastCheck, calls) <= t
    requires After(b, calls) == Bucket(t, 0, b.rate) && t' == t + NANOS_PER_SECOND
    ensures var more := calls + [Call(b.rate, t, t')] + [Call(b.rate, t', t')];
            && Sequential(b, more) && Clock(b.lastCheck, more) == t' && After(b, more) == Bucket(t', 0, b.rate)
  {
    RelayPair(b.rate, t);
    AppendCall(b, calls, Call(b.rate, t, t'));
    AppendCall(b, calls + [Call(b.rate, t, t')], Call(b.rate, t', t'));
  }

  /** The relay runs for `end` nanoseconds and leaves the bucket empty. */
  ghost predicate RunsUntil(b: Bucket, calls: seq<Call>, end: nat) {
    Sequential(b, calls) && Clock(b.lastCheck, calls) == end && After(b, calls) == Bucket(end, 0, b.rate)
  }

  lemma {:induction false} RelayRun(rate: nat, start: nat, m: nat)
    requires 0 < rate <= U64_MAX
    ensures RunsUntil(Bucket(start, 0, rate), Relay(rate, start, m), start + m * NANOS_PER_SECOND)
    decreases m
  {
    if m > 0 {
      RelayRun(rate, start, m - 1);
      RelayOn(rate, start, m);
    }
  }

  lemma RelayOn(rate: nat, start: nat, m: nat)
    requires 0 < rate <= U64_MAX && m > 0
    requires RunsUntil(Bucket(start, 0, rate), Relay(rate, start, m - 1), start + (m - 1) * NANOS_PER_SECOND)
    ensures RunsUntil(Bucket(start, 0, rate), Relay(rate, start, m), start + m * NANOS_PER_SECOND)
  {
    AppendPair(Bucket(start, 0, rate), Relay(rate, start, m - 1),
               start + (m - 1) * NANOS_PER_SECOND, start + m * NANOS_PER_SECOND);
  }

  lemma {:induction false} EqualCalls(rate: nat, calls: seq<Call>)
    requires forall c :: c in calls ==> c.bytes == rate
    ensures TotalBytes(calls) == |calls| * rate
    decreases |calls|
  {
    if calls != [] {
      EqualCalls(rate, Earlier(calls));
      Distribute(rate, |calls| - 1, 1, 0);
    }
  }

  lemma {:induction false} RelayCalls(rate: nat, start: nat, m: nat)
    ensures |Relay(rate, start, m)| == 2 * m
    ensures forall c :: c in Relay(rate, start, m) ==> c.bytes == rate
    decreases m
  {
    if m > 0 {
      RelayCalls(rate, start, m - 1);
    }
  }

  /** The factor two is attained at every rate and for any length of time: 2m calls of one second's
      worth of bytes each pass within m seconds. */
  lemma FactorTwoAttained(rate: nat, start: nat, m: nat)
    requires 0 < rate <= U64_MAX
    ensures var b, calls := Bucket(start, 0, rate), Relay(rate, start, m);
            && |calls| == 2 * m && (forall c :: c in calls ==> c.bytes == rate)
            && Sequential(b, calls) && Unsaturated(rate, calls)
            && Clock(start, calls) == start + m * NANOS_PER_SECOND
            && TotalBytes(calls) == 2 * m * rate
  {
    RelayRun(rate, start, m);
    RelayCalls(rate, start, m);
    EqualCalls(rate, Relay(rate, start, m));
    MulMono(NANOS_PER_SECOND, U64_MAX, rate);
    assert rate * (U64_MAX + 1) == rate * U64_MAX + rate;
  }
}
