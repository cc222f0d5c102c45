/** The failed-login tracker of common/src/server/login_tracker.rs.

Every clock reading is a parameter.  `check_and_record_failure` reads the clock once to test a ban
and once more when it starts one or inserts an entry, so it takes two readings. */
module LoginTracker {
  import opened Options

  /** Clock readings are in nanoseconds. */
  const SECOND: nat := 1_000_000_000
  const ENTRY_LIFETIME: nat := 3600 * SECOND

  datatype Attempt = Attempt(count: nat, firstAttempt: nat, bannedUntil: Option<nat>)

  type Attempts = map<string, Attempt>

  datatype Policy = Policy(maxAttempts: nat, banDuration: nat)

  /** The calls a run is made of.  `later` is the second clock reading. */
  datatype Event =
    | Failure(ip: string, now: nat, later: nat)
    | IsBanned(ip: string, now: nat)
    | Clear(ip: string, now: nat)
    | Cleanup(now: nat)

  /** The lazy reset both queries apply to an entry whose ban is over. */
  function Expire(a: Attempt, now: nat): Attempt {
    if a.bannedUntil.Some? && a.bannedUntil.value <= now
    then a.(bannedUntil := None, count := 0)
    else a
  }

  /** `check_and_record_failure`: the table afterwards and the answer. */
  function Fail(p: Policy, m: Attempts, ip: string, now: nat, later: nat): (Attempts, bool) {
    if ip !in m then (m[ip := Attempt(1, later, None)], true)
    else
      var a := Expire(m[ip], now);
      if a.bannedUntil.Some? then (m, false)
      else if a.count + 1 >= p.maxAttempts then
        (m[ip := a.(count := a.count + 1, bannedUntil := Some(later + p.banDuration))], false)
      else (m[ip := a.(count := a.count + 1)], true)
  }

  /** `is_banned`: the table afterwards and the answer. */
  function Query(m: Attempts, ip: string, now: nat): (Attempts, bool) {
    if ip !in m then (m, false)
    else
      var a := Expire(m[ip], now);
      (m[ip := a], a.bannedUntil.Some?)
  }

  /** `get_remaining_attempts`: it resets nothing, and a recorded ban counts even when it is over. */
  function Remaining(p: Policy, m: Attempts, ip: string): nat {
    if ip !in m then p.maxAttempts
    else if m[ip].bannedUntil.Some? || m[ip].count > p.maxAttempts then 0
    else p.maxAttempts - m[ip].count
  }

  predicate Keeps(a: Attempt, now: nat) {
    if a.bannedUntil.Some? then now < a.bannedUntil.value
    else now < a.firstAttempt + ENTRY_LIFETIME
  }

  /** `cleanup_expired`. */
  function Retain(m: Attempts, now: nat): Attempts {
    map ip | ip in m && Keeps(m[ip], now) :: m[ip]
  }

  /** One call of any kind; calls without an answer answer false. */
  function Step(p: Policy, m: Attempts, e: Event): (Attempts, bool) {
    match e
    case Failure(ip, now, later) => Fail(p, m, ip, now, later)
    case IsBanned(ip, now) => Query(m, ip, now)
    case Clear(ip, now) => (m - {ip}, false)
    case Cleanup(now) => (Retain(m, now), false)
  }

  function Run(p: Policy, m: Attempts, es: seq<Event>): Attempts
    decreases |es|
  {
    if es == [] then m else Run(p, Step(p, m, es[0]).0, es[1..])
  }

  function Answers(p: Policy, m: Attempts, es: seq<Event>): seq<bool>
    decreases |es|
  {
    if es == [] then [] else [Step(p, m, es[0]).1] + Answers(p, Step(p, m, es[0]).0, es[1..])
  }

  /** Clock readings never decrease, starting from `from`. */
  ghost predicate Ordered(from: nat, es: seq<Event>)
    decreases |es|
  {
    es != [] ==>
      && from <= es[0].now
      && (es[0].Failure? ==> es[0].now <= es[0].later)
      && Ordered(if es[0].Failure? then es[0].later else es[0].now, es[1..])
  }

  class Tracker {
    var attempts: Attempts
    const maxAttempts: nat
    const banDuration: nat

    constructor (maxAttempts: nat, banDurationSecs: nat)
      ensures attempts == map[]
      ensures this.maxAttempts == maxAttempts && this.banDuration == banDurationSecs * SECOND
    {
      attempts := map[];
      this.maxAttempts, this.banDuration := maxAttempts, banDurationSecs * SECOND;
    }

    function P(): Policy {
      Policy(maxAttempts, banDuration)
    }

    method CheckAndRecordFailure(ip: string, now: nat, later: nat) returns (allowed: bool)
      modifies this
      ensures (attempts, allowed) == Fail(P(), old(attempts), ip, now, later)
    {
      if ip in attempts {
        var attempt := attempts[ip];
        if attempt.bannedUntil.Some? {
          if now < attempt.bannedUntil.value {
            return false;
          }
          attempt := attempt.(bannedUntil := None);
          attempt := attempt.(count := 0);
        }
        attempt := attempt.(count := attempt.count + 1);
        attempts := attempts[ip := attempt];
        assert attempt == Expire(old(attempts)[ip], now).(count := attempt.count);
        if attempt.count >= maxAttempts {
          attempt := attempt.(bannedUntil := Some(later + banDuration));
          attempts := attempts[ip := attempt];
          assert attempts == old(attempts)[ip := attempt];
          return false;
        }
      } else {
        attempts := attempts[ip := Attempt(1, later, None)];
      }
      return true;
    }

    method IsBanned(ip: string, now: nat) returns (banned: bool)
      modifies this
      ensures (attempts, banned) == Query(old(attempts), ip, now)
    {
      if ip in attempts && attempts[ip].bannedUntil.Some? {
        if now < attempts[ip].bannedUntil.value {
          assert attempts == attempts[ip := attempts[ip]];
          return true;
        }
        attempts := attempts[ip := attempts[ip].(bannedUntil := None, count := 0)];
      } else if ip in attempts {
        assert attempts == attempts[ip := attempts[ip]];
      }
      return false;
    }

    method ClearAttempts(ip: string)
      modifies this
      ensures attempts == old(attempts) - {ip}
    {
      attempts := attempts - {ip};
    }

    /** Reads only; an expired ban that nothing has touched yet still reads as 0. */
    method GetRemainingAttempts(ip: string) returns (remaining: nat)
      ensures remaining == Remaining(P(), attempts, ip)
      ensures remaining <= maxAttempts
      ensures remaining == maxAttempts <==>
                maxAttempts == 0 || ip !in attempts || (attempts[ip].bannedUntil.None? && attempts[ip].count == 0)
      ensures ip in attempts && attempts[ip].bannedUntil.None? && attempts[ip].count <= maxAttempts ==>
                remaining + attempts[ip].count == maxAttempts
      ensures ip in attempts && (attempts[ip].bannedUntil.Some? || attempts[ip].count > maxAttempts) ==> remaining == 0
    {
      if ip in attempts {
        if attempts[ip].bannedUntil.Some? {
          return 0;
        }
        return if attempts[ip].count <= maxAttempts then maxAttempts - attempts[ip].count else 0;
      }
      return maxAttempts;
    }

    method CleanupExpired(now: nat)
      modifies this
      ensures attempts == Retain(old(attempts), now)
    {
      attempts := map ip | ip in attempts && Keeps(attempts[ip], now) :: attempts[ip];
    }
  }

  // ---- Answers ----

  /** The address has a ban that is still running. */
  ghost predicate BannedAt(m: Attempts, ip: string, now: nat) {
    ip in m && m[ip].bannedUntil.Some? && now < m[ip].bannedUntil.value
  }

  /** Failures since the last ban, or since the first of them; a ban that is over has wiped them out. */
  function Counted(m: Attempts, ip: string): nat {
    if ip in m && m[ip].bannedUntil.None? then m[ip].count else 0
  }

  /** `is_banned` says yes exactly while a ban runs.  It leaves every running ban and every count as it is, and
      changes nothing about any other address. */
  lemma QueryAnswers(m: Attempts, ip: string, now: nat)
    ensures var (m', banned) := Query(m, ip, now);
            && (banned <==> BannedAt(m, ip, now)) && m'.Keys == m.Keys
            && (forall k :: k in m && k != ip ==> m'[k] == m[k])
            && (ip in m ==>
                  && m'[ip].firstAttempt == m[ip].firstAttempt && Counted(m', ip) == Counted(m, ip)
                  && m'[ip].bannedUntil == if banned then m[ip].bannedUntil else None)
  {
  }

  /** A failure is let through exactly if no ban runs and it is the address's first on record or one that leaves
      the count below the threshold.  A refused one starts a ban of the configured length, unless one runs. */
  lemma FailureAnswers(p: Policy, m: Attempts, ip: string, now: nat, later: nat)
    ensures var (m', allowed) := Fail(p, m, ip, now, later);
            && (allowed <==> !BannedAt(m, ip, now) && (ip !in m || Counted(m, ip) + 1 < p.maxAttempts))
            && m'.Keys == m.Keys + {ip} && (forall k :: k in m && k != ip ==> m'[k] == m[k])
            && m'[ip].firstAttempt == (if ip in m then m[ip].firstAttempt else later)
            && m'[ip].bannedUntil == (if BannedAt(m, ip, now) then m[ip].bannedUntil
                                      else if allowed then None
                                      else Some(later + p.banDuration))
            && (!BannedAt(m, ip, now) ==> m'[ip].count == Counted(m, ip) + 1)
            && (BannedAt(m, ip, now) ==> m' == m)
  {
  }

  /** A cleanup removes exactly the bans that are over and the failures first recorded an hour ago or earlier,
      and clearing removes exactly one address; what stays, stays as it is. */
  lemma RemovalsExactly(p: Policy, m: Attempts, ip: string, now: nat)
    ensures var m' := Step(p, m, Cleanup(now)).0;
            && (forall k :: k in m' <==>
                  k in m && if m[k].bannedUntil.Some? then BannedAt(m, k, now) else now < m[k].firstAttempt + 3600 * SECOND)
            && (forall k :: k in m' ==> m'[k] == m[k])
    ensures var m' := Step(p, m, Clear(ip, now)).0;
            && (forall k :: k in m' <==> k in m && k != ip) && (forall k :: k in m' ==> m'[k] == m[k])
  {
  }

  // ---- Attempt bound ----

  /** Reachable tables: an entry that is not banned is below the threshold. */
  ghost predicate Reachable(p: Policy, m: Attempts) {
    forall ip :: ip in m && m[ip].bannedUntil.None? ==> m[ip].count < p.maxAttempts
  }

  lemma {:induction false} RunsStayReachable(p: Policy, m: Attempts, es: seq<Event>)
    requires p.maxAttempts >= 2 && Reachable(p, m)
    ensures Reachable(p, Run(p, m, es))
    decreases |es|
  {
    if es != [] {
      assert Reachable(p, Step(p, m, es[0]).0);
      RunsStayReachable(p, Step(p, m, es[0]).0, es[1..]);
    }
  }

  /** Failures of `ip` that a run lets through. */
  function Allowed(p: Policy, m: Attempts, es: seq<Event>, ip: string): nat
    decreases |es|
  {
    if es == [] then 0
    else
      var (m', answer) := Step(p, m, es[0]);
      (if es[0].Failure? && es[0].ip == ip && answer then 1 else 0) + Allowed(p, m', es[1..], ip)
  }

  /** How many more failures of `ip` can be let through from `now` to `end`. */
  function Capacity(p: Policy, m: Attempts, ip: string, now: nat, end: nat): int
    requires p.banDuration > 0
  {
    if now > end then 0
    else if ip !in m then Full(p, end - now)
    else
      var a := Expire(m[ip], now);
      if a.bannedUntil.None? then Full(p, end - now) - a.count
      else if a.bannedUntil.value > end then 0
      else Full(p, end - a.bannedUntil.value)
  }

  /** The bound for a window of the given length that starts without recorded failures. */
  function Full(p: Policy, length: nat): int
    requires p.banDuration > 0
  {
    (p.maxAttempts - 1) * (length / p.banDuration + 1)
  }

  lemma FullMono(p: Policy, a: nat, b: nat)
    requires p.banDuration > 0 && p.maxAttempts >= 1 && a <= b
    ensures p.maxAttempts - 1 <= Full(p, a) <= Full(p, b)
  {
    DivMono(a, b, p.banDuration);
    var k := p.maxAttempts - 1;
    MulMono(k, 1, a / p.banDuration + 1);
    MulMono(k, a / p.banDuration + 1, b / p.banDuration + 1);
  }

  lemma MulMono(k: nat, x: nat, y: nat)
    requires x <= y
    ensures k * x <= k * y
  {
  }

  lemma DivMono(a: nat, b: nat, d: nat)
    requires d > 0 && a <= b
    ensures 0 <= a / d <= b / d
  {
    if a / d > b / d {
      MulMono(d, b / d + 1, a / d);
      assert false;
    }
  }

  /** A ban costs one full round of attempts. */
  lemma FullAfterBan(p: Policy, length: nat)
    requires p.banDuration > 0 && p.maxAttempts >= 1 && p.banDuration <= length
    ensures Full(p, length - p.banDuration) + (p.maxAttempts - 1) == Full(p, length)
  {
    var d, q := p.banDuration, length / p.banDuration;
    DivShift(length, d);
    Distribute(p.maxAttempts - 1, q);
  }

  lemma DivShift(a: nat, d: nat)
    requires 0 < d <= a
    ensures (a - d) / d + 1 == a / d
  {
    var q, r := a / d, a % d;
    assert a == d * q + r;
    if q == 0 {
      assert false;
    }
    Distribute(d, q - 1);
    assert a - d == d * (q - 1) + r;
    DivUnique(a - d, d, q - 1, r);
  }

  lemma DivUnique(a: nat, d: nat, q: nat, r: nat)
    requires r < d && a == d * q + r
    ensures a / d == q
  {
    if a / d > q {
      MulMono(d, q + 1, a / d);
      assert false;
    } else if a / d < q {
      MulMono(d, a / d + 1, q);
      assert false;
    }
  }

  lemma Distribute(k: int, q: int)
    ensures k * q + k == k * (q + 1)
  {
  }

  /** Waiting never adds capacity, and capacity is never negative. */
  lemma CapacityShrinks(p: Policy, m: Attempts, ip: string, t0: nat, t1: nat, end: nat)
    requires p.banDuration > 0 && p.maxAttempts >= 2 && Reachable(p, m) && t0 <= t1
    ensures 0 <= Capacity(p, m, ip, t1, end) <= Capacity(p, m, ip, t0, end)
  {
    CapacityNonNegative(p, m, ip, t0, end);
    CapacityNonNegative(p, m, ip, t1, end);
    if t1 <= end {
      if ip in m && m[ip].bannedUntil.Some? && t0 < m[ip].bannedUntil.value {
        BanEnds(p, m, ip, t0, t1, end);
      } else {
        FullMono(p, end - t1, end - t0);
      }
    }
  }

  /** A ban that runs at the start either still runs at the end, or is over and leaves less time. */
  lemma BanEnds(p: Policy, m: Attempts, ip: string, t0: nat, t1: nat, end: nat)
    requires p.banDuration > 0 && p.maxAttempts >= 2 && t0 <= t1 <= end
    requires ip in m && m[ip].bannedUntil.Some? && t0 < m[ip].bannedUntil.value
    ensures Capacity(p, m, ip, t1, end) <= Capacity(p, m, ip, t0, end)
  {
    var until := m[ip].bannedUntil.value;
    if until <= t1 {
      FullMono(p, end - t1, end - until);
    }
  }

  lemma CapacityNonNegative(p: Policy, m: Attempts, ip: string, now: nat, end: nat)
    requires p.banDuration > 0 && p.maxAttempts >= 2 && Reachable(p, m)
    ensures 0 <= Capacity(p, m, ip, now, end)
  {
    if now <= end {
      FullMono(p, 0, end - now);
      FullMono(p, 0, end - now);
      if ip in m && m[ip].bannedUntil.Some? && now < m[ip].bannedUntil.value <= end {
        FullMono(p, 0, end - m[ip].bannedUntil.value);
      }
    }
  }

  /** One failure of `ip` spends what it lets through. */
  lemma FailureSpends(p: Policy, m: Attempts, ip: string, now: nat, later: nat, end: nat)
    requires p.banDuration > 0 && p.maxAttempts >= 2 && Reachable(p, m) && now <= later && now <= end
    ensures var (m', answer) := Fail(p, m, ip, now, later);
            (if answer then 1 else 0) + Capacity(p, m', ip, now, end) <= Capacity(p, m, ip, now, end)
  {
    if ip in m {
      var a := Expire(m[ip], now);
      if a.bannedUntil.None? && a.count + 1 >= p.maxAttempts {
        var until := later + p.banDuration;
        CapacityNonNegative(p, m, ip, now, end);
        if until <= end {
          FullMono(p, end - until, end - now - p.banDuration);
          FullAfterBan(p, end - now);
        }
      }
    }
  }

  /** Calls up to `end` that neither clear this address nor clean up. */
  predicate Bounded(e: Event, ip: string, end: nat) {
    e.now <= end && !e.Cleanup? && !(e.Clear? && e.ip == ip)
  }

  /** Attempt bound over one window: if all clock readings that decide an answer lie in a window
      that ends at `end`, what a run lets through is within the capacity it starts with. */
  lemma {:induction false} AllowedWithinCapacity(p: Policy, m: Attempts, es: seq<Event>, ip: string, from: nat, end: nat)
    requires p.banDuration > 0 && p.maxAttempts >= 2 && Reachable(p, m)
    requires Ordered(from, es)
    requires forall e :: e in es ==> Bounded(e, ip, end)
    ensures Allowed(p, m, es, ip) <= Capacity(p, m, ip, from, end)
    decreases |es|
  {
    if es == [] {
      CapacityNonNegative(p, m, ip, from, end);
    } else {
      var e := es[0];
      var (m', answer) := Step(p, m, e);
      assert e in es;
      CapacityShrinks(p, m, ip, from, e.now, end);
      RunsStayReachable(p, m, [e]);
      assert Run(p, m, [e]) == Run(p, m', [e][1..]) == m';
      if e.Failure? && e.ip == ip {
        FailureSpends(p, m, ip, e.now, e.later, end);
      }
      assert (if e.Failure? && e.ip == ip && answer then 1 else 0) + Capacity(p, m', ip, e.now, end)
          <= Capacity(p, m, ip, e.now, end);
      var next := if e.Failure? then e.later else e.now;
      CapacityShrinks(p, m', ip, e.now, next, end);
      AllowedWithinCapacity(p, m', es[1..], ip, next, end);
    }
  }

  /** Attempt bound: after any history at all, a run whose answers are decided within a window of length
      `window` lets at most (maxAttempts - 1) * (window / banDuration + 1) failures of one address through,
      whatever the other addresses do, as long as nothing clears this address or cleans up. */
  lemma AttemptBound(p: Policy, history: seq<Event>, es: seq<Event>, ip: string, from: nat, window: nat)
    requires p.banDuration > 0 && p.maxAttempts >= 2
    requires Ordered(from, es)
    requires forall e :: e in es ==> Bounded(e, ip, from + window)
    ensures Allowed(p, Run(p, map[], history), es, ip) <= (p.maxAttempts - 1) * (window / p.banDuration + 1)
  {
    RunsStayReachable(p, map[], history);
    var m := Run(p, map[], history);
    AllowedWithinCapacity(p, m, es, ip, from, from + window);
    FullMono(p, 0, window);
    if ip in m && m[ip].bannedUntil.Some? && from < m[ip].bannedUntil.value <= from + window {
      FullMono(p, from + window - m[ip].bannedUntil.value, window);
    }
  }

  /** With a threshold below two the bound fails on the very first failure of any address: a new entry
      is inserted without being compared with the threshold. */
  lemma AttemptBoundNeedsTwo(p: Policy, ip: string, now: nat, window: nat)
    requires p.banDuration > 0 && p.maxAttempts < 2
    ensures Allowed(p, map[], [Failure(ip, now, now)], ip) > (p.maxAttempts - 1) * (window / p.banDuration + 1)
  {
    var es := [Failure(ip, now, now)];
    assert Step(p, map[], es[0]).1;
    assert Allowed(p, map[], es, ip) == 1 + Allowed(p, Step(p, map[], es[0]).0, es[1..], ip);
    DivMono(0, window, p.banDuration);
    MulMono(1 - p.maxAttempts, 0, window / p.banDuration + 1);
  }

  /** As many failures of one address at one time. */
  function Burst(ip: string, t: nat, k: nat): seq<Event> {
    if k == 0 then [] else [Failure(ip, t, t)] + Burst(ip, t, k - 1)
  }

  /** Rounds of `maxAttempts` failures, each starting when the ban of the one before is over. */
  function Rounds(p: Policy, ip: string, t: nat, n: nat): seq<Event>
    decreases n
  {
    if n == 0 then [] else Burst(ip, t, p.maxAttempts) + Rounds(p, ip, t + p.banDuration, n - 1)
  }

  /** No failure of the address counts at time `t`. */
  predicate Unburdened(m: Attempts, ip: string, t: nat) {
    ip in m ==> Expire(m[ip], t).bannedUntil.None? && Expire(m[ip], t).count == 0
  }

  lemma {:induction false} RunAppend(p: Policy, m: Attempts, a: seq<Event>, b: seq<Event>, ip: string)
    ensures Run(p, m, a + b) == Run(p, Run(p, m, a), b)
    ensures Allowed(p, m, a + b, ip) == Allowed(p, m, a, ip) + Allowed(p, Run(p, m, a), b, ip)
    decreases |a|
  {
    if a == [] {
      assert a + b == b;
    } else {
      assert (a + b)[1..] == a[1..] + b;
      RunAppend(p, Step(p, m, a[0]).0, a[1..], b, ip);
    }
  }

  /** From an entry with `count` failures, further ones go through up to the last but one. */
  lemma {:induction false} BurstFrom(p: Policy, m: Attempts, ip: string, t: nat, count: nat)
    requires ip in m && Expire(m[ip], t).bannedUntil.None? && Expire(m[ip], t).count == count < p.maxAttempts
    ensures var es := Burst(ip, t, p.maxAttempts - count);
            && Allowed(p, m, es, ip) == p.maxAttempts - count - 1
            && ip in Run(p, m, es) && Run(p, m, es)[ip].bannedUntil == Some(t + p.banDuration)
    decreases p.maxAttempts - count
  {
    var es := Burst(ip, t, p.maxAttempts - count);
    var m' := Fail(p, m, ip, t, t).0;
    assert es[0] == Failure(ip, t, t) && es[1..] == Burst(ip, t, p.maxAttempts - count - 1);
    if count + 1 < p.maxAttempts {
      BurstFrom(p, m', ip, t, count + 1);
    }
  }

  lemma RoundAllowed(p: Policy, m: Attempts, ip: string, t: nat)
    requires p.maxAttempts >= 2 && Unburdened(m, ip, t)
    ensures var es := Burst(ip, t, p.maxAttempts);
            && Allowed(p, m, es, ip) == p.maxAttempts - 1
            && ip in Run(p, m, es) && Run(p, m, es)[ip].bannedUntil == Some(t + p.banDuration)
  {
    if ip in m {
      BurstFrom(p, m, ip, t, 0);
    } else {
      var es := Burst(ip, t, p.maxAttempts);
      assert es[0] == Failure(ip, t, t) && es[1..] == Burst(ip, t, p.maxAttempts - 1);
      BurstFrom(p, Fail(p, m, ip, t, t).0, ip, t, 1);
    }
  }

  lemma {:induction false} RoundsAllowed(p: Policy, m: Attempts, ip: string, t: nat, n: nat)
    requires p.maxAttempts >= 2 && Unburdened(m, ip, t)
    ensures Allowed(p, m, Rounds(p, ip, t, n), ip) == (p.maxAttempts - 1) * n
    decreases n
  {
    if n > 0 {
      var round, rest := Burst(ip, t, p.maxAttempts), Rounds(p, ip, t + p.banDuration, n - 1);
      RoundAllowed(p, m, ip, t);
      RunAppend(p, m, round, rest, ip);
      RoundsAllowed(p, Run(p, m, round), ip, t + p.banDuration, n - 1);
      Distribute(p.maxAttempts - 1, n - 1);
    }
  }

  lemma {:induction false} BurstOrdered(ip: string, from: nat, t: nat, k: nat, rest: seq<Event>)
    requires from <= t && Ordered(t, rest)
    ensures Ordered(from, Burst(ip, t, k) + rest)
    ensures forall e :: e in Burst(ip, t, k) ==> e == Failure(ip, t, t)
    decreases k
  {
    var all := Burst(ip, t, k) + rest;
    if k == 0 {
      assert all == rest;
    } else {
      BurstOrdered(ip, t, t, k - 1, rest);
      assert all[0] == Failure(ip, t, t) && all[1..] == Burst(ip, t, k - 1) + rest;
    }
  }

  lemma {:induction false} RoundsOrdered(p: Policy, ip: string, from: nat, t: nat, n: nat)
    requires from <= t
    ensures Ordered(from, Rounds(p, ip, t, n))
    ensures forall e :: e in Rounds(p, ip, t, n) ==> e.Failure? && e.now + p.banDuration <= t + n * p.banDuration
    decreases n
  {
    if n > 0 {
      RoundsOrdered(p, ip, t, t + p.banDuration, n - 1);
      BurstOrdered(ip, from, t, p.maxAttempts, Rounds(p, ip, t + p.banDuration, n - 1));
      Distribute(p.banDuration, n - 1);
      MulMono(p.banDuration, 1, n);
    }
  }

  lemma RoundsFit(p: Policy, ip: string, from: nat, window: nat)
    requires p.banDuration > 0
    ensures var es := Rounds(p, ip, from, window / p.banDuration + 1);
            Ordered(from, es) && forall e :: e in es ==> Bounded(e, ip, from + window)
  {
    var d, q := p.banDuration, window / p.banDuration;
    RoundsOrdered(p, ip, from, from, q + 1);
    Distribute(d, q);
    assert d * q <= window;
    var es := Rounds(p, ip, from, q + 1);
    forall e | e in es
      ensures Bounded(e, ip, from + window)
    {
      assert e.now + d <= from + (q + 1) * d;
    }
  }

  /** The bound is met with equality in every window: full rounds, each right after the ban of the last. */
  lemma AttemptBoundAttained(p: Policy, ip: string, from: nat, window: nat)
    requires p.banDuration > 0 && p.maxAttempts >= 2
    ensures var es := Rounds(p, ip, from, window / p.banDuration + 1);
            && Ordered(from, es)
            && (forall e :: e in es ==> Bounded(e, ip, from + window))
            && Allowed(p, map[], es, ip) == (p.maxAttempts - 1) * (window / p.banDuration + 1)
  {
    RoundsFit(p, ip, from, window);
    RoundsAllowed(p, map[], ip, from, window / p.banDuration + 1);
  }

  // ---- Lazy expiry ----

  /** Two tables that differ only in whether bans over by `now` have been reset yet. */
  ghost predicate Similar(m0: Attempts, m1: Attempts, now: nat) {
    && m0.Keys == m1.Keys
    && forall ip :: ip in m0 ==> Expire(m0[ip], now) == Expire(m1[ip], now)
  }

  lemma SimilarLater(m0: Attempts, m1: Attempts, from: nat, to: nat)
    requires Similar(m0, m1, from) && from <= to
    ensures Similar(m0, m1, to)
  {
    forall ip | ip in m0
      ensures Expire(m0[ip], to) == Expire(m1[ip], to)
    {
      assert Expire(m0[ip], from) == Expire(m1[ip], from);
    }
  }

  lemma SimilarStep(p: Policy, m0: Attempts, m1: Attempts, e: Event, from: nat, to: nat)
    requires !e.Cleanup? && Similar(m0, m1, from) && from <= e.now <= to
    ensures Step(p, m0, e).1 == Step(p, m1, e).1
    ensures Similar(Step(p, m0, e).0, Step(p, m1, e).0, to)
  {
    SimilarLater(m0, m1, from, e.now);
    SimilarLater(m0, m1, from, to);
    match e
    case Failure(ip, now, later) =>
      if ip in m0 {
        assert Expire(m0[ip], now) == Expire(m1[ip], now);
      }
    case IsBanned(ip, now) =>
      if ip in m0 {
        assert Expire(m0[ip], now) == Expire(m1[ip], now);
      }
    case Clear(ip, now) =>
  }

  /** A query by itself only performs the lazy reset. */
  lemma QueryIsSilent(p: Policy, m0: Attempts, m1: Attempts, e: Event, from: nat)
    requires e.IsBanned? && Similar(m0, m1, from) && from <= e.now
    ensures Similar(Step(p, m0, e).0, m1, e.now)
  {
    forall ip | ip in m0
      ensures Expire(Step(p, m0, e).0[ip], e.now) == Expire(m1[ip], e.now)
    {
      assert Expire(m0[ip], from) == Expire(m1[ip], from);
    }
  }

  /** The events, or the answers, at the positions that are kept. */
  function Kept<T>(xs: seq<T>, keep: seq<bool>): seq<T>
    requires |xs| == |keep|
  {
    if xs == [] then [] else (if keep[0] then [xs[0]] else []) + Kept(xs[1..], keep[1..])
  }

  lemma {:induction false} AnswersCount(p: Policy, m: Attempts, es: seq<Event>)
    ensures |Answers(p, m, es)| == |es|
    decreases |es|
  {
    if es != [] {
      AnswersCount(p, Step(p, m, es[0]).0, es[1..]);
    }
  }

  lemma {:induction false} DropQueries(p: Policy, m0: Attempts, m1: Attempts, es: seq<Event>, keep: seq<bool>, from: nat)
    requires |es| == |keep| && Ordered(from, es) && Similar(m0, m1, from)
    requires forall i :: 0 <= i < |es| ==> !es[i].Cleanup? && (keep[i] || es[i].IsBanned?)
    ensures |Answers(p, m0, es)| == |keep|
    ensures Kept(Answers(p, m0, es), keep) == Answers(p, m1, Kept(es, keep))
    decreases |es|
  {
    AnswersCount(p, m0, es);
    if es != [] {
      var e := es[0];
      assert !es[0].Cleanup? && (keep[0] || es[0].IsBanned?);
      var to := if e.Failure? then e.later else e.now;
      var m0' := Step(p, m0, e).0;
      var tail := Kept(es[1..], keep[1..]);
      assert Answers(p, m0, es)[1..] == Answers(p, m0', es[1..]);
      if keep[0] {
        SimilarStep(p, m0, m1, e, from, to);
        var m1' := Step(p, m1, e).0;
        DropQueries(p, m0', m1', es[1..], keep[1..], to);
        assert Kept(es, keep) == [e] + tail;
        assert ([e] + tail)[1..] == tail;
      } else {
        QueryIsSilent(p, m0, m1, e, from);
        DropQueries(p, m0', m1, es[1..], keep[1..], to);
        assert Kept(es, keep) == tail;
      }
    }
  }

  /** Lazy expiry is transparent to failures and queries: in a run without cleanups, leaving out any of the
      `is_banned` calls changes none of the other answers. */
  lemma LazyExpiryTransparent(p: Policy, m: Attempts, es: seq<Event>, keep: seq<bool>, from: nat)
    requires |es| == |keep| && Ordered(from, es)
    requires forall i :: 0 <= i < |es| ==> !es[i].Cleanup? && (keep[i] || es[i].IsBanned?)
    ensures |Answers(p, m, es)| == |keep|
    ensures Kept(Answers(p, m, es), keep) == Answers(p, m, Kept(es, keep))
  {
    DropQueries(p, m, m, es, keep, from);
  }

  /** A ban is recorded and over. */
  predicate BanOver(m: Attempts, ip: string, now: nat) {
    ip in m && m[ip].bannedUntil.Some? && m[ip].bannedUntil.value <= now
  }

  /** The lazy reset does show in `get_remaining_attempts`: one `is_banned` changes the remaining attempts of
      an address exactly if it asks for that address while a ban of it is recorded and over. */
  lemma QueryChangesRemaining(p: Policy, m: Attempts, q: string, ip: string, now: nat)
    ensures Remaining(p, Query(m, q, now).0, ip) != Remaining(p, m, ip)
        <==> p.maxAttempts > 0 && ip == q && BanOver(m, ip, now)
  {
  }

  /** No clock reading is later than `now`. */
  predicate Until(es: seq<Event>, now: nat) {
    forall e :: e in es ==> e.now <= now && (e.Failure? ==> e.later <= now)
  }

  lemma {:induction false} DropQueriesTables(p: Policy, m0: Attempts, m1: Attempts, es: seq<Event>, keep: seq<bool>, from: nat, now: nat)
    requires |es| == |keep| && Ordered(from, es) && Similar(m0, m1, from) && from <= now && Until(es, now)
    requires forall i :: 0 <= i < |es| ==> !es[i].Cleanup? && (keep[i] || es[i].IsBanned?)
    ensures Similar(Run(p, m0, es), Run(p, m1, Kept(es, keep)), now)
    decreases |es|
  {
    if es == [] {
      SimilarLater(m0, m1, from, now);
    } else {
      var e := es[0];
      assert e in es && !es[0].Cleanup? && (keep[0] || es[0].IsBanned?);
      var to := if e.Failure? then e.later else e.now;
      var m0', tail := Step(p, m0, e).0, Kept(es[1..], keep[1..]);
      if keep[0] {
        SimilarStep(p, m0, m1, e, from, to);
        DropQueriesTables(p, m0', Step(p, m1, e).0, es[1..], keep[1..], to, now);
        assert Kept(es, keep) == [e] + tail && ([e] + tail)[1..] == tail;
      } else {
        QueryIsSilent(p, m0, m1, e, from);
        DropQueriesTables(p, m0', m1, es[1..], keep[1..], to, now);
        assert Kept(es, keep) == tail;
      }
    }
  }

  lemma SimilarRemaining(p: Policy, m0: Attempts, m1: Attempts, ip: string, now: nat)
    requires Similar(m0, m1, now)
    ensures Remaining(p, m0, ip) != Remaining(p, m1, ip)
        <==> p.maxAttempts > 0 && BanOver(m0, ip, now) != BanOver(m1, ip, now)
  {
    if ip in m0 {
      assert Expire(m0[ip], now) == Expire(m1[ip], now);
    }
  }

  /** Over whole runs: leaving out `is_banned` calls changes the remaining attempts of an address exactly if,
      afterwards, just one of the two tables still records a ban of it that is over. */
  lemma RemainingAfterDropping(p: Policy, m: Attempts, es: seq<Event>, keep: seq<bool>, from: nat, ip: string, now: nat)
    requires |es| == |keep| && Ordered(from, es) && from <= now && Until(es, now)
    requires forall i :: 0 <= i < |es| ==> !es[i].Cleanup? && (keep[i] || es[i].IsBanned?)
    ensures var all, some := Run(p, m, es), Run(p, m, Kept(es, keep));
            Remaining(p, all, ip) != Remaining(p, some, ip)
            <==> p.maxAttempts > 0 && BanOver(all, ip, now) != BanOver(some, ip, now)
  {
    DropQueriesTables(p, m, m, es, keep, from, now);
    SimilarRemaining(p, Run(p, m, es), Run(p, m, Kept(es, keep)), ip, now);
  }

  /** A running ban is neither extended nor shortened by anything short of clearing the address. */
  lemma {:induction false} BanIsFixed(p: Policy, m: Attempts, es: seq<Event>, ip: string, until: nat)
    requires ip in m && m[ip].bannedUntil == Some(until)
    requires forall e :: e in es ==> e.now < until && !(e.Clear? && e.ip == ip)
    ensures ip in Run(p, m, es) && Run(p, m, es)[ip] == m[ip]
    ensures Allowed(p, m, es, ip) == 0
    decreases |es|
  {
    if es != [] {
      assert es[0] in es;
      BanIsFixed(p, Step(p, m, es[0]).0, es[1..], ip, until);
    }
  }

  /** A cleanup changes no `is_banned` answer, at that time or later, however many are asked. */
  lemma {:induction false} CleanupKeepsBans(p: Policy, m0: Attempts, m1: Attempts, es: seq<Event>, from: nat)
    requires Ordered(from, es)
    requires forall e :: e in es ==> e.IsBanned?
    requires SameBans(m0, m1, from)
    ensures Answers(p, m0, es) == Answers(p, m1, es)
    decreases |es|
  {
    if es != [] {
      var e := es[0];
      assert e in es;
      assert BannedAt(m0, e.ip, from) == BannedAt(m1, e.ip, from);
      var m0', m1' := Step(p, m0, e).0, Step(p, m1, e).0;
      forall ip
        ensures BannedAt(m0', ip, e.now) == BannedAt(m1', ip, e.now)
        ensures BannedAt(m0', ip, e.now) ==> m0'[ip].bannedUntil == m1'[ip].bannedUntil
      {
        assert BannedAt(m0, ip, from) == BannedAt(m1, ip, from);
      }
      CleanupKeepsBans(p, m0', m1', es[1..], e.now);
    }
  }

  ghost predicate SameBans(m0: Attempts, m1: Attempts, now: nat) {
    forall ip ::
      && BannedAt(m0, ip, now) == BannedAt(m1, ip, now)
      && (BannedAt(m0, ip, now) ==> m0[ip].bannedUntil == m1[ip].bannedUntil)
  }

  lemma CleanupTransparentToBans(p: Policy, m: Attempts, now: nat, es: seq<Event>)
    requires Ordered(now, es)
    requires forall e :: e in es ==> e.IsBanned?
    ensures Answers(p, m, es) == Answers(p, Retain(m, now), es)
  {
    CleanupKeepsBans(p, m, Retain(m, now), es, now);
  }

  // ---- What a cleanup forgets ----

  /** What counts of an address at time `t`: its failures and its ban.  An absent entry counts for nothing. */
  function Standing(m: Attempts, ip: string, t: nat): (nat, Option<nat>) {
    if ip in m then (Expire(m[ip], t).count, Expire(m[ip], t).bannedUntil) else (0, None)
  }

  ghost predicate SameStanding(m0: Attempts, m1: Attempts, t: nat) {
    forall ip :: Standing(m0, ip, t) == Standing(m1, ip, t)
  }

  lemma StandingLater(m0: Attempts, m1: Attempts, from: nat, to: nat)
    requires SameStanding(m0, m1, from) && from <= to
    ensures SameStanding(m0, m1, to)
  {
    forall ip
      ensures Standing(m0, ip, to) == Standing(m1, ip, to)
    {
      assert Standing(m0, ip, from) == Standing(m1, ip, from);
    }
  }

  lemma StandingStep(p: Policy, m0: Attempts, m1: Attempts, e: Event)
    requires p.maxAttempts >= 2 && !e.Cleanup? && SameStanding(m0, m1, e.now)
    ensures Step(p, m0, e).1 == Step(p, m1, e).1
    ensures SameStanding(Step(p, m0, e).0, Step(p, m1, e).0, e.now)
  {
    var m0', m1' := Step(p, m0, e).0, Step(p, m1, e).0;
    assert Standing(m0, e.ip, e.now) == Standing(m1, e.ip, e.now);
    forall ip
      ensures Standing(m0', ip, e.now) == Standing(m1', ip, e.now)
    {
      assert Standing(m0, ip, e.now) == Standing(m1, ip, e.now);
    }
  }

  ghost predicate WithoutCleanup(es: seq<Event>) {
    forall e :: e in es ==> !e.Cleanup?
  }

  lemma {:induction false} SameStandingSameAnswers(p: Policy, m0: Attempts, m1: Attempts, es: seq<Event>, from: nat)
    requires p.maxAttempts >= 2 && SameStanding(m0, m1, from) && Ordered(from, es) && WithoutCleanup(es)
    ensures Answers(p, m0, es) == Answers(p, m1, es)
    decreases |es|
  {
    if es != [] {
      var e := es[0];
      assert e in es;
      var m0', m1' := Step(p, m0, e).0, Step(p, m1, e).0;
      var next := if e.Failure? then e.later else e.now;
      StandingLater(m0, m1, from, e.now);
      StandingStep(p, m0, m1, e);
      StandingLater(m0', m1', e.now, next);
      SameStandingSameAnswers(p, m0', m1', es[1..], next);
    }
  }

  /** Failures at one time tell a table with more failures on record from one with fewer. */
  lemma {:induction false} FailuresTell(p: Policy, m0: Attempts, m1: Attempts, ip: string, now: nat) returns (es: seq<Event>)
    requires ip in m0 && Standing(m0, ip, now).1.None? && Standing(m1, ip, now).1.None?
    requires ip in m1 ==> Standing(m1, ip, now).0 < Standing(m0, ip, now).0 && Standing(m1, ip, now).0 + 1 < p.maxAttempts
    requires ip !in m1 ==> Standing(m0, ip, now).0 > 0 || p.maxAttempts < 2
    ensures Ordered(now, es) && WithoutCleanup(es) && Answers(p, m0, es) != Answers(p, m1, es)
    decreases p.maxAttempts - Standing(m0, ip, now).0
  {
    var f := Failure(ip, now, now);
    var (m0', a0) := Fail(p, m0, ip, now, now);
    var (m1', a1) := Fail(p, m1, ip, now, now);
    if Standing(m0, ip, now).0 + 1 >= p.maxAttempts {
      es := [f];
      assert !a0 && a1;
      assert Answers(p, m0, es)[0] == a0 && Answers(p, m1, es)[0] == a1;
    } else {
      var rest := FailuresTell(p, m0', m1', ip, now);
      es := [f] + rest;
      assert es[1..] == rest;
      assert Answers(p, m0, es)[1..] == Answers(p, m0', rest) && Answers(p, m1, es)[1..] == Answers(p, m1', rest);
    }
  }

  /** Everything a cleanup removes is worth no more than an absent entry. */
  ghost predicate RemovesNothingThatCounts(p: Policy, m: Attempts, now: nat) {
    forall ip :: ip in m && !Keeps(m[ip], now) ==> p.maxAttempts >= 2 && Expire(m[ip], now).count == 0
  }

  ghost predicate CleanupUnnoticed(p: Policy, m: Attempts, now: nat) {
    forall es :: Ordered(now, es) && WithoutCleanup(es) ==> Answers(p, m, es) == Answers(p, Retain(m, now), es)
  }

  /** Exactly when a cleanup goes unnoticed by every later failure, query and clearing: when each entry it
      removes has no failure that still counts, and the threshold is at least two (below that, the first
      failure of an absent address is let through and that of a recorded one is not). */
  lemma CleanupUnnoticedExactly(p: Policy, m: Attempts, now: nat)
    ensures CleanupUnnoticed(p, m, now) <==> RemovesNothingThatCounts(p, m, now)
  {
    if RemovesNothingThatCounts(p, m, now) {
      CleanupHarmless(p, m, now);
    } else {
      var ip :| ip in m && !Keeps(m[ip], now) && !(p.maxAttempts >= 2 && Expire(m[ip], now).count == 0);
      var es := FailuresTell(p, m, Retain(m, now), ip, now);
    }
  }

  lemma CleanupHarmless(p: Policy, m: Attempts, now: nat)
    requires RemovesNothingThatCounts(p, m, now)
    ensures CleanupUnnoticed(p, m, now)
  {
    if p.maxAttempts < 2 {
      assert Retain(m, now) == m;
    } else {
      assert SameStanding(m, Retain(m, now), now);
      forall es | Ordered(now, es) && WithoutCleanup(es)
        ensures Answers(p, m, es) == Answers(p, Retain(m, now), es)
      {
        SameStandingSameAnswers(p, m, Retain(m, now), es, now);
      }
    }
  }

  /** What a cleanup does to `get_remaining_attempts`: it changes the answer exactly for the entries it removes
      that hold a failure or a ban, over or not. */
  lemma CleanupChangesRemaining(p: Policy, m: Attempts, ip: string, now: nat)
    ensures Remaining(p, Retain(m, now), ip) != Remaining(p, m, ip)
        <==> p.maxAttempts > 0 && ip in m && !Keeps(m[ip], now) && (m[ip].bannedUntil.Some? || m[ip].count > 0)
  {
  }

  /** The condition does fail in practice: under every policy, a round of failures that stops just short of
      a ban still counts an hour later, unless a cleanup comes in between. */
  lemma CleanupForgetsFailures(p: Policy, ip: string, t: nat, now: nat)
    requires p.maxAttempts >= 2 && t + ENTRY_LIFETIME <= now
    ensures var m := Run(p, map[], Burst(ip, t, p.maxAttempts - 1));
            !Fail(p, m, ip, now, now).1 && Fail(p, Retain(m, now), ip, now, now).1
  {
    assert Burst(ip, t, p.maxAttempts - 1)[0] == Failure(ip, t, t);
    assert Burst(ip, t, p.maxAttempts - 1)[1..] == Burst(ip, t, p.maxAttempts - 2);
    BurstCounts(p, map[ip := Attempt(1, t, None)], ip, t, p.maxAttempts - 2);
  }

  lemma {:induction false} BurstCounts(p: Policy, m: Attempts, ip: string, t: nat, k: nat)
    requires ip in m && m[ip].bannedUntil.None? && m[ip].count + k < p.maxAttempts
    ensures var m' := Run(p, m, Burst(ip, t, k));
            ip in m' && m'[ip] == m[ip].(count := m[ip].count + k)
    decreases k
  {
    if k > 0 {
      assert Burst(ip, t, k)[0] == Failure(ip, t, t) && Burst(ip, t, k)[1..] == Burst(ip, t, k - 1);
      BurstCounts(p, Fail(p, m, ip, t, t).0, ip, t, k - 1);
    }
  }
}
