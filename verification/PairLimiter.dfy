/**
  The pairing rate limiter of src/server.rs: per-address deques of accepted attempts,
  against the plain history of what was accepted.
*/
module PairLimiter {
  import opened Common

  /** Sixty seconds of the clock's nanoseconds. */
  const WINDOW: int := 60_000_000_000

  datatype Attempt = Attempt(ip: nat, at: int)

  // ---------------------------------------------------------------------
  // The history
  // ---------------------------------------------------------------------

  /** When address `ip` was let through. */
  function Times(log: seq<Attempt>, ip: nat): seq<int> {
    if log == [] then []
    else
      var n := |log| - 1;
      Times(log[..n], ip) + if log[n].ip == ip then [log[n].at] else []
  }

  /** How many of the times lie in the closed interval. */
  function Within(times: seq<int>, lo: int, hi: int): nat {
    if times == [] then 0
    else
      var n := |times| - 1;
      Within(times[..n], lo, hi) + if lo <= times[n] <= hi then 1 else 0
  }

  function Recent(log: seq<Attempt>, a: Attempt): nat {
    Within(Times(log, a.ip), a.at - WINDOW, a.at)
  }

  /** An attempt is let through iff fewer than `limit` of its address were in the last sixty seconds. */
  function Admit(log: seq<Attempt>, a: Attempt, limit: nat): seq<Attempt> {
    if Recent(log, a) < limit then log + [a] else log
  }

  function Accepted(attempts: seq<Attempt>, limit: nat): seq<Attempt> {
    if attempts == [] then []
    else Admit(Accepted(attempts[..|attempts| - 1], limit), attempts[|attempts| - 1], limit)
  }

  predicate Ordered(attempts: seq<Attempt>) {
    forall i, j :: 0 <= i < j < |attempts| ==> attempts[i].at <= attempts[j].at
  }

  predicate Sorted(times: seq<int>) {
    forall i, j :: 0 <= i < j < |times| ==> times[i] <= times[j]
  }

  lemma TimesSnoc(log: seq<Attempt>, a: Attempt, ip: nat)
    ensures Times(log + [a], ip) == Times(log, ip) + if a.ip == ip then [a.at] else []
  {
    assert (log + [a])[..|log|] == log;
  }

  lemma WithinSnoc(times: seq<int>, t: int, lo: int, hi: int)
    ensures Within(times + [t], lo, hi) == Within(times, lo, hi) + if lo <= t <= hi then 1 else 0
  {
    assert (times + [t])[..|times|] == times;
  }

  /** An accepted attempt counts for sixty seconds, to the nanosecond and inclusive, for its own address only. */
  lemma CountsForAMinute(log: seq<Attempt>, ip: nat, at: int, later: Attempt)
    requires at <= later.at
    ensures Recent(log + [Attempt(ip, at)], later) ==
            Recent(log, later) + if later.ip == ip && later.at - at <= 60_000_000_000 then 1 else 0
  {
    hide Times, Within;
    TimesSnoc(log, Attempt(ip, at), later.ip);
    WithinSnoc(Times(log, later.ip), at, later.at - WINDOW, later.at);
    assert Times(log, later.ip) + [] == Times(log, later.ip);
  }

  lemma AcceptedSnoc(attempts: seq<Attempt>, a: Attempt, limit: nat)
    ensures Accepted(attempts + [a], limit) == Admit(Accepted(attempts, limit), a, limit)
  {
    assert (attempts + [a])[..|attempts|] == attempts;
  }

  lemma {:induction false} TimesBounded(log: seq<Attempt>, ip: nat, hi: int)
    requires Ordered(log) && (forall i :: 0 <= i < |log| ==> log[i].at <= hi)
    ensures Sorted(Times(log, ip)) && forall i :: 0 <= i < |Times(log, ip)| ==> Times(log, ip)[i] <= hi
  {
    if log != [] {
      TimesBounded(log[..|log| - 1], ip, log[|log| - 1].at);
    }
  }

  lemma {:induction false} AcceptedOrdered(attempts: seq<Attempt>, limit: nat, hi: int)
    requires Ordered(attempts) && (forall i :: 0 <= i < |attempts| ==> attempts[i].at <= hi)
    ensures var log := Accepted(attempts, limit);
            Ordered(log) && forall i :: 0 <= i < |log| ==> log[i].at <= hi
  {
    hide Recent;
    if attempts != [] {
      AcceptedOrdered(attempts[..|attempts| - 1], limit, attempts[|attempts| - 1].at);
    }
  }

  /** A wider interval holds at least as many times. */
  lemma {:induction false} WithinGrows(times: seq<int>, lo: int, hi: int, lo': int, hi': int)
    requires lo' <= lo && forall i :: 0 <= i < |times| ==> times[i] <= hi'
    ensures Within(times, lo, hi) <= Within(times, lo', hi')
  {
    if times != [] {
      WithinGrows(times[..|times| - 1], lo, hi, lo', hi');
    }
  }

  lemma WindowStep(log: seq<Attempt>, a: Attempt, limit: nat, ip: nat, t: int)
    requires Ordered(log) && (forall i :: 0 <= i < |log| ==> log[i].at <= a.at)
    requires Within(Times(log, ip), t, t + WINDOW) <= limit
    ensures Within(Times(Admit(log, a, limit), ip), t, t + WINDOW) <= limit
  {
    hide Within, Times, Ordered, Sorted, WINDOW;
    TimesBounded(log, ip, a.at);
    WithinStep(Times(log, ip), a.at, limit, t);
    TimesAdmit(log, a, limit, ip);
    hide Recent, Admit;
  }

  lemma TimesAdmit(log: seq<Attempt>, a: Attempt, limit: nat, ip: nat)
    ensures var times, after := Times(log, ip), Times(Admit(log, a, limit), ip);
            || after == times
            || (after == times + [a.at] && a.ip == ip && Within(times, a.at - WINDOW, a.at) < limit)
  {
    hide Within, WINDOW;
    TimesSnoc(log, a, ip);
    hide Times;
    assert Times(log, ip) + [] == Times(log, ip);
  }

  lemma WithinStep(times: seq<int>, now: int, limit: nat, t: int)
    requires (forall i :: 0 <= i < |times| ==> times[i] <= now) && Within(times, t, t + WINDOW) <= limit
    ensures Within(times, now - WINDOW, now) < limit ==> Within(times + [now], t, t + WINDOW) <= limit
  {
    hide Within;
    WithinSnoc(times, now, t, t + WINDOW);
    if now <= t + WINDOW {
      WithinGrows(times, t, t + WINDOW, now - WINDOW, now);
    }
  }

  /** Every closed window of sixty seconds holds at most `limit` accepted attempts of an address. */
  lemma {:induction false} AtMostLimit(attempts: seq<Attempt>, limit: nat, ip: nat, t: int)
    requires Ordered(attempts)
    ensures Within(Times(Accepted(attempts, limit), ip), t, t + WINDOW) <= limit
  {
    if attempts != [] {
      var before, a := attempts[..|attempts| - 1], attempts[|attempts| - 1];
      AtMostLimit(before, limit, ip, t);
      AcceptedOrdered(before, limit, a.at);
      WindowStep(Accepted(before, limit), a, limit, ip, t);
    }
  }

  predicate Rejected(attempts: seq<Attempt>, a: Attempt, limit: nat) {
    Recent(Accepted(attempts, limit), a) >= limit
  }

  /** A rejected attempt leaves no trace: every later attempt fares as if it had not been made. */
  lemma {:induction false} RejectedLeavesNoTrace(a: seq<Attempt>, r: Attempt, b: seq<Attempt>, limit: nat)
    requires Rejected(a, r, limit)
    ensures Accepted(a + [r] + b, limit) == Accepted(a + b, limit)
    decreases |b|
  {
    hide Recent, Accepted;
    if b == [] {
      AcceptedSnoc(a, r, limit);
      assert a + [r] + b == a + [r] && a + b == a;
    } else {
      var front, last := b[..|b| - 1], b[|b| - 1];
      RejectedLeavesNoTrace(a, r, front, limit);
      AcceptedSnoc(a + [r] + front, last, limit);
      AcceptedSnoc(a + front, last, limit);
      assert a + [r] + b == (a + [r] + front) + [last] && a + b == (a + front) + [last];
    }
  }

  function Only(attempts: seq<Attempt>, ip: nat): seq<Attempt> {
    if attempts == [] then []
    else
      var n := |attempts| - 1;
      Only(attempts[..n], ip) + if attempts[n].ip == ip then [attempts[n]] else []
  }

  /** No address can use up another one's attempts. */
  lemma {:induction false} AddressesIndependent(attempts: seq<Attempt>, limit: nat, ip: nat)
    ensures Times(Accepted(attempts, limit), ip) == Times(Accepted(Only(attempts, ip), limit), ip)
  {
    hide Within;
    if attempts != [] {
      var before, a := attempts[..|attempts| - 1], attempts[|attempts| - 1];
      AddressesIndependent(before, limit, ip);
      TimesSnoc(Accepted(before, limit), a, ip);
      if a.ip == ip {
        AcceptedSnoc(Only(before, ip), a, limit);
        TimesSnoc(Accepted(Only(before, ip), limit), a, ip);
      } else {
        var times := Times(Accepted(before, limit), ip);
        assert times + [] == times && Only(before, ip) + [] == Only(before, ip);
      }
    }
  }

  // ---------------------------------------------------------------------
  // The deques
  // ---------------------------------------------------------------------

  /** `bucket` is what is left of `times` after dropping entries that have expired by `clock`. */
  ghost predicate Trimmed(bucket: seq<int>, times: seq<int>, clock: int) {
    && |bucket| <= |times|
    && bucket == times[|times| - |bucket|..]
    && forall i :: 0 <= i < |times| - |bucket| ==> times[i] < clock - WINDOW
  }

  lemma {:induction false} TrimmedCount(bucket: seq<int>, times: seq<int>, now: int)
    requires Trimmed(bucket, times, now) && Sorted(times) && (forall i :: 0 <= i < |times| ==> times[i] <= now)
    requires bucket == [] || bucket[0] >= now - WINDOW
    ensures Within(times, now - WINDOW, now) == |bucket|
  {
    hide WINDOW;
    if times != [] {
      var n := |times| - 1;
      if bucket == [] {
        TrimmedCount([], times[..n], now);
      } else {
        assert bucket[|bucket| - 1] == times[n];
        assert times[n] >= bucket[0];
        var front := bucket[..|bucket| - 1];
        assert front == times[..n][n - |front|..];
        TrimmedCount(front, times[..n], now);
      }
    }
  }

  lemma TrimmedLater(bucket: seq<int>, times: seq<int>, clock: int, now: int)
    requires Trimmed(bucket, times, clock) && clock <= now
    ensures Trimmed(bucket, times, now)
  {
  }

  lemma TrimmedPop(bucket: seq<int>, times: seq<int>, now: int)
    requires Trimmed(bucket, times, now) && bucket != [] && now - bucket[0] > WINDOW
    ensures Trimmed(bucket[1..], times, now)
  {
    var k := |times| - |bucket|;
    assert times[k] == bucket[0];
    assert bucket[1..] == times[k + 1..];
  }

  lemma TrimmedPush(bucket: seq<int>, times: seq<int>, now: int)
    requires Trimmed(bucket, times, now)
    ensures Trimmed(bucket + [now], times + [now], now)
  {
    var k := |times| - |bucket|;
    assert (times + [now])[k..] == bucket + [now];
  }

  lemma AdmitOrdered(log: seq<Attempt>, clock: int, a: Attempt, limit: nat)
    requires Ordered(log) && (forall i :: 0 <= i < |log| ==> log[i].at <= clock) && clock <= a.at
    ensures var after := Admit(log, a, limit); Ordered(after) && forall i :: 0 <= i < |after| ==> after[i].at <= a.at
  {
    hide Recent;
  }

  /** An attempt of one address changes nothing for another one. */
  lemma TrimmedOther(bucket: seq<int>, log: seq<Attempt>, clock: int, a: Attempt, limit: nat, ip: nat)
    requires Trimmed(bucket, Times(log, ip), clock) && clock <= a.at && a.ip != ip
    ensures Trimmed(bucket, Times(Admit(log, a, limit), ip), a.at)
  {
    hide Trimmed, Recent, Within;
    TimesAdmit(log, a, limit, ip);
    TrimmedLater(bucket, Times(log, ip), clock, a.at);
  }

  class PairRateLimiter {
    var attempts: map<nat, seq<int>>
    /** The accepted attempts so far and the time of the last call. */
    ghost var log: seq<Attempt>
    ghost var clock: int

    ghost predicate Valid()
      reads this
    {
      && Ordered(log) && (forall i :: 0 <= i < |log| ==> log[i].at <= clock)
      && forall ip: nat :: Trimmed(Bucket(ip), Times(log, ip), clock)
    }

    function Bucket(ip: nat): seq<int>
      reads this
    {
      if ip in attempts then attempts[ip] else []
    }

    constructor (now: int)
      ensures Valid() && log == [] && clock == now
    {
      attempts, log, clock := map[], [], now;
    }

    method Allow(ip: nat, limit: nat, now: int) returns (ok: bool)
      requires Valid() && clock <= now
      modifies this
      ensures Valid() && clock == now
      ensures ok == (Recent(old(log), Attempt(ip, now)) < limit)
      ensures log == Admit(old(log), Attempt(ip, now), limit)
    {
      hide Trimmed, Within, Times, Sorted, WINDOW;
      ghost var times, was, a := Times(log, ip), log, Attempt(ip, now);
      TimesBounded(log, ip, clock);
      AdmitOrdered(log, clock, a, limit);
      TimesSnoc(log, a, ip);
      var bucket := Bucket(ip);
      TrimmedLater(bucket, times, clock, now);
      while bucket != [] && now - bucket[0] > WINDOW
        invariant Trimmed(bucket, times, now)
        modifies {}
        decreases |bucket|
      {
        TrimmedPop(bucket, times, now);
        bucket := bucket[1..];
      }
      TrimmedCount(bucket, times, now);
      assert |bucket| == Recent(was, a);
      hide Recent;
      ok := |bucket| < limit;
      if ok {
        TrimmedPush(bucket, times, now);
        bucket := bucket + [now];
        log := log + [Attempt(ip, now)];
      }
      attempts, clock := attempts[ip := bucket], now;
      assert log == Admit(was, a, limit);
      hide Admit, Ordered;
      forall other: nat ensures Trimmed(Bucket(other), Times(log, other), clock) {
        if other != ip {
          TrimmedOther(old(Bucket(other)), was, old(clock), a, limit, other);
        }
      }
    }
  }
}
