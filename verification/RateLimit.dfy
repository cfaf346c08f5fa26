/** The per-address token bucket, over real-valued tokens and seconds. */
module RateLimit {
  import opened Bytes

  type Ip = nat

  datatype Bucket = Bucket(tokens: real, lastRefill: real)

  datatype Limits = Limits(rate: real, burst: real)

  const STALE_SECS := 300.0

  function Min(a: real, b: real): real { if a <= b then a else b }

  /** `now.duration_since(then)`, which saturates at zero. */
  function Elapsed(then_: real, now: real): (e: real)
    ensures e >= 0.0
  {
    if now > then_ then now - then_ else 0.0
  }

  // ---- Specification ---------------------------------------------------------

  type Buckets = map<Ip, Bucket>

  /** Tokens earned in `secs` seconds. */
  function Earned(l: Limits, secs: real): real { secs * l.rate }

  lemma EarnedAdds(l: Limits, a: real, b: real)
    ensures Earned(l, a + b) == Earned(l, a) + Earned(l, b)
    ensures Earned(l, 0.0) == 0.0
  {}

  lemma EarnedMono(l: Limits, a: real, b: real)
    requires a <= b && 0.0 <= l.rate
    ensures Earned(l, a) <= Earned(l, b)
  {}

  /** Tokens available to `ip` at `now`; an unknown address has a full bucket. */
  function Level(l: Limits, bs: Buckets, ip: Ip, now: real): real {
    if ip in bs then Min(bs[ip].tokens + Earned(l, Elapsed(bs[ip].lastRefill, now)), l.burst)
    else l.burst
  }

  function Acquire(l: Limits, bs: Buckets, ip: Ip, now: real): (bool, Buckets) {
    var level := Level(l, bs, ip, now);
    if level >= 1.0 then (true, bs[ip := Bucket(level - 1.0, now)])
    else (false, bs[ip := Bucket(level, now)])
  }

  function Cleaned(bs: Buckets, now: real): Buckets {
    map ip | ip in bs && Elapsed(bs[ip].lastRefill, now) < STALE_SECS :: bs[ip]
  }

  class RateLimiter {
    const limits: Limits
    var buckets: Buckets

    constructor (rate: real, burst: real)
      ensures limits == Limits(rate, burst) && buckets == map[]
    {
      limits, buckets := Limits(rate, burst), map[];
    }

    method TryAcquire(ip: Ip, now: real) returns (allowed: bool)
      modifies this
      ensures (allowed, buckets) == Acquire(limits, old(buckets), ip, now)
    {
      if ip !in buckets {
        buckets := buckets[ip := Bucket(limits.burst, now)];
      }
      var b := buckets[ip];
      var elapsed := Elapsed(b.lastRefill, now);
      EarnedAdds(limits, 0.0, 0.0);
      b := Bucket(Min(b.tokens + Earned(limits, elapsed), limits.burst), now);
      assert b.tokens == Level(limits, old(buckets), ip, now);
      allowed := b.tokens >= 1.0;
      if allowed {
        b := b.(tokens := b.tokens - 1.0);
      }
      assert buckets[ip := b] == old(buckets)[ip := b];
      buckets := buckets[ip := b];
    }

    /** Drops every bucket not used for 300 seconds, and no other. */
    method Cleanup(now: real)
      modifies this
      ensures forall ip :: ip in buckets <==> ip in old(buckets) && Elapsed(old(buckets)[ip].lastRefill, now) < STALE_SECS
      ensures forall ip :: ip in buckets ==> buckets[ip] == old(buckets)[ip]
      ensures buckets == Cleaned(old(buckets), now)
    {
      var rest := buckets.Keys;
      while rest != {}
        invariant rest <= buckets.Keys <= old(buckets).Keys
        invariant forall ip :: ip in buckets ==> buckets[ip] == old(buckets)[ip]
        invariant forall ip :: ip in old(buckets) && ip !in rest ==>
                                 (ip in buckets <==> Elapsed(old(buckets)[ip].lastRefill, now) < STALE_SECS)
      {
        var ip :| ip in rest;
        if Elapsed(buckets[ip].lastRefill, now) >= STALE_SECS {
          buckets := buckets - {ip};
        }
        rest := rest - {ip};
      }
    }
  }

  // ---- Runs ------------------------------------------------------------------

  datatype Event = Call(ip: Ip, at: real) | Clean(at: real)

  function After(l: Limits, run: seq<Event>, n: nat): Buckets
    requires n <= |run|
  {
    if n == 0 then map[]
    else
      var bs := After(l, run, n - 1);
      match run[n - 1]
      case Call(ip, at) => Acquire(l, bs, ip, at).1
      case Clean(at) => Cleaned(bs, at)
  }

  predicate Admitted(l: Limits, run: seq<Event>, n: nat)
    requires n < |run|
  {
    run[n].Call? && Acquire(l, After(l, run, n), run[n].ip, run[n].at).0
  }

  /** Calls of `ip` admitted among events i to j-1. */
  function CountAdmitted(l: Limits, run: seq<Event>, ip: Ip, i: nat, j: nat): nat
    requires i <= j <= |run|
  {
    if i == j then 0
    else CountAdmitted(l, run, ip, i, j - 1)
         + (if run[j - 1].Call? && run[j - 1].ip == ip && Admitted(l, run, j - 1) then 1 else 0)
  }

  ghost predicate ClockForward(run: seq<Event>) {
    forall i, j :: 0 <= i <= j < |run| ==> run[i].at <= run[j].at
  }

  /** Cleanup may drop a bucket only once it would be full again. */
  predicate CleanupSafe(l: Limits) {
    0.0 <= l.rate && 0.0 <= l.burst <= Earned(l, STALE_SECS)
  }

  predicate NoCleanup(run: seq<Event>) {
    forall i :: 0 <= i < |run| ==> run[i].Call?
  }

  ghost predicate SaneBuckets(l: Limits, bs: Buckets, now: real) {
    forall ip :: ip in bs ==> 0.0 <= bs[ip].tokens <= l.burst && bs[ip].lastRefill <= now
  }

  lemma {:induction false} BucketsSane(l: Limits, run: seq<Event>, n: nat, now: real)
    requires n <= |run| && ClockForward(run) && 0.0 <= l.rate && 0.0 <= l.burst
    requires forall i :: 0 <= i < n ==> run[i].at <= now
    ensures SaneBuckets(l, After(l, run, n), now)
  {
    hide Level, Earned;
    if n > 0 {
      BucketsSane(l, run, n - 1, run[n - 1].at);
      if run[n - 1].Call? {
        LevelBounds(l, After(l, run, n - 1), run[n - 1].ip, run[n - 1].at);
      }
    }
  }

  lemma LevelBounds(l: Limits, bs: Buckets, ip: Ip, now: real)
    requires SaneBuckets(l, bs, now) && 0.0 <= l.rate && 0.0 <= l.burst
    ensures 0.0 <= Level(l, bs, ip, now) <= l.burst
  {
    hide Earned;
    EarnedAdds(l, 0.0, 0.0);
    if ip in bs {
      EarnedMono(l, 0.0, Elapsed(bs[ip].lastRefill, now));
    }
  }

  // ---- At most burst + rate * time -------------------------------------------

  /** Waiting earns at most `rate` tokens a second. */
  lemma LevelGrows(l: Limits, bs: Buckets, ip: Ip, t: real, now: real)
    requires t <= now && 0.0 <= l.rate
    ensures Level(l, bs, ip, now) <= Level(l, bs, ip, t) + Earned(l, now - t)
  {
    hide Earned;
    EarnedAdds(l, 0.0, 0.0);
    EarnedMono(l, 0.0, now - t);
    if ip in bs {
      var last := bs[ip].lastRefill;
      EarnedMono(l, Elapsed(last, now), Elapsed(last, t) + (now - t));
      EarnedAdds(l, Elapsed(last, t), now - t);
    }
  }

  /** Another address's call does not touch the bucket; our own costs a token if admitted. */
  lemma LevelAfterCall(l: Limits, bs: Buckets, ip: Ip, caller: Ip, now: real)
    requires SaneBuckets(l, bs, now) && 0.0 <= l.rate && 0.0 <= l.burst
    ensures var (ok, bs') := Acquire(l, bs, caller, now);
            Level(l, bs', ip, now) == Level(l, bs, ip, now) - (if ok && caller == ip then 1.0 else 0.0)
  {
    hide Earned;
    EarnedAdds(l, 0.0, 0.0);
    LevelBounds(l, bs, caller, now);
  }

  lemma LevelAfterCleanup(l: Limits, bs: Buckets, ip: Ip, now: real, t: real)
    requires SaneBuckets(l, bs, now) && CleanupSafe(l) && now <= t
    ensures Level(l, Cleaned(bs, now), ip, t) == Level(l, bs, ip, t)
  {
    hide Earned;
    if ip in bs && ip !in Cleaned(bs, now) {
      EarnedMono(l, STALE_SECS, Elapsed(bs[ip].lastRefill, t));
    }
  }

  /** Tokens left at event j plus calls admitted since event i are bounded by the time between. */
  lemma {:induction false} TokensAndCalls(l: Limits, run: seq<Event>, ip: Ip, i: nat, j: nat, s: real, t: real)
    requires i <= j <= |run| && ClockForward(run) && s <= t
    requires forall k :: i <= k < j ==> s <= run[k].at <= t
    requires forall k :: 0 <= k < i ==> run[k].at <= s
    requires 0.0 <= l.rate && 0.0 <= l.burst && (NoCleanup(run) || CleanupSafe(l))
    ensures Level(l, After(l, run, j), ip, t) + CountAdmitted(l, run, ip, i, j) as real <= l.burst + Earned(l, t - s)
    decreases j - i
  {
    hide Earned, Level, Acquire, Cleaned;
    if i == j {
      BucketsSane(l, run, i, s);
      LevelBounds(l, After(l, run, i), ip, s);
      LevelGrows(l, After(l, run, i), ip, s, t);
    } else {
      var at, bs := run[j - 1].at, After(l, run, j - 1);
      TokensAndCalls(l, run, ip, i, j - 1, s, at);
      BucketsSane(l, run, j - 1, at);
      var after, counted := After(l, run, j), CountAdmitted(l, run, ip, i, j - 1);
      if run[j - 1].Call? {
        LevelAfterCall(l, bs, ip, run[j - 1].ip, at);
        assert after == Acquire(l, bs, run[j - 1].ip, at).1;
      } else {
        LevelAfterCleanup(l, bs, ip, at, at);
      }
      assert Level(l, after, ip, at) + CountAdmitted(l, run, ip, i, j) as real
          == Level(l, bs, ip, at) + counted as real;
      LevelGrows(l, After(l, run, j), ip, at, t);
      EarnedAdds(l, at - s, t - at);
      assert (at - s) + (t - at) == t - s;
    }
  }

  /**
   In any stretch of a run between times s and t, at most burst + rate * (t - s)
   calls of one address are admitted: in runs without cleanup, and in all runs
   if 300 seconds refill a bucket or nothing is ever admitted.
   */
  lemma WindowBound(l: Limits, run: seq<Event>, ip: Ip, i: nat, j: nat, s: real, t: real)
    requires i <= j <= |run| && ClockForward(run) && s <= t
    requires forall k :: i <= k < j ==> s <= run[k].at <= t
    requires 0.0 <= l.rate && 0.0 <= l.burst && (NoCleanup(run) || CleanupSafe(l) || l.burst < 1.0)
    ensures CountAdmitted(l, run, ip, i, j) as real <= l.burst + Earned(l, t - s)
  {
    hide Earned, Level, After, CountAdmitted;
    if l.burst < 1.0 {
      EarnedAdds(l, 0.0, 0.0);
      EarnedMono(l, 0.0, t - s);
      NeverAdmitted(l, run, ip, i, j);
    } else if i < j {
      var first, last := run[i].at, run[j - 1].at;
      TokensAndCalls(l, run, ip, i, j, first, last);
      BucketsSane(l, run, j, last);
      LevelBounds(l, After(l, run, j), ip, last);
      EarnedMono(l, last - first, t - s);
    } else {
      EarnedAdds(l, 0.0, 0.0);
      EarnedMono(l, 0.0, t - s);
      NoneAdmitted(l, run, ip, i);
    }
  }

  /** A burst below one admits nothing. */
  lemma {:induction false} NeverAdmitted(l: Limits, run: seq<Event>, ip: Ip, i: nat, j: nat)
    requires i <= j <= |run| && l.burst < 1.0
    ensures CountAdmitted(l, run, ip, i, j) == 0
    decreases j
  {
    hide Earned, After;
    if i < j { NeverAdmitted(l, run, ip, i, j - 1); }
  }

  lemma NoneAdmitted(l: Limits, run: seq<Event>, ip: Ip, i: nat)
    requires i <= |run|
    ensures CountAdmitted(l, run, ip, i, i) == 0
  {}

  // ---- Spaced calls are never refused ----------------------------------------

  /** A bucket's last refill is a call of its address. */
  lemma {:induction false} RefilledByCall(l: Limits, run: seq<Event>, n: nat, ip: Ip)
    requires n <= |run| && ip in After(l, run, n)
    ensures exists i :: 0 <= i < n && run[i] == Call(ip, After(l, run, n)[ip].lastRefill)
  {
    var e, bs := run[n - 1], After(l, run, n - 1);
    if e.Call? && e.ip == ip {
      assert run[n - 1] == Call(ip, After(l, run, n)[ip].lastRefill);
    } else {
      RefilledByCall(l, run, n - 1, ip);
    }
  }

  lemma OneToken(l: Limits)
    requires 0.0 < l.rate
    ensures Earned(l, 1.0 / l.rate) == 1.0
  {}

  /** A call at least 1/rate after every earlier call of its address is admitted. */
  lemma SpacedCallAdmitted(l: Limits, run: seq<Event>, n: nat)
    requires n < |run| && run[n].Call? && ClockForward(run)
    requires 0.0 < l.rate && 1.0 <= l.burst
    requires forall i :: 0 <= i < n && run[i].Call? && run[i].ip == run[n].ip ==> run[n].at - run[i].at >= 1.0 / l.rate
    ensures Admitted(l, run, n)
  {
    hide Earned, After;
    var ip, now, bs := run[n].ip, run[n].at, After(l, run, n);
    BucketsSane(l, run, n, now);
    if ip in bs {
      RefilledByCall(l, run, n, ip);
      var i :| 0 <= i < n && run[i] == Call(ip, bs[ip].lastRefill);
      EarnedMono(l, 1.0 / l.rate, now - bs[ip].lastRefill);
      OneToken(l);
    }
  }

  // ---- Cleanup is invisible --------------------------------------------------

  /** The decisions on the calls of a run, with its cleanups done or skipped. */
  function Decisions(l: Limits, bs: Buckets, run: seq<Event>, cleaning: bool): seq<bool>
    decreases |run|
  {
    if run == [] then []
    else
      match run[0]
      case Call(ip, at) => [Acquire(l, bs, ip, at).0] + Decisions(l, Acquire(l, bs, ip, at).1, run[1..], cleaning)
      case Clean(at) => Decisions(l, if cleaning then Cleaned(bs, at) else bs, run[1..], cleaning)
  }

  /** Two tables no later call can tell apart. */
  ghost predicate SameLevels(l: Limits, a: Buckets, b: Buckets, now: real) {
    forall ip, t :: now <= t ==> Level(l, a, ip, t) == Level(l, b, ip, t)
  }

  lemma SameLevelsCall(l: Limits, a: Buckets, b: Buckets, ip: Ip, now: real)
    requires SameLevels(l, a, b, now)
    ensures Acquire(l, a, ip, now).0 == Acquire(l, b, ip, now).0
    ensures SameLevels(l, Acquire(l, a, ip, now).1, Acquire(l, b, ip, now).1, now)
  {
    hide Earned;
    var a', b' := Acquire(l, a, ip, now).1, Acquire(l, b, ip, now).1;
    assert Level(l, a, ip, now) == Level(l, b, ip, now);
    assert a'[ip] == b'[ip];
    forall other, t | now <= t
      ensures Level(l, a', other, t) == Level(l, b', other, t)
    {
      if other != ip {
        assert Level(l, a, other, t) == Level(l, b, other, t);
        assert Level(l, a', other, t) == Level(l, a, other, t);
      }
    }
  }

  lemma SameLevelsCleaned(l: Limits, a: Buckets, b: Buckets, now: real)
    requires SameLevels(l, a, b, now) && SaneBuckets(l, a, now) && CleanupSafe(l)
    ensures SameLevels(l, Cleaned(a, now), b, now)
  {
    hide Level, Cleaned;
    forall ip, t | now <= t
      ensures Level(l, Cleaned(a, now), ip, t) == Level(l, b, ip, t)
    {
      LevelAfterCleanup(l, a, ip, now, t);
    }
  }

  lemma SaneAfter(l: Limits, bs: Buckets, e: Event)
    requires SaneBuckets(l, bs, e.at) && 0.0 <= l.rate && 0.0 <= l.burst
    ensures e.Call? ==> SaneBuckets(l, Acquire(l, bs, e.ip, e.at).1, e.at)
    ensures SaneBuckets(l, Cleaned(bs, e.at), e.at)
  {
    hide Level;
    if e.Call? {
      LevelBounds(l, bs, e.ip, e.at);
    }
  }

  lemma {:induction false} DecisionsAgree(l: Limits, a: Buckets, b: Buckets, run: seq<Event>, now: real)
    requires CleanupSafe(l) && SameLevels(l, a, b, now) && SaneBuckets(l, a, now)
    requires ClockForward(run) && forall i :: 0 <= i < |run| ==> now <= run[i].at
    ensures Decisions(l, a, run, true) == Decisions(l, b, run, false)
    decreases |run|
  {
    hide Acquire, Cleaned, Level;
    if run != [] {
      var at := run[0].at;
      SaneAfter(l, a, run[0]);
      assert forall i :: 0 <= i < |run| - 1 ==> run[1..][i] == run[i + 1];
      match run[0]
      case Call(ip, _) =>
        SameLevelsCall(l, a, b, ip, at);
        DecisionsAgree(l, Acquire(l, a, ip, at).1, Acquire(l, b, ip, at).1, run[1..], at);
      case Clean(_) =>
        SameLevelsCleaned(l, a, b, at);
        DecisionsAgree(l, Cleaned(a, at), b, run[1..], at);
    }
  }

  /** With a bucket that refills within 300 seconds, cleanup changes no decision of any run. */
  lemma CleanupInvisible(l: Limits, run: seq<Event>)
    requires CleanupSafe(l) && ClockForward(run)
    ensures Decisions(l, map[], run, true) == Decisions(l, map[], run, false)
  {
    if run != [] {
      DecisionsAgree(l, map[], map[], run, run[0].at);
    }
  }

  // ---- When cleanup shows ----------------------------------------------------

  function Calls(ip: Ip, at: real, n: nat): (run: seq<Event>)
    ensures |run| == n && forall i :: 0 <= i < n ==> run[i] == Call(ip, at)
  {
    if n == 0 then [] else [Call(ip, at)] + Calls(ip, at, n - 1)
  }

  function StateAfter(l: Limits, bs: Buckets, run: seq<Event>, cleaning: bool): Buckets
    decreases |run|
  {
    if run == [] then bs
    else
      match run[0]
      case Call(ip, at) => StateAfter(l, Acquire(l, bs, ip, at).1, run[1..], cleaning)
      case Clean(at) => StateAfter(l, if cleaning then Cleaned(bs, at) else bs, run[1..], cleaning)
  }

  lemma {:induction false} DecisionsConcat(l: Limits, bs: Buckets, a: seq<Event>, b: seq<Event>, cleaning: bool)
    ensures Decisions(l, bs, a + b, cleaning) == Decisions(l, bs, a, cleaning) + Decisions(l, StateAfter(l, bs, a, cleaning), b, cleaning)
    decreases |a|
  {
    hide Acquire, Cleaned;
    if a == [] {
      assert a + b == b;
    } else {
      assert (a + b)[1..] == a[1..] + b;
      match a[0]
      case Call(ip, at) => DecisionsConcat(l, Acquire(l, bs, ip, at).1, a[1..], b, cleaning);
      case Clean(at) => DecisionsConcat(l, if cleaning then Cleaned(bs, at) else bs, a[1..], b, cleaning);
    }
  }

  /** n simultaneous calls are all admitted exactly when n tokens are there. */
  lemma {:induction false} AllAdmittedIff(l: Limits, bs: Buckets, ip: Ip, at: real, n: nat, cleaning: bool)
    requires SaneBuckets(l, bs, at) && 0.0 <= l.rate && 0.0 <= l.burst
    ensures false !in Decisions(l, bs, Calls(ip, at, n), cleaning) <==> n as real <= Level(l, bs, ip, at)
    ensures |Decisions(l, bs, Calls(ip, at, n), cleaning)| == n
    ensures n as real <= Level(l, bs, ip, at) ==>
              var bs' := StateAfter(l, bs, Calls(ip, at, n), cleaning);
              SaneBuckets(l, bs', at) && Level(l, bs', ip, at) == Level(l, bs, ip, at) - n as real
    ensures n > 0 ==> var bs' := StateAfter(l, bs, Calls(ip, at, n), cleaning); ip in bs' && bs'[ip].lastRefill == at
    decreases n
  {
    hide Level, Earned;
    LevelBounds(l, bs, ip, at);
    if n > 0 {
      var bs' := Acquire(l, bs, ip, at).1;
      LevelAfterCall(l, bs, ip, ip, at);
      SaneAfter(l, bs, Call(ip, at));
      AllAdmittedIff(l, bs', ip, at, n - 1, cleaning);
      LevelBounds(l, bs', ip, at);
    }
  }

  /** Waiting earns tokens up to the burst. */
  lemma LevelLater(l: Limits, bs: Buckets, ip: Ip, now: real, t: real)
    requires SaneBuckets(l, bs, now) && ip in bs && now <= t && 0.0 <= l.rate
    ensures Level(l, bs, ip, t) == Min(Level(l, bs, ip, now) + Earned(l, t - now), l.burst)
  {
    var last := bs[ip].lastRefill;
    EarnedAdds(l, now - last, t - now);
    EarnedMono(l, 0.0, t - now);
    hide Earned;
    assert Elapsed(last, t) == (now - last) + (t - now) && Elapsed(last, now) == now - last;
  }

  lemma WaitFor(l: Limits, missing: real)
    requires 0.0 < l.rate && 0.0 <= missing
    ensures Earned(l, missing / l.rate) == missing && missing / l.rate >= 0.0
  {
  }

  lemma SplitDiffers<T>(p: seq<T>, q: seq<T>, x: seq<T>, y: seq<T>)
    requires |p| == |q| && x != y
    ensures p + x != q + y
  {
    assert (p + x)[|p|..] == x && (q + y)[|q|..] == y;
  }

  /** The calls `Calls(ip, now, m) + Calls(ip, t, 1)`, cut after the first m. */
  lemma ProbeSplits(l: Limits, bs: Buckets, ip: Ip, now: real, m: nat, t: real, cleaning: bool)
    requires SaneBuckets(l, bs, now) && 0.0 <= l.rate && 0.0 <= l.burst && now <= t && m as real <= Level(l, bs, ip, now)
    requires ip in bs || m > 0
    ensures var bs' := StateAfter(l, bs, Calls(ip, now, m), cleaning);
            && |Decisions(l, bs, Calls(ip, now, m), cleaning)| == m
            && Decisions(l, bs, Calls(ip, now, m) + Calls(ip, t, 1), cleaning)
               == Decisions(l, bs, Calls(ip, now, m), cleaning) + Decisions(l, bs', Calls(ip, t, 1), cleaning)
            && |Decisions(l, bs', Calls(ip, t, 1), cleaning)| == 1
            && (false !in Decisions(l, bs', Calls(ip, t, 1), cleaning)
                <==> 1.0 <= Min(Level(l, bs, ip, now) - m as real + Earned(l, t - now), l.burst))
  {
    hide Decisions, StateAfter, Level, Earned, Min;
    AllAdmittedIff(l, bs, ip, now, m, cleaning);
    DecisionsConcat(l, bs, Calls(ip, now, m), Calls(ip, t, 1), cleaning);
    var bs' := StateAfter(l, bs, Calls(ip, now, m), cleaning);
    if m == 0 { NoCalls(l, bs, ip, now, cleaning); }
    assert SaneBuckets(l, bs', t);
    LevelLater(l, bs', ip, now, t);
    AllAdmittedIff(l, bs', ip, t, 1, cleaning);
  }

  lemma NoCalls(l: Limits, bs: Buckets, ip: Ip, now: real, cleaning: bool)
    ensures StateAfter(l, bs, Calls(ip, now, 0), cleaning) == bs
  {
  }

  /** Calls after `now` can tell two levels apart. */
  lemma Distinguish(l: Limits, a: Buckets, b: Buckets, ip: Ip, now: real, cleanA: bool, cleanB: bool)
    returns (run: seq<Event>)
    requires SaneBuckets(l, a, now) && SaneBuckets(l, b, now) && 0.0 <= l.rate && 1.0 <= l.burst
    requires Level(l, b, ip, now) < Level(l, a, ip, now)
    requires 0.0 < l.rate || Level(l, b, ip, now) < Level(l, a, ip, now).Floor as real
    ensures ClockForward(run) && forall i :: 0 <= i < |run| ==> now <= run[i].at
    ensures Decisions(l, a, run, cleanA) != Decisions(l, b, run, cleanB)
  {
    LevelBounds(l, a, ip, now);
    LevelBounds(l, b, ip, now);
    var la, lb := Level(l, a, ip, now), Level(l, b, ip, now);
    var m: nat := la.Floor;
    assert ip in b && (ip in a || m > 0);
    hide Decisions, StateAfter, Level, Earned;
    if lb < m as real {
      run := Calls(ip, now, m);
      AllAdmittedIff(l, a, ip, now, m, cleanA);
      AllAdmittedIff(l, b, ip, now, m, cleanB);
    } else {
      var missing := 1.0 - (la - m as real);
      WaitFor(l, missing);
      var t := now + missing / l.rate;
      run := Calls(ip, now, m) + Calls(ip, t, 1);
      ProbeSplits(l, a, ip, now, m, t, cleanA);
      ProbeSplits(l, b, ip, now, m, t, cleanB);
      SplitDiffers(Decisions(l, a, Calls(ip, now, m), cleanA), Decisions(l, b, Calls(ip, now, m), cleanB),
                   Decisions(l, StateAfter(l, a, Calls(ip, now, m), cleanA), Calls(ip, t, 1), cleanA),
                   Decisions(l, StateAfter(l, b, Calls(ip, now, m), cleanB), Calls(ip, t, 1), cleanB));
    }
  }

  lemma {:induction false} StateAfterConcat(l: Limits, bs: Buckets, a: seq<Event>, b: seq<Event>, cleaning: bool)
    ensures StateAfter(l, bs, a + b, cleaning) == StateAfter(l, StateAfter(l, bs, a, cleaning), b, cleaning)
    decreases |a|
  {
    hide Acquire, Cleaned;
    if a == [] {
      assert a + b == b;
    } else {
      assert (a + b)[1..] == a[1..] + b;
      match a[0]
      case Call(ip, at) => StateAfterConcat(l, Acquire(l, bs, ip, at).1, a[1..], b, cleaning);
      case Clean(at) => StateAfterConcat(l, if cleaning then Cleaned(bs, at) else bs, a[1..], b, cleaning);
    }
  }

  /** Address 0 called last at `at` and has less than a token left; none at all if tokens are ever earned. */
  ghost predicate Drained(l: Limits, bs: Buckets, at: real) {
    && SaneBuckets(l, bs, at) && 0 in bs && bs[0].lastRefill == at
    && Level(l, bs, 0, at) < 1.0 && (l.rate > 0.0 ==> Level(l, bs, 0, at) == 0.0)
  }

  ghost predicate Drains(l: Limits, run: seq<Event>, at: real, cleaning: bool) {
    && Drained(l, StateAfter(l, map[], run, cleaning), at)
    && |Decisions(l, map[], run, cleaning)| == |run| && false !in Decisions(l, map[], run, cleaning)
  }

  /** Calls of address 0 from time `from` to `to`, in order. */
  ghost predicate CallsBetween(run: seq<Event>, from: real, to: real) {
    ClockForward(run) && forall i :: 0 <= i < |run| ==> run[i].Call? && run[i].ip == 0 && from <= run[i].at <= to
  }

  /** How long until the fraction of a token left of a full bucket has become a token. */
  function Refill(l: Limits): real
    requires 0.0 < l.rate
  {
    (1.0 - (l.burst - l.burst.Floor as real)) / l.rate
  }

  /** Calls from `start` on that empty a bucket: all at once, and one more when the rest of a token has become one. */
  function DrainCalls(l: Limits, start: real): (seq<Event>, real)
    requires 0.0 <= l.rate && 1.0 <= l.burst
  {
    var k := l.burst.Floor;
    if l.rate == 0.0 || l.burst == k as real then (Calls(0, start, k), start)
    else (Calls(0, start, k) + Calls(0, start + Refill(l), 1), start + Refill(l))
  }

  /** The one more call takes the token that its wait completes. */
  lemma DrainTheRest(l: Limits, bs: Buckets, start: real, cleaning: bool)
    requires 0.0 < l.rate && 1.0 <= l.burst && SaneBuckets(l, bs, start)
    requires Level(l, bs, 0, start) == l.burst - l.burst.Floor as real
    ensures var at := start + Refill(l); var run := Calls(0, at, 1);
            && start <= at && Drained(l, StateAfter(l, bs, run, cleaning), at)
            && |Decisions(l, bs, run, cleaning)| == 1 && false !in Decisions(l, bs, run, cleaning)
  {
    var at := start + Refill(l);
    WaitFor(l, 1.0 - (l.burst - l.burst.Floor as real));
    assert SaneBuckets(l, bs, at);
    LevelLater(l, bs, 0, start, at);
    AllAdmittedIff(l, bs, 0, at, 1, cleaning);
    hide Decisions, StateAfter, Level, Earned, SaneBuckets;
  }

  lemma DrainWorks(l: Limits, start: real, cleaning: bool)
    requires 0.0 <= l.rate && 1.0 <= l.burst
    ensures var (run, at) := DrainCalls(l, start);
            Drains(l, run, at, cleaning) && start <= at && CallsBetween(run, start, at)
  {
    var k: nat := l.burst.Floor;
    var first := Calls(0, start, k);
    var (run, at) := DrainCalls(l, start);
    assert SaneBuckets(l, map[], start) && Level(l, map[], 0, start) == l.burst;
    hide Decisions, StateAfter, Level, Earned, SaneBuckets;
    assert start <= at && CallsBetween(run, start, at) by {
      if l.rate != 0.0 { WaitFor(l, 1.0 - (l.burst - k as real)); }
    }
    hide CallsBetween, Refill;
    AllAdmittedIff(l, map[], 0, start, k, cleaning);
    if l.rate != 0.0 && l.burst != k as real {
      DrainTheRest(l, StateAfter(l, map[], first, cleaning), start, cleaning);
      StateAfterConcat(l, map[], first, Calls(0, at, 1), cleaning);
      DecisionsConcat(l, map[], first, Calls(0, at, 1), cleaning);
    }
  }

  /** A burst that 300 seconds do not refill: cleanup hands tokens out early. */
  lemma CleanupVisible(l: Limits) returns (run: seq<Event>)
    requires 0.0 <= l.rate && 1.0 <= l.burst && STALE_SECS * l.rate < l.burst
    ensures ClockForward(run) && Decisions(l, map[], run, true) != Decisions(l, map[], run, false)
  {
    var (first, at) := DrainCalls(l, 0.0);
    DrainWorks(l, 0.0, true);
    DrainWorks(l, 0.0, false);
    var a, b := StateAfter(l, map[], first, true), StateAfter(l, map[], first, false);
    var now := at + STALE_SECS;
    CleanedDrops(l, a, at);
    StillShort(l, b, at);
    hide Decisions, StateAfter, Cleaned, Level, Earned, DrainCalls;
    var probe := Distinguish(l, Cleaned(a, now), b, 0, now, true, false);
    var rest := [Clean(now)] + probe;
    AfterClean(l, a, now, probe, true);
    AfterClean(l, b, now, probe, false);
    DecisionsConcat(l, map[], first, rest, true);
    DecisionsConcat(l, map[], first, rest, false);
    SplitDiffers(Decisions(l, map[], first, true), Decisions(l, map[], first, false),
                 Decisions(l, a, rest, true), Decisions(l, b, rest, false));
    run := first + rest;
  }

  lemma AfterClean(l: Limits, bs: Buckets, now: real, run: seq<Event>, cleaning: bool)
    ensures Decisions(l, bs, [Clean(now)] + run, cleaning)
            == Decisions(l, if cleaning then Cleaned(bs, now) else bs, run, cleaning)
  {
    assert ([Clean(now)] + run)[1..] == run;
  }

  lemma CleanedDrops(l: Limits, bs: Buckets, at: real)
    requires Drained(l, bs, at)
    ensures var now := at + STALE_SECS;
            Level(l, Cleaned(bs, now), 0, now) == l.burst && SaneBuckets(l, Cleaned(bs, now), now)
  {}

  lemma StillShort(l: Limits, bs: Buckets, at: real)
    requires Drained(l, bs, at) && 0.0 <= l.rate && 1.0 <= l.burst && STALE_SECS * l.rate < l.burst
    ensures var now := at + STALE_SECS;
            && SaneBuckets(l, bs, now) && Level(l, bs, 0, now) < l.burst
            && (0.0 < l.rate || Level(l, bs, 0, now) < l.burst.Floor as real)
  {
    LevelLater(l, bs, 0, at, at + STALE_SECS);
    hide Level;
  }

  /** A burst below one admits nothing, with or without cleanup. */
  lemma {:induction false} NothingAdmitted(l: Limits, a: Buckets, b: Buckets, run: seq<Event>)
    requires l.burst < 1.0
    ensures Decisions(l, a, run, true) == Decisions(l, b, run, false)
    decreases |run|
  {
    hide Cleaned, Earned;
    if run != [] {
      match run[0]
      case Call(ip, at) => NothingAdmitted(l, Acquire(l, a, ip, at).1, Acquire(l, b, ip, at).1, run[1..]);
      case Clean(at) => NothingAdmitted(l, Cleaned(a, at), b, run[1..]);
    }
  }

  /** No call of any run is decided differently for a cleanup. */
  ghost predicate Invisible(l: Limits) {
    forall run :: ClockForward(run) ==> Decisions(l, map[], run, true) == Decisions(l, map[], run, false)
  }

  /** Cleanup is invisible exactly if 300 seconds refill a bucket, or no call is ever admitted. */
  lemma CleanupInvisibleIff(l: Limits)
    requires 0.0 <= l.rate
    ensures Invisible(l) <==> l.burst <= STALE_SECS * l.rate || l.burst < 1.0
  {
    hide Decisions;
    if l.burst < 1.0 {
      forall run | ClockForward(run) ensures Decisions(l, map[], run, true) == Decisions(l, map[], run, false) {
        NothingAdmitted(l, map[], map[], run);
      }
    } else if l.burst <= STALE_SECS * l.rate {
      forall run | ClockForward(run) ensures Decisions(l, map[], run, true) == Decisions(l, map[], run, false) {
        CleanupInvisible(l, run);
      }
    } else {
      var run := CleanupVisible(l);
    }
  }

  // ---- When cleanup breaks the bound ------------------------------------------------

  function Trues(ds: seq<bool>): (n: nat) {
    if ds == [] then 0 else (if ds[0] then 1 else 0) + Trues(ds[1..])
  }

  lemma {:induction false} TruesConcat(a: seq<bool>, b: seq<bool>)
    ensures Trues(a + b) == Trues(a) + Trues(b)
    decreases |a|
  {
    if a == [] {
      assert a + b == b;
    } else {
      assert (a + b)[1..] == a[1..] + b;
      TruesConcat(a[1..], b);
    }
  }

  lemma {:induction false} AllTrue(ds: seq<bool>)
    requires false !in ds
    ensures Trues(ds) == |ds|
    decreases |ds|
  {
    if ds != [] {
      assert ds[0] in ds;
      AllTrue(ds[1..]);
    }
  }

  /** A run taken from the front gives the state and the count taken event by event. */
  lemma {:induction false} CountIsTrues(l: Limits, run: seq<Event>, n: nat)
    requires n <= |run| && forall i :: 0 <= i < |run| && run[i].Call? ==> run[i].ip == 0
    ensures After(l, run, n) == StateAfter(l, map[], run[..n], true)
    ensures CountAdmitted(l, run, 0, 0, n) == Trues(Decisions(l, map[], run[..n], true))
    decreases n
  {
    hide Acquire, Cleaned;
    if n > 0 {
      CountIsTrues(l, run, n - 1);
      var e, bs := run[n - 1], After(l, run, n - 1);
      assert run[..n] == run[..n - 1] + [e];
      StateAfterConcat(l, map[], run[..n - 1], [e], true);
      DecisionsConcat(l, map[], run[..n - 1], [e], true);
      OneEvent(l, bs, e);
      TruesConcat(Decisions(l, map[], run[..n - 1], true), Decisions(l, bs, [e], true));
    }
  }

  lemma OneEvent(l: Limits, bs: Buckets, e: Event)
    ensures e.Call? ==> StateAfter(l, bs, [e], true) == Acquire(l, bs, e.ip, e.at).1
    ensures e.Clean? ==> StateAfter(l, bs, [e], true) == Cleaned(bs, e.at)
    ensures Trues(Decisions(l, bs, [e], true)) == if e.Call? && Acquire(l, bs, e.ip, e.at).0 then 1 else 0
  {
    hide Acquire, Cleaned;
    assert [e][1..] == [];
    assert Decisions(l, bs, [e], true) == if e.Call? then [Acquire(l, bs, e.ip, e.at).0] else [];
  }

  lemma {:induction false} OnlyOneBucket(l: Limits, bs: Buckets, run: seq<Event>)
    requires forall i :: 0 <= i < |run| ==> run[i].Call? && run[i].ip == 0
    ensures StateAfter(l, bs, run, true).Keys <= bs.Keys + {0}
    decreases |run|
  {
    hide Level;
    if run != [] { OnlyOneBucket(l, Acquire(l, bs, run[0].ip, run[0].at).1, run[1..]); }
  }

  /** Two drains of one bucket, cleaned 300 seconds after the first. */
  function TwoDrains(l: Limits): (seq<Event>, real)
    requires 0.0 <= l.rate && 1.0 <= l.burst
  {
    var (first, at) := DrainCalls(l, 0.0);
    var (second, end) := DrainCalls(l, at + STALE_SECS);
    (first + ([Clean(at + STALE_SECS)] + second), end)
  }

  lemma JoinForward(first: seq<Event>, at: real, now: real, second: seq<Event>, end: real)
    requires CallsBetween(first, 0.0, at) && 0.0 <= at <= now <= end && CallsBetween(second, now, end)
    ensures var run := first + ([Clean(now)] + second);
            && ClockForward(run) && (forall i :: 0 <= i < |run| ==> 0.0 <= run[i].at <= end)
            && (forall i :: 0 <= i < |run| && run[i].Call? ==> run[i].ip == 0)
  {
  }

  /** A table cleaned 300 seconds after a drain is as good as new: the next drain admits every call again. */
  lemma JoinAdmits(l: Limits, first: seq<Event>, at: real, second: seq<Event>, end: real)
    requires CallsBetween(first, 0.0, at) && Drains(l, first, at, true) && Drains(l, second, end, true)
    ensures var run := first + ([Clean(at + STALE_SECS)] + second);
            Trues(Decisions(l, map[], run, true)) == |first| + |second|
  {
    var now := at + STALE_SECS;
    OnlyOneBucket(l, map[], first);
    var bs := StateAfter(l, map[], first, true);
    assert Cleaned(bs, now) == map[];
    hide Decisions, StateAfter, Cleaned, Level, Earned;
    DecisionsConcat(l, map[], first, [Clean(now)] + second, true);
    AfterClean(l, bs, now, second, true);
    var d1, d2 := Decisions(l, map[], first, true), Decisions(l, map[], second, true);
    TruesConcat(d1, d2);
    AllTrue(d1);
    AllTrue(d2);
  }

  lemma JoinCounts(l: Limits, first: seq<Event>, at: real, second: seq<Event>, end: real)
    requires CallsBetween(first, 0.0, at) && Drains(l, first, at, true) && Drains(l, second, end, true)
    requires 0.0 <= at && at + STALE_SECS <= end && CallsBetween(second, at + STALE_SECS, end)
    ensures var run := first + ([Clean(at + STALE_SECS)] + second);
            && ClockForward(run) && (forall i :: 0 <= i < |run| ==> 0.0 <= run[i].at <= end)
            && CountAdmitted(l, run, 0, 0, |run|) == |first| + |second|
  {
    var run := first + ([Clean(at + STALE_SECS)] + second);
    JoinForward(first, at, at + STALE_SECS, second, end);
    JoinAdmits(l, first, at, second, end);
    assert run[..|run|] == run;
    hide Drains, CallsBetween, ClockForward, CountAdmitted, After, Decisions, StateAfter, Trues;
    CountIsTrues(l, run, |run|);
  }

  /** A later drain is as long as the first. */
  lemma SecondDrain(l: Limits, start: real)
    requires 0.0 <= l.rate && 1.0 <= l.burst
    ensures |DrainCalls(l, start).0| == |DrainCalls(l, 0.0).0|
    ensures DrainCalls(l, start).1 == start + DrainCalls(l, 0.0).1
  {
    hide Refill;
  }

  /** Both drains admit every call. */
  lemma BothDrain(l: Limits)
    requires 0.0 <= l.rate && 1.0 <= l.burst
    ensures var (run, end) := TwoDrains(l); var (first, at) := DrainCalls(l, 0.0);
            && ClockForward(run) && (forall i :: 0 <= i < |run| ==> 0.0 <= run[i].at <= end)
            && CountAdmitted(l, run, 0, 0, |run|) == 2 * |first| && end == 2.0 * at + STALE_SECS
  {
    hide DrainCalls, Drains, CallsBetween, ClockForward, CountAdmitted;
    var (first, at) := DrainCalls(l, 0.0);
    var now := at + STALE_SECS;
    var (second, end) := DrainCalls(l, now);
    DrainWorks(l, 0.0, true);
    DrainWorks(l, now, true);
    SecondDrain(l, now);
    JoinCounts(l, first, at, second, end);
  }

  /** Which is more than the bound when 300 seconds do not refill a bucket. */
  lemma TooMany(l: Limits)
    requires 0.0 <= l.rate && 1.0 <= l.burst && STALE_SECS * l.rate < l.burst
    ensures var (first, at) := DrainCalls(l, 0.0);
            2.0 * |first| as real > l.burst + Earned(l, 2.0 * at + STALE_SECS)
  {
    var (first, at) := DrainCalls(l, 0.0);
    EarnedAdds(l, 2.0 * at, STALE_SECS);
    EarnedAdds(l, at, at);
    assert 2.0 * at == at + at;
    if l.rate != 0.0 && l.burst != l.burst.Floor as real {
      WaitFor(l, 1.0 - (l.burst - l.burst.Floor as real));
    }
  }

  /** Events i to j-1 of a run lie between times s and t. */
  ghost predicate Stretch(run: seq<Event>, i: nat, j: nat, s: real, t: real) {
    i <= j <= |run| && ClockForward(run) && s <= t && forall k :: i <= k < j ==> s <= run[k].at <= t
  }

  /** No stretch of any run admits more than burst + rate * time calls of one address. */
  ghost predicate Bounded(l: Limits) {
    forall run, ip, i, j, s, t :: Stretch(run, i, j, s, t) ==>
      CountAdmitted(l, run, ip, i, j) as real <= l.burst + Earned(l, t - s)
  }

  /** With cleanup at any time the bound holds exactly if 300 seconds refill a bucket, or nothing is ever admitted. */
  lemma WindowBoundIff(l: Limits)
    requires 0.0 <= l.rate && 0.0 <= l.burst
    ensures Bounded(l) <==> l.burst <= STALE_SECS * l.rate || l.burst < 1.0
  {
    if l.burst <= STALE_SECS * l.rate || l.burst < 1.0 {
      forall run, ip, i, j, s, t | Stretch(run, i, j, s, t)
        ensures CountAdmitted(l, run, ip, i, j) as real <= l.burst + Earned(l, t - s)
      {
        WindowBound(l, run, ip, i, j, s, t);
      }
    } else {
      var (run, end) := TwoDrains(l);
      var (first, at) := DrainCalls(l, 0.0);
      DrainWorks(l, 0.0, true);
      BothDrain(l);
      TooMany(l);
      hide CountAdmitted, Earned, DrainCalls;
      assert Stretch(run, 0, |run|, 0.0, end);
      assert end - 0.0 == end;
    }
  }

  /** The limits the server configures for a rate. */
  function Configured(rps: real): Limits {
    Limits(rps, if rps * 10.0 >= 10.0 then rps * 10.0 else 10.0)
  }

  /** Under the server's own configuration both are so from one request in 30 seconds upwards. */
  lemma ConfiguredSafeIff(rps: real)
    requires 0.0 < rps
    ensures Invisible(Configured(rps)) <==> rps >= 1.0 / 30.0
    ensures Bounded(Configured(rps)) <==> rps >= 1.0 / 30.0
  {
    CleanupInvisibleIff(Configured(rps));
    WindowBoundIff(Configured(rps));
    hide Invisible, Bounded;
  }
}
