/**
 The token bucket in front of every server (src/protocol/rpc.ts, RateLimiter and startServer).

 Instants are whole milliseconds, as `Date.now()` gives; tokens are real numbers.
 */
module RateLimiter {
  datatype Bucket = Bucket(tokens: real, at: int)

  type Buckets = map<string, Bucket>

  datatype Rate = Rate(capacity: real, refillPerSec: real)

  const IDLE_MS := 60_000
  const MANY := 10_000

  function MinReal(a: real, b: real): real { if a < b then a else b }

  function Refill(r: Rate, ms: int): real { ms as real / 1000.0 * r.refillPerSec }

  /** The tokens a caller has at `now`: a caller without a bucket has a full one. */
  function Level(r: Rate, bs: Buckets, key: string, now: int): real {
    var b := if key in bs then bs[key] else Bucket(r.capacity, now);
    MinReal(r.capacity, b.tokens + Refill(r, now - b.at))
  }

  function Fresh(bs: Buckets, now: int): Buckets { map k | k in bs && now - bs[k].at <= IDLE_MS :: bs[k] }

  /** The bucket after a call, and whether the call is let through. */
  function Charged(r: Rate, bs: Buckets, key: string, now: int): (Buckets, bool) {
    var level := Level(r, bs, key, now);
    if level < 1.0 then (bs[key := Bucket(level, now)], false) else (bs[key := Bucket(level - 1.0, now)], true)
  }

  function Allowed(r: Rate, bs: Buckets, key: string, now: int): (Buckets, bool) {
    var (after, ok) := Charged(r, bs, key, now);
    (if ok && |after| > MANY then Fresh(after, now) else after, ok)
  }

  class Limiter {
    const rate: Rate
    var buckets: Buckets

    constructor (capacity: real, refillPerSec: real)
      ensures rate == Rate(capacity, refillPerSec) && buckets == map[]
    {
      rate := Rate(capacity, refillPerSec);
      buckets := map[];
    }

    method Allow(key: string, now: int) returns (ok: bool)
      modifies this
      ensures (buckets, ok) == Allowed(rate, old(buckets), key, now)
    {
      var b := if key in buckets then buckets[key] else Bucket(rate.capacity, now);
      b := b.(tokens := MinReal(rate.capacity, b.tokens + (now - b.at) as real / 1000.0 * rate.refillPerSec));
      b := b.(at := now);
      if b.tokens < 1.0 {
        buckets := buckets[key := b];
        return false;
      }
      b := b.(tokens := b.tokens - 1.0);
      buckets := buckets[key := b];
      if |buckets| > MANY { DropIdle(now); }
      return true;
    }

    method DropIdle(now: int)
      modifies this
      ensures buckets == Fresh(old(buckets), now)
    {
      var left := buckets.Keys;
      while left != {}
        invariant left <= old(buckets).Keys
        invariant forall k :: k in buckets <==> k in old(buckets) && (k in left || now - old(buckets)[k].at <= IDLE_MS)
        invariant forall k :: k in buckets ==> buckets[k] == old(buckets)[k]
        decreases |left|
      {
        var k :| k in left;
        left := left - {k};
        if now - buckets[k].at > IDLE_MS { buckets := buckets - {k}; }
      }
    }
  }

  // ---------------------------------------------------------------- levels

  /** Tokens lie between nothing and full, and no bucket is from the future. */
  ghost predicate Sane(r: Rate, bs: Buckets, now: int) {
    forall k :: k in bs ==> 0.0 <= bs[k].tokens <= r.capacity && bs[k].at <= now
  }

  lemma RefillAdds(r: Rate, a: int, b: int)
    ensures Refill(r, a + b) == Refill(r, a) + Refill(r, b)
  {
    assert (a + b) as real / 1000.0 == a as real / 1000.0 + b as real / 1000.0;
  }

  lemma RefillNotNegative(r: Rate, ms: int)
    requires r.refillPerSec >= 0.0 && ms >= 0
    ensures Refill(r, ms) >= 0.0
  {
  }

  /** Time adds to a level what refills in it, up to full. */
  lemma LevelLater(r: Rate, bs: Buckets, key: string, now: int, later: int)
    requires r.refillPerSec >= 0.0 && r.capacity >= 0.0 && now <= later
    ensures Level(r, bs, key, later) == MinReal(r.capacity, Level(r, bs, key, now) + Refill(r, later - now))
  {
    RefillNotNegative(r, later - now);
    RefillAdds(r, 0, 0);
    if key in bs { RefillAdds(r, now - bs[key].at, later - now); }
  }

  lemma LevelIsSane(r: Rate, bs: Buckets, key: string, now: int)
    requires r.refillPerSec >= 0.0 && r.capacity >= 0.0 && Sane(r, bs, now)
    ensures 0.0 <= Level(r, bs, key, now) <= r.capacity
  {
    RefillAdds(r, 0, 0);
    if key in bs { RefillNotNegative(r, now - bs[key].at); }
  }

  lemma ChargedLevel(r: Rate, bs: Buckets, key: string, other: string, now: int, later: int)
    requires r.refillPerSec >= 0.0 && r.capacity >= 0.0 && Sane(r, bs, now) && now <= later
    ensures var (after, ok) := Charged(r, bs, key, now);
      && Sane(r, after, now)
      && (ok <==> Level(r, bs, key, now) >= 1.0)
      && Level(r, after, key, now) == Level(r, bs, key, now) - (if ok then 1.0 else 0.0)
      && (other != key ==> Level(r, after, other, later) == Level(r, bs, other, later))
  {
    LevelIsSane(r, bs, key, now);
    RefillAdds(r, 0, 0);
  }

  /** A bucket is forgotten after 60,001 milliseconds at the earliest; if they refill it, forgetting it changes no level from then on. */
  lemma ForgettingIdleIsHarmless(r: Rate, bs: Buckets, key: string, now: int, later: int)
    requires r.refillPerSec >= 0.0 && r.capacity >= 0.0 && Sane(r, bs, now) && now <= later
    requires 60.001 * r.refillPerSec >= r.capacity
    ensures Level(r, Fresh(bs, now), key, later) == Level(r, bs, key, later)
  {
    RefillAdds(r, 0, 0);
    if key in bs && now - bs[key].at > IDLE_MS {
      MinuteRefills(r, later - bs[key].at);
    }
  }

  lemma MinuteRefills(r: Rate, ms: int)
    requires r.refillPerSec >= 0.0 && ms > IDLE_MS
    ensures Refill(r, ms) >= 60.001 * r.refillPerSec
  {
    RefillAdds(r, IDLE_MS + 1, ms - IDLE_MS - 1);
    RefillNotNegative(r, ms - IDLE_MS - 1);
  }

  // ---------------------------------------------------------------- runs

  datatype Call = Call(key: string, at: int)

  ghost predicate Orderly(calls: seq<Call>, from: int, to: int) {
    && (forall i :: 0 <= i < |calls| ==> from <= calls[i].at <= to)
    && (forall i, j :: 0 <= i < j < |calls| ==> calls[i].at <= calls[j].at)
  }

  function Run(r: Rate, bs: Buckets, calls: seq<Call>): (Buckets, seq<bool>)
    decreases |calls|
  {
    if calls == [] then (bs, [])
    else
      var (next, ok) := Allowed(r, bs, calls[0].key, calls[0].at);
      var (last, oks) := Run(r, next, calls[1..]);
      (last, [ok] + oks)
  }

  /** How many calls of `key` were let through. */
  function Passed(key: string, calls: seq<Call>, oks: seq<bool>): nat
    requires |oks| == |calls|
  {
    if calls == [] then 0 else (if calls[0].key == key && oks[0] then 1 else 0) + Passed(key, calls[1..], oks[1..])
  }

  lemma {:induction false} RunDecidesAll(r: Rate, bs: Buckets, calls: seq<Call>)
    ensures |Run(r, bs, calls).1| == |calls|
    decreases |calls|
  {
    if calls != [] { RunDecidesAll(r, Allowed(r, bs, calls[0].key, calls[0].at).0, calls[1..]); }
  }

  lemma AllowedKeepsSane(r: Rate, bs: Buckets, key: string, now: int)
    requires r.refillPerSec >= 0.0 && r.capacity >= 0.0 && Sane(r, bs, now)
    ensures Sane(r, Allowed(r, bs, key, now).0, now)
  {
    ChargedLevel(r, bs, key, key, now, now);
  }

  /** The limiter that forgets nothing. */
  function RunKeepingAll(r: Rate, bs: Buckets, calls: seq<Call>): (oks: seq<bool>)
    ensures |oks| == |calls|
    decreases |calls|
  {
    if calls == [] then []
    else
      var (next, ok) := Charged(r, bs, calls[0].key, calls[0].at);
      [ok] + RunKeepingAll(r, next, calls[1..])
  }

  ghost predicate Lawful(r: Rate) { r.refillPerSec >= 0.0 && r.capacity >= 0.0 }

  /** Calls let through by a limiter that forgets nothing are paid for: by the level at the start and what refills since. */
  lemma {:induction false} PassedArePaidFor(r: Rate, bs: Buckets, calls: seq<Call>, from: int, to: int, key: string)
    requires Lawful(r) && Sane(r, bs, from) && Orderly(calls, from, to) && from <= to
    ensures Passed(key, calls, RunKeepingAll(r, bs, calls)) as real <= Level(r, bs, key, from) + Refill(r, to - from)
    decreases |calls|
  {
    if calls == [] {
      LevelIsSane(r, bs, key, from);
      RefillNotNegative(r, to - from);
    } else {
      var c := calls[0];
      var (next, ok) := Charged(r, bs, c.key, c.at);
      SaneLater(r, bs, from, c.at);
      ChargedLevel(r, bs, c.key, key, c.at, c.at);
      PassedArePaidFor(r, next, calls[1..], c.at, to, key);
      LevelLater(r, bs, key, from, c.at);
      RefillAdds(r, c.at - from, to - c.at);
      var oks := RunKeepingAll(r, next, calls[1..]);
      assert RunKeepingAll(r, bs, calls) == [ok] + oks && ([ok] + oks)[1..] == oks;
    }
  }

  lemma SaneLater(r: Rate, bs: Buckets, from: int, to: int)
    requires Sane(r, bs, from) && from <= to
    ensures Sane(r, bs, to)
  {
  }

  lemma {:induction false} RunStaysSane(r: Rate, bs: Buckets, calls: seq<Call>, from: int, to: int)
    requires r.refillPerSec >= 0.0 && r.capacity >= 0.0 && Sane(r, bs, from) && Orderly(calls, from, to) && from <= to
    ensures Sane(r, Run(r, bs, calls).0, to)
    decreases |calls|
  {
    if calls == [] {
      SaneLater(r, bs, from, to);
    } else {
      SaneLater(r, bs, from, calls[0].at);
      AllowedKeepsSane(r, bs, calls[0].key, calls[0].at);
      RunStaysSane(r, Allowed(r, bs, calls[0].key, calls[0].at).0, calls[1..], calls[0].at, to);
    }
  }

  // ---------------------------------------------------------------- dropping idle buckets changes no decision

  /** The least that refills in the time it takes to be forgotten fills a bucket. */
  ghost predicate Reasonable(r: Rate) { Lawful(r) && 60.001 * r.refillPerSec >= r.capacity }

  ghost predicate SameLevels(r: Rate, a: Buckets, b: Buckets, now: int) {
    forall k, t :: t >= now ==> Level(r, a, k, t) == Level(r, b, k, t)
  }

  lemma StepKeepsLevels(r: Rate, a: Buckets, b: Buckets, c: Call)
    requires Reasonable(r) && Sane(r, a, c.at) && Sane(r, b, c.at) && SameLevels(r, a, b, c.at)
    ensures Allowed(r, a, c.key, c.at).1 == Charged(r, b, c.key, c.at).1
    ensures SameLevels(r, Allowed(r, a, c.key, c.at).0, Charged(r, b, c.key, c.at).0, c.at)
  {
    var a1, b1 := Charged(r, a, c.key, c.at).0, Charged(r, b, c.key, c.at).0;
    assert Level(r, a, c.key, c.at) == Level(r, b, c.key, c.at);
    ChargedLevel(r, a, c.key, c.key, c.at, c.at);
    forall k, t | t >= c.at ensures Level(r, Allowed(r, a, c.key, c.at).0, k, t) == Level(r, b1, k, t) {
      ChargedLevel(r, a, c.key, k, c.at, t);
      ChargedLevel(r, b, c.key, k, c.at, t);
      LevelLater(r, a1, k, c.at, t);
      LevelLater(r, b1, k, c.at, t);
      ForgettingIdleIsHarmless(r, a1, k, c.at, t);
    }
  }

  lemma {:induction false} DroppingChangesNoDecision(r: Rate, a: Buckets, b: Buckets, calls: seq<Call>, from: int, to: int)
    requires Reasonable(r) && Sane(r, a, from) && Sane(r, b, from) && SameLevels(r, a, b, from) && Orderly(calls, from, to)
    ensures Run(r, a, calls).1 == RunKeepingAll(r, b, calls)
    decreases |calls|
  {
    if calls != [] {
      var c := calls[0];
      StepKeepsLevels(r, a, b, c);
      AllowedKeepsSane(r, a, c.key, c.at);
      ChargedLevel(r, b, c.key, c.key, c.at, c.at);
      DroppingChangesNoDecision(r, Allowed(r, a, c.key, c.at).0, Charged(r, b, c.key, c.at).0, calls[1..], c.at, to);
    }
  }

  // ---------------------------------------------------------------- what a caller gets, and what dropping can do to it

  /** Decisions are those of a limiter that forgets nothing, whatever the state and the calls. */
  ghost predicate DropsAreHarmless(r: Rate) {
    forall bs, calls, from, to :: Sane(r, bs, from) && Orderly(calls, from, to) && from <= to ==> SameDecisions(r, bs, calls)
  }

  ghost predicate SameDecisions(r: Rate, bs: Buckets, calls: seq<Call>) { Run(r, bs, calls).1 == RunKeepingAll(r, bs, calls) }

  /** In every window every caller gets at most a full bucket and the refill of the window through. */
  ghost predicate WindowsAreBounded(r: Rate) {
    forall bs, calls, from, to, key :: Sane(r, bs, from) && Orderly(calls, from, to) && from <= to ==> Bounded(r, bs, calls, key, from, to)
  }

  ghost predicate Bounded(r: Rate, bs: Buckets, calls: seq<Call>, key: string, from: int, to: int) {
    |Run(r, bs, calls).1| == |calls| && Passed(key, calls, Run(r, bs, calls).1) as real <= r.capacity + Refill(r, to - from)
  }

  /** For every rate, a limiter that forgets nothing bounds every window. */
  lemma KeepingAllBoundsWindows(r: Rate, bs: Buckets, calls: seq<Call>, from: int, to: int, key: string)
    requires Lawful(r) && Sane(r, bs, from) && Orderly(calls, from, to) && from <= to
    ensures Passed(key, calls, RunKeepingAll(r, bs, calls)) as real <= r.capacity + Refill(r, to - from)
  {
    LevelIsSane(r, bs, key, from);
    PassedArePaidFor(r, bs, calls, from, to, key);
  }

  lemma HarmlessDropsBoundWindows(r: Rate)
    requires Lawful(r) && DropsAreHarmless(r)
    ensures WindowsAreBounded(r)
  {
    forall bs, calls, from, to, key | Sane(r, bs, from) && Orderly(calls, from, to) && from <= to
      ensures Bounded(r, bs, calls, key, from, to)
    {
      assert SameDecisions(r, bs, calls);
      KeepingAllBoundsWindows(r, bs, calls, from, to, key);
    }
  }

  lemma ReasonableDropsAreHarmless(r: Rate)
    requires Reasonable(r)
    ensures DropsAreHarmless(r)
  {
    forall bs, calls, from, to | Sane(r, bs, from) && Orderly(calls, from, to) && from <= to ensures SameDecisions(r, bs, calls) {
      DroppingChangesNoDecision(r, bs, bs, calls, from, to);
    }
  }

  /**
   From whatever state earlier calls left, with clocks that do not go back, a caller gets at most `capacity` plus the
   refill of the window through in any window, whoever else calls and however often idle buckets are dropped.
   */
  lemma WindowBound(r: Rate, before: seq<Call>, window: seq<Call>, start: int, from: int, to: int, key: string)
    requires Reasonable(r) && Orderly(before, start, from) && Orderly(window, from, to) && start <= from <= to
    ensures Bounded(r, Run(r, map[], before).0, window, key, from, to)
  {
    RunStaysSane(r, map[], before, start, from);
    ReasonableDropsAreHarmless(r);
    HarmlessDropsBoundWindows(r);
  }

  // ---------------------------------------------------------------- a caller that is forgotten calls again

  function Xs(n: nat): (s: string)
    ensures |s| == n && forall i :: 0 <= i < n ==> s[i] == 'x'
  {
    if n == 0 then "" else ['x'] + Xs(n - 1)
  }

  /** Many callers that called at 0 and have nothing left. */
  function Crowd(n: nat): (bs: Buckets)
    ensures |bs| == n
    ensures forall k :: k in bs ==> 1 <= |k| <= n && k[0] == 'x' && bs[k] == Bucket(0.0, 0)
  {
    if n == 0 then map[] else Crowd(n - 1)[Xs(n) := Bucket(0.0, 0)]
  }

  function Burst(key: string, at: int, n: nat): seq<Call> { if n == 0 then [] else [Call(key, at)] + Burst(key, at, n - 1) }

  function Yes(n: nat): seq<bool> { if n == 0 then [] else [true] + Yes(n - 1) }

  lemma {:induction false} KeysFit(a: set<string>, b: set<string>)
    requires a <= b
    ensures |a| <= |b|
  {
    if a != {} {
      var k :| k in a;
      KeysFit(a - {k}, b - {k});
    }
  }

  ghost predicate NoneIdle(bs: Buckets, now: int) { forall k :: k in bs ==> now - bs[k].at <= IDLE_MS }

  /** What a burst leaves of the buckets: the others as they were, the caller's touched now. */
  ghost predicate Touched(a: Buckets, b: Buckets, key: string, now: int) {
    a.Keys <= b.Keys && forall k :: k in b ==> (k in a && b[k].at == a[k].at) || (k == key && b[k].at == now)
  }

  /** While nobody is idle, a caller with so many tokens gets so many calls through. */
  lemma {:induction false} BurstPasses(r: Rate, bs: Buckets, key: string, now: int, n: nat)
    requires Lawful(r) && Sane(r, bs, now) && NoneIdle(bs, now) && Level(r, bs, key, now) >= n as real
    ensures Run(r, bs, Burst(key, now, n)).1 == Yes(n)
    ensures Touched(bs, Run(r, bs, Burst(key, now, n)).0, key, now)
    decreases n
  {
    if n > 0 {
      var (next, ok) := Allowed(r, bs, key, now);
      ChargedLevel(r, bs, key, key, now, now);
      assert Fresh(Charged(r, bs, key, now).0, now) == Charged(r, bs, key, now).0;
      BurstPasses(r, next, key, now, n - 1);
      assert Burst(key, now, n)[1..] == Burst(key, now, n - 1);
    }
  }

  lemma RunStep(r: Rate, bs: Buckets, c: Call, rest: seq<Call>)
    ensures var (next, ok) := Allowed(r, bs, c.key, c.at);
      Run(r, bs, [c] + rest).0 == Run(r, next, rest).0 && Run(r, bs, [c] + rest).1 == [ok] + Run(r, next, rest).1
  {
    assert ([c] + rest)[1..] == rest;
  }

  lemma {:induction false} RunTogether(r: Rate, bs: Buckets, a: seq<Call>, b: seq<Call>)
    ensures Run(r, bs, a + b).0 == Run(r, Run(r, bs, a).0, b).0
    ensures Run(r, bs, a + b).1 == Run(r, bs, a).1 + Run(r, Run(r, bs, a).0, b).1
    decreases |a|
  {
    if a == [] {
      assert a + b == b && [] + Run(r, bs, b).1 == Run(r, bs, b).1;
    } else {
      var (next, ok) := Allowed(r, bs, a[0].key, a[0].at);
      assert a + b == [a[0]] + (a[1..] + b) && a == [a[0]] + a[1..];
      RunStep(r, bs, a[0], a[1..] + b);
      RunStep(r, bs, a[0], a[1..]);
      RunTogether(r, next, a[1..], b);
      OneThenMore(ok, Run(r, next, a[1..]).1, Run(r, Run(r, bs, a).0, b).1);
    }
  }

  lemma OneThenMore(ok: bool, a: seq<bool>, b: seq<bool>)
    ensures ([ok] + a) + b == [ok] + (a + b)
  {
  }

  const LATER := IDLE_MS + 1

  /** One call by a newcomer, once everybody is idle: everybody else is forgotten. */
  lemma NewcomerClears(r: Rate, bs: Buckets, key: string)
    requires Lawful(r) && r.capacity >= 1.0 && |bs| > MANY && key !in bs && forall k :: k in bs ==> bs[k].at == 0
    ensures Allowed(r, bs, key, LATER) == (map[key := Bucket(r.capacity - 1.0, LATER)], true)
  {
    RefillAdds(r, 0, 0);
    var after := bs[key := Bucket(r.capacity - 1.0, LATER)];
    KeysFit(bs.Keys, after.Keys);
    assert Charged(r, bs, key, LATER) == (after, true);
    assert Fresh(after, LATER) == map[key := Bucket(r.capacity - 1.0, LATER)];
  }

  /** Spend a full bucket at 0; let a newcomer call at 60,001 ms; spend a full bucket again. */
  function TwiceOver(n: nat): seq<Call> { Burst("", 0, n) + ([Call("z", LATER)] + Burst("", LATER, n)) }

  lemma EverythingPasses(r: Rate, m: nat, n: nat)
    requires m > MANY && Lawful(r) && r.capacity >= 1.0 && r.capacity >= n as real
    ensures Run(r, Crowd(m), TwiceOver(n)).1 == Yes(n) + ([true] + Yes(n))
  {
    var crowd := Crowd(m);
    assert Level(r, crowd, "", 0) == r.capacity by { RefillAdds(r, 0, 0); }
    BurstPasses(r, crowd, "", 0, n);
    var spent := Run(r, crowd, Burst("", 0, n)).0;
    KeysFit(crowd.Keys, spent.Keys);
    NewcomerClears(r, spent, "z");
    var cleared: Buckets := map["z" := Bucket(r.capacity - 1.0, LATER)];
    assert Level(r, cleared, "", LATER) == r.capacity by { RefillAdds(r, 0, 0); }
    BurstPasses(r, cleared, "", LATER, n);
    var rest := [Call("z", LATER)] + Burst("", LATER, n);
    assert rest[1..] == Burst("", LATER, n);
    RunTogether(r, crowd, Burst("", 0, n), rest);
  }

  lemma {:induction false} BurstIs(key: string, at: int, n: nat)
    ensures |Burst(key, at, n)| == n && |Yes(n)| == n
    ensures forall i :: 0 <= i < n ==> Burst(key, at, n)[i] == Call(key, at) && Yes(n)[i]
  {
    if n > 0 { BurstIs(key, at, n - 1); }
  }

  lemma PassedStep(key: string, c: Call, rest: seq<Call>, ok: bool, oks: seq<bool>)
    requires |oks| == |rest|
    ensures Passed(key, [c] + rest, [ok] + oks) == (if c.key == key && ok then 1 else 0) + Passed(key, rest, oks)
  {
    assert ([c] + rest)[1..] == rest && ([ok] + oks)[1..] == oks;
  }

  lemma BurstStep(key: string, at: int, n: nat, rest: seq<Call>, oks: seq<bool>)
    requires n > 0
    ensures Burst(key, at, n) + rest == [Call(key, at)] + (Burst(key, at, n - 1) + rest)
    ensures Yes(n) + oks == [true] + (Yes(n - 1) + oks)
  {
  }

  lemma {:induction false} BurstPassed(key: string, at: int, n: nat, rest: seq<Call>, oks: seq<bool>)
    requires |oks| == |rest|
    ensures |Burst(key, at, n)| == |Yes(n)| == n
    ensures Passed(key, Burst(key, at, n) + rest, Yes(n) + oks) == n + Passed(key, rest, oks)
  {
    if n == 0 {
      assert [] + rest == rest && [] + oks == oks;
    } else {
      BurstPassed(key, at, n - 1, rest, oks);
      BurstStep(key, at, n, rest, oks);
      PassedStep(key, Call(key, at), Burst(key, at, n - 1) + rest, true, Yes(n - 1) + oks);
    }
  }

  lemma TwicePassed(n: nat)
    ensures |TwiceOver(n)| == |Yes(n) + ([true] + Yes(n))| && Orderly(TwiceOver(n), 0, LATER)
    ensures Passed("", TwiceOver(n), Yes(n) + ([true] + Yes(n))) == n + n
  {
    BurstIs("", 0, n);
    BurstIs("", LATER, n);
    var rest := [Call("z", LATER)] + Burst("", LATER, n);
    BurstPassed("", 0, n, rest, [true] + Yes(n));
    PassedStep("", Call("z", LATER), Burst("", LATER, n), true, Yes(n));
    BurstPassed("", LATER, n, [], []);
    assert Burst("", LATER, n) + [] == Burst("", LATER, n) && Yes(n) + [] == Yes(n);
  }

  /** With more than ten thousand others about, a caller gets two full bursts through in 60,001 milliseconds. */
  lemma TwoBurstsPass(r: Rate, m: nat, n: nat)
    requires m > MANY && Lawful(r) && r.capacity >= 1.0 && r.capacity >= n as real
    ensures var calls := TwiceOver(n);
      |Run(r, Crowd(m), calls).1| == |calls| && Passed("", calls, Run(r, Crowd(m), calls).1) == n + n
  {
    EverythingPasses(r, m, n);
    TwicePassed(n);
  }

  /**
   If 60,001 milliseconds do not refill the bucket by as much, that exceeds the bound, and decisions are not those of a
   limiter that forgets nothing.
   */
  lemma ForgottenCallersExceedTheBound(r: Rate, m: nat)
    requires m > MANY && Lawful(r) && r.capacity >= 1.0 && 60.001 * r.refillPerSec + r.capacity < 2.0 * r.capacity.Floor as real
    ensures var n := r.capacity.Floor;
      && n >= 1 && |Crowd(m)| > MANY && Sane(r, Crowd(m), 0) && Orderly(TwiceOver(n), 0, LATER)
      && !Bounded(r, Crowd(m), TwiceOver(n), "", 0, LATER) && !SameDecisions(r, Crowd(m), TwiceOver(n))
  {
    var n := r.capacity.Floor;
    TwoBurstsPass(r, m, n);
    TwicePassed(n);
    TooMany(r, Crowd(m), TwiceOver(n), n);
  }

  lemma TooMany(r: Rate, bs: Buckets, calls: seq<Call>, n: nat)
    requires Lawful(r) && Sane(r, bs, 0) && Orderly(calls, 0, LATER)
    requires |Run(r, bs, calls).1| == |calls| && Passed("", calls, Run(r, bs, calls).1) == n + n
    requires 60.001 * r.refillPerSec + r.capacity < 2.0 * n as real
    ensures !Bounded(r, bs, calls, "", 0, LATER) && !SameDecisions(r, bs, calls)
  {
    LaterRefills(r);
    KeepingAllBoundsWindows(r, bs, calls, 0, LATER, "");
    var q := Refill(r, LATER - 0);
    assert (n + n) as real > r.capacity + q;
  }

  lemma LaterRefills(r: Rate)
    ensures Refill(r, LATER - 0) == 60.001 * r.refillPerSec
  {
  }

  /** For a bucket of a whole number of tokens: dropping changes no decision of any run, and windows are bounded, exactly when 60,001 milliseconds refill it. */
  lemma DropsAreHarmlessExactlyWhen(r: Rate)
    requires Lawful(r) && r.capacity == r.capacity.Floor as real
    ensures DropsAreHarmless(r) <==> 60.001 * r.refillPerSec >= r.capacity
    ensures WindowsAreBounded(r) <==> 60.001 * r.refillPerSec >= r.capacity
  {
    if 60.001 * r.refillPerSec >= r.capacity {
      ReasonableDropsAreHarmless(r);
      HarmlessDropsBoundWindows(r);
    } else {
      var m: nat :| m > MANY;
      ForgottenCallersExceedTheBound(r, m);
    }
  }

  /** A bucket of less than one token lets nothing through, and nothing is ever dropped. */
  lemma SmallBucketsAreHarmless(r: Rate)
    requires Lawful(r) && r.capacity < 1.0
    ensures DropsAreHarmless(r)
  {
    forall bs, calls, from, to | Sane(r, bs, from) && Orderly(calls, from, to) && from <= to ensures SameDecisions(r, bs, calls) {
      NothingIsDropped(r, bs, calls, from, to);
    }
  }

  lemma {:induction false} NothingIsDropped(r: Rate, bs: Buckets, calls: seq<Call>, from: int, to: int)
    requires Lawful(r) && r.capacity < 1.0 && Sane(r, bs, from) && Orderly(calls, from, to) && from <= to
    ensures SameDecisions(r, bs, calls)
    decreases |calls|
  {
    if calls != [] {
      var c := calls[0];
      SaneLater(r, bs, from, c.at);
      LevelIsSane(r, bs, c.key, c.at);
      ChargedLevel(r, bs, c.key, c.key, c.at, c.at);
      NothingIsDropped(r, Charged(r, bs, c.key, c.at).0, calls[1..], c.at, to);
    }
  }

  // ---------------------------------------------------------------- the servers' own limits

  /** What `startServer` passes for a configured rate of calls per second. */
  function ServerRate(perSecond: real): Rate { Rate(if 2.0 < perSecond * 2.0 then perSecond * 2.0 else 2.0, perSecond) }

  /** A server's dropping of idle buckets changes no decision, and its windows are bounded, exactly for rates of two calls in 60,001 milliseconds or more. */
  lemma ServersAreHarmlessExactlyWhen(perSecond: real)
    requires perSecond >= 0.0
    ensures DropsAreHarmless(ServerRate(perSecond)) <==> 60.001 * perSecond >= 2.0
    ensures WindowsAreBounded(ServerRate(perSecond)) <==> 60.001 * perSecond >= 2.0
  {
    var r := ServerRate(perSecond);
    if perSecond > 1.0 {
      ReasonableDropsAreHarmless(r);
      HarmlessDropsBoundWindows(r);
    } else {
      DropsAreHarmlessExactlyWhen(r);
    }
  }
}
