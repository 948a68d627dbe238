/**
 When forgetting idle buckets changes a decision, for every rate. Calls are whole tokens; what decides is the fraction
 of a token a caller that takes every whole one is left with.
 */
module RateLimiterResidues {
  import opened RateLimiter

  function Frac(x: real): real { x - x.Floor as real }

  function Tick(r: Rate): real { Refill(r, 1) }

  /** What a caller has left that starts full and takes every whole token, millisecond after millisecond. */
  function Residue(r: Rate, i: nat): real {
    if i == 0 then Frac(r.capacity) else Frac(MinReal(r.capacity, Residue(r, i - 1) + Tick(r)))
  }

  /** What refills before a bucket can be forgotten. */
  function Idle(r: Rate): real { 60.001 * r.refillPerSec }

  /** What a bucket can lack at most when it is forgotten never makes up for a residue. */
  ghost predicate ResiduesReach(r: Rate) { forall i: nat :: Residue(r, i) + Idle(r) >= r.capacity }

  lemma FracShift(x: real, n: int)
    ensures Frac(x + n as real) == Frac(x)
  {
    assert (x + n as real).Floor == x.Floor + n;
  }

  lemma TicksAdd(r: Rate, ms: nat)
    requires ms > 0
    ensures Refill(r, ms) == Refill(r, ms - 1) + Tick(r)
  {
    RefillAdds(r, ms - 1, 1);
  }

  // ---------------------------------------------------------------- if residues reach, nothing changes

  ghost predicate InPhase(r: Rate, a: real) { exists i: nat :: Frac(a) == Residue(r, i) }

  /** A level of the limiter that drops beside one of a limiter that keeps all: equal, or fuller by no more than decides. */
  ghost predicate Near(r: Rate, a: real, b: real) { a == b || (InPhase(r, a) && b <= a <= b + (r.capacity - Idle(r))) }

  lemma FullIsInPhase(r: Rate)
    ensures InPhase(r, r.capacity)
  {
    assert Frac(r.capacity) == Residue(r, 0);
  }

  lemma PhaseAfterTick(r: Rate, a: real)
    requires Lawful(r) && InPhase(r, a) && 0.0 <= a <= r.capacity
    ensures InPhase(r, MinReal(r.capacity, a + Tick(r)))
  {
    var i: nat :| Frac(a) == Residue(r, i);
    if a + Tick(r) < r.capacity {
      FracShift(Frac(a) + Tick(r), a.Floor);
      assert Frac(a) + Tick(r) + a.Floor as real == a + Tick(r);
      assert Frac(a + Tick(r)) == Residue(r, i + 1);
    } else {
      FullIsInPhase(r);
    }
  }

  lemma NearAfterTick(r: Rate, a: real, b: real)
    requires Lawful(r) && Near(r, a, b) && 0.0 <= a <= r.capacity
    ensures Near(r, MinReal(r.capacity, a + Tick(r)), MinReal(r.capacity, b + Tick(r)))
  {
    if a != b { PhaseAfterTick(r, a); }
  }

  lemma {:induction false} NearLater(r: Rate, a: real, b: real, ms: nat)
    requires Lawful(r) && Near(r, a, b) && 0.0 <= a <= r.capacity && 0.0 <= b <= r.capacity
    ensures Near(r, MinReal(r.capacity, a + Refill(r, ms)), MinReal(r.capacity, b + Refill(r, ms)))
  {
    if ms == 0 {
      RefillAdds(r, 0, 0);
    } else {
      NearLater(r, a, b, ms - 1);
      TicksAdd(r, ms);
      RefillNotNegative(r, ms - 1);
      RefillNotNegative(r, 1);
      NearAfterTick(r, MinReal(r.capacity, a + Refill(r, ms - 1)), MinReal(r.capacity, b + Refill(r, ms - 1)));
    }
  }

  lemma NearDecides(r: Rate, a: real, b: real)
    requires ResiduesReach(r) && Near(r, a, b)
    ensures a >= 1.0 <==> b >= 1.0
    ensures Near(r, a - 1.0, b - 1.0)
  {
    if a != b {
      var i: nat :| Frac(a) == Residue(r, i);
      FracShift(a, -1);
      assert a - 1.0 == a + (-1) as real;
      assert Frac(a - 1.0) == Residue(r, i);
      assert b >= a - Frac(a);
    }
  }

  ghost predicate NearAt(r: Rate, a: Buckets, b: Buckets, k: string, now: int) { Near(r, Level(r, a, k, now), Level(r, b, k, now)) }

  ghost predicate Beside(r: Rate, a: Buckets, b: Buckets, now: int) {
    && (forall k :: k in a ==> k in b && a[k].at == b[k].at)
    && (forall k :: NearAt(r, a, b, k, now))
  }

  lemma StaysBeside(r: Rate, a: Buckets, b: Buckets, now: int, later: int)
    requires Lawful(r) && Beside(r, a, b, now) && Sane(r, a, now) && Sane(r, b, now) && now <= later
    ensures Beside(r, a, b, later)
  {
    forall k ensures NearAt(r, a, b, k, later) {
      assert NearAt(r, a, b, k, now);
      LevelIsSane(r, a, k, now);
      LevelIsSane(r, b, k, now);
      LevelLater(r, a, k, now, later);
      LevelLater(r, b, k, now, later);
      NearLater(r, Level(r, a, k, now), Level(r, b, k, now), later - now);
    }
  }

  lemma ChargedNear(r: Rate, a: Buckets, b: Buckets, c: Call, k: string)
    requires Lawful(r) && ResiduesReach(r) && Sane(r, a, c.at) && Sane(r, b, c.at) && NearAt(r, a, b, c.key, c.at) && NearAt(r, a, b, k, c.at)
    ensures Charged(r, a, c.key, c.at).1 == Charged(r, b, c.key, c.at).1
    ensures NearAt(r, Charged(r, a, c.key, c.at).0, Charged(r, b, c.key, c.at).0, k, c.at)
  {
    NearDecides(r, Level(r, a, c.key, c.at), Level(r, b, c.key, c.at));
    ChargedLevel(r, a, c.key, k, c.at, c.at);
    ChargedLevel(r, b, c.key, k, c.at, c.at);
  }

  lemma ChargedBeside(r: Rate, a: Buckets, b: Buckets, c: Call)
    requires Lawful(r) && ResiduesReach(r) && Beside(r, a, b, c.at) && Sane(r, a, c.at) && Sane(r, b, c.at)
    ensures Charged(r, a, c.key, c.at).1 == Charged(r, b, c.key, c.at).1
    ensures Beside(r, Charged(r, a, c.key, c.at).0, Charged(r, b, c.key, c.at).0, c.at)
  {
    assert NearAt(r, a, b, c.key, c.at);
    ChargedNear(r, a, b, c, c.key);
    forall k ensures NearAt(r, Charged(r, a, c.key, c.at).0, Charged(r, b, c.key, c.at).0, k, c.at) {
      assert NearAt(r, a, b, k, c.at);
      ChargedNear(r, a, b, c, k);
    }
  }

  lemma IdleHasRefilled(r: Rate, b: Buckets, k: string, now: int)
    requires Lawful(r) && k in b && Sane(r, b, now) && now - b[k].at > IDLE_MS
    ensures Level(r, b, k, now) <= r.capacity <= Level(r, b, k, now) + (if r.capacity > Idle(r) then r.capacity - Idle(r) else 0.0)
  {
    MinuteRefills(r, now - b[k].at);
  }

  lemma FullIsNear(r: Rate, b: real)
    requires b <= r.capacity <= b + (if r.capacity > Idle(r) then r.capacity - Idle(r) else 0.0)
    ensures Near(r, r.capacity, b)
  {
    FullIsInPhase(r);
  }

  lemma DroppedBeside(r: Rate, a: Buckets, b: Buckets, now: int)
    requires Lawful(r) && Beside(r, a, b, now) && Sane(r, a, now) && Sane(r, b, now)
    ensures Beside(r, Fresh(a, now), b, now)
  {
    forall k ensures NearAt(r, Fresh(a, now), b, k, now) {
      assert NearAt(r, a, b, k, now);
      if k in a && now - a[k].at > IDLE_MS {
        IdleHasRefilled(r, b, k, now);
        FullIsNear(r, Level(r, b, k, now));
        RefillAdds(r, 0, 0);
      }
    }
  }

  lemma {:induction false} ResiduesDecideNothing(r: Rate, a: Buckets, b: Buckets, calls: seq<Call>, from: int, to: int)
    requires Lawful(r) && ResiduesReach(r)
    requires Beside(r, a, b, from) && Sane(r, a, from) && Sane(r, b, from) && Orderly(calls, from, to) && from <= to
    ensures Run(r, a, calls).1 == RunKeepingAll(r, b, calls)
    decreases |calls|
  {
    if calls != [] {
      var c := calls[0];
      StaysBeside(r, a, b, from, c.at);
      ChargedBeside(r, a, b, c);
      ChargedLevel(r, a, c.key, c.key, c.at, c.at);
      ChargedLevel(r, b, c.key, c.key, c.at, c.at);
      DroppedBeside(r, Charged(r, a, c.key, c.at).0, Charged(r, b, c.key, c.at).0, c.at);
      ResiduesDecideNothing(r, Allowed(r, a, c.key, c.at).0, Charged(r, b, c.key, c.at).0, calls[1..], c.at, to);
    }
  }

  lemma ReachingIsHarmless(r: Rate)
    requires Lawful(r) && ResiduesReach(r)
    ensures DropsAreHarmless(r)
  {
    forall bs, calls, from, to | Sane(r, bs, from) && Orderly(calls, from, to) && from <= to ensures SameDecisions(r, bs, calls) {
      forall k ensures NearAt(r, bs, bs, k, from) { }
      ResiduesDecideNothing(r, bs, bs, calls, from, to);
    }
  }

  // ---------------------------------------------------------------- if one does not, some decision changes

  function StateKeepingAll(r: Rate, bs: Buckets, calls: seq<Call>): Buckets
    decreases |calls|
  {
    if calls == [] then bs else StateKeepingAll(r, Charged(r, bs, calls[0].key, calls[0].at).0, calls[1..])
  }

  lemma KeepingStep(r: Rate, bs: Buckets, c: Call, rest: seq<Call>)
    ensures var (next, ok) := Charged(r, bs, c.key, c.at);
      && StateKeepingAll(r, bs, [c] + rest) == StateKeepingAll(r, next, rest)
      && RunKeepingAll(r, bs, [c] + rest) == [ok] + RunKeepingAll(r, next, rest)
  {
    assert ([c] + rest)[1..] == rest;
  }

  lemma {:induction false} KeepingTogether(r: Rate, bs: Buckets, a: seq<Call>, b: seq<Call>)
    ensures RunKeepingAll(r, bs, a + b) == RunKeepingAll(r, bs, a) + RunKeepingAll(r, StateKeepingAll(r, bs, a), b)
    decreases |a|
  {
    if a == [] {
      assert a + b == b;
    } else {
      var (next, ok) := Charged(r, bs, a[0].key, a[0].at);
      assert a + b == [a[0]] + (a[1..] + b) && a == [a[0]] + a[1..];
      KeepingStep(r, bs, a[0], a[1..] + b);
      KeepingStep(r, bs, a[0], a[1..]);
      KeepingTogether(r, next, a[1..], b);
      OneThenMore(ok, RunKeepingAll(r, next, a[1..]), RunKeepingAll(r, StateKeepingAll(r, next, a[1..]), b));
    }
  }

  /** If all of a burst passes at a limiter that keeps all, it cost as many tokens. */
  lemma {:induction false} KeptBurst(r: Rate, bs: Buckets, key: string, now: int, n: nat)
    requires Lawful(r) && Sane(r, bs, now) && RunKeepingAll(r, bs, Burst(key, now, n)) == Yes(n)
    ensures var after := StateKeepingAll(r, bs, Burst(key, now, n));
      Sane(r, after, now) && Level(r, after, key, now) == Level(r, bs, key, now) - n as real
    decreases n
  {
    if n > 0 {
      var (next, ok) := Charged(r, bs, key, now);
      ChargedLevel(r, bs, key, key, now, now);
      KeepingStep(r, bs, Call(key, now), Burst(key, now, n - 1));
      assert [ok] + RunKeepingAll(r, next, Burst(key, now, n - 1)) == [true] + Yes(n - 1);
      assert ([ok] + RunKeepingAll(r, next, Burst(key, now, n - 1)))[1..] == ([true] + Yes(n - 1))[1..];
      assert ok == ([true] + Yes(n - 1))[0];
      KeptBurst(r, next, key, now, n - 1);
    }
  }

  /** Only the caller and one other are about, so nothing is dropped. */
  predicate Few(bs: Buckets, z: string) { bs.Keys <= {"", z} }

  lemma FewStaySo(r: Rate, bs: Buckets, z: string, now: int)
    requires Few(bs, z)
    ensures Few(Charged(r, bs, "", now).0, z) && Allowed(r, bs, "", now) == Charged(r, bs, "", now)
  {
    KeysFit(Charged(r, bs, "", now).0.Keys, {"", z});
  }

  /** With so many tokens a burst passes among few. */
  lemma {:induction false} FewBurst(r: Rate, bs: Buckets, z: string, now: int, n: nat)
    requires Lawful(r) && Sane(r, bs, now) && Few(bs, z) && Level(r, bs, "", now) >= n as real
    ensures var (after, oks) := Run(r, bs, Burst("", now, n));
      oks == Yes(n) && Few(after, z) && Sane(r, after, now) && Level(r, after, "", now) == Level(r, bs, "", now) - n as real
    decreases n
  {
    if n > 0 {
      var (next, ok) := Allowed(r, bs, "", now);
      FewStaySo(r, bs, z, now);
      ChargedLevel(r, bs, "", "", now, now);
      FewBurst(r, next, z, now, n - 1);
      RunStep(r, bs, Call("", now), Burst("", now, n - 1));
    }
  }

  /** What the caller has before it calls at the next millisecond. */
  function Filled(r: Rate, j: nat): real { MinReal(r.capacity, Residue(r, j) + Tick(r)) }

  lemma ResidueIsFraction(r: Rate, i: nat)
    requires Lawful(r)
    ensures 0.0 <= Residue(r, i) < 1.0 && Filled(r, i) >= 0.0
    ensures Residue(r, i + 1) == Frac(Filled(r, i))
  {
    RefillNotNegative(r, 1);
  }

  /** Take every whole token, millisecond after millisecond, from the `j`th to the `i`th. */
  function Drain(r: Rate, t: int, j: nat, i: nat): seq<Call>
    requires j <= i
    decreases i - j
  {
    if j == i then [] else Burst("", t + 1, Taken(r, j)) + Drain(r, t + 1, j + 1, i)
  }

  function Taken(r: Rate, j: nat): nat {
    var n := Filled(r, j).Floor;
    if n < 0 then 0 else n
  }

  /** Up to the `i`th millisecond the bucket is never full again. */
  ghost predicate Unfilled(r: Rate, i: nat) { forall j: nat :: j < i ==> Residue(r, j) + Tick(r) <= r.capacity }

  /** Side by side, one limiter ahead of the other by more than a residue reached later. */
  ghost predicate Apart(r: Rate, a: Buckets, b: Buckets, t: int, j: nat, lack: real) {
    Few(a, "z") && Sane(r, a, t) && Sane(r, b, t) && Level(r, a, "", t) == Residue(r, j) && Level(r, b, "", t) == Residue(r, j) - lack
  }

  lemma ApartLater(r: Rate, a: Buckets, b: Buckets, t: int, j: nat, lack: real)
    requires Lawful(r) && Apart(r, a, b, t, j, lack) && lack >= 0.0 && Residue(r, j) + Tick(r) <= r.capacity
    ensures Sane(r, a, t + 1) && Sane(r, b, t + 1)
    ensures Level(r, a, "", t + 1) == Filled(r, j) && Level(r, b, "", t + 1) == Filled(r, j) - lack
  {
    LevelLater(r, a, "", t, t + 1);
    LevelLater(r, b, "", t, t + 1);
  }

  lemma UnequalHeads(x: seq<bool>, y: seq<bool>, p: seq<bool>, q: seq<bool>)
    requires |x| == |y|
    ensures x + p == y + q <==> x == y && p == q
  {
    assert (x + p)[..|x|] == x && (x + p)[|x|..] == p;
    assert (y + q)[..|y|] == y && (y + q)[|y|..] == q;
  }

  lemma BurstLength(key: string, now: int, n: nat)
    ensures |Burst(key, now, n)| == n && |Yes(n)| == n
  {
    BurstIs(key, now, n);
  }

  /** A burst that empties the fuller limiter to its next residue: either a decision differs, or they stay as far apart. */
  lemma BurstApart(r: Rate, a: Buckets, b: Buckets, now: int, n: nat, j: nat, lack: real)
    requires Lawful(r) && Few(a, "z") && Sane(r, a, now) && Sane(r, b, now)
    requires Level(r, a, "", now) == Residue(r, j) + n as real && Level(r, b, "", now) == Level(r, a, "", now) - lack
    requires Residue(r, j) >= 0.0
    ensures Run(r, a, Burst("", now, n)).1 == Yes(n) && |RunKeepingAll(r, b, Burst("", now, n))| == |Yes(n)|
    ensures RunKeepingAll(r, b, Burst("", now, n)) == Yes(n) ==>
      Apart(r, Run(r, a, Burst("", now, n)).0, StateKeepingAll(r, b, Burst("", now, n)), now, j, lack)
  {
    FewBurst(r, a, "z", now, n);
    BurstLength("", now, n);
    if RunKeepingAll(r, b, Burst("", now, n)) == Yes(n) { KeptBurst(r, b, "", now, n); }
  }

  lemma DrainStep(r: Rate, a: Buckets, b: Buckets, t: int, j: nat, lack: real)
    requires Lawful(r) && Apart(r, a, b, t, j, lack) && lack >= 0.0 && Residue(r, j) + Tick(r) <= r.capacity
    ensures var n := Taken(r, j);
      var burst := Burst("", t + 1, n);
      && Run(r, a, burst).1 == Yes(n) && |RunKeepingAll(r, b, burst)| == |Yes(n)|
      && (RunKeepingAll(r, b, burst) == Yes(n) ==> Apart(r, Run(r, a, burst).0, StateKeepingAll(r, b, burst), t + 1, j + 1, lack))
  {
    ResidueIsFraction(r, j);
    ResidueIsFraction(r, j + 1);
    ApartLater(r, a, b, t, j, lack);
    BurstApart(r, a, b, t + 1, Taken(r, j), j + 1, lack);
  }

  lemma {:induction false} DrainTells(r: Rate, a: Buckets, b: Buckets, t: int, j: nat, i: nat, lack: real)
    requires Lawful(r) && j <= i && Unfilled(r, i) && Residue(r, i) < lack && Apart(r, a, b, t, j, lack)
    ensures Run(r, a, Drain(r, t, j, i)).1 != RunKeepingAll(r, b, Drain(r, t, j, i))
    decreases i - j
  {
    ResidueIsFraction(r, i);
    LevelIsSane(r, b, "", t);
    if j < i {
      var n := Taken(r, j);
      var burst := Burst("", t + 1, n);
      DrainStep(r, a, b, t, j, lack);
      if RunKeepingAll(r, b, burst) == Yes(n) {
        DrainTells(r, Run(r, a, burst).0, StateKeepingAll(r, b, burst), t + 1, j + 1, i, lack);
      }
      TellsTogether(r, a, b, burst, Drain(r, t + 1, j + 1, i), n);
    }
  }

  lemma TellsTogether(r: Rate, a: Buckets, b: Buckets, burst: seq<Call>, rest: seq<Call>, n: nat)
    requires Run(r, a, burst).1 == Yes(n) && |RunKeepingAll(r, b, burst)| == |Yes(n)|
    requires RunKeepingAll(r, b, burst) == Yes(n) ==> Run(r, Run(r, a, burst).0, rest).1 != RunKeepingAll(r, StateKeepingAll(r, b, burst), rest)
    ensures Run(r, a, burst + rest).1 != RunKeepingAll(r, b, burst + rest)
  {
    RunTogether(r, a, burst, rest);
    KeepingTogether(r, b, burst, rest);
    UnequalHeads(Yes(n), RunKeepingAll(r, b, burst), Run(r, Run(r, a, burst).0, rest).1, RunKeepingAll(r, StateKeepingAll(r, b, burst), rest));
  }

  // ---------------------------------------------------------------- the run that tells

  lemma {:induction false} ResiduesRepeat(r: Rate, j: nat, k: nat)
    requires Residue(r, j) == Residue(r, 0)
    ensures Residue(r, j + k) == Residue(r, k)
  {
    if k > 0 { ResiduesRepeat(r, j, k - 1); }
  }

  /** The first residue that falls short. */
  lemma {:induction false} FirstShort(r: Rate, lack: real, i: nat) returns (first: nat)
    requires Residue(r, i) < lack
    ensures Residue(r, first) < lack && forall j: nat :: j < first ==> Residue(r, j) >= lack
  {
    if j: nat :| j < i && Residue(r, j) < lack {
      first := FirstShort(r, lack, j);
    } else {
      first := i;
    }
  }

  lemma FullAgainRepeats(r: Rate, j: nat, k: nat)
    ensures Residue(r, j) + Tick(r) > r.capacity ==> Residue(r, j + 1 + k) == Residue(r, k)
  {
    if Residue(r, j) + Tick(r) > r.capacity {
      assert Residue(r, j + 1) == Residue(r, 0);
      ResiduesRepeat(r, j + 1, k);
    }
  }

  /** Before it the bucket is never full again, or residues would repeat from the start. */
  lemma FirstShortIsUnfilled(r: Rate, lack: real, first: nat)
    requires Residue(r, first) < lack && forall j: nat :: j < first ==> Residue(r, j) >= lack
    ensures Unfilled(r, first)
  {
    forall j: nat | j < first ensures Residue(r, j) + Tick(r) <= r.capacity {
      FullAgainRepeats(r, j, first - (j + 1));
    }
  }

  /** A crowd that called at 0, and a caller with nothing left. */
  function Start(m: nat): Buckets { Crowd(m)["" := Bucket(0.0, 0)] }

  lemma StartsApart(r: Rate, m: nat) returns (a: Buckets, b: Buckets)
    requires Lawful(r) && r.capacity >= 1.0 && Idle(r) < r.capacity && m > MANY
    ensures Allowed(r, Start(m), "z", LATER) == (a, true) && Charged(r, Start(m), "z", LATER) == (b, true)
    ensures Few(a, "z") && Sane(r, a, LATER) && Sane(r, b, LATER) && Level(r, a, "", LATER) == r.capacity && Level(r, b, "", LATER) == Idle(r)
  {
    var bs := Start(m);
    KeysFit(Crowd(m).Keys, bs.Keys);
    NewcomerClears(r, bs, "z");
    a := map["z" := Bucket(r.capacity - 1.0, LATER)];
    b := Charged(r, bs, "z", LATER).0;
    RefillAdds(r, 0, 0);
    ChargedLevel(r, bs, "z", "", LATER, LATER);
    LaterRefills(r);
    assert Level(r, bs, "", LATER) == Idle(r);
  }

  function Telling(r: Rate, i: nat): seq<Call> {
    [Call("z", LATER)] + (Burst("", LATER, Whole(r)) + Drain(r, LATER, 0, i))
  }

  function Whole(r: Rate): nat { if r.capacity.Floor < 0 then 0 else r.capacity.Floor }

  lemma TellingTells(r: Rate, m: nat, i: nat)
    requires Lawful(r) && r.capacity >= 1.0 && m > MANY && Unfilled(r, i) && Residue(r, i) + Idle(r) < r.capacity
    ensures !SameDecisions(r, Start(m), Telling(r, i))
  {
    ResidueIsFraction(r, i);
    ResidueIsFraction(r, 0);
    var a, b := StartsApart(r, m);
    var n, lack := Whole(r), r.capacity - Idle(r);
    var burst, rest := Burst("", LATER, n), Drain(r, LATER, 0, i);
    BurstApart(r, a, b, LATER, n, 0, lack);
    if RunKeepingAll(r, b, burst) == Yes(n) { DrainTells(r, Run(r, a, burst).0, StateKeepingAll(r, b, burst), LATER, 0, i, lack); }
    TellsTogether(r, a, b, burst, rest, n);
    RunStep(r, Start(m), Call("z", LATER), burst + rest);
    KeepingStep(r, Start(m), Call("z", LATER), burst + rest);
    UnequalHeads([true], [true], Run(r, a, burst + rest).1, RunKeepingAll(r, b, burst + rest));
  }

  lemma OrderlyTogether(a: seq<Call>, b: seq<Call>, from: int, mid: int, to: int)
    requires Orderly(a, from, mid) && Orderly(b, mid, to) && from <= mid <= to
    ensures Orderly(a + b, from, to)
  {
  }

  lemma {:induction false} DrainIsOrderly(r: Rate, t: int, j: nat, i: nat)
    requires j <= i
    ensures Orderly(Drain(r, t, j, i), t, t + (i - j))
    decreases i - j
  {
    if j < i {
      BurstIs("", t + 1, Taken(r, j));
      DrainIsOrderly(r, t + 1, j + 1, i);
      OrderlyTogether(Burst("", t + 1, Taken(r, j)), Drain(r, t + 1, j + 1, i), t, t + 1, t + (i - j));
    }
  }

  lemma TellingIsOrderly(r: Rate, i: nat)
    ensures Orderly(Telling(r, i), 0, LATER + i)
  {
    BurstIs("", LATER, Whole(r));
    DrainIsOrderly(r, LATER, 0, i);
    OrderlyTogether(Burst("", LATER, Whole(r)), Drain(r, LATER, 0, i), LATER, LATER, LATER + i);
    OrderlyTogether([Call("z", LATER)], Burst("", LATER, Whole(r)) + Drain(r, LATER, 0, i), 0, LATER, LATER + i);
  }

  lemma ShortChangesADecision(r: Rate, i: nat)
    requires Lawful(r) && r.capacity >= 1.0 && Residue(r, i) + Idle(r) < r.capacity
    ensures !DropsAreHarmless(r)
  {
    var lack := r.capacity - Idle(r);
    var first := FirstShort(r, lack, i);
    FirstShortIsUnfilled(r, lack, first);
    var m: nat :| m > MANY;
    TellingTells(r, m, first);
    TellingIsOrderly(r, first);
    assert Sane(r, Start(m), 0);
  }

  lemma {:induction false} SmallResiduesReach(r: Rate, i: nat)
    requires Lawful(r) && r.capacity < 1.0
    ensures Residue(r, i) == r.capacity
  {
    RefillNotNegative(r, 1);
    if i > 0 { SmallResiduesReach(r, i - 1); }
  }

  /**
   Exactly when dropping idle buckets changes no decision of any run, from any state and for every rate: when every
   residue, and what refills before a bucket can be forgotten, make up a full bucket.
   */
  lemma DropsAreHarmlessExactlyWhenResiduesReach(r: Rate)
    requires Lawful(r)
    ensures DropsAreHarmless(r) <==> ResiduesReach(r)
  {
    if ResiduesReach(r) {
      ReachingIsHarmless(r);
    } else {
      var i: nat :| Residue(r, i) + Idle(r) < r.capacity;
      if r.capacity < 1.0 { SmallResiduesReach(r, i); }
      RefillNotNegative(r, 1);
      ShortChangesADecision(r, i);
    }
  }

  /** A bucket that refills in that time is the plain case; short of it, only fractions of a token can still make it harmless. */
  const Half := Rate(60001.5, 1000.0)

  lemma {:induction false} HalfResidues(i: nat)
    ensures Residue(Half, i) == 0.5
  {
    assert Frac(60001.5) == 0.5 by { assert (60001.5).Floor == 60001; }
    assert Tick(Half) == 1.0;
    if i > 0 {
      HalfResidues(i - 1);
      assert (1.5).Floor == 1;
    }
  }

  /** This bucket misses it by half a token, and half a token, refilled by whole ones, decides nothing. */
  lemma HarmlessShortOfAFullBucket()
    ensures 60.001 * Half.refillPerSec < Half.capacity && DropsAreHarmless(Half)
  {
    forall i: nat ensures Residue(Half, i) + Idle(Half) >= Half.capacity { HalfResidues(i); }
    ReachingIsHarmless(Half);
  }
}
