/**
 When the bound on windows holds, for every rate: a caller that lets itself be forgotten again and again gains a little
 each time.
 */
module RateLimiterWindows {
  import opened RateLimiter
  import opened RateLimiterResidues

  lemma {:induction false} PassedTogether(key: string, a: seq<Call>, p: seq<bool>, b: seq<Call>, q: seq<bool>)
    requires |p| == |a| && |q| == |b|
    ensures Passed(key, a + b, p + q) == Passed(key, a, p) + Passed(key, b, q)
  {
    if a == [] {
      assert a + b == b && p + q == q;
    } else {
      PassedTogether(key, a[1..], p[1..], b, q);
      assert (a + b)[1..] == a[1..] + b && (p + q)[1..] == p[1..] + q;
    }
  }

  /** How many of the caller's calls a run lets through. */
  function Got(r: Rate, bs: Buckets, calls: seq<Call>): nat {
    RunDecidesAll(r, bs, calls);
    Passed("", calls, Run(r, bs, calls).1)
  }

  lemma GotTogether(r: Rate, bs: Buckets, a: seq<Call>, b: seq<Call>)
    ensures Run(r, bs, a + b).0 == Run(r, Run(r, bs, a).0, b).0
    ensures Got(r, bs, a + b) == Got(r, bs, a) + Got(r, Run(r, bs, a).0, b)
  {
    RunTogether(r, bs, a, b);
    RunDecidesAll(r, bs, a);
    RunDecidesAll(r, Run(r, bs, a).0, b);
    PassedTogether("", a, Run(r, bs, a).1, b, Run(r, Run(r, bs, a).0, b).1);
  }

  /** From `bs` these calls lead to `after`, and the caller gets this many through. */
  ghost predicate Leads(r: Rate, bs: Buckets, calls: seq<Call>, after: Buckets, got: real) {
    Run(r, bs, calls).0 == after && Got(r, bs, calls) as real == got
  }

  lemma LeadsOn(r: Rate, bs: Buckets, a: seq<Call>, mid: Buckets, x: real, b: seq<Call>, after: Buckets, y: real)
    requires Leads(r, bs, a, mid, x) && Leads(r, mid, b, after, y)
    ensures Leads(r, bs, a + b, after, x + y)
  {
    GotTogether(r, bs, a, b);
  }

  lemma GotOne(r: Rate, bs: Buckets, c: Call)
    ensures Run(r, bs, [c]).0 == Allowed(r, bs, c.key, c.at).0
    ensures Got(r, bs, [c]) == if c.key == "" && Allowed(r, bs, c.key, c.at).1 then 1 else 0
  {
    var (next, ok) := Allowed(r, bs, c.key, c.at);
    RunStep(r, bs, c, []);
    PassedStep("", c, [], ok, []);
    assert [c] + [] == [c] && [ok] + [] == [ok];
  }

  lemma GotBurst(r: Rate, bs: Buckets, z: string, now: int, n: nat)
    requires Lawful(r) && Sane(r, bs, now) && Few(bs, z) && Level(r, bs, "", now) >= n as real
    ensures Got(r, bs, Burst("", now, n)) == n
  {
    FewBurst(r, bs, z, now, n);
    BurstPassed("", now, n, [], []);
    assert Burst("", now, n) + [] == Burst("", now, n) && Yes(n) + [] == Yes(n);
  }

  lemma GotTick(r: Rate, bs: Buckets, z: string, t: int, j: nat)
    requires Lawful(r) && Few(bs, z) && Sane(r, bs, t) && Level(r, bs, "", t) == Residue(r, j) && Residue(r, j) + Tick(r) <= r.capacity
    ensures var burst := Burst("", t + 1, Taken(r, j));
      var after := Run(r, bs, burst).0;
      && Few(after, z) && Sane(r, after, t + 1) && Level(r, after, "", t + 1) == Residue(r, j + 1)
      && Got(r, bs, burst) as real == Residue(r, j) + Tick(r) - Residue(r, j + 1)
  {
    ResidueIsFraction(r, j);
    ResidueIsFraction(r, j + 1);
    LevelLater(r, bs, "", t, t + 1);
    FewBurst(r, bs, z, t + 1, Taken(r, j));
    GotBurst(r, bs, z, t + 1, Taken(r, j));
  }

  /** Draining from the `j`th to the `i`th millisecond takes what refills, less what is left over. */
  lemma {:induction false} GotDrain(r: Rate, bs: Buckets, z: string, t: int, j: nat, i: nat) returns (after: Buckets)
    requires Lawful(r) && j <= i && Unfilled(r, i) && Few(bs, z) && Sane(r, bs, t) && Level(r, bs, "", t) == Residue(r, j)
    ensures Few(after, z) && Sane(r, after, t + (i - j)) && Level(r, after, "", t + (i - j)) == Residue(r, i)
    ensures Leads(r, bs, Drain(r, t, j, i), after, Residue(r, j) + Refill(r, i - j) - Residue(r, i))
    decreases i - j
  {
    if j == i {
      RefillAdds(r, 0, 0);
      after := bs;
    } else {
      var burst, rest := Burst("", t + 1, Taken(r, j)), Drain(r, t + 1, j + 1, i);
      GotTick(r, bs, z, t, j);
      var mid := Run(r, bs, burst).0;
      after := GotDrain(r, mid, z, t + 1, j + 1, i);
      TicksAdd(r, i - j);
      LeadsOn(r, bs, burst, mid, Residue(r, j) + Tick(r) - Residue(r, j + 1),
        rest, after, Residue(r, j + 1) + Refill(r, i - j - 1) - Residue(r, i));
    }
  }

  function CrowdCalls(t: int, k: nat): seq<Call> { if k == 0 then [] else CrowdCalls(t, k - 1) + [Call(Xs(k), t)] }

  /** The caller with this much left, called at `t`; so many others that called then; and one more perhaps. */
  ghost predicate Crowded(r: Rate, bs: Buckets, z: string, t: int, left: real, k: nat) {
    && Sane(r, bs, t) && "" in bs && bs[""] == Bucket(left, t)
    && (forall x :: x in Crowd(k) ==> x in bs && bs[x].at == t)
    && (forall x :: x in bs ==> x == "" || x == z || x in Crowd(k))
  }

  lemma CrowdIsNotIdle(r: Rate, bs: Buckets, z: string, t: int, left: real, k: nat)
    requires Crowded(r, bs, z, t, left, k)
    ensures Crowded(r, Fresh(bs, t), z, t, left, k)
  {
  }

  lemma NewFace(z: string, k: nat)
    requires k > 0 && z != "" && z[0] != 'x'
    ensures Xs(k) != "" && Xs(k) != z && Xs(k) !in Crowd(k - 1)
    ensures forall x :: x in Crowd(k) <==> x == Xs(k) || x in Crowd(k - 1)
  {
  }

  lemma CrowdGrows(r: Rate, bs: Buckets, z: string, t: int, left: real, k: nat)
    requires Lawful(r) && r.capacity >= 1.0 && z != "" && z[0] != 'x' && k > 0 && Crowded(r, bs, z, t, left, k - 1)
    ensures Xs(k) !in bs && Crowded(r, bs[Xs(k) := Bucket(r.capacity - 1.0, t)], z, t, left, k)
  {
    NewFace(z, k);
  }

  lemma FreshCallerPasses(r: Rate, bs: Buckets, key: string, now: int)
    requires Lawful(r) && r.capacity >= 1.0 && key !in bs
    ensures Charged(r, bs, key, now) == (bs[key := Bucket(r.capacity - 1.0, now)], true)
  {
    RefillAdds(r, 0, 0);
  }

  lemma OneMoreInTheCrowd(r: Rate, bs: Buckets, z: string, t: int, left: real, k: nat)
    requires Lawful(r) && r.capacity >= 1.0 && z != "" && z[0] != 'x' && k > 0 && Crowded(r, bs, z, t, left, k - 1)
    ensures Crowded(r, Allowed(r, bs, Xs(k), t).0, z, t, left, k)
  {
    CrowdGrows(r, bs, z, t, left, k);
    FreshCallerPasses(r, bs, Xs(k), t);
    CrowdIsNotIdle(r, bs[Xs(k) := Bucket(r.capacity - 1.0, t)], z, t, left, k);
  }

  lemma {:induction false} CrowdGathers(r: Rate, bs: Buckets, z: string, t: int, left: real, k: nat)
    requires Lawful(r) && r.capacity >= 1.0 && z != "" && z[0] != 'x' && Crowded(r, bs, z, t, left, 0)
    ensures Crowded(r, Run(r, bs, CrowdCalls(t, k)).0, z, t, left, k) && Got(r, bs, CrowdCalls(t, k)) == 0
  {
    if k > 0 {
      CrowdGathers(r, bs, z, t, left, k - 1);
      var before := Run(r, bs, CrowdCalls(t, k - 1)).0;
      OneMoreInTheCrowd(r, before, z, t, left, k);
      GotTogether(r, bs, CrowdCalls(t, k - 1), [Call(Xs(k), t)]);
      GotOne(r, before, Call(Xs(k), t));
    }
  }

  /** A newcomer's call once everybody is idle: everybody else is forgotten. */
  lemma IdleCrowdClears(r: Rate, bs: Buckets, key: string, now: int)
    requires Lawful(r) && r.capacity >= 1.0 && |bs| > MANY && key !in bs && forall k :: k in bs ==> now - bs[k].at > IDLE_MS
    ensures Allowed(r, bs, key, now) == (map[key := Bucket(r.capacity - 1.0, now)], true)
  {
    RefillAdds(r, 0, 0);
    var after := bs[key := Bucket(r.capacity - 1.0, now)];
    KeysFit(bs.Keys, after.Keys);
    assert Charged(r, bs, key, now) == (after, true);
    assert Fresh(after, now) == map[key := Bucket(r.capacity - 1.0, now)];
  }

  function OtherOf(z: string): string { if z == "z" then "y" else "z" }

  /** Spend a full bucket and what refills in `i` ms; be refused once; let a crowd come, and later a newcomer. */
  function Cycle(r: Rate, t: int, i: nat, m: nat, z: string): seq<Call> {
    Burst("", t, Whole(r)) + (Drain(r, t, 0, i) + ([Call("", t + i)] + (CrowdCalls(t + i, m) + [Call(OtherOf(z), t + i + LATER)])))
  }

  function Alone(r: Rate, z: string, t: int): Buckets { map[z := Bucket(r.capacity - 1.0, t)] }

  lemma RefusedOnce(r: Rate, bs: Buckets, z: string, t: int, left: real)
    requires Lawful(r) && Few(bs, z) && Sane(r, bs, t) && Level(r, bs, "", t) == left < 1.0
    ensures Crowded(r, Run(r, bs, [Call("", t)]).0, z, t, left, 0) && Got(r, bs, [Call("", t)]) == 0
  {
    GotOne(r, bs, Call("", t));
    ChargedLevel(r, bs, "", "", t, t);
  }

  lemma NewcomerIsUnknown(r: Rate, bs: Buckets, z: string, t: int, left: real, m: nat)
    requires (z == "y" || z == "z") && Crowded(r, bs, z, t, left, m)
    ensures OtherOf(z) !in bs && |bs| >= m && forall k :: k in bs ==> t + LATER - bs[k].at > IDLE_MS
  {
    KeysFit(Crowd(m).Keys, bs.Keys);
    assert OtherOf(z)[0] != 'x';
  }

  lemma NewcomerLeads(r: Rate, crowd: Buckets, z: string, t: int, left: real, m: nat)
    requires Lawful(r) && r.capacity >= 1.0 && (z == "y" || z == "z") && m > MANY && Crowded(r, crowd, z, t, left, m)
    ensures Leads(r, crowd, [Call(OtherOf(z), t + LATER)], Alone(r, OtherOf(z), t + LATER), 0.0)
  {
    NewcomerIsUnknown(r, crowd, z, t, left, m);
    IdleCrowdClears(r, crowd, OtherOf(z), t + LATER);
    GotOne(r, crowd, Call(OtherOf(z), t + LATER));
  }

  lemma CrowdThenNewcomer(r: Rate, bs: Buckets, z: string, t: int, left: real, m: nat)
    requires Lawful(r) && r.capacity >= 1.0 && (z == "y" || z == "z") && m > MANY && Crowded(r, bs, z, t, left, 0)
    ensures Leads(r, bs, CrowdCalls(t, m) + [Call(OtherOf(z), t + LATER)], Alone(r, OtherOf(z), t + LATER), 0.0)
  {
    CrowdGathers(r, bs, z, t, left, m);
    var crowd := Run(r, bs, CrowdCalls(t, m)).0;
    NewcomerLeads(r, crowd, z, t, left, m);
    LeadsOn(r, bs, CrowdCalls(t, m), crowd, 0.0, [Call(OtherOf(z), t + LATER)], Alone(r, OtherOf(z), t + LATER), 0.0);
  }

  lemma SpendsAll(r: Rate, bs: Buckets, z: string, t: int)
    requires Lawful(r) && Few(bs, z) && Sane(r, bs, t) && Level(r, bs, "", t) == r.capacity
    ensures var after := Run(r, bs, Burst("", t, Whole(r))).0;
      Few(after, z) && Sane(r, after, t) && Level(r, after, "", t) == Residue(r, 0)
    ensures Got(r, bs, Burst("", t, Whole(r))) as real == r.capacity - Residue(r, 0)
  {
    FewBurst(r, bs, z, t, Whole(r));
    GotBurst(r, bs, z, t, Whole(r));
  }

  /** What one cycle gets: a full bucket and what refills while draining, less the residue. */
  function PerCycle(r: Rate, i: nat): real { r.capacity + Refill(r, i) - Residue(r, i) }

  /** After draining: refused, then forgotten. */
  lemma ForgottenAgain(r: Rate, bs: Buckets, z: string, t: int, left: real, m: nat)
    requires Lawful(r) && r.capacity >= 1.0 && (z == "y" || z == "z") && m > MANY
    requires Few(bs, z) && Sane(r, bs, t) && Level(r, bs, "", t) == left < 1.0
    ensures Leads(r, bs, [Call("", t)] + (CrowdCalls(t, m) + [Call(OtherOf(z), t + LATER)]), Alone(r, OtherOf(z), t + LATER), 0.0)
  {
    RefusedOnce(r, bs, z, t, left);
    var refused := Run(r, bs, [Call("", t)]).0;
    CrowdThenNewcomer(r, refused, z, t, left, m);
    LeadsOn(r, bs, [Call("", t)], refused, 0.0, CrowdCalls(t, m) + [Call(OtherOf(z), t + LATER)], Alone(r, OtherOf(z), t + LATER), 0.0);
  }

  lemma DrainedAndForgotten(r: Rate, bs: Buckets, z: string, t: int, i: nat, m: nat)
    requires Lawful(r) && r.capacity >= 1.0 && (z == "y" || z == "z") && m > MANY && Unfilled(r, i)
    requires Few(bs, z) && Sane(r, bs, t) && Level(r, bs, "", t) == Residue(r, 0)
    ensures Leads(r, bs, Drain(r, t, 0, i) + ([Call("", t + i)] + (CrowdCalls(t + i, m) + [Call(OtherOf(z), t + i + LATER)])),
      Alone(r, OtherOf(z), t + i + LATER), Residue(r, 0) + Refill(r, i) - Residue(r, i))
  {
    ResidueIsFraction(r, i);
    var drained := GotDrain(r, bs, z, t, 0, i);
    ForgottenAgain(r, drained, z, t + i, Residue(r, i), m);
    LeadsOn(r, bs, Drain(r, t, 0, i), drained, Residue(r, 0) + Refill(r, i) - Residue(r, i),
      [Call("", t + i)] + (CrowdCalls(t + i, m) + [Call(OtherOf(z), t + i + LATER)]), Alone(r, OtherOf(z), t + i + LATER), 0.0);
  }

  lemma AloneIsFew(r: Rate, z: string, t: int)
    requires Lawful(r) && r.capacity >= 1.0 && z != ""
    ensures Few(Alone(r, z, t), z) && Sane(r, Alone(r, z, t), t) && Level(r, Alone(r, z, t), "", t) == r.capacity
  {
    RefillAdds(r, 0, 0);
  }

  lemma GotCycle(r: Rate, t: int, i: nat, m: nat, z: string)
    requires Lawful(r) && r.capacity >= 1.0 && (z == "y" || z == "z") && m > MANY && Unfilled(r, i)
    ensures Leads(r, Alone(r, z, t), Cycle(r, t, i, m, z), Alone(r, OtherOf(z), t + i + LATER), PerCycle(r, i))
  {
    var bs := Alone(r, z, t);
    AloneIsFew(r, z, t);
    SpendsAll(r, bs, z, t);
    var spent := Run(r, bs, Burst("", t, Whole(r))).0;
    DrainedAndForgotten(r, spent, z, t, i, m);
    LeadsOn(r, bs, Burst("", t, Whole(r)), spent, r.capacity - Residue(r, 0),
      Drain(r, t, 0, i) + ([Call("", t + i)] + (CrowdCalls(t + i, m) + [Call(OtherOf(z), t + i + LATER)])),
      Alone(r, OtherOf(z), t + i + LATER), Residue(r, 0) + Refill(r, i) - Residue(r, i));
  }

  // ---------------------------------------------------------------- cycle after cycle

  function Cycles(r: Rate, t: int, i: nat, m: nat, z: string, k: nat): seq<Call>
    decreases k
  {
    if k == 0 then [] else Cycle(r, t, i, m, z) + Cycles(r, t + i + LATER, i, m, OtherOf(z), k - 1)
  }

  /** So much each time, `k` times over. */
  function Times(k: nat, x: real): real { if k == 0 then 0.0 else x + Times(k - 1, x) }

  lemma NoCalls(r: Rate, bs: Buckets)
    ensures Leads(r, bs, [], bs, 0.0)
  {
  }

  lemma {:induction false} GotCycles(r: Rate, t: int, i: nat, m: nat, z: string, k: nat) returns (after: Buckets)
    requires Lawful(r) && r.capacity >= 1.0 && (z == "y" || z == "z") && m > MANY && Unfilled(r, i)
    ensures Leads(r, Alone(r, z, t), Cycles(r, t, i, m, z, k), after, Times(k, PerCycle(r, i)))
    decreases k
  {
    var bs := Alone(r, z, t);
    if k == 0 {
      after := bs;
      NoCalls(r, after);
    } else {
      var later := t + i + LATER;
      after := GotCycles(r, later, i, m, OtherOf(z), k - 1);
      var first, rest, x := Cycle(r, t, i, m, z), Cycles(r, later, i, m, OtherOf(z), k - 1), PerCycle(r, i);
      assert Cycles(r, t, i, m, z, k) == first + rest;
      GotCycle(r, t, i, m, z);
      OneCycleMore(r, bs, first, Alone(r, OtherOf(z), later), x, rest, after, k);
    }
  }

  lemma OneCycleMore(r: Rate, bs: Buckets, a: seq<Call>, mid: Buckets, x: real, b: seq<Call>, after: Buckets, k: nat)
    requires k > 0 && Leads(r, bs, a, mid, x) && Leads(r, mid, b, after, Times(k - 1, x))
    ensures Leads(r, bs, a + b, after, Times(k, x))
  {
    LeadsOn(r, bs, a, mid, x, b, after, Times(k - 1, x));
  }

  function Lasting(i: nat, k: nat): nat { if k == 0 then 0 else i + LATER + Lasting(i, k - 1) }

  lemma {:induction false} LastingRefills(r: Rate, i: nat, k: nat)
    ensures Refill(r, Lasting(i, k)) == Times(k, Refill(r, i) + Idle(r))
  {
    if k == 0 {
      RefillAdds(r, 0, 0);
    } else {
      LastingRefills(r, i, k - 1);
      LaterRefills(r);
      RefillAdds(r, i, LATER);
      RefillAdds(r, i + LATER, Lasting(i, k - 1));
    }
  }

  lemma {:induction false} TimesAdd(k: nat, x: real, y: real)
    ensures Times(k, x + y) == Times(k, x) + Times(k, y)
  {
    if k > 0 { TimesAdd(k - 1, x, y); }
  }

  lemma {:induction false} TimesIs(k: nat, x: real)
    ensures Times(k, x) == k as real * x
  {
    if k > 0 {
      TimesIs(k - 1, x);
      assert (k - 1) as real == k as real - 1.0;
    }
  }

  lemma Divided(amount: real, gain: real)
    requires gain > 0.0 && amount >= 0.0
    ensures amount / gain * gain == amount && amount / gain >= 0.0
  {
  }

  /** A gain, however small, repeated often enough, exceeds any amount. */
  lemma EnoughCycles(gain: real, amount: real) returns (k: nat)
    requires gain > 0.0 && amount >= 0.0
    ensures Times(k, gain) > amount
  {
    var q := amount / gain;
    Divided(amount, gain);
    k := q.Floor + 1;
    TimesIs(k, gain);
    MoreTimes(k as real, q, gain);
  }

  lemma MoreTimes(a: real, b: real, gain: real)
    requires a > b && gain > 0.0
    ensures a * gain > b * gain
  {
    assert (a - b) * gain > 0.0;
  }

  lemma {:induction false} CrowdIsOrderly(t: int, k: nat)
    ensures Orderly(CrowdCalls(t, k), t, t)
  {
    if k > 0 {
      CrowdIsOrderly(t, k - 1);
      OrderlyTogether(CrowdCalls(t, k - 1), [Call(Xs(k), t)], t, t, t);
    }
  }

  lemma CycleIsOrderly(r: Rate, t: int, i: nat, m: nat, z: string)
    ensures Orderly(Cycle(r, t, i, m, z), t, t + i + LATER)
  {
    BurstIs("", t, Whole(r));
    DrainIsOrderly(r, t, 0, i);
    CrowdIsOrderly(t + i, m);
    var newcomer := [Call(OtherOf(z), t + i + LATER)];
    var tail := CrowdCalls(t + i, m) + newcomer;
    OrderlyTogether(CrowdCalls(t + i, m), newcomer, t + i, t + i, t + i + LATER);
    OrderlyTogether([Call("", t + i)], tail, t + i, t + i, t + i + LATER);
    OrderlyTogether(Drain(r, t, 0, i), [Call("", t + i)] + tail, t, t + i, t + i + LATER);
    OrderlyTogether(Burst("", t, Whole(r)), Drain(r, t, 0, i) + ([Call("", t + i)] + tail), t, t, t + i + LATER);
  }

  lemma {:induction false} CyclesAreOrderly(r: Rate, t: int, i: nat, m: nat, z: string, k: nat)
    ensures Orderly(Cycles(r, t, i, m, z, k), t, t + Lasting(i, k))
    decreases k
  {
    if k > 0 {
      CycleIsOrderly(r, t, i, m, z);
      CyclesAreOrderly(r, t + i + LATER, i, m, OtherOf(z), k - 1);
      OrderlyTogether(Cycle(r, t, i, m, z), Cycles(r, t + i + LATER, i, m, OtherOf(z), k - 1), t, t + i + LATER, t + Lasting(i, k));
    }
  }

  /** Each cycle gains what a forgotten bucket lacked, less the residue; enough cycles exceed the bound of their window. */
  lemma CyclesExceedTheBound(r: Rate, i: nat) returns (calls: seq<Call>, to: int)
    requires Lawful(r) && r.capacity >= 1.0 && Unfilled(r, i) && Residue(r, i) + Idle(r) < r.capacity
    ensures to >= 0 && Sane(r, Alone(r, "z", 0), 0) && Orderly(calls, 0, to) && !Bounded(r, Alone(r, "z", 0), calls, "", 0, to)
  {
    var gain := r.capacity - Idle(r) - Residue(r, i);
    var k := EnoughCycles(gain, r.capacity);
    var m: nat :| m > MANY;
    calls := Cycles(r, 0, i, m, "z", k);
    to := Lasting(i, k);
    AloneIsFew(r, "z", 0);
    var after := GotCycles(r, 0, i, m, "z", k);
    CyclesAreOrderly(r, 0, i, m, "z", k);
    LastingRefills(r, i, k);
    TimesAdd(k, Refill(r, i) + Idle(r), gain);
    assert PerCycle(r, i) == Refill(r, i) + Idle(r) + gain;
    assert Refill(r, to - 0) == Times(k, Refill(r, i) + Idle(r));
  }

  /** So for every rate windows are bounded exactly when dropping idle buckets changes no decision: when residues reach. */
  lemma WindowsAreBoundedExactlyWhenResiduesReach(r: Rate)
    requires Lawful(r)
    ensures WindowsAreBounded(r) <==> ResiduesReach(r)
  {
    if ResiduesReach(r) {
      ReachingIsHarmless(r);
      HarmlessDropsBoundWindows(r);
    } else {
      var i: nat :| Residue(r, i) + Idle(r) < r.capacity;
      if r.capacity < 1.0 { SmallResiduesReach(r, i); }
      RefillNotNegative(r, 1);
      var lack := r.capacity - Idle(r);
      var first := FirstShort(r, lack, i);
      FirstShortIsUnfilled(r, lack, first);
      var calls, to := CyclesExceedTheBound(r, first);
    }
  }

  // ---------------------------------------------------------------- the same from a new limiter

  /** Every run of a new limiter decides as if nothing were forgotten. */
  ghost predicate NewIsHarmless(r: Rate) {
    forall calls, from, to :: Orderly(calls, from, to) && from <= to ==> SameDecisions(r, map[], calls)
  }

  /** Every run of a new limiter bounds whatever window follows it. */
  ghost predicate NewIsBounded(r: Rate) {
    forall before, window, start, from, to, key :: Consecutive(before, window, start, from, to) ==>
      Bounded(r, Run(r, map[], before).0, window, key, from, to)
  }

  ghost predicate Consecutive(before: seq<Call>, window: seq<Call>, start: int, from: int, to: int) {
    start <= from <= to && Orderly(before, start, from) && Orderly(window, from, to)
  }

  /** The cycles begin where one call leaves a new limiter. */
  lemma AloneIsReached(r: Rate, z: string, t: int)
    requires Lawful(r) && r.capacity >= 1.0
    ensures Run(r, map[], [Call(z, t)]).0 == Alone(r, z, t)
  {
    FreshCallerPasses(r, map[], z, t);
    RunStep(r, map[], Call(z, t), []);
    assert [Call(z, t)] + [] == [Call(z, t)];
    assert map[][z := Bucket(r.capacity - 1.0, t)] == Alone(r, z, t);
  }

  lemma SomeRunExceedsTheBound(r: Rate, i: nat) returns (calls: seq<Call>, to: int)
    requires Lawful(r) && r.capacity >= 1.0 && Residue(r, i) + Idle(r) < r.capacity
    ensures to >= 0 && Orderly(calls, 0, to) && !Bounded(r, Run(r, map[], [Call("z", 0)]).0, calls, "", 0, to)
  {
    var lack := r.capacity - Idle(r);
    var first := FirstShort(r, lack, i);
    FirstShortIsUnfilled(r, lack, first);
    calls, to := CyclesExceedTheBound(r, first);
    AloneIsReached(r, "z", 0);
  }

  lemma UnboundedTells(r: Rate, calls: seq<Call>, to: int)
    requires Lawful(r) && to >= 0 && Orderly(calls, 0, to) && !Bounded(r, Run(r, map[], [Call("z", 0)]).0, calls, "", 0, to)
    ensures Orderly([Call("z", 0)] + calls, 0, to) && !SameDecisions(r, map[], [Call("z", 0)] + calls)
  {
    var first := [Call("z", 0)];
    OrderlyTogether(first, calls, 0, 0, to);
    GotTogether(r, map[], first, calls);
    RunDecidesAll(r, map[], first + calls);
    RunDecidesAll(r, Run(r, map[], first).0, calls);
    if SameDecisions(r, map[], first + calls) { KeepingAllBoundsWindows(r, map[], first + calls, 0, to, ""); }
  }

  /**
   What holds from every state holds from the constructor's alone: a new limiter's decisions are never changed by
   dropping idle buckets, and its windows are always bounded, exactly when residues reach.
   */
  lemma NewLimitersAreSafeExactlyWhenResiduesReach(r: Rate)
    requires Lawful(r)
    ensures NewIsHarmless(r) <==> ResiduesReach(r)
    ensures NewIsBounded(r) <==> ResiduesReach(r)
  {
    if ResiduesReach(r) {
      ReachingIsHarmless(r);
      HarmlessIsHarmlessFromNew(r);
    } else {
      var i: nat :| Residue(r, i) + Idle(r) < r.capacity;
      RefillNotNegative(r, 1);
      if r.capacity < 1.0 { SmallResiduesReach(r, i); }
      var calls, to := SomeRunExceedsTheBound(r, i);
      UnboundedTells(r, calls, to);
      assert Consecutive([Call("z", 0)], calls, 0, 0, to);
    }
  }

  lemma HarmlessIsHarmlessFromNew(r: Rate)
    requires Lawful(r) && DropsAreHarmless(r)
    ensures NewIsHarmless(r) && NewIsBounded(r)
  {
    HarmlessDropsBoundWindows(r);
    forall calls, from, to | Orderly(calls, from, to) && from <= to ensures SameDecisions(r, map[], calls) {
      assert Sane(r, map[], from);
    }
    forall before, window, start, from, to, key | Consecutive(before, window, start, from, to)
      ensures Bounded(r, Run(r, map[], before).0, window, key, from, to)
    {
      RunStaysSane(r, map[], before, start, from);
    }
  }
}
