/**
 Outstanding committed dollars by counterparty and by day (src/mandate/exposure.ts), and the caps the
 mandate engine holds them to (src/mandate/engine.ts).
 */
module Exposure {
  datatype Account = Account(outstandingUsd: real, count: int)

  datatype Book = Book(byCounterparty: map<string, Account>, byDay: map<string, real>, applied: seq<string>)

  const EmptyBook := Book(map[], map[], [])

  function Outstanding(b: Book, party: string): real { if party in b.byCounterparty then b.byCounterparty[party].outstandingUsd else 0.0 }

  function Count(b: Book, party: string): int { if party in b.byCounterparty then b.byCounterparty[party].count else 0 }

  function Daily(b: Book, day: string): real { if day in b.byDay then b.byDay[day] else 0.0 }

  function AddMark(ref: string): string { "add:" + ref }

  function ReleaseMark(ref: string): string { "release:" + ref }

  /** An operation is applied unless its mark says it already was; one without a reference always is. */
  predicate Applies(b: Book, ref: string, mark: string) { ref == "" || mark !in b.applied }

  function Marked(b: Book, ref: string, mark: string): seq<string> { if ref == "" then b.applied else b.applied + [mark] }

  function Added(b: Book, party: string, amount: real, day: string, ref: string): Book {
    if !Applies(b, ref, AddMark(ref)) then b
    else
      Book(b.byCounterparty[party := Account(Outstanding(b, party) + amount, Count(b, party) + 1)],
           b.byDay[day := Daily(b, day) + amount],
           Marked(b, ref, AddMark(ref)))
  }

  function Clamped(x: real): real { if x < 0.0 then 0.0 else x }

  function Released(b: Book, party: string, amount: real, day: string, ref: string): Book {
    if !Applies(b, ref, ReleaseMark(ref)) then b
    else
      Book(if party in b.byCounterparty
           then b.byCounterparty[party := Account(Clamped(Outstanding(b, party) - amount), if Count(b, party) > 1 then Count(b, party) - 1 else 0)]
           else b.byCounterparty,
           b.byDay[day := Clamped(Daily(b, day) - amount)],
           Marked(b, ref, ReleaseMark(ref)))
  }

  class ExposureBook {
    var byCounterparty: map<string, Account>
    var byDay: map<string, real>
    var applied: seq<string>

    constructor (stored: Book)
      ensures View() == stored
    {
      byCounterparty, byDay, applied := stored.byCounterparty, stored.byDay, stored.applied;
    }

    function View(): Book
      reads this
    {
      Book(byCounterparty, byDay, applied)
    }

    method Once(ref: string, mark: string) returns (first: bool)
      modifies this`applied
      ensures first <==> Applies(old(View()), ref, mark)
      ensures applied == if first then Marked(old(View()), ref, mark) else old(applied)
    {
      if ref == "" { return true; }
      if mark in applied { return false; }
      applied := applied + [mark];
      return true;
    }

    method Add(party: string, amount: real, day: string, ref: string)
      modifies this
      ensures View() == Added(old(View()), party, amount, day, ref)
    {
      var first := Once(ref, AddMark(ref));
      if !first { return; }
      var c := if party in byCounterparty then byCounterparty[party] else Account(0.0, 0);
      c := c.(outstandingUsd := c.outstandingUsd + amount, count := c.count + 1);
      byCounterparty := byCounterparty[party := c];
      byDay := byDay[day := (if day in byDay then byDay[day] else 0.0) + amount];
    }

    method Release(party: string, amount: real, day: string, ref: string)
      modifies this
      ensures View() == Released(old(View()), party, amount, day, ref)
    {
      var first := Once(ref, ReleaseMark(ref));
      if !first { return; }
      if party in byCounterparty {
        var c := byCounterparty[party];
        c := c.(outstandingUsd := if c.outstandingUsd - amount > 0.0 then c.outstandingUsd - amount else 0.0,
                count := if c.count - 1 > 0 then c.count - 1 else 0);
        byCounterparty := byCounterparty[party := c];
      }
      var left := (if day in byDay then byDay[day] else 0.0) - amount;
      byDay := byDay[day := if left > 0.0 then left else 0.0];
    }
  }

  // ---------------------------------------------------------------- the caps

  datatype Limits = Limits(maxPerCounterpartyExposureUsd: real, maxDailyExposureUsd: real)

  datatype Violation = EXPOSURE_COUNTERPARTY_EXCEEDED(wouldBeUsd: real) | EXPOSURE_DAILY_EXCEEDED(wouldBeUsd: real)

  /** The exposure clauses of an ACCEPT. */
  function ExposureViolations(b: Book, party: string, rate: real, day: string, l: Limits): seq<Violation> {
    (if Outstanding(b, party) + rate > l.maxPerCounterpartyExposureUsd then [EXPOSURE_COUNTERPARTY_EXCEEDED(Outstanding(b, party) + rate)] else [])
    + (if Daily(b, day) + rate > l.maxDailyExposureUsd then [EXPOSURE_DAILY_EXCEEDED(Daily(b, day) + rate)] else [])
  }

  // ---------------------------------------------------------------- runs of operations that carry references

  datatype Deal = Deal(ref: string, party: string, amount: real, day: string)

  datatype Op = Add(deal: Deal) | Release(deal: Deal)

  function Apply(b: Book, op: Op): Book {
    match op
    case Add(d) => Added(b, d.party, d.amount, d.day, d.ref)
    case Release(d) => Released(b, d.party, d.amount, d.day, d.ref)
  }

  function RunOps(ops: seq<Op>): Book {
    if ops == [] then EmptyBook else Apply(RunOps(ops[..|ops| - 1]), ops[|ops| - 1])
  }

  predicate HasAdd(ops: seq<Op>, ref: string) { exists i :: 0 <= i < |ops| && ops[i].Add? && ops[i].deal.ref == ref }

  predicate HasRelease(ops: seq<Op>, ref: string) { exists i :: 0 <= i < |ops| && ops[i].Release? && ops[i].deal.ref == ref }

  /** References name deals; amounts are not negative; a release comes after its add. Repetition is free. */
  ghost predicate Sensible(ops: seq<Op>) {
    && (forall i :: 0 <= i < |ops| ==> ops[i].deal.ref != "" && ops[i].deal.amount >= 0.0)
    && (forall i, j :: 0 <= i < |ops| && 0 <= j < |ops| && ops[i].deal.ref == ops[j].deal.ref ==> ops[i].deal == ops[j].deal)
    && (forall i :: 0 <= i < |ops| && ops[i].Release? ==> HasAdd(ops[..i], ops[i].deal.ref))
  }

  function Drop(ds: seq<Deal>, ref: string): seq<Deal> {
    if ds == [] then [] else (if ds[0].ref == ref then [] else [ds[0]]) + Drop(ds[1..], ref)
  }

  /** The deals added and not yet released. */
  function Open(ops: seq<Op>): seq<Deal> {
    if ops == [] then []
    else
      var before, op := ops[..|ops| - 1], ops[|ops| - 1];
      if op.Add? then if HasAdd(before, op.deal.ref) then Open(before) else Open(before) + [op.deal]
      else Drop(Open(before), op.deal.ref)
  }

  function PartySum(ds: seq<Deal>, party: string): real {
    if ds == [] then 0.0 else (if ds[0].party == party then ds[0].amount else 0.0) + PartySum(ds[1..], party)
  }

  function PartyCount(ds: seq<Deal>, party: string): int {
    if ds == [] then 0 else (if ds[0].party == party then 1 else 0) + PartyCount(ds[1..], party)
  }

  function DaySum(ds: seq<Deal>, day: string): real {
    if ds == [] then 0.0 else (if ds[0].day == day then ds[0].amount else 0.0) + DaySum(ds[1..], day)
  }

  ghost predicate Distinct(ds: seq<Deal>) { forall i, j :: 0 <= i < j < |ds| ==> ds[i].ref != ds[j].ref }

  lemma {:induction false} DropMembers(ds: seq<Deal>, ref: string)
    requires Distinct(ds)
    ensures Distinct(Drop(ds, ref))
    ensures forall d :: d in Drop(ds, ref) <==> d in ds && d.ref != ref
  {
    if ds != [] {
      DropMembers(ds[1..], ref);
      assert ds == [ds[0]] + ds[1..];
      var rest := Drop(ds[1..], ref);
      forall j | 0 <= j < |rest| ensures rest[j].ref != ds[0].ref { assert rest[j] in rest; }
    }
  }

  lemma {:induction false} DropNothing(ds: seq<Deal>, ref: string)
    requires forall d :: d in ds ==> d.ref != ref
    ensures Drop(ds, ref) == ds
  {
    if ds != [] {
      DropNothing(ds[1..], ref);
      assert ds[0] in ds && ds == [ds[0]] + ds[1..];
    }
  }

  /** Dropping an open deal takes exactly it out of every sum. */
  lemma {:induction false} DropTakesOut(ds: seq<Deal>, d: Deal, party: string, day: string)
    requires Distinct(ds) && d in ds
    ensures PartySum(Drop(ds, d.ref), party) == PartySum(ds, party) - (if d.party == party then d.amount else 0.0)
    ensures PartyCount(Drop(ds, d.ref), party) == PartyCount(ds, party) - (if d.party == party then 1 else 0)
    ensures DaySum(Drop(ds, d.ref), day) == DaySum(ds, day) - (if d.day == day then d.amount else 0.0)
  {
    if ds[0] == d {
      forall e | e in ds[1..] ensures e.ref != d.ref { }
      DropNothing(ds[1..], d.ref);
      assert Drop(ds, d.ref) == ds[1..];
    } else {
      assert ds[0].ref != d.ref;
      DropTakesOut(ds[1..], d, party, day);
      assert Drop(ds, d.ref) == [ds[0]] + Drop(ds[1..], d.ref);
      assert Drop(ds, d.ref)[1..] == Drop(ds[1..], d.ref);
    }
  }

  lemma {:induction false} SumsAppend(ds: seq<Deal>, d: Deal, party: string, day: string)
    ensures PartySum(ds + [d], party) == PartySum(ds, party) + (if d.party == party then d.amount else 0.0)
    ensures PartyCount(ds + [d], party) == PartyCount(ds, party) + (if d.party == party then 1 else 0)
    ensures DaySum(ds + [d], day) == DaySum(ds, day) + (if d.day == day then d.amount else 0.0)
  {
    if ds == [] {
      assert ds + [d] == [d] && [d][1..] == [];
    } else {
      SumsAppend(ds[1..], d, party, day);
      assert (ds + [d])[0] == ds[0] && (ds + [d])[1..] == ds[1..] + [d];
    }
  }

  lemma {:induction false} SumsCover(ds: seq<Deal>, d: Deal)
    requires d in ds && forall e :: e in ds ==> e.amount >= 0.0
    ensures d.amount <= PartySum(ds, d.party) && 1 <= PartyCount(ds, d.party) && d.amount <= DaySum(ds, d.day)
  {
    assert ds[0] in ds;
    SumsNotNegative(ds[1..], d.party, d.day);
    if ds[0] != d { SumsCover(ds[1..], d); }
  }

  lemma {:induction false} SumsNotNegative(ds: seq<Deal>, party: string, day: string)
    requires forall e :: e in ds ==> e.amount >= 0.0
    ensures PartySum(ds, party) >= 0.0 && PartyCount(ds, party) >= 0 && DaySum(ds, day) >= 0.0
  {
    if ds != [] {
      assert ds[0] in ds;
      SumsNotNegative(ds[1..], party, day);
    }
  }

  lemma SensiblePrefix(ops: seq<Op>)
    requires ops != [] && Sensible(ops)
    ensures Sensible(ops[..|ops| - 1])
  {
    var before := ops[..|ops| - 1];
    forall i | 0 <= i < |before| && before[i].Release? ensures HasAdd(before[..i], before[i].deal.ref) {
      assert before[..i] == ops[..i];
    }
  }

  lemma HasSnoc(ops: seq<Op>, op: Op, ref: string)
    ensures HasAdd(ops + [op], ref) <==> HasAdd(ops, ref) || (op.Add? && op.deal.ref == ref)
    ensures HasRelease(ops + [op], ref) <==> HasRelease(ops, ref) || (op.Release? && op.deal.ref == ref)
  {
    var all := ops + [op];
    assert all[|ops|] == op;
    if HasAdd(ops, ref) { var i :| 0 <= i < |ops| && ops[i].Add? && ops[i].deal.ref == ref; assert all[i] == ops[i]; }
    if HasRelease(ops, ref) { var i :| 0 <= i < |ops| && ops[i].Release? && ops[i].deal.ref == ref; assert all[i] == ops[i]; }
  }

  predicate OpenDeal(ops: seq<Op>, d: Deal) { HasAdd(ops, d.ref) && !HasRelease(ops, d.ref) && d.amount >= 0.0 }

  ghost predicate OpenIs(ds: seq<Deal>, ops: seq<Op>) {
    && Distinct(ds)
    && (forall d :: d in ds ==> OpenDeal(ops, d))
    && (forall i :: 0 <= i < |ops| && !HasRelease(ops, ops[i].deal.ref) ==> ops[i].deal in ds)
  }

  lemma OpenAfterRepeatedAdd(ds: seq<Deal>, ops: seq<Op>, d: Deal)
    requires Sensible(ops + [Add(d)]) && OpenIs(ds, ops) && HasAdd(ops, d.ref)
    ensures OpenIs(ds, ops + [Add(d)])
  {
    var all := ops + [Add(d)];
    var k :| 0 <= k < |ops| && ops[k].Add? && ops[k].deal.ref == d.ref;
    assert all[k] == ops[k] && all[|ops|] == Add(d) && all[k].deal == all[|ops|].deal;
    forall e | e in ds ensures OpenDeal(all, e) {
      assert OpenDeal(ops, e);
      HasSnoc(ops, Add(d), e.ref);
    }
    forall i | 0 <= i < |all| && !HasRelease(all, all[i].deal.ref) ensures all[i].deal in ds {
      HasSnoc(ops, Add(d), all[i].deal.ref);
      assert all[i].deal == ops[if i < |ops| then i else k].deal;
    }
  }

  lemma OpenAfterFirstAdd(ds: seq<Deal>, ops: seq<Op>, d: Deal)
    requires Sensible(ops) && d.amount >= 0.0 && OpenIs(ds, ops) && !HasAdd(ops, d.ref)
    ensures OpenIs(ds + [d], ops + [Add(d)])
  {
    var all := ops + [Add(d)];
    NoReleaseBeforeAdd(ops, d.ref);
    HasSnoc(ops, Add(d), d.ref);
    forall e | e in ds ensures OpenDeal(all, e) && e.ref != d.ref {
      assert OpenDeal(ops, e);
      HasSnoc(ops, Add(d), e.ref);
    }
    assert forall j :: 0 <= j < |ds| ==> ds[j] in ds;
    forall i | 0 <= i < |all| && !HasRelease(all, all[i].deal.ref) ensures all[i].deal in ds + [d] {
      HasSnoc(ops, Add(d), all[i].deal.ref);
      if i < |ops| { assert all[i] == ops[i] && ops[i].deal in ds; }
    }
  }

  lemma OpenAfterRelease(ds: seq<Deal>, ops: seq<Op>, d: Deal)
    requires OpenIs(ds, ops)
    ensures OpenIs(Drop(ds, d.ref), ops + [Release(d)])
  {
    var all := ops + [Release(d)];
    DropMembers(ds, d.ref);
    forall e | e in Drop(ds, d.ref) ensures OpenDeal(all, e) {
      HasSnoc(ops, Release(d), e.ref);
      assert OpenDeal(ops, e);
    }
    forall i | 0 <= i < |all| && !HasRelease(all, all[i].deal.ref) ensures all[i].deal in Drop(ds, d.ref) {
      HasSnoc(ops, Release(d), all[i].deal.ref);
      if i < |ops| { assert all[i] == ops[i] && ops[i].deal in ds; }
    }
  }

  /** Open deals are exactly those added and never released, each once. */
  lemma {:induction false} OpenMeans(ops: seq<Op>)
    requires Sensible(ops)
    ensures OpenIs(Open(ops), ops)
  {
    if ops != [] {
      var n := |ops| - 1;
      SensiblePrefix(ops);
      OpenMeans(ops[..n]);
      assert ops == ops[..n] + [ops[n]];
      if ops[n].Add? {
        if HasAdd(ops[..n], ops[n].deal.ref) {
          OpenAfterRepeatedAdd(Open(ops[..n]), ops[..n], ops[n].deal);
        } else {
          OpenAfterFirstAdd(Open(ops[..n]), ops[..n], ops[n].deal);
        }
      } else {
        OpenAfterRelease(Open(ops[..n]), ops[..n], ops[n].deal);
      }
    }
  }

  lemma NoReleaseBeforeAdd(ops: seq<Op>, ref: string)
    requires Sensible(ops) && !HasAdd(ops, ref)
    ensures !HasRelease(ops, ref)
  {
    if HasRelease(ops, ref) {
      var i :| 0 <= i < |ops| && ops[i].Release? && ops[i].deal.ref == ref;
      EarlierAdd(ops, i, ref);
    }
  }

  lemma EarlierAdd(ops: seq<Op>, i: nat, ref: string)
    requires i <= |ops|
    ensures HasAdd(ops[..i], ref) ==> HasAdd(ops, ref)
  {
    if HasAdd(ops[..i], ref) {
      var k :| 0 <= k < i && ops[..i][k].Add? && ops[..i][k].deal.ref == ref;
      assert ops[k] == ops[..i][k];
    }
  }

  // ---------------------------------------------------------------- the balances

  predicate BalancedFor(b: Book, ds: seq<Deal>, party: string, day: string) {
    Outstanding(b, party) == PartySum(ds, party) && Count(b, party) == PartyCount(ds, party) && Daily(b, day) == DaySum(ds, day)
  }

  predicate MarkedFor(b: Book, ops: seq<Op>, ref: string) {
    && (AddMark(ref) in b.applied <==> ref != "" && HasAdd(ops, ref))
    && (ReleaseMark(ref) in b.applied <==> ref != "" && HasRelease(ops, ref))
  }

  ghost predicate Balanced(b: Book, ops: seq<Op>) {
    && (forall party, day :: BalancedFor(b, Open(ops), party, day))
    && (forall ref :: MarkedFor(b, ops, ref))
  }

  lemma MarksDiffer(a: string, b: string)
    ensures AddMark(a) == AddMark(b) <==> a == b
    ensures ReleaseMark(a) == ReleaseMark(b) <==> a == b
    ensures AddMark(a) != ReleaseMark(b)
  {
    assert AddMark(a)[4..] == a && AddMark(b)[4..] == b;
    assert ReleaseMark(a)[8..] == a && ReleaseMark(b)[8..] == b;
    assert AddMark(a)[0] == 'a' && ReleaseMark(b)[0] == 'r';
  }

  lemma MarkingMarks(b: Book, ops: seq<Op>, op: Op, ref: string)
    requires op.deal.ref != "" && MarkedFor(b, ops, ref) && MarkedFor(b, ops, op.deal.ref)
    ensures MarkedFor(Apply(b, op), ops + [op], ref)
  {
    var d := op.deal;
    HasSnoc(ops, op, ref);
    MarksDiffer(ref, d.ref);
    MarksDiffer(d.ref, ref);
  }

  lemma AddBalances(b: Book, ds: seq<Deal>, d: Deal, party: string, day: string)
    requires Applies(b, d.ref, AddMark(d.ref))
    requires BalancedFor(b, ds, party, day) && BalancedFor(b, ds, d.party, d.day)
    ensures BalancedFor(Apply(b, Add(d)), ds + [d], party, day)
  {
    SumsAppend(ds, d, party, day);
  }

  lemma ReleaseBalances(b: Book, ds: seq<Deal>, d: Deal, party: string, day: string)
    requires Applies(b, d.ref, ReleaseMark(d.ref)) && Distinct(ds) && d in ds && forall e :: e in ds ==> e.amount >= 0.0
    requires BalancedFor(b, ds, party, day) && BalancedFor(b, ds, d.party, d.day)
    ensures Unclamped(b, d)
    ensures BalancedFor(Apply(b, Release(d)), Drop(ds, d.ref), party, day)
  {
    SumsCover(ds, d);
    DropTakesOut(ds, d, party, day);
  }

  /** Releasing this deal takes no balance below zero. */
  predicate Unclamped(b: Book, d: Deal) {
    d.party in b.byCounterparty && Outstanding(b, d.party) - d.amount >= 0.0 && Count(b, d.party) >= 1 && Daily(b, d.day) - d.amount >= 0.0
  }

  /** An add that is not a repetition adds; a repetition changes nothing. */
  lemma AddStaysBalanced(b: Book, ops: seq<Op>, d: Deal)
    requires Balanced(b, ops) && d.ref != ""
    ensures Balanced(Apply(b, Add(d)), ops + [Add(d)])
  {
    var all := ops + [Add(d)];
    assert all[..|all| - 1] == ops && all[|all| - 1] == Add(d);
    assert MarkedFor(b, ops, d.ref);
    forall ref ensures MarkedFor(Apply(b, Add(d)), all, ref) { MarkingMarks(b, ops, Add(d), ref); }
    forall party, day ensures BalancedFor(Apply(b, Add(d)), Open(all), party, day) {
      assert BalancedFor(b, Open(ops), party, day) && BalancedFor(b, Open(ops), d.party, d.day);
      if !HasAdd(ops, d.ref) { AddBalances(b, Open(ops), d, party, day); }
    }
  }

  lemma AddedDealIsOpen(ops: seq<Op>, d: Deal)
    requires Sensible(ops + [Release(d)]) && !HasRelease(ops, d.ref)
    ensures Distinct(Open(ops)) && d in Open(ops) && forall e :: e in Open(ops) ==> e.amount >= 0.0
  {
    var all := ops + [Release(d)];
    SensiblePrefix(all);
    assert all[..|all| - 1] == ops;
    OpenMeans(ops);
    assert all[|ops|] == Release(d) && all[..|ops|] == ops;
    var k :| 0 <= k < |ops| && ops[k].Add? && ops[k].deal.ref == d.ref;
    assert all[k] == ops[k] && all[k].deal == all[|ops|].deal;
  }

  lemma RepeatedReleaseDropsNothing(ops: seq<Op>, d: Deal)
    requires Sensible(ops + [Release(d)]) && HasRelease(ops, d.ref)
    ensures Drop(Open(ops), d.ref) == Open(ops)
  {
    var all := ops + [Release(d)];
    SensiblePrefix(all);
    assert all[..|all| - 1] == ops;
    OpenMeans(ops);
    DropNothing(Open(ops), d.ref);
  }

  /** A release that is not a repetition takes out exactly what its add put in: no balance is clamped. */
  lemma ReleaseStaysBalanced(b: Book, ops: seq<Op>, d: Deal)
    requires Balanced(b, ops) && d.ref != "" && Sensible(ops + [Release(d)])
    ensures Balanced(Apply(b, Release(d)), ops + [Release(d)])
    ensures Applies(b, d.ref, ReleaseMark(d.ref)) ==> Unclamped(b, d)
  {
    var all := ops + [Release(d)];
    assert all[..|all| - 1] == ops && all[|all| - 1] == Release(d);
    assert MarkedFor(b, ops, d.ref) && BalancedFor(b, Open(ops), d.party, d.day);
    forall ref ensures MarkedFor(Apply(b, Release(d)), all, ref) { MarkingMarks(b, ops, Release(d), ref); }
    if HasRelease(ops, d.ref) {
      RepeatedReleaseDropsNothing(ops, d);
      forall party, day ensures BalancedFor(Apply(b, Release(d)), Open(all), party, day) { assert BalancedFor(b, Open(ops), party, day); }
    } else {
      AddedDealIsOpen(ops, d);
      ReleaseBalances(b, Open(ops), d, d.party, d.day);
      forall party, day ensures BalancedFor(Apply(b, Release(d)), Open(all), party, day) {
        assert BalancedFor(b, Open(ops), party, day);
        ReleaseBalances(b, Open(ops), d, party, day);
      }
    }
  }

  /**
   Replay is harmless: after any sequence of adds and releases, repeated as often as one likes, each party's and each
   day's balance is the sum of the deals added and not released.
   */
  lemma {:induction false} ReplayIsHarmless(ops: seq<Op>)
    requires Sensible(ops)
    ensures Balanced(RunOps(ops), ops)
  {
    if ops != [] {
      var n := |ops| - 1;
      var before, op := ops[..n], ops[n];
      SensiblePrefix(ops);
      ReplayIsHarmless(before);
      assert ops == before + [op];
      if op.Add? { AddStaysBalanced(RunOps(before), before, op.deal); } else { ReleaseStaysBalanced(RunOps(before), before, op.deal); }
    }
  }

  // ---------------------------------------------------------------- totals

  function Total(ds: seq<Deal>): real { if ds == [] then 0.0 else ds[0].amount + Total(ds[1..]) }

  function SumOver(parties: seq<string>, ds: seq<Deal>): real {
    if parties == [] then 0.0 else PartySum(ds, parties[0]) + SumOver(parties[1..], ds)
  }

  function SumOverDays(days: seq<string>, ds: seq<Deal>): real {
    if days == [] then 0.0 else DaySum(ds, days[0]) + SumOverDays(days[1..], ds)
  }

  ghost predicate AllDifferent(s: seq<string>) { forall i, j :: 0 <= i < j < |s| ==> s[i] != s[j] }

  lemma {:induction false} OneMoreDeal(names: seq<string>, ds: seq<Deal>)
    requires AllDifferent(names) && ds != []
    ensures SumOver(names, ds) == SumOver(names, ds[1..]) + (if ds[0].party in names then ds[0].amount else 0.0)
    ensures SumOverDays(names, ds) == SumOverDays(names, ds[1..]) + (if ds[0].day in names then ds[0].amount else 0.0)
  {
    if names != [] {
      OneMoreDeal(names[1..], ds);
      assert names == [names[0]] + names[1..] && names[0] !in names[1..];
    }
  }

  lemma {:induction false} NothingToSum(names: seq<string>)
    ensures SumOver(names, []) == 0.0 && SumOverDays(names, []) == 0.0
  {
    if names != [] { NothingToSum(names[1..]); }
  }

  /** Added up over all parties or over all days, the balances are the same total: what is open. */
  lemma {:induction false} TotalsAgree(parties: seq<string>, days: seq<string>, ds: seq<Deal>)
    requires AllDifferent(parties) && AllDifferent(days)
    requires forall d :: d in ds ==> d.party in parties && d.day in days
    ensures SumOver(parties, ds) == Total(ds) == SumOverDays(days, ds)
  {
    if ds == [] {
      NothingToSum(parties);
      NothingToSum(days);
    } else {
      assert ds[0] in ds;
      TotalsAgree(parties, days, ds[1..]);
      OneMoreDeal(parties, ds);
      OneMoreDeal(days, ds);
    }
  }

  lemma {:induction false} DroppedFrom(ds: seq<Deal>, ref: string)
    ensures forall d :: d in Drop(ds, ref) ==> d in ds
  {
    if ds != [] { DroppedFrom(ds[1..], ref); }
  }

  predicate Listed(b: Book, d: Deal) { d.party in b.byCounterparty && d.day in b.byDay }

  /** Every open deal has its party and its day in the book. */
  lemma {:induction false} OpenDealsAreListed(ops: seq<Op>)
    requires Sensible(ops)
    ensures forall d :: d in Open(ops) ==> Listed(RunOps(ops), d)
  {
    if ops != [] {
      var before, op := ops[..|ops| - 1], ops[|ops| - 1];
      SensiblePrefix(ops);
      OpenDealsAreListed(before);
      ReplayIsHarmless(before);
      assert MarkedFor(RunOps(before), before, op.deal.ref) && op.deal.ref != "";
      if op.Release? { DroppedFrom(Open(before), op.deal.ref); }
    }
  }

  /** The balances of these parties, added up. */
  function AllOutstanding(b: Book, parties: seq<string>): real {
    if parties == [] then 0.0 else Outstanding(b, parties[0]) + AllOutstanding(b, parties[1..])
  }

  function AllDaily(b: Book, days: seq<string>): real {
    if days == [] then 0.0 else Daily(b, days[0]) + AllDaily(b, days[1..])
  }

  lemma {:induction false} BalancesAreSums(b: Book, ops: seq<Op>, names: seq<string>)
    requires Balanced(b, ops)
    ensures AllOutstanding(b, names) == SumOver(names, Open(ops)) && AllDaily(b, names) == SumOverDays(names, Open(ops))
  {
    if names != [] {
      BalancesAreSums(b, ops, names[1..]);
      assert BalancedFor(b, Open(ops), names[0], names[0]);
    }
  }

  /** Conservation: the book's balances added up over all its parties, or over all its days, are what is open. */
  lemma BookTotalsAgree(ops: seq<Op>, parties: seq<string>, days: seq<string>)
    requires Sensible(ops) && AllDifferent(parties) && AllDifferent(days)
    requires forall p :: p in RunOps(ops).byCounterparty ==> p in parties
    requires forall d :: d in RunOps(ops).byDay ==> d in days
    ensures AllOutstanding(RunOps(ops), parties) == Total(Open(ops)) == AllDaily(RunOps(ops), days)
  {
    ReplayIsHarmless(ops);
    OpenDealsAreListed(ops);
    BalancesAreSums(RunOps(ops), ops, parties);
    BalancesAreSums(RunOps(ops), ops, days);
    forall d | d in Open(ops) ensures d.party in parties && d.day in days { assert Listed(RunOps(ops), d); }
    TotalsAgree(parties, days, Open(ops));
  }

  // ---------------------------------------------------------------- caps over runs

  /** Each add that is not a repetition was allowed on the book it was applied to. */
  ghost predicate Guarded(ops: seq<Op>, l: Limits) {
    forall i :: 0 <= i < |ops| && ops[i].Add? && !HasAdd(ops[..i], ops[i].deal.ref) ==>
      ExposureViolations(RunOps(ops[..i]), ops[i].deal.party, ops[i].deal.amount, ops[i].deal.day, l) == []
  }

  ghost predicate WithinCaps(b: Book, l: Limits) {
    && (forall party :: Outstanding(b, party) <= l.maxPerCounterpartyExposureUsd)
    && (forall day :: Daily(b, day) <= l.maxDailyExposureUsd)
  }

  lemma GuardedPrefix(ops: seq<Op>, l: Limits)
    requires ops != [] && Guarded(ops, l)
    ensures Guarded(ops[..|ops| - 1], l)
  {
    var before := ops[..|ops| - 1];
    forall i | 0 <= i < |before| ensures before[..i] == ops[..i] { }
  }

  lemma AddWithinCaps(b: Book, d: Deal, l: Limits)
    requires WithinCaps(b, l) && ExposureViolations(b, d.party, d.amount, d.day, l) == []
    ensures WithinCaps(Apply(b, Add(d)), l)
  {
    forall party ensures Outstanding(Apply(b, Add(d)), party) <= l.maxPerCounterpartyExposureUsd {
      assert Outstanding(b, party) <= l.maxPerCounterpartyExposureUsd;
    }
    forall day ensures Daily(Apply(b, Add(d)), day) <= l.maxDailyExposureUsd {
      assert Daily(b, day) <= l.maxDailyExposureUsd;
    }
  }

  lemma ReleaseWithinCaps(b: Book, d: Deal, l: Limits)
    requires WithinCaps(b, l) && d.amount >= 0.0 && l.maxPerCounterpartyExposureUsd >= 0.0 && l.maxDailyExposureUsd >= 0.0
    ensures WithinCaps(Apply(b, Release(d)), l)
  {
    forall party ensures Outstanding(Apply(b, Release(d)), party) <= l.maxPerCounterpartyExposureUsd {
      assert Outstanding(b, party) <= l.maxPerCounterpartyExposureUsd;
    }
    forall day ensures Daily(Apply(b, Release(d)), day) <= l.maxDailyExposureUsd {
      assert Daily(b, day) <= l.maxDailyExposureUsd;
    }
  }

  /** If every add follows an allowed evaluation on that very book, the caps hold in every state. */
  lemma {:induction false} CapsHold(ops: seq<Op>, l: Limits)
    requires Sensible(ops) && Guarded(ops, l) && l.maxPerCounterpartyExposureUsd >= 0.0 && l.maxDailyExposureUsd >= 0.0
    ensures WithinCaps(RunOps(ops), l)
  {
    if ops != [] {
      var n := |ops| - 1;
      var before, op := ops[..n], ops[n];
      SensiblePrefix(ops);
      GuardedPrefix(ops, l);
      CapsHold(before, l);
      ReplayIsHarmless(before);
      assert MarkedFor(RunOps(before), before, op.deal.ref);
      assert op.deal.ref != "" && op.deal.amount >= 0.0;
      if op.Release? {
        ReleaseWithinCaps(RunOps(before), op.deal, l);
      } else if !HasAdd(before, op.deal.ref) {
        AddWithinCaps(RunOps(before), op.deal, l);
      }
    }
  }
}
