/** A tender read back from its own printed form gives the terms it was made from. */
module LoadTenderTheorems {
  import opened Wrappers
  import opened Strings
  import opened X12
  import opened X12Theorems
  import opened LoadTender

  lemma {:induction false} DescribeTogether(r: Described, a: seq<Segment>, b: seq<Segment>)
    ensures Describe(r, a + b) == Describe(Describe(r, a), b)
    decreases |a|
  {
    if a == [] {
      assert a + b == b;
    } else {
      DescribeTogether(Describe1(r, a[0]), a[1..], b);
      assert (a + b)[0] == a[0] && (a + b)[1..] == a[1..] + b;
    }
  }

  lemma DescribeFirst(r: Described, s: Segment, rest: seq<Segment>)
    ensures Describe(r, AllPrinted([s] + rest)) == Describe(Describe1(r, Printed(s)), AllPrinted(rest))
  {
    assert ([s] + rest)[1..] == rest;
    var printed := AllPrinted([s] + rest);
    assert printed[0] == Printed(s) && printed[1..] == AllPrinted(rest);
  }

  predicate Told(s: Segment) {
    s != [] && (s[0] == "B2" || s[0] == "L11" || s[0] == "S5" || s[0] == "G62" || s[0] == "N4" || s[0] == "L5" || s[0] == "L3")
  }

  /** A segment the reader has no use for. */
  lemma PassedOver(r: Described, s: Segment)
    requires s != [] && !Told(s) && s[0] != "ISA"
    ensures Describe1(r, Printed(s)) == r
  {
    TrimKeepsHead(s);
  }

  lemma AsIs(s: Segment)
    requires s != [] && s[|s| - 1] != ""
    ensures Printed(s) == s
  {
    TrimKeepsHead(s);
  }

  /** To the minute. */
  function ToMinute(instant: string): string { Slice(instant, 0, 16) + ":00.000Z" }

  lemma PartsReadBack(y: string, mo: string, d: string, h: string, mi: string)
    requires |y| == 4 && |mo| == 2 && |d| == 2 && |h| == 2 && |mi| == 2
    ensures Iso(Some(y + mo + d), Some(h + mi)) == Some(y + "-" + mo + "-" + d + "T" + h + ":" + mi + ":00.000Z")
  {
    var date, time := y + mo + d, h + mi;
    assert date[0..4] == y && date[4..6] == mo && date[6..8] == d;
    assert time[0..2] == h && time[2..4] == mi;
  }

  lemma InstantReadsBack(w: string)
    requires IsoInstant(w)
    ensures Iso(Some(CCYYMMDD(w)), Some(HHMM(w))) == Some(ToMinute(w))
  {
    DatePart(w);
    TimePart(w);
    PartsReadBack(w[..4], w[5..7], w[8..10], w[11..13], w[14..16]);
    assert w[..16] == w[..4] + "-" + w[5..7] + "-" + w[8..10] + "T" + w[11..13] + ":" + w[14..16];
  }

  /** An instant comes back as it was exactly when it is a whole minute. */
  lemma WholeMinutesComeBack(w: string)
    requires IsoInstant(w)
    ensures ToMinute(w) == w <==> w[17..23] == "00.000"
  {
    assert w == w[..16] + w[16..];
    assert w[16..] == ":" + w[17..23] + "Z";
    if ToMinute(w) == w { assert w[17..23] == ToMinute(w)[17..23]; }
  }

  // ---------------------------------------------------------------- one stop

  function StopOf(kind: string, p: Place, w: Window): Stop {
    Stop(kind, Some(p.city), Some(p.state), Some(p.zip), Some(ToMinute(w.windowStart)), Some(ToMinute(w.windowEnd)))
  }

  /** The commodity line, trimmed: it still tells a commodity unless there is none to tell. */
  lemma CommodityLine(r: Described, t: Terms)
    ensures var l5 := ["L5", "1", t.load.commodity, "", "", "", "", if t.load.hazmat then "D" else ""];
      Describe1(r, Printed(l5)) == r.(commodity :=
        if r.commodity.Some? then r.commodity else if t.load.commodity == "" && !t.load.hazmat then None else Some(t.load.commodity))
  {
    var c := t.load.commodity;
    var l5 := ["L5", "1", c, "", "", "", "", if t.load.hazmat then "D" else ""];
    if !t.load.hazmat {
      TrimStep(l5, ["L5", "1", c, "", "", "", ""]);
      TrimStep(["L5", "1", c, "", "", "", ""], ["L5", "1", c, "", "", ""]);
      TrimStep(["L5", "1", c, "", "", ""], ["L5", "1", c, "", ""]);
      TrimStep(["L5", "1", c, "", ""], ["L5", "1", c, ""]);
      TrimStep(["L5", "1", c, ""], ["L5", "1", c]);
      if c == "" { TrimStep(["L5", "1", c], ["L5", "1"]); }
    }
  }

  lemma TrimStep(s: Segment, shorter: Segment)
    requires |s| > 1 && s == shorter + [""]
    ensures Trim(s) == Trim(shorter)
  {
    assert s[..|s| - 1] == shorter;
  }

  function CommodityTold(t: Terms): Option<string> { if t.load.commodity == "" && !t.load.hazmat then None else Some(t.load.commodity) }

  predicate Qualified(notBefore: string, noLater: string) {
    (notBefore == "37" && noLater == "38") || (notBefore == "53" && noLater == "54")
  }

  lemma StopTimes(r: Described, kind: string, w: Window, notBefore: string, noLater: string)
    requires IsoInstant(w.windowStart) && IsoInstant(w.windowEnd)
    requires Qualified(notBefore, noLater)
    requires r.stops != [] && r.stops[|r.stops| - 1] == Stop(kind, None, None, None, None, None)
    ensures var a := ["G62", notBefore, CCYYMMDD(w.windowStart), "G", HHMM(w.windowStart)];
      var b := ["G62", noLater, CCYYMMDD(w.windowEnd), "L", HHMM(w.windowEnd)];
      && Printed(a) == a && Printed(b) == b
      && Describe1(Describe1(r, a), b) ==
        LastStop(r, Stop(kind, None, None, None, Some(ToMinute(w.windowStart)), Some(ToMinute(w.windowEnd))))
  {
    InstantReadsBack(w.windowStart);
    InstantReadsBack(w.windowEnd);
    TimePart(w.windowStart);
    TimePart(w.windowEnd);
    DatePart(w.windowStart);
    DatePart(w.windowEnd);
    AsIs(["G62", notBefore, CCYYMMDD(w.windowStart), "G", HHMM(w.windowStart)]);
    AsIs(["G62", noLater, CCYYMMDD(w.windowEnd), "L", HHMM(w.windowEnd)]);
  }

  lemma StopReads(r: Described, t: Terms, n: nat, kind: string, p: Place, w: Window, notBefore: string, noLater: string)
    requires IsoInstant(w.windowStart) && IsoInstant(w.windowEnd)
    requires Qualified(notBefore, noLater)
    ensures Describe(r, AllPrinted(StopSegments(t, n, kind, p, w, notBefore, noLater)))
      == r.(stops := r.stops + [StopOf(kind, p, w)], commodity := if r.commodity.Some? then r.commodity else CommodityTold(t))
  {
    var s := StopSegments(t, n, kind, p, w, notBefore, noLater);
    var begun := r.(stops := r.stops + [Stop(kind, None, None, None, None, None)]);
    AsIs(s[0]);
    DescribeFirst(r, s[0], s[1..]);
    assert s == [s[0]] + s[1..];
    assert Describe1(r, s[0]) == begun;
    StopTimes(begun, kind, w, notBefore, noLater);
    var timed := LastStop(begun, Stop(kind, None, None, None, Some(ToMinute(w.windowStart)), Some(ToMinute(w.windowEnd))));
    DescribeFirst(begun, s[1], s[2..]);
    assert s[1..] == [s[1]] + s[2..];
    DescribeFirst(Describe1(begun, s[1]), s[2], s[3..]);
    assert s[2..] == [s[2]] + s[3..];
    assert Describe(r, AllPrinted(s)) == Describe(timed, AllPrinted(s[3..]));
    assert timed == r.(stops := r.stops + [Stop(kind, None, None, None, Some(ToMinute(w.windowStart)), Some(ToMinute(w.windowEnd)))]);
    PlaceReads(r, t, kind, p, w, timed, s[3..]);
  }

  lemma PlaceReads(r: Described, t: Terms, kind: string, p: Place, w: Window, timed: Described, s: seq<Segment>)
    requires timed == r.(stops := r.stops + [Stop(kind, None, None, None, Some(ToMinute(w.windowStart)), Some(ToMinute(w.windowEnd)))])
    requires |s| == 4 && s[0] != [] && s[0][0] == "N1" && s[1] == ["N4", p.city, p.state, p.zip, "US"] && s[2] != [] && s[2][0] == "OID"
    requires s[3] == ["L5", "1", t.load.commodity, "", "", "", "", if t.load.hazmat then "D" else ""]
    ensures Describe(timed, AllPrinted(s))
      == r.(stops := r.stops + [StopOf(kind, p, w)], commodity := if r.commodity.Some? then r.commodity else CommodityTold(t))
  {
    assert s == [s[0]] + s[1..] && s[1..] == [s[1]] + s[2..] && s[2..] == [s[2]] + s[3..] && s[3..] == [s[3]] + [];
    DescribeFirst(timed, s[0], s[1..]);
    PassedOver(timed, s[0]);
    DescribeFirst(timed, s[1], s[2..]);
    AsIs(s[1]);
    var placed := r.(stops := r.stops + [StopOf(kind, p, w)]);
    assert Describe1(timed, s[1]) == placed;
    DescribeFirst(placed, s[2], s[3..]);
    PassedOver(placed, s[2]);
    DescribeFirst(placed, s[3], []);
    CommodityLine(placed, t);
  }

  // ---------------------------------------------------------------- the rest of the tender

  function ReferenceMap(t: Terms, o: TenderOptions): map<string, string> {
    var m := map["BM" := t.loadRef];
    var n := if Given(o.commitmentId) then m["CR" := o.commitmentId.value] else m;
    var k := n["TN" := t.brokerUsdot];
    var l := if Given(t.brokerMc) then k["MC" := t.brokerMc.value] else k;
    l["PT" := Decimal(t.paymentTermsDays)]
  }

  lemma ReferenceReads(r: Described, value: string, qualifier: string)
    requires qualifier != ""
    ensures Describe(r, AllPrinted([["L11", value, qualifier]])) == r.(references := r.references[qualifier := value])
  {
    AsIs(["L11", value, qualifier]);
    DescribeFirst(r, ["L11", value, qualifier], []);
    assert [["L11", value, qualifier]] + [] == [["L11", value, qualifier]];
  }

  lemma BothRead(r: Described, a: seq<Segment>, b: seq<Segment>)
    ensures Describe(r, AllPrinted(a + b)) == Describe(Describe(r, AllPrinted(a)), AllPrinted(b))
  {
    PrintedTogether(a, b);
    DescribeTogether(r, AllPrinted(a), AllPrinted(b));
  }

  lemma ReferencesRead(r: Described, t: Terms, o: TenderOptions)
    requires r.references == map[]
    ensures Describe(r, AllPrinted(References(t, o))) == r.(references := ReferenceMap(t, o))
  {
    var bm, tn, pt := [["L11", t.loadRef, "BM"]], [["L11", t.brokerUsdot, "TN"]], [["L11", Decimal(t.paymentTermsDays), "PT"]];
    var cr := if Given(o.commitmentId) then [["L11", o.commitmentId.value, "CR"]] else [];
    var mc := if Given(t.brokerMc) then [["L11", t.brokerMc.value, "MC"]] else [];
    BothRead(r, bm + cr + tn + mc, pt);
    BothRead(r, bm + cr + tn, mc);
    BothRead(r, bm + cr, tn);
    BothRead(r, bm, cr);
    ReferenceReads(r, t.loadRef, "BM");
    var r1 := r.(references := map["BM" := t.loadRef]);
    if Given(o.commitmentId) { ReferenceReads(r1, o.commitmentId.value, "CR"); }
    var r2 := if Given(o.commitmentId) then r1.(references := r1.references["CR" := o.commitmentId.value]) else r1;
    ReferenceReads(r2, t.brokerUsdot, "TN");
    var r3 := r2.(references := r2.references["TN" := t.brokerUsdot]);
    if Given(t.brokerMc) { ReferenceReads(r3, t.brokerMc.value, "MC"); }
    var r4 := if Given(t.brokerMc) then r3.(references := r3.references["MC" := t.brokerMc.value]) else r3;
    ReferenceReads(r4, Decimal(t.paymentTermsDays), "PT");
  }

  lemma HeadingReads(r: Described, t: Terms, o: TenderOptions)
    ensures Describe(r, AllPrinted(Heading(t, o))) == r.(loadRef := Some(t.loadRef))
  {
    var h := Heading(t, o);
    assert h == [h[0]] + [h[1]] && [h[1]] == [h[1]] + [];
    AsIs(h[0]);
    DescribeFirst(r, h[0], [h[1]]);
    DescribeFirst(r.(loadRef := Some(t.loadRef)), h[1], []);
    PassedOver(r.(loadRef := Some(t.loadRef)), h[1]);
  }

  lemma DetailsPassedOver(r: Described, t: Terms, o: TenderOptions)
    ensures Describe(r, AllPrinted(Details(t, o))) == r
  {
    var d := Details(t, o);
    assert d == [d[0]] + d[1..] && d[1..] == [d[1]] + d[2..] && d[2..] == [d[2]] + [];
    DescribeFirst(r, d[0], d[1..]);
    PassedOver(r, d[0]);
    DescribeFirst(r, d[1], d[2..]);
    PassedOver(r, d[1]);
    DescribeFirst(r, d[2], []);
    PassedOver(r, d[2]);
  }

  lemma TotalsRead(r: Described, t: Terms)
    ensures Describe(r, AllPrinted([Totals(t)]))
      == r.(weightLbs := Some(t.load.weightLbs), rateUsd := Some(Cents(t.rateUsd) as real / 100.0), miles := Some(t.load.miles))
  {
    var l3 := Totals(t);
    AsIs(l3);
    DescribeFirst(r, l3, []);
    assert [l3] + [] == [l3];
    DecimalReadsBack(t.load.weightLbs);
    DecimalReadsBack(Cents(t.rateUsd));
    DecimalReadsBack(t.load.miles);
  }

  /** What a reader learns of a tender. */
  function Learned(t: Terms, o: TenderOptions): Described {
    Described(Some(t.loadRef), Some(Cents(t.rateUsd) as real / 100.0), Some(t.load.miles), Some(t.load.weightLbs), CommodityTold(t), ReferenceMap(t, o),
      [StopOf("CL", t.load.origin, t.pickup), StopOf("CU", t.load.destination, t.delivery)])
  }

  predicate Dated(w: Window) { IsoInstant(w.windowStart) && IsoInstant(w.windowEnd) }

  lemma TermsRead(r: Described, t: Terms, o: TenderOptions)
    requires r == Blank
    ensures Describe(r, AllPrinted(Heading(t, o) + References(t, o) + Details(t, o))) == r.(loadRef := Some(t.loadRef), references := ReferenceMap(t, o))
  {
    var h, refs, d := Heading(t, o), References(t, o), Details(t, o);
    BothRead(r, h + refs, d);
    BothRead(r, h, refs);
    HeadingReads(r, t, o);
    var r1 := r.(loadRef := Some(t.loadRef));
    ReferencesRead(r1, t, o);
    DetailsPassedOver(r1.(references := ReferenceMap(t, o)), t, o);
  }

  lemma InTurn(r: Described, a: seq<Segment>, r1: Described, b: seq<Segment>, r2: Described)
    requires Describe(r, AllPrinted(a)) == r1 && Describe(r1, AllPrinted(b)) == r2
    ensures Describe(r, AllPrinted(a + b)) == r2
  {
    BothRead(r, a, b);
  }

  function Front(t: Terms, o: TenderOptions): seq<Segment> { Heading(t, o) + References(t, o) + Details(t, o) }

  function Pickup(t: Terms): seq<Segment> { StopSegments(t, 1, "CL", t.load.origin, t.pickup, "37", "38") }

  function Delivery(t: Terms): seq<Segment> { StopSegments(t, 2, "CU", t.load.destination, t.delivery, "53", "54") }

  lemma PickupRead(t: Terms, o: TenderOptions)
    requires Dated(t.pickup)
    ensures var l := Learned(t, o);
      Describe(Blank, AllPrinted(Front(t, o) + Pickup(t))) == Blank.(loadRef := l.loadRef, references := l.references, commodity := l.commodity, stops := l.stops[..1])
  {
    var l := Learned(t, o);
    TermsRead(Blank, t, o);
    var r1 := Blank.(loadRef := l.loadRef, references := l.references);
    StopReads(r1, t, 1, "CL", t.load.origin, t.pickup, "37", "38");
    InTurn(Blank, Front(t, o), r1, Pickup(t), r1.(commodity := l.commodity, stops := l.stops[..1]));
  }

  lemma DeliveryRead(t: Terms, o: TenderOptions)
    requires Dated(t.pickup) && Dated(t.delivery)
    ensures var l := Learned(t, o);
      Describe(Blank, AllPrinted(Front(t, o) + Pickup(t) + Delivery(t))) == Blank.(loadRef := l.loadRef, references := l.references, commodity := l.commodity, stops := l.stops)
  {
    var l := Learned(t, o);
    PickupRead(t, o);
    var r1 := Blank.(loadRef := l.loadRef, references := l.references, commodity := l.commodity, stops := l.stops[..1]);
    StopReads(r1, t, 2, "CU", t.load.destination, t.delivery, "53", "54");
    assert l.stops == l.stops[..1] + [l.stops[1]];
    InTurn(Blank, Front(t, o) + Pickup(t), r1, Delivery(t), r1.(stops := l.stops));
  }

  lemma TenderReads(t: Terms, o: TenderOptions)
    requires Dated(t.pickup) && Dated(t.delivery)
    ensures Describe(Blank, AllPrinted(Tender(t, o))) == Learned(t, o)
  {
    var l := Learned(t, o);
    DeliveryRead(t, o);
    var r1 := Blank.(loadRef := l.loadRef, references := l.references, commodity := l.commodity, stops := l.stops);
    TotalsRead(r1, t);
    InTurn(Blank, Front(t, o) + Pickup(t) + Delivery(t), r1, [Totals(t)], l);
  }

  // ---------------------------------------------------------------- through the interchange and back

  /** A rate of whole cents comes back as it was, and no other does. */
  lemma RateReadsBack(rate: Usd)
    ensures Cents(rate) as real / 100.0 == rate <==> (rate * 100.0).Floor as real == rate * 100.0
  {
    var c := rate * 100.0;
    if c.Floor as real == c {
      assert (c + 0.5).Floor == c.Floor;
    }
    if Cents(rate) as real / 100.0 == rate {
      assert c == Cents(rate) as real;
    }
  }

  lemma WrappedReads(w: seq<Segment>, body: seq<Segment>, l: Described)
    requires Describe(Blank, AllPrinted(body)) == l
    requires |w| >= 2 && w[0] != [] && w[0][0] == "ST" && w[|w| - 1] != [] && w[|w| - 1][0] == "SE" && w[1..|w| - 1] == body
    ensures Describe(Blank, AllPrinted(w)) == l
  {
    var st, se := w[0], w[|w| - 1];
    assert w == [st] + body + [se];
    OnePassedOver(Blank, st);
    InTurn(Blank, [st], Blank, body, l);
    OnePassedOver(l, se);
    InTurn(Blank, [st] + body, l, [se], l);
  }

  lemma OnePassedOver(r: Described, s: Segment)
    requires s != [] && !Told(s) && s[0] != "ISA"
    ensures Describe(r, AllPrinted([s])) == r
  {
    PrintedOne(s);
    PassedOver(r, s);
    assert [Printed(s)][1..] == [];
  }

  /**
   A load tender sent as an interchange and read at the other end gives back the load reference, the references, weight,
   miles, commodity, both stops with their places and windows to the minute, and the rate to the cent.
   */
  lemma TenderRoundTrip(env: Envelope, t: Terms, o: TenderOptions)
    requires Dated(t.pickup) && Dated(t.delivery) && Sendable(env, [TransactionSet(LOAD_TENDER, Tender(t, o))])
    requires Unbroken(InterchangeSegments(env, [TransactionSet(LOAD_TENDER, Tender(t, o))]))
    ensures var text := Render(env.profile, InterchangeSegments(env, [TransactionSet(LOAD_TENDER, Tender(t, o))]));
      text.Ok? ==>
        && ParseResult(text.value).Ok? && ParseResult(text.value).value.problems == []
        && |ParseResult(text.value).value.sets| == 1
        && var s := ParseResult(text.value).value.sets[0];
           s.id == "204" && Describe(Blank, s.segments) == Learned(t, o)
  {
    var s := TransactionSet(LOAD_TENDER, Tender(t, o));
    var w := Wrapped(env, s, 0);
    InterchangeRoundTrip(env, [s]);
    if Renderable(env.profile, InterchangeSegments(env, [s])) { IntactExactlyWhen(env, [s]); }
    OneGroup(env, s);
    TenderReads(t, o);
    WrappedReads(w, Tender(t, o), Learned(t, o));
  }

  lemma OneGroup(env: Envelope, s: TransactionSet)
    requires forall j :: 0 <= j < |s.body| ==> BodySegment(s.body[j])
    ensures Grouped(env, [s]) == [Group(Functional(s.id), [Wrapped(env, s, 0)])]
    ensures WellWrapped(Wrapped(env, s, 0))
    ensures SetsIn([Group(Functional(s.id), [Wrapped(env, s, 0)])]) == [ParsedSet(Number(s.id), SetControl(env, 0), AllPrinted(Wrapped(env, s, 0)))]
  {
    assert [s][..0] == [];
    var w := Wrapped(env, s, 0);
    WrappedIsWell(env, s, 0);
    var g := Group(Functional(s.id), [w]);
    assert WellGrouped(g);
    assert [w][1..] == [] && [g][1..] == [];
    assert SetsOf([w]) == [SetOf(w)];
    assert SetsIn([g]) == SetsOf([w]) + SetsIn([]);
  }
}
