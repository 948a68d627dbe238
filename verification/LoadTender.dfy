/**
 The 204 load tender: a commitment's terms as segments and back (src/edi/x12.ts, tender204 and read204).
 */
module LoadTender {
  import opened Wrappers
  import opened Strings
  import opened X12

  type Usd = r: real | r >= 0.0

  datatype Place = Place(city: string, state: string, zip: string)

  datatype Window = Window(windowStart: string, windowEnd: string)

  datatype Equipment = DRY_VAN | REEFER | FLATBED

  datatype Load = Load(origin: Place, destination: Place, equipment: Equipment, weightLbs: nat, miles: nat, commodity: string, hazmat: bool, subcontractPermitted: bool)

  datatype Terms = Terms(loadRef: string, brokerUsdot: string, brokerMc: Option<string>, paymentTermsDays: nat, rateUsd: Usd, load: Load, pickup: Window, delivery: Window)

  datatype BillTo = BillTo(name: string, id: Option<string>)

  datatype TenderOptions = TenderOptions(scac: Option<string>, purpose: Option<string>, billTo: Option<BillTo>, commitmentId: Option<string>)

  function Or(s: Option<string>, other: string): string { if s.Some? then s.value else other }

  predicate Given(s: Option<string>) { s.Some? && s.value != "" }

  /** `Math.round(rate * 100)`. */
  function Cents(rate: Usd): nat { (rate * 100.0 + 0.5).Floor }

  function Fixed(rate: Usd): string { Decimal(Cents(rate) / 100) + "." + LastDigits(Cents(rate), 2) }

  // ---------------------------------------------------------------- terms as segments

  function Heading(t: Terms, o: TenderOptions): seq<Segment> {
    [["B2", "", Or(o.scac, ""), "", t.loadRef, "", "PP"], ["B2A", Or(o.purpose, "00"), "LT"]]
  }

  function References(t: Terms, o: TenderOptions): seq<Segment> {
    [["L11", t.loadRef, "BM"]]
    + (if Given(o.commitmentId) then [["L11", o.commitmentId.value, "CR"]] else [])
    + [["L11", t.brokerUsdot, "TN"]]
    + (if Given(t.brokerMc) then [["L11", t.brokerMc.value, "MC"]] else [])
    + [["L11", Decimal(t.paymentTermsDays), "PT"]]
  }

  function Details(t: Terms, o: TenderOptions): seq<Segment> {
    [["NTE", "OTH", "venue commitment; rate USD " + Fixed(t.rateUsd) + "; subcontracting " + if t.load.subcontractPermitted then "permitted" else "not permitted"],
     ["N1", "BT", if o.billTo.Some? then o.billTo.value.name else "USDOT " + t.brokerUsdot, "93", if o.billTo.Some? then Or(o.billTo.value.id, t.brokerUsdot) else t.brokerUsdot],
     ["N7", "", "", Decimal(t.load.weightLbs), "N", "", "", "", "", "", "", match t.load.equipment case REEFER => "RT" case FLATBED => "FT" case DRY_VAN => "TV"]]
  }

  function StopSegments(t: Terms, n: nat, kind: string, p: Place, w: Window, notBefore: string, noLater: string): seq<Segment>
  {
    [["S5", Decimal(n), kind, Decimal(t.load.weightLbs), "L"],
     ["G62", notBefore, CCYYMMDD(w.windowStart), "G", HHMM(w.windowStart)],
     ["G62", noLater, CCYYMMDD(w.windowEnd), "L", HHMM(w.windowEnd)],
     ["N1", if kind == "CL" then "SH" else "CN", p.city + ", " + p.state],
     ["N4", p.city, p.state, p.zip, "US"],
     ["OID", t.loadRef, "", "", "PL", "", "L", Decimal(t.load.weightLbs)],
     ["L5", "1", t.load.commodity, "", "", "", "", if t.load.hazmat then "D" else ""]]
  }

  function Totals(t: Terms): Segment {
    ["L3", Decimal(t.load.weightLbs), "G", "", "", Decimal(Cents(t.rateUsd)), "", "", "", "", "", Decimal(t.load.miles)]
  }

  function Tender(t: Terms, o: TenderOptions): seq<Segment>
  {
    Heading(t, o) + References(t, o) + Details(t, o)
    + StopSegments(t, 1, "CL", t.load.origin, t.pickup, "37", "38")
    + StopSegments(t, 2, "CU", t.load.destination, t.delivery, "53", "54")
    + [Totals(t)]
  }

  method Tender204(t: Terms, o: TenderOptions) returns (out: seq<Segment>)
    ensures out == Tender(t, o)
  {
    out := [["B2", "", Or(o.scac, ""), "", t.loadRef, "", "PP"]];
    out := out + [["B2A", Or(o.purpose, "00"), "LT"]];
    var refs := [["L11", t.loadRef, "BM"]];
    if Given(o.commitmentId) { refs := refs + [["L11", o.commitmentId.value, "CR"]]; }
    refs := refs + [["L11", t.brokerUsdot, "TN"]];
    if Given(t.brokerMc) { refs := refs + [["L11", t.brokerMc.value, "MC"]]; }
    refs := refs + [["L11", Decimal(t.paymentTermsDays), "PT"]];
    assert refs == References(t, o);
    out := out + refs + Details(t, o);
    out := out + StopSegments(t, 1, "CL", t.load.origin, t.pickup, "37", "38");
    out := out + StopSegments(t, 2, "CU", t.load.destination, t.delivery, "53", "54");
    out := out + [Totals(t)];
  }

  // ---------------------------------------------------------------- segments as terms

  datatype Stop = Stop(kind: string, city: Option<string>, state: Option<string>, zip: Option<string>, notBefore: Option<string>, noLater: Option<string>)

  /** A numeral that is not one reads as absent, as a missing one does. */
  datatype Described = Described(
    loadRef: Option<string>, rateUsd: Option<real>, miles: Option<int>, weightLbs: Option<int>, commodity: Option<string>,
    references: map<string, string>, stops: seq<Stop>)

  const Blank := Described(None, None, None, None, None, map[], [])

  function Iso(d: Option<string>, tm: Option<string>): Option<string> {
    if !Given(d) then None
    else
      var time := Or(tm, "0000");
      Some(Slice(d.value, 0, 4) + "-" + Slice(d.value, 4, 6) + "-" + Slice(d.value, 6, 8) + "T" + Slice(time, 0, 2) + ":" + Slice(time, 2, 4) + ":00.000Z")
  }

  function LastStop(r: Described, s: Stop): Described
    requires r.stops != []
  {
    r.(stops := r.stops[|r.stops| - 1 := s])
  }

  function Describe1(r: Described, s: Segment): Described {
    if s == [] then r
    else if s[0] == "B2" then r.(loadRef := At(s, 4))
    else if s[0] == "L11" then if Given(At(s, 2)) then r.(references := r.references[s[2] := OrEmpty(At(s, 1))]) else r
    else if s[0] == "S5" then r.(stops := r.stops + [Stop(OrEmpty(At(s, 2)), None, None, None, None, None)])
    else if s[0] == "G62" then
      if r.stops == [] then r
      else
        var cur := r.stops[|r.stops| - 1];
        if At(s, 1) == Some("37") || At(s, 1) == Some("53") || At(s, 1) == Some("10") then LastStop(r, cur.(notBefore := Iso(At(s, 2), At(s, 4))))
        else if At(s, 1) == Some("38") || At(s, 1) == Some("54") then LastStop(r, cur.(noLater := Iso(At(s, 2), At(s, 4))))
        else r
    else if s[0] == "N4" then
      if r.stops == [] then r else LastStop(r, r.stops[|r.stops| - 1].(city := At(s, 1), state := At(s, 2), zip := At(s, 3)))
    else if s[0] == "L5" then if r.commodity.None? then r.(commodity := At(s, 2)) else r
    else if s[0] == "L3" then
      r.(weightLbs := NumberOf(At(s, 1)),
         rateUsd := if Given(At(s, 5)) && NumberOf(At(s, 5)).Some? then Some(NumberOf(At(s, 5)).value as real / 100.0) else None,
         miles := if Given(At(s, 11)) then NumberOf(At(s, 11)) else None)
    else r
  }

  function Describe(r: Described, segments: seq<Segment>): Described
    decreases |segments|
  {
    if segments == [] then r else Describe(Describe1(r, segments[0]), segments[1..])
  }

  method Read204(segments: seq<Segment>) returns (r: Described)
    ensures r == Describe(Blank, segments)
  {
    r := Blank;
    for i := 0 to |segments|
      invariant Describe(r, segments[i..]) == Describe(Blank, segments)
    {
      assert segments[i..][0] == segments[i] && segments[i..][1..] == segments[i + 1..];
      r := Describe1(r, segments[i]);
    }
  }
}
