/**
 X12 interchanges: printing and parsing (src/edi/x12.ts).

 Delimiters are single characters. Structural problems found on reading are listed, not thrown.
 */
module X12 {
  import opened Wrappers
  import opened Strings

  type Segment = seq<string>

  datatype Version = V004010 | V005010

  datatype Usage = P | T

  datatype Profile = Profile(version: Version, elementSep: char, segmentTerm: char, subElementSep: char, repetitionSep: char, usage: Usage)

  /** `now` is the ISO text of the moment, as `toISOString` writes it. */
  datatype Envelope = Envelope(senderId: string, receiverId: string, controlNumber: nat, now: string, profile: Profile)

  datatype SetId = LOAD_TENDER | TENDER_RESPONSE | SHIPMENT_STATUS

  datatype TransactionSet = TransactionSet(id: SetId, body: seq<Segment>)

  datatype Refused = CONTAINS_DELIMITER | NOT_AN_INTERCHANGE

  function Number(id: SetId): string {
    match id case LOAD_TENDER => "204" case TENDER_RESPONSE => "990" case SHIPMENT_STATUS => "214"
  }

  function Functional(id: SetId): string {
    match id case LOAD_TENDER => "SM" case TENDER_RESPONSE => "GF" case SHIPMENT_STATUS => "QM"
  }

  function VersionText(v: Version): string { if v.V004010? then "004010" else "005010" }

  function CCYYMMDD(iso: string): string { Without(Slice(iso, 0, 10), '-') }

  function YYMMDD(iso: string): string { Without(Slice(iso, 2, 10), '-') }

  /** The time part; JavaScript replaces the first colon only, and an ISO instant has one there. */
  function HHMM(iso: string): string { Without(Slice(iso, 11, 16), ':') }

  // ---------------------------------------------------------------- rendering

  function Trim(s: Segment): Segment {
    if |s| > 1 && s[|s| - 1] == "" then Trim(s[..|s| - 1]) else s
  }

  predicate Holds(el: string, p: Profile) { p.elementSep in el || p.segmentTerm in el || p.subElementSep in el }

  /** A segment that would break the interchange: an element holding a delimiter. */
  predicate Unsafe(p: Profile, s: Segment) { exists i :: 0 <= i < |s| && Holds(s[i], p) }

  predicate IsIsa(s: Segment) { |s| > 0 && s[0] == "ISA" }

  function Printed(s: Segment): Segment { if IsIsa(s) then s else Trim(s) }

  function SegmentText(p: Profile, s: Segment): string { Join(Printed(s), p.elementSep) + [p.segmentTerm] }

  function SegmentTexts(p: Profile, segments: seq<Segment>): seq<string> {
    if segments == [] then [] else [SegmentText(p, segments[0])] + SegmentTexts(p, segments[1..])
  }

  predicate Renderable(p: Profile, segments: seq<Segment>) {
    forall i :: 0 <= i < |segments| ==> IsIsa(segments[i]) || !Unsafe(p, Trim(segments[i]))
  }

  function Render(p: Profile, segments: seq<Segment>): Result<string, Refused> {
    if Renderable(p, segments) then Ok(Join(SegmentTexts(p, segments), '\n')) else Err(CONTAINS_DELIMITER)
  }

  // ---------------------------------------------------------------- interchange

  datatype Group = Group(id: string, sets: seq<seq<Segment>>)

  function SetControl(env: Envelope, i: nat): string { LastDigits(env.controlNumber * 100 + i + 1, 4) }

  function Wrapped(env: Envelope, s: TransactionSet, i: nat): seq<Segment> {
    var ctl := SetControl(env, i);
    [["ST", Number(s.id), ctl]] + s.body + [["SE", Decimal(|s.body| + 2), ctl]]
  }

  function IndexOf(groups: seq<Group>, id: string): (i: nat)
    ensures i <= |groups|
    ensures i < |groups| ==> groups[i].id == id
    ensures forall j :: 0 <= j < i ==> groups[j].id != id
  {
    if groups == [] || groups[0].id == id then 0 else 1 + IndexOf(groups[1..], id)
  }

  /** A set joins the group of its functional id, or starts it at the end. */
  function Joined(groups: seq<Group>, id: string, set_: seq<Segment>): seq<Group> {
    var i := IndexOf(groups, id);
    if i < |groups| then groups[i := Group(id, groups[i].sets + [set_])] else groups + [Group(id, [set_])]
  }

  function Grouped(env: Envelope, sets: seq<TransactionSet>): seq<Group> {
    if sets == [] then []
    else
      var n := |sets| - 1;
      Joined(Grouped(env, sets[..n]), Functional(sets[n].id), Wrapped(env, sets[n], n))
  }

  function Isa(env: Envelope): Segment
  {
    ["ISA", "00", PadEnd("", 10), "00", PadEnd("", 10), "ZZ", PadEnd(env.senderId, 15), "ZZ", PadEnd(env.receiverId, 15),
     YYMMDD(env.now), HHMM(env.now), [env.profile.repetitionSep], if env.profile.version.V004010? then "00401" else "00501",
     LastDigits(env.controlNumber, 9), "0", if env.profile.usage.P? then "P" else "T", [env.profile.subElementSep]]
  }

  function GroupControl(env: Envelope, gi: nat): string { Decimal(env.controlNumber * 10 + gi) }

  function Flatten(sets: seq<seq<Segment>>): seq<Segment> {
    if sets == [] then [] else sets[0] + Flatten(sets[1..])
  }

  function GroupSegments(env: Envelope, g: Group, gi: nat): seq<Segment>
  {
    [["GS", g.id, env.senderId, env.receiverId, CCYYMMDD(env.now), HHMM(env.now), GroupControl(env, gi), "X", VersionText(env.profile.version)]]
    + Flatten(g.sets)
    + [["GE", Decimal(|g.sets|), GroupControl(env, gi)]]
  }

  function AllGroups(env: Envelope, groups: seq<Group>, from: nat): seq<Segment>
    decreases |groups|
  {
    if groups == [] then [] else GroupSegments(env, groups[0], from + 1) + AllGroups(env, groups[1..], from + 1)
  }

  function InterchangeSegments(env: Envelope, sets: seq<TransactionSet>): seq<Segment>
  {
    var groups := Grouped(env, sets);
    [Isa(env)] + AllGroups(env, groups, 0) + [["IEA", Decimal(|groups|), LastDigits(env.controlNumber, 9)]]
  }

  method Wrap(env: Envelope, s: TransactionSet, i: nat) returns (body: seq<Segment>)
    ensures body == Wrapped(env, s, i)
  {
    var stCtl := SetControl(env, i);
    body := [["ST", Number(s.id), stCtl]] + s.body;
    body := body + [["SE", Decimal(|body| + 1), stCtl]];
  }

  /** One functional group per functional identifier, in order of first appearance. */
  method GroupSets(env: Envelope, sets: seq<TransactionSet>) returns (groups: seq<Group>)
    ensures groups == Grouped(env, sets)
  {
    groups := [];
    for i := 0 to |sets|
      invariant groups == Grouped(env, sets[..i])
    {
      assert sets[..i + 1][..i] == sets[..i];
      var body := Wrap(env, sets[i], i);
      var k := IndexOf(groups, Functional(sets[i].id));
      if k < |groups| {
        groups := groups[k := groups[k].(sets := groups[k].sets + [body])];
      } else {
        groups := groups + [Group(Functional(sets[i].id), [body])];
      }
    }
    assert sets[..|sets|] == sets;
  }

  method LayOutGroup(env: Envelope, g: Group, gi: nat) returns (block: seq<Segment>)
    ensures block == GroupSegments(env, g, gi)
  {
    var gsCtl := GroupControl(env, gi);
    block := [["GS", g.id, env.senderId, env.receiverId, CCYYMMDD(env.now), HHMM(env.now), gsCtl, "X", VersionText(env.profile.version)]];
    block := block + Flatten(g.sets);
    block := block + [["GE", Decimal(|g.sets|), gsCtl]];
  }

  method LayOut(env: Envelope, groups: seq<Group>, isa: Segment) returns (out: seq<Segment>)
    ensures out == [isa] + AllGroups(env, groups, 0)
  {
    out := [isa];
    for gi := 0 to |groups|
      invariant out + AllGroups(env, groups[gi..], gi) == [isa] + AllGroups(env, groups, 0)
    {
      var g := groups[gi];
      assert groups[gi..][0] == g && groups[gi..][1..] == groups[gi + 1..];
      var block := LayOutGroup(env, g, gi + 1);
      Regroup(out, block, AllGroups(env, groups[gi + 1..], gi + 1));
      out := out + block;
    }
  }

  lemma Regroup<X>(a: seq<X>, b: seq<X>, c: seq<X>)
    ensures (a + b) + c == a + (b + c)
  {
  }

  method Interchange(env: Envelope, sets: seq<TransactionSet>) returns (r: Result<string, Refused>)
    ensures r == Render(env.profile, InterchangeSegments(env, sets))
  {
    var isaCtl := LastDigits(env.controlNumber, 9);
    var groups := GroupSets(env, sets);
    var out := LayOut(env, groups, Isa(env));
    out := out + [["IEA", Decimal(|groups|), isaCtl]];
    return Render(env.profile, out);
  }

  // ---------------------------------------------------------------- parsing

  datatype Problem = SE_WITHOUT_ST | SE_COUNT | SE_CONTROL | MISSING_IEA | IEA_CONTROL | IEA_GROUPS

  datatype ParsedSet = ParsedSet(id: string, control: string, segments: seq<Segment>)

  datatype Parsed = Parsed(element: char, segment: char, subElement: char, segments: seq<Segment>, sets: seq<ParsedSet>, problems: seq<Problem>)

  function At(s: Segment, i: nat): Option<string> { if i < |s| then Some(s[i]) else None }

  function OrEmpty(s: Option<string>): string { if s.Some? then s.value else "" }

  /** The sets read so far; `open` while the last of them awaits its SE. */
  datatype Reading = Reading(sets: seq<ParsedSet>, open: bool, problems: seq<Problem>)

  function Read1(r: Reading, s: Segment): Reading
    requires r.open ==> r.sets != []
  {
    if At(s, 0) == Some("ST") then r.(sets := r.sets + [ParsedSet(OrEmpty(At(s, 1)), OrEmpty(At(s, 2)), [s])], open := true)
    else if !r.open then if At(s, 0) == Some("SE") then r.(problems := r.problems + [SE_WITHOUT_ST]) else r
    else
      var n := |r.sets| - 1;
      var cur := r.sets[n].(segments := r.sets[n].segments + [s]);
      var more := r.(sets := r.sets[n := cur]);
      if At(s, 0) != Some("SE") then more
      else
        var wrongCount := if NumberOf(At(s, 1)) != Some(|cur.segments|) then [SE_COUNT] else [];
        var wrongControl := if At(s, 2) != Some(cur.control) then [SE_CONTROL] else [];
        more.(open := false, problems := r.problems + wrongCount + wrongControl)
  }

  function ReadAll(r: Reading, segments: seq<Segment>): (t: Reading)
    requires r.open ==> r.sets != []
    ensures t.open ==> t.sets != []
    decreases |segments|
  {
    if segments == [] then r else ReadAll(Read1(r, segments[0]), segments[1..])
  }

  function NonEmpty(parts: seq<string>): seq<string> {
    if parts == [] then [] else (if parts[0] == "" then [] else [parts[0]]) + NonEmpty(parts[1..])
  }

  function SplitAll(parts: seq<string>, d: char): seq<Segment> {
    if parts == [] then [] else [Split(parts[0], d)] + SplitAll(parts[1..], d)
  }

  function CountGs(segments: seq<Segment>): nat {
    if segments == [] then 0 else (if At(segments[0], 0) == Some("GS") then 1 else 0) + CountGs(segments[1..])
  }

  function EnvelopeProblems(segments: seq<Segment>): seq<Problem>
    requires segments != []
  {
    var isa, iea := segments[0], segments[|segments| - 1];
    if At(iea, 0) != Some("IEA") then [MISSING_IEA]
    else
      (if At(isa, 13) != At(iea, 2) then [IEA_CONTROL] else [])
      + (if NumberOf(At(iea, 1)) != Some(CountGs(segments)) then [IEA_GROUPS] else [])
  }

  function Segments(t: string): seq<Segment>
    requires |t| >= 106
  {
    SplitAll(NonEmpty(Split(t, t[105])), t[3])
  }

  lemma {:induction false} SomePartRemains(t: string, d: char)
    requires exists i :: 0 <= i < |t| && t[i] != d
    ensures NonEmpty(Split(t, d)) != []
  {
    var i :| 0 <= i < |t| && t[i] != d;
    if t[0] == d {
      assert t[1..][i - 1] != d;
      SomePartRemains(t[1..], d);
      assert Split(t, d)[1..] == Split(t[1..], d);
    }
  }

  function ParseText(t: string): Parsed
    requires |t| >= 106 && t[..3] == "ISA"
  {
    var segments := Segments(t);
    assert t[0] == t[..3][0] && t[1] == t[..3][1];
    SomePartRemains(t, t[105]);
    assert SplitAll(NonEmpty(Split(t, t[105])), t[3]) != [];
    var r := ReadAll(Reading([], false, []), segments);
    Parsed(t[3], t[105], t[104], segments, r.sets, r.problems + EnvelopeProblems(segments))
  }

  function ParseResult(text: string): Result<Parsed, Refused> {
    var t := StripNewlines(text);
    if |t| < 106 || t[..3] != "ISA" then Err(NOT_AN_INTERCHANGE) else Ok(ParseText(t))
  }

  method ParseX12(text: string) returns (r: Result<Parsed, Refused>)
    ensures r == ParseResult(text)
  {
    var t := StripNewlines(text);
    if |t| < 106 || t[..3] != "ISA" { return Err(NOT_AN_INTERCHANGE); }
    var segments := Segments(t);
    var sets, open, problems := [], false, [];
    for i := 0 to |segments|
      invariant open ==> sets != []
      invariant ReadAll(Reading(sets, open, problems), segments[i..]) == ReadAll(Reading([], false, []), segments)
    {
      var s := segments[i];
      assert segments[i..][0] == s && segments[i..][1..] == segments[i + 1..];
      ghost var before := Reading(sets, open, problems);
      if At(s, 0) == Some("ST") {
        sets, open := sets + [ParsedSet(OrEmpty(At(s, 1)), OrEmpty(At(s, 2)), [s])], true;
      } else {
        if open { sets := sets[|sets| - 1 := sets[|sets| - 1].(segments := sets[|sets| - 1].segments + [s])]; }
        if At(s, 0) == Some("SE") {
          if !open {
            problems := problems + [SE_WITHOUT_ST];
          } else {
            var cur := sets[|sets| - 1];
            var wrongCount := if NumberOf(At(s, 1)) != Some(|cur.segments|) then [SE_COUNT] else [];
            var wrongControl := if At(s, 2) != Some(cur.control) then [SE_CONTROL] else [];
            problems := problems + wrongCount + wrongControl;
            open := false;
          }
        }
      }
      assert Reading(sets, open, problems) == Read1(before, s);
    }
    assert t[0] == t[..3][0] && t[1] == t[..3][1];
    SomePartRemains(t, t[105]);
    assert SplitAll(NonEmpty(Split(t, t[105])), t[3]) != [];
    return Ok(Parsed(t[3], t[105], t[104], segments, sets, problems + EnvelopeProblems(segments)));
  }
}
