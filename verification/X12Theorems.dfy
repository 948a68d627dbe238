/**
 What is printed is read back: an interchange parses without problems into the sets that went in,
 stably grouped by functional identifier.
 */
module X12Theorems {
  import opened Wrappers
  import opened Strings
  import opened X12

  // ---------------------------------------------------------------- the moment as text

  /** The shape `toISOString` gives: `YYYY-MM-DDThh:mm:ss.sssZ`. */
  predicate IsoInstant(t: string) {
    && |t| == 24 && t[4] == '-' && t[7] == '-' && t[10] == 'T' && t[13] == ':' && t[16] == ':' && t[19] == '.' && t[23] == 'Z'
    && forall i :: 0 <= i < 23 && i != 4 && i != 7 && i != 10 && i != 13 && i != 16 && i != 19 ==> IsDigit(t[i])
  }

  lemma TwoDigits(t: string, i: nat, c: char)
    requires i + 2 <= |t| && IsDigit(t[i]) && IsDigit(t[i + 1]) && !IsDigit(c)
    ensures Without(t[i..i + 2], c) == t[i..i + 2] && AllDigits(t[i..i + 2])
  {
    WithoutNone(t[i..i + 2], c);
  }

  lemma WithoutOne(a: string, c: char, b: string)
    ensures Without(a + [c] + b, c) == Without(a, c) + Without(b, c)
  {
    var w := Without(a, c);
    WithoutOfSum(a + [c], b, c);
    WithoutOfSum(a, [c], c);
    WithoutItself(c);
    assert w + "" == w;
  }

  lemma WithoutItself(c: char)
    ensures Without([c], c) == ""
  {
    assert [c][1..] == "";
  }

  lemma ShortDate(t: string)
    requires IsoInstant(t)
    ensures Without(t[2..10], '-') == t[2..4] + t[5..7] + t[8..10]
  {
    var y, m, d := t[2..4], t[5..7], t[8..10];
    TwoDigits(t, 2, '-');
    TwoDigits(t, 5, '-');
    TwoDigits(t, 8, '-');
    WithoutOne(m, '-', d);
    WithoutOne(y, '-', m + ['-'] + d);
    assert t[2..10] == y + ['-'] + (m + ['-'] + d);
    assert y + (m + d) == y + m + d;
  }

  lemma LongDate(t: string)
    requires IsoInstant(t)
    ensures Without(t[..10], '-') == t[..4] + t[5..7] + t[8..10]
  {
    ShortDate(t);
    TwoDigits(t, 0, '-');
    WithoutOfSum(t[0..2], t[2..10], '-');
    assert t[..10] == t[0..2] + t[2..10] && t[..4] == t[0..2] + t[2..4];
    assert t[0..2] + (t[2..4] + t[5..7] + t[8..10]) == (t[0..2] + t[2..4]) + t[5..7] + t[8..10];
  }

  lemma DatePart(t: string)
    requires IsoInstant(t)
    ensures YYMMDD(t) == t[2..4] + t[5..7] + t[8..10]
    ensures CCYYMMDD(t) == t[..4] + t[5..7] + t[8..10]
  {
    ShortDate(t);
    LongDate(t);
    assert Slice(t, 0, 10) == t[..10];
  }

  lemma TimePart(t: string)
    requires IsoInstant(t)
    ensures HHMM(t) == t[11..13] + t[14..16]
  {
    TwoDigits(t, 11, ':');
    TwoDigits(t, 14, ':');
    assert t[11..16] == t[11..13] + [':'] + t[14..16];
    WithoutOne(t[11..13], ':', t[14..16]);
  }

  // ---------------------------------------------------------------- one segment, many segments

  /** A text that survives inside a segment: no separator, no terminator, no newline. */
  predicate Carried(p: Profile, el: string) { p.elementSep !in el && p.segmentTerm !in el && '\n' !in el }

  predicate Readable(p: Profile, s: Segment) { s != [] && s[0] != "" && forall i :: 0 <= i < |s| ==> Carried(p, s[i]) }

  function AllPrinted(segments: seq<Segment>): seq<Segment> {
    if segments == [] then [] else [Printed(segments[0])] + AllPrinted(segments[1..])
  }

  predicate AllReadable(p: Profile, segments: seq<Segment>) {
    forall i :: 0 <= i < |segments| ==> Readable(p, Printed(segments[i]))
  }

  predicate Separable(p: Profile) {
    p.elementSep != p.segmentTerm && p.elementSep != '\n' && p.segmentTerm != '\n' && p.segmentTerm != '\r'
  }

  function Concat(texts: seq<string>): string { if texts == [] then "" else texts[0] + Concat(texts[1..]) }

  lemma SegmentReads(p: Profile, s: Segment)
    requires Separable(p) && Readable(p, s)
    ensures var body := Join(s, p.elementSep); body != "" && p.segmentTerm !in body && '\n' !in body && Split(body, p.elementSep) == s
  {
    forall el | el in s ensures Carried(p, el) { var i :| 0 <= i < |s| && s[i] == el; }
    SplitUndoesJoin(s, p.elementSep);
    JoinIsFree(s, p.elementSep, p.segmentTerm);
    JoinIsFree(s, p.elementSep, '\n');
  }

  /** The line breaks the printer adds are gone after reading. */
  lemma {:induction false} LinesJoin(p: Profile, segments: seq<Segment>)
    requires Separable(p) && AllReadable(p, segments)
    ensures StripNewlines(Join(SegmentTexts(p, segments), '\n')) == Concat(SegmentTexts(p, segments))
  {
    if segments != [] {
      SegmentReads(p, Printed(segments[0]));
      LinesJoin(p, segments[1..]);
      LineJoins(SegmentText(p, segments[0]), SegmentTexts(p, segments[1..]));
    }
  }

  lemma LineJoins(line: string, rest: seq<string>)
    requires '\n' !in line && line != "" && line[|line| - 1] != '\r'
    requires StripNewlines(Join(rest, '\n')) == Concat(rest)
    ensures StripNewlines(Join([line] + rest, '\n')) == Concat([line] + rest)
  {
    var texts := [line] + rest;
    assert texts[1..] == rest;
    var after := if rest == [] then "" else ['\n'] + Join(rest, '\n');
    StripLine(line, after);
    if rest == [] {
      assert line + "" == line;
    } else {
      NewlineFirst(Join(rest, '\n'));
      assert line + ['\n'] + Join(rest, '\n') == line + after;
    }
  }

  lemma NewlineFirst(rest: string)
    ensures StripNewlines(['\n'] + rest) == StripNewlines(rest)
  {
    assert (['\n'] + rest)[1..] == rest;
  }

  lemma {:induction false} ConcatReads(p: Profile, segments: seq<Segment>)
    requires Separable(p) && AllReadable(p, segments)
    ensures SplitAll(NonEmpty(Split(Concat(SegmentTexts(p, segments)), p.segmentTerm)), p.elementSep) == AllPrinted(segments)
  {
    var texts := SegmentTexts(p, segments);
    if segments == [] {
      assert Split("", p.segmentTerm) == [""] && [""][1..] == [];
    } else {
      ConcatReads(p, segments[1..]);
      SegmentReads(p, Printed(segments[0]));
      var body := Join(Printed(segments[0]), p.elementSep);
      var rest := Concat(texts[1..]);
      assert texts[1..] == SegmentTexts(p, segments[1..]);
      assert Concat(texts) == body + [p.segmentTerm] + rest;
      SplitAtFirst(body, p.segmentTerm, rest);
      OnePartMore(body, Split(rest, p.segmentTerm), p.elementSep);
    }
  }

  lemma OnePartMore(body: string, parts: seq<string>, d: char)
    requires body != ""
    ensures SplitAll(NonEmpty([body] + parts), d) == [Split(body, d)] + SplitAll(NonEmpty(parts), d)
  {
    assert ([body] + parts)[1..] == parts;
    assert NonEmpty([body] + parts) == [body] + NonEmpty(parts);
    assert ([body] + NonEmpty(parts))[1..] == NonEmpty(parts);
  }

  // ---------------------------------------------------------------- where the ISA keeps the delimiters

  function Offset(parts: seq<string>, k: nat): nat
    requires k <= |parts|
  {
    if k == 0 then 0 else Offset(parts, k - 1) + |parts[k - 1]| + 1
  }

  lemma {:induction false} OffsetShift(parts: seq<string>, k: nat)
    requires 0 < k <= |parts|
    ensures Offset(parts, k) == |parts[0]| + 1 + Offset(parts[1..], k - 1)
  {
    if k > 1 { OffsetShift(parts, k - 1); }
  }

  lemma {:induction false} JoinFrom(parts: seq<string>, d: char, k: nat)
    requires k < |parts|
    ensures Offset(parts, k) <= |Join(parts, d)| && Join(parts, d)[Offset(parts, k)..] == Join(parts[k..], d)
    ensures k > 0 ==> Join(parts, d)[Offset(parts, k) - 1] == d
  {
    if k == 0 {
      assert parts[0..] == parts;
    } else {
      JoinFrom(parts[1..], d, k - 1);
      OffsetShift(parts, k);
      var j := Join(parts, d);
      assert j == parts[0] + [d] + Join(parts[1..], d);
      assert j[|parts[0]| + 1..] == Join(parts[1..], d);
      assert parts[1..][k - 1..] == parts[k..];
      assert j[Offset(parts, k)..] == j[|parts[0]| + 1..][Offset(parts[1..], k - 1)..];
    }
  }

  lemma IsaWidths(env: Envelope)
    requires IsoInstant(env.now)
    ensures var isa := Isa(env); |isa| == 17 && Offset(isa, 1) == 4 && Offset(isa, 16) == 104
  {
    DatePart(env.now);
    TimePart(env.now);
    var isa := Isa(env);
    assert Offset(isa, 1) == 4 && Offset(isa, 2) == 7 && Offset(isa, 3) == 18 && Offset(isa, 4) == 21;
    assert Offset(isa, 5) == 32 && Offset(isa, 6) == 35 && Offset(isa, 7) == 51 && Offset(isa, 8) == 54;
    assert Offset(isa, 9) == 70 && Offset(isa, 10) == 77 && Offset(isa, 11) == 82 && Offset(isa, 12) == 84;
    assert Offset(isa, 13) == 90 && Offset(isa, 14) == 100 && Offset(isa, 15) == 102 && Offset(isa, 16) == 104;
  }

  /** The fixed widths put the delimiters where the reader looks for them. */
  lemma IsaShowsDelimiters(env: Envelope, rest: string)
    requires IsoInstant(env.now)
    ensures var t := SegmentText(env.profile, Isa(env)) + rest;
      |t| >= 106 && t[..3] == "ISA" && t[3] == env.profile.elementSep && t[104] == env.profile.subElementSep && t[105] == env.profile.segmentTerm
  {
    var isa, d := Isa(env), env.profile.elementSep;
    IsaWidths(env);
    var j := Join(isa, d);
    JoinFrom(isa, d, 1);
    JoinFrom(isa, d, 16);
    assert isa[16..] == [[env.profile.subElementSep]];
    assert j[104..] == [env.profile.subElementSep];
    assert j == isa[0] + [d] + Join(isa[1..], d);
  }

  // ---------------------------------------------------------------- everything printed is readable

  /** Neither a letter, digit or space of the fixed texts nor a line break; the three differ. */
  predicate SoundProfile(p: Profile) {
    && Mark(p.elementSep) && Mark(p.segmentTerm) && Mark(p.subElementSep)
    && p.elementSep != p.segmentTerm && p.elementSep != p.subElementSep && p.segmentTerm != p.subElementSep
    && p.repetitionSep != p.elementSep && p.repetitionSep != p.segmentTerm && p.repetitionSep != '\n'
  }

  predicate Mark(c: char) { !IsDigit(c) && !('A' <= c <= 'Z') && c != ' ' && c != '\n' && c != '\r' }

  predicate Lined(el: string) { '\n' in el }

  predicate BodySegment(s: Segment) {
    s != [] && s[0] != "" && s[0] != "ISA" && s[0] != "GS" && s[0] != "ST" && s[0] != "SE"
  }

  predicate Sendable(env: Envelope, sets: seq<TransactionSet>) {
    && SoundProfile(env.profile) && IsoInstant(env.now)
    && forall i, j :: 0 <= i < |sets| && 0 <= j < |sets[i].body| ==> BodySegment(sets[i].body[j])
  }

  lemma {:induction false} TrimKeepsHead(s: Segment)
    requires s != []
    ensures Trim(s) != [] && Trim(s) <= s && Trim(s)[0] == s[0]
    ensures s[|s| - 1] != "" ==> Trim(s) == s
  {
    if |s| > 1 && s[|s| - 1] == "" { TrimKeepsHead(s[..|s| - 1]); }
  }

  lemma DigitsAreCarried(p: Profile, el: string)
    requires SoundProfile(p) && AllDigits(el)
    ensures Carried(p, el)
  {
  }

  lemma FixedTextsAreCarried(p: Profile)
    requires SoundProfile(p)
    ensures Carried(p, "ISA") && Carried(p, "00") && Carried(p, "ZZ") && Carried(p, "00401") && Carried(p, "00501")
    ensures Carried(p, "0") && Carried(p, "P") && Carried(p, "T") && Carried(p, [p.repetitionSep]) && Carried(p, [p.subElementSep])
  {
  }

  predicate AllCarried(p: Profile, s: seq<string>) { forall i :: 0 <= i < |s| ==> Carried(p, s[i]) }

  lemma CarriedTogether(p: Profile, a: seq<string>, b: seq<string>)
    requires AllCarried(p, a) && AllCarried(p, b)
    ensures AllCarried(p, a + b)
  {
  }

  /** The parties as the ISA shows them hold neither separator nor terminator. */
  predicate PartiesFit(env: Envelope) { Fits(env.profile, PadEnd(env.senderId, 15)) && Fits(env.profile, PadEnd(env.receiverId, 15)) }

  predicate Fits(p: Profile, el: string) { p.elementSep !in el && p.segmentTerm !in el }

  /** Every element of the ISA survives exactly if the parties do. */
  lemma IsaIsCarriedExactlyWhen(env: Envelope)
    requires SoundProfile(env.profile) && IsoInstant(env.now)
    ensures AllCarried(env.profile, Isa(env)) <==> PartiesFit(env) && !Lined(PadEnd(env.senderId, 15)) && !Lined(PadEnd(env.receiverId, 15))
  {
    var p, isa := env.profile, Isa(env);
    FixedTextsAreCarried(p);
    IsaDataIsCarried(env);
    var a := ["ISA", "00", PadEnd("", 10), "00", PadEnd("", 10), "ZZ"];
    var b := [PadEnd(env.senderId, 15), "ZZ", PadEnd(env.receiverId, 15)];
    var c := [YYMMDD(env.now), HHMM(env.now), [p.repetitionSep], if p.version.V004010? then "00401" else "00501"];
    var d := [LastDigits(env.controlNumber, 9), "0", if p.usage.P? then "P" else "T", [p.subElementSep]];
    assert isa == a + b + c + d;
    assert isa[6] == b[0] && isa[8] == b[2];
    if Carried(p, b[0]) && Carried(p, b[2]) {
      CarriedTogether(p, a, b);
      CarriedTogether(p, a + b, c);
      CarriedTogether(p, a + b + c, d);
    }
  }

  lemma IsaDataIsCarried(env: Envelope)
    requires SoundProfile(env.profile) && IsoInstant(env.now)
    ensures var p := env.profile;
      && Carried(p, PadEnd("", 10)) && Carried(p, YYMMDD(env.now)) && Carried(p, HHMM(env.now)) && Carried(p, LastDigits(env.controlNumber, 9))
  {
    var p := env.profile;
    DatePart(env.now);
    TimePart(env.now);
    DigitsAreCarried(p, YYMMDD(env.now));
    DigitsAreCarried(p, HHMM(env.now));
    DigitsAreCarried(p, LastDigits(env.controlNumber, 9));
  }

  // ---------------------------------------------------------------- the sets inside the groups

  /** A transaction set between its ST and its SE: the count and the control number agree. */
  predicate WellWrapped(w: seq<Segment>) {
    && |w| >= 2 && |w[0]| == 3 && w[0][0] == "ST" && w[0][2] != ""
    && w[|w| - 1] == ["SE", Decimal(|w|), w[0][2]]
    && forall i :: 0 < i < |w| - 1 ==> BodySegment(w[i])
  }

  predicate WellGrouped(g: Group) {
    forall k :: 0 <= k < |g.sets| ==> WellWrapped(g.sets[k])
  }

  lemma WrappedIsWell(env: Envelope, s: TransactionSet, i: nat)
    requires forall j :: 0 <= j < |s.body| ==> BodySegment(s.body[j])
    ensures var w := Wrapped(env, s, i); WellWrapped(w) && w[0][1] == Number(s.id) && w[1..|w| - 1] == s.body
  {
  }

  lemma {:induction false} GroupsAreWell(env: Envelope, sets: seq<TransactionSet>)
    requires forall i, j :: 0 <= i < |sets| && 0 <= j < |sets[i].body| ==> BodySegment(sets[i].body[j])
    ensures forall k :: 0 <= k < |Grouped(env, sets)| ==> WellGrouped(Grouped(env, sets)[k])
  {
    if sets != [] {
      var n := |sets| - 1;
      GroupsAreWell(env, sets[..n]);
      WrappedIsWell(env, sets[n], n);
    }
  }

  /** A segment after the ISA, named. */
  predicate Ordinary(s: Segment) { s != [] && s[0] != "" && s[0] != "ISA" }

  predicate AllOrdinary(segments: seq<Segment>) { forall i :: 0 <= i < |segments| ==> Ordinary(segments[i]) }

  lemma OrdinaryTogether(a: seq<Segment>, b: seq<Segment>)
    requires AllOrdinary(a) && AllOrdinary(b)
    ensures AllOrdinary(a + b)
  {
  }

  lemma WellWrappedIsOrdinary(w: seq<Segment>)
    requires WellWrapped(w)
    ensures AllOrdinary(w)
  {
    forall i | 0 <= i < |w| ensures Ordinary(w[i]) {
      if 0 < i < |w| - 1 { assert BodySegment(w[i]); }
    }
  }

  lemma {:induction false} FlattenIsOrdinary(ws: seq<seq<Segment>>)
    requires forall k :: 0 <= k < |ws| ==> WellWrapped(ws[k])
    ensures AllOrdinary(Flatten(ws))
  {
    if ws != [] {
      WellWrappedIsOrdinary(ws[0]);
      FlattenIsOrdinary(ws[1..]);
      OrdinaryTogether(ws[0], Flatten(ws[1..]));
    }
  }

  function GsOf(env: Envelope, g: Group, gi: nat): Segment
  {
    ["GS", g.id, env.senderId, env.receiverId, CCYYMMDD(env.now), HHMM(env.now), GroupControl(env, gi), "X", VersionText(env.profile.version)]
  }

  function GeOf(env: Envelope, g: Group, gi: nat): Segment { ["GE", Decimal(|g.sets|), GroupControl(env, gi)] }

  lemma GroupIsOrdinary(env: Envelope, g: Group, gi: nat)
    requires WellGrouped(g)
    ensures AllOrdinary(GroupSegments(env, g, gi))
    ensures GroupSegments(env, g, gi) == [GsOf(env, g, gi)] + Flatten(g.sets) + [GeOf(env, g, gi)]
  {
    FlattenIsOrdinary(g.sets);
    assert Ordinary(GsOf(env, g, gi)) && Ordinary(GeOf(env, g, gi));
    OrdinaryTogether([GsOf(env, g, gi)], Flatten(g.sets));
    OrdinaryTogether([GsOf(env, g, gi)] + Flatten(g.sets), [GeOf(env, g, gi)]);
  }

  lemma {:induction false} GroupsAreOrdinary(env: Envelope, groups: seq<Group>, from: nat)
    requires forall k :: 0 <= k < |groups| ==> WellGrouped(groups[k])
    ensures AllOrdinary(AllGroups(env, groups, from))
    decreases |groups|
  {
    if groups != [] {
      GroupIsOrdinary(env, groups[0], from + 1);
      GroupsAreOrdinary(env, groups[1..], from + 1);
      OrdinaryTogether(GroupSegments(env, groups[0], from + 1), AllGroups(env, groups[1..], from + 1));
    }
  }

  lemma AllAfterTheIsaAreOrdinary(env: Envelope, sets: seq<TransactionSet>)
    requires Sendable(env, sets)
    ensures var segments := InterchangeSegments(env, sets); |segments| >= 2 && segments[0] == Isa(env) && AllOrdinary(segments[1..])
  {
    var groups := Grouped(env, sets);
    var mid, iea := AllGroups(env, groups, 0), [["IEA", Decimal(|groups|), LastDigits(env.controlNumber, 9)]];
    GroupsAreWell(env, sets);
    GroupsAreOrdinary(env, groups, 0);
    OrdinaryTogether(mid, iea);
    AfterTheFirst(Isa(env), mid, iea);
  }

  lemma AfterTheFirst<X>(first: X, mid: seq<X>, last: seq<X>)
    ensures ([first] + mid + last)[1..] == mid + last
  {
  }

  lemma {:induction false} SomeSetSomeGroup(env: Envelope, sets: seq<TransactionSet>)
    requires sets != []
    ensures Grouped(env, sets) != []
  {
  }

  lemma FirstGroupIsPrinted(env: Envelope, sets: seq<TransactionSet>)
    requires sets != []
    ensures Grouped(env, sets) != [] && |InterchangeSegments(env, sets)| >= 2
    ensures var gs := GsOf(env, Grouped(env, sets)[0], 1); InterchangeSegments(env, sets)[1] == gs && Printed(gs) == gs
  {
    SomeSetSomeGroup(env, sets);
    var groups := Grouped(env, sets);
    var gs := GsOf(env, groups[0], 1);
    assert AllGroups(env, groups, 0)[0] == gs;
    TrimKeepsHead(gs);
    assert gs[|gs| - 1] != "";
  }

  lemma PadShows(id: string, c: char)
    requires c != ' '
    ensures c in PadEnd(id, 15) ==> c in id
  {
    var r := PadEnd(id, 15);
    if c in r { var i :| 0 <= i < |r| && r[i] == c; }
  }

  /** The GS segment repeats the parties in full, so the check on it covers the unchecked ISA. */
  lemma PartiesAreSafe(env: Envelope, sets: seq<TransactionSet>)
    requires Sendable(env, sets) && Renderable(env.profile, InterchangeSegments(env, sets)) && sets != []
    ensures !Holds(env.senderId, env.profile) && !Holds(env.receiverId, env.profile)
    ensures PartiesFit(env)
  {
    FirstGroupIsPrinted(env, sets);
    var p, gs := env.profile, GsOf(env, Grouped(env, sets)[0], 1);
    assert InterchangeSegments(env, sets)[1] == gs && !Unsafe(p, gs);
    assert !Holds(gs[2], p) && !Holds(gs[3], p);
    PadShows(env.senderId, p.elementSep);
    PadShows(env.senderId, p.segmentTerm);
    PadShows(env.receiverId, p.elementSep);
    PadShows(env.receiverId, p.segmentTerm);
  }

  /** No printed element holds a line break. */
  predicate Unbroken(segments: seq<Segment>) { forall i :: 0 <= i < |segments| ==> NoLines(Printed(segments[i])) }

  predicate NoLines(s: Segment) { forall i :: 0 <= i < |s| ==> !Lined(s[i]) }

  /** No printed element holds a separator, a terminator or a line break. */
  predicate Intact(p: Profile, segments: seq<Segment>) { forall i :: 0 <= i < |segments| ==> AllCarried(p, Printed(segments[i])) }

  lemma GuardedIsCarriedExactlyWhen(p: Profile, s: Segment)
    requires !IsIsa(s) && !Unsafe(p, Trim(s))
    ensures AllCarried(p, Printed(s)) <==> NoLines(Printed(s))
  {
    var t := Trim(s);
    forall i | 0 <= i < |t| ensures !Holds(t[i], p) { }
  }

  /**
   What the guard leaves to be said. Once `render` refuses nothing, the printed elements are free of separators,
   terminators and line breaks exactly when they are free of line breaks and the parties fit the ISA; if there is any
   set to send, they do.
   */
  lemma IntactExactlyWhen(env: Envelope, sets: seq<TransactionSet>)
    requires Sendable(env, sets) && Renderable(env.profile, InterchangeSegments(env, sets))
    ensures Intact(env.profile, InterchangeSegments(env, sets)) <==> Unbroken(InterchangeSegments(env, sets)) && PartiesFit(env)
    ensures sets != [] ==> PartiesFit(env)
  {
    var p, segments := env.profile, InterchangeSegments(env, sets);
    AllAfterTheIsaAreOrdinary(env, sets);
    IsaIsCarriedExactlyWhen(env);
    if sets != [] { PartiesAreSafe(env, sets); }
    var isa := Isa(env);
    assert Printed(isa) == isa && isa[6] == PadEnd(env.senderId, 15) && isa[8] == PadEnd(env.receiverId, 15);
    if Intact(p, segments) { assert AllCarried(p, Printed(segments[0])); }
    if Unbroken(segments) { assert NoLines(Printed(segments[0])); }
    forall i | 0 < i < |segments| ensures AllCarried(p, Printed(segments[i])) <==> NoLines(Printed(segments[i])) {
      assert segments[i] == segments[1..][i - 1] && Ordinary(segments[1..][i - 1]);
      GuardedIsCarriedExactlyWhen(p, segments[i]);
    }
    if Intact(p, segments) {
      forall i | 0 <= i < |segments| ensures NoLines(Printed(segments[i])) { assert AllCarried(p, Printed(segments[i])); }
    }
    if Unbroken(segments) && PartiesFit(env) {
      forall i | 0 <= i < |segments| ensures AllCarried(p, Printed(segments[i])) { assert NoLines(Printed(segments[i])); }
    }
  }

  lemma InterchangeIsReadable(env: Envelope, sets: seq<TransactionSet>)
    requires Sendable(env, sets) && Intact(env.profile, InterchangeSegments(env, sets))
    ensures AllReadable(env.profile, InterchangeSegments(env, sets))
  {
    var p, segments := env.profile, InterchangeSegments(env, sets);
    AllAfterTheIsaAreOrdinary(env, sets);
    forall i | 0 <= i < |segments| ensures Readable(p, Printed(segments[i])) {
      assert AllCarried(p, Printed(segments[i]));
      if i > 0 {
        assert segments[i] == segments[1..][i - 1] && Ordinary(segments[1..][i - 1]);
        TrimKeepsHead(segments[i]);
      }
    }
  }

  // ---------------------------------------------------------------- reading the sets back

  function SetOf(w: seq<Segment>): ParsedSet
    requires WellWrapped(w)
  {
    ParsedSet(w[0][1], w[0][2], AllPrinted(w))
  }

  function SetsOf(ws: seq<seq<Segment>>): seq<ParsedSet>
    requires forall k :: 0 <= k < |ws| ==> WellWrapped(ws[k])
  {
    if ws == [] then [] else [SetOf(ws[0])] + SetsOf(ws[1..])
  }

  /** The sets of all groups, group after group. */
  function SetsIn(groups: seq<Group>): seq<ParsedSet>
    requires forall k :: 0 <= k < |groups| ==> WellGrouped(groups[k])
  {
    if groups == [] then []
    else
      assert WellGrouped(groups[0]);
      SetsOf(groups[0].sets) + SetsIn(groups[1..])
  }

  lemma {:induction false} PrintedTogether(a: seq<Segment>, b: seq<Segment>)
    ensures AllPrinted(a + b) == AllPrinted(a) + AllPrinted(b)
  {
    if a == [] {
      assert a + b == b;
    } else {
      PrintedTogether(a[1..], b);
      assert (a + b)[0] == a[0] && (a + b)[1..] == a[1..] + b;
      var first := [Printed(a[0])];
      assert AllPrinted(a + b) == first + (AllPrinted(a[1..]) + AllPrinted(b));
      Regroup(first, AllPrinted(a[1..]), AllPrinted(b));
    }
  }

  lemma {:induction false} ReadTogether(r: Reading, a: seq<Segment>, b: seq<Segment>)
    requires r.open ==> r.sets != []
    ensures ReadAll(r, a + b) == ReadAll(ReadAll(r, a), b)
    decreases |a|
  {
    if a == [] {
      assert a + b == b;
    } else {
      ReadTogether(Read1(r, a[0]), a[1..], b);
      assert (a + b)[0] == a[0] && (a + b)[1..] == a[1..] + b;
    }
  }

  lemma ReadOne(r: Reading, s: Segment)
    requires r.open ==> r.sets != []
    ensures ReadAll(r, [s]) == Read1(r, s)
  {
    assert [s][1..] == [];
    assert ReadAll(Read1(r, s), []) == Read1(r, s);
  }

  lemma PrintedOne(s: Segment)
    ensures AllPrinted([s]) == [Printed(s)]
  {
    assert [s][1..] == [];
  }

  lemma {:induction false} BodyReads(r: Reading, body: seq<Segment>)
    requires r.open && r.sets != [] && forall i :: 0 <= i < |body| ==> BodySegment(body[i])
    ensures var n := |r.sets| - 1;
      ReadAll(r, AllPrinted(body)) == r.(sets := r.sets[n := r.sets[n].(segments := r.sets[n].segments + AllPrinted(body))])
    decreases |body|
  {
    var n := |r.sets| - 1;
    if body == [] {
      assert r.sets[n].segments + [] == r.sets[n].segments;
      assert r.sets[n := r.sets[n]] == r.sets;
    } else {
      var s := Printed(body[0]);
      TrimKeepsHead(body[0]);
      var next := Read1(r, s);
      assert next == r.(sets := r.sets[n := r.sets[n].(segments := r.sets[n].segments + [s])]);
      BodyReads(next, body[1..]);
      var more := AllPrinted(body[1..]);
      assert AllPrinted(body) == [s] + more;
      assert (r.sets[n].segments + [s]) + more == r.sets[n].segments + ([s] + more);
      assert ReadAll(r, [s] + more) == ReadAll(next, more);
    }
  }

  /** A wrapped set, printed and read with none open, becomes one parsed set and no problem. */
  lemma SetReads(r: Reading, w: seq<Segment>)
    requires !r.open && WellWrapped(w)
    ensures ReadAll(r, AllPrinted(w)) == r.(sets := r.sets + [SetOf(w)])
  {
    var first, body, last := w[0], w[1..|w| - 1], w[|w| - 1];
    assert w == [first] + body + [last];
    PrintedTogether([first] + body, [last]);
    PrintedTogether([first], body);
    PrintedOne(first);
    PrintedOne(last);
    TrimKeepsHead(first);
    TrimKeepsHead(last);
    assert AllPrinted(w) == [first] + AllPrinted(body) + [last];
    var begun := Reading(r.sets + [ParsedSet(first[1], first[2], [first])], true, r.problems);
    ReadTogether(r, [first] + AllPrinted(body), [last]);
    ReadTogether(r, [first], AllPrinted(body));
    ReadOne(r, first);
    assert Read1(r, first) == begun;
    BodyReads(begun, body);
    var full := Reading(r.sets + [ParsedSet(first[1], first[2], [first] + AllPrinted(body))], true, r.problems);
    assert ReadAll(begun, AllPrinted(body)) == full;
    ReadOne(full, last);
    ClosesWell(full, r.sets, w, last);
  }

  lemma {:induction false} PrintedLength(a: seq<Segment>)
    ensures |AllPrinted(a)| == |a|
  {
    if a != [] { PrintedLength(a[1..]); }
  }

  lemma ClosesWell(full: Reading, before: seq<ParsedSet>, w: seq<Segment>, last: Segment)
    requires WellWrapped(w) && last == w[|w| - 1] && AllPrinted(w) == [w[0]] + AllPrinted(w[1..|w| - 1]) + [last]
    requires full.open && full.sets == before + [ParsedSet(w[0][1], w[0][2], [w[0]] + AllPrinted(w[1..|w| - 1]))]
    ensures Read1(full, last) == Reading(before + [SetOf(w)], false, full.problems)
  {
    PrintedLength(w);
    DecimalReadsBack(|w|);
    assert full.problems + [] + [] == full.problems;
  }

  lemma {:induction false} SetsRead(r: Reading, ws: seq<seq<Segment>>)
    requires !r.open && forall k :: 0 <= k < |ws| ==> WellWrapped(ws[k])
    ensures ReadAll(r, AllPrinted(Flatten(ws))) == r.(sets := r.sets + SetsOf(ws))
    decreases |ws|
  {
    if ws == [] {
      assert r.sets + [] == r.sets;
    } else {
      PrintedThenRead(r, ws[0], Flatten(ws[1..]));
      SetReads(r, ws[0]);
      var next := r.(sets := r.sets + [SetOf(ws[0])]);
      SetsRead(next, ws[1..]);
      Regroup(r.sets, [SetOf(ws[0])], SetsOf(ws[1..]));
    }
  }

  lemma Passes(r: Reading, s: Segment)
    requires !r.open && s != [] && s[0] != "ST" && s[0] != "SE"
    ensures ReadAll(r, AllPrinted([s])) == r
  {
    PrintedOne(s);
    TrimKeepsHead(s);
    ReadOne(r, Printed(s));
  }

  lemma {:induction false} GroupsRead(env: Envelope, groups: seq<Group>, from: nat, r: Reading)
    requires !r.open && forall k :: 0 <= k < |groups| ==> WellGrouped(groups[k])
    ensures ReadAll(r, AllPrinted(AllGroups(env, groups, from))) == r.(sets := r.sets + SetsIn(groups))
    decreases |groups|
  {
    if groups == [] {
      assert r.sets + [] == r.sets;
    } else {
      var g := groups[0];
      GroupReads(env, g, from + 1, r);
      var next := r.(sets := r.sets + SetsOf(g.sets));
      GroupsRead(env, groups[1..], from + 1, next);
      PrintedThenRead(r, GroupSegments(env, g, from + 1), AllGroups(env, groups[1..], from + 1));
      SetsAppend(r.sets, groups);
    }
  }

  lemma SetsAppend(before: seq<ParsedSet>, groups: seq<Group>)
    requires groups != [] && forall k :: 0 <= k < |groups| ==> WellGrouped(groups[k])
    ensures WellGrouped(groups[0]) && (before + SetsOf(groups[0].sets)) + SetsIn(groups[1..]) == before + SetsIn(groups)
  {
    assert WellGrouped(groups[0]);
    Regroup(before, SetsOf(groups[0].sets), SetsIn(groups[1..]));
  }

  lemma PrintedThenRead(r: Reading, a: seq<Segment>, b: seq<Segment>)
    requires r.open ==> r.sets != []
    ensures ReadAll(r, AllPrinted(a + b)) == ReadAll(ReadAll(r, AllPrinted(a)), AllPrinted(b))
  {
    PrintedTogether(a, b);
    ReadTogether(r, AllPrinted(a), AllPrinted(b));
  }

  lemma GroupReads(env: Envelope, g: Group, gi: nat, r: Reading)
    requires !r.open && WellGrouped(g)
    ensures ReadAll(r, AllPrinted(GroupSegments(env, g, gi))) == r.(sets := r.sets + SetsOf(g.sets))
  {
    var gs, ge, mid := [GsOf(env, g, gi)], [GeOf(env, g, gi)], Flatten(g.sets);
    assert GroupSegments(env, g, gi) == gs + mid + ge;
    PrintedTogether(gs + mid, ge);
    PrintedTogether(gs, mid);
    ReadTogether(r, AllPrinted(gs) + AllPrinted(mid), AllPrinted(ge));
    ReadTogether(r, AllPrinted(gs), AllPrinted(mid));
    Passes(r, gs[0]);
    SetsRead(r, g.sets);
    Passes(r.(sets := r.sets + SetsOf(g.sets)), ge[0]);
  }

  // ---------------------------------------------------------------- counting the groups

  lemma {:induction false} CountTogether(a: seq<Segment>, b: seq<Segment>)
    ensures CountGs(a + b) == CountGs(a) + CountGs(b)
  {
    if a == [] {
      assert a + b == b;
    } else {
      CountTogether(a[1..], b);
      assert (a + b)[0] == a[0] && (a + b)[1..] == a[1..] + b;
    }
  }

  lemma {:induction false} NoneCounted(segments: seq<Segment>)
    requires forall i :: 0 <= i < |segments| ==> segments[i] != [] && segments[i][0] != "GS"
    ensures CountGs(AllPrinted(segments)) == 0
  {
    if segments != [] {
      TrimKeepsHead(segments[0]);
      NoneCounted(segments[1..]);
    }
  }

  lemma {:induction false} SetsCountNone(ws: seq<seq<Segment>>)
    requires forall k :: 0 <= k < |ws| ==> WellWrapped(ws[k])
    ensures CountGs(AllPrinted(Flatten(ws))) == 0
  {
    if ws != [] {
      var w := ws[0];
      forall i | 0 <= i < |w| ensures w[i] != [] && w[i][0] != "GS" {
        if 0 < i < |w| - 1 { assert BodySegment(w[i]); }
      }
      NoneCounted(w);
      SetsCountNone(ws[1..]);
      PrintedTogether(w, Flatten(ws[1..]));
      CountTogether(AllPrinted(w), AllPrinted(Flatten(ws[1..])));
    }
  }

  lemma CountOne(s: Segment)
    requires s != []
    ensures CountGs(AllPrinted([s])) == if s[0] == "GS" then 1 else 0
  {
    PrintedOne(s);
    TrimKeepsHead(s);
    assert [Printed(s)][1..] == [];
  }

  lemma {:induction false} GroupsCount(env: Envelope, groups: seq<Group>, from: nat)
    requires forall k :: 0 <= k < |groups| ==> WellGrouped(groups[k])
    ensures CountGs(AllPrinted(AllGroups(env, groups, from))) == |groups|
    decreases |groups|
  {
    if groups != [] {
      var g := groups[0];
      var gs, ge, mid, rest := [GsOf(env, g, from + 1)], [GeOf(env, g, from + 1)], Flatten(g.sets), AllGroups(env, groups[1..], from + 1);
      assert AllGroups(env, groups, from) == gs + mid + ge + rest;
      PrintedTogether(gs + mid + ge, rest);
      PrintedTogether(gs + mid, ge);
      PrintedTogether(gs, mid);
      CountTogether(AllPrinted(gs) + AllPrinted(mid) + AllPrinted(ge), AllPrinted(rest));
      CountTogether(AllPrinted(gs) + AllPrinted(mid), AllPrinted(ge));
      CountTogether(AllPrinted(gs), AllPrinted(mid));
      CountOne(gs[0]);
      CountOne(ge[0]);
      SetsCountNone(g.sets);
      GroupsCount(env, groups[1..], from + 1);
    }
  }

  // ---------------------------------------------------------------- the round trip

  lemma TextReads(env: Envelope, sets: seq<TransactionSet>)
    requires Sendable(env, sets) && Renderable(env.profile, InterchangeSegments(env, sets)) && Intact(env.profile, InterchangeSegments(env, sets))
    ensures var p, segments := env.profile, InterchangeSegments(env, sets);
      var t := StripNewlines(Render(p, segments).value);
      && |t| >= 106 && t[..3] == "ISA" && t[3] == p.elementSep && t[104] == p.subElementSep && t[105] == p.segmentTerm
      && Segments(t) == AllPrinted(segments)
  {
    var p, segments := env.profile, InterchangeSegments(env, sets);
    InterchangeIsReadable(env, sets);
    LinesJoin(p, segments);
    ConcatReads(p, segments);
    var texts := SegmentTexts(p, segments);
    assert segments[0] == Isa(env);
    IsaShowsDelimiters(env, Concat(texts[1..]));
    assert Concat(texts) == SegmentText(p, Isa(env)) + Concat(texts[1..]);
  }

  lemma InterchangeReads(env: Envelope, sets: seq<TransactionSet>)
    requires Sendable(env, sets)
    ensures forall k :: 0 <= k < |Grouped(env, sets)| ==> WellGrouped(Grouped(env, sets)[k])
    ensures var printed := AllPrinted(InterchangeSegments(env, sets));
      && printed != []
      && ReadAll(Reading([], false, []), printed) == Reading(SetsIn(Grouped(env, sets)), false, [])
      && EnvelopeProblems(printed) == []
  {
    var groups := Grouped(env, sets);
    GroupsAreWell(env, sets);
    var r := Reading([], false, []);
    var isa, mid, iea := [Isa(env)], AllGroups(env, groups, 0), [["IEA", Decimal(|groups|), LastDigits(env.controlNumber, 9)]];
    PrintedTogether(isa + mid, iea);
    PrintedTogether(isa, mid);
    ReadTogether(r, AllPrinted(isa) + AllPrinted(mid), AllPrinted(iea));
    ReadTogether(r, AllPrinted(isa), AllPrinted(mid));
    Passes(r, isa[0]);
    GroupsRead(env, groups, 0, r);
    assert [] + SetsIn(groups) == SetsIn(groups);
    Passes(Reading(SetsIn(groups), false, []), iea[0]);
    CountTogether(AllPrinted(isa) + AllPrinted(mid), AllPrinted(iea));
    CountTogether(AllPrinted(isa), AllPrinted(mid));
    CountOne(isa[0]);
    CountOne(iea[0]);
    GroupsCount(env, groups, 0);
    EnvelopeIsFine(env, AllPrinted(isa) + AllPrinted(mid) + AllPrinted(iea), |groups|);
  }

  lemma EnvelopeIsFine(env: Envelope, printed: seq<Segment>, n: nat)
    requires AllPrinted([Isa(env)]) <= printed && CountGs(printed) == n
    requires printed != [] && [printed[|printed| - 1]] == AllPrinted([["IEA", Decimal(n), LastDigits(env.controlNumber, 9)]])
    ensures EnvelopeProblems(printed) == []
  {
    var iea := ["IEA", Decimal(n), LastDigits(env.controlNumber, 9)];
    PrintedOne(Isa(env));
    PrintedOne(iea);
    TrimKeepsHead(iea);
    DecimalReadsBack(n);
    assert printed[0] == AllPrinted([Isa(env)])[0];
  }

  // ---------------------------------------------------------------- what a parsed segment never holds

  lemma {:induction false} SplitIsFree(t: string, d: char, c: char)
    ensures forall i :: 0 <= i < |Split(t, d)| ==> d !in Split(t, d)[i] && (c !in t ==> c !in Split(t, d)[i])
  {
    if t != "" {
      SplitIsFree(t[1..], d, c);
      assert t == [t[0]] + t[1..];
      var r := Split(t[1..], d);
      if t[0] != d {
        forall i | 0 <= i < |Split(t, d)| ensures d !in Split(t, d)[i] && (c !in t ==> c !in Split(t, d)[i]) {
          if i > 0 { assert Split(t, d)[i] == r[i]; }
        }
      } else {
        assert forall i :: 0 < i < |Split(t, d)| ==> Split(t, d)[i] == r[i - 1];
      }
    }
  }

  predicate FreeOf(parts: seq<string>, c: char) { forall i :: 0 <= i < |parts| ==> c !in parts[i] }

  predicate AllFreeOf(segments: seq<Segment>, c: char) { forall i :: 0 <= i < |segments| ==> FreeOf(segments[i], c) }

  lemma {:induction false} NonEmptyIsFree(parts: seq<string>, c: char)
    requires FreeOf(parts, c)
    ensures FreeOf(NonEmpty(parts), c)
  {
    if parts != [] { NonEmptyIsFree(parts[1..], c); }
  }

  lemma {:induction false} SplitAllIsFree(parts: seq<string>, d: char, c: char)
    requires FreeOf(parts, c)
    ensures AllFreeOf(SplitAll(parts, d), c) && AllFreeOf(SplitAll(parts, d), d)
  {
    if parts != [] {
      assert c !in parts[0];
      SplitIsFree(parts[0], d, c);
      SplitAllIsFree(parts[1..], d, c);
    }
  }

  lemma {:induction false} StrippedHasNoLines(t: string)
    ensures '\n' !in StripNewlines(t)
  {
    if t != "" {
      if |t| > 1 && t[0] == '\r' && t[1] == '\n' { StrippedHasNoLines(t[2..]); } else { StrippedHasNoLines(t[1..]); }
    }
  }

  /** Whatever text is read, no element of a parsed segment holds a line break, or one of the two delimiters it was cut at. */
  lemma ParsedAreClean(text: string)
    requires ParseResult(text).Ok?
    ensures var r := ParseResult(text).value; AllFreeOf(r.segments, '\n') && AllFreeOf(r.segments, r.element) && AllFreeOf(r.segments, r.segment)
  {
    var t := StripNewlines(text);
    var parts := Split(t, t[105]);
    StrippedHasNoLines(text);
    SplitIsFree(t, t[105], '\n');
    NonEmptyIsFree(parts, '\n');
    NonEmptyIsFree(parts, t[105]);
    SplitAllIsFree(NonEmpty(parts), t[3], '\n');
    SplitAllIsFree(NonEmpty(parts), t[3], t[105]);
  }

  lemma {:induction false} PrintedAt(segments: seq<Segment>, i: nat)
    requires i < |segments|
    ensures |AllPrinted(segments)| == |segments| && AllPrinted(segments)[i] == Printed(segments[i])
  {
    PrintedLength(segments);
    if i > 0 { PrintedAt(segments[1..], i - 1); }
  }

  /** The text is read as these segments. */
  predicate ReadsAs(text: string, segments: seq<Segment>) { ParseResult(text).Ok? && ParseResult(text).value.segments == segments }

  lemma ReadIsUnbroken(text: string, segments: seq<Segment>)
    requires ReadsAs(text, AllPrinted(segments))
    ensures Unbroken(segments)
  {
    ParsedAreClean(text);
    forall i: nat | i < |segments| ensures NoLines(Printed(segments[i])) {
      PrintedAt(segments, i);
      assert FreeOf(AllPrinted(segments)[i], '\n');
    }
  }

  /** If the ISA holds no line break, the reader finds the delimiters that were used. */
  lemma ReaderFindsDelimiters(env: Envelope, sets: seq<TransactionSet>)
    requires Sendable(env, sets) && NoLines(Isa(env))
    ensures var t := StripNewlines(Join(SegmentTexts(env.profile, InterchangeSegments(env, sets)), '\n'));
      |t| >= 106 && t[..3] == "ISA" && t[3] == env.profile.elementSep && t[105] == env.profile.segmentTerm
  {
    var p, isa, segments := env.profile, Isa(env), InterchangeSegments(env, sets);
    AllAfterTheIsaAreOrdinary(env, sets);
    var texts := SegmentTexts(p, segments);
    assert texts[0] == SegmentText(p, isa) && texts[1..] == SegmentTexts(p, segments[1..]) && segments[1..] != [];
    IsaLine(env);
    StripsToLine(texts);
    IsaShowsDelimiters(env, StripNewlines(Join(texts[1..], '\n')));
  }

  lemma IsaLine(env: Envelope)
    requires SoundProfile(env.profile) && NoLines(Isa(env))
    ensures var line := SegmentText(env.profile, Isa(env)); '\n' !in line && line != "" && line[|line| - 1] != '\r'
  {
    var isa := Isa(env);
    forall el | el in isa ensures '\n' !in el { var i :| 0 <= i < |isa| && isa[i] == el; }
    JoinIsFree(isa, env.profile.elementSep, '\n');
  }

  lemma StripsToLine(texts: seq<string>)
    requires |texts| >= 2 && '\n' !in texts[0] && texts[0] != "" && texts[0][|texts[0]| - 1] != '\r'
    ensures StripNewlines(Join(texts, '\n')) == texts[0] + StripNewlines(Join(texts[1..], '\n'))
  {
    var more := Join(texts[1..], '\n');
    StripLine(texts[0], ['\n'] + more);
    NewlineFirst(more);
    assert texts[0] + ['\n'] + more == texts[0] + (['\n'] + more);
  }

  lemma ReadIsIntact(env: Envelope, sets: seq<TransactionSet>, text: string)
    requires Sendable(env, sets) && Render(env.profile, InterchangeSegments(env, sets)) == Ok(text)
    requires ReadsAs(text, AllPrinted(InterchangeSegments(env, sets)))
    ensures Intact(env.profile, InterchangeSegments(env, sets))
  {
    var p, segments := env.profile, InterchangeSegments(env, sets);
    ReadIsUnbroken(text, segments);
    AllAfterTheIsaAreOrdinary(env, sets);
    assert NoLines(Printed(segments[0])) && Printed(segments[0]) == Isa(env);
    ReaderFindsDelimiters(env, sets);
    ParsedAreClean(text);
    forall i: nat | i < |segments| ensures AllCarried(p, Printed(segments[i])) {
      PrintedAt(segments, i);
      assert NoLines(Printed(segments[i]));
      assert FreeOf(AllPrinted(segments)[i], p.elementSep) && FreeOf(AllPrinted(segments)[i], p.segmentTerm);
    }
  }

  /**
   Of what `interchange` does not refuse, `parseX12` reads back the segments it was made of, each without its trailing
   empty elements, exactly when no printed element holds a separator, a terminator or a line break. Then it finds the
   delimiters and no problems, and gives the sets group by group, each from its ST to its SE.
   */
  lemma InterchangeRoundTrip(env: Envelope, sets: seq<TransactionSet>)
    requires Sendable(env, sets)
    ensures forall k :: 0 <= k < |Grouped(env, sets)| ==> WellGrouped(Grouped(env, sets)[k])
    ensures var p, segments := env.profile, InterchangeSegments(env, sets);
      var text := Render(p, segments);
      text.Ok? ==>
        && (ReadsAs(text.value, AllPrinted(segments)) <==> Intact(p, segments))
        && (Intact(p, segments) ==>
              ParseResult(text.value) == Ok(Parsed(p.elementSep, p.segmentTerm, p.subElementSep, AllPrinted(segments), SetsIn(Grouped(env, sets)), [])))
  {
    InterchangeReads(env, sets);
    var p, segments := env.profile, InterchangeSegments(env, sets);
    if Renderable(p, segments) {
      if Intact(p, segments) { TextReads(env, sets); }
      var text := Render(p, segments).value;
      if ReadsAs(text, AllPrinted(segments)) { ReadIsIntact(env, sets, text); }
    }
  }

  /** With anything to send, the segments come back exactly when no printed element holds a line break. */
  lemma ComesBackExactlyWhenUnbroken(env: Envelope, sets: seq<TransactionSet>)
    requires Sendable(env, sets) && sets != []
    ensures var segments := InterchangeSegments(env, sets);
      var text := Render(env.profile, segments);
      text.Ok? ==> (ReadsAs(text.value, AllPrinted(segments)) <==> Unbroken(segments))
  {
    InterchangeRoundTrip(env, sets);
    if Renderable(env.profile, InterchangeSegments(env, sets)) { IntactExactlyWhen(env, sets); }
  }

  // ---------------------------------------------------------------- the grouping is stable

  /** The wrapped sets of one functional identifier, in the order given. */
  function Of(env: Envelope, sets: seq<TransactionSet>, id: string): seq<seq<Segment>> {
    if sets == [] then []
    else
      var n := |sets| - 1;
      Of(env, sets[..n], id) + if Functional(sets[n].id) == id then [Wrapped(env, sets[n], n)] else []
  }

  /** The functional identifiers in order of first appearance. */
  function Appearing(sets: seq<TransactionSet>): seq<string> {
    if sets == [] then []
    else
      var n := |sets| - 1;
      var before := Appearing(sets[..n]);
      if Functional(sets[n].id) in before then before else before + [Functional(sets[n].id)]
  }

  lemma {:induction false} OnlyAppearing(env: Envelope, sets: seq<TransactionSet>, id: string)
    requires id !in Appearing(sets)
    ensures Of(env, sets, id) == []
  {
    if sets != [] { OnlyAppearing(env, sets[..|sets| - 1], id); }
  }

  function GroupOf(env: Envelope, sets: seq<TransactionSet>, id: string): Group { Group(id, Of(env, sets, id)) }

  lemma GroupOfMore(env: Envelope, sets: seq<TransactionSet>, id: string)
    requires sets != []
    ensures var n := |sets| - 1;
      GroupOf(env, sets, id) == if Functional(sets[n].id) == id then Group(id, Of(env, sets[..n], id) + [Wrapped(env, sets[n], n)]) else GroupOf(env, sets[..n], id)
  {
  }

  ghost predicate Stable(env: Envelope, sets: seq<TransactionSet>, groups: seq<Group>) {
    && |groups| == |Appearing(sets)|
    && (forall k :: 0 <= k < |groups| ==> groups[k] == GroupOf(env, sets, Appearing(sets)[k]))
    && (forall i, j :: 0 <= i < j < |groups| ==> groups[i].id != groups[j].id)
  }

  /** One group per functional identifier, in order of first appearance, holding exactly its sets in their order. */
  lemma {:induction false} GroupingIsStable(env: Envelope, sets: seq<TransactionSet>)
    ensures Stable(env, sets, Grouped(env, sets))
  {
    if sets != [] {
      var n := |sets| - 1;
      GroupingIsStable(env, sets[..n]);
      JoiningIsStable(env, sets);
    }
  }

  lemma JoiningIsStable(env: Envelope, sets: seq<TransactionSet>)
    requires sets != [] && Stable(env, sets[..|sets| - 1], Grouped(env, sets[..|sets| - 1]))
    ensures Stable(env, sets, Grouped(env, sets))
  {
    var n := |sets| - 1;
    var before, ids, id := Grouped(env, sets[..n]), Appearing(sets[..n]), Functional(sets[n].id);
    var i := IndexOf(before, id);
    if i < |before| {
      JoinsExisting(env, sets, i);
    } else {
      forall k | 0 <= k < |ids| ensures ids[k] != id { assert before[k] == GroupOf(env, sets[..n], ids[k]); }
      StartsNew(env, sets);
    }
  }

  lemma JoinsExisting(env: Envelope, sets: seq<TransactionSet>, i: nat)
    requires sets != []
    requires var before := Grouped(env, sets[..|sets| - 1]);
      Stable(env, sets[..|sets| - 1], before) && i < |before| && i == IndexOf(before, Functional(sets[|sets| - 1].id))
    ensures Stable(env, sets, Grouped(env, sets))
  {
    var n := |sets| - 1;
    var before, after, ids := Grouped(env, sets[..n]), Grouped(env, sets), Appearing(sets[..n]);
    assert before[i] == GroupOf(env, sets[..n], ids[i]);
    assert Appearing(sets) == ids;
    forall k | 0 <= k < |after| ensures after[k] == GroupOf(env, sets, ids[k]) {
      assert before[k] == GroupOf(env, sets[..n], ids[k]);
      GroupOfMore(env, sets, ids[k]);
    }
  }

  lemma StartsNew(env: Envelope, sets: seq<TransactionSet>)
    requires sets != [] && Stable(env, sets[..|sets| - 1], Grouped(env, sets[..|sets| - 1]))
    requires Functional(sets[|sets| - 1].id) !in Appearing(sets[..|sets| - 1])
    requires IndexOf(Grouped(env, sets[..|sets| - 1]), Functional(sets[|sets| - 1].id)) == |Grouped(env, sets[..|sets| - 1])|
    ensures Stable(env, sets, Grouped(env, sets))
  {
    var n := |sets| - 1;
    var before, ids, id := Grouped(env, sets[..n]), Appearing(sets[..n]), Functional(sets[n].id);
    NewGroup(env, sets);
    forall k | 0 <= k < |before| ensures before[k] == GroupOf(env, sets, ids[k]) {
      assert before[k] == GroupOf(env, sets[..n], ids[k]) && ids[k] in ids;
      GroupOfMore(env, sets, ids[k]);
    }
    StableWithOneMore(env, sets, before, ids, id);
  }

  lemma NewGroup(env: Envelope, sets: seq<TransactionSet>)
    requires sets != [] && Functional(sets[|sets| - 1].id) !in Appearing(sets[..|sets| - 1])
    ensures var n := |sets| - 1; GroupOf(env, sets, Functional(sets[n].id)) == Group(Functional(sets[n].id), [Wrapped(env, sets[n], n)])
  {
    var n := |sets| - 1;
    OnlyAppearing(env, sets[..n], Functional(sets[n].id));
    GroupOfMore(env, sets, Functional(sets[n].id));
    assert [] + [Wrapped(env, sets[n], n)] == [Wrapped(env, sets[n], n)];
  }

  lemma StableWithOneMore(env: Envelope, sets: seq<TransactionSet>, before: seq<Group>, ids: seq<string>, id: string)
    requires |before| == |ids| && Appearing(sets) == ids + [id] && id !in ids
    requires forall k :: 0 <= k < |before| ==> before[k] == GroupOf(env, sets, ids[k])
    requires forall i, j :: 0 <= i < j < |before| ==> before[i].id != before[j].id
    ensures Stable(env, sets, before + [GroupOf(env, sets, id)])
  {
    forall k | 0 <= k < |before| ensures before[k].id != id { assert ids[k] in ids; }
  }

  // ---------------------------------------------------------------- what the guard does not refuse

  lemma PlainIsNotHeld(p: Profile, el: string)
    requires SoundProfile(p) && forall i :: 0 <= i < |el| ==> IsDigit(el[i]) || 'A' <= el[i] <= 'Z'
    ensures !Holds(el, p)
  {
  }

  /** The IEA, all that is printed after the ISA when there is nothing to send, is never refused. */
  lemma EmptyIsRenderable(env: Envelope)
    requires SoundProfile(env.profile)
    ensures Renderable(env.profile, InterchangeSegments(env, []))
  {
    var p, iea := env.profile, ["IEA", Decimal(0), LastDigits(env.controlNumber, 9)];
    var d := Decimal(0);
    assert InterchangeSegments(env, []) == [Isa(env), iea];
    TrimKeepsHead(iea);
    assert forall i :: 0 <= i < |d| ==> d[i] in d;
    PlainIsNotHeld(p, "IEA");
    PlainIsNotHeld(p, d);
    PlainIsNotHeld(p, LastDigits(env.controlNumber, 9));
    forall i | 0 <= i < |iea| ensures !Holds(iea[i], p) { }
  }

  /** With nothing to send there is no GS, and nothing guards the parties: a separator or terminator where the ISA shows them is printed, and the text does not come back. */
  lemma EmptyInterchangeIsUnguarded(env: Envelope)
    requires SoundProfile(env.profile) && IsoInstant(env.now)
    ensures var segments := InterchangeSegments(env, []);
      var text := Render(env.profile, segments);
      text.Ok? && (ReadsAs(text.value, AllPrinted(segments)) <==> PartiesFit(env) && Unbroken(segments))
  {
    EmptyIsRenderable(env);
    InterchangeRoundTrip(env, []);
    IntactExactlyWhen(env, []);
  }

  /** The input: a separator in the sender's id. */
  lemma SeparatorInTheSenderIsNotRefused(env: Envelope)
    requires SoundProfile(env.profile) && IsoInstant(env.now) && env.senderId == [env.profile.elementSep]
    ensures var segments := InterchangeSegments(env, []);
      Render(env.profile, segments).Ok? && !ReadsAs(Render(env.profile, segments).value, AllPrinted(segments))
  {
    EmptyInterchangeIsUnguarded(env);
    assert PadEnd(env.senderId, 15)[0] == env.profile.elementSep;
  }

  /** The segments of a message of one set with one note. */
  function NoteSets(note: string): seq<TransactionSet> { [TransactionSet(LOAD_TENDER, [["NTE", note]])] }

  lemma NoteGroup(env: Envelope, note: string) returns (g: Group)
    ensures var ctl := SetControl(env, 0); g == Group("SM", [[["ST", "204", ctl], ["NTE", note], ["SE", Decimal(3), ctl]]])
    ensures Grouped(env, NoteSets(note)) == [g]
  {
    var w := Wrapped(env, NoteSets(note)[0], 0);
    assert w == [["ST", "204", SetControl(env, 0)], ["NTE", note], ["SE", Decimal(3), SetControl(env, 0)]];
    assert NoteSets(note)[..0] == [];
    g := Group("SM", [w]);
  }

  lemma OneSetLaidOut(env: Envelope, g: Group, w: seq<Segment>)
    requires g.sets == [w]
    ensures AllGroups(env, [g], 0) == [GsOf(env, g, 1)] + w + [GeOf(env, g, 1)]
  {
    assert [w][1..] == [] && Flatten([w]) == w + Flatten([]) == w;
    assert [g][1..] == [] && AllGroups(env, [g], 0) == GroupSegments(env, g, 1) + AllGroups(env, [], 1) == GroupSegments(env, g, 1);
  }

  lemma NoteSegments(env: Envelope, note: string)
    ensures var ctl := SetControl(env, 0);
      var g := Group("SM", [[["ST", "204", ctl], ["NTE", note], ["SE", Decimal(3), ctl]]]);
      InterchangeSegments(env, NoteSets(note)) ==
        [Isa(env), GsOf(env, g, 1), ["ST", "204", ctl], ["NTE", note], ["SE", Decimal(3), ctl], GeOf(env, g, 1),
         ["IEA", Decimal(1), LastDigits(env.controlNumber, 9)]]
  {
    var g := NoteGroup(env, note);
    OneSetLaidOut(env, g, g.sets[0]);
  }

  predicate Safe(p: Profile, s: Segment) { s != [] && s[|s| - 1] != "" && forall i :: 0 <= i < |s| ==> !Holds(s[i], p) }

  lemma SafeIsNotUnsafe(p: Profile, s: Segment)
    requires Safe(p, s)
    ensures !Unsafe(p, Trim(s))
  {
    TrimKeepsHead(s);
  }

  lemma DecimalIsNotHeld(p: Profile, n: nat)
    requires SoundProfile(p)
    ensures !Holds(Decimal(n), p)
  {
    var d := Decimal(n);
    assert forall i :: 0 <= i < |d| ==> d[i] in d;
    PlainIsNotHeld(p, d);
  }

  lemma NoteGroupIsSafe(env: Envelope, g: Group)
    requires SoundProfile(env.profile) && IsoInstant(env.now) && g.id == "SM"
    requires !Holds(env.senderId, env.profile) && !Holds(env.receiverId, env.profile)
    ensures Safe(env.profile, GsOf(env, g, 1)) && Safe(env.profile, GeOf(env, g, 1))
  {
    var p := env.profile;
    DatePart(env.now);
    TimePart(env.now);
    PlainIsNotHeld(p, "GS");
    PlainIsNotHeld(p, "SM");
    PlainIsNotHeld(p, CCYYMMDD(env.now));
    PlainIsNotHeld(p, HHMM(env.now));
    PlainIsNotHeld(p, "X");
    PlainIsNotHeld(p, VersionText(p.version));
    PlainIsNotHeld(p, "GE");
    DecimalIsNotHeld(p, |g.sets|);
    DecimalIsNotHeld(p, env.controlNumber * 10 + 1);
  }

  lemma NoteIsSafe(env: Envelope, note: string)
    requires SoundProfile(env.profile) && note != "" && !Holds(note, env.profile)
    ensures var p, ctl := env.profile, SetControl(env, 0);
      Safe(p, ["ST", "204", ctl]) && Safe(p, ["NTE", note]) && Safe(p, ["SE", Decimal(3), ctl]) && Safe(p, ["IEA", Decimal(1), LastDigits(env.controlNumber, 9)])
  {
    var p, ctl := env.profile, SetControl(env, 0);
    PlainIsNotHeld(p, "ST");
    PlainIsNotHeld(p, "204");
    PlainIsNotHeld(p, ctl);
    PlainIsNotHeld(p, "NTE");
    PlainIsNotHeld(p, "SE");
    DecimalIsNotHeld(p, 3);
    PlainIsNotHeld(p, "IEA");
    DecimalIsNotHeld(p, 1);
    PlainIsNotHeld(p, LastDigits(env.controlNumber, 9));
  }

  lemma NotesAreRendered(env: Envelope, note: string)
    requires SoundProfile(env.profile) && IsoInstant(env.now) && note != "" && !Holds(note, env.profile)
    requires !Holds(env.senderId, env.profile) && !Holds(env.receiverId, env.profile)
    ensures Renderable(env.profile, InterchangeSegments(env, NoteSets(note)))
  {
    var p, ctl, segments := env.profile, SetControl(env, 0), InterchangeSegments(env, NoteSets(note));
    var g := Group("SM", [[["ST", "204", ctl], ["NTE", note], ["SE", Decimal(3), ctl]]]);
    NoteSegments(env, note);
    NoteGroupIsSafe(env, g);
    NoteIsSafe(env, note);
    forall i | 0 < i < |segments| ensures !Unsafe(p, Trim(segments[i])) {
      assert Safe(p, segments[i]);
      SafeIsNotUnsafe(p, segments[i]);
    }
    assert IsIsa(segments[0]);
  }

  /**
   A line break inside data passes the guard, and is lost: the reader deletes every line break, not only those between
   segments. A note comes back from an interchange exactly when it holds none.
   */
  lemma LineBreaksAreLost(env: Envelope, note: string)
    requires SoundProfile(env.profile) && IsoInstant(env.now) && note != "" && !Holds(note, env.profile)
    requires !Holds(env.senderId, env.profile) && !Holds(env.receiverId, env.profile) && !Lined(env.senderId) && !Lined(env.receiverId)
    ensures var segments := InterchangeSegments(env, NoteSets(note));
      var text := Render(env.profile, segments);
      text.Ok? && (ReadsAs(text.value, AllPrinted(segments)) <==> !Lined(note))
  {
    var segments := InterchangeSegments(env, NoteSets(note));
    NotesAreRendered(env, note);
    ComesBackExactlyWhenUnbroken(env, NoteSets(note));
    NoteSegments(env, note);
    TrimKeepsHead(segments[3]);
    if Unbroken(segments) {
      assert NoLines(Printed(segments[3])) && Printed(segments[3]) == ["NTE", note];
      assert !Lined(["NTE", note][1]);
    }
    if !Lined(note) { NotesAreUnbroken(env, note); }
  }

  lemma NotesAreUnbroken(env: Envelope, note: string)
    requires SoundProfile(env.profile) && IsoInstant(env.now) && !Lined(note) && !Lined(env.senderId) && !Lined(env.receiverId)
    ensures Unbroken(InterchangeSegments(env, NoteSets(note)))
  {
    var segments := InterchangeSegments(env, NoteSets(note));
    NoteSegments(env, note);
    forall i | 0 <= i < |segments| ensures NoLines(Printed(segments[i])) {
      NoteHasNoLines(env, note, i);
      if !IsIsa(segments[i]) { TrimKeepsHead(segments[i]); }
    }
  }

  lemma DigitsAreNotLined(s: string)
    requires AllDigits(s)
    ensures !Lined(s)
  {
  }

  lemma IsaHasNoLines(env: Envelope)
    requires SoundProfile(env.profile) && IsoInstant(env.now) && !Lined(env.senderId) && !Lined(env.receiverId)
    ensures NoLines(Isa(env))
  {
    DatePart(env.now);
    TimePart(env.now);
    PadShows(env.senderId, '\n');
    PadShows(env.receiverId, '\n');
    DigitsAreNotLined(YYMMDD(env.now));
    DigitsAreNotLined(HHMM(env.now));
  }

  lemma DecimalIsNotLined(n: nat)
    ensures !Lined(Decimal(n))
  {
    assert forall c :: c in Decimal(n) ==> IsDigit(c);
  }

  lemma GroupHasNoLines(env: Envelope, g: Group)
    requires IsoInstant(env.now) && !Lined(env.senderId) && !Lined(env.receiverId) && !Lined(g.id)
    ensures NoLines(GsOf(env, g, 1)) && NoLines(GeOf(env, g, 1))
  {
    DatePart(env.now);
    TimePart(env.now);
    DigitsAreNotLined(CCYYMMDD(env.now));
    DigitsAreNotLined(HHMM(env.now));
    DecimalIsNotLined(|g.sets|);
    DecimalIsNotLined(env.controlNumber * 10 + 1);
  }

  lemma NoteHasNoLines(env: Envelope, note: string, i: nat)
    requires SoundProfile(env.profile) && IsoInstant(env.now) && !Lined(note) && !Lined(env.senderId) && !Lined(env.receiverId)
    requires i < |InterchangeSegments(env, NoteSets(note))|
    ensures NoLines(InterchangeSegments(env, NoteSets(note))[i])
  {
    var ctl := SetControl(env, 0);
    var g := Group("SM", [[["ST", "204", ctl], ["NTE", note], ["SE", Decimal(3), ctl]]]);
    NoteSegments(env, note);
    IsaHasNoLines(env);
    GroupHasNoLines(env, g);
    DecimalIsNotLined(3);
    DecimalIsNotLined(1);
    DigitsAreNotLined(ctl);
    DigitsAreNotLined(LastDigits(env.controlNumber, 9));
  }
}
