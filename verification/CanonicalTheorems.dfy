/**
 The canonical text is unambiguous: a reader recovers the logical object from it, in front of anything
 that may follow a value, and every value of the same logical object has the same text.
 */
module CanonicalTheorems {
  import opened Wrappers
  import opened Canonical

  /** The logical object: what two parties must agree on. A member that is undefined is not there; an undefined element is null. */
  datatype Plain =
    | PNull | PBool(b: bool) | PNum(numeral: Text) | PStr(units: Text)
    | PArr(items: seq<Plain>) | PObj(members: map<Text, Plain>)

  function Meaning(v: Value): Plain {
    match v
    case Null => PNull
    case Undefined => PNull
    case Hole => PNull
    case Unsupported => PNull
    case NonFinite => PNull
    case Bool(b) => PBool(b)
    case Num(n) => PNum(n)
    case Str(s) => PStr(s)
    case Arr(items) => PArr(ItemMeanings(items))
    case Obj(members) => PObj(MemberMeanings(members))
  }

  function ItemMeanings(items: seq<Value>): seq<Plain> {
    if items == [] then [] else [Meaning(items[0])] + ItemMeanings(items[1..])
  }

  function MemberMeanings(members: seq<Member>): map<Text, Plain> {
    if members == [] then map[]
    else
      var rest := MemberMeanings(members[1..]);
      if Absent(members[0].value) then rest else rest[members[0].key := Meaning(members[0].value)]
  }

  predicate NumeralUnit(u: int) { 48 <= u <= 57 || u == 45 || u == 43 || u == 46 || u == 101 }

  predicate Numeral(n: Text) { n != [] && (n[0] == 45 || 48 <= n[0] <= 57) && forall i :: 0 <= i < |n| ==> NumeralUnit(n[i]) }

  predicate HasKey(ms: seq<Member>, k: Text) { exists i :: 0 <= i < |ms| && ms[i].key == k }

  /** What every JavaScript value is: objects have one member per key, numbers print as numerals. */
  predicate Proper(v: Value) {
    match v
    case Num(n) => Numeral(n)
    case Arr(items) => ProperItems(items)
    case Obj(members) => ProperMembers(members)
    case _ => true
  }

  predicate ProperItems(items: seq<Value>) { items == [] || (Proper(items[0]) && ProperItems(items[1..])) }

  predicate ProperMembers(ms: seq<Member>) {
    ms == [] || (Proper(ms[0].value) && !HasKey(ms[1..], ms[0].key) && ProperMembers(ms[1..]))
  }

  /** Some array of the value, at any depth, has an index it does not define. */
  predicate Holed(v: Value) {
    match v
    case Arr(items) => HoledItems(items)
    case Obj(members) => HoledMembers(members)
    case _ => false
  }

  predicate HoledItems(items: seq<Value>) { items != [] && (items[0].Hole? || Holed(items[0]) || HoledItems(items[1..])) }

  predicate HoledMembers(ms: seq<Member>) { ms != [] && (Holed(ms[0].value) || HoledMembers(ms[1..])) }

  // ---------------------------------------------------------------- a reader

  function HexValue(c: int): Option<int> {
    if 48 <= c <= 57 then Some(c - 48) else if 97 <= c <= 102 then Some(c - 87) else None
  }

  function ShortEscape(c: int): Option<int> {
    if c == QUOTE || c == BACKSLASH then Some(c)
    else if c == 98 then Some(8)
    else if c == 116 then Some(9)
    else if c == 110 then Some(10)
    else if c == 102 then Some(12)
    else if c == 114 then Some(13)
    else None
  }

  /** One code unit of a string and how much text it took. */
  function ReadUnit(t: Text): (r: Option<(int, nat)>)
    requires t != []
    ensures r.Some? ==> 0 < r.value.1 <= |t|
  {
    if t[0] != BACKSLASH then Some((t[0], 1))
    else if |t| < 2 then None
    else if ShortEscape(t[1]).Some? then Some((ShortEscape(t[1]).value, 2))
    else if t[1] != 117 || |t| < 6 then None
    else
      var a, b, c, d := HexValue(t[2]), HexValue(t[3]), HexValue(t[4]), HexValue(t[5]);
      if a.None? || b.None? || c.None? || d.None? then None
      else Some((((a.value * 16 + b.value) * 16 + c.value) * 16 + d.value, 6))
  }

  function ReadString(t: Text): (r: Option<(Text, Text)>)
    ensures r.Some? ==> |r.value.1| < |t|
    decreases |t|
  {
    if t == [] then None
    else if t[0] == QUOTE then Some(([], t[1..]))
    else
      var u := ReadUnit(t);
      if u.None? then None
      else
        var more := ReadString(t[u.value.1..]);
        if more.None? then None else Some(([u.value.0] + more.value.0, more.value.1))
  }

  function NumeralLength(t: Text): (n: nat)
    ensures n <= |t|
  {
    if t == [] || !NumeralUnit(t[0]) then 0 else 1 + NumeralLength(t[1..])
  }

  function ReadValue(t: Text): (r: Option<(Plain, Text)>)
    ensures r.Some? ==> |r.value.1| < |t|
    decreases |t|, 0
  {
    if t == [] then None
    else if t[0] == QUOTE then
      var s := ReadString(t[1..]);
      if s.None? then None else Some((PStr(s.value.0), s.value.1))
    else if NULL <= t then Some((PNull, t[4..]))
    else if TRUE <= t then Some((PBool(true), t[4..]))
    else if FALSE <= t then Some((PBool(false), t[5..]))
    else if t[0] == OPEN_BRACKET then
      if |t| > 1 && t[1] == CLOSE_BRACKET then Some((PArr([]), t[2..]))
      else
        var r := ReadItems(t[1..]);
        if r.None? then None else Some((PArr(r.value.0), r.value.1))
    else if t[0] == OPEN_BRACE then
      if |t| > 1 && t[1] == CLOSE_BRACE then Some((PObj(map[]), t[2..]))
      else
        var r := ReadMembers(t[1..]);
        if r.None? then None else Some((PObj(r.value.0), r.value.1))
    else
      var n := NumeralLength(t);
      if n == 0 then None else Some((PNum(t[..n]), t[n..]))
  }

  function ReadItems(t: Text): (r: Option<(seq<Plain>, Text)>)
    ensures r.Some? ==> |r.value.1| < |t|
    decreases |t|, 1
  {
    var v := ReadValue(t);
    if v.None? || v.value.1 == [] then None
    else
      var (p, rest) := v.value;
      if rest[0] == CLOSE_BRACKET then Some(([p], rest[1..]))
      else if rest[0] != COMMA then None
      else
        var more := ReadItems(rest[1..]);
        if more.None? then None else Some(([p] + more.value.0, more.value.1))
  }

  /** One `"key":value` and what follows it. */
  function ReadMember(t: Text): (r: Option<(Text, Plain, Text)>)
    ensures r.Some? ==> |r.value.2| < |t|
    decreases |t|, 1
  {
    if t == [] || t[0] != QUOTE then None
    else
      var k := ReadString(t[1..]);
      if k.None? || k.value.1 == [] || k.value.1[0] != COLON then None
      else
        var v := ReadValue(k.value.1[1..]);
        if v.None? then None else Some((k.value.0, v.value.0, v.value.1))
  }

  function ReadMembers(t: Text): (r: Option<(map<Text, Plain>, Text)>)
    ensures r.Some? ==> |r.value.1| < |t|
    decreases |t|, 2
  {
    var m := ReadMember(t);
    if m.None? || m.value.2 == [] then None
    else
      var (k, p, rest) := m.value;
      if rest[0] == CLOSE_BRACE then Some((map[k := p], rest[1..]))
      else if rest[0] != COMMA then None
      else
        var more := ReadMembers(rest[1..]);
        if more.None? then None else Some((more.value.0[k := p], more.value.1))
  }

  // ---------------------------------------------------------------- reading back strings and numerals

  lemma HexSplits(u: int)
    requires 0 <= u < 0x10000
    ensures (((u / 4096 % 16) * 16 + u / 256 % 16) * 16 + u / 16 % 16) * 16 + u % 16 == u
  {
    assert u / 16 / 16 == u / 256 && u / 256 / 16 == u / 4096 && u / 4096 < 16;
  }

  lemma HexReadsBack(u: int, rest: Text)
    requires 0 <= u < 0x10000
    ensures ReadUnit(HexEscape(u) + rest) == Some((u, 6))
  {
    HexSplits(u);
    var t := HexEscape(u) + rest;
    assert t[2] == HexDigit(u / 4096 % 16) && t[3] == HexDigit(u / 256 % 16) && t[4] == HexDigit(u / 16 % 16) && t[5] == HexDigit(u % 16);
  }

  lemma UnitReadsBack(u: int, rest: Text)
    ensures EscapeUnit(u)[0] != QUOTE
    ensures ReadUnit(EscapeUnit(u) + rest) == Some((u, |EscapeUnit(u)|))
  {
    if EscapeUnit(u) == HexEscape(u) { HexReadsBack(u, rest); }
  }

  lemma OneUnitMore(one: Text, u: int, t: Text, s: Text, rest: Text)
    requires one != [] && one[0] != QUOTE && ReadUnit(one + t) == Some((u, |one|))
    requires ReadString(t) == Some((s, rest))
    ensures ReadString(one + t) == Some(([u] + s, rest))
  {
    assert (one + t)[|one|..] == t && (one + t)[0] == one[0];
  }

  /** The text of a string up to and with its closing quote, and what follows. */
  function Closed(s: Text, rest: Text): Text { Escape(s) + ([QUOTE] + rest) }

  lemma PairReadsBack(s: Text, rest: Text)
    requires Paired(s) && ReadString(Closed(s[2..], rest)) == Some((s[2..], rest))
    ensures ReadString(Closed(s, rest)) == Some((s, rest))
  {
    var t := Closed(s[2..], rest);
    OneUnitMore([s[1]], s[1], t, s[2..], rest);
    OneUnitMore([s[0]], s[0], [s[1]] + t, [s[1]] + s[2..], rest);
    assert Closed(s, rest) == [s[0]] + ([s[1]] + t);
    assert s == [s[0]] + ([s[1]] + s[2..]);
  }

  lemma ClosedSplits(s: Text, rest: Text)
    requires s != [] && !Paired(s)
    ensures Closed(s, rest) == EscapeUnit(s[0]) + Closed(s[1..], rest)
  {
    var one := EscapeUnit(s[0]);
    assert (one + Escape(s[1..])) + ([QUOTE] + rest) == one + (Escape(s[1..]) + ([QUOTE] + rest));
  }

  lemma SingleReadsBack(s: Text, rest: Text)
    requires s != [] && !Paired(s) && ReadString(Closed(s[1..], rest)) == Some((s[1..], rest))
    ensures ReadString(Closed(s, rest)) == Some((s, rest))
  {
    var t := Closed(s[1..], rest);
    ClosedSplits(s, rest);
    UnitReadsBack(s[0], t);
    OneUnitMore(EscapeUnit(s[0]), s[0], t, s[1..], rest);
    assert s == [s[0]] + s[1..];
  }

  lemma {:induction false} StringReadsBack(s: Text, rest: Text)
    ensures ReadString(Closed(s, rest)) == Some((s, rest))
    decreases |s|
  {
    if s == [] {
      var t := [QUOTE] + rest;
      assert Closed(s, rest) == t && t[1..] == rest;
    } else if Paired(s) {
      StringReadsBack(s[2..], rest);
      PairReadsBack(s, rest);
    } else {
      StringReadsBack(s[1..], rest);
      SingleReadsBack(s, rest);
    }
  }

  /** What may follow a value inside a text, or nothing. */
  predicate Delimits(rest: Text) { rest == [] || rest[0] == COMMA || rest[0] == CLOSE_BRACKET || rest[0] == CLOSE_BRACE }

  lemma {:induction false} NumeralReadsBack(n: Text, rest: Text)
    requires Delimits(rest) && forall i :: 0 <= i < |n| ==> NumeralUnit(n[i])
    ensures NumeralLength(n + rest) == |n|
  {
    if n == [] {
      assert n + rest == rest;
    } else {
      NumeralReadsBack(n[1..], rest);
      assert (n + rest)[0] == n[0] && (n + rest)[1..] == n[1..] + rest;
    }
  }

  // ---------------------------------------------------------------- reading back values

  /** The outcome of reading: the meaning and what follows, or, if the text is not whole, anything but that. */
  ghost predicate Outcome<T(!new)>(r: Option<(T, Text)>, p: T, rest: Text, whole: bool) {
    if whole then r == Some((p, rest)) else r.None? || (r.value.1 == rest && r.value.0 != p)
  }

  /** In front of anything that may follow a value, this text reads as `p`. */
  ghost predicate ReadsAs(text: Text, p: Plain, whole: bool) {
    forall rest :: Delimits(rest) ==> Outcome(ReadValue(text + rest), p, rest, whole)
  }

  /** No value's text starts like the end of a list, and the text of a list's only hole is empty. */
  lemma {:induction false} StartsAValue(v: Value)
    requires Canonicalize(v).Ok? && Proper(v)
    ensures var t := Canonicalize(v).value; t != [] && t[0] != CLOSE_BRACKET && t[0] != COMMA && t[0] != CLOSE_BRACE
  {
  }

  lemma {:induction false} GatherAll(rs: seq<Result<Text, Refusal>>)
    ensures Gather(rs).Ok? <==> forall i :: 0 <= i < |rs| ==> rs[i].Ok?
    ensures Gather(rs).Ok? ==> |Gather(rs).value| == |rs| && forall i :: 0 <= i < |rs| ==> Gather(rs).value[i] == rs[i].value
  {
    if rs != [] { GatherAll(rs[1..]); }
  }

  lemma NumReadsBack(n: Text, rest: Text)
    requires Numeral(n) && Delimits(rest)
    ensures ReadValue(n + rest) == Some((PNum(n), rest))
  {
    var t := n + rest;
    NumeralReadsBack(n, rest);
    assert t[0] == n[0] && t[..|n|] == n && t[|n|..] == rest;
  }

  lemma SimpleReadsBack(v: Value, rest: Text)
    requires Canonicalize(v).Ok? && Proper(v) && Delimits(rest) && !v.Arr? && !v.Obj?
    ensures ReadValue(Canonicalize(v).value + rest) == Some((Meaning(v), rest))
  {
    match v {
      case Null => NullReadsBack(rest);
      case Bool(b) => WordsReadBack(b, rest);
      case Num(n) => NumReadsBack(n, rest);
      case Str(s) => StrReadsBack(s, rest);
    }
  }

  lemma NullReadsBack(rest: Text)
    ensures ReadValue(NULL + rest) == Some((PNull, rest))
  {
    assert (NULL + rest)[0] == NULL[0] && (NULL + rest)[4..] == rest;
  }

  lemma StrReadsBack(s: Text, rest: Text)
    ensures ReadValue(Quoted(s) + rest) == Some((PStr(s), rest))
  {
    StringReadsBack(s, rest);
    var t := [QUOTE] + Closed(s, rest);
    assert Quoted(s) + rest == t;
    assert t[0] == QUOTE && t[1..] == Closed(s, rest);
  }

  lemma WordsReadBack(b: bool, rest: Text)
    ensures ReadValue((if b then TRUE else FALSE) + rest) == Some((PBool(b), rest))
  {
    var t := (if b then TRUE else FALSE) + rest;
    assert t[0] == if b then TRUE[0] else FALSE[0];
    assert t[|if b then TRUE else FALSE|..] == rest;
  }

  // ---------------------------------------------------------------- lists of values

  lemma ItemsLast(part: Text, p: Plain, whole: bool, rest: Text)
    requires ReadsAs(part, p, whole)
    ensures Outcome(ReadItems(part + ([CLOSE_BRACKET] + rest)), [p], rest, whole)
  {
    var tail := [CLOSE_BRACKET] + rest;
    assert Outcome(ReadValue(part + tail), p, tail, whole);
    assert tail[1..] == rest;
    var v := ReadValue(part + tail);
    if v.Some? { assert [v.value.0][0] == v.value.0 && [p][0] == p; }
  }

  lemma ItemsMore(part: Text, p: Plain, whole: bool, tail: Text, ps: seq<Plain>, wholeTail: bool, rest: Text)
    requires ReadsAs(part, p, whole) && Outcome(ReadItems(tail), ps, rest, wholeTail)
    ensures Outcome(ReadItems(part + ([COMMA] + tail)), [p] + ps, rest, whole && wholeTail)
  {
    var t := [COMMA] + tail;
    assert Outcome(ReadValue(part + t), p, t, whole);
    assert t[1..] == tail;
    var v, more := ReadValue(part + t), ReadItems(tail);
    if v.Some? && more.Some? {
      var got := [v.value.0] + more.value.0;
      assert got[0] == v.value.0 && got[1..] == more.value.0 && ([p] + ps)[0] == p && ([p] + ps)[1..] == ps;
    }
  }

  function Listed(parts: seq<Text>, close: int, rest: Text): Text { Join(parts) + ([close] + rest) }

  lemma ListedSplits(parts: seq<Text>, close: int, rest: Text)
    requires parts != []
    ensures |parts| == 1 ==> Listed(parts, close, rest) == parts[0] + ([close] + rest)
    ensures |parts| > 1 ==> Listed(parts, close, rest) == parts[0] + ([COMMA] + Listed(parts[1..], close, rest))
  {
    if |parts| > 1 {
      assert (parts[0] + [COMMA] + Join(parts[1..])) + ([close] + rest) == parts[0] + ([COMMA] + (Join(parts[1..]) + ([close] + rest)));
    }
  }

  lemma GatheredItems(items: seq<Value>)
    requires items != [] && Gather(RenderItems(items)).Ok?
    ensures RenderItem(items[0]).Ok? && Gather(RenderItems(items[1..])).Ok?
    ensures Gather(RenderItems(items)).value == [RenderItem(items[0]).value] + Gather(RenderItems(items[1..])).value
    ensures |Gather(RenderItems(items)).value| == |items|
    decreases |items|
  {
    assert RenderItems(items)[1..] == RenderItems(items[1..]);
    if |items| > 1 { GatheredItems(items[1..]); } else { assert items[1..] == []; }
  }

  lemma {:induction false} ItemsReadBack(items: seq<Value>, rest: Text)
    requires items != [] && ProperItems(items) && Gather(RenderItems(items)).Ok?
    ensures Outcome(ReadItems(Listed(Gather(RenderItems(items)).value, CLOSE_BRACKET, rest)), ItemMeanings(items), rest, !HoledItems(items))
    decreases items, 1
  {
    var parts := Gather(RenderItems(items)).value;
    var p, whole := Meaning(items[0]), !(items[0].Hole? || Holed(items[0]));
    ItemReadsBack(items[0]);
    ListedSplits(parts, CLOSE_BRACKET, rest);
    GatheredItems(items);
    if |items| == 1 {
      ItemsLast(parts[0], p, whole, rest);
      assert items[1..] == [] && !HoledItems(items[1..]) && ItemMeanings(items) == [p];
    } else {
      ItemsReadBack(items[1..], rest);
      ItemsMore(parts[0], p, whole, Listed(parts[1..], CLOSE_BRACKET, rest), ItemMeanings(items[1..]), !HoledItems(items[1..]), rest);
    }
  }

  lemma {:induction false} ItemReadsBack(x: Value)
    requires Proper(x) && RenderItem(x).Ok?
    ensures ReadsAs(RenderItem(x).value, Meaning(x), !(x.Hole? || Holed(x)))
    decreases x, 1
  {
    if x.Undefined? {
      forall rest | Delimits(rest) ensures Outcome(ReadValue(NULL + rest), PNull, rest, true) { SimpleReadsBack(Null, rest); }
    } else if x.Hole? {
      forall rest | Delimits(rest) ensures ReadValue([] + rest).None? { assert [] + rest == rest; }
    } else {
      ReadsBack(x);
    }
  }

  // ---------------------------------------------------------------- members

  predicate DistinctKeys(rs: seq<Rendered>) { forall i, j :: 0 <= i < j < |rs| ==> rs[i].key != rs[j].key }

  function KeysOf(rs: seq<Rendered>): set<Text> { set r | r in rs :: r.key }

  function Only(m: map<Text, Plain>, keys: set<Text>): map<Text, Plain>
    requires keys <= m.Keys
  {
    map k | k in keys :: m[k]
  }

  /** The rendered text reads as what the member means, unless its key is among the bad ones. */
  ghost predicate Reads(r: Rendered, m: map<Text, Plain>, bad: set<Text>) {
    r.out.Ok? && r.key in m && ReadsAs(r.out.value, m[r.key], r.key !in bad)
  }

  lemma MemberTextSplits(r: Rendered, rest: Text)
    requires r.out.Ok?
    ensures MemberText(r).value + rest == [QUOTE] + Closed(r.key, [COLON] + (r.out.value + rest))
  {
    var k, v := Escape(r.key), r.out.value;
    assert (([QUOTE] + k + [QUOTE]) + [COLON] + v) + rest == [QUOTE] + (k + ([QUOTE] + ([COLON] + (v + rest))));
  }

  lemma MemberReadsBack(r: Rendered, m: map<Text, Plain>, bad: set<Text>, rest: Text)
    requires Reads(r, m, bad) && Delimits(rest)
    ensures var got := ReadMember(MemberText(r).value + rest);
      && (r.key !in bad ==> got == Some((r.key, m[r.key], rest)))
      && (r.key in bad ==> got.None? || (got.value.0 == r.key && got.value.2 == rest && got.value.1 != m[r.key]))
  {
    var value := r.out.value + rest;
    var after := [COLON] + value;
    StringReadsBack(r.key, after);
    MemberTextSplits(r, rest);
    var t := [QUOTE] + Closed(r.key, after);
    assert t[0] == QUOTE && t[1..] == Closed(r.key, after) && after[1..] == value;
    assert Outcome(ReadValue(r.out.value + rest), m[r.key], rest, r.key !in bad);
  }

  ghost predicate MembersOutcome(got: Option<(map<Text, Plain>, Text)>, m: map<Text, Plain>, keys: set<Text>, bad: set<Text>, rest: Text)
    requires keys <= m.Keys
  {
    && Outcome(got, Only(m, keys), rest, keys !! bad)
    && (got.Some? ==> got.value.0.Keys == keys)
  }

  lemma MembersLast(r: Rendered, m: map<Text, Plain>, bad: set<Text>, rest: Text)
    requires Reads(r, m, bad)
    ensures MembersOutcome(ReadMembers(MemberText(r).value + ([CLOSE_BRACE] + rest)), m, {r.key}, bad, rest)
  {
    var tail := [CLOSE_BRACE] + rest;
    MemberReadsBack(r, m, bad, tail);
    assert tail[1..] == rest;
    assert Only(m, {r.key}) == map[r.key := m[r.key]];
    var got := ReadMember(MemberText(r).value + tail);
    if got.Some? && got.value.1 != m[r.key] { assert map[r.key := got.value.1][r.key] != Only(m, {r.key})[r.key]; }
  }

  lemma MembersMore(r: Rendered, m: map<Text, Plain>, bad: set<Text>, tail: Text, keys: set<Text>, rest: Text)
    requires Reads(r, m, bad) && keys <= m.Keys && r.key !in keys
    requires MembersOutcome(ReadMembers(tail), m, keys, bad, rest)
    ensures MembersOutcome(ReadMembers(MemberText(r).value + ([COMMA] + tail)), m, keys + {r.key}, bad, rest)
  {
    var t := [COMMA] + tail;
    MemberReadsBack(r, m, bad, t);
    assert t[1..] == tail;
    var one, more := ReadMember(MemberText(r).value + t), ReadMembers(tail);
    if one.Some? && more.Some? {
      var got := more.value.0[r.key := one.value.1];
      var want := Only(m, keys + {r.key});
      assert want == Only(m, keys)[r.key := m[r.key]];
      if one.value.1 != m[r.key] {
        assert got[r.key] != want[r.key];
      } else if more.value.0 != Only(m, keys) {
        DifferenceStays(more.value.0, Only(m, keys), r.key, m[r.key]);
      }
    }
  }

  lemma DifferenceStays(a: map<Text, Plain>, b: map<Text, Plain>, k: Text, p: Plain)
    requires a.Keys == b.Keys && a != b && k !in a
    ensures a[k := p] != b[k := p]
  {
    var d :| d in a && a[d] != b[d];
    assert a[k := p][d] != b[k := p][d];
  }

  lemma {:induction false} MembersReadBack(rs: seq<Rendered>, m: map<Text, Plain>, bad: set<Text>, rest: Text)
    requires rs != [] && DistinctKeys(rs) && forall r :: r in rs ==> Reads(r, m, bad)
    requires KeysOf(rs) <= m.Keys
    ensures Gather(MemberTexts(rs)).Ok?
    ensures MembersOutcome(ReadMembers(Listed(Gather(MemberTexts(rs)).value, CLOSE_BRACE, rest)), m, KeysOf(rs), bad, rest)
  {
    var r := rs[0];
    assert r in rs;
    if |rs| == 1 {
      assert rs[1..] == [] && Gather(MemberTexts(rs[1..])).value == [];
      assert Gather(MemberTexts(rs)).value == [MemberText(r).value];
      ListedSplits([MemberText(r).value], CLOSE_BRACE, rest);
      MembersLast(r, m, bad, rest);
      assert KeysOf(rs) == {r.key};
    } else {
      assert KeysOf(rs) == KeysOf(rs[1..]) + {r.key} by { assert rs == [r] + rs[1..]; }
      MembersReadBack(rs[1..], m, bad, rest);
      var parts := Gather(MemberTexts(rs)).value;
      assert parts[0] == MemberText(r).value && parts[1..] == Gather(MemberTexts(rs[1..])).value;
      ListedSplits(parts, CLOSE_BRACE, rest);
      MembersMore(r, m, bad, Listed(parts[1..], CLOSE_BRACE, rest), KeysOf(rs[1..]), rest);
    }
  }

  // ---------------------------------------------------------------- sorting members by key

  lemma {:induction false} BeforeIrreflexive(a: Text)
    ensures !Before(a, a)
  {
    if a != [] { BeforeIrreflexive(a[1..]); }
  }

  lemma {:induction false} BeforeTransitive(a: Text, b: Text, c: Text)
    requires Before(a, b) && Before(b, c)
    ensures Before(a, c)
  {
    if a != [] && a[0] == b[0] && b[0] == c[0] { BeforeTransitive(a[1..], b[1..], c[1..]); }
  }

  lemma {:induction false} BeforeTotal(a: Text, b: Text)
    ensures a == b || Before(a, b) || Before(b, a)
  {
    if a != [] && b != [] && a[0] == b[0] {
      BeforeTotal(a[1..], b[1..]);
      assert a == [a[0]] + a[1..] && b == [b[0]] + b[1..];
    }
  }

  ghost predicate Increasing(rs: seq<Rendered>) { forall i, j :: 0 <= i < j < |rs| ==> Before(rs[i].key, rs[j].key) }

  lemma {:induction false} InsertKeeps(r: Rendered, rs: seq<Rendered>)
    requires Increasing(rs) && r.key !in KeysOf(rs)
    ensures Increasing(Insert(r, rs))
    ensures forall q :: q in Insert(r, rs) <==> q == r || q in rs
  {
    if rs != [] {
      assert rs[0] in rs;
      BeforeTotal(r.key, rs[0].key);
      if Before(rs[0].key, r.key) {
        assert KeysOf(rs[1..]) <= KeysOf(rs);
        InsertKeeps(r, rs[1..]);
        var tail := Insert(r, rs[1..]);
        forall j | 0 <= j < |tail| ensures Before(rs[0].key, tail[j].key) {
          assert tail[j] in tail;
          if tail[j] != r { var k :| 0 <= k < |rs[1..]| && rs[1..][k] == tail[j]; assert rs[k + 1] == tail[j]; }
        }
        assert rs == [rs[0]] + rs[1..];
      } else {
        forall j | 0 <= j < |rs| ensures Before(r.key, rs[j].key) {
          if j > 0 { BeforeTransitive(r.key, rs[0].key, rs[j].key); }
        }
      }
    }
  }

  lemma {:induction false} SortKeeps(rs: seq<Rendered>)
    requires DistinctKeys(rs)
    ensures Increasing(SortByKey(rs)) && DistinctKeys(SortByKey(rs))
    ensures forall q :: q in SortByKey(rs) <==> q in rs
    ensures KeysOf(SortByKey(rs)) == KeysOf(rs)
  {
    if rs != [] {
      SortKeeps(rs[1..]);
      assert rs[0].key !in KeysOf(rs[1..]);
      InsertKeeps(rs[0], SortByKey(rs[1..]));
      assert rs == [rs[0]] + rs[1..];
    }
    IncreasingIsDistinct(SortByKey(rs));
  }

  lemma IncreasingIsDistinct(rs: seq<Rendered>)
    requires Increasing(rs)
    ensures DistinctKeys(rs)
  {
    forall i, j | 0 <= i < j < |rs| ensures rs[i].key != rs[j].key { BeforeIrreflexive(rs[i].key); }
  }

  /** One set of members has one increasing arrangement. */
  lemma {:induction false} IncreasingIsUnique(a: seq<Rendered>, b: seq<Rendered>)
    requires Increasing(a) && Increasing(b) && forall q :: q in a <==> q in b
    ensures a == b
  {
    SameEmptiness(a, b);
    if a != [] {
      FirstIsLeast(a, b);
      var h := a[0];
      forall q ensures q in a[1..] <==> q in b[1..] {
        BeforeIrreflexive(h.key);
        assert q in a <==> q == h || q in a[1..];
        assert q in b <==> q == h || q in b[1..];
        assert h !in a[1..] && h !in b[1..];
      }
      IncreasingIsUnique(a[1..], b[1..]);
      assert a == [h] + a[1..] && b == [h] + b[1..];
    }
  }

  lemma SameEmptiness(a: seq<Rendered>, b: seq<Rendered>)
    requires forall q :: q in a <==> q in b
    ensures a == [] <==> b == []
  {
    if a != [] { assert a[0] in b; }
    if b != [] { assert b[0] in a; }
  }

  lemma FirstIsLeast(a: seq<Rendered>, b: seq<Rendered>)
    requires Increasing(a) && Increasing(b) && a != [] && b != [] && forall q :: q in a <==> q in b
    ensures a[0] == b[0]
  {
    assert a[0] in b && b[0] in a;
    var i :| 0 <= i < |b| && b[i] == a[0];
    var j :| 0 <= j < |a| && a[j] == b[0];
    if i > 0 && j > 0 {
      BeforeTransitive(a[0].key, b[0].key, a[0].key);
      BeforeIrreflexive(a[0].key);
    }
  }

  // ---------------------------------------------------------------- objects

  function HoledKeys(ms: seq<Member>): set<Text> {
    if ms == [] then {} else (if Holed(ms[0].value) then {ms[0].key} else {}) + HoledKeys(ms[1..])
  }

  lemma {:induction false} HoledKeysAmong(ms: seq<Member>)
    ensures HoledKeys(ms) <= MemberMeanings(ms).Keys
    ensures HoledMembers(ms) <==> HoledKeys(ms) != {}
    ensures forall k :: k in MemberMeanings(ms) ==> HasKey(ms, k)
  {
    if ms != [] {
      HoledKeysAmong(ms[1..]);
      assert ms == [ms[0]] + ms[1..];
      forall k | k in MemberMeanings(ms) ensures HasKey(ms, k) {
        if k in MemberMeanings(ms[1..]) {
          var i :| 0 <= i < |ms[1..]| && ms[1..][i].key == k;
          assert ms[i + 1].key == k;
        } else {
          assert ms[0].key == k;
        }
      }
    }
  }

  lemma KeysOfMore(r: Rendered, more: seq<Rendered>)
    requires DistinctKeys(more) && r.key !in KeysOf(more)
    ensures DistinctKeys([r] + more) && KeysOf([r] + more) == {r.key} + KeysOf(more)
  {
    assert forall j :: 0 <= j < |more| ==> more[j] in more && more[j].key in KeysOf(more);
  }

  lemma {:induction false} RenderedMembers(ms: seq<Member>)
    requires ProperMembers(ms)
    ensures DistinctKeys(RenderMembers(ms))
    ensures KeysOf(RenderMembers(ms)) == MemberMeanings(ms).Keys
  {
    if ms != [] {
      RenderedMembers(ms[1..]);
      HoledKeysAmong(ms[1..]);
      var more := RenderMembers(ms[1..]);
      if Absent(ms[0].value) {
        assert RenderMembers(ms) == more;
      } else {
        assert ms[0].key !in MemberMeanings(ms[1..]);
        KeysOfMore(Rendered(ms[0].key, Canonicalize(ms[0].value)), more);
      }
    }
  }

  lemma {:induction false} MembersRead(ms: seq<Member>)
    requires ProperMembers(ms)
    ensures forall r :: r in RenderMembers(ms) && r.out.Ok? ==> Reads(r, MemberMeanings(ms), HoledKeys(ms))
    decreases ms, 1
  {
    if ms != [] {
      MembersRead(ms[1..]);
      RenderedMembers(ms[1..]);
      HoledKeysAmong(ms[1..]);
      var m, bad := MemberMeanings(ms), HoledKeys(ms);
      if !Absent(ms[0].value) && Canonicalize(ms[0].value).Ok? { ReadsBack(ms[0].value); }
      forall r | r in RenderMembers(ms) && r.out.Ok? ensures Reads(r, m, bad) {
        if r in RenderMembers(ms[1..]) {
          assert r.key in KeysOf(RenderMembers(ms[1..]));
          assert Reads(r, MemberMeanings(ms[1..]), HoledKeys(ms[1..]));
          assert r.key != ms[0].key;
        } else {
          assert r == Rendered(ms[0].key, Canonicalize(ms[0].value));
          assert ms[0].key !in HoledKeys(ms[1..]);
        }
      }
    }
  }

  lemma SortedMembersRead(ms: seq<Member>)
    requires ProperMembers(ms) && Canonicalize(Obj(ms)).Ok?
    requires forall r :: r in RenderMembers(ms) && r.out.Ok? ==> Reads(r, MemberMeanings(ms), HoledKeys(ms))
    ensures var rs := SortByKey(RenderMembers(ms));
      DistinctKeys(rs) && KeysOf(rs) == MemberMeanings(ms).Keys && forall r :: r in rs ==> Reads(r, MemberMeanings(ms), HoledKeys(ms))
  {
    RenderedMembers(ms);
    SortKeeps(RenderMembers(ms));
    GatheredMembers(SortByKey(RenderMembers(ms)));
  }

  lemma ObjectReadsBack(ms: seq<Member>, rest: Text)
    requires ProperMembers(ms) && Canonicalize(Obj(ms)).Ok?
    requires forall r :: r in RenderMembers(ms) && r.out.Ok? ==> Reads(r, MemberMeanings(ms), HoledKeys(ms))
    ensures Outcome(ReadValue(Canonicalize(Obj(ms)).value + rest), PObj(MemberMeanings(ms)), rest, !HoledMembers(ms))
  {
    var rs := SortByKey(RenderMembers(ms));
    SortedMembersRead(ms);
    HoledKeysAmong(ms);
    SortedObjectReads(rs, MemberMeanings(ms), HoledKeys(ms), rest);
  }

  lemma SortedObjectReads(rs: seq<Rendered>, m: map<Text, Plain>, bad: set<Text>, rest: Text)
    requires Gather(MemberTexts(rs)).Ok? && DistinctKeys(rs) && KeysOf(rs) == m.Keys && bad <= m.Keys
    requires forall r :: r in rs ==> Reads(r, m, bad)
    ensures Outcome(ReadValue([OPEN_BRACE] + Join(Gather(MemberTexts(rs)).value) + [CLOSE_BRACE] + rest), PObj(m), rest, bad == {})
  {
    if rs != [] { MembersReadBack(rs, m, bad, rest); }
    assert Only(m, m.Keys) == m && (m.Keys !! bad <==> bad == {});
    ObjectTextReads(rs, m, rest, bad != {});
  }

  lemma ObjectTextReads(rs: seq<Rendered>, m: map<Text, Plain>, rest: Text, holed: bool)
    requires Gather(MemberTexts(rs)).Ok? && KeysOf(rs) == m.Keys && (rs == [] ==> !holed)
    requires rs != [] ==> Outcome(ReadMembers(Listed(Gather(MemberTexts(rs)).value, CLOSE_BRACE, rest)), m, rest, !holed)
    ensures Outcome(ReadValue([OPEN_BRACE] + Join(Gather(MemberTexts(rs)).value) + [CLOSE_BRACE] + rest), PObj(m), rest, !holed)
  {
    var parts := Gather(MemberTexts(rs)).value;
    var inner := Listed(parts, CLOSE_BRACE, rest);
    assert [OPEN_BRACE] + Join(parts) + [CLOSE_BRACE] + rest == [OPEN_BRACE] + inner;
    GatheredMembers(rs);
    ListedStarts(rs, rest);
    BraceReads(inner);
    if rs == [] {
      assert m == map[] && inner[1..] == rest;
    }
  }

  lemma BraceReads(inner: Text)
    requires inner != []
    ensures inner[0] == CLOSE_BRACE ==> ReadValue([OPEN_BRACE] + inner) == Some((PObj(map[]), inner[1..]))
    ensures inner[0] != CLOSE_BRACE ==>
      ReadValue([OPEN_BRACE] + inner) == var r := ReadMembers(inner); if r.None? then None else Some((PObj(r.value.0), r.value.1))
  {
    var t := [OPEN_BRACE] + inner;
    assert t[0] == OPEN_BRACE && t[1] == inner[0] && t[1..] == inner && t[2..] == inner[1..];
  }

  lemma ListedStarts(rs: seq<Rendered>, rest: Text)
    requires Gather(MemberTexts(rs)).Ok?
    ensures Listed(Gather(MemberTexts(rs)).value, CLOSE_BRACE, rest)[0] == if rs == [] then CLOSE_BRACE else QUOTE
  {
    var parts := Gather(MemberTexts(rs)).value;
    GatheredMembers(rs);
    if rs != [] {
      ListedSplits(parts, CLOSE_BRACE, rest);
      assert parts[0] == MemberText(rs[0]).value && parts[0][0] == QUOTE;
    }
  }

  lemma {:induction false} GatheredMembers(rs: seq<Rendered>)
    requires Gather(MemberTexts(rs)).Ok?
    ensures forall r :: r in rs ==> r.out.Ok?
    ensures rs != [] ==> Gather(MemberTexts(rs)).value != []
    ensures rs == [] ==> Gather(MemberTexts(rs)).value == []
  {
    if rs != [] {
      GatheredMembers(rs[1..]);
      assert rs == [rs[0]] + rs[1..];
    }
  }

  lemma ArrayReadsBack(items: seq<Value>, rest: Text)
    requires ProperItems(items) && Canonicalize(Arr(items)).Ok?
    requires items != [] ==> Outcome(ReadItems(Listed(Gather(RenderItems(items)).value, CLOSE_BRACKET, rest)), ItemMeanings(items), rest, !HoledItems(items))
    ensures Outcome(ReadValue(Canonicalize(Arr(items)).value + rest), PArr(ItemMeanings(items)), rest, !HoledItems(items))
  {
    var parts := Gather(RenderItems(items)).value;
    var t := Canonicalize(Arr(items)).value + rest;
    assert t[0] == OPEN_BRACKET && t[1..] == Listed(parts, CLOSE_BRACKET, rest);
    if items == [] {
      assert t[1] == CLOSE_BRACKET && t[2..] == rest;
    } else {
      ListedSplits(parts, CLOSE_BRACKET, rest);
      GatheredItems(items);
      if items[0].Hole? {
        if |items| == 1 { assert t[1..] == [CLOSE_BRACKET] + rest && t[2..] == rest; }
      } else if items[0].Undefined? {
        assert t[1] == NULL[0];
      } else {
        StartsAValue(items[0]);
      }
    }
  }

  /**
   A reader recovers the logical object from the canonical text, in front of anything that may follow a
   value, exactly when no array in the value has a hole.
   */
  lemma {:induction false} ReadsBack(v: Value)
    requires Proper(v) && Canonicalize(v).Ok?
    ensures ReadsAs(Canonicalize(v).value, Meaning(v), !Holed(v))
    decreases v, 0
  {
    forall rest | Delimits(rest) ensures Outcome(ReadValue(Canonicalize(v).value + rest), Meaning(v), rest, !Holed(v)) {
      match v {
        case Arr(items) =>
          if items != [] { ItemsReadBack(items, rest); }
          ArrayReadsBack(items, rest);
        case Obj(members) =>
          MembersRead(members);
          ObjectReadsBack(members, rest);
        case _ => SimpleReadsBack(v, rest);
      }
    }
  }

  // ---------------------------------------------------------------- one text per logical object

  lemma {:induction false} SameItemsSameTexts(xs: seq<Value>, ys: seq<Value>)
    requires ProperItems(xs) && ProperItems(ys) && !HoledItems(xs) && !HoledItems(ys)
    requires Gather(RenderItems(xs)).Ok? && Gather(RenderItems(ys)).Ok?
    requires ItemMeanings(xs) == ItemMeanings(ys)
    ensures RenderItems(xs) == RenderItems(ys)
    decreases xs, 1
  {
    if xs != [] {
      assert ys != [] && ItemMeanings(xs)[0] == ItemMeanings(ys)[0] && ItemMeanings(xs)[1..] == ItemMeanings(ys)[1..];
      GatheredItems(xs);
      GatheredItems(ys);
      if !xs[0].Undefined? && !ys[0].Undefined? { SameMeaningSameText(xs[0], ys[0]); }
      SameItemsSameTexts(xs[1..], ys[1..]);
    }
  }

  lemma {:induction false} MemberWithKey(ms: seq<Member>, k: Text) returns (v: Value)
    requires ProperMembers(ms) && !HoledMembers(ms) && k in MemberMeanings(ms)
    ensures Rendered(k, Canonicalize(v)) in RenderMembers(ms) && Proper(v) && !Holed(v) && Meaning(v) == MemberMeanings(ms)[k]
  {
    HoledKeysAmong(ms[1..]);
    if ms[0].key == k {
      v := ms[0].value;
    } else {
      v := MemberWithKey(ms[1..], k);
    }
  }

  ghost predicate AllRendered(ms: seq<Member>) { forall r :: r in RenderMembers(ms) ==> r.out.Ok? }

  lemma {:induction false} SameMembersSameTexts(ms: seq<Member>, ns: seq<Member>)
    requires ProperMembers(ms) && ProperMembers(ns) && !HoledMembers(ms) && !HoledMembers(ns)
    requires AllRendered(ms) && AllRendered(ns)
    requires forall k :: k in MemberMeanings(ms) ==> k in MemberMeanings(ns) && MemberMeanings(ns)[k] == MemberMeanings(ms)[k]
    ensures forall r :: r in RenderMembers(ms) ==> r in RenderMembers(ns)
    decreases ms, 1
  {
    if ms != [] {
      HoledKeysAmong(ms[1..]);
      var one, more := ms[0], RenderMembers(ms[1..]);
      if !Absent(one.value) {
        assert RenderMembers(ms) == [Rendered(one.key, Canonicalize(one.value))] + more;
        var w := MemberWithKey(ns, one.key);
        SameMeaningSameText(one.value, w);
      } else {
        assert RenderMembers(ms) == more;
      }
      SameMembersSameTexts(ms[1..], ns);
    }
  }

  lemma SameMembersSameOrder(ms: seq<Member>, ns: seq<Member>)
    requires ProperMembers(ms) && ProperMembers(ns) && KeysOf(RenderMembers(ms)) == KeysOf(RenderMembers(ns))
    requires forall r :: r in RenderMembers(ms) ==> r in RenderMembers(ns)
    ensures SortByKey(RenderMembers(ms)) == SortByKey(RenderMembers(ns))
  {
    var rs, qs := RenderMembers(ms), RenderMembers(ns);
    RenderedMembers(ms);
    RenderedMembers(ns);
    SortKeeps(rs);
    SortKeeps(qs);
    forall q ensures q in SortByKey(rs) <==> q in SortByKey(qs) {
      if q in qs {
        assert q.key in KeysOf(rs);
        var r :| r in rs && r.key == q.key;
        assert r == q;
      }
    }
    IncreasingIsUnique(SortByKey(rs), SortByKey(qs));
  }

  lemma {:induction false} SameMeaningSameText(v: Value, w: Value)
    requires Proper(v) && Proper(w) && !Holed(v) && !Holed(w)
    requires Canonicalize(v).Ok? && Canonicalize(w).Ok? && Meaning(v) == Meaning(w)
    ensures Canonicalize(v) == Canonicalize(w)
    decreases v, 0
  {
    match v {
      case Arr(items) => SameItemsSameTexts(items, w.items);
      case Obj(members) =>
        SameObjectsRender(members, w.members);
        SameMembersSameTexts(members, w.members);
        SameMembersSameOrder(members, w.members);
      case _ =>
    }
  }

  lemma SameObjectsRender(ms: seq<Member>, ns: seq<Member>)
    requires ProperMembers(ms) && ProperMembers(ns) && Canonicalize(Obj(ms)).Ok? && Canonicalize(Obj(ns)).Ok?
    requires MemberMeanings(ms) == MemberMeanings(ns)
    ensures AllRendered(ms) && AllRendered(ns) && KeysOf(RenderMembers(ms)) == KeysOf(RenderMembers(ns))
  {
    RenderedMembers(ms);
    RenderedMembers(ns);
    SortKeeps(RenderMembers(ms));
    SortKeeps(RenderMembers(ns));
    GatheredMembers(SortByKey(RenderMembers(ms)));
    GatheredMembers(SortByKey(RenderMembers(ns)));
  }

  /**
   The canonical form is unambiguous: two values have one text exactly when they are one logical object, equal up to
   the order of keys, undefined members, and undefined for null in arrays.
   */
  lemma TextsAgreeExactlyOnMeaning(v: Value, w: Value)
    requires Proper(v) && Proper(w) && !Holed(v) && !Holed(w)
    requires Canonicalize(v).Ok? && Canonicalize(w).Ok?
    ensures Canonicalize(v) == Canonicalize(w) <==> Meaning(v) == Meaning(w)
  {
    ReadsBack(v);
    ReadsBack(w);
    var s, t := Canonicalize(v).value, Canonicalize(w).value;
    assert Outcome(ReadValue(s + []), Meaning(v), [], true) && Outcome(ReadValue(t + []), Meaning(w), [], true);
    if Meaning(v) == Meaning(w) { SameMeaningSameText(v, w); }
  }

  /** A hole is lost: an array that defines none of its one index has the text of the empty array, and not that of an array of null. */
  lemma HoleIsLost()
    ensures Canonicalize(Arr([Hole])) == Canonicalize(Arr([]))
    ensures Meaning(Arr([Hole])) == Meaning(Arr([Null])) != Meaning(Arr([]))
    ensures Canonicalize(Arr([Hole])) != Canonicalize(Arr([Null]))
  {
    assert [Hole][1..] == [] && [Null][1..] == [];
    assert RenderItems([Hole]) == [Ok([])] && RenderItems([Null]) == [Ok(NULL)];
    GatheredItems([Hole]);
    GatheredItems([Null]);
    assert Canonicalize(Arr([Null])).value[1] == NULL[0];
    assert ItemMeanings([Hole]) == [PNull] == ItemMeanings([Null]);
  }

  // ---------------------------------------------------------------- when it refuses

  predicate Renderable(v: Value) {
    match v
    case Undefined => false
    case Hole => false
    case Unsupported => false
    case NonFinite => false
    case Arr(items) => RenderableItems(items)
    case Obj(members) => RenderableMembers(members)
    case _ => true
  }

  predicate RenderableItems(items: seq<Value>) {
    items == [] || ((items[0].Undefined? || items[0].Hole? || Renderable(items[0])) && RenderableItems(items[1..]))
  }

  predicate RenderableMembers(ms: seq<Member>) {
    ms == [] || ((Absent(ms[0].value) || Renderable(ms[0].value)) && RenderableMembers(ms[1..]))
  }

  lemma {:induction false} GatheredOk(rs: seq<Rendered>)
    ensures Gather(MemberTexts(rs)).Ok? <==> forall r :: r in rs ==> r.out.Ok?
  {
    if rs != [] {
      GatheredOk(rs[1..]);
      assert rs == [rs[0]] + rs[1..];
    }
  }

  lemma {:induction false} ItemsRefusedExactly(items: seq<Value>)
    requires ProperItems(items)
    ensures Gather(RenderItems(items)).Ok? <==> RenderableItems(items)
    decreases items, 1
  {
    if items != [] {
      assert RenderItems(items)[1..] == RenderItems(items[1..]);
      ItemsRefusedExactly(items[1..]);
      RefusedExactlyWhenUnsupported(items[0]);
    }
  }

  lemma {:induction false} MembersRefusedExactly(ms: seq<Member>)
    requires ProperMembers(ms)
    ensures AllRendered(ms) <==> RenderableMembers(ms)
    decreases ms, 1
  {
    if ms != [] {
      MembersRefusedExactly(ms[1..]);
      RefusedExactlyWhenUnsupported(ms[0].value);
      var more := RenderMembers(ms[1..]);
      if Absent(ms[0].value) {
        assert RenderMembers(ms) == more;
      } else {
        assert RenderMembers(ms) == [Rendered(ms[0].key, Canonicalize(ms[0].value))] + more;
      }
    }
  }

  /** A value is refused exactly when it is undefined itself, or holds somewhere a number that is not finite or a value JSON has no form for. */
  lemma {:induction false} RefusedExactlyWhenUnsupported(v: Value)
    requires Proper(v)
    ensures Canonicalize(v).Ok? <==> Renderable(v)
    decreases v, 0
  {
    match v {
      case Arr(items) => ItemsRefusedExactly(items);
      case Obj(members) =>
        MembersRefusedExactly(members);
        RenderedMembers(members);
        SortKeeps(RenderMembers(members));
        GatheredOk(SortByKey(RenderMembers(members)));
      case _ =>
    }
  }
}
