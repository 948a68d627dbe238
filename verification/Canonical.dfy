/**
 Canonical serialisation (src/protocol/canonical.ts), the text every hash and signature is over.

 Text is a sequence of UTF-16 code units. A finite number is the numeral `JSON.stringify` writes for it.
 An object is its own enumerable members in their own order.
 */
module Canonical {
  import opened Wrappers

  type Text = seq<int>

  const NULL: Text := [110, 117, 108, 108]
  const TRUE: Text := [116, 114, 117, 101]
  const FALSE: Text := [102, 97, 108, 115, 101]
  const QUOTE := 34
  const COMMA := 44
  const COLON := 58
  const OPEN_BRACKET := 91
  const BACKSLASH := 92
  const CLOSE_BRACKET := 93
  const OPEN_BRACE := 123
  const CLOSE_BRACE := 125

  /** `Hole` stands for an index an array does not have; `Unsupported` for functions, symbols and big integers. */
  datatype Value =
    | Null | Undefined | Hole | Unsupported | NonFinite
    | Bool(b: bool)
    | Num(numeral: Text)
    | Str(units: Text)
    | Arr(items: seq<Value>)
    | Obj(members: seq<Member>)

  datatype Member = Member(key: Text, value: Value)

  datatype Refusal = UNDEFINED_AT_TOP | NON_FINITE | UNSUPPORTED

  // ---------------------------------------------------------------- strings

  function HexDigit(d: int): int { if d < 10 then 48 + d else 87 + d }

  /** The six-unit escape for a code unit that has no shorter one. */
  function HexEscape(u: int): Text {
    [BACKSLASH, 117, HexDigit(u / 4096 % 16), HexDigit(u / 256 % 16), HexDigit(u / 16 % 16), HexDigit(u % 16)]
  }

  function EscapeUnit(u: int): Text {
    if u == QUOTE || u == BACKSLASH then [BACKSLASH, u]
    else if u == 8 then [BACKSLASH, 98]
    else if u == 9 then [BACKSLASH, 116]
    else if u == 10 then [BACKSLASH, 110]
    else if u == 12 then [BACKSLASH, 102]
    else if u == 13 then [BACKSLASH, 114]
    else if 0 <= u < 32 || 0xD800 <= u < 0xE000 then HexEscape(u)
    else [u]
  }

  predicate Paired(s: Text) { |s| > 1 && 0xD800 <= s[0] < 0xDC00 && 0xDC00 <= s[1] < 0xE000 }

  /** A surrogate pair is written as it is, a lone surrogate escaped. */
  function Escape(s: Text): Text {
    if s == [] then [] else if Paired(s) then s[..2] + Escape(s[2..]) else EscapeUnit(s[0]) + Escape(s[1..])
  }

  function Quoted(s: Text): Text { [QUOTE] + Escape(s) + [QUOTE] }

  // ---------------------------------------------------------------- canonicalize

  /** A member whose value is defined, rendered. */
  datatype Rendered = Rendered(key: Text, out: Result<Text, Refusal>)

  /** The order of `Array.prototype.sort` on strings: by code units, a prefix first. */
  predicate Before(a: Text, b: Text) {
    if a == [] then b != [] else b != [] && (a[0] < b[0] || (a[0] == b[0] && Before(a[1..], b[1..])))
  }

  function Insert(r: Rendered, rs: seq<Rendered>): seq<Rendered> {
    if rs == [] || !Before(rs[0].key, r.key) then [r] + rs else [rs[0]] + Insert(r, rs[1..])
  }

  function SortByKey(rs: seq<Rendered>): seq<Rendered> {
    if rs == [] then [] else Insert(rs[0], SortByKey(rs[1..]))
  }

  function Join(parts: seq<Text>): Text {
    if parts == [] then [] else if |parts| == 1 then parts[0] else parts[0] + [COMMA] + Join(parts[1..])
  }

  /** The texts, unless one was refused: then the first refusal. */
  function Gather(rs: seq<Result<Text, Refusal>>): Result<seq<Text>, Refusal> {
    if rs == [] then Ok([])
    else if rs[0].Err? then Err(rs[0].error)
    else var rest := Gather(rs[1..]); if rest.Err? then rest else Ok([rs[0].value] + rest.value)
  }

  function MemberText(r: Rendered): Result<Text, Refusal> {
    if r.out.Err? then r.out else Ok(Quoted(r.key) + [COLON] + r.out.value)
  }

  function MemberTexts(rs: seq<Rendered>): seq<Result<Text, Refusal>> {
    if rs == [] then [] else [MemberText(rs[0])] + MemberTexts(rs[1..])
  }

  function Canonicalize(v: Value): Result<Text, Refusal>
    decreases v, 0
  {
    match v
    case Null => Ok(NULL)
    case Undefined => Err(UNDEFINED_AT_TOP)
    case Hole => Err(UNDEFINED_AT_TOP)
    case Unsupported => Err(UNSUPPORTED)
    case NonFinite => Err(NON_FINITE)
    case Bool(b) => Ok(if b then TRUE else FALSE)
    case Num(n) => Ok(n)
    case Str(s) => Ok(Quoted(s))
    case Arr(items) =>
      var parts := Gather(RenderItems(items));
      if parts.Err? then Err(parts.error) else Ok([OPEN_BRACKET] + Join(parts.value) + [CLOSE_BRACKET])
    case Obj(members) =>
      var parts := Gather(MemberTexts(SortByKey(RenderMembers(members))));
      if parts.Err? then Err(parts.error) else Ok([OPEN_BRACE] + Join(parts.value) + [CLOSE_BRACE])
  }

  /** Array elements: undefined is written as null, and a hole (which `map` skips) as nothing. */
  function RenderItems(items: seq<Value>): seq<Result<Text, Refusal>>
    decreases items, 0
  {
    if items == [] then []
    else [RenderItem(items[0])] + RenderItems(items[1..])
  }

  function RenderItem(v: Value): Result<Text, Refusal>
    decreases v, 1
  {
    if v.Undefined? then Ok(NULL) else if v.Hole? then Ok([]) else Canonicalize(v)
  }

  /** Reading a member that is not there yields undefined. */
  predicate Absent(v: Value) { v.Undefined? || v.Hole? }

  function RenderMembers(members: seq<Member>): seq<Rendered>
    decreases members, 0
  {
    if members == [] then []
    else (if Absent(members[0].value) then [] else [Rendered(members[0].key, Canonicalize(members[0].value))]) + RenderMembers(members[1..])
  }
}
