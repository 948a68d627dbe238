/** Joining and splitting text at a character, and decimal numerals: the JavaScript string operations the X12 code rests on. */
module Strings {
  import opened Wrappers

  function Join(parts: seq<string>, d: char): string {
    if parts == [] then "" else if |parts| == 1 then parts[0] else parts[0] + [d] + Join(parts[1..], d)
  }

  function Split(t: string, d: char): (r: seq<string>)
    ensures r != []
  {
    if t == "" then [""]
    else
      var r := Split(t[1..], d);
      if t[0] == d then [""] + r else [[t[0]] + r[0]] + r[1..]
  }

  lemma {:induction false} SplitAtFirst(p: string, d: char, t: string)
    requires d !in p
    ensures Split(p + [d] + t, d) == [p] + Split(t, d)
  {
    var whole := p + [d] + t;
    if p == "" {
      assert whole[0] == d && whole[1..] == t;
    } else {
      SplitAtFirst(p[1..], d, t);
      assert whole[0] == p[0] && whole[1..] == p[1..] + [d] + t;
      assert [p[0]] + p[1..] == p;
    }
  }

  lemma {:induction false} SplitWhole(p: string, d: char)
    requires d !in p
    ensures Split(p, d) == [p]
  {
    if p != "" {
      SplitWhole(p[1..], d);
      assert [p[0]] + p[1..] == p;
    }
  }

  /** Splitting undoes joining when no part holds the separator. */
  lemma {:induction false} SplitUndoesJoin(parts: seq<string>, d: char)
    requires parts != [] && forall p :: p in parts ==> d !in p
    ensures Split(Join(parts, d), d) == parts
  {
    assert parts[0] in parts;
    if |parts| == 1 {
      SplitWhole(parts[0], d);
    } else {
      SplitUndoesJoin(parts[1..], d);
      SplitAtFirst(parts[0], d, Join(parts[1..], d));
      assert parts == [parts[0]] + parts[1..];
    }
  }

  lemma {:induction false} JoinIsFree(parts: seq<string>, d: char, c: char)
    requires c != d && forall p :: p in parts ==> c !in p
    ensures c !in Join(parts, d)
  {
    if |parts| > 0 {
      assert parts[0] in parts;
      JoinIsFree(parts[1..], d, c);
    }
  }

  /** `text.replace(/\r?\n/g, "")`. */
  function StripNewlines(t: string): string {
    if t == "" then ""
    else if |t| > 1 && t[0] == '\r' && t[1] == '\n' then StripNewlines(t[2..])
    else if t[0] == '\n' then StripNewlines(t[1..])
    else [t[0]] + StripNewlines(t[1..])
  }

  lemma {:induction false} StripLine(line: string, t: string)
    requires '\n' !in line && line != "" && line[|line| - 1] != '\r'
    ensures StripNewlines(line + t) == line + StripNewlines(t)
  {
    var whole := line + t;
    assert whole[0] == line[0] && whole[1..] == line[1..] + t;
    if |line| == 1 {
      assert whole[1..] == t;
    } else {
      StripLine(line[1..], t);
      assert whole[1] == line[1] && line[1] in line;
      assert [line[0]] + (line[1..] + StripNewlines(t)) == line + StripNewlines(t);
    }
  }

  // ---------------------------------------------------------------- numerals

  function Digit(d: int): char
    requires 0 <= d < 10
  {
    "0123456789"[d]
  }

  predicate IsDigit(c: char) { '0' <= c <= '9' }

  function DigitValue(c: char): int { if IsDigit(c) then c as int - '0' as int else 0 }

  function Decimal(n: nat): (s: string)
    ensures s != "" && forall c :: c in s ==> IsDigit(c)
  {
    if n < 10 then [Digit(n)] else Decimal(n / 10) + [Digit(n % 10)]
  }

  function DigitsValue(s: string): int {
    if s == "" then 0 else DigitsValue(s[..|s| - 1]) * 10 + DigitValue(s[|s| - 1])
  }

  predicate AllDigits(s: string) { forall i :: 0 <= i < |s| ==> IsDigit(s[i]) }

  /** `Number(s)` for a missing, empty or plain decimal text; anything else is read as not a number. */
  function NumberOf(s: Option<string>): Option<int> {
    if s.Some? && AllDigits(s.value) then Some(DigitsValue(s.value)) else None
  }

  lemma {:induction false} DecimalReadsBack(n: nat)
    ensures NumberOf(Some(Decimal(n))) == Some(n)
  {
    var s := Decimal(n);
    assert forall i :: 0 <= i < |s| ==> s[i] in s;
    if n < 10 {
      assert s[..0] == "" && s[|s| - 1] == Digit(n);
      assert DigitsValue(s) == DigitsValue(s[..|s| - 1]) * 10 + DigitValue(s[|s| - 1]);
    } else {
      DecimalReadsBack(n / 10);
      assert s[..|s| - 1] == Decimal(n / 10) && s[|s| - 1] == Digit(n % 10);
    }
  }

  function Repeat(c: char, n: nat): (s: string)
    ensures |s| == n && forall i :: 0 <= i < n ==> s[i] == c
  {
    seq(n, _ => c)
  }

  /** `s.padEnd(n).slice(0, n)`. */
  function PadEnd(s: string, n: nat): (r: string)
    ensures |r| == n && forall i :: 0 <= i < n ==> r[i] == if i < |s| then s[i] else ' '
  {
    (s + Repeat(' ', n))[..n]
  }

  /** `String(n).padStart(width, "0").slice(-width)`: the last digits of the number. */
  function LastDigits(n: nat, width: nat): (r: string)
    ensures |r| == width && forall i :: 0 <= i < width ==> IsDigit(r[i])
  {
    var s := Decimal(n);
    var t := Repeat('0', width) + s;
    assert forall c :: c in s ==> IsDigit(c);
    assert forall i :: 0 <= i < |t| ==> IsDigit(t[i]);
    t[|t| - width..]
  }

  /** `s.slice(lo, hi)`: as much of it as there is. */
  function Slice(s: string, lo: nat, hi: nat): string
    requires lo <= hi
  {
    s[if lo < |s| then lo else |s|..if hi < |s| then hi else |s|]
  }

  function Without(s: string, c: char): string {
    if s == "" then "" else (if s[0] == c then "" else [s[0]]) + Without(s[1..], c)
  }

  lemma {:induction false} WithoutNone(s: string, c: char)
    requires c !in s
    ensures Without(s, c) == s
  {
    if s != "" {
      WithoutNone(s[1..], c);
      assert s == [s[0]] + s[1..];
    }
  }

  lemma {:induction false} WithoutOfSum(a: string, b: string, c: char)
    ensures Without(a + b, c) == Without(a, c) + Without(b, c)
  {
    if a == "" {
      assert a + b == b;
    } else {
      WithoutOfSum(a[1..], b, c);
      assert (a + b)[0] == a[0] && (a + b)[1..] == a[1..] + b;
      var first := if a[0] == c then "" else [a[0]];
      assert first + (Without(a[1..], c) + Without(b, c)) == (first + Without(a[1..], c)) + Without(b, c);
    }
  }
}
