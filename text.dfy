/**
 * The pieces of JavaScript's string library the server relies on when it
 * reads tmux output and rename requests: `trim`, `split` on one character,
 * and `parseInt` without a radix. Strings are sequences of Unicode scalar
 * values.
 */
module Text {
  import opened Wrappers

  /** The characters `String.prototype.trim` removes: ECMAScript WhiteSpace and LineTerminator. */
  predicate IsWhitespace(c: char) {
    || c == '\t' || c == '\n' || c == '\U{000B}' || c == '\U{000C}' || c == '\r' || c == ' '
    || c == '\U{00A0}' || c == '\U{1680}' || ('\U{2000}' <= c <= '\U{200A}')
    || c == '\U{2028}' || c == '\U{2029}' || c == '\U{202F}' || c == '\U{205F}'
    || c == '\U{3000}' || c == '\U{FEFF}'
  }

  /** The first index at or after `i` whose character is not whitespace, or `|s|`. */
  function SkipWhitespace(s: string, i: nat): (k: nat)
    requires i <= |s|
    ensures i <= k <= |s|
    ensures forall j :: i <= j < k ==> IsWhitespace(s[j])
    ensures k < |s| ==> !IsWhitespace(s[k])
    decreases |s| - i
  {
    if i < |s| && IsWhitespace(s[i]) then SkipWhitespace(s, i + 1) else i
  }

  /** The end of `s[..j]` once its trailing whitespace is dropped, going back no further than `lo`. */
  function SkipWhitespaceBack(s: string, lo: nat, j: nat): (e: nat)
    requires lo <= j <= |s|
    ensures lo <= e <= j
    ensures forall x :: e <= x < j ==> IsWhitespace(s[x])
    ensures e > lo ==> !IsWhitespace(s[e - 1])
    decreases j - lo
  {
    if j > lo && IsWhitespace(s[j - 1]) then SkipWhitespaceBack(s, lo, j - 1) else j
  }

  /**
   * JavaScript's `s.trim()`: a contiguous piece of `s` that neither starts nor
   * ends with whitespace (`TrimCutsWhitespace`: only whitespace was cut;
   * `TrimKeepsContent`: every other character of `s` is still there).
   */
  function Trim(s: string): (r: string)
    ensures var k := SkipWhitespace(s, 0); k + |r| <= |s| && r == s[k..k + |r|]
    ensures r == [] || (!IsWhitespace(r[0]) && !IsWhitespace(r[|r| - 1]))
  {
    var k := SkipWhitespace(s, 0);
    s[k..SkipWhitespaceBack(s, k, |s|)]
  }

  /** Every character `Trim` cuts off either end is whitespace. */
  lemma TrimCutsWhitespace(s: string)
    ensures var k := SkipWhitespace(s, 0); var r := Trim(s);
      forall i :: 0 <= i < |s| && !(k <= i < k + |r|) ==> IsWhitespace(s[i])
  {
    var k := SkipWhitespace(s, 0);
    assert |Trim(s)| == SkipWhitespaceBack(s, k, |s|) - k;
  }

  /** Trimming removes whitespace only: every other character of `s` is still there, and nothing new. */
  lemma TrimKeepsContent(s: string)
    ensures forall c :: !IsWhitespace(c) ==> (c in Trim(s) <==> c in s)
  {
    TrimCutsWhitespace(s);
    KeepsNonWhitespace(s, Trim(s), SkipWhitespace(s, 0));
  }

  /** Cutting only whitespace off both ends of `s` keeps every other character. */
  lemma KeepsNonWhitespace(s: string, r: string, k: nat)
    requires k + |r| <= |s| && r == s[k..k + |r|]
    requires forall i :: 0 <= i < |s| && !(k <= i < k + |r|) ==> IsWhitespace(s[i])
    ensures forall c :: !IsWhitespace(c) ==> (c in r <==> c in s)
  {
    forall c | !IsWhitespace(c)
      ensures c in r <==> c in s
    {
      if c in s {
        var i :| 0 <= i < |s| && s[i] == c;
        assert r[i - k] == c;
      }
      if c in r {
        var j :| 0 <= j < |r| && r[j] == c;
        assert s[k + j] == c;
      }
    }
  }

  /** A string that neither starts nor ends with whitespace is its own trim. */
  lemma TrimTrimmed(s: string)
    requires s == [] || (!IsWhitespace(s[0]) && !IsWhitespace(s[|s| - 1]))
    ensures Trim(s) == s
  {
    if s != [] {
      assert SkipWhitespace(s, 0) == 0;
      assert SkipWhitespaceBack(s, 0, |s|) == |s|;
    }
  }

  /** Trimming is idempotent. */
  lemma TrimIdempotent(s: string)
    ensures Trim(Trim(s)) == Trim(s)
  {
    TrimTrimmed(Trim(s));
  }

  /** The first position of `c` in `s`, or `|s|` when `c` does not occur. */
  function IndexOf(s: string, c: char): (k: nat)
    ensures k <= |s|
    ensures k < |s| ==> s[k] == c
    ensures forall i :: 0 <= i < k ==> s[i] != c
  {
    if s == [] || s[0] == c then 0 else 1 + IndexOf(s[1..], c)
  }

  /** JavaScript's `s.split(sep)` for a one-character separator: the pieces between separators, never none. */
  function Split(s: string, sep: char): (parts: seq<string>)
    ensures |parts| >= 1
    ensures forall i :: 0 <= i < |parts| ==> sep !in parts[i]
    decreases |s|
  {
    var k := IndexOf(s, sep);
    if k == |s| then
      [s]
    else
      assert forall i :: 0 <= i < k ==> s[..k][i] != sep;
      [s[..k]] + Split(s[k + 1..], sep)
  }

  /** JavaScript's `parts.join(sep)`. */
  function Join(parts: seq<string>, sep: char): string {
    if parts == [] then ""
    else if |parts| == 1 then parts[0]
    else parts[0] + [sep] + Join(parts[1..], sep)
  }

  /** Splitting and joining back gives the original string. */
  lemma {:induction false} JoinSplit(s: string, sep: char)
    ensures Join(Split(s, sep), sep) == s
    decreases |s|
  {
    var k := IndexOf(s, sep);
    if k < |s| {
      var rest := Split(s[k + 1..], sep);
      JoinSplit(s[k + 1..], sep);
      assert Split(s, sep) == [s[..k]] + rest;
      assert Join([s[..k]] + rest, sep) == s[..k] + [sep] + Join(rest, sep);
      assert s == s[..k] + [sep] + s[k + 1..];
    }
  }

  /** The first separator in `p + [sep] + t` is the one right after `p`, when `p` has none. */
  lemma IndexOfAfter(p: string, sep: char, t: string)
    requires sep !in p
    ensures IndexOf(p + [sep] + t, sep) == |p|
  {
    var s := p + [sep] + t;
    assert s[|p|] == sep;
    assert forall i :: 0 <= i < |p| ==> s[i] == p[i] && p[i] in p;
  }

  /** Joining pieces free of the separator and splitting again gives the pieces back. */
  lemma {:induction false} SplitJoin(parts: seq<string>, sep: char)
    requires |parts| >= 1
    requires forall i :: 0 <= i < |parts| ==> sep !in parts[i]
    ensures Split(Join(parts, sep), sep) == parts
    decreases |parts|
  {
    if |parts| == 1 {
      assert forall i :: 0 <= i < |parts[0]| ==> parts[0][i] in parts[0];
    } else {
      var t := Join(parts[1..], sep);
      var s := parts[0] + [sep] + t;
      assert Join(parts, sep) == s;
      IndexOfAfter(parts[0], sep, t);
      assert s[..|parts[0]|] == parts[0];
      assert s[|parts[0]| + 1..] == t;
      SplitJoin(parts[1..], sep);
      assert parts == [parts[0]] + parts[1..];
    }
  }

  /** The value of a digit character in any radix up to 36; 36 for anything else. */
  function DigitValue(c: char): (d: nat)
    ensures d <= 36
  {
    if '0' <= c <= '9' then (c as int - '0' as int)
    else if 'a' <= c <= 'z' then (c as int - 'a' as int) + 10
    else if 'A' <= c <= 'Z' then (c as int - 'A' as int) + 10
    else 36
  }

  /** The length of the longest prefix of `s` made of digits of `radix`. */
  function DigitRun(s: string, radix: nat): (n: nat)
    ensures n <= |s|
    ensures forall i :: 0 <= i < n ==> DigitValue(s[i]) < radix
    ensures n < |s| ==> DigitValue(s[n]) >= radix
  {
    if s != [] && DigitValue(s[0]) < radix then 1 + DigitRun(s[1..], radix) else 0
  }

  lemma ProductNat(a: nat, b: nat)
    ensures a * b >= 0
  {
  }

  /** The number a string of digits of `radix` denotes, most significant digit first. */
  function DigitsValue(ds: string, radix: nat): nat
    requires forall i :: 0 <= i < |ds| ==> DigitValue(ds[i]) < radix
  {
    if ds == [] then 0
    else
      var init := ds[..|ds| - 1];
      assert forall i :: 0 <= i < |init| ==> init[i] == ds[i];
      var high := DigitsValue(init, radix);
      ProductNat(high, radix);
      high * radix + DigitValue(ds[|ds| - 1])
  }

  /**
   * JavaScript's `parseInt(s)` without a radix: leading whitespace, an optional
   * sign, an optional `0x`/`0X` (hexadecimal), then the longest run of digits;
   * `None` stands for NaN (no digit at all).
   */
  function ParseInt(s: string): Option<int> {
    var t := s[SkipWhitespace(s, 0)..];
    var negative := t != [] && t[0] == '-';
    var u := if t != [] && (t[0] == '-' || t[0] == '+') then t[1..] else t;
    var hex := |u| >= 2 && u[0] == '0' && (u[1] == 'x' || u[1] == 'X');
    match LeadingNumber(if hex then u[2..] else u, if hex then 16 else 10)
    case None => None
    case Some(m) => Some(if negative then 0 - m else m as int)
  }

  /** The value of the longest run of `radix` digits at the start of `v`; `None` when `v` starts with no digit. */
  function LeadingNumber(v: string, radix: nat): Option<nat> {
    var n := DigitRun(v, radix);
    if n == 0 then None
    else
      assert forall i :: 0 <= i < n ==> v[..n][i] == v[i];
      Some(DigitsValue(v[..n], radix))
  }

  /** The decimal digit character for `d`. */
  function DigitChar(d: nat): (c: char)
    requires d < 10
    ensures DigitValue(c) == d
  {
    (d + '0' as int) as char
  }

  /** The decimal rendering of a natural number, as `String(n)` prints it. */
  function NatToString(n: nat): (s: string)
    ensures |s| >= 1
    ensures forall i :: 0 <= i < |s| ==> DigitValue(s[i]) < 10
    ensures |s| > 1 ==> s[0] != '0'
  {
    if n < 10 then [DigitChar(n)] else NatToString(n / 10) + [DigitChar(n % 10)]
  }

  /** The decimal rendering of an integer, with a leading `-` when negative. */
  function IntToString(n: int): (s: string)
    ensures n >= 0 ==> s == NatToString(n)
    ensures n < 0 ==> s == "-" + NatToString(-n)
  {
    if n < 0 then "-" + NatToString(-n) else NatToString(n)
  }

  /** Reading back the digits of a rendering gives the number. */
  lemma {:induction false} DigitsValueOfNatToString(n: nat)
    ensures DigitsValue(NatToString(n), 10) == n
  {
    var s := NatToString(n);
    if n >= 10 {
      DigitsValueOfNatToString(n / 10);
      assert s[..|s| - 1] == NatToString(n / 10);
    }
  }

  /** `parseInt` reads back what `String(n)` printed. */
  lemma ParseIntNatToString(n: nat)
    ensures ParseInt(NatToString(n)) == Some(n)
  {
    var s := NatToString(n);
    assert !IsWhitespace(s[0]) && s[0] != '-' && s[0] != '+';
    assert SkipWhitespace(s, 0) == 0;
    assert DigitRun(s, 10) == |s|;
    assert s[..|s|] == s;
    DigitsValueOfNatToString(n);
  }
}
