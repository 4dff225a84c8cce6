/** String operations of JavaScript used by the core, on `seq<char>`. */
module Strings {

  import opened Base

  predicate IsDigit(c: char) {
    '0' <= c <= '9'
  }

  predicate AllDigits(s: string) {
    forall i :: 0 <= i < |s| ==> IsDigit(s[i])
  }

  /** The characters JavaScript's `trim` removes and the regular-expression
      class `\s` matches: WhiteSpace and LineTerminator of ECMA-262. */
  predicate IsJsWhitespace(c: char) {
    c == '\t' || c == '\n' || c == '\U{000B}' || c == '\U{000C}' || c == '\r' || c == ' '
    || c == '\U{00A0}' || c == '\U{1680}' || ('\U{2000}' <= c <= '\U{200A}')
    || c == '\U{2028}' || c == '\U{2029}' || c == '\U{202F}' || c == '\U{205F}'
    || c == '\U{3000}' || c == '\U{FEFF}'
  }

  /** `s.startsWith(p)`. */
  predicate StartsWith(s: string, p: string) {
    |p| <= |s| && s[..|p|] == p
  }

  /** `needle` occurs somewhere in `hay` (`hay.includes(needle)`). */
  predicate Contains(hay: string, needle: string) {
    exists i :: 0 <= i <= |hay| - |needle| && OccursAt(hay, needle, i)
  }

  /** `needle` occurs in `hay` starting at index `i`. */
  predicate OccursAt(hay: string, needle: string, i: int) {
    0 <= i <= |hay| - |needle| && hay[i..i + |needle|] == needle
  }

  lemma ContainsMiddle(a: string, b: string, c: string)
    ensures Contains(a + b + c, b)
  {
    var s := a + b + c;
    assert s[|a|..|a| + |b|] == b;
    assert OccursAt(s, b, |a|);
  }

  /** Every character of `s` from index `lo` up to `hi` is white space. */
  predicate WhitespaceBetween(s: string, lo: int, hi: int) {
    forall j :: lo <= j < hi && 0 <= j < |s| ==> IsJsWhitespace(s[j])
  }

  /** `s.trimStart()`. */
  function TrimStart(s: string): (r: string)
    ensures |r| <= |s| && r == s[|s| - |r|..]
    ensures r == [] || !IsJsWhitespace(r[0])
    ensures WhitespaceBetween(s, 0, |s| - |r|)
  {
    if s == [] || !IsJsWhitespace(s[0]) then s else TrimStart(s[1..])
  }

  /** `s.trimEnd()`. */
  function TrimEnd(s: string): (r: string)
    ensures |r| <= |s| && r == s[..|r|]
    ensures r == [] || !IsJsWhitespace(r[|r| - 1])
    ensures WhitespaceBetween(s, |r|, |s|)
  {
    if s == [] || !IsJsWhitespace(s[|s| - 1]) then s else TrimEnd(s[..|s| - 1])
  }

  /** `s.trim()`. */
  function Trim(s: string): (r: string)
    ensures r == [] || (!IsJsWhitespace(r[0]) && !IsJsWhitespace(r[|r| - 1]))
    ensures exists i :: OccursAt(s, r, i) && WhitespaceBetween(s, 0, i) && WhitespaceBetween(s, i + |r|, |s|)
  {
    var t := TrimStart(s);
    var r := TrimEnd(t);
    TrimmedPieces(s, t, r);
    r
  }

  /** Cutting white space off the front of `s` and then off the back
      leaves a window of `s` with no white space at either end. */
  lemma TrimmedPieces(s: string, t: string, r: string)
    requires |t| <= |s| && t == s[|s| - |t|..]
    requires t == [] || !IsJsWhitespace(t[0])
    requires WhitespaceBetween(s, 0, |s| - |t|)
    requires |r| <= |t| && r == t[..|r|]
    requires r == [] || !IsJsWhitespace(r[|r| - 1])
    requires WhitespaceBetween(t, |r|, |t|)
    ensures r == [] || (!IsJsWhitespace(r[0]) && !IsJsWhitespace(r[|r| - 1]))
    ensures exists i :: OccursAt(s, r, i) && WhitespaceBetween(s, 0, i) && WhitespaceBetween(s, i + |r|, |s|)
  {
    var k := |s| - |t|;
    WhitespaceShift(s, k, |r|, |t|);
    assert r == [] || r[0] == t[0];
    assert OccursAt(s, r, k);
  }

  /** White space in a suffix of `s` is white space in `s`, shifted. */
  lemma WhitespaceShift(s: string, k: nat, lo: int, hi: int)
    requires k <= |s| && 0 <= lo && hi <= |s| - k && WhitespaceBetween(s[k..], lo, hi)
    ensures WhitespaceBetween(s, k + lo, k + hi)
  {
    var t := s[k..];
    forall j | k + lo <= j < k + hi && 0 <= j < |s|
      ensures IsJsWhitespace(s[j])
    {
      assert s[j] == t[j - k];
    }
  }

  /** A digit is not white space. */
  lemma DigitNotWhitespace(c: char)
    requires IsDigit(c)
    ensures !IsJsWhitespace(c)
  {
  }

  /** Trimming leaves alone a string with no white space at either end. */
  lemma TrimUnchanged(s: string)
    requires s == [] || (!IsJsWhitespace(s[0]) && !IsJsWhitespace(s[|s| - 1]))
    ensures Trim(s) == s
  {
    assert TrimStart(s) == s;
    assert TrimEnd(s) == s;
  }

  /** A leading white-space character does not survive trimming. */
  lemma TrimDropsLeading(c: char, s: string)
    requires IsJsWhitespace(c)
    ensures Trim([c] + s) == Trim(s)
  {
    assert ([c] + s)[1..] == s;
    assert TrimStart([c] + s) == TrimStart(s);
  }

  /** Trimming a white-space pad followed by text with no white space at
      either end gives that text. */
  lemma {:induction false} TrimPadded(pad: string, s: string)
    requires WhitespaceBetween(pad, 0, |pad|)
    requires s == [] || (!IsJsWhitespace(s[0]) && !IsJsWhitespace(s[|s| - 1]))
    ensures Trim(pad + s) == s
  {
    if pad == [] {
      assert pad + s == s;
      TrimUnchanged(s);
    } else {
      assert pad + s == [pad[0]] + (pad[1..] + s);
      TrimDropsLeading(pad[0], pad[1..] + s);
      TrimPadded(pad[1..], s);
    }
  }

  /** `s.split(sep)[0]`: everything before the first `sep` (all of `s` when
      `sep` does not occur). */
  function BeforeFirst(s: string, sep: char): (r: string)
    ensures |r| <= |s| && r == s[..|r|]
    ensures sep !in r
  {
    if s == [] || s[0] == sep then [] else [s[0]] + BeforeFirst(s[1..], sep)
  }

  /** The text before the first `sep` stops at a `sep` or at the end. */
  lemma {:induction false} BeforeFirstStops(s: string, sep: char)
    ensures |BeforeFirst(s, sep)| < |s| ==> s[|BeforeFirst(s, sep)|] == sep
  {
    if s != [] && s[0] != sep {
      BeforeFirstStops(s[1..], sep);
    }
  }

  /** `s.split(sep)[1]` when it exists: the text between the first and the
      second `sep`. */
  function SecondField(s: string, sep: char): (r: Option<string>)
    ensures r.Some? <==> sep in s
  {
    BeforeFirstStops(s, sep);
    var head := BeforeFirst(s, sep);
    if |head| == |s| then None else Some(BeforeFirst(s[|head| + 1..], sep))
  }

  function DigitChar(d: nat): (c: char)
    requires d < 10
    ensures IsDigit(c) && c as int - '0' as int == d
  {
    ['0', '1', '2', '3', '4', '5', '6', '7', '8', '9'][d]
  }

  /** The decimal numeral of `n` without leading zeros (`n.toString()`). */
  function NatToString(n: nat): (r: string)
    ensures |r| >= 1 && AllDigits(r)
    ensures n >= 10 <==> |r| >= 2
  {
    if n < 10 then [DigitChar(n)] else NatToString(n / 10) + [DigitChar(n % 10)]
  }

  /** `String(i)` for an integer. */
  function IntToString(i: int): (r: string)
    ensures i >= 0 ==> r == NatToString(i)
    ensures i < 0 ==> r == "-" + NatToString(-i)
  {
    if i >= 0 then NatToString(i) else "-" + NatToString(-i)
  }

  /** The value of a string of decimal digits. */
  function DigitsValue(s: string): (v: nat)
    requires AllDigits(s)
  {
    if s == [] then 0 else DigitsValue(s[..|s| - 1]) * 10 + (s[|s| - 1] as int - '0' as int)
  }

  /** Reading back a numeral gives the number it was built from. */
  lemma {:induction false} NatToStringRoundTrip(n: nat)
    ensures DigitsValue(NatToString(n)) == n
  {
    if n >= 10 {
      var s := NatToString(n);
      assert s[..|s| - 1] == NatToString(n / 10);
      NatToStringRoundTrip(n / 10);
    }
  }

  /** `s.padStart(2, '0')`. */
  function PadStart2(s: string): (r: string)
    ensures |s| >= 2 ==> r == s
    ensures |s| < 2 ==> |r| == 2 && r[2 - |s|..] == s
    ensures forall i :: 0 <= i < |r| - |s| ==> r[i] == '0'
  {
    if |s| == 0 then "00" else if |s| == 1 then "0" + s else s
  }

  /** `xs.join(sep)`. */
  function Join(xs: seq<string>, sep: string): (r: string)
    ensures xs == [] ==> r == ""
    ensures |xs| == 1 ==> r == xs[0]
  {
    if xs == [] then "" else if |xs| == 1 then xs[0] else xs[0] + sep + Join(xs[1..], sep)
  }

  /** Appending an element to a non-empty list puts the separator between
      the earlier join and the new element. */
  lemma {:induction false} JoinSnoc(xs: seq<string>, x: string, sep: string)
    requires xs != []
    ensures Join(xs + [x], sep) == Join(xs, sep) + sep + x
  {
    if |xs| == 1 {
      assert (xs + [x])[1..] == [x];
    } else {
      assert (xs + [x])[1..] == xs[1..] + [x];
      JoinSnoc(xs[1..], x, sep);
    }
  }

  /** A needle inside the middle part occurs in the whole. */
  lemma ContainsWithin(a: string, mid: string, c: string, needle: string)
    requires Contains(mid, needle)
    ensures Contains(a + mid + c, needle)
  {
    var i :| 0 <= i <= |mid| - |needle| && OccursAt(mid, needle, i);
    var s := a + mid + c;
    assert s[|a| + i..|a| + i + |needle|] == mid[i..i + |needle|];
    assert OccursAt(s, needle, |a| + i);
  }

  /** Every element of `xs` appears in `Join(xs, sep)`. */
  lemma {:induction false} JoinContains(xs: seq<string>, sep: string, k: nat)
    requires k < |xs|
    ensures Contains(Join(xs, sep), xs[k])
  {
    if |xs| == 1 {
      ContainsMiddle("", xs[0], "");
      assert "" + xs[0] + "" == xs[0];
    } else if k == 0 {
      ContainsMiddle("", xs[0], sep + Join(xs[1..], sep));
      assert "" + xs[0] + (sep + Join(xs[1..], sep)) == Join(xs, sep);
    } else {
      JoinContains(xs[1..], sep, k - 1);
      assert xs[1..][k - 1] == xs[k];
      var rest := Join(xs[1..], sep);
      var i :| 0 <= i <= |rest| - |xs[k]| && OccursAt(rest, xs[k], i);
      var pre := xs[0] + sep;
      assert Join(xs, sep) == pre + rest;
      assert (pre + rest)[|pre| + i..|pre| + i + |xs[k]|] == rest[i..i + |xs[k]|];
      assert OccursAt(Join(xs, sep), xs[k], |pre| + i);
    }
  }

  /** `a < b` on strings: code-unit lexicographic order. */
  predicate Less(a: string, b: string)
    decreases |a|
  {
    if a == [] then b != []
    else if b == [] then false
    else if a[0] != b[0] then a[0] < b[0]
    else Less(a[1..], b[1..])
  }

  /** `a <= b` on strings. */
  predicate LessEq(a: string, b: string) {
    a == b || Less(a, b)
  }

  lemma {:induction false} LessIrreflexive(a: string)
    ensures !Less(a, a)
  {
    if a != [] { LessIrreflexive(a[1..]); }
  }

  lemma {:induction false} LessTotal(a: string, b: string)
    ensures a == b || Less(a, b) || Less(b, a)
  {
    if a != [] && b != [] && a[0] == b[0] {
      LessTotal(a[1..], b[1..]);
      if a[1..] == b[1..] {
        assert a == [a[0]] + a[1..] && b == [b[0]] + b[1..];
      }
    }
  }

  lemma {:induction false} LessAsymmetric(a: string, b: string)
    ensures Less(a, b) ==> !Less(b, a)
  {
    if a != [] && b != [] && a[0] == b[0] { LessAsymmetric(a[1..], b[1..]); }
  }

  lemma {:induction false} LessTransitive(a: string, b: string, c: string)
    requires Less(a, b) && Less(b, c)
    ensures Less(a, c)
  {
    if a != [] && b != [] && c != [] && a[0] == b[0] && b[0] == c[0] {
      LessTransitive(a[1..], b[1..], c[1..]);
    }
  }

  lemma LessEqTransitive(a: string, b: string, c: string)
    requires LessEq(a, b) && LessEq(b, c)
    ensures LessEq(a, c)
  {
    if a != b && b != c { LessTransitive(a, b, c); }
  }
}
