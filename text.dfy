/** The few Python string operations the normalisers and the keyword gate
    rely on: prefix slicing `s[:n]`, `startswith`, `in` on strings,
    `str.lower`, `str.strip`, `splitlines()[0]` and `str(n)` for a
    non-negative integer. */
module Text {

  /** Python's `s[:n]`: the first `n` elements, or all of `s` when it is
      shorter; also the `limit` of an iterator. */
  function Take<A>(s: seq<A>, n: nat): (r: seq<A>)
    ensures |r| == if |s| <= n then |s| else n
    ensures r == s[..|r|]
  {
    if |s| <= n then s else s[..n]
  }

  /** Python's `s.startswith(prefix)`. */
  predicate StartsWith(s: string, prefix: string)
  {
    |prefix| <= |s| && s[..|prefix|] == prefix
  }

  /** Python's `needle in hay` on strings: a contiguous occurrence. The empty
      string occurs in every string. */
  predicate IsSubstring(needle: string, hay: string)
  {
    exists i | 0 <= i <= |hay| - |needle| :: OccursAt(needle, hay, i)
  }

  /** `needle` sits in `hay` starting at index `i`. */
  predicate OccursAt(needle: string, hay: string, i: int)
  {
    0 <= i <= |hay| - |needle| && hay[i..i + |needle|] == needle
  }

  // ---------------------------------------------------------------- lower

  /** Lower-casing of one character. Python's `str.lower` follows the whole
      Unicode case table; this model covers ASCII `A`-`Z` and the Cyrillic
      capitals U+0400..U+042F (the Russian alphabet with its extensions), and
      leaves every other character as it is. */
  function LowerChar(c: char): char
  {
    if 'A' <= c <= 'Z' then (c as int + 32) as char
    else if '\U{0410}' <= c <= '\U{042F}' then (c as int + 32) as char
    else if '\U{0400}' <= c <= '\U{040F}' then (c as int + 80) as char
    else c
  }

  function Lower(s: string): (r: string)
    ensures |r| == |s|
    ensures forall i :: 0 <= i < |s| ==> r[i] == LowerChar(s[i])
  {
    seq(|s|, i requires 0 <= i < |s| => LowerChar(s[i]))
  }

  /** A lower-cased character has no capital left to lower. */
  lemma LowerCharIdempotent(c: char)
    ensures LowerChar(LowerChar(c)) == LowerChar(c)
  {
  }

  lemma LowerIdempotent(s: string)
    ensures Lower(Lower(s)) == Lower(s)
  {
    forall i | 0 <= i < |s|
      ensures Lower(Lower(s))[i] == Lower(s)[i]
    {
      LowerCharIdempotent(s[i]);
    }
  }

  // ---------------------------------------------------------------- strip

  /** Python's `str.isspace` for one character: exactly the characters
      `str.strip()` removes when called without arguments. */
  predicate IsSpace(c: char)
  {
    ('\t' <= c <= '\r') || ('\U{1C}' <= c <= ' ') || c == '\U{85}' || c == '\U{A0}'
    || c == '\U{1680}' || ('\U{2000}' <= c <= '\U{200A}') || c == '\U{2028}' || c == '\U{2029}'
    || c == '\U{202F}' || c == '\U{205F}' || c == '\U{3000}'
  }

  /** The characters at which Python's `str.splitlines` ends a line. */
  predicate IsLineBreak(c: char)
  {
    ('\n' <= c <= '\r') || ('\U{1C}' <= c <= '\U{1E}') || c == '\U{85}'
    || c == '\U{2028}' || c == '\U{2029}'
  }

  lemma LineBreakIsSpace(c: char)
    ensures IsLineBreak(c) ==> IsSpace(c)
  {
  }

  /** Python's `s.lstrip()`: drop leading whitespace. */
  function StripStart(s: string): (r: string)
    ensures |r| <= |s| && r == s[|s| - |r|..]
    ensures forall i :: 0 <= i < |s| - |r| ==> IsSpace(s[i])
    ensures r == [] || !IsSpace(r[0])
  {
    if s != [] && IsSpace(s[0]) then StripStart(s[1..]) else s
  }

  /** Python's `s.rstrip()`: drop trailing whitespace. */
  function StripEnd(s: string): (r: string)
    ensures |r| <= |s| && r == s[..|r|]
    ensures forall i :: |r| <= i < |s| ==> IsSpace(s[i])
    ensures r == [] || !IsSpace(r[|r| - 1])
  {
    if s != [] && IsSpace(s[|s| - 1]) then StripEnd(s[..|s| - 1]) else s
  }

  /** Python's `s.strip()`: a contiguous piece of `s` that neither starts nor
      ends with whitespace, everything cut away being whitespace. */
  function Strip(s: string): (r: string)
    ensures exists i ::
              && OccursAt(r, s, i)
              && (forall j :: 0 <= j < i ==> IsSpace(s[j]))
              && (forall j :: i + |r| <= j < |s| ==> IsSpace(s[j]))
    ensures r == [] || (!IsSpace(r[0]) && !IsSpace(r[|r| - 1]))
    ensures r == [] <==> forall i :: 0 <= i < |s| ==> IsSpace(s[i])
  {
    StripPieces(s);
    StripEnd(StripStart(s))
  }

  /** Where the piece Strip keeps sits: it starts at the offset `k` where
      `lstrip` stopped, and what lies before and after it is whitespace. */
  lemma StripPieces(s: string)
    ensures var t := StripStart(s);
      var r := StripEnd(t);
      var k := |s| - |t|;
      && OccursAt(r, s, k)
      && (forall j :: 0 <= j < k ==> IsSpace(s[j]))
      && (forall j :: k + |r| <= j < |s| ==> IsSpace(s[j]))
      && (r != [] ==> s[k] == r[0])
  {
    var t := StripStart(s);
    var r := StripEnd(t);
    var k := |s| - |t|;
    SliceOfSuffix(s, t, r, k);
    TailOfSuffix(s, t, r, k);
  }

  lemma SliceOfSuffix(s: string, t: string, r: string, k: nat)
    requires k + |t| == |s| && t == s[k..]
    requires |r| <= |t| && r == t[..|r|]
    ensures OccursAt(r, s, k)
    ensures r != [] ==> s[k] == r[0]
  {
    assert s[k..k + |r|] == t[..|r|];
  }

  lemma TailOfSuffix(s: string, t: string, r: string, k: nat)
    requires k + |t| == |s| && t == s[k..]
    requires |r| <= |t| && forall i :: |r| <= i < |t| ==> IsSpace(t[i])
    ensures forall j :: k + |r| <= j < |s| ==> IsSpace(s[j])
  {
    forall j | k + |r| <= j < |s| ensures IsSpace(s[j]) {
      assert s[j] == t[j - k];
    }
  }

  // ---------------------------------------------------------- splitlines

  /** Python's `s.splitlines()[0]` for a non-empty `s`: the longest prefix
      without a line break. */
  function FirstLine(s: string): (r: string)
    ensures |r| <= |s| && r == s[..|r|]
    ensures forall i :: 0 <= i < |r| ==> !IsLineBreak(r[i])
    ensures |r| < |s| ==> IsLineBreak(s[|r|])
  {
    if s == [] || IsLineBreak(s[0]) then [] else [s[0]] + FirstLine(s[1..])
  }

  /** A stripped, non-empty text has a non-empty first line. */
  lemma FirstLineOfStripped(s: string)
    requires s != [] && !IsSpace(s[0])
    ensures FirstLine(s) != []
  {
    LineBreakIsSpace(s[0]);
  }

  // ------------------------------------------------------------- decimal

  function DigitChar(d: nat): (c: char)
    requires d < 10
    ensures '0' <= c <= '9'
  {
    (('0' as int) + d) as char
  }

  function DigitValue(c: char): nat
  {
    if '0' <= c <= '9' then (c as int) - ('0' as int) else 0
  }

  /** Python's `str(n)` for a non-negative integer, in decimal, with no
      leading zero except for 0 itself. */
  function Decimal(n: nat): (r: string)
    ensures r != []
    ensures forall i :: 0 <= i < |r| ==> '0' <= r[i] <= '9'
    ensures n == 0 <==> r == "0"
    ensures r[0] == '0' ==> r == "0"
  {
    if n < 10 then [DigitChar(n)] else Decimal(n / 10) + [DigitChar(n % 10)]
  }

  /** Reading a string of decimal digits back as a number (Python's `int(s)`). */
  function DecimalValue(s: string): nat
  {
    if s == [] then 0 else 10 * DecimalValue(s[..|s| - 1]) + DigitValue(s[|s| - 1])
  }

  /** `int(str(n)) == n`: the rendering loses nothing, so distinct numbers
      render as distinct strings. */
  lemma {:induction false} DecimalRoundTrip(n: nat)
    ensures DecimalValue(Decimal(n)) == n
  {
    var r := Decimal(n);
    if n >= 10 {
      DecimalRoundTrip(n / 10);
      assert r[..|r| - 1] == Decimal(n / 10);
    }
  }

  lemma DecimalInjective(m: nat, n: nat)
    ensures Decimal(m) == Decimal(n) ==> m == n
  {
    DecimalRoundTrip(m);
    DecimalRoundTrip(n);
  }
}
