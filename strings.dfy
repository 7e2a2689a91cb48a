/** The Python string operations the scrapers rely on (`strip`, `lower`, `upper`, `in`,
    `split`, `isdigit`, `int` and `str` of a number), written out over `seq<char>`. */
module Strings {
  import opened Values

  // ---------------------------------------------------------------------------
  // Whitespace and strip

  /** Python's `str.isspace` for one character. */
  predicate IsSpace(c: char) {
    var n := c as int;
    (9 <= n <= 13) || (28 <= n <= 32) || n == 0x85 || n == 0xA0 || n == 0x1680
    || (0x2000 <= n <= 0x200A) || n == 0x2028 || n == 0x2029 || n == 0x202F
    || n == 0x205F || n == 0x3000
  }

  /** `s.lstrip()`: the longest suffix of `s` that does not start with whitespace. */
  function TrimStart(s: string): (r: string)
    ensures |r| <= |s| && r == s[|s| - |r|..]
    ensures r == [] || !IsSpace(r[0])
    ensures forall i :: 0 <= i < |s| - |r| ==> IsSpace(s[i])
  {
    if s != [] && IsSpace(s[0]) then TrimStart(s[1..]) else s
  }

  /** `s.rstrip()`: the longest prefix of `s` that does not end with whitespace. */
  function TrimEnd(s: string): (r: string)
    ensures |r| <= |s| && r == s[..|r|]
    ensures r == [] || !IsSpace(r[|r| - 1])
    ensures forall i :: |r| <= i < |s| ==> IsSpace(s[i])
  {
    if s != [] && IsSpace(s[|s| - 1]) then TrimEnd(s[..|s| - 1]) else s
  }

  /** `s.strip()`. */
  function Strip(s: string): (r: string)
    ensures |r| <= |s|
    ensures r == [] || (!IsSpace(r[0]) && !IsSpace(r[|r| - 1]))
  {
    TrimEnd(TrimStart(s))
  }

  /** A text that neither starts nor ends with whitespace is its own `strip()`. */
  lemma StripUntrimmed(s: string)
    requires s == [] || (!IsSpace(s[0]) && !IsSpace(s[|s| - 1]))
    ensures Strip(s) == s
  {
  }

  // ---------------------------------------------------------------------------
  // Case mapping (ASCII letters)

  function LowerChar(c: char): char {
    if 'A' <= c <= 'Z' then (c as int + 32) as char else c
  }

  function UpperChar(c: char): char {
    if 'a' <= c <= 'z' then (c as int - 32) as char else c
  }

  /** `s.lower()`, character by character. */
  function Lower(s: string): (r: string)
    ensures |r| == |s|
    ensures forall i :: 0 <= i < |s| ==> r[i] == LowerChar(s[i])
  {
    if s == [] then [] else [LowerChar(s[0])] + Lower(s[1..])
  }

  /** `s.upper()`, character by character. */
  function Upper(s: string): (r: string)
    ensures |r| == |s|
    ensures forall i :: 0 <= i < |s| ==> r[i] == UpperChar(s[i])
  {
    if s == [] then [] else [UpperChar(s[0])] + Upper(s[1..])
  }

  // ---------------------------------------------------------------------------
  // Digits, int() and str() of numbers

  predicate IsDigit(c: char) {
    '0' <= c <= '9'
  }

  predicate AllDigits(s: string) {
    forall i :: 0 <= i < |s| ==> IsDigit(s[i])
  }

  /** Python's `s and s.isdigit()`: a non-empty run of decimal digits. */
  predicate IsDigits(s: string) {
    s != [] && AllDigits(s)
  }

  /** The decimal value of a run of digits, most significant first. */
  function DigitsValue(s: string): nat
    requires AllDigits(s)
  {
    if s == [] then 0 else DigitsValue(s[..|s| - 1]) * 10 + (s[|s| - 1] as int - '0' as int)
  }

  function DigitChar(d: nat): (c: char)
    requires d < 10
    ensures IsDigit(c) && c as int - '0' as int == d
  {
    ('0' as int + d) as char
  }

  /** `str(n)` for a natural number: its decimal digits without leading zeros. */
  function NatText(n: nat): (r: string)
    ensures IsDigits(r)
    ensures r[0] != '0' || n == 0
  {
    if n < 10 then [DigitChar(n)] else NatText(n / 10) + [DigitChar(n % 10)]
  }

  /** Reading back the digits of `str(n)` gives `n`. */
  lemma {:induction false} NatTextValue(n: nat)
    ensures DigitsValue(NatText(n)) == n
  {
    var r := NatText(n);
    if n >= 10 {
      NatTextValue(n / 10);
      assert r[..|r| - 1] == NatText(n / 10);
    }
  }

  /** `str(i)` for a Python int. */
  function IntText(i: int): (r: string)
    ensures r != []
  {
    if i < 0 then "-" + NatText(-i) else NatText(i)
  }

  /** `str(x)` for a JSON number: ints print bare, half-point floats print with one decimal. */
  function NumText(n: Num): (r: string)
    ensures r != []
  {
    match n
    case IntNum(i) => IntText(i)
    case FloatNum(h) =>
      (if h < 0 then "-" else "") + NatText(Abs(h) / 2) + (if Abs(h) % 2 == 0 then ".0" else ".5")
  }

  /** Python's `int(s)` on a text: surrounding whitespace, an optional sign and decimal digits;
      anything else raises, which is `None` here. */
  function ParseInt(s: string): (r: Option<int>)
    ensures r.Some? ==> Strip(s) != []
  {
    var t := Strip(s);
    if IsDigits(t) then Some(DigitsValue(t))
    else if |t| >= 2 && (t[0] == '-' || t[0] == '+') && IsDigits(t[1..]) then
      var v: int := DigitsValue(t[1..]);
      Some(if t[0] == '-' then -v else v)
    else None
  }

  /** `int(str(i)) == i`. */
  lemma IntTextRoundTrip(i: int)
    ensures ParseInt(IntText(i)) == Some(i)
  {
    var r := IntText(i);
    StripUntrimmed(r);
    if i < 0 {
      NatTextValue(-i);
      assert r[1..] == NatText(-i);
    } else {
      NatTextValue(i);
    }
  }

  // ---------------------------------------------------------------------------
  // Substring search and split

  /** `pat` occurs in `s` starting at index `j`. */
  predicate OccursAt(s: string, pat: string, j: int) {
    0 <= j && j + |pat| <= |s| && s[j..j + |pat|] == pat
  }

  /** The first index at or after `from` where `pat` occurs in `s` (Python's `s.find(pat, from)`). */
  function FindFrom(s: string, pat: string, from: nat): (r: Option<nat>)
    ensures r.Some? ==> from <= r.value && OccursAt(s, pat, r.value)
    ensures r.Some? ==> forall j :: from <= j < r.value ==> !OccursAt(s, pat, j)
    ensures r.None? ==> forall j :: from <= j ==> !OccursAt(s, pat, j)
    decreases |s| - from
  {
    if from + |pat| > |s| then None
    else if s[from..from + |pat|] == pat then Some(from)
    else FindFrom(s, pat, from + 1)
  }

  function Find(s: string, pat: string): (r: Option<nat>)
    ensures r.Some? ==> OccursAt(s, pat, r.value) && forall j :: 0 <= j < r.value ==> !OccursAt(s, pat, j)
    ensures r.None? ==> forall j :: !OccursAt(s, pat, j)
  {
    FindFrom(s, pat, 0)
  }

  /** Python's `pat in s`. */
  predicate Contains(s: string, pat: string) {
    Find(s, pat).Some?
  }

  /** Python's `s.split(sep)` for a non-empty separator: cut at each leftmost occurrence in turn. */
  function SplitOn(s: string, sep: string): (r: seq<string>)
    requires sep != []
    ensures r != []
    decreases |s|
  {
    match Find(s, sep)
    case None => [s]
    case Some(i) => [s[..i]] + SplitOn(s[i + |sep|..], sep)
  }

  /** Python's `sep.join(parts)`. */
  function Join(parts: seq<string>, sep: string): string {
    if parts == [] then []
    else if |parts| == 1 then parts[0]
    else parts[0] + sep + Join(parts[1..], sep)
  }

  /** Joining the pieces of a split with the same separator gives back the text. */
  lemma {:induction false} SplitJoin(s: string, sep: string)
    requires sep != []
    ensures Join(SplitOn(s, sep), sep) == s
    decreases |s|
  {
    match Find(s, sep)
    case None =>
    case Some(i) =>
      var rest := s[i + |sep|..];
      SplitJoin(rest, sep);
      assert s == s[..i] + s[i..i + |sep|] + rest;
  }

  /** An occurrence inside a prefix of `s` is an occurrence in `s`. */
  lemma OccursInPrefix(s: string, pat: string, n: nat, j: int)
    requires n <= |s| && OccursAt(s[..n], pat, j)
    ensures OccursAt(s, pat, j)
  {
    assert s[..n][j..j + |pat|] == s[j..j + |pat|];
  }

  /** An occurrence inside a suffix of `s` is an occurrence in `s`, shifted by the cut. */
  lemma OccursInSuffix(s: string, pat: string, n: nat, j: int)
    requires n <= |s| && OccursAt(s[n..], pat, j)
    ensures OccursAt(s, pat, n + j)
  {
    assert s[n..][j..j + |pat|] == s[n + j..n + j + |pat|];
  }

  /** No piece of a split contains the separator, and there is one more piece than cuts:
      a text without the separator is a single piece. */
  lemma {:induction false} SplitPiecesLackSeparator(s: string, sep: string)
    requires sep != []
    ensures forall k :: 0 <= k < |SplitOn(s, sep)| ==> !Contains(SplitOn(s, sep)[k], sep)
    ensures |SplitOn(s, sep)| == 1 <==> !Contains(s, sep)
    decreases |s|
  {
    match Find(s, sep)
    case None =>
    case Some(i) =>
      var rest := s[i + |sep|..];
      SplitPiecesLackSeparator(rest, sep);
      var head := s[..i];
      if Contains(head, sep) {
        var j := Find(head, sep).value;
        OccursInPrefix(s, sep, i, j);
        assert false;
      }
      SplitOnStep(s, sep, i);
  }

  /** The last piece of a split: Python's `s.split(sep)[-1]`. */
  function LastPiece(s: string, sep: string): string
    requires sep != []
  {
    var parts := SplitOn(s, sep);
    parts[|parts| - 1]
  }

  /** The last piece is the text after the last occurrence of the separator: it ends `s`,
      does not contain the separator, and (when `s` has the separator) is preceded by it. */
  lemma LastPieceFollowsLastSeparator(s: string, sep: string)
    requires sep != []
    ensures |LastPiece(s, sep)| <= |s| && s[|s| - |LastPiece(s, sep)|..] == LastPiece(s, sep)
    ensures !Contains(LastPiece(s, sep), sep)
    ensures Contains(s, sep) ==> OccursAt(s, sep, |s| - |LastPiece(s, sep)| - |sep|)
    ensures !Contains(s, sep) ==> LastPiece(s, sep) == s
  {
    SplitPiecesLackSeparator(s, sep);
    LastPieceEndsText(s, sep);
  }

  lemma {:induction false} LastPieceEndsText(s: string, sep: string)
    requires sep != []
    ensures |LastPiece(s, sep)| <= |s| && s[|s| - |LastPiece(s, sep)|..] == LastPiece(s, sep)
    ensures Contains(s, sep) ==> OccursAt(s, sep, |s| - |LastPiece(s, sep)| - |sep|)
    ensures !Contains(s, sep) ==> LastPiece(s, sep) == s
    decreases |s|
  {
    match Find(s, sep)
    case None =>
    case Some(i) =>
      var rest := s[i + |sep|..];
      LastPieceEndsText(rest, sep);
      SplitOnStep(s, sep, i);
      assert LastPiece(s, sep) == LastPiece(rest, sep);
      var p := LastPiece(rest, sep);
      assert s[|s| - |p|..] == rest[|rest| - |p|..];
      if Contains(rest, sep) {
        OccursInSuffix(s, sep, i + |sep|, |rest| - |p| - |sep|);
      } else {
        assert p == rest;
        assert OccursAt(s, sep, i);
      }
  }

  /** The first two pieces of a split: the text before the first separator, and the text
      between the first and the second one (or the end). */
  lemma SplitFirstTwo(s: string, sep: string, i: nat)
    requires sep != [] && Find(s, sep) == Some(i)
    ensures |SplitOn(s, sep)| >= 2
    ensures SplitOn(s, sep)[0] == s[..i]
    ensures SplitOn(s, sep)[1] == SplitOn(s[i + |sep|..], sep)[0]
  {
    SplitOnStep(s, sep, i);
  }

  /** Splitting at the first separator: the text before it, then the split of the rest. */
  lemma SplitOnStep(s: string, sep: string, i: nat)
    requires sep != [] && Find(s, sep) == Some(i)
    ensures SplitOn(s, sep) == [s[..i]] + SplitOn(s[i + |sep|..], sep)
  {
  }

  /** Python's `s[0:n]`, which stops at the end of a shorter text. */
  function Prefix(s: string, n: nat): (r: string)
    ensures |r| == if |s| < n then |s| else n
    ensures r == s[..|r|]
  {
    if |s| < n then s else s[..n]
  }
}
