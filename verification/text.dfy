/** String helpers with Python's semantics: `str.strip()`, `str.join`, `str(int)`,
    and the ASCII word-character and case-folding rules used by the censor. */
module Text {
  import opened Wrappers

  /** Python's `str.isspace()` for one character: the characters `str.strip()` removes. */
  predicate IsSpace(c: char) {
    || c == ' '
    || ('\t' <= c <= '\r')
    || ('\U{1C}' <= c <= '\U{1F}')
    || c == '\U{85}' || c == '\U{A0}' || c == '\U{1680}'
    || ('\U{2000}' <= c <= '\U{200A}')
    || c == '\U{2028}' || c == '\U{2029}' || c == '\U{202F}' || c == '\U{205F}' || c == '\U{3000}'
  }

  ghost predicate AllSpace(s: string) {
    forall k :: 0 <= k < |s| ==> IsSpace(s[k])
  }

  /** Drops the leading whitespace of `s`. */
  function TrimStart(s: string): (r: string)
    ensures |r| <= |s| && r == s[|s| - |r|..]
    ensures AllSpace(s[..|s| - |r|])
    ensures r == [] || !IsSpace(r[0])
    ensures forall k :: 0 <= k < |s| && !IsSpace(s[k]) ==> |s| - |r| <= k
  {
    if s == [] || !IsSpace(s[0]) then s
    else
      var r := TrimStart(s[1..]);
      assert s[..|s| - |r|] == [s[0]] + s[1..][..|s| - 1 - |r|];
      r
  }

  /** Drops the trailing whitespace of `s`. */
  function TrimEnd(s: string): (r: string)
    ensures |r| <= |s| && r == s[..|r|]
    ensures AllSpace(s[|r|..])
    ensures r == [] || !IsSpace(r[|r| - 1])
    ensures forall k :: 0 <= k < |s| && !IsSpace(s[k]) ==> k < |r|
  {
    if s == [] || !IsSpace(s[|s| - 1]) then s
    else
      var r := TrimEnd(s[..|s| - 1]);
      assert s[|r|..] == s[..|s| - 1][|r|..] + [s[|s| - 1]];
      r
  }

  /** `r` is what is left of `s` once whitespace is cut from both ends: a contiguous
      piece of `s` with only whitespace before and after it. */
  ghost predicate CutFrom(r: string, s: string) {
    exists a :: 0 <= a <= |s| - |r| && s[a..a + |r|] == r && AllSpace(s[..a]) && AllSpace(s[a + |r|..])
  }

  /** Python's `s.strip()`. */
  function Strip(s: string): (r: string)
    ensures CutFrom(r, s)
    ensures NoOuterSpace(r)
  {
    TrimBothCut(s);
    TrimEnd(TrimStart(s))
  }

  lemma TrimBothCut(s: string)
    ensures CutFrom(TrimEnd(TrimStart(s)), s)
  {
    var t := TrimStart(s);
    var r := TrimEnd(t);
    CutOfPieces(s, t, r);
  }

  lemma CutOfPieces(s: string, t: string, r: string)
    requires |t| <= |s| && t == s[|s| - |t|..] && AllSpace(s[..|s| - |t|])
    requires |r| <= |t| && r == t[..|r|] && AllSpace(t[|r|..])
    ensures CutFrom(r, s)
  {
    var a := |s| - |t|;
    assert s[a..a + |r|] == r;
    assert s[a + |r|..] == t[|r|..];
  }

  /** A string is stripped to nothing exactly when it is all whitespace. */
  lemma StripEmptyIffAllSpace(s: string)
    ensures Strip(s) == [] <==> AllSpace(s)
  {
    var t := TrimStart(s);
    if t == [] {
      assert s[..|s|] == s;
    } else {
      assert !IsSpace(t[0]);
      assert t[0] == s[|s| - |t|];
    }
  }

  /** Neither the first nor the last character is whitespace. */
  ghost predicate NoOuterSpace(r: string) {
    r == [] || (!IsSpace(r[0]) && !IsSpace(r[|r| - 1]))
  }

  /** Cutting whitespace from both ends of `s` down to a string with no whitespace
      at either end has only one outcome, so `CutFrom` and `NoOuterSpace` together
      pin down `str.strip()`. */
  lemma StrippedUnique(s: string, r1: string, r2: string)
    requires CutFrom(r1, s) && NoOuterSpace(r1)
    requires CutFrom(r2, s) && NoOuterSpace(r2)
    ensures r1 == r2
  {
    var a1 :| 0 <= a1 <= |s| - |r1| && s[a1..a1 + |r1|] == r1 && AllSpace(s[..a1]) && AllSpace(s[a1 + |r1|..]);
    var a2 :| 0 <= a2 <= |s| - |r2| && s[a2..a2 + |r2|] == r2 && AllSpace(s[..a2]) && AllSpace(s[a2 + |r2|..]);
    SameCut(s, r1, a1, r2, a2);
  }

  lemma SameCut(s: string, r1: string, a1: nat, r2: string, a2: nat)
    requires a1 + |r1| <= |s| && s[a1..a1 + |r1|] == r1 && AllSpace(s[..a1]) && AllSpace(s[a1 + |r1|..])
    requires a2 + |r2| <= |s| && s[a2..a2 + |r2|] == r2 && AllSpace(s[..a2]) && AllSpace(s[a2 + |r2|..])
    requires NoOuterSpace(r1) && NoOuterSpace(r2)
    ensures r1 == r2
  {
    SpaceOutside(s, a1, a1 + |r1|);
    SpaceOutside(s, a2, a2 + |r2|);
    assert r1 == [] || (r1[0] == s[a1] && r1[|r1| - 1] == s[a1 + |r1| - 1]);
    assert r2 == [] || (r2[0] == s[a2] && r2[|r2| - 1] == s[a2 + |r2| - 1]);
    if r1 == [] {
      SpaceOutside(s, a1, a1);
    }
  }

  /** Whitespace before `i` and from `j` on, stated position by position. */
  lemma SpaceOutside(s: string, i: nat, j: nat)
    requires i <= j <= |s| && AllSpace(s[..i]) && AllSpace(s[j..])
    ensures forall k :: 0 <= k < i ==> IsSpace(s[k])
    ensures forall k :: j <= k < |s| ==> IsSpace(s[k])
  {
    forall k | 0 <= k < i
      ensures IsSpace(s[k])
    {
      assert s[..i][k] == s[k];
    }
    forall k | j <= k < |s|
      ensures IsSpace(s[k])
    {
      assert s[j..][k - j] == s[k];
    }
  }

  /** Stripping twice is stripping once. */
  lemma StripIdempotent(s: string)
    ensures Strip(Strip(s)) == Strip(s)
  {
    var r := Strip(s);
    assert TrimStart(r) == r;
    assert TrimEnd(r) == r;
  }

  /** Python's `sep.join(parts)`. */
  function Join(sep: string, parts: seq<string>): string {
    if |parts| == 0 then ""
    else if |parts| == 1 then parts[0]
    else parts[0] + sep + Join(sep, parts[1..])
  }

  /** Python's `"".join(parts)`. */
  function Concat(parts: seq<string>): string {
    if parts == [] then "" else parts[0] + Concat(parts[1..])
  }

  function TotalLength(parts: seq<string>): nat {
    if parts == [] then 0 else |parts[0]| + TotalLength(parts[1..])
  }

  /** A joined string holds every part and one separator between each neighbouring pair. */
  lemma {:induction false} JoinLength(sep: string, parts: seq<string>)
    requires parts != []
    ensures |Join(sep, parts)| == TotalLength(parts) + (|parts| - 1) * |sep|
  {
    if |parts| > 1 {
      JoinLength(sep, parts[1..]);
    }
  }

  /** Joining a longer list extends the joined text with one separator and the new part. */
  lemma {:induction false} JoinAppend(sep: string, parts: seq<string>, last: string)
    requires parts != []
    ensures Join(sep, parts + [last]) == Join(sep, parts) + sep + last
  {
    if |parts| == 1 {
      assert parts + [last] == [parts[0], last];
    } else {
      assert (parts + [last])[1..] == parts[1..] + [last];
      JoinAppend(sep, parts[1..], last);
    }
  }

  /** Joining two non-empty lists joins their two joins. */
  lemma {:induction false} JoinConcat(sep: string, xs: seq<string>, ys: seq<string>)
    requires xs != [] && ys != []
    ensures Join(sep, xs + ys) == Join(sep, xs) + sep + Join(sep, ys)
  {
    if |xs| == 1 {
      assert (xs + ys)[1..] == ys;
    } else {
      assert (xs + ys)[1..] == xs[1..] + ys;
      JoinConcat(sep, xs[1..], ys);
    }
  }

  // ---------------------------------------------------------------------------
  // ASCII word characters and case folding, as `\b` and `re.IGNORECASE` see them

  /** `[A-Za-z0-9_]`, the characters `\w` matches. */
  predicate IsWordChar(c: char) {
    ('a' <= c <= 'z') || ('A' <= c <= 'Z') || ('0' <= c <= '9') || c == '_'
  }

  /** ASCII lower-casing, the folding `re.IGNORECASE` applies to ASCII letters. */
  function FoldChar(c: char): (d: char)
    ensures IsWordChar(d) <==> IsWordChar(c)
    ensures 'A' <= c <= 'Z' ==> 'a' <= d <= 'z'
    ensures !('A' <= c <= 'Z') ==> d == c
  {
    if 'A' <= c <= 'Z' then (c as int + 32) as char else c
  }

  /** `a` and `b` are equal once both are case-folded. */
  predicate SameIgnoringCase(a: string, b: string) {
    |a| == |b| && forall k :: 0 <= k < |a| ==> FoldChar(a[k]) == FoldChar(b[k])
  }

  predicate AllWordChars(s: string) {
    forall k :: 0 <= k < |s| ==> IsWordChar(s[k])
  }

  // ---------------------------------------------------------------------------
  // Python's `str(n)` for integers, with the parser it round-trips through

  function DigitChar(d: nat): (c: char)
    requires d < 10
    ensures '0' <= c <= '9'
  {
    ('0' as int + d) as char
  }

  function DigitValue(c: char): nat
    requires '0' <= c <= '9'
  {
    c as int - '0' as int
  }

  /** The decimal digits of `n`, most significant first, without leading zeros. */
  function Digits(n: nat): (s: string)
    ensures s != []
    ensures forall k :: 0 <= k < |s| ==> '0' <= s[k] <= '9'
    ensures |s| > 1 ==> s[0] != '0'
  {
    if n < 10 then [DigitChar(n)] else Digits(n / 10) + [DigitChar(n % 10)]
  }

  /** Python's `str(n)` for an `int`: a minus sign for negatives, then the digits. */
  function DecimalOf(n: int): (s: string)
    ensures s != []
    ensures n < 0 <==> s[0] == '-'
  {
    if n < 0 then "-" + Digits(-n) else Digits(n)
  }

  /** The natural number a non-empty digit string denotes. */
  function ParseDigits(s: string): Option<nat>
  {
    if s == [] || !('0' <= s[|s| - 1] <= '9') then None
    else if |s| == 1 then Some(DigitValue(s[0]))
    else match ParseDigits(s[..|s| - 1])
      case None => None
      case Some(m) => Some(m * 10 + DigitValue(s[|s| - 1]))
  }

  /** Reads back an optionally negative decimal integer. */
  function ParseDecimal(s: string): Option<int>
  {
    if s != [] && s[0] == '-' then
      match ParseDigits(s[1..])
      case None => None
      case Some(m) => Some(0 - m as int)
    else
      match ParseDigits(s)
      case None => None
      case Some(m) => Some(m)
  }

  lemma {:induction false} ParseDigitsOfDigits(n: nat)
    ensures ParseDigits(Digits(n)) == Some(n)
  {
    if n >= 10 {
      var s := Digits(n / 10) + [DigitChar(n % 10)];
      assert s[..|s| - 1] == Digits(n / 10);
      ParseDigitsOfDigits(n / 10);
    }
  }

  /** `str(n)` is read back as `n`, so distinct integers render distinctly. */
  lemma DecimalRoundTrip(n: int)
    ensures ParseDecimal(DecimalOf(n)) == Some(n)
  {
    var m: nat := if n < 0 then -n else n;
    ParseDigitsOfDigits(m);
    ParseSigned(Digits(m), m);
  }

  lemma ParseSigned(d: string, m: nat)
    requires d != [] && '0' <= d[0] <= '9'
    requires ParseDigits(d) == Some(m)
    ensures ParseDecimal(d) == Some(m)
    ensures ParseDecimal("-" + d) == Some(0 - m as int)
  {
    assert ("-" + d)[1..] == d;
  }
}
