/** The few JavaScript string operations the dashboard's logic depends on:
    number-to-text in template literals, `trim`, `join`, and `replace` with a
    string pattern. Strings are sequences of UTF-16-free Unicode scalars; no
    normalisation is modelled. */
module Text {

  /** The characters `String.prototype.trim` strips: the WhiteSpace and
      LineTerminator productions of section 12.2 and 12.3 of ECMA-262. */
  predicate IsWhitespace(c: char)
  {
    || c == '\t' || c == '\n' || c == '\U{000B}' || c == '\U{000C}' || c == '\r'
    || c == ' ' || c == '\U{00A0}' || c == '\U{1680}'
    || ('\U{2000}' <= c <= '\U{200A}')
    || c == '\U{2028}' || c == '\U{2029}' || c == '\U{202F}' || c == '\U{205F}'
    || c == '\U{3000}' || c == '\U{FEFF}'
  }

  /** Every character of `s` is whitespace (vacuously true of ""). */
  predicate IsBlank(s: string)
  {
    forall i :: 0 <= i < |s| ==> IsWhitespace(s[i])
  }

  function TrimStart(s: string): (r: string)
    ensures |r| <= |s| && r == s[|s| - |r|..]
    ensures forall i :: 0 <= i < |s| - |r| ==> IsWhitespace(s[i])
    ensures |r| > 0 ==> !IsWhitespace(r[0])
  {
    if |s| > 0 && IsWhitespace(s[0]) then TrimStart(s[1..]) else s
  }

  function TrimEnd(s: string): (r: string)
    ensures |r| <= |s| && r == s[..|r|]
    ensures forall i :: |r| <= i < |s| ==> IsWhitespace(s[i])
    ensures |r| > 0 ==> !IsWhitespace(r[|r| - 1])
  {
    if |s| > 0 && IsWhitespace(s[|s| - 1]) then TrimEnd(s[..|s| - 1]) else s
  }

  /** `s.trim()`: `s` with the whitespace at both ends cut off. It is empty
      exactly when `s` is blank, which is how the dashboard's `!s.trim()`
      guards read; `TrimIsInfix` locates it within `s`. */
  function Trim(s: string): (r: string)
    ensures |r| <= |s|
    ensures |r| > 0 ==> !IsWhitespace(r[0]) && !IsWhitespace(r[|r| - 1])
    ensures r == [] <==> IsBlank(s)
  {
    var t := TrimStart(s);
    var r := TrimEnd(t);
    BlankWhenTrimmedAway(s, t, r);
    r
  }

  /** The trimmed text is the infix of `s` left once the whitespace before
      it and after it is cut off. */
  lemma TrimIsInfix(s: string) returns (a: nat)
    ensures a + |Trim(s)| <= |s| && Trim(s) == s[a..a + |Trim(s)|]
    ensures forall i :: 0 <= i < a ==> IsWhitespace(s[i])
    ensures forall i :: a + |Trim(s)| <= i < |s| ==> IsWhitespace(s[i])
  {
    var t := TrimStart(s);
    var r := TrimEnd(t);
    assert Trim(s) == r;
    TrimmedInfix(s, t, r);
    a := |s| - |t|;
  }

  /** A prefix of a suffix of `s` is an infix of `s`. */
  lemma PrefixOfSuffix<T>(s: seq<T>, t: seq<T>, r: seq<T>)
    requires |t| <= |s| && t == s[|s| - |t|..]
    requires |r| <= |t| && r == t[..|r|]
    ensures r == s[|s| - |t|..|s| - |t| + |r|]
  {
  }

  /** What both cuts remove is whitespace, and what remains sits in `s`
      right after the leading cut. */
  lemma TrimmedInfix(s: string, t: string, r: string)
    requires |t| <= |s| && t == s[|s| - |t|..] && forall i :: 0 <= i < |s| - |t| ==> IsWhitespace(s[i])
    requires |r| <= |t| && r == t[..|r|] && forall i :: |r| <= i < |t| ==> IsWhitespace(t[i])
    ensures var a := |s| - |t|;
            && a + |r| <= |s| && r == s[a..a + |r|]
            && (forall i :: a + |r| <= i < |s| ==> IsWhitespace(s[i]))
  {
    PrefixOfSuffix(s, t, r);
    var a := |s| - |t|;
    forall i | a + |r| <= i < |s|
      ensures IsWhitespace(s[i])
    {
      assert s[i] == t[i - a];
    }
  }

  lemma BlankWhenTrimmedAway(s: string, t: string, r: string)
    requires t == TrimStart(s) && r == TrimEnd(t)
    ensures r == [] ==> IsBlank(s)
  {
    if r == [] {
      assert |t| == 0;
    }
  }

  // ---------------------------------------------------------------------
  // Decimal rendering of numbers, as `${n}` produces it.

  predicate IsDigit(c: char)
  {
    '0' <= c <= '9'
  }

  predicate AllDigits(s: string)
  {
    forall i :: 0 <= i < |s| ==> IsDigit(s[i])
  }

  function DigitChar(d: nat): (c: char)
    requires d < 10
    ensures IsDigit(c) && (c as int) - ('0' as int) == d
  {
    (('0' as int) + d) as char
  }

  /** The shortest decimal numeral of `n`: at least one digit, and no leading
      zero unless the numeral is "0" itself. */
  function NatToString(n: nat): (s: string)
    ensures |s| >= 1 && AllDigits(s)
    ensures |s| > 1 ==> s[0] != '0'
    decreases n
  {
    if n < 10 then [DigitChar(n)] else NatToString(n / 10) + [DigitChar(n % 10)]
  }

  /** The value of a decimal numeral: the reference against which
      `NatToString` is checked. */
  function DecimalValue(s: string): nat
    requires AllDigits(s)
  {
    if |s| == 0 then 0
    else 10 * DecimalValue(s[..|s| - 1]) + ((s[|s| - 1] as int) - ('0' as int))
  }

  /** Reading the numeral back gives the number again. */
  lemma {:induction false} DecimalValueOfNatToString(n: nat)
    ensures DecimalValue(NatToString(n)) == n
    decreases n
  {
    if n >= 10 {
      DecimalValueOfNatToString(n / 10);
      var s := NatToString(n);
      assert s[..|s| - 1] == NatToString(n / 10);
    }
  }

  /** Distinct numbers render as distinct numerals. */
  lemma NatToStringInjective(m: nat, n: nat)
    requires NatToString(m) == NatToString(n)
    ensures m == n
  {
    DecimalValueOfNatToString(m);
    DecimalValueOfNatToString(n);
  }

  /** `${i}` for a (possibly negative) integer. */
  function IntToString(i: int): (s: string)
    ensures i < 0 <==> |s| > 0 && s[0] == '-'
    ensures i >= 0 ==> AllDigits(s) && DecimalValue(s) == i
    ensures i < 0 ==> AllDigits(s[1..]) && DecimalValue(s[1..]) == -i
  {
    if i < 0 then
      DecimalValueOfNatToString(-i);
      assert ("-" + NatToString(-i))[1..] == NatToString(-i);
      "-" + NatToString(-i)
    else
      DecimalValueOfNatToString(i);
      NatToString(i)
  }

  // ---------------------------------------------------------------------
  // Joining and searching.

  function TotalLength(parts: seq<string>): nat
  {
    if |parts| == 0 then 0 else |parts[0]| + TotalLength(parts[1..])
  }

  /** Where part `i` begins once `parts` are laid out with `sep` between
      neighbours: the parts before it, each followed by one separator. */
  function Offset(parts: seq<string>, sep: string, i: nat): nat
    requires i <= |parts|
  {
    if i == 0 then 0 else |parts[0]| + |sep| + Offset(parts[1..], sep, i - 1)
  }

  /** Every part occupies `r` from its offset on. */
  predicate PartsAt(r: string, parts: seq<string>, sep: string)
  {
    forall i :: 0 <= i < |parts| ==>
      Offset(parts, sep, i) + |parts[i]| <= |r| && r[Offset(parts, sep, i)..Offset(parts, sep, i) + |parts[i]|] == parts[i]
  }

  /** Between part `i` and part `i + 1`, `r` holds exactly one `sep`. */
  predicate SepAt(r: string, parts: seq<string>, sep: string, i: nat)
    requires i + 1 < |parts|
  {
    Offset(parts, sep, i) + |parts[i]| + |sep| == Offset(parts, sep, i + 1) <= |r|
    && r[Offset(parts, sep, i) + |parts[i]|..Offset(parts, sep, i + 1)] == sep
  }

  predicate SepsAt(r: string, parts: seq<string>, sep: string)
  {
    forall i :: 0 <= i < |parts| - 1 ==> SepAt(r, parts, sep, i)
  }

  /** `parts.join(sep)`: the parts in order with `sep` between neighbours.
      Part `i` occupies the text from `Offset(parts, sep, i)` on and `sep`
      fills each gap; with the length this determines the text. */
  function Join(parts: seq<string>, sep: string): (r: string)
    ensures |parts| == 0 ==> r == ""
    ensures |parts| == 1 ==> r == parts[0]
    ensures |parts| > 0 ==> |r| == TotalLength(parts) + (|parts| - 1) * |sep|
    ensures PartsAt(r, parts, sep) && SepsAt(r, parts, sep)
  {
    if |parts| == 0 then ""
    else if |parts| == 1 then parts[0]
    else
      var rest := Join(parts[1..], sep);
      assert TotalLength(parts) == |parts[0]| + TotalLength(parts[1..]);
      assert (|parts| - 1) * |sep| == |sep| + (|parts| - 2) * |sep|;
      JoinStep(parts, sep, rest);
      parts[0] + sep + rest
  }

  /** The layout of the tail, shifted behind the first part and a separator,
      is the layout of the whole. */
  lemma JoinStep(parts: seq<string>, sep: string, rest: string)
    requires |parts| >= 2
    requires PartsAt(rest, parts[1..], sep) && SepsAt(rest, parts[1..], sep)
    ensures PartsAt(parts[0] + sep + rest, parts, sep) && SepsAt(parts[0] + sep + rest, parts, sep)
  {
    JoinStepParts(parts, sep, rest);
    JoinStepSeps(parts, sep, rest);
  }

  lemma JoinStepParts(parts: seq<string>, sep: string, rest: string)
    requires |parts| >= 2
    requires PartsAt(rest, parts[1..], sep)
    ensures PartsAt(parts[0] + sep + rest, parts, sep)
  {
    var r := parts[0] + sep + rest;
    var q := parts[1..];
    var d := |parts[0]| + |sep|;
    forall i | 0 <= i < |parts|
      ensures Offset(parts, sep, i) + |parts[i]| <= |r|
      ensures r[Offset(parts, sep, i)..Offset(parts, sep, i) + |parts[i]|] == parts[i]
    {
      if i > 0 {
        var o := Offset(q, sep, i - 1);
        assert Offset(parts, sep, i) == d + o && parts[i] == q[i - 1];
        assert o + |q[i - 1]| <= |rest|;
        assert r[d + o..d + o + |parts[i]|] == rest[o..o + |q[i - 1]|];
      }
    }
  }

  lemma JoinStepSeps(parts: seq<string>, sep: string, rest: string)
    requires |parts| >= 2
    requires PartsAt(rest, parts[1..], sep) && SepsAt(rest, parts[1..], sep)
    ensures SepsAt(parts[0] + sep + rest, parts, sep)
  {
    var r := parts[0] + sep + rest;
    var q := parts[1..];
    var d := |parts[0]| + |sep|;
    forall i | 0 <= i < |parts| - 1
      ensures SepAt(r, parts, sep, i)
    {
      if i == 0 {
        assert Offset(parts, sep, 1) == d + Offset(q, sep, 0);
        assert Offset(q, sep, 0) + |q[0]| <= |rest|;
      } else {
        var e := Offset(q, sep, i - 1) + |q[i - 1]|;
        assert Offset(parts, sep, i) == d + Offset(q, sep, i - 1) && parts[i] == q[i - 1];
        assert Offset(parts, sep, i + 1) == d + Offset(q, sep, i);
        assert SepAt(rest, q, sep, i - 1);
        assert e + |sep| == Offset(q, sep, i) <= |rest|;
        assert r[d + e..d + e + |sep|] == rest[e..e + |sep|];
      }
    }
  }

  /** `pat` occurs in `s` starting at index `k`. */
  predicate OccursAt(s: string, pat: string, k: nat)
  {
    k + |pat| <= |s| && s[k..k + |pat|] == pat
  }

  function IndexOfFrom(s: string, pat: string, from: nat): (r: int)
    requires from <= |s|
    ensures r == -1 || from <= r <= |s| - |pat|
    ensures r >= 0 ==> OccursAt(s, pat, r) && forall k :: from <= k < r ==> !OccursAt(s, pat, k)
    ensures r == -1 ==> forall k :: from <= k <= |s| ==> !OccursAt(s, pat, k)
    decreases |s| - from
  {
    if OccursAt(s, pat, from) then from
    else if from == |s| then -1
    else IndexOfFrom(s, pat, from + 1)
  }

  /** `s.indexOf(pat)`: the first position at which `pat` occurs, or -1. */
  function IndexOf(s: string, pat: string): (r: int)
    ensures r == -1 || 0 <= r <= |s| - |pat|
    ensures r >= 0 ==> OccursAt(s, pat, r) && forall k :: 0 <= k < r ==> !OccursAt(s, pat, k)
    ensures r == -1 ==> forall k :: 0 <= k <= |s| ==> !OccursAt(s, pat, k)
  {
    IndexOfFrom(s, pat, 0)
  }

  /** `k` is where `pat` first occurs in `s`. */
  predicate IsFirstOccurrence(s: string, pat: string, k: nat)
  {
    OccursAt(s, pat, k) && forall j :: 0 <= j < k ==> !OccursAt(s, pat, j)
  }

  /** A first occurrence is the one `indexOf` finds. */
  lemma FirstOccurrenceIsIndexOf(s: string, pat: string, k: nat)
    requires IsFirstOccurrence(s, pat, k)
    ensures IndexOf(s, pat) == k
  {
    var i := IndexOf(s, pat);
    assert i != -1 by {
      assert OccursAt(s, pat, k) && k <= |s|;
    }
  }

  /** `s.replace(pat, rep)` with a string pattern: only the FIRST occurrence
      of `pat`, wherever it is, is replaced; without an occurrence `s` is
      returned as is. */
  function ReplaceFirst(s: string, pat: string, rep: string): (r: string)
    ensures (forall k :: 0 <= k <= |s| ==> !OccursAt(s, pat, k)) ==> r == s
    ensures forall k: nat :: IsFirstOccurrence(s, pat, k) ==> k + |pat| <= |s| && r == s[..k] + rep + s[k + |pat|..]
    ensures |s| >= |pat| && s[..|pat|] == pat ==> r == rep + s[|pat|..]
  {
    var i := IndexOf(s, pat);
    ReplaceAtFirst(s, pat, rep);
    if i == -1 then s
    else s[..i] + rep + s[i + |pat|..]
  }

  /** The facts `ReplaceFirst` needs about the position `indexOf` reports. */
  lemma ReplaceAtFirst(s: string, pat: string, rep: string)
    ensures forall k: nat :: IsFirstOccurrence(s, pat, k) ==> IndexOf(s, pat) == k && k + |pat| <= |s|
    ensures |s| >= |pat| && s[..|pat|] == pat ==> IndexOf(s, pat) == 0
  {
    forall k: nat | IsFirstOccurrence(s, pat, k)
      ensures IndexOf(s, pat) == k && k + |pat| <= |s|
    {
      FirstOccurrenceIsIndexOf(s, pat, k);
    }
    if |s| >= |pat| && s[..|pat|] == pat {
      assert IsFirstOccurrence(s, pat, 0);
      FirstOccurrenceIsIndexOf(s, pat, 0);
    }
  }
}
