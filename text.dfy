/** String primitives of the scraper: Python's `strip`, `replace`, slicing,
    `lower`/`upper`, `isdigit` and `int` on decimal text, and the `%03u`
    rendering used for coordinates. Only ASCII whitespace and ASCII digits are
    modelled. */
module Text {

  /** The ASCII characters Python's `str.strip()` removes. */
  predicate IsSpace(c: char) {
    c == ' ' || ('\t' <= c <= '\r') || ('\U{1C}' <= c <= '\U{1F}')
  }

  predicate IsDigit(c: char) {
    '0' <= c <= '9'
  }

  predicate AllDigits(s: string) {
    forall i :: 0 <= i < |s| ==> IsDigit(s[i])
  }

  /** Python's `str.isdigit()`: non-empty and digits only. */
  predicate IsDecimal(s: string) {
    s != [] && AllDigits(s)
  }

  predicate AllSpace(s: string) {
    forall i :: 0 <= i < |s| ==> IsSpace(s[i])
  }

  // ---------------------------------------------------------------- strip

  /** `s[lo:hi]` for bounds inside `s`, built character by character. */
  function Sub(s: string, lo: nat, hi: nat): (r: string)
    requires lo <= hi <= |s|
    ensures |r| == hi - lo
    ensures forall k :: 0 <= k < |r| ==> r[k] == s[lo + k]
    decreases hi - lo
  {
    if lo == hi then [] else [s[lo]] + Sub(s, lo + 1, hi)
  }

  /** The first position at or after `i` that does not hold whitespace. */
  function SkipSpace(s: string, i: nat): (j: nat)
    requires i <= |s|
    ensures i <= j <= |s|
    ensures forall k :: i <= k < j ==> IsSpace(s[k])
    ensures j == |s| || !IsSpace(s[j])
    decreases |s| - i
  {
    if i < |s| && IsSpace(s[i]) then SkipSpace(s, i + 1) else i
  }

  /** The position just after the last character of `s[lo..j]` that is not
      whitespace, or `lo` when there is none. */
  function SkipSpaceBack(s: string, lo: nat, j: nat): (k: nat)
    requires lo <= j <= |s|
    ensures lo <= k <= j
    ensures forall m :: k <= m < j ==> IsSpace(s[m])
    ensures k == lo || !IsSpace(s[k - 1])
    decreases j
  {
    if lo < j && IsSpace(s[j - 1]) then SkipSpaceBack(s, lo, j - 1) else j
  }

  /** Where the text kept by `strip` starts. */
  function TrimStart(s: string): nat {
    SkipSpace(s, 0)
  }

  /** Where the text kept by `strip` ends. */
  function TrimEnd(s: string): (e: nat)
    ensures TrimStart(s) <= e <= |s|
  {
    SkipSpaceBack(s, TrimStart(s), |s|)
  }

  /** Python's `str.strip()`: the longest middle piece of `s` that neither
      starts nor ends with whitespace; everything cut off is whitespace. */
  function Trim(s: string): (r: string)
    ensures r != [] ==> !IsSpace(r[0]) && !IsSpace(r[|r| - 1])
    ensures |r| <= |s|
    ensures AllSpace(s[..TrimStart(s)]) && AllSpace(s[TrimEnd(s)..])
    ensures r == s[TrimStart(s)..TrimEnd(s)]
  {
    var r := Sub(s, TrimStart(s), TrimEnd(s));
    assert r == s[TrimStart(s)..TrimEnd(s)];
    r
  }

  /** `strip` only removes characters. */
  lemma TrimChars(s: string)
    ensures forall c :: c in Trim(s) ==> c in s
  {
    var r := Trim(s);
    forall c | c in r ensures c in s {
      var i :| 0 <= i < |r| && r[i] == c;
      assert s[TrimStart(s) + i] == c;
    }
  }

  /** `strip` gives back text unchanged when it has no whitespace at either end. */
  lemma TrimOfTrimmed(s: string)
    requires s == [] || (!IsSpace(s[0]) && !IsSpace(s[|s| - 1]))
    ensures Trim(s) == s
  {
    assert TrimStart(s) == 0;
    assert TrimEnd(s) == |s|;
  }

  lemma TrimIdempotent(s: string)
    ensures Trim(Trim(s)) == Trim(s)
  {
    TrimOfTrimmed(Trim(s));
  }

  /** The stripped text is empty exactly when the text is all whitespace. */
  lemma TrimEmpty(s: string)
    ensures Trim(s) == [] <==> AllSpace(s)
  {
    if Trim(s) == [] {
      assert TrimEnd(s) == TrimStart(s);
    }
    if AllSpace(s) {
      assert TrimStart(s) == |s|;
    }
  }

  /** Text that starts with a non-space and has a non-space at position
      `n - 1` keeps its first `n` characters through `strip`. */
  lemma TrimKeepsFront(s: string, n: nat)
    requires 0 < n <= |s| && !IsSpace(s[0]) && !IsSpace(s[n - 1])
    ensures n <= |Trim(s)| && forall k :: 0 <= k < n ==> Trim(s)[k] == s[k]
  {
    assert TrimStart(s) == 0;
    assert n <= TrimEnd(s);
  }

  // -------------------------------------------------------------- search

  /** The position of the first `c` in `s` at or after `i`, or `|s|` when there is none. */
  function IndexOf(s: string, c: char, i: nat): (p: nat)
    requires i <= |s|
    ensures i <= p <= |s|
    ensures forall k :: i <= k < p ==> s[k] != c
    ensures p < |s| ==> s[p] == c
    ensures p == |s| ==> forall k :: i <= k < |s| ==> s[k] != c
    decreases |s| - i
  {
    if i == |s| || s[i] == c then i else IndexOf(s, c, i + 1)
  }

  // -------------------------------------------------------------- replace

  /** `pat` occurs in `s` starting at position `i`. */
  predicate OccursAt(s: string, pat: string, i: nat) {
    i + |pat| <= |s| && forall k :: 0 <= k < |pat| ==> s[i + k] == pat[k]
  }

  /** Python's `s.replace(pat, rep)` for a non-empty pattern: occurrences are
      replaced left to right and never overlap. */
  function Replace(s: string, pat: string, rep: string): (r: string)
    requires pat != []
    ensures |rep| <= |pat| ==> |r| <= |s|
    ensures |rep| == |pat| ==> |r| == |s|
    decreases |s|
  {
    if |s| < |pat| then s
    else if s[..|pat|] == pat then rep + Replace(s[|pat|..], pat, rep)
    else [s[0]] + Replace(s[1..], pat, rep)
  }

  /** A prefix equal to the pattern is an occurrence at position 0. */
  lemma OccursAtStart(s: string, pat: string)
    requires |pat| <= |s|
    ensures s[..|pat|] == pat <==> OccursAt(s, pat, 0)
  {
    if s[..|pat|] == pat {
      assert forall k :: 0 <= k < |pat| ==> s[k] == s[..|pat|][k];
    }
  }

  /** An occurrence in the text without its first character is one in the
      whole text, one position further on. */
  lemma OccursShift(s: string, pat: string, i: nat)
    requires s != []
    ensures OccursAt(s[1..], pat, i) ==> OccursAt(s, pat, i + 1)
  {
    if OccursAt(s[1..], pat, i) {
      forall k | 0 <= k < |pat| ensures s[i + 1 + k] == pat[k] {
        assert s[1..][i + k] == pat[k];
      }
    }
  }

  /** Replacing a pattern that does not occur changes nothing. */
  lemma {:induction false} ReplaceAbsent(s: string, pat: string, rep: string)
    requires pat != []
    requires forall i: nat :: !OccursAt(s, pat, i)
    ensures Replace(s, pat, rep) == s
    decreases |s|
  {
    if |s| >= |pat| {
      OccursAtStart(s, pat);
      assert !OccursAt(s, pat, 0);
      forall i: nat ensures !OccursAt(s[1..], pat, i) {
        OccursShift(s, pat, i);
      }
      ReplaceAbsent(s[1..], pat, rep);
      assert s == [s[0]] + s[1..];
    }
  }

  /** Deleting a pattern whose only occurrence closes the text drops just
      that end: `(s + pat).replace(pat, '') == s`. */
  lemma {:induction false} DeleteTrailing(s: string, pat: string)
    requires pat != []
    requires forall i :: 0 <= i < |s| ==> !OccursAt(s + pat, pat, i)
    ensures Replace(s + pat, pat, []) == s
    decreases |s|
  {
    var t := s + pat;
    OccursAtStart(t, pat);
    if s == [] {
      assert t == pat && t[..|pat|] == pat && t[|pat|..] == [];
    } else {
      assert !OccursAt(t, pat, 0);
      assert t[1..] == s[1..] + pat;
      forall i | 0 <= i < |s[1..]| ensures !OccursAt(s[1..] + pat, pat, i) {
        OccursShift(t, pat, i);
      }
      DeleteTrailing(s[1..], pat);
      assert s == [s[0]] + s[1..];
    }
  }

  /** A unit that starts with a space is deleted from the end of a text
      that holds no space. */
  lemma DeleteSpacedUnit(s: string, unit: string)
    requires unit != [] && unit[0] == ' ' && ' ' !in s
    ensures Replace(s + unit, unit, []) == s
  {
    forall i | 0 <= i < |s| ensures !OccursAt(s + unit, unit, i) {
      assert (s + unit)[i] == s[i];
    }
    DeleteTrailing(s, unit);
  }

  /** Replacing a character that does not occur changes nothing. */
  lemma {:induction false} ReplaceCharAbsent(s: string, a: char, rep: string)
    requires a !in s
    ensures Replace(s, [a], rep) == s
  {
    if s != [] {
      assert s[..1] == [s[0]];
      assert s == [s[0]] + s[1..];
      ReplaceCharAbsent(s[1..], a, rep);
    }
  }

  /** A one-character pattern never straddles two pieces, so replacing works piece by piece. */
  lemma {:induction false} ReplaceCharConcat(s: string, t: string, a: char, rep: string)
    ensures Replace(s + t, [a], rep) == Replace(s, [a], rep) + Replace(t, [a], rep)
  {
    if s == [] {
      assert s + t == t;
    } else {
      var u := s + t;
      assert u[..1] == s[..1] == [s[0]];
      assert u[1..] == s[1..] + t;
      ReplaceCharConcat(s[1..], t, a, rep);
    }
  }

  /** Deleting a character that occurs only at the end drops just that end. */
  lemma DeleteTrailingChar(s: string, a: char)
    requires a !in s
    ensures Replace(s + [a], [a], []) == s
  {
    ReplaceCharConcat(s, [a], a, []);
    ReplaceCharAbsent(s, a, []);
    assert [a][..1] == [a];
  }

  /** Replacing the one occurrence of `a` between two pieces that lack it. */
  lemma ReplaceJoin(x: string, y: string, a: char, b: char)
    requires a !in x && a !in y
    ensures Replace(x + [a] + y, [a], [b]) == x + [b] + y
  {
    assert x + [a] + y == x + ([a] + y);
    ReplaceCharConcat(x, [a] + y, a, [b]);
    ReplaceCharConcat([a], y, a, [b]);
    ReplaceCharAbsent(x, a, [b]);
    ReplaceCharAbsent(y, a, [b]);
    assert [a][..1] == [a];
    assert x + [b] + y == x + ([b] + y);
  }

  /** Deleting a leading `a` from a piece that otherwise lacks it. */
  lemma DeleteLeading(y: string, a: char)
    requires a !in y
    ensures Replace([a] + y, [a], []) == y
  {
    ReplaceCharConcat([a], y, a, []);
    ReplaceCharAbsent(y, a, []);
    assert Replace([a], [a], []) == [] by {
      assert [a][..1] == [a];
      assert [a][1..] == [];
    }
  }

  /** Deleting the one occurrence of `a` between two pieces that lack it. */
  lemma DeleteJoin(x: string, y: string, a: char)
    requires a !in x && a !in y
    ensures Replace(x + [a] + y, [a], []) == x + y
  {
    assert x + [a] + y == x + ([a] + y);
    ReplaceCharConcat(x, [a] + y, a, []);
    ReplaceCharAbsent(x, a, []);
    DeleteLeading(y, a);
  }

  /** Deleting the two occurrences of `a` that separate three pieces lacking it. */
  lemma DeleteSeparators(x: string, y: string, z: string, a: char)
    requires a !in x && a !in y && a !in z
    ensures Replace(x + [a] + y + [a] + z, [a], []) == x + y + z
  {
    var xy := x + [a] + y;
    assert x + [a] + y + [a] + z == xy + ([a] + z);
    ReplaceCharConcat(xy, [a] + z, a, []);
    DeleteJoin(x, y, a);
    DeleteLeading(z, a);
  }

  /** After replacing `a` by `b`, every character is `b` or one of the other characters of `s`. */
  lemma ReplaceCharChars(s: string, a: char, b: char)
    ensures forall c :: c in Replace(s, [a], [b]) ==> c == b || (c in s && c != a)
  {
    ReplaceCharAt(s, a, b);
    var r := Replace(s, [a], [b]);
    forall c | c in r ensures c == b || (c in s && c != a) {
      var i :| 0 <= i < |r| && r[i] == c;
      assert r[i] == (if s[i] == a then b else s[i]);
    }
  }

  /** Replacing one character by another keeps every position and swaps
      exactly the occurrences of `a` for `b`. */
  lemma {:induction false} ReplaceCharAt(s: string, a: char, b: char)
    ensures |Replace(s, [a], [b])| == |s|
    ensures forall i :: 0 <= i < |s| ==>
              Replace(s, [a], [b])[i] == (if s[i] == a then b else s[i])
  {
    if s != [] {
      ReplaceCharAt(s[1..], a, b);
      var r := Replace(s, [a], [b]);
      var c := if s[0] == a then b else s[0];
      assert s[..1] == [s[0]];
      assert r == [c] + Replace(s[1..], [a], [b]);
    }
  }

  /** Deleting a character: what is left is exactly the other characters of `s`. */
  lemma {:induction false} DeleteChar(s: string, a: char)
    ensures forall c :: c in Replace(s, [a], []) <==> c in s && c != a
    ensures |Replace(s, [a], [])| <= |s|
  {
    if s != [] {
      DeleteChar(s[1..], a);
      assert s[..1] == [s[0]];
      assert s == [s[0]] + s[1..];
    }
  }

  // -------------------------------------------------------------- slicing

  /** Python's `s[lo:hi]` for non-negative bounds: both ends are clamped to
      the length, and a crossed range is empty. */
  function Slice(s: string, lo: nat, hi: nat): (r: string)
    ensures |r| <= |s| && (lo <= hi ==> |r| <= hi - lo)
    ensures lo <= hi <= |s| ==> |r| == hi - lo
    ensures var h := if hi < |s| then hi else |s|; |r| == (if lo < h then h - lo else 0)
    ensures r != [] ==> lo + |r| <= |s|
    ensures forall k :: 0 <= k < |r| ==> r[k] == s[lo + k]
  {
    var h := if hi < |s| then hi else |s|;
    if lo >= h then [] else Sub(s, lo, h)
  }

  // ----------------------------------------------------------------- case

  function LowerChar(c: char): char {
    if 'A' <= c <= 'Z' then (c as int + 32) as char else c
  }

  function UpperChar(c: char): char {
    if 'a' <= c <= 'z' then (c as int - 32) as char else c
  }

  /** Python's `str.lower()` on ASCII letters; other characters are kept. */
  function Lower(s: string): (r: string)
    ensures |r| == |s| && forall i :: 0 <= i < |s| ==> r[i] == LowerChar(s[i])
  {
    seq(|s|, i requires 0 <= i < |s| => LowerChar(s[i]))
  }

  /** Python's `str.upper()` on ASCII letters; other characters are kept. */
  function Upper(s: string): (r: string)
    ensures |r| == |s| && forall i :: 0 <= i < |s| ==> r[i] == UpperChar(s[i])
  {
    seq(|s|, i requires 0 <= i < |s| => UpperChar(s[i]))
  }

  /** The lowered text is "no" only for the four spellings of a two-letter "no". */
  lemma LowerIsNo(s: string)
    ensures Lower(s) == "no" <==> |s| == 2 && (s[0] == 'n' || s[0] == 'N') && (s[1] == 'o' || s[1] == 'O')
  {
    if |s| == 2 && (s[0] == 'n' || s[0] == 'N') && (s[1] == 'o' || s[1] == 'O') {
      assert Lower(s) == [Lower(s)[0], Lower(s)[1]];
    }
  }

  // -------------------------------------------------------------- numbers

  function DigitValue(c: char): nat
    requires IsDigit(c)
  {
    c as int - '0' as int
  }

  function DigitChar(d: nat): (c: char)
    requires d < 10
    ensures IsDigit(c) && DigitValue(c) == d
  {
    ('0' as int + d) as char
  }

  /** `10` to the power `n`. */
  function Pow10(n: nat): (r: nat)
    ensures r >= 1
  {
    if n == 0 then 1 else 10 * Pow10(n - 1)
  }

  /** Python's `int(s)` on a string of decimal digits: a number with no more
      digits than `s` has. */
  function NatOf(s: string): (r: nat)
    requires AllDigits(s)
    ensures r < Pow10(|s|)
  {
    if s == [] then 0 else NatOf(s[..|s| - 1]) * 10 + DigitValue(s[|s| - 1])
  }

  /** A decimal string denotes a positive number exactly when one of its digits is not `0`. */
  lemma {:induction false} NatOfPositive(s: string)
    requires AllDigits(s)
    ensures NatOf(s) > 0 <==> exists i :: 0 <= i < |s| && s[i] != '0'
  {
    if s != [] {
      var p := s[..|s| - 1];
      NatOfPositive(p);
      if NatOf(s) > 0 && DigitValue(s[|s| - 1]) == 0 {
        var i :| 0 <= i < |p| && p[i] != '0';
        assert s[i] != '0';
      }
      if exists i :: 0 <= i < |s| && s[i] != '0' {
        var i :| 0 <= i < |s| && s[i] != '0';
        if i < |s| - 1 { assert p[i] != '0'; }
      }
    }
  }

  /** Leading zeros do not change the value. */
  lemma {:induction false} NatOfLeadingZero(s: string)
    requires AllDigits(s)
    ensures AllDigits(['0'] + s) && NatOf(['0'] + s) == NatOf(s)
  {
    if s != [] {
      var t := ['0'] + s;
      assert t[..|t| - 1] == ['0'] + s[..|s| - 1];
      NatOfLeadingZero(s[..|s| - 1]);
    }
  }

  /** The shortest decimal rendering of `n`, as `str` and `%u` print it. */
  function DecimalString(n: nat): (r: string)
    ensures IsDecimal(r) && NatOf(r) == n
    ensures r[0] == '0' ==> r == "0"
  {
    if n < 10 then [DigitChar(n)]
    else
      var p := DecimalString(n / 10);
      var r := p + [DigitChar(n % 10)];
      assert r[..|r| - 1] == p;
      r
  }

  /** `n` zeros. */
  function Zeros(n: nat): (r: string)
    ensures |r| == n && forall k :: 0 <= k < n ==> r[k] == '0'
  {
    seq(n, _ => '0')
  }

  /** Any number of leading zeros leaves the value as it is. */
  lemma {:induction false} NatOfZeros(n: nat, s: string)
    requires AllDigits(s)
    ensures AllDigits(Zeros(n) + s) && NatOf(Zeros(n) + s) == NatOf(s)
  {
    if n > 0 {
      NatOfZeros(n - 1, s);
      assert Zeros(n) + s == ['0'] + (Zeros(n - 1) + s);
      NatOfLeadingZero(Zeros(n - 1) + s);
    } else {
      assert Zeros(n) + s == s;
    }
  }

  /** Left padding with `0` to at least `width` characters, the effect of
      `%0<width>u`: the digits keep their value and come last, zeros fill the front. */
  function ZeroPad(s: string, width: nat): (r: string)
    requires AllDigits(s)
    ensures AllDigits(r) && NatOf(r) == NatOf(s)
    ensures |r| == (if |s| < width then width else |s|)
    ensures forall k :: |r| - |s| <= k < |r| ==> r[k] == s[k - (|r| - |s|)]
    ensures forall k :: 0 <= k < |r| - |s| ==> r[k] == '0'
  {
    if |s| >= width then s
    else
      NatOfZeros(width - |s|, s);
      Zeros(width - |s|) + s
  }

  /** Printing `int(d)` gives back `d` itself when `d` has no leading zero. */
  lemma {:induction false} DecimalRoundTrip(d: string)
    requires IsDecimal(d) && (d[0] != '0' || d == "0")
    ensures DecimalString(NatOf(d)) == d
  {
    if |d| >= 2 {
      var p := d[..|d| - 1];
      assert p[0] == d[0];
      NatOfPositive(p);
      assert NatOf(p) > 0;
      DecimalRoundTrip(p);
      assert NatOf(d) / 10 == NatOf(p);
      assert NatOf(d) % 10 == DigitValue(d[|d| - 1]);
      assert d == p + [d[|d| - 1]];
    }
  }
}
