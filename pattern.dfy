/** The regular-expression searches of the field handlers, each written out as
    Python's `re.search` runs it: try start positions from left to right and
    return the first that matches. Every pattern here is a greedy `[0-9]+`
    followed by a literal that does not start with a digit, so at a given start
    position the greedy run is the only candidate and backtracking cannot find
    another match. */
module Pattern {
  import opened Wrappers
  import opened Text

  /** Every character of `s` from `i` up to `j` is a digit. */
  predicate DigitsIn(s: string, i: nat, j: nat)
    requires i <= j <= |s|
  {
    forall k :: i <= k < j ==> IsDigit(s[k])
  }

  /** End of the greedy `[0-9]+` run that starts at `i`. */
  function RunEnd(s: string, i: nat): (j: nat)
    requires i <= |s|
    ensures i <= j <= |s| && DigitsIn(s, i, j)
    ensures j == |s| || !IsDigit(s[j])
    decreases |s| - i
  {
    if i < |s| && IsDigit(s[i]) then RunEnd(s, i + 1) else i
  }

  /** Every digit run from `i` ends no later than the greedy one. */
  lemma {:induction false} RunEndBound(s: string, i: nat, j: nat)
    requires i <= j <= |s| && DigitsIn(s, i, j)
    ensures j <= RunEnd(s, i)
    decreases j - i
  {
    if i < j {
      assert IsDigit(s[i]);
      RunEndBound(s, i + 1, j);
    }
  }

  /** A digit run followed by a non-digit is the greedy run. */
  lemma RunEndExact(s: string, i: nat, j: nat)
    requires i <= j <= |s| && DigitsIn(s, i, j) && (j == |s| || !IsDigit(s[j]))
    ensures RunEnd(s, i) == j
  {
    RunEndBound(s, i, j);
  }

  /** The digits of a run, as a string of digits. */
  lemma SubDigits(s: string, i: nat, j: nat)
    requires i <= j <= |s| && DigitsIn(s, i, j)
    ensures AllDigits(Sub(s, i, j))
  {
  }

  /** A literal that cannot continue a digit run. */
  predicate NonDigitStart(lit: string) {
    lit == [] || !IsDigit(lit[0])
  }

  /** A match of `([0-9]+)lit` whose group is `s[start..end]`. */
  datatype Span = Span(start: nat, end: nat)

  /** Digits from `i` to `j` followed by `lit`: the shape `([0-9]+)lit` accepts there. */
  predicate DigitsThen(s: string, lit: string, i: nat, j: nat) {
    i < j <= |s| && DigitsIn(s, i, j) && OccursAt(s, lit, j)
  }

  /** `re.search('([0-9]+)' + lit, s[from..])`, as a span of `s`. The match is
      the greedy run at the leftmost position where such a run is followed by
      `lit`; no earlier position has a run followed by `lit`. */
  function SearchDigits(s: string, lit: string, from: nat): (r: Option<Span>)
    requires from <= |s| && NonDigitStart(lit)
    ensures r.Some? ==> from <= r.value.start < r.value.end <= |s|
                        && DigitsIn(s, r.value.start, r.value.end)
                        && (r.value.end == |s| || !IsDigit(s[r.value.end]))
                        && OccursAt(s, lit, r.value.end)
    ensures forall i: nat, j: nat :: from <= i && (r.None? || i < r.value.start) ==> !DigitsThen(s, lit, i, j)
    decreases |s| - from
  {
    var e := RunEnd(s, from);
    if from < e && OccursAt(s, lit, e) then Some(Span(from, e))
    else
      assert forall j: nat :: !DigitsThen(s, lit, from, j) by {
        forall j: nat | from < j <= |s| && DigitsIn(s, from, j) ensures !OccursAt(s, lit, j) {
          RunEndBound(s, from, j);
          if j < e {
            assert IsDigit(s[j]);
          }
        }
      }
      if from == |s| then None else SearchDigits(s, lit, from + 1)
  }

  /** The text of the first group of `re.search('([0-9]+)' + lit, s)`. */
  function FindDigitsBefore(s: string, lit: string): (r: Option<string>)
    requires NonDigitStart(lit)
    ensures r.Some? ==> IsDecimal(r.value)
  {
    match SearchDigits(s, lit, 0)
    case None => None
    case Some(m) =>
      SubDigits(s, m.start, m.end);
      Some(Sub(s, m.start, m.end))
  }

  /** `re.search('[0-9]+', s).group(0)`: the first maximal digit run, if any. */
  function FirstDigitRun(s: string): (r: Option<string>)
    ensures r.Some? ==> IsDecimal(r.value)
  {
    FindDigitsBefore(s, "")
  }

  /** What `FindDigitsBefore` yields: a non-empty digit run that cannot be
      extended to the left or right and is followed by `lit`; no digit run
      followed by `lit` starts earlier. Absent exactly when there is no digit
      run followed by `lit` anywhere. */
  lemma FindDigitsBeforeSpec(s: string, lit: string)
    requires NonDigitStart(lit)
    ensures FindDigitsBefore(s, lit).None? <==> forall i: nat, j: nat :: !DigitsThen(s, lit, i, j)
    ensures FindDigitsBefore(s, lit).Some? ==>
              var m := SearchDigits(s, lit, 0).value;
              && FindDigitsBefore(s, lit).value == Sub(s, m.start, m.end)
              && IsDecimal(Sub(s, m.start, m.end))
              && DigitsThen(s, lit, m.start, m.end)
              && (m.end == |s| || !IsDigit(s[m.end]))
              && (m.start == 0 || !IsDigit(s[m.start - 1]))
              && forall i: nat, j: nat :: i < m.start ==> !DigitsThen(s, lit, i, j)
  {
    var r := SearchDigits(s, lit, 0);
    if r.Some? {
      var m := r.value;
      assert DigitsThen(s, lit, m.start, m.end);
      SubDigits(s, m.start, m.end);
      if m.start > 0 && IsDigit(s[m.start - 1]) {
        assert DigitsThen(s, lit, m.start - 1, m.end);
      }
    }
  }

  /** The first digit run: absent exactly when `s` has no digit; otherwise
      nothing before it is a digit and it stops at the first non-digit. */
  lemma FirstDigitRunSpec(s: string)
    ensures FirstDigitRun(s).None? <==> forall i :: 0 <= i < |s| ==> !IsDigit(s[i])
    ensures FirstDigitRun(s).Some? ==>
              var m := SearchDigits(s, "", 0).value;
              && FirstDigitRun(s).value == Sub(s, m.start, m.end)
              && IsDecimal(Sub(s, m.start, m.end))
              && (forall i :: 0 <= i < m.start ==> !IsDigit(s[i]))
              && (m.end == |s| || !IsDigit(s[m.end]))
  {
    var r := SearchDigits(s, "", 0);
    forall i: nat | i < |s| && IsDigit(s[i]) ensures DigitsThen(s, "", i, i + 1) {
    }
    if r.Some? {
      var m := r.value;
      SubDigits(s, m.start, m.end);
    } else {
      forall i | 0 <= i < |s| ensures !IsDigit(s[i]) {
        assert !DigitsThen(s, "", i, i + 1);
      }
    }
  }

  // -------------------------------------------------------- coordinates

  /** One match of `([0-9]+)\.([0-9]+) ([NS])` (or `[EW]`): the three groups
      and where the match starts. */
  datatype Coord = Coord(start: nat, degrees: string, fraction: string, hemisphere: char)

  /** The text a coordinate match covers. */
  function CoordText(c: Coord): string {
    c.degrees + "." + c.fraction + " " + [c.hemisphere]
  }

  /** Digits `s[i..j]`, a dot, digits `s[j+1..k]`, a space and a hemisphere letter. */
  predicate CoordShape(s: string, hemispheres: set<char>, i: nat, j: nat, k: nat) {
    && i < j && j + 1 < k && k + 1 < |s|
    && DigitsIn(s, i, j) && s[j] == '.' && DigitsIn(s, j + 1, k)
    && s[k] == ' ' && s[k + 1] in hemispheres
  }

  /** The pattern tried at position `i` only. */
  function CoordAt(s: string, hemispheres: set<char>, i: nat): Option<Coord>
    requires i <= |s|
  {
    var j := RunEnd(s, i);
    if i < j && j < |s| && s[j] == '.' then
      var k := RunEnd(s, j + 1);
      if j + 1 < k && k + 1 < |s| && s[k] == ' ' && s[k + 1] in hemispheres
      then Some(Coord(i, Sub(s, i, j), Sub(s, j + 1, k), s[k + 1]))
      else None
    else None
  }

  /** A match at `i` has digit strings for its numbers, an allowed hemisphere,
      and its text where it starts. */
  lemma CoordAtOccurs(s: string, hemispheres: set<char>, i: nat)
    requires i <= |s| && CoordAt(s, hemispheres, i).Some?
    ensures var c := CoordAt(s, hemispheres, i).value;
            && c.start == i && IsDecimal(c.degrees) && IsDecimal(c.fraction)
            && c.hemisphere in hemispheres && OccursAt(s, CoordText(c), i)
  {
    var c := CoordAt(s, hemispheres, i).value;
    var j := i + |c.degrees|;
    var k := j + 1 + |c.fraction|;
    SubDigits(s, i, j);
    SubDigits(s, j + 1, k);
    var t := CoordText(c);
    assert |t| == k + 2 - i;
    forall m | 0 <= m < |t| ensures s[i + m] == t[m] {
      if m < |c.degrees| { assert t[m] == c.degrees[m]; }
      else if m == |c.degrees| { assert t[m] == '.'; }
      else if m < |c.degrees| + 1 + |c.fraction| { assert t[m] == c.fraction[m - |c.degrees| - 1]; }
      else if m == |c.degrees| + 1 + |c.fraction| { assert t[m] == ' '; }
    }
  }

  /** `re.search(r'([0-9]+)\.([0-9]+) ([NS])', s[from..])` with the hemisphere
      letters as a parameter: the matched text is in `s` at the reported start,
      both numbers are non-empty digit strings, and no earlier position has
      the shape. Absent exactly when no position has it. */
  function SearchCoord(s: string, hemispheres: set<char>, from: nat): (r: Option<Coord>)
    requires from <= |s|
    ensures r.Some? ==> && from <= r.value.start
                        && IsDecimal(r.value.degrees) && IsDecimal(r.value.fraction)
                        && r.value.hemisphere in hemispheres
                        && OccursAt(s, CoordText(r.value), r.value.start)
    ensures forall i: nat, j: nat, k: nat :: from <= i && (r.None? || i < r.value.start) ==>
              !CoordShape(s, hemispheres, i, j, k)
    decreases |s| - from
  {
    match CoordAt(s, hemispheres, from)
    case Some(c) =>
      CoordAtOccurs(s, hemispheres, from);
      Some(c)
    case None =>
      assert forall j: nat, k: nat :: !CoordShape(s, hemispheres, from, j, k) by {
        forall j: nat, k: nat | CoordShape(s, hemispheres, from, j, k) ensures false {
          RunEndExact(s, from, j);
          RunEndExact(s, j + 1, k);
        }
      }
      if from == |s| then None else SearchCoord(s, hemispheres, from + 1)
  }

  /** A coordinate shape at `from` is what the search reports there. */
  lemma SearchCoordHere(s: string, hemispheres: set<char>, from: nat, j: nat, k: nat)
    requires from <= |s| && CoordShape(s, hemispheres, from, j, k)
    ensures SearchCoord(s, hemispheres, from)
            == Some(Coord(from, Sub(s, from, j), Sub(s, j + 1, k), s[k + 1]))
  {
    RunEndExact(s, from, j);
    RunEndExact(s, j + 1, k);
  }

  /** A search from a non-digit goes on from the next position. */
  lemma SearchCoordSkip(s: string, hemispheres: set<char>, from: nat)
    requires from < |s| && !IsDigit(s[from])
    ensures SearchCoord(s, hemispheres, from) == SearchCoord(s, hemispheres, from + 1)
  {
  }

  /** A digit run from the start of `s`, followed by `lit`, is the match. */
  lemma FindDigitsAtStart(s: string, lit: string, j: nat)
    requires NonDigitStart(lit) && DigitsThen(s, lit, 0, j) && (j == |s| || !IsDigit(s[j]))
    ensures FindDigitsBefore(s, lit) == Some(Sub(s, 0, j))
  {
    RunEndExact(s, 0, j);
  }

  /** A text that starts with digits and then `lit` yields those digits. */
  lemma FindDigitsFirst(d: string, lit: string, tail: string)
    requires IsDecimal(d) && lit != [] && !IsDigit(lit[0])
    ensures FindDigitsBefore(d + lit + tail, lit) == Some(d)
  {
    var s := d + lit + tail;
    forall k | 0 <= k < |d| ensures s[k] == d[k] { }
    forall k | 0 <= k < |lit| ensures s[|d| + k] == lit[k] { }
    assert s[|d|] == lit[0];
    FindDigitsAtStart(s, lit, |d|);
    assert Sub(s, 0, |d|) == d;
  }

  /** A text that starts with a digit run yields that run as its first one. */
  lemma FirstDigitRunLeading(d: string, rest: string)
    requires IsDecimal(d) && (rest == [] || !IsDigit(rest[0]))
    ensures FirstDigitRun(d + rest) == Some(d)
  {
    var s := d + rest;
    forall k | 0 <= k < |d| ensures s[k] == d[k] { }
    assert |d| == |s| || s[|d|] == rest[0];
    FindDigitsAtStart(s, "", |d|);
    assert Sub(s, 0, |d|) == d;
  }

  /** The text of a coordinate, after non-digits, is the first match. */
  lemma CoordFirst(pre: string, c: Coord, hemispheres: set<char>, tail: string)
    requires forall k :: 0 <= k < |pre| ==> !IsDigit(pre[k])
    requires IsDecimal(c.degrees) && IsDecimal(c.fraction) && c.hemisphere in hemispheres
    requires c.start == |pre|
    ensures SearchCoord(pre + CoordText(c) + tail, hemispheres, 0) == Some(c)
  {
    var s := pre + CoordText(c) + tail;
    OccursInside(pre, CoordText(c), tail);
    SearchCoordOccurs(s, c, hemispheres);
    forall m | 0 <= m < |pre| ensures !IsDigit(s[m]) {
      assert s[m] == pre[m];
    }
    SkipNonDigits(s, hemispheres, 0, |pre|);
  }

  /** Where the text of a coordinate occurs, a search from there finds it. */
  lemma SearchCoordOccurs(s: string, c: Coord, hemispheres: set<char>)
    requires IsDecimal(c.degrees) && IsDecimal(c.fraction) && c.hemisphere in hemispheres
    requires OccursAt(s, CoordText(c), c.start)
    ensures SearchCoord(s, hemispheres, c.start) == Some(c)
  {
    var j := c.start + |c.degrees|;
    var k := j + 1 + |c.fraction|;
    CoordShapeOf(s, c, hemispheres);
    SearchCoordHere(s, hemispheres, c.start, j, k);
    var found := Coord(c.start, Sub(s, c.start, j), Sub(s, j + 1, k), s[k + 1]);
    assert found == c;
  }

  lemma OccursInside(pre: string, t: string, tail: string)
    ensures OccursAt(pre + t + tail, t, |pre|)
  {
    var s := pre + t + tail;
    forall m | 0 <= m < |t| ensures s[|pre| + m] == t[m] { }
  }

  /** Where the text of a coordinate occurs, the shape holds with that coordinate's groups. */
  lemma CoordShapeOf(s: string, c: Coord, hemispheres: set<char>)
    requires IsDecimal(c.degrees) && IsDecimal(c.fraction) && c.hemisphere in hemispheres
    requires OccursAt(s, CoordText(c), c.start)
    ensures var j := c.start + |c.degrees|;
            var k := j + 1 + |c.fraction|;
            && CoordShape(s, hemispheres, c.start, j, k)
            && Sub(s, c.start, j) == c.degrees && Sub(s, j + 1, k) == c.fraction && s[k + 1] == c.hemisphere
  {
    var t := CoordText(c);
    var i := c.start;
    var j := i + |c.degrees|;
    var k := j + 1 + |c.fraction|;
    forall m | 0 <= m < |c.degrees| ensures s[i + m] == c.degrees[m] {
      assert t[m] == c.degrees[m];
    }
    forall m | 0 <= m < |c.fraction| ensures s[j + 1 + m] == c.fraction[m] {
      assert t[|c.degrees| + 1 + m] == c.fraction[m];
    }
    forall m | i <= m < j ensures IsDigit(s[m]) {
      assert s[i + (m - i)] == c.degrees[m - i];
    }
    forall m | j + 1 <= m < k ensures IsDigit(s[m]) {
      assert s[j + 1 + (m - j - 1)] == c.fraction[m - j - 1];
    }
    assert s[j] == t[|c.degrees|];
    assert s[k] == t[k - i];
    assert s[k + 1] == t[k + 1 - i];
    assert Sub(s, i, j) == c.degrees;
    assert Sub(s, j + 1, k) == c.fraction;
  }

  /** A search that starts among leading non-digits finds what a search from after them finds. */
  lemma {:induction false} SkipNonDigits(s: string, hemispheres: set<char>, from: nat, n: nat)
    requires from <= n <= |s|
    requires forall k :: from <= k < n ==> !IsDigit(s[k])
    ensures SearchCoord(s, hemispheres, from) == SearchCoord(s, hemispheres, n)
    decreases n - from
  {
    if from < n {
      SearchCoordSkip(s, hemispheres, from);
      SkipNonDigits(s, hemispheres, from + 1, n);
    }
  }
}
