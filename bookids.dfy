/** The logbook numbers read from the logbook selector of the first page
    (logliberator.py:305-309). */
module BookIds {
  import opened Wrappers
  import opened Text

  /** An element of the page, reduced to its name and the two attributes the
      selector looks at; an attribute the element lacks is absent. */
  datatype Tag = Tag(name: string, id: Option<string>, value: Option<string>)

  predicate StartsWith(s: string, prefix: string) {
    |prefix| <= |s| && s[..|prefix|] == prefix
  }

  /** The digits of a value that `^[0-9]+$` accepts: the whole value, or the
      value without a final newline, which `$` also lets through. */
  function BookDigits(v: string): (r: Option<string>)
    ensures r.Some? ==> IsDecimal(r.value)
    ensures r.Some? ==> v == r.value || v == r.value + "\n"
    ensures IsDecimal(v) ==> r == Some(v)
    ensures |v| >= 2 && v[|v| - 1] == '\n' && IsDecimal(v[..|v| - 1]) ==> r == Some(v[..|v| - 1])
  {
    if IsDecimal(v) then Some(v)
    else if |v| >= 2 && v[|v| - 1] == '\n' && IsDecimal(v[..|v| - 1]) then
      assert v == v[..|v| - 1] + "\n";
      Some(v[..|v| - 1])
    else None
  }

  /** Digits followed by one newline are accepted, and give those digits. */
  lemma BookDigitsNewline(d: string)
    requires IsDecimal(d)
    ensures BookDigits(d + "\n") == Some(d)
  {
    var v := d + "\n";
    assert v[..|v| - 1] == d;
    assert !IsDigit(v[|v| - 1]);
  }

  /** `find_all('option', attrs={'id': re.compile('^booksel'), 'value':
      re.compile('^[0-9]+$')})` keeps a tag exactly when this holds. */
  predicate IsBookOption(t: Tag)
    ensures IsBookOption(t) ==> t.value.Some? && t.value.value != [] && IsDigit(t.value.value[0])
  {
    && t.name == "option"
    && t.id.Some? && StartsWith(t.id.value, "booksel")
    && t.value.Some? && BookDigits(t.value.value).Some?
  }

  /** `int(id['value'])` of a kept tag; `int` ignores the final newline. */
  function BookNumber(t: Tag): nat
    requires IsBookOption(t)
  {
    NatOf(BookDigits(t.value.value).value)
  }

  /** The numbers of the kept tags, in document order. */
  function BookIdsOf(tags: seq<Tag>): (r: seq<nat>)
    ensures |r| <= |tags|
    decreases |tags|
  {
    if tags == [] then []
    else
      var last := tags[|tags| - 1];
      BookIdsOf(tags[..|tags| - 1]) + (if IsBookOption(last) then [BookNumber(last)] else [])
  }

  /** The loop that collects the numbers. */
  method CollectBookIds(tags: seq<Tag>) returns (bookids: seq<nat>)
    ensures bookids == BookIdsOf(tags)
  {
    bookids := [];
    for i := 0 to |tags|
      invariant bookids == BookIdsOf(tags[..i])
    {
      assert tags[..i + 1][..i] == tags[..i];
      if IsBookOption(tags[i]) {
        bookids := bookids + [BookNumber(tags[i])];
      }
    }
    assert tags[..|tags|] == tags;
  }

  /** The numbers of two stretches of the page are the numbers of the first
      followed by those of the second. */
  lemma {:induction false} BookIdsAppend(a: seq<Tag>, b: seq<Tag>)
    ensures BookIdsOf(a + b) == BookIdsOf(a) + BookIdsOf(b)
    decreases |b|
  {
    if b != [] {
      var front := b[..|b| - 1];
      assert (a + b)[..|a + b| - 1] == a + front;
      assert (a + b)[|a + b| - 1] == b[|b| - 1];
      BookIdsAppend(a, front);
    } else {
      assert a + b == a;
    }
  }

  /** Every number comes from a kept tag, and every kept tag gives a number. */
  lemma {:induction false} BookIdsMembers(tags: seq<Tag>)
    ensures |BookIdsOf(tags)| <= |tags|
    ensures forall n :: n in BookIdsOf(tags) ==>
              exists i :: 0 <= i < |tags| && IsBookOption(tags[i]) && BookNumber(tags[i]) == n
    ensures forall i :: 0 <= i < |tags| && IsBookOption(tags[i]) ==> BookNumber(tags[i]) in BookIdsOf(tags)
    decreases |tags|
  {
    if tags != [] {
      var front := tags[..|tags| - 1];
      var last := tags[|tags| - 1];
      BookIdsMembers(front);
      forall n | n in BookIdsOf(tags)
        ensures exists i :: 0 <= i < |tags| && IsBookOption(tags[i]) && BookNumber(tags[i]) == n
      {
        if n in BookIdsOf(front) {
          var i :| 0 <= i < |front| && IsBookOption(front[i]) && BookNumber(front[i]) == n;
          assert tags[i] == front[i];
        } else {
          assert IsBookOption(last) && n == BookNumber(last);
        }
      }
      forall i | 0 <= i < |tags| && IsBookOption(tags[i]) ensures BookNumber(tags[i]) in BookIdsOf(tags) {
        if i < |front| {
          assert front[i] == tags[i];
        }
      }
    }
  }

  /** When every tag is a kept one, the numbers are theirs, one for one and in order. */
  lemma {:induction false} BookIdsAllKept(tags: seq<Tag>)
    requires forall i :: 0 <= i < |tags| ==> IsBookOption(tags[i])
    ensures |BookIdsOf(tags)| == |tags|
    ensures forall i :: 0 <= i < |tags| ==> BookIdsOf(tags)[i] == BookNumber(tags[i])
    decreases |tags|
  {
    if tags != [] {
      var front := tags[..|tags| - 1];
      forall i | 0 <= i < |front| ensures IsBookOption(front[i]) {
        assert front[i] == tags[i];
      }
      BookIdsAllKept(front);
      var last := tags[|tags| - 1];
      assert IsBookOption(last);
      assert BookIdsOf(tags) == BookIdsOf(front) + [BookNumber(last)];
      forall i | 0 <= i < |tags| ensures BookIdsOf(tags)[i] == BookNumber(tags[i]) {
        if i < |front| {
          assert front[i] == tags[i];
        }
      }
    }
  }

  /** A selector entry whose value has a newline after its digits is still kept. */
  lemma NewlineValueKept(t: Tag, digits: string)
    requires t.name == "option" && t.id.Some? && StartsWith(t.id.value, "booksel")
    requires IsDecimal(digits) && t.value == Some(digits + "\n")
    ensures IsBookOption(t) && BookNumber(t) == NatOf(digits)
  {
    var v := digits + "\n";
    assert v[..|v| - 1] == digits;
    assert !IsDigit(v[|v| - 1]);
  }
}
