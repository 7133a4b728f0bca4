/** The contact record and the three normalising setters `assign_value`,
    `assign_call` and `str_or_intl` (logliberator.py:19-49). */
module Record {
  import opened Wrappers
  import opened Text

  /** A contact record: field name to field value. */
  type Fields = map<string, string>

  /** The character some logbook pages print for the digit zero in callsigns. */
  const SlashedZero: char := '\U{D8}'

  /** Non-empty, and `strip` would leave it as it is (see `TrimOfTrimmed`). */
  predicate Stripped(v: string) {
    v != [] && !IsSpace(v[0]) && !IsSpace(v[|v| - 1])
  }

  /** Every stored value is stripped and non-empty: the invariant all setters keep. */
  predicate Clean(m: Fields) {
    forall k :: k in m ==> Stripped(m[k])
  }

  /** What `assign_value(entry, name, value)` writes: `name` set to the
      stripped value, or nothing when the value is blank. */
  function Put(name: string, value: string): (w: Fields)
    ensures w.Keys <= {name}
    ensures name in w <==> !AllSpace(value)
    ensures name in w ==> w[name] == Trim(value)
    ensures Clean(w)
  {
    TrimEmpty(value);
    var v := Trim(value);
    if |v| > 0 then map[name := v] else map[]
  }

  /** `Ø` replaced by `0`, as `assign_call` does before storing. */
  function ZeroForSlashed(s: string): string {
    Replace(s, [SlashedZero], "0")
  }

  /** What `assign_call(entry, name, value)` writes: nothing for an absent
      value; otherwise the value with every `Ø` read as `0`, stored like
      `assign_value` does. The stored callsign never holds a `Ø`. */
  function PutCall(name: string, value: Option<string>): (w: Fields)
    ensures w.Keys <= {name}
    ensures value.None? ==> w == map[]
    ensures name in w <==> value.Some? && !AllSpace(value.value)
    ensures name in w ==> w[name] == Trim(ZeroForSlashed(value.value))
    ensures name in w ==> SlashedZero !in w[name]
    ensures Clean(w)
  {
    match value
    case None => map[]
    case Some(v) =>
      var z := ZeroForSlashed(v);
      ZeroForSlashedAt(v);
      assert AllSpace(z) <==> AllSpace(v);
      TrimChars(z);
      Put(name, z)
  }

  /** `Ø` becomes `0` in the same position; every other character stays. */
  lemma ZeroForSlashedAt(s: string)
    ensures |ZeroForSlashed(s)| == |s|
    ensures forall i :: 0 <= i < |s| ==>
              ZeroForSlashed(s)[i] == (if s[i] == SlashedZero then '0' else s[i])
    ensures SlashedZero !in ZeroForSlashed(s)
  {
    ReplaceCharAt(s, SlashedZero, '0');
  }

  /** The callsign `Ø1ABC` is stored as `01ABC`. */
  lemma PutCallExample()
    ensures PutCall("call", Some([SlashedZero] + "1ABC")) == map["call" := "01ABC"]
  {
    var s := [SlashedZero] + "1ABC";
    ZeroForSlashedAt(s);
    assert ZeroForSlashed(s) == "01ABC";
    TrimOfTrimmed("01ABC");
  }

  /** In four writes of one distinct name each, every name is where its own write put it. */
  lemma Union4(a: Fields, b: Fields, c: Fields, d: Fields, ka: string, kb: string, kc: string, kd: string)
    requires a.Keys <= {ka} && b.Keys <= {kb} && c.Keys <= {kc} && d.Keys <= {kd}
    requires ka != kb && ka != kc && ka != kd && kb != kc && kb != kd && kc != kd
    ensures (a + b + c + d).Keys <= {ka, kb, kc, kd}
    ensures ka in a + b + c + d <==> ka in a
    ensures kb in a + b + c + d <==> kb in b
    ensures kc in a + b + c + d <==> kc in c
    ensures kd in a + b + c + d <==> kd in d
    ensures ka in a ==> (a + b + c + d)[ka] == a[ka]
    ensures kb in b ==> (a + b + c + d)[kb] == b[kb]
    ensures kc in c ==> (a + b + c + d)[kc] == c[kc]
    ensures kd in d ==> (a + b + c + d)[kd] == d[kd]
  {
  }

  /** In three writes of one distinct name each, every name is where its own write put it. */
  lemma Union3(a: Fields, b: Fields, c: Fields, ka: string, kb: string, kc: string)
    requires a.Keys <= {ka} && b.Keys <= {kb} && c.Keys <= {kc}
    requires ka != kb && ka != kc && kb != kc
    ensures (a + b + c).Keys <= {ka, kb, kc}
    ensures ka in a + b + c <==> ka in a
    ensures kb in a + b + c <==> kb in b
    ensures kc in a + b + c <==> kc in c
    ensures ka in a ==> (a + b + c)[ka] == a[ka]
    ensures kb in b ==> (a + b + c)[kb] == b[kb]
    ensures kc in c ==> (a + b + c)[kc] == c[kc]
  {
  }

  /** In two writes of two names each, all four distinct, every name is where its own write put it. */
  lemma Union22(a: Fields, b: Fields, ka: string, kb: string, kc: string, kd: string)
    requires a.Keys <= {ka, kb} && b.Keys <= {kc, kd}
    requires ka != kc && ka != kd && kb != kc && kb != kd
    ensures (a + b).Keys <= {ka, kb, kc, kd}
    ensures ka in a + b <==> ka in a
    ensures kb in a + b <==> kb in a
    ensures kc in a + b <==> kc in b
    ensures kd in a + b <==> kd in b
    ensures ka in a ==> (a + b)[ka] == a[ka]
    ensures kb in a ==> (a + b)[kb] == a[kb]
    ensures kc in b ==> (a + b)[kc] == b[kc]
    ensures kd in b ==> (a + b)[kd] == b[kd]
  {
  }

  /** Writes applied one after another are the writes' union applied at once. */
  lemma UnionAssoc(m: Fields, a: Fields, b: Fields)
    ensures m + a + b == m + (a + b)
  {
  }

  /** Writing nothing leaves the record as it was. */
  lemma UnionEmpty(m: Fields)
    ensures m + map[] == m
  {
  }

  /** Adding clean writes to a clean record keeps it clean. */
  lemma CleanUnion(m: Fields, w: Fields)
    requires Clean(m) && Clean(w)
    ensures Clean(m + w)
  {
    forall k | k in m + w ensures Stripped((m + w)[k]) {
      if k in w { assert (m + w)[k] == w[k]; } else { assert (m + w)[k] == m[k]; }
    }
  }

  /** A record object that the normalisers update in place. */
  class Entry {
    var fields: Fields

    ghost predicate Valid()
      reads this
    {
      Clean(fields)
    }

    /** A fresh, empty record (`adif.newEntry()`). */
    constructor ()
      ensures fields == map[] && Valid()
    {
      fields := map[];
    }

    /** `assign_value`: store the stripped value unless it is blank; every
        other field is left as it was. */
    method AssignValue(name: string, value: string)
      modifies this
      ensures fields == old(fields) + Put(name, value)
      ensures forall k :: k != name ==> (k in fields <==> k in old(fields))
      ensures forall k :: k != name && k in fields ==> fields[k] == old(fields)[k]
      ensures old(Valid()) ==> Valid()
    {
      var stripped := Trim(value);
      if |stripped| > 0 {
        fields := fields[name := stripped];
        assert Put(name, value) == map[name := stripped];
      } else {
        assert Put(name, value) == map[];
      }
      if old(Valid()) {
        CleanUnion(old(fields), Put(name, value));
      }
    }

    /** `assign_call`: nothing for an absent value, else `Ø` becomes `0` and
        the result is stored by `AssignValue`. */
    method AssignCall(name: string, value: Option<string>)
      modifies this
      ensures fields == old(fields) + PutCall(name, value)
      ensures old(Valid()) ==> Valid()
    {
      if value.None? {
        return;
      }
      var v := ZeroForSlashed(value.value);
      AssignValue(name, v);
    }

    /** `str_or_intl`: store the stripped value unless it is blank. The
        `_intl` fallback runs only when storing raises, which a dictionary
        assignment never does, so it is not part of the model; storing the
        already stripped value through `AssignValue` stores the same thing. */
    method StrOrIntl(name: string, value: string)
      modifies this
      ensures fields == old(fields) + Put(name, value)
      ensures old(Valid()) ==> Valid()
    {
      var stripped := Trim(value);
      if |stripped| > 0 {
        TrimIdempotent(value);
        AssignValue(name, stripped);
      } else {
        TrimEmpty(value);
      }
    }
  }
}
