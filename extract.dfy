/** What each handler of logliberator.py:57-266 writes into the contact
    record, as a map of its own. No handler reads the record, so running a
    handler on a record `m` leaves `m + w` where `w` depends on the row alone;
    the methods of module `Handler` are proved to have exactly that effect. */
module Extract {
  import opened Wrappers
  import opened Text
  import opened Pattern
  import opened Record
  import opened Rows

  /** The degree sign after a bearing. */
  const Degree: char := '\U{B0}'

  /** A value found by a regular expression, stored by `assign_value`; no
      match writes nothing. */
  function PutFound(name: string, found: Option<string>): (w: Fields)
    ensures w.Keys <= {name}
    ensures found.None? ==> w == map[]
    ensures found.Some? ==> w == Put(name, found.value)
    ensures Clean(w)
  {
    match found
    case None => map[]
    case Some(v) => Put(name, v)
  }

  /** A digit string is stored exactly as it is. */
  lemma PutDecimal(name: string, d: string)
    requires IsDecimal(d)
    ensures Put(name, d) == map[name := d]
  {
    assert !IsSpace(d[0]);
    TrimOfTrimmed(d);
  }

  /** Storing an already stripped value gives the same as storing the raw one. */
  lemma PutTrimmed(name: string, v: string)
    ensures Put(name, Trim(v)) == Put(name, v)
  {
    TrimIdempotent(v);
    TrimEmpty(v);
    TrimEmpty(Trim(v));
    var a := Put(name, Trim(v));
    var b := Put(name, v);
    assert a.Keys == b.Keys;
    assert forall k :: k in a ==> a[k] == b[k];
  }

  /** A value made by deleting `c` and then stored has no `c` and is no longer than the source. */
  lemma StoredWithout(name: string, s: string, c: char)
    ensures name in Put(name, Replace(s, [c], [])) ==>
              c !in Put(name, Replace(s, [c], []))[name]
              && |Put(name, Replace(s, [c], []))[name]| <= |s|
  {
    DeleteChar(s, c);
    TrimChars(Replace(s, [c], []));
  }

  // ------------------------------------------------------------ dates

  /** `stamp[0:10].replace('-', '')`: the date of a `YYYY-MM-DD HH:MM:SS` stamp
      as `YYYYMMDD`; at most ten characters, none of them a dash. */
  function DatePart(stamp: string): (r: string)
    ensures '-' !in r && |r| <= 10
  {
    DeleteChar(Slice(stamp, 0, 10), '-');
    Replace(Slice(stamp, 0, 10), "-", "")
  }

  /** `stamp[11:19].replace(':', '')`: the time of the stamp as `HHMMSS`; at
      most eight characters, none of them a colon. */
  function TimePart(stamp: string): (r: string)
    ensures ':' !in r && |r| <= 8
  {
    DeleteChar(Slice(stamp, 11, 19), ':');
    Replace(Slice(stamp, 11, 19), ":", "")
  }

  /** A well-formed stamp: digits in the right places, `-`, ` ` and `:` between them. */
  predicate IsStamp(y: string, mo: string, d: string, h: string, mi: string, sec: string) {
    |y| == 4 && |mo| == 2 && |d| == 2 && |h| == 2 && |mi| == 2 && |sec| == 2
    && AllDigits(y + mo + d + h + mi + sec)
  }

  lemma DigitsLackChar(s: string, c: char)
    requires AllDigits(s) && !IsDigit(c)
    ensures c !in s
  {
  }

  /** Each piece of a well-formed stamp is all digits. */
  lemma StampDigits(y: string, mo: string, d: string, h: string, mi: string, sec: string)
    requires IsStamp(y, mo, d, h, mi, sec)
    ensures AllDigits(y) && AllDigits(mo) && AllDigits(d)
    ensures AllDigits(h) && AllDigits(mi) && AllDigits(sec)
    ensures IsDecimal(y + mo + d) && IsDecimal(h + mi + sec)
  {
    var all := y + mo + d + h + mi + sec;
    assert y == all[0..4] && mo == all[4..6] && d == all[6..8];
    assert h == all[8..10] && mi == all[10..12] && sec == all[12..14];
    assert y + mo + d == all[..8];
    assert h + mi + sec == all[8..];
  }

  /** A text that starts with `YYYY-MM-DD` has that date as `YYYYMMDD`,
      whatever follows it. */
  lemma DateOfText(y: string, mo: string, d: string, rest: string)
    requires |y| == 4 && |mo| == 2 && |d| == 2 && AllDigits(y + mo + d)
    ensures DatePart(y + "-" + mo + "-" + d + rest) == y + mo + d
  {
    DateDigits(y, mo, d);
    var date := y + "-" + mo + "-" + d;
    assert y + "-" + mo + "-" + d + rest == date + rest;
    SliceOfFront(date, rest);
    DeleteSeparators(y, mo, d, '-');
  }

  /** The pieces of a date hold no dash. */
  lemma DateDigits(y: string, mo: string, d: string)
    requires |y| == 4 && |mo| == 2 && |d| == 2 && AllDigits(y + mo + d)
    ensures '-' !in y && '-' !in mo && '-' !in d
  {
    var all := y + mo + d;
    assert y == all[0..4] && mo == all[4..6] && d == all[6..8];
    DigitsLackChar(y, '-'); DigitsLackChar(mo, '-'); DigitsLackChar(d, '-');
  }

  /** The first `|a|` characters of `a + b` are `a`. */
  lemma SliceOfFront(a: string, b: string)
    ensures Slice(a + b, 0, |a|) == a
  {
    var t := Slice(a + b, 0, |a|);
    forall k | 0 <= k < |a| ensures t[k] == a[k] {
      assert (a + b)[k] == a[k];
    }
  }

  /** Slicing a `YYYY-MM-DD HH:MM:SS` stamp yields `YYYYMMDD`. */
  lemma DateOfStamp(y: string, mo: string, d: string, h: string, mi: string, sec: string)
    requires IsStamp(y, mo, d, h, mi, sec)
    ensures DatePart(y + "-" + mo + "-" + d + " " + h + ":" + mi + ":" + sec) == y + mo + d
  {
    StampDigits(y, mo, d, h, mi, sec);
    var rest := " " + h + ":" + mi + ":" + sec;
    assert y + "-" + mo + "-" + d + " " + h + ":" + mi + ":" + sec == y + "-" + mo + "-" + d + rest;
    DateOfText(y, mo, d, rest);
  }

  /** Slicing a `YYYY-MM-DD HH:MM:SS` stamp yields `HHMMSS`. */
  lemma TimeOfStamp(y: string, mo: string, d: string, h: string, mi: string, sec: string)
    requires IsStamp(y, mo, d, h, mi, sec)
    ensures TimePart(y + "-" + mo + "-" + d + " " + h + ":" + mi + ":" + sec) == h + mi + sec
  {
    StampDigits(y, mo, d, h, mi, sec);
    var stamp := y + "-" + mo + "-" + d + " " + h + ":" + mi + ":" + sec;
    var time := h + ":" + mi + ":" + sec;
    var front := y + "-" + mo + "-" + d + " ";
    assert stamp == front + time;
    assert |front| == 11 && |time| == 8;
    forall k | 0 <= k < 8 ensures Slice(stamp, 11, 19)[k] == time[k] {
      assert stamp[11 + k] == (front + time)[11 + k];
    }
    assert Slice(stamp, 11, 19) == time;
    DigitsLackChar(h, ':'); DigitsLackChar(mi, ':'); DigitsLackChar(sec, ':');
    DeleteSeparators(h, mi, sec, ':');
  }

  /** `s[0:10]` of a text of at most ten characters is the whole text, so a
      short Log Date keeps everything but its dashes. */
  lemma DatePartShort(t: string)
    requires |t| <= 10
    ensures DatePart(t) == Replace(t, "-", "")
  {
    var c := Slice(t, 0, 10);
    assert |c| == |t|;
    assert c == t;
  }

  /** A stamp cut off after the minutes, `YYYY-MM-DD HH:MM`: `s[11:19]` is
      clamped to the text and yields `HHMM`. */
  lemma TimeOfShortStamp(front: string, h: string, mi: string)
    requires |front| == 11 && |h| == 2 && |mi| == 2 && AllDigits(h + mi)
    ensures TimePart(front + h + ":" + mi) == h + mi
  {
    var stamp := front + h + ":" + mi;
    var time := h + ":" + mi;
    assert stamp == front + time;
    var c := Slice(stamp, 11, 19);
    assert |c| == 5;
    forall k | 0 <= k < 5 ensures c[k] == time[k] {
      assert stamp[11 + k] == (front + time)[11 + k];
    }
    assert c == time;
    assert h == (h + mi)[..2] && mi == (h + mi)[2..];
    DigitsLackChar(h, ':'); DigitsLackChar(mi, ':');
    DeleteJoin(h, mi, ':');
  }

  // ----------------------------------------------------------- Serial

  /** `Serial`: the ten characters after `Log Date:` in the second cell,
      without dashes, as the upload date. */
  function SerialWrites(row: Row): (w: Fields)
    ensures w.Keys <= {"QRZCOM_QSO_UPLOAD_DATE"}
    ensures "QRZCOM_QSO_UPLOAD_DATE" in w <==>
              |row.cells| >= 2 && row.logDate.Some? && !AllSpace(DatePart(row.logDate.value))
    ensures "QRZCOM_QSO_UPLOAD_DATE" in w ==>
              w["QRZCOM_QSO_UPLOAD_DATE"] == Trim(DatePart(row.logDate.value))
    ensures "QRZCOM_QSO_UPLOAD_DATE" in w ==>
              '-' !in w["QRZCOM_QSO_UPLOAD_DATE"] && |w["QRZCOM_QSO_UPLOAD_DATE"]| <= 10
    ensures Clean(w)
  {
    if |row.cells| >= 2 && row.logDate.Some? then
      StoredWithout("QRZCOM_QSO_UPLOAD_DATE", Slice(row.logDate.value, 0, 10), '-');
      Put("QRZCOM_QSO_UPLOAD_DATE", DatePart(row.logDate.value))
    else map[]
  }

  /** A Log Date that starts `YYYY-MM-DD` is stored as `YYYYMMDD`, whatever
      follows the date. */
  lemma SerialDate(row: Row, y: string, mo: string, d: string, rest: string)
    requires |y| == 4 && |mo| == 2 && |d| == 2 && AllDigits(y + mo + d)
    requires |row.cells| >= 2 && row.logDate == Some(y + "-" + mo + "-" + d + rest)
    ensures SerialWrites(row) == map["QRZCOM_QSO_UPLOAD_DATE" := y + mo + d]
  {
    DateOfText(y, mo, d, rest);
    PutDecimal("QRZCOM_QSO_UPLOAD_DATE", y + mo + d);
  }

  // ------------------------------------------------- QSO_Start, QSO_End

  /** The date and the time of a stamp, each stored by `assign_value`. */
  function StampWrites(dateKey: string, timeKey: string, stamp: string): (w: Fields)
    requires dateKey != timeKey
    ensures w.Keys <= {dateKey, timeKey}
    ensures dateKey in w <==> !AllSpace(DatePart(stamp))
    ensures timeKey in w <==> !AllSpace(TimePart(stamp))
    ensures dateKey in w ==> w[dateKey] == Trim(DatePart(stamp))
    ensures timeKey in w ==> w[timeKey] == Trim(TimePart(stamp))
    ensures dateKey in w ==> '-' !in w[dateKey] && |w[dateKey]| <= 10
    ensures timeKey in w ==> ':' !in w[timeKey] && |w[timeKey]| <= 8
    ensures Clean(w)
  {
    StoredWithout(dateKey, Slice(stamp, 0, 10), '-');
    StoredWithout(timeKey, Slice(stamp, 11, 19), ':');
    var date := Put(dateKey, DatePart(stamp));
    var time := Put(timeKey, TimePart(stamp));
    assert dateKey !in time && timeKey !in date;
    CleanUnion(date, time);
    date + time
  }

  /** A well-formed stamp is stored as `YYYYMMDD` and `HHMMSS`. */
  lemma StampWritesOf(dateKey: string, timeKey: string,
                      y: string, mo: string, d: string, h: string, mi: string, sec: string)
    requires dateKey != timeKey
    requires IsStamp(y, mo, d, h, mi, sec)
    ensures StampWrites(dateKey, timeKey, y + "-" + mo + "-" + d + " " + h + ":" + mi + ":" + sec)
            == map[dateKey := y + mo + d, timeKey := h + mi + sec]
  {
    DateOfStamp(y, mo, d, h, mi, sec);
    TimeOfStamp(y, mo, d, h, mi, sec);
    StampDigits(y, mo, d, h, mi, sec);
    StampWritesDecimal(dateKey, timeKey, y + "-" + mo + "-" + d + " " + h + ":" + mi + ":" + sec,
                       y + mo + d, h + mi + sec);
  }

  /** A stamp whose date and time parts are digit strings stores them as they are. */
  lemma StampWritesDecimal(dateKey: string, timeKey: string, stamp: string, date: string, time: string)
    requires dateKey != timeKey
    requires DatePart(stamp) == date && TimePart(stamp) == time
    requires IsDecimal(date) && IsDecimal(time)
    ensures StampWrites(dateKey, timeKey, stamp) == map[dateKey := date, timeKey := time]
  {
    PutDecimal(dateKey, date);
    PutDecimal(timeKey, time);
    StampWritesSplit(dateKey, timeKey, stamp);
    MapPair(dateKey, timeKey, date, time);
  }

  lemma StampWritesSplit(dateKey: string, timeKey: string, stamp: string)
    requires dateKey != timeKey
    ensures StampWrites(dateKey, timeKey, stamp)
            == Put(dateKey, DatePart(stamp)) + Put(timeKey, TimePart(stamp))
  {
  }

  lemma MapPair(a: string, b: string, x: string, y: string)
    ensures map[a := x] + map[b := y] == map[a := x, b := y]
  {
  }

  /** The three cases in which `QSO_Start` stores nothing: fewer than two
      cells, a stripped second cell that lower-cases to `no`, or one shorter
      than a full stamp. */
  predicate SkipsStart(row: Row) {
    |row.cells| < 2 || Lower(Trim(row.cells[1])) == "no" || |Trim(row.cells[1])| < 19
  }

  /** `QSO_Start`: the date and time of the stripped second cell, unless skipped. */
  function QsoStartWrites(row: Row): (w: Fields)
    ensures w.Keys <= {"QSO_DATE", "TIME_ON"}
    ensures SkipsStart(row) ==> w == map[]
    ensures !SkipsStart(row) ==> w == StampWrites("QSO_DATE", "TIME_ON", Trim(row.cells[1]))
    ensures Clean(w)
  {
    if SkipsStart(row) then map[]
    else StampWrites("QSO_DATE", "TIME_ON", Trim(row.cells[1]))
  }

  /** The `no` guard is subsumed by the length guard: a text that lower-cases
      to `no` is two characters long. */
  lemma NoIsShort(row: Row)
    requires |row.cells| >= 2 && Lower(Trim(row.cells[1])) == "no"
    ensures |Trim(row.cells[1])| < 19
  {
    LowerIsNo(Trim(row.cells[1]));
  }

  /** A second cell holding a full stamp, padded or not, gives `QSO_DATE` as
      `YYYYMMDD` and `TIME_ON` as `HHMMSS`. */
  lemma QsoStartStamp(row: Row, y: string, mo: string, d: string, h: string, mi: string, sec: string)
    requires IsStamp(y, mo, d, h, mi, sec)
    requires |row.cells| >= 2
    requires Trim(row.cells[1]) == y + "-" + mo + "-" + d + " " + h + ":" + mi + ":" + sec
    ensures QsoStartWrites(row) == map["QSO_DATE" := y + mo + d, "TIME_ON" := h + mi + sec]
  {
    LowerIsNo(Trim(row.cells[1]));
    StampWritesOf("QSO_DATE", "TIME_ON", y, mo, d, h, mi, sec);
  }

  /** `2023-05-01 14:30:00` in pieces. */
  lemma ExampleStamp()
    ensures IsStamp("2023", "05", "01", "14", "30", "00")
    ensures "2023-05-01 14:30:00"
            == "2023" + "-" + "05" + "-" + "01" + " " + "14" + ":" + "30" + ":" + "00"
    ensures "2023" + "05" + "01" == "20230501" && "14" + "30" + "00" == "143000"
  {
    assert "2023" + "05" + "01" + "14" + "30" + "00" == "20230501143000";
  }

  /** `2023-05-01 14:30:00` is stored as `20230501` and `143000`. */
  lemma QsoStartExample(row: Row)
    requires |row.cells| >= 2 && Trim(row.cells[1]) == "2023-05-01 14:30:00"
    ensures QsoStartWrites(row) == map["QSO_DATE" := "20230501", "TIME_ON" := "143000"]
  {
    ExampleStamp();
    var stamp := "2023" + "-" + "05" + "-" + "01" + " " + "14" + ":" + "30" + ":" + "00";
    assert Trim(row.cells[1]) == stamp;
    QsoStartStamp(row, "2023", "05", "01", "14", "30", "00");
  }

  /** `QSO_End`: with at least four cells, the date and time sliced from the
      unstripped second cell; no length guard. */
  function QsoEndWrites(row: Row): (w: Fields)
    ensures w.Keys <= {"QSO_DATE_OFF", "TIME_OFF"}
    ensures |row.cells| < 4 ==> w == map[]
    ensures |row.cells| >= 4 ==> w == StampWrites("QSO_DATE_OFF", "TIME_OFF", row.cells[1])
    ensures Clean(w)
  {
    if |row.cells| < 4 then map[]
    else StampWrites("QSO_DATE_OFF", "TIME_OFF", row.cells[1])
  }

  /** An unpadded stamp in the second of four cells gives `YYYYMMDD` and `HHMMSS`. */
  lemma QsoEndStamp(row: Row, y: string, mo: string, d: string, h: string, mi: string, sec: string)
    requires IsStamp(y, mo, d, h, mi, sec)
    requires |row.cells| >= 4
    requires row.cells[1] == y + "-" + mo + "-" + d + " " + h + ":" + mi + ":" + sec
    ensures QsoEndWrites(row) == map["QSO_DATE_OFF" := y + mo + d, "TIME_OFF" := h + mi + sec]
  {
    StampWritesOf("QSO_DATE_OFF", "TIME_OFF", y, mo, d, h, mi, sec);
  }

  /** `QSO_End` has no length guard: a stamp without seconds in the second
      of four cells still gives `YYYYMMDD` and `HHMM`. */
  lemma QsoEndShortStamp(row: Row, y: string, mo: string, d: string, h: string, mi: string)
    requires |y| == 4 && |mo| == 2 && |d| == 2 && |h| == 2 && |mi| == 2
    requires AllDigits(y + mo + d) && AllDigits(h + mi)
    requires |row.cells| >= 4 && row.cells[1] == y + "-" + mo + "-" + d + " " + h + ":" + mi
    ensures QsoEndWrites(row) == map["QSO_DATE_OFF" := y + mo + d, "TIME_OFF" := h + mi]
  {
    var stamp := row.cells[1];
    var front := y + "-" + mo + "-" + d + " ";
    assert stamp == y + "-" + mo + "-" + d + (" " + h + ":" + mi);
    DateOfText(y, mo, d, " " + h + ":" + mi);
    assert stamp == front + h + ":" + mi;
    TimeOfShortStamp(front, h, mi);
    StampWritesDecimal("QSO_DATE_OFF", "TIME_OFF", stamp, y + mo + d, h + mi);
  }

  // ------------------------------------------------- two-cell handlers

  /** `Station`: both callsigns through `assign_call`. */
  function StationWrites(row: Row): (w: Fields)
    requires TwoCells(row)
    ensures w.Keys <= {"call", "operator"}
    ensures "call" in w <==> !AllSpace(row.cells[0])
    ensures "operator" in w <==> !AllSpace(row.cells[1])
    ensures "call" in w ==> w["call"] == Trim(ZeroForSlashed(row.cells[0]))
    ensures "operator" in w ==> w["operator"] == Trim(ZeroForSlashed(row.cells[1]))
    ensures "call" in w ==> SlashedZero !in w["call"]
    ensures "operator" in w ==> SlashedZero !in w["operator"]
    ensures Clean(w)
  {
    var his := PutCall("call", Some(row.cells[0]));
    var mine := PutCall("operator", Some(row.cells[1]));
    assert "call" !in mine && "operator" !in his;
    CleanUnion(his, mine);
    his + mine
  }

  /** The handlers that store the two cells under a pair of names:
      `Op`, `QTH` (through `str_or_intl`), `State` and `Country`. */
  function PairWrites(his: string, mine: string, row: Row): (w: Fields)
    requires TwoCells(row) && his != mine
    ensures w.Keys <= {his, mine}
    ensures his in w <==> !AllSpace(row.cells[0])
    ensures mine in w <==> !AllSpace(row.cells[1])
    ensures his in w ==> w[his] == Trim(row.cells[0])
    ensures mine in w ==> w[mine] == Trim(row.cells[1])
    ensures Clean(w)
  {
    var p := Put(his, row.cells[0]);
    var q := Put(mine, row.cells[1]);
    assert his !in q && mine !in p;
    CleanUnion(p, q);
    p + q
  }

  /** `QSL_Via`: the first of the two cells; the second is never read. */
  function QslViaWrites(row: Row): (w: Fields)
    requires TwoCells(row)
    ensures w.Keys <= {"qsl_via"}
    ensures "qsl_via" in w <==> !AllSpace(row.cells[0])
    ensures "qsl_via" in w ==> w["qsl_via"] == Trim(row.cells[0])
    ensures Clean(w)
  {
    Put("qsl_via", row.cells[0])
  }

  // -------------------------------------------------------- Frequency

  /** `contents[0].strip()` of the first cell, or empty when it has no content. */
  function FreqText(row: Row): string {
    if row.leadText.Some? then Trim(row.leadText.value) else ""
  }

  /** The band span's text upper-cased, or empty when there is no band span. */
  function BandText(row: Row): string {
    if row.bandText.Some? then Upper(row.bandText.value) else ""
  }

  lemma UpperNoLower(s: string)
    ensures forall c :: c in Upper(s) ==> !('a' <= c <= 'z')
  {
    forall c | c in Upper(s) ensures !('a' <= c <= 'z') {
      var i :| 0 <= i < |Upper(s)| && Upper(s)[i] == c;
    }
  }

  /** `Frequency`: with at least four cells, the band (upper case), the
      frequency without ` MHz`, and the mode from the second cell. */
  function FrequencyWrites(row: Row): (w: Fields)
    ensures |row.cells| < 4 ==> w == map[]
    ensures Clean(w)
  {
    if |row.cells| < 4 then map[]
    else
      var band := Put("band", BandText(row));
      var freq := Put("freq", Replace(FreqText(row), " MHz", ""));
      var mode := Put("mode", row.cells[1]);
      CleanUnion(band, freq);
      CleanUnion(band + freq, mode);
      band + freq + mode
  }

  lemma FrequencyKeys()
    ensures "band" != "freq" && "band" != "mode" && "freq" != "mode"
  {
  }

  /** What `Frequency` stores from four cells: the band in upper case, the
      frequency without its unit, and the mode, each when not blank. */
  lemma FrequencyStored(row: Row)
    requires |row.cells| >= 4
    ensures "band" in FrequencyWrites(row) <==> !AllSpace(BandText(row))
    ensures "freq" in FrequencyWrites(row) <==> !AllSpace(Replace(FreqText(row), " MHz", ""))
    ensures "mode" in FrequencyWrites(row) <==> !AllSpace(row.cells[1])
    ensures "band" in FrequencyWrites(row) ==> FrequencyWrites(row)["band"] == Trim(BandText(row))
    ensures "freq" in FrequencyWrites(row) ==> FrequencyWrites(row)["freq"] == Trim(Replace(FreqText(row), " MHz", ""))
    ensures "mode" in FrequencyWrites(row) ==> FrequencyWrites(row)["mode"] == Trim(row.cells[1])
  {
    var band := Put("band", BandText(row));
    var freq := Put("freq", Replace(FreqText(row), " MHz", ""));
    var mode := Put("mode", row.cells[1]);
    assert FrequencyWrites(row) == band + freq + mode;
    FrequencyKeys();
    Union3(band, freq, mode, "band", "freq", "mode");
  }

  /** `Frequency` writes no other fields. */
  lemma FrequencyNames(row: Row)
    ensures FrequencyWrites(row).Keys <= {"band", "freq", "mode"}
  {
    if |row.cells| >= 4 {
      var band := Put("band", BandText(row));
      var freq := Put("freq", Replace(FreqText(row), " MHz", ""));
      var mode := Put("mode", row.cells[1]);
      assert FrequencyWrites(row) == band + freq + mode;
      FrequencyKeys();
      Union3(band, freq, mode, "band", "freq", "mode");
    }
  }

  /** A frequency such as `14.074 MHz` is stored as the number alone. */
  lemma FrequencyMHz(row: Row, f: string)
    requires |row.cells| >= 4 && FreqText(row) == f + " MHz"
    requires f != [] && forall i :: 0 <= i < |f| ==> !IsSpace(f[i])
    ensures "freq" in FrequencyWrites(row) && FrequencyWrites(row)["freq"] == f
  {
    assert ' ' !in f by {
      forall i | 0 <= i < |f| ensures f[i] != ' ' {
        assert !IsSpace(f[i]);
      }
    }
    DeleteSpacedUnit(f, " MHz");
    TrimOfTrimmed(f);
    assert !IsSpace(f[0]);
    FrequencyStored(row);
  }

  /** The stored band has no lower-case letter. */
  lemma FrequencyBandUpper(row: Row)
    requires |row.cells| >= 4 && "band" in FrequencyWrites(row)
    ensures forall c :: c in FrequencyWrites(row)["band"] ==> !('a' <= c <= 'z')
  {
    FrequencyStored(row);
    UpperNoLower(if row.bandText.Some? then row.bandText.value else "");
    TrimChars(BandText(row));
  }

  // ------------------------------------------------------------ Power

  /** `p.isdigit() and int(p) > 0`. */
  predicate PositiveWhole(p: string) {
    IsDecimal(p) && NatOf(p) > 0
  }

  /** A power cell without ` W`, stripped. */
  function PowerText(cell: string): string {
    Trim(Replace(cell, " W", ""))
  }

  /** A number of watts followed by its unit ` W` reads as the number. */
  lemma PowerOfWatts(d: string)
    requires IsDecimal(d)
    ensures PowerText(d + " W") == d
  {
    DigitsLackChar(d, ' ');
    DeleteSpacedUnit(d, " W");
    assert !IsSpace(d[0]) && !IsSpace(d[|d| - 1]);
    TrimOfTrimmed(d);
  }

  /** A power stored only when it is a positive whole number of watts. */
  function PutPower(name: string, cell: string): (w: Fields)
    ensures w.Keys <= {name}
    ensures name in w <==> PositiveWhole(PowerText(cell))
    ensures name in w ==> w[name] == PowerText(cell)
    ensures Clean(w)
  {
    var p := PowerText(cell);
    if PositiveWhole(p) then
      PutDecimal(name, p);
      Put(name, p)
    else map[]
  }

  /** The power written for a cell: the stripped number when it is a
      positive whole number, nothing otherwise. */
  lemma PutPowerCases(name: string, cell: string)
    ensures PositiveWhole(PowerText(cell)) ==> PutPower(name, cell) == Put(name, PowerText(cell))
    ensures !PositiveWhole(PowerText(cell)) ==> PutPower(name, cell) == map[]
  {
  }

  /** One side of the power row as its two writes. */
  lemma PowerSideSplit(pwrKey: string, rstKey: string, pwr: string, rst: string)
    requires pwrKey != rstKey
    ensures PowerSide(pwrKey, rstKey, pwr, rst) == PutPower(pwrKey, pwr) + Put(rstKey, Trim(rst))
  {
    var a := PowerSide(pwrKey, rstKey, pwr, rst);
    var b := PutPower(pwrKey, pwr) + Put(rstKey, Trim(rst));
    assert a.Keys == b.Keys;
    assert forall k :: k in a ==> a[k] == b[k];
  }

  /** One side of the power row: its power, then its signal report. */
  function PowerSide(pwrKey: string, rstKey: string, pwr: string, rst: string): (w: Fields)
    requires pwrKey != rstKey
    ensures w.Keys <= {pwrKey, rstKey}
    ensures pwrKey in w <==> PositiveWhole(PowerText(pwr))
    ensures pwrKey in w ==> w[pwrKey] == PowerText(pwr)
    ensures rstKey in w <==> !AllSpace(rst)
    ensures rstKey in w ==> w[rstKey] == Trim(rst)
    ensures Clean(w)
  {
    PutTrimmed(rstKey, rst);
    var p := PutPower(pwrKey, pwr);
    var r := Put(rstKey, Trim(rst));
    assert pwrKey !in r && rstKey !in p;
    CleanUnion(p, r);
    p + r
  }

  lemma PowerKeys()
    ensures "rx_pwr" != "tx_pwr" && "rx_pwr" != "rst_sent"
    ensures "rst_rcvd" != "tx_pwr" && "rst_rcvd" != "rst_sent"
  {
    assert "rst_rcvd"[4] != "rst_sent"[4];
  }

  /** `Power`: with at least four cells, both sides; nothing otherwise. */
  function PowerWrites(row: Row): (w: Fields)
    ensures |row.cells| < 4 ==> w == map[]
    ensures Clean(w)
  {
    if |row.cells| < 4 then map[]
    else
      var his := PowerSide("rx_pwr", "rst_rcvd", row.cells[0], row.cells[1]);
      var mine := PowerSide("tx_pwr", "rst_sent", row.cells[2], row.cells[3]);
      CleanUnion(his, mine);
      his + mine
  }

  /** `Power` as the union of its two sides. */
  lemma PowerSplit(row: Row)
    requires |row.cells| >= 4
    ensures PowerWrites(row)
            == PowerSide("rx_pwr", "rst_rcvd", row.cells[0], row.cells[1])
               + PowerSide("tx_pwr", "rst_sent", row.cells[2], row.cells[3])
  {
  }

  /** What `Power` stores from four cells: each power only when it is a
      positive whole number of watts, each report whenever it is not blank. */
  lemma PowerStored(row: Row)
    requires |row.cells| >= 4
    ensures "rx_pwr" in PowerWrites(row) <==> PositiveWhole(PowerText(row.cells[0]))
    ensures "tx_pwr" in PowerWrites(row) <==> PositiveWhole(PowerText(row.cells[2]))
    ensures "rx_pwr" in PowerWrites(row) ==> PowerWrites(row)["rx_pwr"] == PowerText(row.cells[0])
    ensures "tx_pwr" in PowerWrites(row) ==> PowerWrites(row)["tx_pwr"] == PowerText(row.cells[2])
    ensures "rst_rcvd" in PowerWrites(row) <==> !AllSpace(row.cells[1])
    ensures "rst_sent" in PowerWrites(row) <==> !AllSpace(row.cells[3])
    ensures "rst_rcvd" in PowerWrites(row) ==> PowerWrites(row)["rst_rcvd"] == Trim(row.cells[1])
    ensures "rst_sent" in PowerWrites(row) ==> PowerWrites(row)["rst_sent"] == Trim(row.cells[3])
  {
    var his := PowerSide("rx_pwr", "rst_rcvd", row.cells[0], row.cells[1]);
    var mine := PowerSide("tx_pwr", "rst_sent", row.cells[2], row.cells[3]);
    assert PowerWrites(row) == his + mine;
    PowerKeys();
    Union22(his, mine, "rx_pwr", "rst_rcvd", "tx_pwr", "rst_sent");
  }

  /** Cells such as `100 W` store the number of watts as the power. */
  lemma PowerWatts(row: Row, rx: string, tx: string)
    requires |row.cells| >= 4 && row.cells[0] == rx + " W" && row.cells[2] == tx + " W"
    requires PositiveWhole(rx) && PositiveWhole(tx)
    ensures "rx_pwr" in PowerWrites(row) && PowerWrites(row)["rx_pwr"] == rx
    ensures "tx_pwr" in PowerWrites(row) && PowerWrites(row)["tx_pwr"] == tx
  {
    PowerOfWatts(rx);
    PowerOfWatts(tx);
    PowerStored(row);
  }

  /** `Power` writes no other fields. */
  lemma PowerNames(row: Row)
    ensures PowerWrites(row).Keys <= {"rx_pwr", "rst_rcvd", "tx_pwr", "rst_sent"}
  {
    if |row.cells| >= 4 {
      var his := PowerSide("rx_pwr", "rst_rcvd", row.cells[0], row.cells[1]);
      var mine := PowerSide("tx_pwr", "rst_sent", row.cells[2], row.cells[3]);
      assert PowerWrites(row) == his + mine;
      PowerKeys();
      Union22(his, mine, "rx_pwr", "rst_rcvd", "tx_pwr", "rst_sent");
    }
  }

  // ------------------------------------------------------ Coordinates

  /** `text.split(',', 1)` of a text with a comma: the text before its first
      comma and the text after it. */
  function SplitComma(s: string): (parts: (string, string))
    requires HasComma(s)
    ensures ',' !in parts.0
    ensures parts.0 + [','] + parts.1 == s
  {
    var p := IndexOf(s, ',', 0);
    var before := Sub(s, 0, p);
    var after := Sub(s, p + 1, |s|);
    assert before + [','] + after == s by {
      var joined := before + [','] + after;
      assert |joined| == |s|;
      forall k | 0 <= k < |s| ensures joined[k] == s[k] {
        if k < p { assert joined[k] == before[k]; }
        else if k > p { assert joined[k] == after[k - p - 1]; }
      }
    }
    (before, after)
  }

  /** The hemisphere letters a latitude and a longitude accept. */
  const Latitudes: set<char> := {'N', 'S'}
  const Longitudes: set<char> := {'E', 'W'}

  /** `%03u` of the whole degrees: digits only, at least three of them, with
      the value of the matched degrees. */
  function DegreeText(c: Coord): (r: string)
    requires IsDecimal(c.degrees)
    ensures IsDecimal(r) && |r| >= 3 && NatOf(r) == NatOf(c.degrees)
    ensures |r| == 3 || r[0] != '0'
  {
    var d := DecimalString(NatOf(c.degrees));
    assert |d| > 3 ==> d[0] != '0';
    ZeroPad(d, 3)
  }

  /** `hemisphere + '%03u %#06.3f' % (int(degrees), minutes)`. The source
      computes the minutes in floating point from the fraction digits; here
      `minutes` maps those digits to the text `%#06.3f` prints. */
  function CoordValue(c: Coord, minutes: string -> string): (r: string)
    requires IsDecimal(c.degrees)
    ensures |r| == |DegreeText(c)| + 2 + |minutes(c.fraction)|
    ensures r[0] == c.hemisphere && r[|DegreeText(c)| + 1] == ' '
    ensures IsDigit(r[1]) && IsDigit(r[|DegreeText(c)|])
  {
    [c.hemisphere] + DegreeText(c) + " " + minutes(c.fraction)
  }

  /** One coordinate: stored when the pattern matches the text, nothing otherwise. */
  function PutCoord(name: string, text: string, hemispheres: set<char>,
                    minutes: string -> string): (w: Fields)
    ensures w.Keys <= {name}
    ensures name in w <==> SearchCoord(text, hemispheres, 0).Some?
    ensures Clean(w)
  {
    match SearchCoord(text, hemispheres, 0)
    case None => map[]
    case Some(c) =>
      var v := CoordValue(c, minutes);
      assert v[1] == DegreeText(c)[0] && IsDigit(v[1]);
      Put(name, v)
  }

  /** A stored coordinate starts with its hemisphere letter followed by the
      whole degrees, zero-padded to at least three digits. */
  lemma CoordStored(name: string, text: string, hemispheres: set<char>, minutes: string -> string)
    requires hemispheres <= {'N', 'S', 'E', 'W'}
    requires name in PutCoord(name, text, hemispheres, minutes)
    ensures var c := SearchCoord(text, hemispheres, 0).value;
            && c.hemisphere in hemispheres
            && PutCoord(name, text, hemispheres, minutes)[name] == Trim(CoordValue(c, minutes))
            && CoordFront(Trim(CoordValue(c, minutes)), c)
  {
    var found := SearchCoord(text, hemispheres, 0);
    assert found.Some?;
    var c := found.value;
    assert c.hemisphere in hemispheres && IsDecimal(c.degrees);
    HemisphereLetter(c.hemisphere, hemispheres);
    PutCoordFound(name, text, hemispheres, minutes);
    CoordValueFront(c, minutes);
  }

  /** A hemisphere letter is never whitespace. */
  lemma HemisphereLetter(h: char, hemispheres: set<char>)
    requires hemispheres <= {'N', 'S', 'E', 'W'} && h in hemispheres
    ensures !IsSpace(h)
  {
    assert h == 'N' || h == 'S' || h == 'E' || h == 'W';
  }

  /** A coordinate that is found is stored through `assign_value`. */
  lemma PutCoordFound(name: string, text: string, hemispheres: set<char>, minutes: string -> string)
    requires SearchCoord(text, hemispheres, 0).Some?
    ensures PutCoord(name, text, hemispheres, minutes)
            == Put(name, CoordValue(SearchCoord(text, hemispheres, 0).value, minutes))
  {
  }

  /** `v` starts with the hemisphere letter of `c` and then the zero-padded degrees. */
  predicate CoordFront(v: string, c: Coord)
    requires IsDecimal(c.degrees)
  {
    && |v| >= 4 && v[0] == c.hemisphere
    && (forall k :: 1 <= k < 1 + |DegreeText(c)| ==> k < |v| && v[k] == DegreeText(c)[k - 1])
  }

  /** `strip` keeps the hemisphere letter and the padded degrees. */
  lemma CoordValueFront(c: Coord, minutes: string -> string)
    requires IsDecimal(c.degrees) && !IsSpace(c.hemisphere)
    ensures CoordFront(Trim(CoordValue(c, minutes)), c)
  {
    var d := DegreeText(c);
    var v := CoordValue(c, minutes);
    CoordValueParts(c, minutes);
    FrontKept(c.hemisphere, d, " " + minutes(c.fraction), v);
  }

  /** The pieces of a coordinate value, in order. */
  lemma CoordValueParts(c: Coord, minutes: string -> string)
    requires IsDecimal(c.degrees)
    ensures CoordValue(c, minutes) == [c.hemisphere] + DegreeText(c) + (" " + minutes(c.fraction))
  {
  }

  /** A letter and a digit string in front of any text survive `strip`. */
  lemma FrontKept(h: char, d: string, tail: string, v: string)
    requires !IsSpace(h) && IsDecimal(d) && v == [h] + d + tail
    ensures |Trim(v)| >= 1 + |d| && Trim(v)[0] == h
    ensures forall k :: 1 <= k < 1 + |d| ==> Trim(v)[k] == d[k - 1]
  {
    forall k | 1 <= k < 1 + |d| ensures v[k] == d[k - 1] {
    }
    assert v[0] == h && IsDigit(v[|d|]);
    TrimKeepsFront(v, 1 + |d|);
  }

  /** One side of the coordinates row: the latitude pattern searched before
      the first comma, the longitude pattern after it. */
  function SideWrites(latKey: string, lonKey: string, cell: string,
                      minutes: string -> string): (w: Fields)
    requires HasComma(cell) && latKey != lonKey
    ensures w.Keys <= {latKey, lonKey}
    ensures latKey in w <==> SearchCoord(SplitComma(cell).0, Latitudes, 0).Some?
    ensures lonKey in w <==> SearchCoord(SplitComma(cell).1, Longitudes, 0).Some?
    ensures latKey in w ==> w[latKey] == PutCoord(latKey, SplitComma(cell).0, Latitudes, minutes)[latKey]
    ensures lonKey in w ==> w[lonKey] == PutCoord(lonKey, SplitComma(cell).1, Longitudes, minutes)[lonKey]
    ensures Clean(w)
  {
    var parts := SplitComma(cell);
    var lat := PutCoord(latKey, parts.0, Latitudes, minutes);
    var lon := PutCoord(lonKey, parts.1, Longitudes, minutes);
    assert latKey !in lon && lonKey !in lat;
    CleanUnion(lat, lon);
    lat + lon
  }

  /** `Coordinates`: both sides, from two cells that each hold a comma. */
  function CoordinatesWrites(row: Row, minutes: string -> string): (w: Fields)
    requires TwoCells(row) && HasComma(row.cells[0]) && HasComma(row.cells[1])
    ensures "lat" in w <==> SearchCoord(SplitComma(row.cells[0]).0, Latitudes, 0).Some?
    ensures "lon" in w <==> SearchCoord(SplitComma(row.cells[0]).1, Longitudes, 0).Some?
    ensures "my_lat" in w <==> SearchCoord(SplitComma(row.cells[1]).0, Latitudes, 0).Some?
    ensures "my_lon" in w <==> SearchCoord(SplitComma(row.cells[1]).1, Longitudes, 0).Some?
    ensures Clean(w)
  {
    var his := SideWrites("lat", "lon", row.cells[0], minutes);
    var mine := SideWrites("my_lat", "my_lon", row.cells[1], minutes);
    CoordinatesKeys();
    Union22(his, mine, "lat", "lon", "my_lat", "my_lon");
    CleanUnion(his, mine);
    his + mine
  }

  /** `Coordinates` as the union of its two sides. */
  lemma CoordinatesSplit(row: Row, minutes: string -> string)
    requires TwoCells(row) && HasComma(row.cells[0]) && HasComma(row.cells[1])
    ensures CoordinatesWrites(row, minutes)
            == SideWrites("lat", "lon", row.cells[0], minutes) + SideWrites("my_lat", "my_lon", row.cells[1], minutes)
  {
  }

  lemma CoordinatesKeys()
    ensures "lat" != "my_lat" && "lat" != "my_lon" && "lon" != "my_lat" && "lon" != "my_lon"
  {
  }

  /** What `Coordinates` stores: each side's latitude and longitude, exactly
      as that side's own cell gives them. */
  lemma CoordinatesStored(row: Row, minutes: string -> string)
    requires TwoCells(row) && HasComma(row.cells[0]) && HasComma(row.cells[1])
    ensures var w := CoordinatesWrites(row, minutes);
            var his := SideWrites("lat", "lon", row.cells[0], minutes);
            var mine := SideWrites("my_lat", "my_lon", row.cells[1], minutes);
            && ("lat" in w <==> "lat" in his) && ("lon" in w <==> "lon" in his)
            && ("my_lat" in w <==> "my_lat" in mine) && ("my_lon" in w <==> "my_lon" in mine)
            && ("lat" in w ==> w["lat"] == his["lat"]) && ("lon" in w ==> w["lon"] == his["lon"])
            && ("my_lat" in w ==> w["my_lat"] == mine["my_lat"])
            && ("my_lon" in w ==> w["my_lon"] == mine["my_lon"])
  {
    CoordinatesSplit(row, minutes);
    CoordinatesKeys();
    Union22(SideWrites("lat", "lon", row.cells[0], minutes), SideWrites("my_lat", "my_lon", row.cells[1], minutes),
            "lat", "lon", "my_lat", "my_lon");
  }

  /** `Coordinates` writes no other fields. */
  lemma CoordinatesNames(row: Row, minutes: string -> string)
    requires TwoCells(row) && HasComma(row.cells[0]) && HasComma(row.cells[1])
    ensures CoordinatesWrites(row, minutes).Keys <= {"lat", "lon", "my_lat", "my_lon"}
  {
    CoordinatesSplit(row, minutes);
    CoordinatesKeys();
    Union22(SideWrites("lat", "lon", row.cells[0], minutes), SideWrites("my_lat", "my_lon", row.cells[1], minutes),
            "lat", "lon", "my_lat", "my_lon");
  }

  /** The halves are determined by the first comma. */
  lemma SplitCommaAt(s: string, a: string, b: string)
    requires s == a + [','] + b && ',' !in a
    ensures HasComma(s) && SplitComma(s) == (a, b)
  {
    assert s[|a|] == ',';
    var parts := SplitComma(s);
    assert |parts.0| == |a| by {
      assert forall k :: 0 <= k < |a| ==> s[k] == a[k];
      assert forall k :: 0 <= k < |parts.0| ==> s[k] == parts.0[k];
    }
    assert a == s[..|a|] == parts.0;
    assert b == s[|a| + 1..] == parts.1;
  }

  /** Degrees written without leading zeros come out as written, padded to
      three digits. */
  lemma DegreePadding(c: Coord)
    requires IsDecimal(c.degrees) && (c.degrees[0] != '0' || c.degrees == "0")
    ensures DegreeText(c) == ZeroPad(c.degrees, 3)
  {
    DecimalRoundTrip(c.degrees);
  }

  /** `%03u` pads one and two digits with zeros and keeps longer numbers. */
  lemma PadToThree(d: string)
    requires AllDigits(d)
    ensures |d| == 1 ==> ZeroPad(d, 3) == "00" + d
    ensures |d| == 2 ==> ZeroPad(d, 3) == "0" + d
    ensures |d| >= 3 ==> ZeroPad(d, 3) == d
  {
    if |d| == 1 {
      assert Zeros(2) == "00";
    } else if |d| == 2 {
      assert Zeros(1) == "0";
    }
  }

  /** One-digit degrees get two leading zeros: `5` prints as `005`. */
  lemma DegreeOneDigit(f: string, h: char)
    ensures DegreeText(Coord(0, "5", f, h)) == "005"
  {
    var c := Coord(0, "5", f, h);
    DegreePadding(c);
    PadToThree("5");
    assert "00" + "5" == "005";
  }

  /** Two-digit degrees get one leading zero: `40` prints as `040`. */
  lemma DegreeTwoDigits(f: string, h: char)
    ensures DegreeText(Coord(0, "40", f, h)) == "040"
  {
    var c := Coord(0, "40", f, h);
    assert c.degrees[0] == '4';
    DegreePadding(c);
    PadToThree("40");
    assert "0" + "40" == "040";
  }

  /** Degrees of three or more digits are printed as they are. */
  lemma DegreeFourDigits(f: string, h: char)
    ensures DegreeText(Coord(0, "1234", f, h)) == "1234"
  {
    var c := Coord(0, "1234", f, h);
    assert c.degrees[0] == '1';
    DegreePadding(c);
    PadToThree("1234");
  }

  /** Leading zeros of the degrees are dropped before padding. */
  lemma DegreeLeadingZeros(f: string, h: char)
    ensures DegreeText(Coord(0, "0074", f, h)) == "074"
  {
    var c := Coord(0, "0074", f, h);
    var e := Coord(0, "74", f, h);
    NatOfLeadingZero("74");
    NatOfLeadingZero("074");
    assert ['0'] + "74" == "074" && ['0'] + "074" == "0074";
    assert NatOf(c.degrees) == NatOf(e.degrees);
    assert DegreeText(c) == DegreeText(e);
    assert e.degrees[0] == '7';
    DegreePadding(e);
    PadToThree("74");
    assert "0" + "74" == "074";
  }

  /** A coordinate written after non-digits is stored as its hemisphere, its
      padded degrees and its minutes. */
  lemma PutCoordFirst(name: string, pre: string, c: Coord, hemispheres: set<char>, tail: string,
                      minutes: string -> string)
    requires forall k :: 0 <= k < |pre| ==> !IsDigit(pre[k])
    requires IsDecimal(c.degrees) && IsDecimal(c.fraction) && c.hemisphere in hemispheres
    requires c.start == |pre|
    ensures PutCoord(name, pre + CoordText(c) + tail, hemispheres, minutes)
            == Put(name, CoordValue(c, minutes))
  {
    CoordFirst(pre, c, hemispheres, tail);
  }

  /** A cell `<lat>, <lon>` whose halves hold a latitude and a longitude
      after non-digits stores both, each as hemisphere, padded degrees and minutes. */
  lemma SideOfCell(latKey: string, lonKey: string, minutes: string -> string,
                   latPre: string, lat: Coord, latTail: string,
                   lonPre: string, lon: Coord, lonTail: string)
    requires latKey != lonKey
    requires forall k :: 0 <= k < |latPre| ==> !IsDigit(latPre[k])
    requires forall k :: 0 <= k < |lonPre| ==> !IsDigit(lonPre[k])
    requires IsDecimal(lat.degrees) && IsDecimal(lat.fraction) && lat.hemisphere in Latitudes
    requires IsDecimal(lon.degrees) && IsDecimal(lon.fraction) && lon.hemisphere in Longitudes
    requires lat.start == |latPre| && lon.start == |lonPre|
    requires ',' !in latPre + CoordText(lat) + latTail
    ensures var cell := latPre + CoordText(lat) + latTail + [','] + lonPre + CoordText(lon) + lonTail;
            && HasComma(cell)
            && SideWrites(latKey, lonKey, cell, minutes)
               == Put(latKey, CoordValue(lat, minutes)) + Put(lonKey, CoordValue(lon, minutes))
  {
    var before := latPre + CoordText(lat) + latTail;
    var after := lonPre + CoordText(lon) + lonTail;
    var cell := latPre + CoordText(lat) + latTail + [','] + lonPre + CoordText(lon) + lonTail;
    assert cell == before + [','] + after;
    SplitCommaAt(cell, before, after);
    PutCoordFirst(latKey, latPre, lat, Latitudes, latTail, minutes);
    PutCoordFirst(lonKey, lonPre, lon, Longitudes, lonTail, minutes);
    SideWritesSplit(latKey, lonKey, cell, minutes);
  }

  lemma SideWritesSplit(latKey: string, lonKey: string, cell: string, minutes: string -> string)
    requires HasComma(cell) && latKey != lonKey
    ensures SideWrites(latKey, lonKey, cell, minutes)
            == PutCoord(latKey, SplitComma(cell).0, Latitudes, minutes)
               + PutCoord(lonKey, SplitComma(cell).1, Longitudes, minutes)
  {
  }

  // ------------------------------------------------------------- Grid

  /** `re.search('([0-9]+) km', dist)`, stored only when the number is positive. */
  function PutDistance(name: string, found: Option<string>): (w: Fields)
    requires found.Some? ==> IsDecimal(found.value)
    ensures w.Keys <= {name}
    ensures name in w <==> found.Some? && NatOf(found.value) > 0
    ensures name in w ==> w[name] == found.value
    ensures Clean(w)
  {
    match found
    case None => map[]
    case Some(d) =>
      if NatOf(d) > 0 then
        PutDecimal(name, d);
        Put(name, d)
      else map[]
  }

  /** The distance in whole kilometres, as the distance cell spells it. */
  function Kilometres(dist: string): (r: Option<string>)
    ensures r.Some? ==> IsDecimal(r.value)
    ensures r.None? <==> forall i: nat, j: nat :: !DigitsThen(dist, " km", i, j)
  {
    FindDigitsBeforeSpec(dist, " km");
    FindDigitsBefore(dist, " km")
  }

  /** The bearing in whole degrees, as the bearing cell spells it. */
  function Bearing(bear: string): (r: Option<string>)
    ensures r.Some? ==> IsDecimal(r.value)
    ensures r.None? <==> forall i: nat, j: nat :: !DigitsThen(bear, [Degree], i, j)
  {
    FindDigitsBeforeSpec(bear, [Degree]);
    FindDigitsBefore(bear, [Degree])
  }

  /** `Grid`: with at least four cells, both grid squares, the distance when
      positive and the bearing when present. */
  function GridWrites(row: Row): (w: Fields)
    ensures |row.cells| < 4 ==> w == map[]
    ensures Clean(w)
  {
    if |row.cells| < 4 then map[]
    else
      var grid := Put("gridsquare", row.cells[0]);
      var dist := PutDistance("distance", Kilometres(row.cells[1]));
      var myGrid := Put("my_gridsquare", row.cells[2]);
      var az := PutFound("ant_az", Bearing(row.cells[3]));
      CleanUnion(grid, dist);
      CleanUnion(grid + dist, myGrid);
      CleanUnion(grid + dist + myGrid, az);
      grid + dist + myGrid + az
  }

  lemma GridKeys()
    ensures "gridsquare" != "distance" && "gridsquare" != "my_gridsquare" && "gridsquare" != "ant_az"
    ensures "distance" != "my_gridsquare" && "distance" != "ant_az" && "my_gridsquare" != "ant_az"
  {
  }

  /** `Grid` as the union of its four writes. */
  lemma GridSplit(row: Row)
    requires |row.cells| >= 4
    ensures GridWrites(row)
            == Put("gridsquare", row.cells[0]) + PutDistance("distance", Kilometres(row.cells[1]))
               + Put("my_gridsquare", row.cells[2]) + PutFound("ant_az", Bearing(row.cells[3]))
  {
  }

  /** What `Grid` stores from four cells: both grid squares when not blank,
      the distance only when it is a positive number of kilometres, the
      bearing only when it is a number of degrees, both as digit strings. */
  lemma GridStored(row: Row)
    requires |row.cells| >= 4
    ensures "gridsquare" in GridWrites(row) <==> !AllSpace(row.cells[0])
    ensures "gridsquare" in GridWrites(row) ==> GridWrites(row)["gridsquare"] == Trim(row.cells[0])
    ensures "my_gridsquare" in GridWrites(row) <==> !AllSpace(row.cells[2])
    ensures "my_gridsquare" in GridWrites(row) ==> GridWrites(row)["my_gridsquare"] == Trim(row.cells[2])
    ensures "distance" in GridWrites(row) <==>
              Kilometres(row.cells[1]).Some? && NatOf(Kilometres(row.cells[1]).value) > 0
    ensures "distance" in GridWrites(row) ==> GridWrites(row)["distance"] == Kilometres(row.cells[1]).value
    ensures "ant_az" in GridWrites(row) <==> Bearing(row.cells[3]).Some?
    ensures "ant_az" in GridWrites(row) ==> GridWrites(row)["ant_az"] == Bearing(row.cells[3]).value
  {
    var grid := Put("gridsquare", row.cells[0]);
    var dist := PutDistance("distance", Kilometres(row.cells[1]));
    var myGrid := Put("my_gridsquare", row.cells[2]);
    var az := PutFound("ant_az", Bearing(row.cells[3]));
    GridSplit(row);
    GridKeys();
    Union4(grid, dist, myGrid, az, "gridsquare", "distance", "my_gridsquare", "ant_az");
    if Bearing(row.cells[3]).Some? {
      PutDecimal("ant_az", Bearing(row.cells[3]).value);
    }
  }

  /** `Grid` writes no other fields. */
  lemma GridNames(row: Row)
    ensures GridWrites(row).Keys <= {"gridsquare", "distance", "my_gridsquare", "ant_az"}
  {
    if |row.cells| >= 4 {
      var grid := Put("gridsquare", row.cells[0]);
      var dist := PutDistance("distance", Kilometres(row.cells[1]));
      var myGrid := Put("my_gridsquare", row.cells[2]);
      var az := PutFound("ant_az", Bearing(row.cells[3]));
      GridSplit(row);
      GridKeys();
      Union4(grid, dist, myGrid, az, "gridsquare", "distance", "my_gridsquare", "ant_az");
    }
  }

  /** A row laid out as the logbook prints it, such as `FN20 | 150 km | FN31 |
      45°`: the distance and bearing are the leading numbers of their cells,
      and the distance is kept only when it is not zero. */
  lemma GridLeading(row: Row, km: string, kmTail: string, deg: string, degTail: string)
    requires |row.cells| >= 4 && IsDecimal(km) && IsDecimal(deg)
    requires row.cells[1] == km + " km" + kmTail
    requires row.cells[3] == deg + [Degree] + degTail
    ensures "distance" in GridWrites(row) <==> NatOf(km) > 0
    ensures "distance" in GridWrites(row) ==> GridWrites(row)["distance"] == km
    ensures "ant_az" in GridWrites(row) && GridWrites(row)["ant_az"] == deg
  {
    FindDigitsFirst(km, " km", kmTail);
    FindDigitsFirst(deg, [Degree], degTail);
    GridStored(row);
  }

  // -------------------------------------------------------- Continent

  /** The first two characters of the stripped continent cell. */
  function ContinentCode(cell: string): (r: string)
    ensures |r| <= 2
    ensures r == Trim(cell)[..(if |Trim(cell)| < 2 then |Trim(cell)| else 2)]
  {
    Slice(Trim(cell), 0, 2)
  }

  /** `Continent`: with at least four cells, the continent code from the
      first, the island references from the second and the fourth; the third
      cell is never read. */
  function ContinentWrites(row: Row): (w: Fields)
    ensures |row.cells| < 4 ==> w == map[]
    ensures Clean(w)
  {
    if |row.cells| < 4 then map[]
    else
      var cont := Put("cont", ContinentCode(row.cells[0]));
      var iota := Put("iota", row.cells[1]);
      var myIota := Put("my_iota", row.cells[3]);
      CleanUnion(cont, iota);
      CleanUnion(cont + iota, myIota);
      cont + iota + myIota
  }

  lemma ContinentSplit(row: Row)
    requires |row.cells| >= 4
    ensures ContinentWrites(row)
            == Put("cont", ContinentCode(row.cells[0])) + Put("iota", row.cells[1]) + Put("my_iota", row.cells[3])
  {
  }

  /** What `Continent` stores from four cells: the first two characters of
      the stripped first cell, stripped again, so never more than two; and
      both island references when not blank. */
  lemma ContinentStored(row: Row)
    requires |row.cells| >= 4
    ensures var w := ContinentWrites(row);
            && ("cont" in w <==> !AllSpace(ContinentCode(row.cells[0])))
            && ("cont" in w ==> w["cont"] == Trim(ContinentCode(row.cells[0])) && |w["cont"]| <= 2)
            && ("iota" in w <==> !AllSpace(row.cells[1]))
            && ("iota" in w ==> w["iota"] == Trim(row.cells[1]))
            && ("my_iota" in w <==> !AllSpace(row.cells[3]))
            && ("my_iota" in w ==> w["my_iota"] == Trim(row.cells[3]))
  {
    ContinentSplit(row);
    Union3(Put("cont", ContinentCode(row.cells[0])), Put("iota", row.cells[1]), Put("my_iota", row.cells[3]),
           "cont", "iota", "my_iota");
  }

  /** `Continent` writes no other fields. */
  lemma ContinentNames(row: Row)
    ensures ContinentWrites(row).Keys <= {"cont", "iota", "my_iota"}
  {
    if |row.cells| >= 4 {
      ContinentSplit(row);
      Union3(Put("cont", ContinentCode(row.cells[0])), Put("iota", row.cells[1]), Put("my_iota", row.cells[3]),
             "cont", "iota", "my_iota");
    }
  }

  /** The third cell of a `Continent` row never matters. */
  lemma ContinentIgnoresThird(row: Row, other: string)
    requires |row.cells| >= 4
    ensures ContinentWrites(row.(cells := row.cells[2 := other])) == ContinentWrites(row)
  {
    var row' := row.(cells := row.cells[2 := other]);
    assert row'.cells[0] == row.cells[0] && row'.cells[1] == row.cells[1] && row'.cells[3] == row.cells[3];
    ContinentSplit(row);
    ContinentSplit(row');
  }

  // ------------------------------------------------------------ Zones

  /** `Zones`: with at least four cells, the ITU zones as written and the CQ
      zones reduced to the first run of digits in their cells. */
  function ZonesWrites(row: Row): (w: Fields)
    ensures |row.cells| < 4 ==> w == map[]
    ensures Clean(w)
  {
    if |row.cells| < 4 then map[]
    else
      var ituz := Put("ituz", row.cells[0]);
      var cqz := PutFound("cqz", FirstDigitRun(row.cells[1]));
      var myItuz := Put("my_itu_zone", row.cells[2]);
      var myCqz := PutFound("my_cq_zone", FirstDigitRun(row.cells[3]));
      CleanUnion(ituz, cqz);
      CleanUnion(ituz + cqz, myItuz);
      CleanUnion(ituz + cqz + myItuz, myCqz);
      ituz + cqz + myItuz + myCqz
  }

  lemma ZonesKeys()
    ensures "ituz" != "cqz" && "ituz" != "my_itu_zone" && "ituz" != "my_cq_zone"
    ensures "cqz" != "my_itu_zone" && "cqz" != "my_cq_zone" && "my_itu_zone" != "my_cq_zone"
  {
  }

  /** `Zones` as the union of its four writes. */
  lemma ZonesSplit(row: Row)
    requires |row.cells| >= 4
    ensures ZonesWrites(row)
            == Put("ituz", row.cells[0]) + PutFound("cqz", FirstDigitRun(row.cells[1]))
               + Put("my_itu_zone", row.cells[2]) + PutFound("my_cq_zone", FirstDigitRun(row.cells[3]))
  {
  }

  /** What `Zones` stores from four cells: both ITU zones when not blank, and
      each CQ zone exactly when its cell holds a digit, as the first digit run
      of that cell. */
  lemma ZonesStored(row: Row)
    requires |row.cells| >= 4
    ensures var w := ZonesWrites(row);
            && ("ituz" in w <==> !AllSpace(row.cells[0]))
            && ("ituz" in w ==> w["ituz"] == Trim(row.cells[0]))
            && ("my_itu_zone" in w <==> !AllSpace(row.cells[2]))
            && ("my_itu_zone" in w ==> w["my_itu_zone"] == Trim(row.cells[2]))
            && ("cqz" in w <==> FirstDigitRun(row.cells[1]).Some?)
            && ("cqz" in w ==> w["cqz"] == FirstDigitRun(row.cells[1]).value)
            && ("my_cq_zone" in w <==> FirstDigitRun(row.cells[3]).Some?)
            && ("my_cq_zone" in w ==> w["my_cq_zone"] == FirstDigitRun(row.cells[3]).value)
  {
    var ituz := Put("ituz", row.cells[0]);
    var cqz := PutFound("cqz", FirstDigitRun(row.cells[1]));
    var myItuz := Put("my_itu_zone", row.cells[2]);
    var myCqz := PutFound("my_cq_zone", FirstDigitRun(row.cells[3]));
    ZonesSplit(row);
    ZonesKeys();
    Union4(ituz, cqz, myItuz, myCqz, "ituz", "cqz", "my_itu_zone", "my_cq_zone");
    if FirstDigitRun(row.cells[1]).Some? {
      PutDecimal("cqz", FirstDigitRun(row.cells[1]).value);
    }
    if FirstDigitRun(row.cells[3]).Some? {
      PutDecimal("my_cq_zone", FirstDigitRun(row.cells[3]).value);
    }
  }

  /** A CQ zone cell that starts with its zone number, like `5 (EU)`, stores
      that number. */
  lemma ZonesCqLeading(row: Row, zone: string, rest: string)
    requires |row.cells| >= 4 && IsDecimal(zone)
    requires rest == [] || !IsDigit(rest[0])
    requires row.cells[1] == zone + rest
    ensures "cqz" in ZonesWrites(row) && ZonesWrites(row)["cqz"] == zone
  {
    ZonesStored(row);
    FirstDigitRunLeading(zone, rest);
  }

  /** `Zones` writes no other fields. */
  lemma ZonesNames(row: Row)
    ensures ZonesWrites(row).Keys <= {"ituz", "cqz", "my_itu_zone", "my_cq_zone"}
  {
    if |row.cells| >= 4 {
      ZonesSplit(row);
      ZonesKeys();
      Union4(Put("ituz", row.cells[0]), PutFound("cqz", FirstDigitRun(row.cells[1])),
             Put("my_itu_zone", row.cells[2]), PutFound("my_cq_zone", FirstDigitRun(row.cells[3])),
             "ituz", "cqz", "my_itu_zone", "my_cq_zone");
    }
  }

  // ----------------------------------------------- Confirmed, Comments, Notes

  /** `Confirmed` only exists so that the label is known; it writes nothing. */
  function ConfirmedWrites(row: Row): (w: Fields)
    ensures w.Keys == {}
  {
    map[]
  }

  /** `Comments` and `Notes`: the first cell, when the row has one, stored
      under `name` unless blank. */
  function FirstCellWrites(name: string, row: Row): (w: Fields)
    ensures w.Keys <= {name}
    ensures name in w <==> |row.cells| >= 1 && !AllSpace(row.cells[0])
    ensures name in w ==> w[name] == Trim(row.cells[0])
    ensures Clean(w)
  {
    if |row.cells| >= 1 then Put(name, row.cells[0]) else map[]
  }
}
