/** The handler methods of logliberator.py:56-266 and the row loop of
    logliberator.py:350-364, updating a record in place. Each method is
    proved to leave the record as the matching write function of `Extract`
    (or `Dispatch`) says, and to keep every stored value stripped. */
module Handlers {
  import opened Wrappers
  import opened Text
  import opened Pattern
  import opened Record
  import opened Rows
  import opened Extract
  import opened Dispatch

  /** `Serial`: the upload date after `Log Date:`, when the span is there. */
  method Serial(ent: Entry, row: Row)
    modifies ent
    ensures ent.fields == old(ent.fields) + SerialWrites(row)
    ensures old(ent.Valid()) ==> ent.Valid()
  {
    if |row.cells| >= 2 && row.logDate.Some? {
      var ld := DatePart(row.logDate.value);
      ent.AssignValue("QRZCOM_QSO_UPLOAD_DATE", ld);
    } else {
      UnionEmpty(ent.fields);
    }
  }

  /** `QSO_Start`: skips short rows, `no` and texts shorter than a stamp. */
  method QsoStart(ent: Entry, row: Row)
    modifies ent
    ensures ent.fields == old(ent.fields) + QsoStartWrites(row)
    ensures old(ent.Valid()) ==> ent.Valid()
  {
    if |row.cells| < 2 {
      UnionEmpty(ent.fields);
      return;
    }
    var qsText := Trim(row.cells[1]);
    if Lower(qsText) == "no" || |qsText| < 19 {
      UnionEmpty(ent.fields);
      return;
    }
    var qsd := DatePart(qsText);
    var qst := TimePart(qsText);
    ent.AssignValue("QSO_DATE", qsd);
    ent.AssignValue("TIME_ON", qst);
    UnionAssoc(old(ent.fields), Put("QSO_DATE", qsd), Put("TIME_ON", qst));
  }

  /** `QSO_End`: the stamp of the second of at least four cells. */
  method QsoEnd(ent: Entry, row: Row)
    modifies ent
    ensures ent.fields == old(ent.fields) + QsoEndWrites(row)
    ensures old(ent.Valid()) ==> ent.Valid()
  {
    if |row.cells| >= 4 {
      var qe := row.cells[1];
      var qed := DatePart(qe);
      var qet := TimePart(qe);
      ent.AssignValue("QSO_DATE_OFF", qed);
      ent.AssignValue("TIME_OFF", qet);
      UnionAssoc(old(ent.fields), Put("QSO_DATE_OFF", qed), Put("TIME_OFF", qet));
    } else {
      UnionEmpty(ent.fields);
    }
  }

  /** `Station`: both callsigns. */
  method Station(ent: Entry, row: Row)
    requires TwoCells(row)
    modifies ent
    ensures ent.fields == old(ent.fields) + StationWrites(row)
    ensures old(ent.Valid()) ==> ent.Valid()
  {
    var his, mine := row.cells[0], row.cells[1];
    ent.AssignCall("call", Some(his));
    ent.AssignCall("operator", Some(mine));
    UnionAssoc(old(ent.fields), PutCall("call", Some(his)), PutCall("operator", Some(mine)));
  }

  /** `Op`: both operator names. */
  method Op(ent: Entry, row: Row)
    requires TwoCells(row)
    modifies ent
    ensures ent.fields == old(ent.fields) + PairWrites("name", "my_name", row)
    ensures old(ent.Valid()) ==> ent.Valid()
  {
    var his, mine := row.cells[0], row.cells[1];
    ent.StrOrIntl("name", his);
    ent.StrOrIntl("my_name", mine);
    UnionAssoc(old(ent.fields), Put("name", his), Put("my_name", mine));
  }

  /** `QTH`: both places. */
  method Qth(ent: Entry, row: Row)
    requires TwoCells(row)
    modifies ent
    ensures ent.fields == old(ent.fields) + PairWrites("qth", "my_city", row)
    ensures old(ent.Valid()) ==> ent.Valid()
  {
    var his, mine := row.cells[0], row.cells[1];
    ent.StrOrIntl("qth", his);
    ent.StrOrIntl("my_city", mine);
    UnionAssoc(old(ent.fields), Put("qth", his), Put("my_city", mine));
  }

  /** `State`: both states. */
  method State(ent: Entry, row: Row)
    requires TwoCells(row)
    modifies ent
    ensures ent.fields == old(ent.fields) + PairWrites("state", "my_state", row)
    ensures old(ent.Valid()) ==> ent.Valid()
  {
    var his, mine := row.cells[0], row.cells[1];
    ent.AssignValue("state", his);
    ent.AssignValue("my_state", mine);
    UnionAssoc(old(ent.fields), Put("state", his), Put("my_state", mine));
  }

  /** `Country`: both countries. */
  method Country(ent: Entry, row: Row)
    requires TwoCells(row)
    modifies ent
    ensures ent.fields == old(ent.fields) + PairWrites("country", "my_country", row)
    ensures old(ent.Valid()) ==> ent.Valid()
  {
    var his, mine := row.cells[0], row.cells[1];
    ent.AssignValue("country", his);
    ent.AssignValue("my_country", mine);
    UnionAssoc(old(ent.fields), Put("country", his), Put("my_country", mine));
  }

  /** `Frequency`: band, frequency and mode of the station worked. */
  method Frequency(ent: Entry, row: Row)
    modifies ent
    ensures ent.fields == old(ent.fields) + FrequencyWrites(row)
    ensures old(ent.Valid()) ==> ent.Valid()
  {
    if |row.cells| < 4 {
      UnionEmpty(ent.fields);
      return;
    }
    var freq := FreqText(row);
    var band := BandText(row);
    var mode := row.cells[1];
    ghost var m := ent.fields;
    ent.AssignValue("band", band);
    ent.AssignValue("freq", Replace(freq, " MHz", ""));
    UnionAssoc(m, Put("band", band), Put("freq", Replace(freq, " MHz", "")));
    ent.AssignValue("mode", mode);
    UnionAssoc(m, Put("band", band) + Put("freq", Replace(freq, " MHz", "")), Put("mode", mode));
  }

  /** One side of `Power`: the power when a positive whole number, then the report. */
  method PowerPart(ent: Entry, pwrKey: string, rstKey: string, pwr: string, rst: string)
    requires pwrKey != rstKey
    modifies ent
    ensures ent.fields == old(ent.fields) + PowerSide(pwrKey, rstKey, pwr, rst)
    ensures old(ent.Valid()) ==> ent.Valid()
  {
    var po := PowerText(pwr);
    var report := Trim(rst);
    ghost var m := ent.fields;
    PutPowerCases(pwrKey, pwr);
    if IsDecimal(po) && NatOf(po) > 0 {
      ent.AssignValue(pwrKey, po);
    } else {
      UnionEmpty(ent.fields);
    }
    assert ent.fields == m + PutPower(pwrKey, pwr);
    ent.AssignValue(rstKey, report);
    UnionAssoc(m, PutPower(pwrKey, pwr), Put(rstKey, report));
    PowerSideSplit(pwrKey, rstKey, pwr, rst);
  }

  /** `Power`: his side (received) from the first two cells, mine (sent)
      from the last two. */
  method Power(ent: Entry, row: Row)
    modifies ent
    ensures ent.fields == old(ent.fields) + PowerWrites(row)
    ensures old(ent.Valid()) ==> ent.Valid()
  {
    if |row.cells| < 4 {
      UnionEmpty(ent.fields);
      return;
    }
    PowerPart(ent, "rx_pwr", "rst_rcvd", row.cells[0], row.cells[1]);
    PowerPart(ent, "tx_pwr", "rst_sent", row.cells[2], row.cells[3]);
    UnionAssoc(old(ent.fields), PowerSide("rx_pwr", "rst_rcvd", row.cells[0], row.cells[1]),
               PowerSide("tx_pwr", "rst_sent", row.cells[2], row.cells[3]));
    PowerSplit(row);
  }

  /** One coordinate of `Coordinates`: stored when the pattern matches. */
  method Coordinate(ent: Entry, name: string, text: string, hemispheres: set<char>,
                    minutes: string -> string)
    modifies ent
    ensures ent.fields == old(ent.fields) + PutCoord(name, text, hemispheres, minutes)
    ensures old(ent.Valid()) ==> ent.Valid()
  {
    var found := SearchCoord(text, hemispheres, 0);
    if found.Some? {
      ent.AssignValue(name, CoordValue(found.value, minutes));
    } else {
      UnionEmpty(ent.fields);
    }
  }

  /** `Coordinates`: the latitude before and the longitude after the first
      comma of each of the two cells. */
  method Coordinates(ent: Entry, row: Row, minutes: string -> string)
    requires TwoCells(row) && HasComma(row.cells[0]) && HasComma(row.cells[1])
    modifies ent
    ensures ent.fields == old(ent.fields) + CoordinatesWrites(row, minutes)
    ensures old(ent.Valid()) ==> ent.Valid()
  {
    ghost var m := ent.fields;
    var his, mine := row.cells[0], row.cells[1];
    var parts := SplitComma(his);
    Coordinate(ent, "lat", parts.0, Latitudes, minutes);
    Coordinate(ent, "lon", parts.1, Longitudes, minutes);
    ghost var hisW := SideWrites("lat", "lon", his, minutes);
    UnionAssoc(m, PutCoord("lat", parts.0, Latitudes, minutes), PutCoord("lon", parts.1, Longitudes, minutes));
    assert ent.fields == m + hisW;
    parts := SplitComma(mine);
    Coordinate(ent, "my_lat", parts.0, Latitudes, minutes);
    Coordinate(ent, "my_lon", parts.1, Longitudes, minutes);
    ghost var mineW := SideWrites("my_lat", "my_lon", mine, minutes);
    UnionAssoc(m + hisW, PutCoord("my_lat", parts.0, Latitudes, minutes),
               PutCoord("my_lon", parts.1, Longitudes, minutes));
    assert ent.fields == m + hisW + mineW;
    UnionAssoc(m, hisW, mineW);
    CoordinatesSplit(row, minutes);
  }

  /** `Grid`: both grid squares, the distance when positive, the bearing. */
  method Grid(ent: Entry, row: Row)
    modifies ent
    ensures ent.fields == old(ent.fields) + GridWrites(row)
    ensures old(ent.Valid()) ==> ent.Valid()
  {
    if |row.cells| < 4 {
      UnionEmpty(ent.fields);
      return;
    }
    ghost var m := ent.fields;
    ghost var grid := Put("gridsquare", row.cells[0]);
    ghost var dist := PutDistance("distance", Kilometres(row.cells[1]));
    ghost var myGrid := Put("my_gridsquare", row.cells[2]);
    ghost var az := PutFound("ant_az", Bearing(row.cells[3]));
    ent.AssignValue("gridsquare", row.cells[0]);
    var km := Kilometres(row.cells[1]);
    if km.Some? && NatOf(km.value) > 0 {
      ent.AssignValue("distance", km.value);
      PutDecimal("distance", km.value);
    } else {
      UnionEmpty(ent.fields);
    }
    UnionAssoc(m, grid, dist);
    ent.AssignValue("my_gridsquare", row.cells[2]);
    UnionAssoc(m, grid + dist, myGrid);
    var deg := Bearing(row.cells[3]);
    if deg.Some? {
      ent.AssignValue("ant_az", deg.value);
    } else {
      UnionEmpty(ent.fields);
    }
    UnionAssoc(m, grid + dist + myGrid, az);
    GridSplit(row);
  }

  /** `Continent`: the continent code and both island references. */
  method Continent(ent: Entry, row: Row)
    modifies ent
    ensures ent.fields == old(ent.fields) + ContinentWrites(row)
    ensures old(ent.Valid()) ==> ent.Valid()
  {
    if |row.cells| < 4 {
      UnionEmpty(ent.fields);
      return;
    }
    ghost var m := ent.fields;
    var hisCont, hisIota, myIota := row.cells[0], row.cells[1], row.cells[3];
    var ct := Slice(Trim(hisCont), 0, 2);
    ent.AssignValue("cont", ct);
    ent.AssignValue("iota", hisIota);
    UnionAssoc(m, Put("cont", ct), Put("iota", hisIota));
    ent.AssignValue("my_iota", myIota);
    UnionAssoc(m, Put("cont", ct) + Put("iota", hisIota), Put("my_iota", myIota));
    ContinentSplit(row);
  }

  /** `Zones`: both ITU zones and the first digit run of each CQ zone. */
  method Zones(ent: Entry, row: Row)
    modifies ent
    ensures ent.fields == old(ent.fields) + ZonesWrites(row)
    ensures old(ent.Valid()) ==> ent.Valid()
  {
    if |row.cells| < 4 {
      UnionEmpty(ent.fields);
      return;
    }
    ghost var m := ent.fields;
    ghost var ituz := Put("ituz", row.cells[0]);
    ghost var cqzW := PutFound("cqz", FirstDigitRun(row.cells[1]));
    ghost var myItuz := Put("my_itu_zone", row.cells[2]);
    ghost var myCqz := PutFound("my_cq_zone", FirstDigitRun(row.cells[3]));
    ent.AssignValue("ituz", row.cells[0]);
    var cqz := FirstDigitRun(row.cells[1]);
    if cqz.Some? {
      ent.AssignValue("cqz", cqz.value);
    } else {
      UnionEmpty(ent.fields);
    }
    UnionAssoc(m, ituz, cqzW);
    ent.AssignValue("my_itu_zone", row.cells[2]);
    UnionAssoc(m, ituz + cqzW, myItuz);
    cqz := FirstDigitRun(row.cells[3]);
    if cqz.Some? {
      ent.AssignValue("my_cq_zone", cqz.value);
    } else {
      UnionEmpty(ent.fields);
    }
    UnionAssoc(m, ituz + cqzW + myItuz, myCqz);
    ZonesSplit(row);
  }

  /** `QSL_Via`: the first cell only. */
  method QslVia(ent: Entry, row: Row)
    requires TwoCells(row)
    modifies ent
    ensures ent.fields == old(ent.fields) + QslViaWrites(row)
    ensures old(ent.Valid()) ==> ent.Valid()
  {
    var his := row.cells[0];
    ent.AssignValue("qsl_via", his);
  }

  /** `Confirmed`: nothing at all. */
  method Confirmed(ent: Entry, row: Row)
    ensures ent.fields == old(ent.fields) + ConfirmedWrites(row)
  {
    UnionEmpty(ent.fields);
  }

  /** `Comments` and `Notes`: the first cell, when there is one. */
  method FirstCell(ent: Entry, name: string, row: Row)
    modifies ent
    ensures ent.fields == old(ent.fields) + FirstCellWrites(name, row)
    ensures old(ent.Valid()) ==> ent.Valid()
  {
    if |row.cells| >= 1 {
      ent.StrOrIntl(name, row.cells[0]);
    } else {
      UnionEmpty(ent.fields);
    }
  }

  /** `getattr(handler, title_text)(ent, row)`: run the handler of kind `k`. */
  method Invoke(k: Kind, ent: Entry, row: Row, minutes: string -> string)
    requires Takes(k, row)
    modifies ent
    ensures ent.fields == old(ent.fields) + Writes(k, row, minutes)
    ensures old(ent.Valid()) ==> ent.Valid()
  {
    match k
    case Serial => Serial(ent, row);
    case QsoStart => QsoStart(ent, row);
    case QsoEnd => QsoEnd(ent, row);
    case Station => Station(ent, row);
    case Op => Op(ent, row);
    case Qth => Qth(ent, row);
    case State => State(ent, row);
    case Country => Country(ent, row);
    case Frequency => Frequency(ent, row);
    case Power => Power(ent, row);
    case Coordinates => Coordinates(ent, row, minutes);
    case Grid => Grid(ent, row);
    case Continent => Continent(ent, row);
    case Zones => Zones(ent, row);
    case QslVia => QslVia(ent, row);
    case Confirmed => Confirmed(ent, row);
    case Comments => FirstCell(ent, "comment", row);
    case Notes => FirstCell(ent, "notes", row);
  }

  /** The loop over a contact's rows: a row without a header, or whose label
      names no handler, is skipped; every other row goes to its handler. */
  method FillEntry(ent: Entry, rows: seq<Row>, minutes: string -> string)
    requires AllAdmissible(rows)
    modifies ent
    ensures ent.fields == ApplyRows(old(ent.fields), rows, minutes)
    ensures old(ent.Valid()) ==> ent.Valid()
  {
    for j := 0 to |rows|
      invariant ent.fields == ApplyRows(old(ent.fields), rows[..j], minutes)
      invariant old(ent.Valid()) ==> ent.Valid()
    {
      var row := rows[j];
      AdmissiblePrefix(rows, j);
      ApplyRowsSnoc(old(ent.fields), rows[..j], row, minutes);
      var title := row.header;
      if title.None? {
        UnionEmpty(ent.fields);
        continue;
      }
      var titleText := Label(title.value);
      var handler := HandlerFor(titleText);
      assert KindOf(row) == handler;
      if handler.Some? {
        assert RowWrites(row, minutes) == Writes(handler.value, row, minutes);
        Invoke(handler.value, ent, row, minutes);
      } else {
        UnionEmpty(ent.fields);
      }
    }
    assert rows[..|rows|] == rows;
  }

  /** A new record filled from a contact's rows (`adif.newEntry()` and the loop). */
  method NewEntry(rows: seq<Row>, minutes: string -> string) returns (ent: Entry)
    requires AllAdmissible(rows)
    ensures fresh(ent)
    ensures ent.fields == ApplyRows(map[], rows, minutes)
    ensures ent.Valid()
  {
    ent := new Entry();
    FillEntry(ent, rows, minutes);
  }
}
