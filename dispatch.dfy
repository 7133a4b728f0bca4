/** The dispatch of a contact page's rows to the handlers
    (logliberator.py:353-364), as a fold of the handlers' writes. */
module Dispatch {
  import opened Wrappers
  import opened Text
  import opened Record
  import opened Rows
  import opened Extract

  /** The fields handler `k` may write. */
  function Names(k: Kind): set<string> {
    match k
    case Serial => {"QRZCOM_QSO_UPLOAD_DATE"}
    case QsoStart => {"QSO_DATE", "TIME_ON"}
    case QsoEnd => {"QSO_DATE_OFF", "TIME_OFF"}
    case Station => {"call", "operator"}
    case Op => {"name", "my_name"}
    case Qth => {"qth", "my_city"}
    case State => {"state", "my_state"}
    case Country => {"country", "my_country"}
    case Frequency => {"band", "freq", "mode"}
    case Power => {"rx_pwr", "rst_rcvd", "tx_pwr", "rst_sent"}
    case Coordinates => {"lat", "lon", "my_lat", "my_lon"}
    case Grid => {"gridsquare", "distance", "my_gridsquare", "ant_az"}
    case Continent => {"cont", "iota", "my_iota"}
    case Zones => {"ituz", "cqz", "my_itu_zone", "my_cq_zone"}
    case QslVia => {"qsl_via"}
    case Confirmed => {}
    case Comments => {"comment"}
    case Notes => {"notes"}
  }

  /** What handler `k` writes for `row`; `minutes` formats the minutes of a
      coordinate. */
  function Writes(k: Kind, row: Row, minutes: string -> string): (w: Fields)
    requires Takes(k, row)
    ensures Clean(w)
    ensures k == Confirmed ==> w == map[]
  {
    match k
    case Serial => SerialWrites(row)
    case QsoStart => QsoStartWrites(row)
    case QsoEnd => QsoEndWrites(row)
    case Station => StationWrites(row)
    case Op => PairWrites("name", "my_name", row)
    case Qth => PairWrites("qth", "my_city", row)
    case State => PairWrites("state", "my_state", row)
    case Country => PairWrites("country", "my_country", row)
    case Frequency => FrequencyWrites(row)
    case Power => PowerWrites(row)
    case Coordinates => CoordinatesWrites(row, minutes)
    case Grid => GridWrites(row)
    case Continent => ContinentWrites(row)
    case Zones => ZonesWrites(row)
    case QslVia => QslViaWrites(row)
    case Confirmed => ConfirmedWrites(row)
    case Comments => FirstCellWrites("comment", row)
    case Notes => FirstCellWrites("notes", row)
  }

  /** Every handler writes only its own fields. */
  lemma WritesNames(k: Kind, row: Row, minutes: string -> string)
    requires Takes(k, row)
    ensures Writes(k, row, minutes).Keys <= Names(k)
  {
    match k
    case Frequency => FrequencyNames(row);
    case Power => PowerNames(row);
    case Coordinates => CoordinatesNames(row, minutes);
    case Grid => GridNames(row);
    case Continent => ContinentNames(row);
    case Zones => ZonesNames(row);
    case _ =>
  }

  /** What one row does to the record: its handler's writes, or nothing for a
      row without a header or with a label no handler has. */
  function RowWrites(row: Row, minutes: string -> string): (w: Fields)
    requires Admissible(row)
    ensures KindOf(row).None? ==> w == map[]
    ensures row.header.None? ==> w == map[]
    ensures KindOf(row) == Some(Confirmed) ==> w == map[]
    ensures Clean(w)
  {
    match KindOf(row)
    case None => map[]
    case Some(k) => Writes(k, row, minutes)
  }

  /** The fields a row may write. */
  function RowNames(row: Row): set<string> {
    match KindOf(row)
    case None => {}
    case Some(k) => Names(k)
  }

  lemma RowWritesNames(row: Row, minutes: string -> string)
    requires Admissible(row)
    ensures RowWrites(row, minutes).Keys <= RowNames(row)
  {
    if KindOf(row).Some? {
      WritesNames(KindOf(row).value, row, minutes);
    }
  }

  predicate AllAdmissible(rows: seq<Row>) {
    forall i :: 0 <= i < |rows| ==> Admissible(rows[i])
  }

  /** The record after the rows have been handled in order, starting from `m`.
      No handler removes a field, so every field of `m` is still there. */
  function ApplyRows(m: Fields, rows: seq<Row>, minutes: string -> string): (r: Fields)
    requires AllAdmissible(rows)
    ensures m.Keys <= r.Keys
    ensures rows == [] ==> r == m
    decreases |rows|
  {
    if rows == [] then m
    else ApplyRows(m, rows[..|rows| - 1], minutes) + RowWrites(rows[|rows| - 1], minutes)
  }

  /** The fields any of the rows may write. */
  function Touched(rows: seq<Row>): set<string>
    decreases |rows|
  {
    if rows == [] then {} else Touched(rows[..|rows| - 1]) + RowNames(rows[|rows| - 1])
  }

  /** Every prefix of admissible rows is admissible, and so is each row. */
  lemma AdmissiblePrefix(rows: seq<Row>, j: nat)
    requires AllAdmissible(rows) && j < |rows|
    ensures AllAdmissible(rows[..j]) && Admissible(rows[j])
    ensures rows[..j + 1] == rows[..j] + [rows[j]]
  {
    assert forall i :: 0 <= i < j ==> rows[..j][i] == rows[i];
  }

  /** Handling one more row adds its writes on top. */
  lemma ApplyRowsSnoc(m: Fields, rows: seq<Row>, row: Row, minutes: string -> string)
    requires AllAdmissible(rows) && Admissible(row)
    ensures AllAdmissible(rows + [row])
    ensures ApplyRows(m, rows + [row], minutes) == ApplyRows(m, rows, minutes) + RowWrites(row, minutes)
  {
    var all := rows + [row];
    forall i | 0 <= i < |all| ensures Admissible(all[i]) {
      if i < |rows| { assert all[i] == rows[i]; }
    }
    assert all[..|rows|] == rows;
  }

  /** Handling rows keeps a record whose values are all stripped and non-empty. */
  lemma {:induction false} ApplyRowsClean(m: Fields, rows: seq<Row>, minutes: string -> string)
    requires AllAdmissible(rows) && Clean(m)
    ensures Clean(ApplyRows(m, rows, minutes))
    decreases |rows|
  {
    if rows != [] {
      ApplyRowsClean(m, rows[..|rows| - 1], minutes);
      CleanUnion(ApplyRows(m, rows[..|rows| - 1], minutes), RowWrites(rows[|rows| - 1], minutes));
    }
  }

  /** A field no row actually writes keeps its value, or stays absent: one
      no handler names, and equally one a handler skipped because its cell
      was blank, its number was not positive or its pattern did not match. */
  lemma {:induction false} ApplyRowsUntouched(m: Fields, rows: seq<Row>, minutes: string -> string, k: string)
    requires AllAdmissible(rows)
    requires forall j :: 0 <= j < |rows| ==> k !in RowWrites(rows[j], minutes)
    ensures k in ApplyRows(m, rows, minutes) <==> k in m
    ensures k in m ==> ApplyRows(m, rows, minutes)[k] == m[k]
    decreases |rows|
  {
    if rows != [] {
      var front := rows[..|rows| - 1];
      var last := rows[|rows| - 1];
      AdmissiblePrefix(rows, |rows| - 1);
      assert forall j :: 0 <= j < |front| ==> front[j] == rows[j];
      ApplyRowsUntouched(m, front, minutes, k);
      assert k !in RowWrites(last, minutes);
    }
  }

  /** The fields of the result are those of `m` and those the rows may write. */
  lemma {:induction false} ApplyRowsKeys(m: Fields, rows: seq<Row>, minutes: string -> string)
    requires AllAdmissible(rows)
    ensures ApplyRows(m, rows, minutes).Keys <= m.Keys + Touched(rows)
    decreases |rows|
  {
    if rows != [] {
      ApplyRowsKeys(m, rows[..|rows| - 1], minutes);
      RowWritesNames(rows[|rows| - 1], minutes);
    }
  }

  /** The last row that writes a field decides its value. */
  lemma {:induction false} LastWriteWins(m: Fields, rows: seq<Row>, minutes: string -> string, i: nat, k: string)
    requires AllAdmissible(rows) && i < |rows|
    requires k in RowWrites(rows[i], minutes)
    requires forall j :: i < j < |rows| ==> k !in RowWrites(rows[j], minutes)
    ensures k in ApplyRows(m, rows, minutes)
    ensures ApplyRows(m, rows, minutes)[k] == RowWrites(rows[i], minutes)[k]
    decreases |rows|
  {
    var front := rows[..|rows| - 1];
    var last := rows[|rows| - 1];
    AdmissiblePrefix(rows, |rows| - 1);
    if i < |rows| - 1 {
      assert front[i] == rows[i];
      assert forall j :: 0 <= j < |front| ==> front[j] == rows[j];
      LastWriteWins(m, front, minutes, i, k);
      assert k !in RowWrites(last, minutes);
    }
  }

  /** A header padded with whitespace, such as ` QSO Start: `, reaches `QSO_Start`. */
  lemma QsoStartLabel(row: Row)
    requires row.header.Some? && Trim(row.header.value) == "QSO Start:"
    ensures KindOf(row) == Some(QsoStart)
  {
    assert Label("QSO Start:") == "QSO_Start" by {
      assert "QSO" + " " + "Start" + ":" == "QSO Start:";
      assert "QSO" + "_" + "Start" == "QSO_Start";
      LabelOfTwoWords("QSO", "Start");
    }
    LabelIgnoresPadding(row.header.value);
    HandlerForName(QsoStart);
  }

  /** `QSL Via:` reaches `QSL_Via`. */
  lemma QslViaLabel(row: Row)
    requires row.header.Some? && Trim(row.header.value) == "QSL Via:"
    ensures KindOf(row) == Some(QslVia)
  {
    assert Label("QSL Via:") == "QSL_Via" by {
      assert "QSL" + " " + "Via" + ":" == "QSL Via:";
      assert "QSL" + "_" + "Via" == "QSL_Via";
      LabelOfTwoWords("QSL", "Via");
    }
    LabelIgnoresPadding(row.header.value);
    HandlerForName(QslVia);
  }
}
