/** One table row of a contact page, reduced to the texts the handlers read,
    and the label lookup that picks its handler (logliberator.py:353-364). */
module Rows {
  import opened Wrappers
  import opened Text

  /** A `<tr>` of the contact page.
      - `header`: the text of its `<th>`, absent when there is none;
      - `cells`: the texts of its `<td>` elements, in document order;
      - `leadText`: the first child node of the first cell as text (the
        frequency before the band span), absent when that cell is empty;
      - `bandText`: the text of the `<span class="band">` in the first cell;
      - `logDate`: the text two siblings after the `Log Date:` span of the
        second cell, absent when there is no such span. */
  datatype Row = Row(
    header: Option<string>,
    cells: seq<string>,
    leadText: Option<string>,
    bandText: Option<string>,
    logDate: Option<string>)

  /** The methods of the handler object, one per row label it knows. */
  datatype Kind =
    | Serial | QsoStart | QsoEnd | Station | Op | Qth | State | Country
    | Frequency | Power | Coordinates | Grid | Continent | Zones | QslVia
    | Confirmed | Comments | Notes

  /** The method name a label must spell to reach each handler. */
  function Name(k: Kind): string {
    match k
    case Serial => "Serial"
    case QsoStart => "QSO_Start"
    case QsoEnd => "QSO_End"
    case Station => "Station"
    case Op => "Op"
    case Qth => "QTH"
    case State => "State"
    case Country => "Country"
    case Frequency => "Frequency"
    case Power => "Power"
    case Coordinates => "Coordinates"
    case Grid => "Grid"
    case Continent => "Continent"
    case Zones => "Zones"
    case QslVia => "QSL_Via"
    case Confirmed => "Confirmed"
    case Comments => "Comments"
    case Notes => "Notes"
  }

  /** A header text made into a method name: stripped, every `:` deleted,
      then every space turned into `_`. A label never holds a colon or a space. */
  function Label(th: string): (r: string)
    ensures ':' !in r && ' ' !in r
  {
    var noColon := Replace(Trim(th), ":", "");
    DeleteChar(Trim(th), ':');
    ReplaceCharChars(noColon, ' ', '_');
    Replace(noColon, " ", "_")
  }

  /** Surrounding whitespace of the header never matters. */
  lemma LabelIgnoresPadding(th: string)
    ensures Label(Trim(th)) == Label(th)
  {
    TrimIdempotent(th);
  }

  /** A two-word header with a closing colon, such as `QSO Start:` or
      `QSL Via:`, reaches the handler named by the words joined with `_`. */
  lemma LabelOfTwoWords(a: string, b: string)
    requires a != [] && b != []
    requires forall i :: 0 <= i < |a| ==> !IsSpace(a[i]) && a[i] != ':'
    requires forall i :: 0 <= i < |b| ==> !IsSpace(b[i]) && b[i] != ':'
    ensures Label(a + " " + b + ":") == a + "_" + b
  {
    var spaced := a + " " + b;
    JoinedChars(a, b);
    assert !IsSpace(a[0]);
    HeaderOfWords(spaced);
    ReplaceJoin(a, b, ' ', '_');
  }

  /** A row whose padded header is two words with a closing colon goes to
      the handler named by the words joined with `_`. */
  lemma KindOfTwoWords(row: Row, a: string, b: string)
    requires a != [] && b != []
    requires forall i :: 0 <= i < |a| ==> !IsSpace(a[i]) && a[i] != ':'
    requires forall i :: 0 <= i < |b| ==> !IsSpace(b[i]) && b[i] != ':'
    requires row.header.Some? && Trim(row.header.value) == a + " " + b + ":"
    ensures KindOf(row) == HandlerFor(a + "_" + b)
  {
    LabelIgnoresPadding(row.header.value);
    LabelOfTwoWords(a, b);
  }

  /** The two words joined by a space hold no colon, and a space only between them. */
  lemma JoinedChars(a: string, b: string)
    requires a != []
    requires forall i :: 0 <= i < |a| ==> !IsSpace(a[i]) && a[i] != ':'
    requires forall i :: 0 <= i < |b| ==> !IsSpace(b[i]) && b[i] != ':'
    ensures ':' !in a + " " + b && ' ' !in a && ' ' !in b
    ensures (a + " " + b)[0] == a[0]
  {
    var spaced := a + " " + b;
    forall i | 0 <= i < |spaced| ensures spaced[i] != ':' {
      if i < |a| { assert spaced[i] == a[i]; }
      else if i > |a| { assert spaced[i] == b[i - |a| - 1]; }
    }
  }

  /** A colon-free text that starts with a non-space, followed by a colon, labels as the text with spaces made `_`. */
  lemma HeaderOfWords(spaced: string)
    requires spaced != [] && !IsSpace(spaced[0]) && ':' !in spaced
    ensures Label(spaced + ":") == Replace(spaced, " ", "_")
  {
    var th := spaced + ":";
    assert th[0] == spaced[0] && th[|th| - 1] == ':';
    TrimOfTrimmed(th);
    DeleteTrailingChar(spaced, ':');
  }

  /** The handler whose name is `title` (`hasattr(handler, title)`), if any. */
  function HandlerFor(title: string): (r: Option<Kind>)
    ensures r.Some? ==> Name(r.value) == title
    ensures r.None? ==> forall k: Kind :: Name(k) != title
  {
    if title == "Serial" then Some(Serial)
    else if title == "QSO_Start" then Some(QsoStart)
    else if title == "QSO_End" then Some(QsoEnd)
    else if title == "Station" then Some(Station)
    else if title == "Op" then Some(Op)
    else if title == "QTH" then Some(Qth)
    else if title == "State" then Some(State)
    else if title == "Country" then Some(Country)
    else if title == "Frequency" then Some(Frequency)
    else if title == "Power" then Some(Power)
    else if title == "Coordinates" then Some(Coordinates)
    else if title == "Grid" then Some(Grid)
    else if title == "Continent" then Some(Continent)
    else if title == "Zones" then Some(Zones)
    else if title == "QSL_Via" then Some(QslVia)
    else if title == "Confirmed" then Some(Confirmed)
    else if title == "Comments" then Some(Comments)
    else if title == "Notes" then Some(Notes)
    else None
  }

  /** Each handler is reached by exactly one label: its own name. */
  lemma HandlerForName(k: Kind)
    ensures HandlerFor(Name(k)) == Some(k)
  {
  }

  /** The handler a row is dispatched to, if any: the one whose name is the
      label of the header; none for a row without a header. */
  function KindOf(row: Row): (r: Option<Kind>)
    ensures row.header.None? ==> r.None?
    ensures r.Some? ==> Name(r.value) == Label(row.header.value)
    ensures row.header.Some? && r.None? ==> forall k: Kind :: Name(k) != Label(row.header.value)
  {
    match row.header
    case None => None
    case Some(th) => HandlerFor(Label(th))
  }

  /** `his, mine = get_tds(tag)`: unpacking raises unless there are exactly two cells. */
  predicate TwoCells(row: Row) {
    |row.cells| == 2
  }

  /** `text.split(',', 1)` unpacked into two names raises unless the text has a comma. */
  predicate HasComma(s: string) {
    ',' in s
  }

  /** The rows handler `k` can take without raising: the two-cell handlers
      need exactly two cells, and `Coordinates` also a comma in each. */
  predicate Takes(k: Kind, row: Row) {
    match k
    case Station | Op | Qth | State | Country | QslVia => TwoCells(row)
    case Coordinates => TwoCells(row) && HasComma(row.cells[0]) && HasComma(row.cells[1])
    case _ => true
  }

  /** A row the dispatch loop can hand to its handler without raising. */
  predicate Admissible(row: Row) {
    KindOf(row).Some? ==> Takes(KindOf(row).value, row)
  }
}
