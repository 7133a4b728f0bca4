# Log Liberator: the field extraction of a logbook contact page

Log Liberator reads the contacts of a QRZ.com logbook one page at a time. Each
contact page holds a table. Each row of that table has a header (`<th>`) that
names it, such as `QSO Start:`, `Grid` or `Power`, and its data cells (`<td>`).
The script turns the header into a method name of its `Handler` object. The
matching handler copies parts of the cells into the contact record. Three
setters do the storing:

- `assign_value` strips the value and stores it only when something is left;
- `assign_call` first reads every `Ø` as the digit `0`;
- `str_or_intl` stores like `assign_value` does.

This project models that extraction:

- the record and its setters (`record.dfy`);
- one table row and the header-to-handler lookup (`rows.dfy`);
- the string routines the handlers rely on: `strip`, `replace`, clamped slicing, `int`, `str`, `%03u` (`text.dfy`);
- the regular-expression searches `([0-9]+)<lit>`, `[0-9]+` and `([0-9]+)\.([0-9]+) ([NS])` (`pattern.dfy`).

Every handler gets two forms:

- A function in `extract.dfy` gives the fields the handler writes for a row. That set of writes does not depend on the record, so handling a row turns the record `m` into `m + Writes(row)`.
- A method in `handlers.dfy` updates a record object in place. It calls the setters in the source's order and is proved to end in exactly that state.

`dispatch.dfy` folds the writes over the rows of a page. It proves that:

- rows that reach no handler change nothing;
- the last row that writes a field decides its value;
- every stored value stays stripped and non-empty.

`handlers.dfy` holds the loop that hands each row to its handler. It is proved against that fold. `bookids.dfy` models how the logbook numbers are picked from the selector on the first page.

The HTML document is abstracted away. A row (`Rows.Row`) is:

- the text of its header, absent when there is none;
- the texts of its cells;
- the three pieces of markup that `Frequency` and `Serial` look inside: the first child of the first cell, the band span, and the text after the `Log Date:` span.

Handlers that unpack the cells as `his, mine = get_tds(tag)` raise unless the row has exactly two cells. `Coordinates` also raises unless each cell holds a comma, because it unpacks `split(',', 1)`. These conditions are preconditions (`Rows.Takes`), and the dispatch loop requires them of every row (`Rows.Admissible`).

`Coordinates` formats its minutes as `%#06.3f` of a floating-point product. That formatting is the parameter `minutes`: it maps the fraction digits of the match to the text printed for them. Everything else about a coordinate is modelled: the hemisphere letter, the zero-padded degrees and the search itself.

## Model

| member | source | states |
|---|---|---|
| `Record.Put` | logliberator.py:19-25 | what `assign_value` writes: the one name, present exactly when the value is not all whitespace, holding the stripped value, which is stripped and non-empty |
| `Record.Entry.AssignValue` | logliberator.py:19-25 | the record becomes the old record plus `Put(name, value)`; every other key keeps its presence and value; a clean record stays clean |
| `Record.PutCall` | logliberator.py:33-38 | nothing for an absent value; otherwise written exactly when not blank, holding the value with every `Ø` made `0` and then stripped, so the stored callsign never holds `Ø` |
| `Record.ZeroForSlashedAt` | logliberator.py:37 | the substitution keeps the length, puts `0` where each `Ø` was and leaves every other character in place |
| `Record.PutCallExample` | logliberator.py:33-38 | `Ø1ABC` is stored as `01ABC` |
| `Record.Entry.AssignCall` | logliberator.py:33-38 | the record becomes the old record plus `PutCall(name, value)`; cleanliness kept |
| `Record.Entry.StrOrIntl` | logliberator.py:40-49 | the record becomes the old record plus `Put(name, value)`, the same effect as `assign_value`; cleanliness kept |
| `Record.CleanUnion` | logliberator.py:21-25 | adding clean writes to a clean record keeps every value stripped and non-empty |
| `Text.Trim` | logliberator.py:21 | `strip`: the result is the middle of the input between the first and the last non-whitespace character; everything cut off on either side is whitespace, and the result neither starts nor ends with whitespace |
| `Text.TrimIdempotent` | logliberator.py:21 | stripping twice is stripping once |
| `Text.TrimEmpty` | logliberator.py:22 | the stripped value is empty exactly when the value is all whitespace |
| `Text.ReplaceCharAt` | logliberator.py:37 | replacing one character by another changes exactly the positions that held it |
| `Text.DeleteChar` | logliberator.py:92-93 | deleting a character leaves a text without it, no longer than before |
| `Text.DecimalString` | logliberator.py:185 | the decimal digits `%u` prints for `n`: a digit string whose value is `n` and which has no leading zero |
| `Text.DecimalRoundTrip` | logliberator.py:185 | printing `int(d)` gives back `d` when `d` is a digit string without a leading zero |
| `Text.ZeroPad` | logliberator.py:185 | `%03u`: the value is kept, the digits come last, zeros fill the front up to the width, and the length is the larger of the width and the digit count |
| `Text.Replace` | logliberator.py:360 | `replace`: a replacement no longer than the pattern never lengthens the text, and one of the same length keeps the length |
| `Text.ReplaceAbsent` | logliberator.py:163 | a pattern that occurs nowhere leaves the text unchanged, for patterns of any length |
| `Text.DeleteTrailing` | logliberator.py:154 | deleting a pattern whose only occurrence ends the text leaves exactly the text before it |
| `Text.DeleteSpacedUnit` | logliberator.py:163 | a unit starting with a space, such as ` W` or ` MHz`, is deleted from the end of a text without spaces, leaving that text |
| `Text.Slice` | logliberator.py:92-93 | `s[lo:hi]`: the end is clamped to the text, so the length is the smaller of `hi` and the text's length, minus `lo`, when that is positive, and `0` otherwise, and each character is the one at `lo` plus its offset |
| `Text.Lower` | logliberator.py:87 | `lower`: same length, each ASCII capital made small, every other character kept |
| `Text.Upper` | logliberator.py:150 | `upper`: same length, each ASCII small letter made capital, every other character kept |
| `Text.NatOf` | logliberator.py:165 | `int` of a digit string: a number below `10` to the power of the digit count |
| `Text.NatOfPositive` | logliberator.py:165 | `int(p) > 0` exactly when some digit of `p` is not `0` |
| `Pattern.FindDigitsBeforeSpec` | logliberator.py:210-216 | `re.search('([0-9]+)lit')` finds nothing exactly when no digit run is followed by `lit`; otherwise its group is a maximal digit run followed by `lit`, and no such run starts earlier |
| `Pattern.FirstDigitRunSpec` | logliberator.py:239-246 | `re.search('[0-9]+')` finds nothing exactly when there is no digit; otherwise the match is digits, nothing before it is a digit, and it is not followed by a digit |
| `Pattern.SearchDigits` | logliberator.py:210-216 | the search's match is a maximal digit run followed by the literal, and no position before it starts a digit run followed by the literal; absent only when no position at or after the start does |
| `Pattern.FindDigitsBefore` | logliberator.py:210-216 | the group of `re.search('([0-9]+)lit')`, when found, is a digit string |
| `Pattern.FirstDigitRun` | logliberator.py:239-246 | the match of `re.search('[0-9]+')`, when found, is a digit string |
| `Pattern.SearchCoord` | logliberator.py:182-197 | `re.search(r'([0-9]+)\.([0-9]+) ([NS])')`: a match has digit-string degrees and fraction and an allowed hemisphere, its text occurs in the input where it starts, and no earlier position has the shape; absent only when no position has it |
| `Pattern.FindDigitsFirst` | logliberator.py:210-216 | a text that starts with digits followed by `lit` yields exactly those digits |
| `Pattern.FirstDigitRunLeading` | logliberator.py:239-246 | a text that starts with a digit run yields that run |
| `Pattern.SearchCoordHere` | logliberator.py:182 | where the coordinate pattern matches, the search returns that match with its degrees, fraction and hemisphere |
| `Pattern.CoordFirst` | logliberator.py:182-197 | a coordinate written after non-digit text is the match the search finds |
| `Pattern.SkipNonDigits` | logliberator.py:182-197 | a search that starts on non-digits may skip them |
| `Rows.Label` | logliberator.py:360 | stripped, colons deleted, spaces made `_`: a label never holds a colon or a space |
| `Rows.LabelIgnoresPadding` | logliberator.py:360 | surrounding whitespace of the header does not change the label |
| `Rows.LabelOfTwoWords` | logliberator.py:360 | a two-word header with a closing colon labels as the two words joined by `_` |
| `Rows.KindOfTwoWords` | logliberator.py:355-364 | a padded two-word header with a closing colon is dispatched to the handler named by the joined words |
| `Rows.HandlerFor` | logliberator.py:362-364 | the handler found has the label as its name; when none is found, no handler has that name |
| `Rows.HandlerForName` | logliberator.py:362-364 | each handler is reached by its own name |
| `Rows.KindOf` | logliberator.py:355-364 | a row without a header reaches no handler; a handler reached has the header's label as its name; when none is reached, no handler has that name |
| `Extract.DatePart` | logliberator.py:92 | `text[0:10].replace('-', '')`: at most ten characters, none of them a dash |
| `Extract.TimePart` | logliberator.py:93 | `text[11:19].replace(':', '')`: at most eight characters, none of them a colon |
| `Extract.SerialWrites` | logliberator.py:61-67 | the upload date is written exactly when there is a second cell, a `Log Date:` span and a date part that is not blank; it is then `ld[0:10]` without dashes, stripped, at most 10 characters |
| `Extract.SerialDate` | logliberator.py:61-67 | a Log Date that starts `YYYY-MM-DD` stores `YYYYMMDD`, whatever follows |
| `Extract.DatePartShort` | logliberator.py:67 | `ld[0:10]` of a Log Date of at most ten characters is the whole date, so only the dashes are removed |
| `Extract.StampWrites` | logliberator.py:92-96 | only the date and time keys, each written exactly when its part is not blank and then holding that part stripped; the date holds no `-` and is at most 10 characters; the time holds no `:` and is at most 8 |
| `Extract.QsoStartWrites` | logliberator.py:78-96 | nothing when there are fewer than two cells, when the stripped second cell lower-cases to `no`, or when it is shorter than 19 characters; otherwise the date and time of the stripped second cell |
| `Extract.NoIsShort` | logliberator.py:87 | a text that lower-cases to `no` is already shorter than 19 characters |
| `Extract.QsoStartStamp` | logliberator.py:78-96 | a second cell holding `YYYY-MM-DD HH:MM:SS`, padded or not, stores exactly `QSO_DATE = YYYYMMDD` and `TIME_ON = HHMMSS` |
| `Extract.QsoStartExample` | logliberator.py:78-96 | `2023-05-01 14:30:00` stores `20230501` and `143000` |
| `Extract.QsoEndWrites` | logliberator.py:98-106 | nothing with fewer than four cells; otherwise the date and time sliced from the unstripped second cell |
| `Extract.QsoEndStamp` | logliberator.py:98-106 | an unpadded stamp stores exactly `YYYYMMDD` and `HHMMSS` |
| `Extract.TimeOfShortStamp` | logliberator.py:104 | `s[11:19]` of a stamp that stops after the minutes is clamped to the text and gives `HHMM` |
| `Extract.QsoEndShortStamp` | logliberator.py:98-106 | with no length guard, a stamp without seconds stores exactly `YYYYMMDD` and `HHMM` |
| `Extract.StationWrites` | logliberator.py:111-114 | `call` from the first cell and `operator` from the second, each exactly when not blank, holding the cell with each `Ø` made `0`, stripped, so never holding `Ø` |
| `Extract.PairWrites` | logliberator.py:116-134 | the two stripped cells under the two names, each exactly when not blank, and no other key |
| `Extract.QslViaWrites` | logliberator.py:248-250 | only `qsl_via`, set from the first cell exactly when it is not blank |
| `Extract.FrequencyStored` | logliberator.py:137-155 | with four cells: the upper-cased band, the frequency without ` MHz` and the mode, each exactly when not blank, with its stripped value |
| `Extract.FrequencyWrites` | logliberator.py:140 | nothing with fewer than four cells |
| `Extract.FrequencyNames` | logliberator.py:153-155 | only `band`, `freq` and `mode` are written |
| `Extract.FrequencyBandUpper` | logliberator.py:150 | the stored band has no lower-case letter |
| `Extract.FrequencyMHz` | logliberator.py:149-154 | a frequency written `f MHz` with `f` free of whitespace is stored as exactly `f` |
| `Extract.PutPower` | logliberator.py:163-172 | a power is written exactly when the text without ` W`, stripped, is all digits and positive, and then it is that text |
| `Extract.PowerSide` | logliberator.py:162-167 | one side: the power exactly when its text is a positive whole number, holding that text; the report exactly when not blank, stripped; no other key |
| `Extract.PowerStored` | logliberator.py:157-174 | with four cells: the two powers only when positive whole numbers; the two reports whenever not blank, stripped |
| `Extract.PowerOfWatts` | logliberator.py:163 | a whole number followed by ` W` reads as that number once the unit is removed and the text stripped |
| `Extract.PowerWatts` | logliberator.py:157-174 | cells `rx W` and `tx W` with positive whole numbers store exactly `rx` and `tx` as `rx_pwr` and `tx_pwr` |
| `Extract.PowerWrites` | logliberator.py:160 | nothing with fewer than four cells |
| `Extract.PowerNames` | logliberator.py:157-174 | only the two powers and the two reports are written |
| `Extract.SplitComma` | logliberator.py:181 | `split(',', 1)`: the first part has no comma, and the parts joined by a comma give back the text |
| `Extract.SplitCommaAt` | logliberator.py:181 | the split happens at the first comma |
| `Extract.PutCoord` | logliberator.py:182-189 | a coordinate is written exactly when the pattern matches its half of the cell |
| `Extract.DegreeText` | logliberator.py:185 | `%03u` of `int(degrees)`: digits only, with the value of the matched degrees, exactly three long or else without a leading zero, which fixes the text |
| `Extract.CoordValue` | logliberator.py:185 | the hemisphere letter, then the padded degrees (digits), then a space and the minutes; its length is the sum of theirs |
| `Extract.CoordStored` | logliberator.py:182-189 | a stored coordinate is the stripped `hemisphere + %03u degrees + minutes`, starting with a hemisphere letter the pattern allows and then the padded degrees |
| `Extract.DegreePadding` | logliberator.py:185 | degrees written without leading zeros are printed as written, padded to three digits |
| `Extract.PadToThree` | logliberator.py:185 | `%03u` pads one or two digits with zeros and keeps three or more as they are |
| `Extract.DegreeOneDigit` | logliberator.py:185 | degrees `5` are printed as `005` |
| `Extract.DegreeTwoDigits` | logliberator.py:185 | degrees `40` are printed as `040` |
| `Extract.DegreeFourDigits` | logliberator.py:185 | degrees `1234` are printed as `1234` |
| `Extract.DegreeLeadingZeros` | logliberator.py:185 | degrees `0074` are printed as `074` |
| `Extract.SideWrites` | logliberator.py:181-200 | one cell: the latitude key exactly when the text before the first comma matches `N`/`S`, the longitude key exactly when the text after it matches `E`/`W` |
| `Extract.SideOfCell` | logliberator.py:181-200 | a cell `<latitude>, <longitude>` stores both, each as its hemisphere, padded degrees and minutes |
| `Extract.CoordinatesWrites` | logliberator.py:176-200 | `lat` exactly when the first cell's text before its first comma matches the `N`/`S` pattern, `lon` when the text after it matches `E`/`W`; `my_lat` and `my_lon` likewise from the second cell; every value clean |
| `Extract.CoordinatesStored` | logliberator.py:176-200 | the station's latitude and longitude come from the first cell only, the operator's from the second only |
| `Extract.CoordinatesNames` | logliberator.py:176-200 | only `lat`, `lon`, `my_lat` and `my_lon` are written |
| `Extract.Kilometres` | logliberator.py:210 | the group of `([0-9]+) km`: a digit string, absent exactly when no digit run in the cell is followed by ` km` |
| `Extract.Bearing` | logliberator.py:215 | the group of `([0-9]+)°`: a digit string, absent exactly when no digit run in the cell is followed by `°` |
| `Extract.PutDistance` | logliberator.py:210-212 | the distance is written exactly when a `<digits> km` match exists and is positive, and then it is that digit run |
| `Extract.GridStored` | logliberator.py:202-217 | with four cells: both grid squares when not blank, the distance only when a positive `<digits> km` run exists, and the bearing exactly when a `<digits>°` run exists, both stored as their digit runs |
| `Extract.GridLeading` | logliberator.py:202-217 | a row laid out like `FN20, 150 km, FN31, 45°` stores the leading numbers as distance (when not zero) and bearing |
| `Extract.GridWrites` | logliberator.py:205 | nothing with fewer than four cells |
| `Extract.GridNames` | logliberator.py:202-217 | only the two grid squares, the distance and the bearing are written |
| `Extract.ContinentCode` | logliberator.py:226 | `his_cont.strip()[0:2]`: exactly the first two characters of the stripped first cell, or all of it when it is shorter |
| `Extract.ContinentStored` | logliberator.py:219-229 | with four cells: the continent code when not blank and at most two characters long, and both island references when not blank |
| `Extract.ContinentIgnoresThird` | logliberator.py:224-229 | the third cell never changes what `Continent` writes |
| `Extract.ContinentWrites` | logliberator.py:222 | nothing with fewer than four cells |
| `Extract.ContinentNames` | logliberator.py:219-229 | only `cont`, `iota` and `my_iota` are written |
| `Extract.ZonesStored` | logliberator.py:231-246 | with four cells: both ITU zones when not blank; each CQ zone exactly when its cell holds a digit, as the first digit run of that cell |
| `Extract.ZonesCqLeading` | logliberator.py:239-241 | a CQ zone cell that starts with its number stores that number |
| `Extract.ZonesWrites` | logliberator.py:234 | nothing with fewer than four cells |
| `Extract.ZonesNames` | logliberator.py:231-246 | only the four zone fields are written |
| `Extract.ConfirmedWrites` | logliberator.py:252-256 | `Confirmed` writes nothing |
| `Extract.FirstCellWrites` | logliberator.py:258-266 | the comment or note: written exactly when there is a cell and it is not blank, as the stripped first cell |
| `Dispatch.Writes` | logliberator.py:362-364 | every handler's writes are clean, and `Confirmed` writes nothing |
| `Dispatch.WritesNames` | logliberator.py:61-266 | every handler writes only its own fields |
| `Dispatch.RowWrites` | logliberator.py:355-364 | a row without a header, or whose label names no handler, writes nothing; a `Confirmed` row writes nothing |
| `Dispatch.ApplyRows` | logliberator.py:352-364 | handling rows in order never removes a field of the record; no rows leave it as it was |
| `Dispatch.ApplyRowsSnoc` | logliberator.py:353-364 | handling one more row puts its writes over the record so far |
| `Dispatch.ApplyRowsClean` | logliberator.py:353-364 | handling any rows keeps every stored value stripped and non-empty |
| `Dispatch.ApplyRowsUntouched` | logliberator.py:353-364 | a field that no row actually writes, whether no handler names it or a handler skipped it (blank cell, `0 km`, no match), keeps its presence and value |
| `Dispatch.ApplyRowsKeys` | logliberator.py:353-364 | the record ends with only its own fields and the fields the rows' handlers may write |
| `Dispatch.LastWriteWins` | logliberator.py:353-364 | the field's value is the one written by the last row that writes it |
| `Dispatch.QsoStartLabel` | logliberator.py:360-364 | a header that strips to `QSO Start:` reaches `QSO_Start` |
| `Dispatch.QslViaLabel` | logliberator.py:360-364 | a header that strips to `QSL Via:` reaches `QSL_Via` |
| `Handlers.Serial` | logliberator.py:61-68 | the record becomes the old record plus `SerialWrites`; cleanliness kept |
| `Handlers.QsoStart` | logliberator.py:78-96 | the record becomes the old record plus `QsoStartWrites`; cleanliness kept |
| `Handlers.QsoEnd` | logliberator.py:98-106 | the record becomes the old record plus `QsoEndWrites`; cleanliness kept |
| `Handlers.Station` | logliberator.py:111-114 | with exactly two cells, the record becomes the old record plus `StationWrites` |
| `Handlers.Op` | logliberator.py:116-119 | with exactly two cells, the record becomes the old record plus the writes of `name` and `my_name` |
| `Handlers.Qth` | logliberator.py:121-124 | with exactly two cells, the record becomes the old record plus the writes of `qth` and `my_city` |
| `Handlers.State` | logliberator.py:126-129 | with exactly two cells, the record becomes the old record plus the writes of `state` and `my_state` |
| `Handlers.Country` | logliberator.py:131-134 | with exactly two cells, the record becomes the old record plus the writes of `country` and `my_country` |
| `Handlers.Frequency` | logliberator.py:137-155 | the record becomes the old record plus `FrequencyWrites` |
| `Handlers.PowerPart` | logliberator.py:162-167 | one side of `Power`: the record becomes the old record plus that side's power and report |
| `Handlers.Power` | logliberator.py:157-174 | the record becomes the old record plus `PowerWrites` |
| `Handlers.Coordinate` | logliberator.py:182-185 | one coordinate: the record becomes the old record plus `PutCoord` |
| `Handlers.Coordinates` | logliberator.py:176-200 | with two cells that each hold a comma, the record becomes the old record plus `CoordinatesWrites` |
| `Handlers.Grid` | logliberator.py:202-217 | the record becomes the old record plus `GridWrites` |
| `Handlers.Continent` | logliberator.py:219-229 | the record becomes the old record plus `ContinentWrites` |
| `Handlers.Zones` | logliberator.py:231-246 | the record becomes the old record plus `ZonesWrites` |
| `Handlers.QslVia` | logliberator.py:248-250 | with exactly two cells, the record becomes the old record plus `QslViaWrites` |
| `Handlers.Confirmed` | logliberator.py:252-256 | the record is unchanged |
| `Handlers.FirstCell` | logliberator.py:258-266 | `Comments` and `Notes`: the record becomes the old record plus `FirstCellWrites` |
| `Handlers.Invoke` | logliberator.py:364 | running the handler of a kind gives the old record plus that handler's `Writes` |
| `Handlers.FillEntry` | logliberator.py:353-364 | after the loop over the rows, the record is `ApplyRows` of the old record and the rows; cleanliness kept |
| `Handlers.NewEntry` | logliberator.py:352-364 | a fresh record filled from the rows is `ApplyRows` of the empty record, and clean |
| `BookIds.BookDigits` | logliberator.py:307 | `^[0-9]+$` accepts exactly digits alone and digits followed by one final newline, and yields those digits |
| `BookIds.BookDigitsNewline` | logliberator.py:307 | any digit string followed by one newline is accepted and yields exactly those digits |
| `BookIds.IsBookOption` | logliberator.py:307 | a kept option has a value that starts with a digit |
| `BookIds.BookIdsOf` | logliberator.py:307-309 | the numbers of the kept options in document order: never more numbers than tags |
| `BookIds.BookIdsAllKept` | logliberator.py:307-309 | when every tag is kept, the numbers are those of the tags, one for one and in order |
| `BookIds.CollectBookIds` | logliberator.py:307-309 | the loop's list is `BookIdsOf` the tags |
| `BookIds.BookIdsAppend` | logliberator.py:307-309 | the numbers of two stretches of the page are the first stretch's numbers followed by the second's |
| `BookIds.BookIdsMembers` | logliberator.py:307-309 | no more numbers than tags; every number comes from a kept tag; every kept tag gives its number |
| `BookIds.NewlineValueKept` | logliberator.py:307-309 | a value with a newline after its digits is still kept, with the number of those digits |

## Left out

- The HTTP session is not modelled: the login, and the fetches of the book list, the QSO count and each contact page (logliberator.py:276-303, 316-346). This is network I/O. The skips for a missing `lbrecord` or an empty row list (logliberator.py:338-350) depend only on the fetched page.
- BeautifulSoup's document navigation is not modelled. It is replaced by the fields of `Rows.Row`: the header text and the cell texts, plus the first child, the band span and the `Log Date:` text. `Frequency` calls `strip` on its first child even when that child is a tag, not text, and this raises; the model assumes that child is text.
- `ADIF_log` is not part of this model. The code that writes the records to a file and every `print` are left out too (logliberator.py:14, 317, 366-368). The record is a map from field names to values.
- The `%#06.3f` minutes of `Coordinates` are the parameter `minutes`, because they come from a floating-point product (logliberator.py:184-200). The degrees and hemisphere are modelled.
- The `except` branches of `assign_value` and `str_or_intl` are left out (logliberator.py:26-31, 46-49). Storing into a dictionary does not raise, so they never run.
- The model uses only ASCII digits and ASCII whitespace: `strip`, `isdigit`, `lower` and `upper` work on ASCII only. It has no Unicode digits or Unicode spaces.
- The commented-out first `QSO_Start` (logliberator.py:70-77) is dead code.
- `hasattr` is also true for attributes every Python object has, such as `__init__` or `__class__`. A header whose label is one of those would make the loop call that attribute with the row, and this raises or does something unrelated. The model dispatches only to the eighteen handler names.
- `Rows.Admissible` requires every row given to its handler to have the cells that the row's unpacking demands. A row that makes a handler raise stops the script; the model does not follow it there.
- Concrete examples whose every argument is a literal coordinate or grid row are not stated. `Extract.SideOfCell` and `Extract.GridLeading` state those cases over symbolic pieces instead.
