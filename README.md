# hobo-python header interpretation, modelled in Dafny

This project models how `Hobo.from_csv` (hobo.py) makes sense of a data file exported by
HOBO loggers. The file starts with an unknown number of metadata lines and then a
column-definition line. The import does the following:

- It scans lines until one of them names a timestamp column.
- It takes the title from the first line read.
- It takes the serial number from the first line that matches `(?:LGR S/N: |Serial Number:)(\d+)`.
- On every line it reads, it runs column detection. Column detection fills four channel slots
  (temperature, pressure, relative humidity, battery) with a `[name, long_name, units]` triple taken
  from the header field that names the slot. Later matches overwrite earlier ones. Generic
  temperature names take precedence over high-resolution ones.
- After the scan, it builds the metadata table.
- It renames the data columns to the slots' display names, keeps only those columns, and adds one
  zero-filled `<name>_QC` column per kept column.

The modules follow the structure of the program:

- `Wrappers` holds `Option`, `Result` and one error per place where the modelled code raises.
- `Strings` models the Python `str` operations used: `split`, `rsplit`, `strip`, `in`.
- `Fields` models the three field extractors `find_units`, `find_name` and `find_long_name`. It also
  models the way the logger software writes a field, so that the extractors can be proved to give
  back what was written.
- `Serial` models the serial-number pattern as a leftmost search.
- `Columns` gives the column mapper as functions: the timestamp search, and the overwrite loops as
  folds.
- `Scan` gives the header scan as functions of the lines read so far.
- `Relabel` covers the rename loop, the filter and the QC-column loop.
- `Hobo` holds the importer class. Its methods update `cursor`, `title`, `sn`, `timestamp`, `headers`
  and the channel table `name` in place, and each is proved against the functions above. The module
  also holds `Import`, the whole import as one function, which `Hobo.Hobo.FromCsv` is proved to
  compute.

Some things are inputs of the model rather than parts of it:

- The file is given as its sequence of lines, already decoded.
- The CSV reader that splits a line into fields is a parameter, `split: string -> seq<string>`.
- Each exception raised by the modelled code (the header scan, the field extractors, the metadata
  checks and the label handling) is an `Error` value. The model does not use preconditions for these
  cases. Exceptions from opening the file, reading the data rows and parsing datetimes
  (hobo.py:44, 152-163) are outside the model; see "## Left out".

Behaviour of hobo.py that is easy to miss, and that the model keeps:

- The second serial-number keyword is `Serial Number:` with no space after the colon (hobo.py:9).
- A segment counts as a relabelling tag when its trimmed text before the first colon is `LBL`
  (hobo.py:63). It does not have to start with `LBL:`.
- A missing serial number, or a first line without a colon, raises (hobo.py:145-146). Neither
  degrades gracefully.
- A raw column that contains `Temp`, `Pres`, `Batt` or `RH` is renamed even when that slot is empty
  (hobo.py:166-174). Its label then becomes `None`, and the filter, which also asks for `None`, keeps
  it together with a `None_QC` column.

## Model

| member | source | states |
|---|---|---|
| Strings.Split | hobo.py:132 | `str.split` on a character: the first piece is the text before the first separator, a second piece exists exactly when the separator occurs, no piece contains it, and joining the pieces gives the string back |
| Strings.After | hobo.py:57 | `split(c, 1)[1]`: absent exactly when `c` does not occur, otherwise the string is the text before the first `c`, then `c`, then the result |
| Strings.AfterLast | hobo.py:62 | `rsplit(c, 1)[1]`: absent exactly when `c` does not occur, otherwise the result has no `c` and ends the string right after a `c` |
| Strings.StripChars | hobo.py:62 | `strip(cs)`: the result has neither end in `cs` and is no longer than the input |
| Strings.Strip | hobo.py:57 | `strip()`: the result has no whitespace at either end and is no longer than the input |
| Strings.Before | hobo.py:66 | `split(c, 1)[0]`: a prefix of the string without `c`, which is the whole string or is followed by `c` |
| Strings.Contains | hobo.py:75 | `sub in s`: a contained string is no longer than the string, and every prefix is contained |
| Fields.FindLongName | hobo.py:69-71 | `find_long_name` is total; its result has no comma and no surrounding whitespace; for a field without a comma it is the whole stripped field |
| Fields.FindUnits | hobo.py:56-59 | `find_units` fails with `MissingComma` exactly when the field has no comma; otherwise the unit has no comma, no space and no surrounding whitespace |
| Fields.LastSegment | hobo.py:62 | `rsplit(",", 1)[1].strip(" )")`: absent exactly when the field has no comma; otherwise without a comma and with no space or `)` at either end |
| Fields.HasLabelTag | hobo.py:62-63 | only a field with a comma can carry the `LBL` tag |
| Fields.LabelOf | hobo.py:64 | the label of a tagged segment: an IndexError exactly when the segment has no colon; otherwise a stripped text without a colon |
| Fields.FindName | hobo.py:61-67 | `find_name` fails exactly when the field has no comma, or when its last segment is tagged `LBL` but has no colon; an untagged field gives its long name |
| Fields.Describe | hobo.py:81-82 | the triple succeeds exactly when `find_name` and `find_units` do, holds their three results, raises only field errors, and raises `MissingComma` for a field without a comma |
| Fields.LongNameOfVendorField | hobo.py:69-71 | for any field the logger software writes, whatever its logger and sensor serial numbers, the long name is the channel's long name |
| Fields.UnitsOfVendorField | hobo.py:56-59 | for any field the logger software writes, whatever its logger and sensor serial numbers, the unit is the token after the first comma: the channel's unit |
| Fields.LastSegmentOfUntaggedField | hobo.py:62 | the last segment of an untagged written field, stripped of spaces and `)`, is `SEN S/N: <sensor serial>`, whatever the logger serial |
| Fields.LastSegmentOfTaggedField | hobo.py:62 | the last segment of a tagged written field, stripped of spaces and `)`, is `LBL: <label>` |
| Fields.NameOfUnlabelledVendorField | hobo.py:63-66 | a written field without the tag is named by its long name |
| Fields.NameOfLabelledVendorField | hobo.py:63-64 | a written field with the tag is named by the user's label |
| Fields.DescribeVendorField | hobo.py:56-71 | round trip: describing a written field gives back the label (or the long name), the long name and the unit it was written from |
| Fields.ExampleUntaggedField | hobo.py:56-71 | `Temp, °C (LGR S/N: 20563204, SEN S/N: 20563204)` gives name `Temp`, long name `Temp` and unit `°C` |
| Fields.ExampleTaggedField | hobo.py:56-71 | `Temp, °C (LGR S/N: 1, SEN S/N: 1, LBL: WaterTemp)` gives name `WaterTemp` while the long name stays `Temp` |
| Serial.DigitRun | hobo.py:9 | the greedy `\d+`: an all-digit run that occurs at the position and is not followed by another digit |
| Serial.SerialAt | hobo.py:9 | the pattern matched at one position: a match is a keyword followed by a maximal nonempty digit run, and there is no match exactly when neither keyword is followed by a digit there |
| Serial.SearchFrom | hobo.py:134 | the search reports a position where the pattern matches and no match before it, or none when no position matches |
| Serial.FindSerial | hobo.py:134-135 | the captured group, when there is one, is a nonempty run of digits |
| Serial.FindSerialNone | hobo.py:134-135 | the search finds nothing exactly when the pattern matches at no position |
| Serial.FindSerialIsLeftmost | hobo.py:134-135 | the captured digits are those of the leftmost match |
| Serial.SerialIsStripped | hobo.py:146 | `sn.strip()` leaves a captured serial number unchanged |
| Columns.FindColTimestamp | hobo.py:73-76 | the timestamp index, when there is one, is that of a field containing `Date Time` or `Fecha Tiempo` |
| Columns.FindColTimestampIsFirst | hobo.py:73-76 | `find_col_timestamp` gives the first field containing `Date Time` or `Fecha Tiempo`, and none exactly when no field does |
| Columns.Pass | hobo.py:96-99 | one overwrite loop raises only the errors describing a field can raise |
| Columns.PassFailsIff | hobo.py:96-99 | a loop raises exactly when some matching field cannot be described |
| Columns.PassRaisesFirst | hobo.py:96-99 | the error raised is the one of the first matching field that cannot be described |
| Columns.LastMatchWins | hobo.py:95-116 | a loop that does not raise leaves the slot holding the triple of the last matching field, or its earlier value when no field matches |
| Columns.LastMatch | hobo.py:95-116 | the index of the last field containing a keyword, none exactly when no field contains one |
| Columns.TempPasses | hobo.py:78-93 | the two temperature loops raise only field errors |
| Columns.TemperaturePrecedence | hobo.py:78-93 | the temperature slot holds the last generic temperature field; failing that, the last high-resolution field; failing both, its earlier value |
| Columns.HighResDottedIsGeneric | hobo.py:80-88 | a `High Res. Temp.` field also contains `Temp.`, so the generic loop matches it again |
| Columns.MapColumns | hobo.py:122-126 | column detection on one line raises only field errors |
| Columns.MapColumnsSlots | hobo.py:95-126 | after column detection, each of the pressure, humidity and battery slots holds its last matching field's triple or keeps its value, and the temperature slot is that of the two temperature loops |
| Scan.Title | hobo.py:132 | the title's first piece is the stripped line up to its first colon, and a second piece exists exactly when the stripped line has a colon |
| Scan.TitleAfter | hobo.py:131-132 | the title is unset only while nothing is read; once set it never changes, and otherwise it comes from the first line read |
| Scan.SerialAfter | hobo.py:133-135 | the serial number is unset exactly while none is set and no line read carries one; once set it never changes, and otherwise it comes from a line read |
| Scan.FirstSerial | hobo.py:133-135 | the serial number captured from the lines read is a nonempty digit run |
| Scan.FirstSerialIsFirst | hobo.py:133-135 | the serial number is the one of the first line that carries one |
| Scan.FirstSerialStays | hobo.py:133-135 | once captured, reading more lines never changes the serial number |
| Scan.StopLine | hobo.py:129-137 | the scan ends at the first line whose fields yield a timestamp, and no earlier line yields one |
| Scan.FoldChannels | hobo.py:136 | running column detection on every line read raises only field errors |
| Scan.FoldChannelsFailurePersists | hobo.py:136 | once column detection raises on some line, reading more lines does not change the error |
| Scan.UnmentionedSlotKept | hobo.py:53-54 | a slot that no line read mentions keeps its value from before the scan |
| Scan.Consumed | hobo.py:129-137 | the scan never consumes more lines than the file has |
| Scan.ReadOneMore | hobo.py:130-136 | reading one more line sets the title only if it is unset, sets the serial number only if it is unset, and runs column detection once more |
| Scan.ScanEnd | hobo.py:128-137 | a successful scan consumes the lines up to and including the column-definition line and no further, with column detection succeeding on all of them; a failed scan raises a field error or runs out of lines |
| Scan.ScanEndAt | hobo.py:129-137 | a scan that reaches the first line yielding a timestamp, without an error, stops right after it |
| Scan.ScanEndExhausted | hobo.py:130 | a file in which no line yields a timestamp ends the scan with `StopIteration` |
| Scan.ScanEndRaises | hobo.py:136 | a scan that raises on a line before the column-definition line ends with that error |
| Scan.ScanTurnEnds | hobo.py:129-136 | after one more line, the scan ends with the error column detection raised, or with that line if it yields a timestamp, or goes on with no line read yielding one |
| Scan.ScanHeaders | hobo.py:128-137 | the header scan of a fresh file returns the fields of the first line that yields a timestamp, with that timestamp, and the title of the first line; with no such line it fails |
| Scan.ScanHeadersRead | hobo.py:128-137 | a scan that stops after `n` lines has read a title and a timestamp, and yields the header those `n` lines give |
| Scan.ScanHeadersAt | hobo.py:128-137 | a scan that stops after `n` lines yields the header formed from those `n` lines |
| Relabel.RenameRuleIsFirstKey | hobo.py:166-174 | a column is renamed after the first of `Temp`, `Pres`, `Batt`, `RH` it contains, and after none when it contains none |
| Relabel.RenameRule | hobo.py:167-174 | a column is renamed after the temperature slot exactly when it contains `Temp`, whatever else it contains |
| Relabel.Rename | hobo.py:168 | `df.rename` relabels every column carrying the old label, and no other column |
| Relabel.RenameLoop | hobo.py:166-174 | the rename loop relabels columns and never adds or removes one |
| Relabel.RenameLoopPointwise | hobo.py:166-174 | with distinct headers and no renaming that feeds into another, every column ends up with the display name its own header selects, or keeps its header |
| Relabel.RenameColumns | hobo.py:166-174 | the rename loop's labels are those of the loop specification |
| Relabel.Present | hobo.py:177-178 | `filter(items=…)`: the result is exactly the wanted labels that are present, without repeats |
| Relabel.KeptColumns | hobo.py:177-178 | the filter keeps exactly the labels that are a slot's display name, each once |
| Relabel.WantedNames | hobo.py:177-178 | the filter's items are exactly the display names of the four slots |
| Relabel.EmptySlotColumnKept | hobo.py:166-178 | a column whose header selects an empty slot is renamed to `None`, and the filter keeps it |
| Relabel.QcName | hobo.py:182 | `"{}_QC".format(key)`: the name ends in `_QC` after the label, or after `None` for a missing label |
| Relabel.QcNameInjective | hobo.py:182 | two labels share a QC name only when they are equal, or when one is missing and the other is `None` |
| Relabel.SetFlags | hobo.py:182 | assigning a QC column adds it, keeps every column with another label, adds nothing else, and adds at most one column |
| Relabel.SetFlagsAppends | hobo.py:182 | a QC column whose name is new is appended at the end |
| Relabel.QcLoopAppends | hobo.py:181-182 | when no names clash, the frame is the kept columns followed by one `<name>_QC` column each, in the same order |
| Relabel.QcLoop | hobo.py:181-182 | the QC loop adds at most one column per key and removes none |
| Relabel.AddQcColumns | hobo.py:181-182 | the QC loop's columns are those of the loop specification |
| Relabel.QcLoopFacts | hobo.py:181-182 | the QC loop gives every key its QC column and adds no data column |
| Relabel.EveryDataColumnFlagged | hobo.py:181-182 | every data column left after the QC loop has its `_QC` column |
| Hobo.Metadata | hobo.py:144-146 | the metadata maps the title's first piece to its stripped second piece and `S/N` to the stripped serial number; a title without a second piece, and then a missing serial number, raise |
| Hobo.RemoveAt | hobo.py:152-154 | the data columns are the header fields without the timestamp field, in order |
| Hobo.Assemble | hobo.py:143-182 | a metadata error is the result; otherwise duplicate header names raise `DuplicateNames` and nothing else does; a built frame carries the metadata table of the title and serial number |
| Hobo.AssembleFlagsEveryColumn | hobo.py:166-182 | every kept data column of a built frame has a QC column named after it |
| Hobo.BuildFrame | hobo.py:143-182 | building the metadata and the relabelled frame from a scanned header computes `Assemble` |
| Hobo.Import | hobo.py:140-182 | a failing header scan fails the import with its error, and every data column of an imported frame has its QC column |
| Hobo.Hobo.constructor | hobo.py:44-54 | a fresh importer has read nothing and has an empty title, serial number, timestamp and channel table |
| Hobo.Hobo.OverwritePass | hobo.py:96-99 | the loop's slot ends as the fold of the fields specifies, or the loop raises that fold's error; no other slot changes |
| Hobo.Hobo.FindColTemperature | hobo.py:78-93 | both temperature loops, in order, as `TempPasses` specifies; the other slots stay |
| Hobo.Hobo.FindColPressure | hobo.py:95-99 | the pressure loop, as `Pass` specifies; the other slots stay |
| Hobo.Hobo.FindColRh | hobo.py:104-109 | the humidity loop, as `Pass` specifies; the other slots stay |
| Hobo.Hobo.FindColBattery | hobo.py:111-116 | the battery loop, as `Pass` specifies; the other slots stay |
| Hobo.Hobo.FindColumns | hobo.py:118-126 | records the fields and their timestamp index, then updates the table as `MapColumns` specifies, or raises its error |
| Hobo.Hobo.ReadLine | hobo.py:130-136 | consumes exactly one line, sets the title and the serial number only when they are unset, and runs column detection on the line's fields |
| Hobo.Hobo.ScanStep | hobo.py:129-136 | one loop turn keeps the state equal to the scan of the lines consumed so far |
| Hobo.Hobo.ScanTurn | hobo.py:129-137 | one loop turn: consumes one line, keeps the state equal to the scan of the lines consumed, and stops exactly when column detection raises or the line yields a timestamp, ending as `ScanEnd` specifies |
| Hobo.Hobo.FindHeaders | hobo.py:128-137 | the loop ends as `ScanEnd` specifies; on success it has consumed exactly the lines up to the column-definition line, returns that line, and holds its fields, its timestamp, the title of the first line and the first serial number; running out of lines leaves every line consumed; a field error leaves consumed exactly the lines up to the first one on which column detection raises |
| Hobo.Hobo.ScanFile | hobo.py:128-140 | the header scan of a fresh file fails as `ScanHeaders` fails, and otherwise leaves the state that `ScanHeaders` describes; running out of lines leaves every line consumed, and a field error leaves consumed exactly the lines up to the first one on which column detection raises |
| Hobo.Hobo.FromCsv | hobo.py:44-182 | the import computes `Import` and leaves the reading state at the header the scan found; when the scan fails, the lines consumed are all of them, or those up to the line on which column detection raised |

## Left out

- Opening the file and decoding UTF-8 with a byte-order mark (hobo.py:44) are I/O. The model takes the
  decoded lines.
- The CSV reader's quote handling (hobo.py:120) is a library call. It is the `split` parameter.
- Reading the data rows, replacing NaN and parsing datetimes (hobo.py:152-163) happen inside the
  table library. Only the column labels are modelled. The data values and the time index are not.
  Nor are the exceptions these steps can raise, such as a malformed data row or a timestamp that
  does not parse.
- The `WaterFrame` object, its `meaning` annotations (hobo.py:143, 185-191) and the QC test calls
  (hobo.py:194-206) belong to a foreign library and are not modelled. The `qc_tests` flag is left out
  with them.
- The `print` calls (hobo.py:207-208) are output only.
- `\d` in the serial-number pattern is restricted to the ASCII digits `0`-`9`. Python also accepts
  other Unicode decimal digits.
- Column contents, including the zeros of the QC columns, are not modelled. Only labels are.
- Hobo.Hobo.FindHeaders: requires the state of a freshly started import. This is the only state
  `from_csv` calls it in.
- Hobo.Hobo.ScanFile: requires the state of a freshly started import, as `FindHeaders` does.
- Hobo.Hobo.OverwritePass: its callers pass it the describer. On an error it does not state which
  value the slot holds. The exception propagates out of the import anyway.
- Hobo.Hobo.FindColumns: on an error it does not state the partially updated table.
- Hobo.Hobo.ReadLine: on an error it does not state the partially updated table.
- Relabel.RenameLoopPointwise: is proved only for distinct headers and renamings that do not feed into
  one another. Otherwise the rename loop is specified by `RenameLoop` alone.
- Relabel.Present: follows one generation of the table library, the one whose `filter(items=…)` drops
  repeated items and whose `reindex` refuses duplicate labels (the `DuplicateColumns` error), and in
  which `read_csv` refuses duplicate `names` (the `DuplicateNames` error). Older versions keep repeated
  items and only warn on duplicate names. The same versions refuse the `inplace=` keyword that
  hobo.py:160 passes to `DatetimeIndex`; the model assumes that line succeeds.
- Relabel.QcLoopAppends: is proved only when no kept label is another's QC name and no two QC names
  coincide. Otherwise the loop is specified by `QcLoop` and `QcLoopFacts` alone.
