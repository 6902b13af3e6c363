/**
 * The importer object: it holds the lines of an exported logger file and, while importing, the title,
 * serial number, timestamp index, header fields and channel table it updates as it reads. The import
 * result is the metadata table and the labels of the resulting frame.
 */
module Hobo {
  import opened Wrappers
  import opened Strings
  import opened Fields
  import opened Serial
  import opened Columns
  import opened Scan
  import opened Relabel

  /** The imported frame, as far as it is modelled: the metadata table and the column labels. */
  datatype Frame = Frame(metadata: map<string, string>, columns: seq<Column>)

  /** The key the serial number is stored under in the metadata. */
  const SerialTag := "S/N"

  /**
   * The metadata table: the title's first piece maps to its stripped second piece, and `S/N` to the
   * stripped serial number. A title without a second piece, then a missing serial number, raise.
   */
  function Metadata(title: seq<string>, sn: Option<string>): (r: Result<map<string, string>, Error>)
    ensures |title| < 2 ==> r == Failure(MissingTitleValue)
    ensures |title| >= 2 && sn.None? ==> r == Failure(MissingSerialNumber)
    ensures r.Success? <==> |title| >= 2 && sn.Some?
    ensures r.Success? ==> r.value.Keys == {title[0], SerialTag} && r.value[SerialTag] == Strip(sn.value)
    ensures r.Success? && title[0] != SerialTag ==> r.value[title[0]] == Strip(title[1])
  {
    if |title| < 2 then Failure(MissingTitleValue)
    else if sn.None? then Failure(MissingSerialNumber)
    else Success(map[title[0] := Strip(title[1])][SerialTag := Strip(sn.value)])
  }

  /** `s` without its `i`-th element: the fields left once the timestamp field becomes the index. */
  function RemoveAt<T>(s: seq<T>, i: nat): (r: seq<T>)
    requires i < |s|
    ensures |r| == |s| - 1
    ensures forall k :: 0 <= k < i ==> r[k] == s[k]
    ensures forall k :: i <= k < |r| ==> r[k] == s[k + 1]
  {
    s[..i] + s[i + 1..]
  }

  /** What the import builds once the header scan has succeeded. */
  function Assemble(h: Header): (r: Result<Frame, Error>)
    requires h.timestamp < |h.fields|
    ensures Metadata(h.title, h.sn).Failure? ==> r == Failure(Metadata(h.title, h.sn).error)
    ensures r == Failure(DuplicateNames) <==> Metadata(h.title, h.sn).Success? && !NoDuplicates(h.fields)
    ensures r.Success? ==> Metadata(h.title, h.sn) == Success(r.value.metadata) && NoDuplicates(h.fields)
  {
    match Metadata(h.title, h.sn)
    case Failure(e) => Failure(e)
    case Success(md) =>
      if !NoDuplicates(h.fields) then Failure(DuplicateNames)
      else
        var data := RemoveAt(h.fields, h.timestamp);
        var labels := RenameLoop(data, h.name, Initial(data));
        if !NoDuplicates(labels) then Failure(DuplicateColumns)
        else
          var kept := KeptColumns(labels, h.name);
          Success(Frame(md, QcLoop(DataColumns(kept), kept)))
  }

  /** Every kept data column of an assembled frame has a quality-control column named after it. */
  lemma AssembleFlagsEveryColumn(h: Header)
    requires h.timestamp < |h.fields| && Assemble(h).Success?
    ensures forall k :: Data(k) in Assemble(h).value.columns ==> Flags(Some(QcName(k))) in Assemble(h).value.columns
  {
    var data := RemoveAt(h.fields, h.timestamp);
    EveryDataColumnFlagged(KeptColumns(RenameLoop(data, h.name, Initial(data)), h.name));
  }

  /**
   * The tail of the import, once the header scan has succeeded: the metadata, then the frame whose
   * columns are renamed, filtered and given their quality-control columns.
   */
  method BuildFrame(h: Header) returns (res: Result<Frame, Error>)
    requires h.timestamp < |h.fields|
    ensures res == Assemble(h)
  {
    var md := Metadata(h.title, h.sn);
    if md.Failure? {
      return Failure(md.error);
    }
    if !NoDuplicates(h.fields) {
      return Failure(DuplicateNames);
    }
    var data := RemoveAt(h.fields, h.timestamp);
    var labels := RenameColumns(data, h.name);
    if !NoDuplicates(labels) {
      return Failure(DuplicateColumns);
    }
    var kept := KeptColumns(labels, h.name);
    var cols := AddQcColumns(kept);
    res := Success(Frame(md.value, cols));
  }

  /** The whole import of a file, as a function of its lines and of how a line is split into fields. */
  function Import(split: Splitter, lines: seq<string>): (r: Result<Frame, Error>)
    ensures ScanHeaders(split, lines).Failure? ==> r == Failure(ScanHeaders(split, lines).error)
    ensures r.Success? ==> forall k :: Data(k) in r.value.columns ==> Flags(Some(QcName(k))) in r.value.columns
  {
    match ScanHeaders(split, lines)
    case Failure(e) => Failure(e)
    case Success(h) =>
      var r := Assemble(h);
      if r.Success? then AssembleFlagsEveryColumn(h); r else r
  }

  class Hobo {
    /** The file being imported, one entry per line. */
    const lines: seq<string>
    /** How many lines have been consumed. */
    var cursor: nat
    var title: Option<seq<string>>
    var sn: Option<string>
    /** Index of the timestamp field among `headers`, once a line has yielded one. */
    var timestamp: Option<nat>
    /** The fields of the last line read. */
    var headers: seq<string>
    var name: Channels

    /** An importer for the file with these lines; nothing is read yet. */
    constructor(lines: seq<string>)
      ensures this.lines == lines && cursor == 0
      ensures title.None? && sn.None? && timestamp.None? && headers == [] && name == NoChannels
    {
      this.lines := lines;
      cursor := 0;
      title := None;
      sn := None;
      timestamp := None;
      headers := [];
      name := NoChannels;
    }

    /**
     * One overwrite loop: every field containing one of `keys` stores its descriptor, as `describe`
     * gives it, in `slot`. A field that cannot be described raises, leaving the slot as the loop had
     * left it before that field. The four column loops run it with `Describe`.
     */
    method OverwritePass(slot: Slot, keys: seq<string>, fields: seq<string>, describe: Describer) returns (err: Option<Error>)
      modifies this`name
      ensures name == old(name).With(slot, name.Get(slot))
      ensures err.None? ==> Fold(describe, fields, keys, old(name.Get(slot))) == Success(name.Get(slot))
      ensures err.Some? ==> Fold(describe, fields, keys, old(name.Get(slot))) == Failure(err.value)
    {
      ghost var prev := name.Get(slot);
      var i := 0;
      while i < |fields|
        invariant 0 <= i <= |fields|
        invariant Fold(describe, fields[..i], keys, prev) == Success(name.Get(slot))
        invariant name == old(name).With(slot, name.Get(slot))
      {
        FoldStep(describe, fields, keys, prev, i);
        if MatchesAny(fields[i], keys) {
          var d := describe(fields[i]);
          if d.Failure? {
            FoldFailurePersists(describe, fields, keys, prev, i + 1);
            return Some(d.error);
          }
          WithWith(old(name), slot, name.Get(slot), Some(d.value));
          name := name.With(slot, Some(d.value));
        }
        i := i + 1;
      }
      assert fields[..i] == fields;
      return None;
    }

    /** The temperature loops: high-resolution names first, then the generic names, which override them. */
    method FindColTemperature(fields: seq<string>) returns (err: Option<Error>)
      modifies this`name
      ensures name.pres == old(name.pres) && name.rh == old(name.rh) && name.batt == old(name.batt)
      ensures err.None? ==> TempPasses(fields, old(name.temp)) == Success(name.temp)
      ensures err.Some? ==> TempPasses(fields, old(name.temp)) == Failure(err.value)
    {
      err := OverwritePass(Temp, HighResTempKeys, fields, Describe);
      if err.None? {
        err := OverwritePass(Temp, TempKeys, fields, Describe);
      }
    }

    /** The pressure loop. */
    method FindColPressure(fields: seq<string>) returns (err: Option<Error>)
      modifies this`name
      ensures name.temp == old(name.temp) && name.rh == old(name.rh) && name.batt == old(name.batt)
      ensures err.None? ==> Pass(fields, PresKeys, old(name.pres)) == Success(name.pres)
      ensures err.Some? ==> Pass(fields, PresKeys, old(name.pres)) == Failure(err.value)
    {
      err := OverwritePass(Pres, PresKeys, fields, Describe);
    }

    /** The relative-humidity loop. */
    method FindColRh(fields: seq<string>) returns (err: Option<Error>)
      modifies this`name
      ensures name.temp == old(name.temp) && name.pres == old(name.pres) && name.batt == old(name.batt)
      ensures err.None? ==> Pass(fields, RhKeys, old(name.rh)) == Success(name.rh)
      ensures err.Some? ==> Pass(fields, RhKeys, old(name.rh)) == Failure(err.value)
    {
      err := OverwritePass(Rh, RhKeys, fields, Describe);
    }

    /** The battery loop. */
    method FindColBattery(fields: seq<string>) returns (err: Option<Error>)
      modifies this`name
      ensures name.temp == old(name.temp) && name.pres == old(name.pres) && name.rh == old(name.rh)
      ensures err.None? ==> Pass(fields, BattKeys, old(name.batt)) == Success(name.batt)
      ensures err.Some? ==> Pass(fields, BattKeys, old(name.batt)) == Failure(err.value)
    {
      err := OverwritePass(Batt, BattKeys, fields, Describe);
    }

    /** Column detection on the fields of one line: record them, find the timestamp, run the four passes. */
    method FindColumns(fields: seq<string>) returns (err: Option<Error>)
      modifies this`headers, this`timestamp, this`name
      ensures headers == fields && timestamp == FindColTimestamp(fields)
      ensures err.None? ==> MapColumns(fields, old(name)) == Success(name)
      ensures err.Some? ==> MapColumns(fields, old(name)) == Failure(err.value)
    {
      headers := fields;
      timestamp := FindColTimestamp(fields);
      err := FindColTemperature(fields);
      if err.Some? { return; }
      err := FindColPressure(fields);
      if err.Some? { return; }
      err := FindColRh(fields);
      if err.Some? { return; }
      err := FindColBattery(fields);
    }

    /**
     * One turn of the header scan: take the next line, set the title from it if there is none yet, set
     * the serial number from it if there is none yet, and run column detection on its fields.
     */
    method ReadLine(split: Splitter) returns (line: string, err: Option<Error>)
      requires cursor < |lines|
      modifies this`cursor, this`title, this`sn, this`headers, this`timestamp, this`name
      ensures cursor == old(cursor) + 1 && line == lines[old(cursor)]
      ensures title == if old(title).None? then Some(Title(line)) else old(title)
      ensures sn == if old(sn).None? then FindSerial(line) else old(sn)
      ensures headers == split(line) && timestamp == FindColTimestamp(headers)
      ensures err.None? ==> MapColumns(headers, old(name)) == Success(name)
      ensures err.Some? ==> MapColumns(headers, old(name)) == Failure(err.value)
    {
      line := lines[cursor];
      cursor := cursor + 1;
      if title.None? {
        title := Some(Title(line));
      }
      if sn.None? {
        sn := FindSerial(line);
      }
      err := FindColumns(split(line));
    }

    /**
     * One turn of the header scan seen against the whole scan: if the state agrees with a scan of the
     * lines consumed so far, it agrees with a scan of one more line afterwards.
     */
    method ScanStep(split: Splitter, ghost title0: Option<seq<string>>, ghost sn0: Option<string>, ghost ch: Channels)
      returns (line: string, err: Option<Error>)
      requires cursor < |lines|
      requires title == TitleAfter(title0, lines[..cursor]) && sn == SerialAfter(sn0, lines[..cursor])
      requires FoldChannels(split, lines[..cursor], ch) == Success(name)
      modifies this`cursor, this`title, this`sn, this`headers, this`timestamp, this`name
      ensures cursor == old(cursor) + 1 && line == lines[cursor - 1]
      ensures title == TitleAfter(title0, lines[..cursor]) && sn == SerialAfter(sn0, lines[..cursor])
      ensures headers == split(line) && timestamp == FindColTimestamp(headers)
      ensures err.None? ==> FoldChannels(split, lines[..cursor], ch) == Success(name)
      ensures err.Some? ==> FoldChannels(split, lines[..cursor], ch) == Failure(err.value)
    {
      ReadOneMore(split, title0, sn0, ch, lines, cursor);
      line, err := ReadLine(split);
    }

    /**
     * The header scan: read lines until one yields a timestamp column. The title comes from the first
     * line read, the serial number from the first line carrying one, and column detection runs on every
     * line read. Returns the column-definition line; no line after it is consumed.
     */
    method FindHeaders(split: Splitter) returns (res: Result<string, Error>)
      requires cursor == 0 && title.None? && sn.None? && timestamp.None? && name == NoChannels
      modifies this`cursor, this`title, this`sn, this`headers, this`timestamp, this`name
      ensures cursor <= |lines|
      ensures title == TitleAfter(None, lines[..cursor]) && sn == SerialAfter(None, lines[..cursor])
      ensures res.Failure? ==> ScanEnd(split, lines, NoChannels) == Failure(res.error)
      ensures res.Success? ==> ScanEnd(split, lines, NoChannels) == Success(cursor)
      ensures res.Success? ==> 0 < cursor && res.value == lines[cursor - 1] && headers == split(lines[cursor - 1])
      ensures res.Success? ==> timestamp == FindColTimestamp(headers)
      ensures res.Success? ==> FoldChannels(split, lines[..cursor], NoChannels) == Success(name)
      ensures res == Failure(StreamExhausted) ==> cursor == |lines|
      ensures res.Failure? && IsFieldError(res.error) ==>
        && 0 < cursor
        && FoldChannels(split, lines[..cursor], NoChannels) == Failure(res.error)
        && FoldChannels(split, lines[..cursor - 1], NoChannels).Success?
    {
      while true
        invariant cursor <= |lines|
        invariant title == TitleAfter(None, lines[..cursor]) && sn == SerialAfter(None, lines[..cursor])
        invariant FoldChannels(split, lines[..cursor], NoChannels) == Success(name)
        invariant forall j :: 0 <= j < cursor ==> !EndsScan(split, lines[j])
        decreases |lines| - cursor
      {
        if cursor == |lines| {
          assert lines[..cursor] == lines;
          ScanEndExhausted(split, lines, NoChannels);
          return Failure(StreamExhausted);
        }
        ghost var prefix := lines[..cursor];
        assert FoldChannels(split, prefix, NoChannels).Success?;
        var done, line, err := ScanTurn(split);
        if err.Some? {
          assert lines[..cursor - 1] == prefix;
          return Failure(err.value);
        }
        if done {
          return Success(line);
        }
      }
    }

    /**
     * One turn of the header scan loop, seen against the whole scan: read one more line; the scan is
     * done when column detection raises on it or it yields a timestamp, and ends there as `ScanEnd`
     * says; otherwise no line read so far yields a timestamp.
     */
    method ScanTurn(split: Splitter) returns (done: bool, line: string, err: Option<Error>)
      requires cursor < |lines|
      requires title == TitleAfter(None, lines[..cursor]) && sn == SerialAfter(None, lines[..cursor])
      requires FoldChannels(split, lines[..cursor], NoChannels) == Success(name)
      requires forall j :: 0 <= j < cursor ==> !EndsScan(split, lines[j])
      modifies this`cursor, this`title, this`sn, this`headers, this`timestamp, this`name
      ensures cursor == old(cursor) + 1 && line == lines[old(cursor)]
      ensures title == TitleAfter(None, lines[..cursor]) && sn == SerialAfter(None, lines[..cursor])
      ensures headers == split(line) && timestamp == FindColTimestamp(headers)
      ensures err.None? ==> FoldChannels(split, lines[..cursor], NoChannels) == Success(name)
      ensures err.Some? ==> FoldChannels(split, lines[..cursor], NoChannels) == Failure(err.value)
      ensures done <==> err.Some? || timestamp.Some?
      ensures err.Some? ==> ScanEnd(split, lines, NoChannels) == Failure(err.value)
      ensures done && err.None? ==> ScanEnd(split, lines, NoChannels) == Success(cursor)
      ensures !done ==> forall j :: 0 <= j < cursor ==> !EndsScan(split, lines[j])
    {
      line, err := ScanStep(split, None, None, NoChannels);
      ScanTurnEnds(split, lines, cursor, err);
      done := err.Some? || timestamp.Some?;
    }

    /**
     * The header scan of a freshly opened file, seen against the scan of the whole file: it fails as
     * that scan fails, and otherwise leaves the state the header describes.
     */
    method ScanFile(split: Splitter) returns (res: Result<string, Error>)
      requires cursor == 0 && title.None? && sn.None? && timestamp.None? && name == NoChannels
      modifies this`cursor, this`title, this`sn, this`headers, this`timestamp, this`name
      ensures cursor <= |lines|
      ensures res.Failure? ==> ScanHeaders(split, lines) == Failure(res.error)
      ensures res.Success? ==> title.Some? && timestamp.Some?
      ensures res.Success? ==>
        ScanHeaders(split, lines) == Success(Header(cursor, title.value, sn, headers, timestamp.value, name))
      ensures res == Failure(StreamExhausted) ==> cursor == |lines|
      ensures res.Failure? && IsFieldError(res.error) ==>
        && 0 < cursor
        && FoldChannels(split, lines[..cursor], NoChannels) == Failure(res.error)
        && FoldChannels(split, lines[..cursor - 1], NoChannels).Success?
    {
      res := FindHeaders(split);
      if res.Success? {
        ScanHeadersAt(split, lines, cursor, title, sn, headers, timestamp, name);
      } else {
        ScanHeadersFails(split, lines, res.error);
      }
    }

    /**
     * The import: reset the reading state, scan the header, then build the metadata and the relabelled
     * frame from the fields of the column-definition line.
     */
    method FromCsv(split: Splitter) returns (res: Result<Frame, Error>)
      modifies this
      ensures cursor <= |lines|
      ensures res == Import(split, lines)
      ensures ScanHeaders(split, lines).Success? ==>
        var h := ScanHeaders(split, lines).value;
        cursor == h.read && title == Some(h.title) && sn == h.sn &&
        headers == h.fields && timestamp == Some(h.timestamp) && name == h.name
      ensures ScanHeaders(split, lines) == Failure(StreamExhausted) ==> cursor == |lines|
      ensures ScanHeaders(split, lines).Failure? && IsFieldError(ScanHeaders(split, lines).error) ==>
        && 0 < cursor
        && FoldChannels(split, lines[..cursor], NoChannels) == Failure(ScanHeaders(split, lines).error)
        && FoldChannels(split, lines[..cursor - 1], NoChannels).Success?
    {
      cursor := 0;
      title := None;
      sn := None;
      timestamp := None;
      name := NoChannels;
      var header := ScanFile(split);
      if header.Failure? {
        return Failure(header.error);
      }
      res := BuildFrame(Header(cursor, title.value, sn, headers, timestamp.value, name));
    }
  }
}
