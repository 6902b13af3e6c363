/**
 * The header scan as functions of the lines read so far: which line ends the scan, what the title and
 * serial number become, and what the channel table becomes after column detection has run on every line.
 * The loop of `Hobo.FindHeaders` is proved against these.
 */
module Scan {
  import opened Wrappers
  import opened Strings
  import opened Fields
  import opened Serial
  import opened Columns

  /** How a header line is split into fields (the CSV reader, left as a parameter). */
  type Splitter = string -> seq<string>

  /** The title taken from a line: the stripped line cut at every colon. */
  function Title(line: string): (r: seq<string>)
    ensures |r| >= 1 && r[0] == Before(Strip(line), ':')
    ensures |r| >= 2 <==> ':' in Strip(line)
  {
    Split(Strip(line), ':')
  }

  /** The title after reading `read`, starting from `title`: only the first line read ever sets it. */
  function TitleAfter(title: Option<seq<string>>, read: seq<string>): (r: Option<seq<string>>)
    ensures r.None? <==> title.None? && read == []
    ensures title.Some? ==> r == title
    ensures title.None? && read != [] ==> r == Some(Title(read[0]))
  {
    if title.Some? || read == [] then title else Some(Title(read[0]))
  }

  /** A per-line search, such as the serial-number pattern. */
  type Finder = string -> Option<string>

  /** The first result `find` gives on a line of `read`, trying the lines in order. */
  function FirstFound(find: Finder, read: seq<string>): (r: Option<string>)
    ensures r.None? <==> forall k :: 0 <= k < |read| ==> find(read[k]).None?
    ensures r.Some? ==> exists k :: 0 <= k < |read| && find(read[k]) == r
    decreases |read|
  {
    if read == [] then None
    else
      match FirstFound(find, read[..|read| - 1])
      case Some(s) => Some(s)
      case None => find(read[|read| - 1])
  }

  /** The serial number captured while reading `read`: the digits of the first line that has one. */
  function FirstSerial(read: seq<string>): (r: Option<string>)
    ensures r.Some? ==> r.value != [] && AllDigits(r.value)
  {
    FirstFound(FindSerial, read)
  }

  /** The serial number after reading `read`, starting from `sn`: once set it is never replaced. */
  function SerialAfter(sn: Option<string>, read: seq<string>): (r: Option<string>)
    ensures r.None? <==> sn.None? && forall k :: 0 <= k < |read| ==> FindSerial(read[k]).None?
    ensures sn.Some? ==> r == sn
    ensures sn.None? && r.Some? ==> exists k :: 0 <= k < |read| && FindSerial(read[k]) == r
  {
    if sn.Some? then sn else FirstSerial(read)
  }

  lemma {:induction false} FirstFoundIsFirst(find: Finder, read: seq<string>, k: nat)
    requires k < |read| && find(read[k]).Some?
    requires forall j :: 0 <= j < k ==> find(read[j]).None?
    ensures FirstFound(find, read) == find(read[k])
    decreases |read|
  {
    var init := read[..|read| - 1];
    if k < |init| {
      assert init[k] == read[k];
      assert forall j :: 0 <= j < k ==> init[j] == read[j];
      FirstFoundIsFirst(find, init, k);
    } else {
      assert FirstFound(find, init).None? by {
        assert forall j :: 0 <= j < |init| ==> init[j] == read[j];
      }
    }
  }

  /** The serial number is the one of the first line that carries one, whatever later lines hold. */
  lemma FirstSerialIsFirst(read: seq<string>, k: nat)
    requires k < |read| && FindSerial(read[k]).Some?
    requires forall j :: 0 <= j < k ==> FindSerial(read[j]).None?
    ensures FirstSerial(read) == FindSerial(read[k])
  {
    FirstFoundIsFirst(FindSerial, read, k);
  }

  lemma {:induction false} FirstFoundStays(find: Finder, read: seq<string>, more: seq<string>)
    requires FirstFound(find, read).Some?
    ensures FirstFound(find, read + more) == FirstFound(find, read)
    decreases |more|
  {
    if more == [] {
      assert read + more == read;
    } else {
      var init := more[..|more| - 1];
      assert (read + more)[..|read + more| - 1] == read + init;
      FirstFoundStays(find, read, init);
    }
  }

  /** Reading more lines never changes a serial number already captured. */
  lemma FirstSerialStays(read: seq<string>, more: seq<string>)
    requires FirstSerial(read).Some?
    ensures FirstSerial(read + more) == FirstSerial(read)
  {
    FirstFoundStays(FindSerial, read, more);
  }

  /** The line yields a timestamp column. */
  predicate EndsScan(split: Splitter, line: string) {
    FindColTimestamp(split(line)).Some?
  }

  /** The index of the first line that yields a timestamp column: the column-definition line. */
  function StopLine(split: Splitter, rest: seq<string>): (r: Option<nat>)
    ensures r.Some? ==> r.value < |rest| && EndsScan(split, rest[r.value])
    ensures r.Some? ==> forall j :: 0 <= j < r.value ==> !EndsScan(split, rest[j])
    ensures r.None? <==> forall j :: 0 <= j < |rest| ==> !EndsScan(split, rest[j])
  {
    if rest == [] then None
    else if EndsScan(split, rest[0]) then Some(0)
    else
      match StopLine(split, rest[1..])
      case None => None
      case Some(k) => Some(k + 1)
  }

  /** Column detection run on every line of `read` in turn, starting from table `ch`. */
  function FoldChannels(split: Splitter, read: seq<string>, ch: Channels): (r: Result<Channels, Error>)
    ensures r.Failure? ==> IsFieldError(r.error)
    decreases |read|
  {
    if read == [] then Success(ch)
    else
      match FoldChannels(split, read[..|read| - 1], ch)
      case Failure(e) => Failure(e)
      case Success(c) => MapColumns(split(read[|read| - 1]), c)
  }

  /** Once column detection raises on some line, reading further lines raises the same error. */
  lemma {:induction false} FoldChannelsFailurePersists(split: Splitter, read: seq<string>, more: seq<string>, ch: Channels)
    requires FoldChannels(split, read, ch).Failure?
    ensures FoldChannels(split, read + more, ch) == FoldChannels(split, read, ch)
    decreases |more|
  {
    if more == [] {
      assert read + more == read;
    } else {
      var init := more[..|more| - 1];
      assert (read + more)[..|read + more| - 1] == read + init;
      FoldChannelsFailurePersists(split, read, init, ch);
    }
  }

  /** The fields of `line` mention the slot (for temperature, either family of names). */
  predicate Mentions(split: Splitter, line: string, slot: Slot) {
    match slot
    case Temp => LastMatch(split(line), HighResTempKeys).Some? || LastMatch(split(line), TempKeys).Some?
    case Pres => LastMatch(split(line), PresKeys).Some?
    case Rh => LastMatch(split(line), RhKeys).Some?
    case Batt => LastMatch(split(line), BattKeys).Some?
  }

  /** Column detection on one line leaves every slot the line does not mention as it was. */
  lemma MapColumnsKeeps(fields: seq<string>, ch: Channels, slot: Slot)
    requires MapColumns(fields, ch).Success?
    requires slot == Temp ==> LastMatch(fields, HighResTempKeys).None? && LastMatch(fields, TempKeys).None?
    requires slot == Pres ==> LastMatch(fields, PresKeys).None?
    requires slot == Rh ==> LastMatch(fields, RhKeys).None?
    requires slot == Batt ==> LastMatch(fields, BattKeys).None?
    ensures MapColumns(fields, ch).value.Get(slot) == ch.Get(slot)
  {
    MapColumnsSlots(fields, ch);
    TemperaturePrecedence(fields, ch.temp);
  }

  /** A slot that no line read mentions keeps its value from before the scan (initially empty). */
  lemma {:induction false} UnmentionedSlotKept(split: Splitter, read: seq<string>, ch: Channels, slot: Slot)
    requires FoldChannels(split, read, ch).Success?
    requires forall k :: 0 <= k < |read| ==> !Mentions(split, read[k], slot)
    ensures FoldChannels(split, read, ch).value.Get(slot) == ch.Get(slot)
    decreases |read|
  {
    if read != [] {
      var init := read[..|read| - 1];
      assert forall k :: 0 <= k < |init| ==> init[k] == read[k];
      UnmentionedSlotKept(split, init, ch, slot);
      MapColumnsKeeps(split(read[|read| - 1]), FoldChannels(split, init, ch).value, slot);
    }
  }

  /** How many lines the scan reads: up to and including the column-definition line, or all of them. */
  function Consumed(split: Splitter, rest: seq<string>): (r: nat)
    ensures r <= |rest|
  {
    match StopLine(split, rest)
    case Some(k) => k + 1
    case None => |rest|
  }

  /** Reading line `i` after lines `0..i`: how the title, the serial number and the channel table evolve. */
  lemma ReadOneMore(split: Splitter, title: Option<seq<string>>, sn: Option<string>, ch: Channels, lines: seq<string>, i: nat)
    requires i < |lines|
    ensures TitleAfter(title, lines[..i + 1]) ==
      if TitleAfter(title, lines[..i]).Some? then TitleAfter(title, lines[..i]) else Some(Title(lines[i]))
    ensures SerialAfter(sn, lines[..i + 1]) ==
      if SerialAfter(sn, lines[..i]).Some? then SerialAfter(sn, lines[..i]) else FindSerial(lines[i])
    ensures FoldChannels(split, lines[..i + 1], ch) ==
      match FoldChannels(split, lines[..i], ch)
      case Failure(e) => Failure(e)
      case Success(c) => MapColumns(split(lines[i]), c)
  {
    assert lines[..i + 1][..i] == lines[..i];
    if i > 0 {
      assert lines[..i + 1][0] == lines[..i][0];
    }
  }

  /**
   * Where a scan of `rest` starting from table `ch` ends: how many lines it consumes, the
   * column-definition line last, or the first error raised, the stream running out only after every
   * line has been read.
   */
  function ScanEnd(split: Splitter, rest: seq<string>, ch: Channels): (r: Result<nat, Error>)
    ensures r.Success? ==> 0 < r.value && StopLine(split, rest) == Some(r.value - 1)
    ensures r.Success? ==> FoldChannels(split, rest[..r.value], ch).Success?
    ensures r.Failure? ==> IsFieldError(r.error) || r.error == StreamExhausted
  {
    match FoldChannels(split, rest[..Consumed(split, rest)], ch)
    case Failure(e) => Failure(e)
    case Success(_) =>
      match StopLine(split, rest)
      case None => Failure(StreamExhausted)
      case Some(k) => Success(k + 1)
  }

  /** A scan that reaches a line yielding a timestamp, with no error on the way, stops after that line. */
  lemma ScanEndAt(split: Splitter, rest: seq<string>, ch: Channels, i: nat)
    requires i < |rest| && EndsScan(split, rest[i])
    requires forall j :: 0 <= j < i ==> !EndsScan(split, rest[j])
    requires FoldChannels(split, rest[..i + 1], ch).Success?
    ensures ScanEnd(split, rest, ch) == Success(i + 1)
  {
    var k := StopLine(split, rest);
    assert k.Some? && k.value <= i;
  }

  /** A scan that reads every line without a timestamp or an error runs out of lines. */
  lemma ScanEndExhausted(split: Splitter, rest: seq<string>, ch: Channels)
    requires forall j :: 0 <= j < |rest| ==> !EndsScan(split, rest[j])
    requires FoldChannels(split, rest, ch).Success?
    ensures ScanEnd(split, rest, ch) == Failure(StreamExhausted)
  {
    assert rest[..|rest|] == rest;
  }

  /** A scan that raises on line `i`, before any line yielded a timestamp, ends with that error. */
  lemma ScanEndRaises(split: Splitter, rest: seq<string>, ch: Channels, i: nat)
    requires i < |rest| && forall j :: 0 <= j < i ==> !EndsScan(split, rest[j])
    requires FoldChannels(split, rest[..i + 1], ch).Failure?
    ensures ScanEnd(split, rest, ch) == Failure(FoldChannels(split, rest[..i + 1], ch).error)
  {
    var n := Consumed(split, rest);
    assert i + 1 <= n;
    assert rest[..n] == rest[..i + 1] + rest[i + 1..n];
    FoldChannelsFailurePersists(split, rest[..i + 1], rest[i + 1..n], ch);
  }

  /**
   * Where the scan stands after reading line `n - 1`, no earlier line having yielded a timestamp: it
   * ends with the error column detection raised, or with that line if it yields a timestamp, or goes on.
   */
  lemma ScanTurnEnds(split: Splitter, rest: seq<string>, n: nat, err: Option<Error>)
    requires 0 < n <= |rest| && forall j :: 0 <= j < n - 1 ==> !EndsScan(split, rest[j])
    requires err.Some? ==> FoldChannels(split, rest[..n], NoChannels) == Failure(err.value)
    requires err.None? ==> FoldChannels(split, rest[..n], NoChannels).Success?
    ensures err.Some? ==> ScanEnd(split, rest, NoChannels) == Failure(err.value)
    ensures err.None? && EndsScan(split, rest[n - 1]) ==> ScanEnd(split, rest, NoChannels) == Success(n)
    ensures !EndsScan(split, rest[n - 1]) ==> forall j :: 0 <= j < n ==> !EndsScan(split, rest[j])
  {
    if err.Some? {
      ScanEndRaises(split, rest, NoChannels, n - 1);
    } else if EndsScan(split, rest[n - 1]) {
      ScanEndAt(split, rest, NoChannels, n - 1);
    }
  }

  /** What the scan of a whole file establishes when it succeeds. */
  datatype Header = Header(
    read: nat,               // how many lines were consumed, the column-definition line last
    title: seq<string>,      // the title taken from the first line
    sn: Option<string>,      // the serial number, if a line read carried one
    fields: seq<string>,     // the fields of the column-definition line
    timestamp: nat,          // index of the timestamp field among them
    name: Channels)          // the channel table after every line read

  /** The header scan of a freshly opened file. */
  function ScanHeaders(split: Splitter, lines: seq<string>): (r: Result<Header, Error>)
    ensures r.Success? ==> 0 < r.value.read && StopLine(split, lines) == Some(r.value.read - 1)
    ensures r.Success? ==> r.value.fields == split(lines[r.value.read - 1])
    ensures r.Success? ==> FindColTimestamp(r.value.fields) == Some(r.value.timestamp)
    ensures r.Success? ==> r.value.title == Title(lines[0])
    ensures r.Failure? ==> IsFieldError(r.error) || r.error == StreamExhausted
    ensures StopLine(split, lines).None? ==> r.Failure?
  {
    match ScanEnd(split, lines, NoChannels)
    case Failure(e) => Failure(e)
    case Success(n) =>
      var read := lines[..n];
      assert read[0] == lines[0];
      Success(Header(n, TitleAfter(None, read).value, SerialAfter(None, read), split(lines[n - 1]),
                     FindColTimestamp(split(lines[n - 1])).value, FoldChannels(split, read, NoChannels).value))
  }

  /** A scan of a freshly opened file that ends in an error is a failed header scan. */
  lemma ScanHeadersFails(split: Splitter, lines: seq<string>, e: Error)
    requires ScanEnd(split, lines, NoChannels) == Failure(e)
    ensures ScanHeaders(split, lines) == Failure(e)
  {
  }

  /** A scan of a freshly opened file that stops after reading `n` lines: the header the lines read give. */
  lemma ScanHeadersRead(split: Splitter, lines: seq<string>, n: nat)
    requires ScanEnd(split, lines, NoChannels) == Success(n)
    ensures 0 < n <= |lines| && TitleAfter(None, lines[..n]).Some?
    ensures FindColTimestamp(split(lines[n - 1])).Some? && FoldChannels(split, lines[..n], NoChannels).Success?
    ensures ScanHeaders(split, lines) == Success(Header(n, TitleAfter(None, lines[..n]).value,
      SerialAfter(None, lines[..n]), split(lines[n - 1]), FindColTimestamp(split(lines[n - 1])).value,
      FoldChannels(split, lines[..n], NoChannels).value))
  {
    assert StopLine(split, lines) == Some(n - 1);
    assert EndsScan(split, lines[n - 1]);
    assert lines[..n] != [];
  }

  /**
   * A scan of a freshly opened file that stops after reading `n` lines yields the header of the last
   * line read, with the title, serial number and channel table the lines read give.
   */
  lemma ScanHeadersAt(split: Splitter, lines: seq<string>, n: nat, title: Option<seq<string>>, sn: Option<string>,
                      fields: seq<string>, timestamp: Option<nat>, name: Channels)
    requires ScanEnd(split, lines, NoChannels) == Success(n)
    requires title == TitleAfter(None, lines[..n]) && sn == SerialAfter(None, lines[..n])
    requires FoldChannels(split, lines[..n], NoChannels) == Success(name)
    requires fields == split(lines[n - 1]) && timestamp == FindColTimestamp(fields)
    ensures title.Some? && timestamp.Some?
    ensures ScanHeaders(split, lines) == Success(Header(n, title.value, sn, fields, timestamp.value, name))
  {
    ScanHeadersRead(split, lines, n);
  }
}
