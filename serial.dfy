/**
 * The serial-number pattern `(?:LGR S/N: |Serial Number:)(\d+)`, searched for in a header line.
 * Digits are the ASCII digits `0`-`9` (`Strings.IsDigit`).
 */
module Serial {
  import opened Wrappers
  import opened Strings

  /** The two keywords the pattern accepts before the digits; note the second has no trailing space. */
  const LoggerKey := "LGR S/N: "
  const SerialKey := "Serial Number:"

  /** A digit stands at index `k` of `line`. */
  predicate DigitAt(line: string, k: nat) {
    k < |line| && IsDigit(line[k])
  }

  /** The longest run of digits in `line` starting at index `i` (what the greedy `\d+` takes). */
  function DigitRun(line: string, i: nat): (r: string)
    requires i <= |line|
    ensures AllDigits(r) && OccursAt(line, r, i)
    ensures !DigitAt(line, i + |r|)
    decreases |line| - i
  {
    if DigitAt(line, i) then [line[i]] + DigitRun(line, i + 1) else []
  }

  /** `key` stands at index `i` of `line` and is followed by the maximal digit run `digits`. */
  predicate KeyedRunAt(line: string, i: nat, key: string, digits: string) {
    && OccursAt(line, key, i)
    && digits != [] && AllDigits(digits)
    && OccursAt(line, digits, i + |key|)
    && !DigitAt(line, i + |key| + |digits|)
  }

  /** The pattern matched with its first character at index `i`: the first alternative is tried first. */
  function SerialAt(line: string, i: nat): (r: Option<string>)
    ensures r.Some? ==> KeyedRunAt(line, i, LoggerKey, r.value) || KeyedRunAt(line, i, SerialKey, r.value)
    ensures r.None? <==>
      !(OccursAt(line, LoggerKey, i) && DigitAt(line, i + |LoggerKey|))
      && !(OccursAt(line, SerialKey, i) && DigitAt(line, i + |SerialKey|))
  {
    if OccursAt(line, LoggerKey, i) && DigitAt(line, i + |LoggerKey|) then
      Some(DigitRun(line, i + |LoggerKey|))
    else if OccursAt(line, SerialKey, i) && DigitAt(line, i + |SerialKey|) then
      Some(DigitRun(line, i + |SerialKey|))
    else
      None
  }

  /** The leftmost index at or after `i` where the pattern matches. */
  function SearchFrom(line: string, i: nat): (r: Option<nat>)
    requires i <= |line|
    ensures r.Some? ==> i <= r.value <= |line| && SerialAt(line, r.value).Some?
    ensures r.Some? ==> forall j :: i <= j < r.value ==> SerialAt(line, j).None?
    ensures r.None? ==> forall j :: i <= j <= |line| ==> SerialAt(line, j).None?
    decreases |line| - i
  {
    if SerialAt(line, i).Some? then Some(i)
    else if i == |line| then None
    else SearchFrom(line, i + 1)
  }

  /** `SN_REGEX.search(line)`, giving the captured digit group when the pattern occurs. */
  function FindSerial(line: string): (r: Option<string>)
    ensures r.Some? ==> r.value != [] && AllDigits(r.value)
  {
    match SearchFrom(line, 0)
    case None => None
    case Some(i) => SerialAt(line, i)
  }

  /** The search finds nothing exactly when the pattern matches at no position of the line. */
  lemma FindSerialNone(line: string)
    ensures FindSerial(line).None? <==> forall j :: 0 <= j <= |line| ==> SerialAt(line, j).None?
  {
  }

  /** The search reports the leftmost match: the first index where the pattern matches gives the digits. */
  lemma FindSerialIsLeftmost(line: string, i: nat)
    requires i <= |line| && SerialAt(line, i).Some?
    requires forall j :: 0 <= j < i ==> SerialAt(line, j).None?
    ensures FindSerial(line) == SerialAt(line, i)
  {
    var p := SearchFrom(line, 0);
    assert p.Some?;
  }

  /** The digit group never has surrounding whitespace, so `sn.strip()` leaves it unchanged. */
  lemma SerialIsStripped(line: string)
    requires FindSerial(line).Some?
    ensures Strip(FindSerial(line).value) == FindSerial(line).value
  {
    var d := FindSerial(line).value;
    DigitsStripped(d);
    StripFixed(d, Whitespace);
  }
}
