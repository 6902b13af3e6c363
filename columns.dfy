/**
 * The column mapper: given the fields of one header line, find the timestamp column and fill the four
 * channel slots with the descriptor of the field that names them. These functions are the specification
 * the imperative passes of class `Hobo` are proved against.
 */
module Columns {
  import opened Wrappers
  import opened Strings
  import opened Fields

  /** The four channel slots of the `name` table. */
  datatype Slot = Temp | Pres | Rh | Batt

  /** The `name` table: one optional descriptor per slot; `None` stands for `[None, None, None]`. */
  datatype Channels = Channels(temp: Option<Descriptor>, pres: Option<Descriptor>, rh: Option<Descriptor>, batt: Option<Descriptor>)
  {
    function Get(slot: Slot): Option<Descriptor> {
      match slot
      case Temp => temp
      case Pres => pres
      case Rh => rh
      case Batt => batt
    }

    function With(slot: Slot, d: Option<Descriptor>): (r: Channels)
      ensures r.Get(slot) == d
      ensures forall other :: other != slot ==> r.Get(other) == Get(other)
    {
      match slot
      case Temp => this.(temp := d)
      case Pres => this.(pres := d)
      case Rh => this.(rh := d)
      case Batt => this.(batt := d)
    }
  }

  /** Setting a slot twice keeps only the second value. */
  lemma WithWith(c: Channels, slot: Slot, a: Option<Descriptor>, b: Option<Descriptor>)
    ensures c.With(slot, a).With(slot, b) == c.With(slot, b)
  {
  }

  /** The table as it is before any header line is read. */
  const NoChannels := Channels(None, None, None, None)

  /** Substrings that mark each kind of column. */
  const TimestampKeys: seq<string> := ["Date Time", "Fecha Tiempo"]
  const HighResTempKeys: seq<string> := ["High Res. Temp.", "High-Res Temp"]
  const TempKeys: seq<string> := ["Temp,", "Temp.", "Temperature"]
  const PresKeys: seq<string> := ["Pres abs,"]
  const RhKeys: seq<string> := ["RH,"]
  const BattKeys: seq<string> := ["Batt, V"]

  /** `field` contains one of `keys` as a substring. */
  predicate MatchesAny(field: string, keys: seq<string>) {
    exists k :: 0 <= k < |keys| && Contains(field, keys[k])
  }

  /** The index of the first field that names the timestamp column, if any. */
  function FindColTimestamp(headers: seq<string>): (r: Option<nat>)
    ensures r.Some? ==> r.value < |headers| && MatchesAny(headers[r.value], TimestampKeys)
  {
    if headers == [] then None
    else if MatchesAny(headers[0], TimestampKeys) then Some(0)
    else
      match FindColTimestamp(headers[1..])
      case None => None
      case Some(k) => Some(k + 1)
  }

  /** The timestamp column is the first field naming it, and there is none when no field does. */
  lemma {:induction false} FindColTimestampIsFirst(headers: seq<string>)
    ensures FindColTimestamp(headers).Some? ==>
      var i := FindColTimestamp(headers).value;
      MatchesAny(headers[i], TimestampKeys) && forall j :: 0 <= j < i ==> !MatchesAny(headers[j], TimestampKeys)
    ensures FindColTimestamp(headers).None? <==> forall j :: 0 <= j < |headers| ==> !MatchesAny(headers[j], TimestampKeys)
  {
    if headers != [] {
      FindColTimestampIsFirst(headers[1..]);
      assert forall j :: 0 < j < |headers| ==> headers[j] == headers[1..][j - 1];
    }
  }

  /** How a matching field is turned into a slot value: `Describe` in the model, left open in the fold lemmas. */
  type Describer = string -> Result<Descriptor, Error>

  /** One step of a pass: a field containing one of `keys` replaces the slot value by its descriptor. */
  function Overwrite(describe: Describer, field: string, keys: seq<string>, cur: Option<Descriptor>): Result<Option<Descriptor>, Error> {
    if MatchesAny(field, keys) then
      match describe(field)
      case Success(d) => Success(Some(d))
      case Failure(e) => Failure(e)
    else Success(cur)
  }

  /** A loop over the fields in order, stopping at the first step that raises. */
  function Fold(describe: Describer, fields: seq<string>, keys: seq<string>, prev: Option<Descriptor>): (r: Result<Option<Descriptor>, Error>)
    ensures r.Success? && r.value != prev ==> r.value.Some?
    decreases |fields|
  {
    if fields == [] then Success(prev)
    else
      match Fold(describe, fields[..|fields| - 1], keys, prev)
      case Failure(e) => Failure(e)
      case Success(cur) => Overwrite(describe, fields[|fields| - 1], keys, cur)
  }

  /** One more field: the fold over `fields[..i + 1]` is the fold over `fields[..i]` followed by one step. */
  lemma FoldStep(describe: Describer, fields: seq<string>, keys: seq<string>, prev: Option<Descriptor>, i: nat)
    requires i < |fields|
    ensures Fold(describe, fields[..i + 1], keys, prev) ==
      match Fold(describe, fields[..i], keys, prev)
      case Failure(e) => Failure(e)
      case Success(cur) => Overwrite(describe, fields[i], keys, cur)
  {
    assert fields[..i + 1][..i] == fields[..i];
  }

  /**
   * One loop over the header fields, starting from slot value `prev`: every field containing one of
   * `keys` overwrites the slot with its descriptor, and the first such field that cannot be described
   * raises.
   */
  function Pass(fields: seq<string>, keys: seq<string>, prev: Option<Descriptor>): (r: Result<Option<Descriptor>, Error>)
    ensures r.Failure? ==> IsFieldError(r.error)
  {
    FoldErrors(fields, keys, prev);
    Fold(Describe, fields, keys, prev)
  }

  /** Every error a pass raises is one raised by `Describe`. */
  lemma {:induction false} FoldErrors(fields: seq<string>, keys: seq<string>, prev: Option<Descriptor>)
    ensures Fold(Describe, fields, keys, prev).Failure? ==> IsFieldError(Fold(Describe, fields, keys, prev).error)
    decreases |fields|
  {
    if fields != [] {
      FoldErrors(fields[..|fields| - 1], keys, prev);
    }
  }

  /** The index of the last field containing one of `keys`, if any. */
  function LastMatch(fields: seq<string>, keys: seq<string>): (r: Option<nat>)
    ensures r.Some? ==> r.value < |fields| && MatchesAny(fields[r.value], keys)
    ensures r.Some? ==> forall j :: r.value < j < |fields| ==> !MatchesAny(fields[j], keys)
    ensures r.None? <==> forall j :: 0 <= j < |fields| ==> !MatchesAny(fields[j], keys)
    decreases |fields|
  {
    if fields == [] then None
    else if MatchesAny(fields[|fields| - 1], keys) then Some(|fields| - 1)
    else LastMatch(fields[..|fields| - 1], keys)
  }

  /** Some field among the first `n` contains one of `keys` and cannot be described. */
  predicate FailsBefore(describe: Describer, fields: seq<string>, keys: seq<string>, n: nat)
    requires n <= |fields|
  {
    exists j :: 0 <= j < n && MatchesAny(fields[j], keys) && describe(fields[j]).Failure?
  }

  /** A fold raises exactly when some matching field cannot be described. */
  lemma {:induction false} FoldFailsIff(describe: Describer, fields: seq<string>, keys: seq<string>, prev: Option<Descriptor>)
    ensures Fold(describe, fields, keys, prev).Failure? <==> FailsBefore(describe, fields, keys, |fields|)
    decreases |fields|
  {
    if fields != [] {
      var init := fields[..|fields| - 1];
      FoldFailsIff(describe, init, keys, prev);
      if FailsBefore(describe, init, keys, |init|) {
        var j :| 0 <= j < |init| && MatchesAny(init[j], keys) && describe(init[j]).Failure?;
        assert fields[j] == init[j];
      } else if FailsBefore(describe, fields, keys, |fields|) {
        var j :| 0 <= j < |fields| && MatchesAny(fields[j], keys) && describe(fields[j]).Failure?;
        assert j == |init|;
      }
    }
  }

  /** A pass raises exactly when some matching field cannot be described. */
  lemma PassFailsIff(fields: seq<string>, keys: seq<string>, prev: Option<Descriptor>)
    ensures Pass(fields, keys, prev).Failure? <==>
      exists j :: 0 <= j < |fields| && MatchesAny(fields[j], keys) && Describe(fields[j]).Failure?
  {
    FoldFailsIff(Describe, fields, keys, prev);
  }

  /** The fold keeps the value of the last matching field, or `prev` when none matches. */
  lemma {:induction false} FoldLastMatch(describe: Describer, fields: seq<string>, keys: seq<string>, prev: Option<Descriptor>)
    requires Fold(describe, fields, keys, prev).Success?
    ensures LastMatch(fields, keys).None? ==> Fold(describe, fields, keys, prev).value == prev
    ensures LastMatch(fields, keys).Some? ==>
      describe(fields[LastMatch(fields, keys).value]).Success? &&
      Fold(describe, fields, keys, prev).value == Some(describe(fields[LastMatch(fields, keys).value]).value)
    decreases |fields|
  {
    if fields != [] {
      FoldLastMatch(describe, fields[..|fields| - 1], keys, prev);
    }
  }

  /**
   * Last match wins: a pass that does not raise leaves the slot holding the descriptor of the last
   * matching field, or its previous value when no field matches.
   */
  lemma LastMatchWins(fields: seq<string>, keys: seq<string>, prev: Option<Descriptor>)
    requires Pass(fields, keys, prev).Success?
    ensures LastMatch(fields, keys).None? ==> Pass(fields, keys, prev).value == prev
    ensures LastMatch(fields, keys).Some? ==>
      Describe(fields[LastMatch(fields, keys).value]).Success? &&
      Pass(fields, keys, prev).value == Some(Describe(fields[LastMatch(fields, keys).value]).value)
  {
    FoldLastMatch(Describe, fields, keys, prev);
  }

  /** A fold raises the error of the first matching field that cannot be described. */
  lemma {:induction false} FoldRaisesFirst(describe: Describer, fields: seq<string>, keys: seq<string>, prev: Option<Descriptor>, j: nat)
    requires j < |fields| && MatchesAny(fields[j], keys) && describe(fields[j]).Failure?
    requires !FailsBefore(describe, fields, keys, j)
    ensures Fold(describe, fields, keys, prev) == Failure(describe(fields[j]).error)
    decreases |fields|
  {
    var init := fields[..|fields| - 1];
    if j < |init| {
      assert init[j] == fields[j];
      assert !FailsBefore(describe, init, keys, j) by {
        forall i | 0 <= i < j
          ensures !(MatchesAny(init[i], keys) && describe(init[i]).Failure?)
        {
          assert init[i] == fields[i];
        }
      }
      FoldRaisesFirst(describe, init, keys, prev, j);
    } else {
      FoldFailsIff(describe, init, keys, prev);
      assert !FailsBefore(describe, init, keys, |init|) by {
        forall i | 0 <= i < |init|
          ensures !(MatchesAny(init[i], keys) && describe(init[i]).Failure?)
        {
          assert init[i] == fields[i];
        }
      }
    }
  }

  /** The error a pass raises is the one of the first matching field that cannot be described. */
  lemma PassRaisesFirst(fields: seq<string>, keys: seq<string>, prev: Option<Descriptor>, j: nat)
    requires j < |fields| && MatchesAny(fields[j], keys) && Describe(fields[j]).Failure?
    requires forall i :: 0 <= i < j ==> !(MatchesAny(fields[i], keys) && Describe(fields[i]).Failure?)
    ensures Pass(fields, keys, prev) == Failure(Describe(fields[j]).error)
  {
    FoldRaisesFirst(Describe, fields, keys, prev, j);
  }

  /** Once a prefix of the fields raises, the whole fold raises the same error. */
  lemma {:induction false} FoldFailurePersists(describe: Describer, fields: seq<string>, keys: seq<string>, prev: Option<Descriptor>, n: nat)
    requires n <= |fields| && Fold(describe, fields[..n], keys, prev).Failure?
    ensures Fold(describe, fields, keys, prev) == Fold(describe, fields[..n], keys, prev)
    decreases |fields| - n
  {
    if n < |fields| {
      assert fields[..n + 1][..n] == fields[..n];
      FoldFailurePersists(describe, fields, keys, prev, n + 1);
    } else {
      assert fields[..n] == fields;
    }
  }

  /** The two temperature loops: high-resolution names first, then the generic names. */
  function TempPasses(fields: seq<string>, prev: Option<Descriptor>): (r: Result<Option<Descriptor>, Error>)
    ensures r.Failure? ==> IsFieldError(r.error)
  {
    match Pass(fields, HighResTempKeys, prev)
    case Failure(e) => Failure(e)
    case Success(hi) => Pass(fields, TempKeys, hi)
  }

  /**
   * Temperature precedence: the last field with a generic temperature name wins; failing that, the last
   * field with a high-resolution name; failing both, the slot keeps its value.
   */
  lemma TemperaturePrecedence(fields: seq<string>, prev: Option<Descriptor>)
    requires TempPasses(fields, prev).Success?
    ensures LastMatch(fields, TempKeys).Some? ==>
      Describe(fields[LastMatch(fields, TempKeys).value]).Success? &&
      TempPasses(fields, prev).value == Some(Describe(fields[LastMatch(fields, TempKeys).value]).value)
    ensures LastMatch(fields, TempKeys).None? && LastMatch(fields, HighResTempKeys).Some? ==>
      Describe(fields[LastMatch(fields, HighResTempKeys).value]).Success? &&
      TempPasses(fields, prev).value == Some(Describe(fields[LastMatch(fields, HighResTempKeys).value]).value)
    ensures LastMatch(fields, TempKeys).None? && LastMatch(fields, HighResTempKeys).None? ==>
      TempPasses(fields, prev).value == prev
  {
    LastMatchWins(fields, HighResTempKeys, prev);
    LastMatchWins(fields, TempKeys, Pass(fields, HighResTempKeys, prev).value);
  }

  /**
   * A high-resolution name written with a dot also contains the generic key `Temp.`, so such a field is
   * matched again by the generic loop.
   */
  lemma HighResDottedIsGeneric(field: string)
    requires Contains(field, HighResTempKeys[0])
    ensures MatchesAny(field, TempKeys)
  {
    var i: nat :| i <= |field| && OccursAt(field, HighResTempKeys[0], i);
    assert HighResTempKeys[0][10..] == TempKeys[1];
    assert OccursAt(field, TempKeys[1], i + 10);
  }

  /** All four slots after one header line: temperature, pressure, humidity, then battery. */
  function MapColumns(fields: seq<string>, ch: Channels): (r: Result<Channels, Error>)
    ensures r.Failure? ==> IsFieldError(r.error)
  {
    match TempPasses(fields, ch.temp)
    case Failure(e) => Failure(e)
    case Success(t) =>
      match Pass(fields, PresKeys, ch.pres)
      case Failure(e) => Failure(e)
      case Success(p) =>
        match Pass(fields, RhKeys, ch.rh)
        case Failure(e) => Failure(e)
        case Success(h) =>
          match Pass(fields, BattKeys, ch.batt)
          case Failure(e) => Failure(e)
          case Success(b) => Success(Channels(t, p, h, b))
  }

  /** Each slot is decided by its own keywords alone: a line with no such field leaves that slot unchanged. */
  lemma MapColumnsSlots(fields: seq<string>, ch: Channels)
    requires MapColumns(fields, ch).Success?
    ensures TempPasses(fields, ch.temp) == Success(MapColumns(fields, ch).value.temp)
    ensures LastMatch(fields, PresKeys).None? ==> MapColumns(fields, ch).value.pres == ch.pres
    ensures LastMatch(fields, RhKeys).None? ==> MapColumns(fields, ch).value.rh == ch.rh
    ensures LastMatch(fields, BattKeys).None? ==> MapColumns(fields, ch).value.batt == ch.batt
    ensures LastMatch(fields, PresKeys).Some? ==>
      Describe(fields[LastMatch(fields, PresKeys).value]).Success? &&
      MapColumns(fields, ch).value.pres == Some(Describe(fields[LastMatch(fields, PresKeys).value]).value)
    ensures LastMatch(fields, RhKeys).Some? ==>
      Describe(fields[LastMatch(fields, RhKeys).value]).Success? &&
      MapColumns(fields, ch).value.rh == Some(Describe(fields[LastMatch(fields, RhKeys).value]).value)
    ensures LastMatch(fields, BattKeys).Some? ==>
      Describe(fields[LastMatch(fields, BattKeys).value]).Success? &&
      MapColumns(fields, ch).value.batt == Some(Describe(fields[LastMatch(fields, BattKeys).value]).value)
  {
    LastMatchWins(fields, PresKeys, ch.pres);
    LastMatchWins(fields, RhKeys, ch.rh);
    LastMatchWins(fields, BattKeys, ch.batt);
  }
}
