/**
 * The three extractors applied to one field of the column-definition line. A field such as
 * `Temp, °C (LGR S/N: 20563204, SEN S/N: 20563204, LBL: WaterTemp)` yields a display name
 * (`WaterTemp`), a long name (`Temp`) and a unit (`°C`).
 */
module Fields {
  import opened Wrappers
  import opened Strings

  /** The `[name, long_name, units]` triple stored in a channel slot. */
  datatype Descriptor = Descriptor(name: string, longName: string, units: string)

  /** The tag with which the logger software marks a channel the user relabelled. */
  const LabelTag := "LBL"

  /** `find_long_name`: the trimmed text before the first comma; total. */
  function FindLongName(header: string): (r: string)
    ensures ',' !in r && Stripped(r, Whitespace)
    ensures ',' !in header ==> r == Strip(header)
  {
    StripKeepsOut(Before(header, ','), Whitespace, ',');
    Strip(Before(header, ','))
  }

  /** `find_units`: the first space-separated token of the trimmed text between the first and second comma. */
  function FindUnits(header: string): (r: Result<string, Error>)
    ensures r.Failure? <==> ',' !in header
    ensures r.Failure? ==> r.error == MissingComma
    ensures r.Success? ==> ',' !in r.value && ' ' !in r.value && Stripped(r.value, Whitespace)
  {
    match After(header, ',')
    case None => Failure(MissingComma)
    case Some(rest) =>
      var segment := Strip(Before(rest, ','));
      StripKeepsOut(Before(rest, ','), Whitespace, ',');
      StripKeepsOut(Before(segment, ' '), Whitespace, ',');
      StripKeepsOut(Before(segment, ' '), Whitespace, ' ');
      Success(Strip(Before(segment, ' ')))
  }

  /** The segment after the last comma with spaces and `)` stripped from both ends (`rsplit(",", 1)[1].strip(" )")`). */
  function LastSegment(header: string): (r: Option<string>)
    ensures r.None? <==> ',' !in header
    ensures r.Some? ==> ',' !in r.value && Stripped(r.value, {' ', ')'})
  {
    match AfterLast(header, ',')
    case None => None
    case Some(tail) => StripKeepsOut(tail, {' ', ')'}, ','); Some(StripChars(tail, {' ', ')'}))
  }

  /** The last segment of the field carries the relabelling tag before its first colon. */
  predicate HasLabelTag(header: string)
    ensures HasLabelTag(header) ==> ',' in header
  {
    LastSegment(header).Some? && Strip(Before(LastSegment(header).value, ':')) == LabelTag
  }

  /** The user's label in a tagged segment: the trimmed text between its first and second colon. */
  function LabelOf(segment: string): (r: Result<string, Error>)
    ensures r.Failure? <==> ':' !in segment
    ensures r.Failure? ==> r.error == LabelWithoutColon
    ensures r.Success? ==> ':' !in r.value && Stripped(r.value, Whitespace)
  {
    match After(segment, ':')
    case None => Failure(LabelWithoutColon)
    case Some(rest) =>
      StripKeepsOut(Before(rest, ':'), Whitespace, ':');
      Success(Strip(Before(rest, ':')))
  }

  /**
   * `find_name`: the user's label when the last segment is tagged `LBL`, otherwise the long name.
   * A tagged segment without a colon makes `split(":")[1]` fail.
   */
  function FindName(header: string): (r: Result<string, Error>)
    ensures r.Failure? <==> ',' !in header || (HasLabelTag(header) && ':' !in LastSegment(header).value)
    ensures r.Failure? ==> r.error == if ',' in header then LabelWithoutColon else MissingComma
    ensures r.Success? && !HasLabelTag(header) ==> r.value == FindLongName(header)
    ensures r.Success? && HasLabelTag(header) ==> ':' !in r.value && Stripped(r.value, Whitespace)
  {
    match LastSegment(header)
    case None => Failure(MissingComma)
    case Some(segment) =>
      if Strip(Before(segment, ':')) == LabelTag then
        LabelOf(segment)
      else
        Success(FindLongName(header))
  }

  /**
   * The triple `[find_name(h), find_long_name(h), find_units(h)]`, evaluated in that order, so an
   * error of `find_name` is the one raised.
   */
  function Describe(header: string): (r: Result<Descriptor, Error>)
    ensures r.Success? <==> FindName(header).Success? && FindUnits(header).Success?
    ensures r.Success? ==> r.value == Descriptor(FindName(header).value, FindLongName(header), FindUnits(header).value)
    ensures r.Failure? ==> IsFieldError(r.error)
    ensures ',' !in header ==> r == Failure(MissingComma)
  {
    match FindName(header)
    case Failure(e) => Failure(e)
    case Success(name) =>
      var longName := FindLongName(header);
      match FindUnits(header)
      case Failure(e) => Failure(e)
      case Success(units) => Success(Descriptor(name, longName, units))
  }

  /**
   * How the logger software writes one channel into the column-definition line:
   * `<long name>, <units> (LGR S/N: <logger serial>, SEN S/N: <sensor serial>[, LBL: <label>])`.
   * The two serial numbers are those of the logger and of the sensor, and may differ.
   */
  function VendorField(longName: string, units: string, loggerSerial: string, sensorSerial: string, userLabel: Option<string>): string {
    longName + [','] + UnitsSegment(units, loggerSerial) + [','] + SensorSegment(sensorSerial, userLabel)
  }

  /** ` <units> (LGR S/N: <serial>`: the text between the first and second comma of a written field. */
  function UnitsSegment(units: string, serial: string): string {
    " " + (units + (" (LGR S/N: " + serial))
  }

  /** ` SEN S/N: <serial>)`, or ` SEN S/N: <serial>, LBL: <label>)`: the rest of a written field. */
  function SensorSegment(serial: string, userLabel: Option<string>): string {
    match userLabel
    case None => " " + SensorTag(serial) + ")"
    case Some(l) => " " + SensorTag(serial) + [','] + (" " + LabelSegment(l) + ")")
  }

  /** The key of the sensor's serial number in a written field. */
  const SensorKey := "SEN S/N"

  /** `SEN S/N: <serial>`. */
  function SensorTag(serial: string): string {
    SensorKey + [':'] + (" " + serial)
  }

  /** The parts of a channel that `VendorField` can carry and the extractors can give back unchanged. */
  predicate WritableParts(longName: string, units: string, loggerSerial: string, sensorSerial: string, userLabel: Option<string>) {
    && ',' !in longName && Stripped(longName, Whitespace)
    && units != [] && ',' !in units && ' ' !in units && Stripped(units, Whitespace)
    && loggerSerial != [] && AllDigits(loggerSerial)
    && sensorSerial != [] && AllDigits(sensorSerial)
    && (userLabel.Some? ==>
          && userLabel.value != [] && ',' !in userLabel.value && ':' !in userLabel.value
          && Stripped(userLabel.value, Whitespace) && userLabel.value[|userLabel.value| - 1] != ')')
  }

  /** The long name is the text before the first comma, whatever follows it. */
  lemma {:induction false} LongNameOfVendorField(longName: string, units: string, loggerSerial: string, sensorSerial: string, userLabel: Option<string>)
    requires WritableParts(longName, units, loggerSerial, sensorSerial, userLabel)
    ensures FindLongName(VendorField(longName, units, loggerSerial, sensorSerial, userLabel)) == longName
  {
    var h := VendorField(longName, units, loggerSerial, sensorSerial, userLabel);
    assert h == longName + [','] + h[|longName| + 1..];
    SplitAtFirst(longName, ',', h[|longName| + 1..]);
    StripPadded([], longName, [], Whitespace);
    assert [] + longName + [] == longName;
  }

  /** The first token of the trimmed units segment is the unit. */
  lemma UnitsSegmentToken(units: string, serial: string)
    requires units != [] && ' ' !in units && Stripped(units, Whitespace)
    requires serial != [] && serial[|serial| - 1] !in Whitespace
    ensures Strip(Before(Strip(UnitsSegment(units, serial)), ' ')) == units
  {
    var core := units + (" (LGR S/N: " + serial);
    assert core[|core| - 1] == serial[|serial| - 1];
    StripFront(" ", core, Whitespace);
    BeforeOfPrefix(units, " (LGR S/N: " + serial, ' ');
    StripFixed(units, Whitespace);
  }

  lemma UnitsSegmentHasNoComma(units: string, serial: string)
    requires ',' !in units && ',' !in serial
    ensures ',' !in UnitsSegment(units, serial)
  {
    var tag := " (LGR S/N: ";
    assert ',' !in tag by {
      assert forall k :: 0 <= k < |tag| ==> tag[k] != ',';
    }
  }

  /** A field with a comma gives the first token of the trimmed text between its first and second comma. */
  lemma FindUnitsOf(header: string, first: string, rest: string)
    requires header == first + [','] + rest && ',' !in first
    ensures FindUnits(header) == Success(Strip(Before(Strip(Before(rest, ',')), ' ')))
  {
    SplitAtFirst(first, ',', rest);
  }

  /** The unit is the token after the first comma, whatever follows it. */
  lemma {:induction false} UnitsOfVendorField(longName: string, units: string, loggerSerial: string, sensorSerial: string, userLabel: Option<string>)
    requires WritableParts(longName, units, loggerSerial, sensorSerial, userLabel)
    ensures FindUnits(VendorField(longName, units, loggerSerial, sensorSerial, userLabel)) == Success(units)
  {
    DigitsStripped(loggerSerial);
    var segment := UnitsSegment(units, loggerSerial);
    var sensor := SensorSegment(sensorSerial, userLabel);
    var rest := segment + [','] + sensor;
    assert VendorField(longName, units, loggerSerial, sensorSerial, userLabel) == longName + [','] + rest;
    FindUnitsOf(VendorField(longName, units, loggerSerial, sensorSerial, userLabel), longName, rest);
    UnitsSegmentHasNoComma(units, loggerSerial);
    SplitAtFirst(segment, ',', sensor);
    UnitsSegmentToken(units, loggerSerial);
  }

  /** `LBL: <label>`. */
  function LabelSegment(userLabel: string): string {
    LabelTag + [':'] + (" " + userLabel)
  }

  lemma SensorTailHasNoComma(serial: string)
    requires ',' !in serial
    ensures ',' !in SensorSegment(serial, None)
  {
    var key := SensorKey;
    assert ',' !in key by {
      assert forall k :: 0 <= k < |key| ==> key[k] != ',';
    }
  }

  lemma LabelTailHasNoComma(userLabel: string)
    requires ',' !in userLabel
    ensures ',' !in " " + LabelSegment(userLabel) + ")"
  {
    var tag := LabelTag;
    assert ',' !in tag by {
      assert forall k :: 0 <= k < |tag| ==> tag[k] != ',';
    }
  }

  /** The last comma of an untagged written field is the one before the sensor's serial number. */
  lemma {:induction false} LastSegmentOfUntaggedField(longName: string, units: string, loggerSerial: string, sensorSerial: string)
    requires WritableParts(longName, units, loggerSerial, sensorSerial, None)
    ensures LastSegment(VendorField(longName, units, loggerSerial, sensorSerial, None)) == Some(SensorTag(sensorSerial))
  {
    DigitsStripped(sensorSerial);
    var tail := SensorSegment(sensorSerial, None);
    SensorTailHasNoComma(sensorSerial);
    SplitAtLast(longName + [','] + UnitsSegment(units, loggerSerial), ',', tail);
    StripPadded(" ", SensorTag(sensorSerial), ")", {' ', ')'});
  }

  /** The last comma of a tagged written field is the one before the label. */
  lemma {:induction false} LastSegmentOfTaggedField(longName: string, units: string, loggerSerial: string, sensorSerial: string, userLabel: string)
    requires WritableParts(longName, units, loggerSerial, sensorSerial, Some(userLabel))
    ensures LastSegment(VendorField(longName, units, loggerSerial, sensorSerial, Some(userLabel))) == Some(LabelSegment(userLabel))
  {
    var tail := " " + LabelSegment(userLabel) + ")";
    var front := longName + [','] + UnitsSegment(units, loggerSerial) + [','] + (" " + SensorTag(sensorSerial));
    assert VendorField(longName, units, loggerSerial, sensorSerial, Some(userLabel)) == front + [','] + tail;
    LabelTailHasNoComma(userLabel);
    SplitAtLast(front, ',', tail);
    TaggedSegmentStripped(userLabel);
  }

  lemma TaggedSegmentStripped(userLabel: string)
    requires userLabel != [] && userLabel[|userLabel| - 1] != ')' && userLabel[|userLabel| - 1] !in Whitespace
    ensures StripChars(" " + LabelSegment(userLabel) + ")", {' ', ')'}) == LabelSegment(userLabel)
  {
    assert userLabel[|userLabel| - 1] !in {' ', ')'};
    StripPadded(" ", LabelSegment(userLabel), ")", {' ', ')'});
  }

  /** The sensor's serial-number segment is not a relabelling tag. */
  lemma SensorTagIsNotLabel(serial: string)
    ensures Strip(Before(SensorTag(serial), ':')) != LabelTag
  {
    SplitAtFirst(SensorKey, ':', " " + serial);
    StripFixed(SensorKey, Whitespace);
  }

  /** A tagged segment carries the tag before its first colon. */
  lemma LabelSegmentIsTagged(userLabel: string)
    ensures Strip(Before(LabelSegment(userLabel), ':')) == LabelTag
  {
    SplitAtFirst(LabelTag, ':', " " + userLabel);
    StripFixed(LabelTag, Whitespace);
  }

  /** A tagged segment gives the trimmed text after its colon. */
  lemma LabelSegmentGivesLabel(userLabel: string)
    requires ':' !in userLabel && Stripped(userLabel, Whitespace)
    ensures After(LabelSegment(userLabel), ':') == Some(" " + userLabel)
    ensures Strip(Before(" " + userLabel, ':')) == userLabel
  {
    SplitAtFirst(LabelTag, ':', " " + userLabel);
    BeforeAbsent(" " + userLabel, ':');
    StripFront(" ", userLabel, Whitespace);
  }

  /** The display name of a field without the relabelling tag is its long name. */
  lemma NameOfUnlabelledVendorField(longName: string, units: string, loggerSerial: string, sensorSerial: string)
    requires WritableParts(longName, units, loggerSerial, sensorSerial, None)
    ensures FindName(VendorField(longName, units, loggerSerial, sensorSerial, None)) == Success(longName)
  {
    LastSegmentOfUntaggedField(longName, units, loggerSerial, sensorSerial);
    SensorTagIsNotLabel(sensorSerial);
    LongNameOfVendorField(longName, units, loggerSerial, sensorSerial, None);
  }

  /** The display name of a tagged field is the label after `LBL:`. */
  lemma NameOfLabelledVendorField(longName: string, units: string, loggerSerial: string, sensorSerial: string, userLabel: string)
    requires WritableParts(longName, units, loggerSerial, sensorSerial, Some(userLabel))
    ensures FindName(VendorField(longName, units, loggerSerial, sensorSerial, Some(userLabel))) == Success(userLabel)
  {
    LastSegmentOfTaggedField(longName, units, loggerSerial, sensorSerial, userLabel);
    LabelSegmentIsTagged(userLabel);
    LabelSegmentGivesLabel(userLabel);
  }

  /**
   * Round trip: describing a field written by the logger software gives back the channel it was
   * written from, with the userLabel (when there is one) as display name and the long name untouched.
   */
  lemma DescribeVendorField(longName: string, units: string, loggerSerial: string, sensorSerial: string, userLabel: Option<string>)
    requires WritableParts(longName, units, loggerSerial, sensorSerial, userLabel)
    ensures Describe(VendorField(longName, units, loggerSerial, sensorSerial, userLabel))
         == Success(Descriptor(if userLabel.Some? then userLabel.value else longName, longName, units))
  {
    LongNameOfVendorField(longName, units, loggerSerial, sensorSerial, userLabel);
    UnitsOfVendorField(longName, units, loggerSerial, sensorSerial, userLabel);
    if userLabel.Some? {
      NameOfLabelledVendorField(longName, units, loggerSerial, sensorSerial, userLabel.value);
    } else {
      NameOfUnlabelledVendorField(longName, units, loggerSerial, sensorSerial);
    }
  }

  /** The channel of the untagged example below can be written by the logger software. */
  lemma UntaggedExampleWritable()
    ensures WritableParts("Temp", "°C", "20563204", "20563204", None)
  {
  }

  /** The channel of the tagged example below can be written by the logger software. */
  lemma TaggedExampleWritable()
    ensures WritableParts("Temp", "°C", "1", "1", Some("WaterTemp"))
  {
  }

  /** `Temp, °C (LGR S/N: 20563204, SEN S/N: 20563204)` describes as name `Temp`, long name `Temp`, unit `°C`. */
  lemma ExampleUntaggedField()
    ensures Describe(VendorField("Temp", "°C", "20563204", "20563204", None)) == Success(Descriptor("Temp", "Temp", "°C"))
  {
    UntaggedExampleWritable();
    DescribeVendorField("Temp", "°C", "20563204", "20563204", None);
  }

  /** `Temp, °C (LGR S/N: 1, SEN S/N: 1, LBL: WaterTemp)`: the label names the column, the long name stays `Temp`. */
  lemma ExampleTaggedField()
    ensures Describe(VendorField("Temp", "°C", "1", "1", Some("WaterTemp"))) == Success(Descriptor("WaterTemp", "Temp", "°C"))
  {
    TaggedExampleWritable();
    DescribeVendorField("Temp", "°C", "1", "1", Some("WaterTemp"));
  }
}
