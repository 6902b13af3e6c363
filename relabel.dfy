/**
 * The relabelling tail of the import: data columns whose header names a channel are renamed to that
 * channel's display name, only columns carrying a display name are kept, and each kept column gets a
 * companion quality-control column of zeros. Column contents are not modelled, only labels.
 */
module Relabel {
  import opened Wrappers
  import opened Strings
  import opened Fields
  import opened Columns

  /** A column label: renaming to a slot that has no descriptor gives the label `None`. */
  type Label = Option<string>

  /** A column of the resulting frame: a data column, or a quality-control column holding flag 0. */
  datatype Column = Data(key: Label) | Flags(key: Label)

  /** No two entries of `s` are equal. */
  predicate NoDuplicates<T(==)>(s: seq<T>) {
    forall i, j :: 0 <= i < j < |s| ==> s[i] != s[j]
  }

  /** The rename tests in the order they are tried, with the slot each one selects. */
  const RenameKeys: seq<(string, Slot)> := [("Temp", Temp), ("Pres", Pres), ("Batt", Batt), ("RH", Rh)]

  /** The slot a data column is renamed after: the first of the tests its header passes. */
  function RenameRule(col: string): (r: Option<Slot>)
    ensures r == Some(Temp) <==> Contains(col, "Temp")
  {
    if Contains(col, RenameKeys[0].0) then Some(RenameKeys[0].1)
    else if Contains(col, RenameKeys[1].0) then Some(RenameKeys[1].1)
    else if Contains(col, RenameKeys[2].0) then Some(RenameKeys[2].1)
    else if Contains(col, RenameKeys[3].0) then Some(RenameKeys[3].1)
    else None
  }

  /** Rename precedence: the rule picks the first test the header passes, and none when it passes none. */
  lemma RenameRuleIsFirstKey(col: string)
    ensures RenameRule(col).None? <==> forall k :: 0 <= k < |RenameKeys| ==> !Contains(col, RenameKeys[k].0)
    ensures RenameRule(col).Some? ==>
      exists k :: (0 <= k < |RenameKeys| && Contains(col, RenameKeys[k].0)
        && RenameRule(col) == Some(RenameKeys[k].1)
        && forall j :: 0 <= j < k ==> !Contains(col, RenameKeys[j].0))
  {
    if RenameRule(col).None? {
      forall k | 0 <= k < |RenameKeys|
        ensures !Contains(col, RenameKeys[k].0)
      {
        assert k == 0 || k == 1 || k == 2 || k == 3;
      }
    } else if Contains(col, RenameKeys[0].0) {
      assert RenameRule(col) == Some(RenameKeys[0].1);
    } else if Contains(col, RenameKeys[1].0) {
      assert RenameRule(col) == Some(RenameKeys[1].1);
    } else if Contains(col, RenameKeys[2].0) {
      assert RenameRule(col) == Some(RenameKeys[2].1);
    } else {
      assert RenameRule(col) == Some(RenameKeys[3].1);
    }
  }

  /** The display name of a slot: the name of its descriptor, or `None` while the slot is empty. */
  function DisplayName(ch: Channels, slot: Slot): Label {
    match ch.Get(slot)
    case None => None
    case Some(d) => Some(d.name)
  }

  /** The label a data column is renamed to, if its header passes one of the tests. */
  function Target(ch: Channels, col: string): Option<Label> {
    match RenameRule(col)
    case None => None
    case Some(slot) => Some(DisplayName(ch, slot))
  }

  /** The label a column ends up with when renamed on its own. */
  function Renamed(ch: Channels, col: string): Label {
    match Target(ch, col)
    case None => Some(col)
    case Some(t) => t
  }

  /** Renaming in place: every column currently labelled `from` is relabelled `to`, the rest keep theirs. */
  function Rename(labels: seq<Label>, from: Label, to: Label): (r: seq<Label>)
    ensures |r| == |labels|
    ensures forall i :: 0 <= i < |r| && labels[i] == from ==> r[i] == to
    ensures forall i :: 0 <= i < |r| && labels[i] != from ==> r[i] == labels[i]
    decreases |labels|
  {
    if labels == [] then []
    else [if labels[0] == from then to else labels[0]] + Rename(labels[1..], from, to)
  }

  /** The labels the columns start with: their headers. */
  function Initial(cols: seq<string>): (r: seq<Label>)
    ensures |r| == |cols| && forall i :: 0 <= i < |cols| ==> r[i] == Some(cols[i])
  {
    seq(|cols|, i requires 0 <= i < |cols| => Some(cols[i]))
  }

  /** The rename loop over the original headers in order, each step renaming whatever now carries that header. */
  function RenameLoop(cols: seq<string>, ch: Channels, labels: seq<Label>): (r: seq<Label>)
    ensures |r| == |labels|
    decreases |cols|
  {
    if cols == [] then labels
    else
      var before := RenameLoop(cols[..|cols| - 1], ch, labels);
      var col := cols[|cols| - 1];
      match Target(ch, col)
      case None => before
      case Some(t) => Rename(before, Some(col), t)
  }

  /** No display name a column is renamed to is the header of another column that is renamed. */
  predicate NoChain(cols: seq<string>, ch: Channels) {
    forall i, j :: 0 <= i < |cols| && 0 <= j < |cols| && Target(ch, cols[i]).Some? && Target(ch, cols[j]).Some? ==>
      Target(ch, cols[i]).value != Some(cols[j])
  }

  /** After the first `m` steps of the loop, the first `m` columns are renamed and the others untouched. */
  lemma {:induction false} RenameLoopPrefix(cols: seq<string>, ch: Channels, m: nat)
    requires m <= |cols| && NoDuplicates(cols) && NoChain(cols, ch)
    ensures forall i :: 0 <= i < m ==> RenameLoop(cols[..m], ch, Initial(cols))[i] == Renamed(ch, cols[i])
    ensures forall i :: m <= i < |cols| ==> RenameLoop(cols[..m], ch, Initial(cols))[i] == Some(cols[i])
  {
    if m > 0 {
      RenameLoopPrefix(cols, ch, m - 1);
      assert cols[..m][..m - 1] == cols[..m - 1];
      assert cols[..m][m - 1] == cols[m - 1];
    } else {
      assert cols[..0] == [];
    }
  }

  /**
   * When the headers are distinct and no renaming feeds into another, the loop renames every column
   * exactly as its own header dictates.
   */
  lemma RenameLoopPointwise(cols: seq<string>, ch: Channels)
    requires NoDuplicates(cols) && NoChain(cols, ch)
    ensures forall i :: 0 <= i < |cols| ==> RenameLoop(cols, ch, Initial(cols))[i] == Renamed(ch, cols[i])
  {
    RenameLoopPrefix(cols, ch, |cols|);
    assert cols[..|cols|] == cols;
  }

  /** The rename loop over the data columns of the frame. */
  method RenameColumns(cols: seq<string>, ch: Channels) returns (labels: seq<Label>)
    ensures labels == RenameLoop(cols, ch, Initial(cols))
  {
    labels := Initial(cols);
    var i := 0;
    while i < |cols|
      invariant 0 <= i <= |cols|
      invariant labels == RenameLoop(cols[..i], ch, Initial(cols))
    {
      assert cols[..i + 1][..i] == cols[..i];
      var col := cols[i];
      if RenameRule(col) == Some(Temp) {
        labels := Rename(labels, Some(col), DisplayName(ch, Temp));
      } else if RenameRule(col) == Some(Pres) {
        labels := Rename(labels, Some(col), DisplayName(ch, Pres));
      } else if RenameRule(col) == Some(Batt) {
        labels := Rename(labels, Some(col), DisplayName(ch, Batt));
      } else if RenameRule(col) == Some(Rh) {
        labels := Rename(labels, Some(col), DisplayName(ch, Rh));
      }
      i := i + 1;
    }
    assert cols[..i] == cols;
  }

  /** The display names the filter asks for, in the order it lists them. */
  function Wanted(ch: Channels): seq<Label> {
    [DisplayName(ch, Temp), DisplayName(ch, Pres), DisplayName(ch, Batt), DisplayName(ch, Rh)]
  }

  /** The wanted labels present among `labels`, each once, in the order they are wanted. */
  function Present(items: seq<Label>, labels: seq<Label>): (r: seq<Label>)
    ensures forall x :: x in r <==> x in items && x in labels
    ensures NoDuplicates(r)
    ensures |r| <= |items|
    decreases |items|
  {
    if items == [] then []
    else
      var before := Present(items[..|items| - 1], labels);
      var x := items[|items| - 1];
      if x in labels && x !in before then before + [x] else before
  }

  /** The filter: only columns carrying a display name are kept, each once, in slot order. */
  function KeptColumns(labels: seq<Label>, ch: Channels): (r: seq<Label>)
    ensures forall x :: x in r <==> x in labels && exists slot :: DisplayName(ch, slot) == x
    ensures NoDuplicates(r)
  {
    WantedNames(ch);
    Present(Wanted(ch), labels)
  }

  /** The wanted labels are exactly the display names of the four slots. */
  lemma WantedNames(ch: Channels)
    ensures forall x :: x in Wanted(ch) <==> exists slot :: DisplayName(ch, slot) == x
  {
    forall x | exists slot :: DisplayName(ch, slot) == x
      ensures x in Wanted(ch)
    {
      var slot :| DisplayName(ch, slot) == x;
      if slot == Temp {
        assert Wanted(ch)[0] == x;
      } else if slot == Pres {
        assert Wanted(ch)[1] == x;
      } else if slot == Batt {
        assert Wanted(ch)[2] == x;
      } else {
        assert Wanted(ch)[3] == x;
      }
    }
  }

  /**
   * A column whose header selects an empty slot is renamed to `None`, and the filter keeps it wherever
   * it stands, since the display name the filter asks for in that slot is `None` as well.
   */
  lemma EmptySlotColumnKept(ch: Channels, col: string, labels: seq<Label>)
    requires RenameRule(col).Some? && ch.Get(RenameRule(col).value).None?
    requires Renamed(ch, col) in labels
    ensures Renamed(ch, col) == None
    ensures None in KeptColumns(labels, ch)
  {
    assert DisplayName(ch, RenameRule(col).value) == None;
  }

  /** The name of the quality-control column of a column: its label followed by `_QC`. */
  function QcName(key: Label): (r: string)
    ensures |r| >= |QcSuffix| && r[|r| - |QcSuffix|..] == QcSuffix
    ensures key.Some? ==> r[..|r| - |QcSuffix|] == key.value
    ensures key.None? ==> r[..|r| - |QcSuffix|] == "None"
  {
    match key
    case None => "None" + QcSuffix
    case Some(k) => k + QcSuffix
  }

  /**
   * Distinct labels get distinct quality-control names, except that a column with no label and a column
   * labelled `None` both get `None_QC`.
   */
  lemma QcNameInjective(a: Label, b: Label)
    requires QcName(a) == QcName(b)
    ensures a == b || (a == None && b == Some("None")) || (a == Some("None") && b == None)
  {
    var n := |QcName(a)| - |QcSuffix|;
    assert QcName(a)[..n] == QcName(b)[..n];
  }

  /** The suffix naming a quality-control column. */
  const QcSuffix := "_QC"

  /** Assigning zeros to the column labelled `name`: every such column is overwritten, or one is appended. */
  function SetFlags(cols: seq<Column>, name: Label): (r: seq<Column>)
    ensures |cols| <= |r| <= |cols| + 1
    ensures Flags(name) in r
    ensures forall c :: c in cols && c.key != name ==> c in r
    ensures forall c :: c in r ==> c in cols || c == Flags(name)
    decreases |cols|
  {
    if exists k :: 0 <= k < |cols| && cols[k].key == name then Overwrite(cols, name) else cols + [Flags(name)]
  }

  /** When no column carries the name yet, the zero-filled column is appended at the end. */
  lemma SetFlagsAppends(cols: seq<Column>, name: Label)
    requires forall k :: 0 <= k < |cols| ==> cols[k].key != name
    ensures SetFlags(cols, name) == cols + [Flags(name)]
  {
  }

  /** Every column labelled `name` becomes a column of flags. */
  function Overwrite(cols: seq<Column>, name: Label): (r: seq<Column>)
    ensures |r| == |cols|
    ensures forall i :: 0 <= i < |r| ==> r[i] == if cols[i].key == name then Flags(name) else cols[i]
    decreases |cols|
  {
    if cols == [] then []
    else [if cols[0].key == name then Flags(name) else cols[0]] + Overwrite(cols[1..], name)
  }

  /** The quality-control loop over the kept columns, in order. */
  function QcLoop(cols: seq<Column>, keys: seq<Label>): (r: seq<Column>)
    ensures |cols| <= |r| <= |cols| + |keys|
    decreases |keys|
  {
    if keys == [] then cols
    else SetFlags(QcLoop(cols, keys[..|keys| - 1]), Some(QcName(keys[|keys| - 1])))
  }

  /** The kept columns, as data columns. */
  function DataColumns(keys: seq<Label>): (r: seq<Column>)
    ensures |r| == |keys| && forall i :: 0 <= i < |keys| ==> r[i] == Data(keys[i])
  {
    seq(|keys|, i requires 0 <= i < |keys| => Data(keys[i]))
  }

  /** One quality-control column per key, in order. */
  function FlagColumns(keys: seq<Label>): (r: seq<Column>)
    ensures |r| == |keys| && forall i :: 0 <= i < |keys| ==> r[i] == Flags(Some(QcName(keys[i])))
  {
    seq(|keys|, i requires 0 <= i < |keys| => Flags(Some(QcName(keys[i]))))
  }

  lemma FlagColumnsSnoc(keys: seq<Label>, m: nat)
    requires 0 < m <= |keys|
    ensures FlagColumns(keys[..m]) == FlagColumns(keys[..m - 1]) + [Flags(Some(QcName(keys[m - 1])))]
  {
  }

  /** No key is the quality-control name of a key, and no two keys share a quality-control name. */
  predicate NoQcClash(keys: seq<Label>) {
    && (forall i, j :: 0 <= i < |keys| && 0 <= j < |keys| ==> keys[i] != Some(QcName(keys[j])))
    && (forall i, j :: 0 <= i < j < |keys| ==> QcName(keys[i]) != QcName(keys[j]))
  }

  /** Before the `m`-th step nothing carries the quality-control name it assigns. */
  lemma QcNameFresh(keys: seq<Label>, m: nat, before: seq<Column>)
    requires 0 < m <= |keys| && NoQcClash(keys)
    requires before == DataColumns(keys) + FlagColumns(keys[..m - 1])
    ensures forall k :: 0 <= k < |before| ==> before[k].key != Some(QcName(keys[m - 1]))
  {
    forall k | 0 <= k < |before|
      ensures before[k].key != Some(QcName(keys[m - 1]))
    {
      if k < |keys| {
        assert before[k] == Data(keys[k]);
      } else {
        assert before[k] == Flags(Some(QcName(keys[k - |keys|])));
      }
    }
  }

  /** A step of the loop whose name is fresh appends its column after those of the earlier steps. */
  lemma QcLoopFreshStep(keys: seq<Label>, m: nat, before: seq<Column>)
    requires 0 < m <= |keys| && before == DataColumns(keys) + FlagColumns(keys[..m - 1])
    requires QcLoop(DataColumns(keys), keys[..m - 1]) == before
    requires forall k :: 0 <= k < |before| ==> before[k].key != Some(QcName(keys[m - 1]))
    ensures QcLoop(DataColumns(keys), keys[..m]) == DataColumns(keys) + FlagColumns(keys[..m])
  {
    var name := Some(QcName(keys[m - 1]));
    assert QcLoop(DataColumns(keys), keys[..m]) == SetFlags(before, name) by {
      assert keys[..m][..m - 1] == keys[..m - 1];
      assert keys[..m][m - 1] == keys[m - 1];
    }
    SetFlagsAppends(before, name);
    FlagColumnsSnoc(keys, m);
    assert before + [Flags(name)] == DataColumns(keys) + FlagColumns(keys[..m]);
  }

  lemma {:induction false} QcLoopPrefix(keys: seq<Label>, m: nat)
    requires m <= |keys| && NoQcClash(keys)
    ensures QcLoop(DataColumns(keys), keys[..m]) == DataColumns(keys) + FlagColumns(keys[..m])
  {
    if m > 0 {
      QcLoopPrefix(keys, m - 1);
      var before := DataColumns(keys) + FlagColumns(keys[..m - 1]);
      QcNameFresh(keys, m, before);
      QcLoopFreshStep(keys, m, before);
    } else {
      assert DataColumns(keys) + FlagColumns(keys[..0]) == DataColumns(keys);
    }
  }

  /**
   * Each kept column gets exactly one quality-control column: when no names clash, the frame is the kept
   * columns followed by their `_QC` columns in the same order.
   */
  lemma QcLoopAppends(keys: seq<Label>)
    requires NoQcClash(keys)
    ensures QcLoop(DataColumns(keys), keys) == DataColumns(keys) + FlagColumns(keys)
  {
    QcLoopPrefix(keys, |keys|);
    assert keys[..|keys|] == keys;
  }

  /** One more turn of the quality-control loop assigns the flags of one more key. */
  lemma QcLoopLast(cols: seq<Column>, keys: seq<Label>, i: nat)
    requires i < |keys|
    ensures QcLoop(cols, keys[..i + 1]) == SetFlags(QcLoop(cols, keys[..i]), Some(QcName(keys[i])))
  {
    assert keys[..i + 1][..i] == keys[..i];
  }

  /** The loop adding a zero-filled `_QC` column for every kept column. */
  method AddQcColumns(keys: seq<Label>) returns (cols: seq<Column>)
    ensures cols == QcLoop(DataColumns(keys), keys)
  {
    cols := DataColumns(keys);
    var i := 0;
    while i < |keys|
      invariant 0 <= i <= |keys|
      invariant cols == QcLoop(DataColumns(keys), keys[..i])
    {
      QcLoopLast(DataColumns(keys), keys, i);
      var name := Some(QcName(keys[i]));
      if exists k :: 0 <= k < |cols| && cols[k].key == name {
        cols := Overwrite(cols, name);
      } else {
        cols := cols + [Flags(name)];
      }
      i := i + 1;
    }
    assert keys[..i] == keys;
  }

  /** The loop gives every key its quality-control column and adds no data column. */
  lemma {:induction false} QcLoopFacts(cols: seq<Column>, keys: seq<Label>)
    ensures forall k :: k in keys ==> Flags(Some(QcName(k))) in QcLoop(cols, keys)
    ensures forall c :: c in QcLoop(cols, keys) && c.Data? ==> c in cols
    decreases |keys|
  {
    if keys != [] {
      var init := keys[..|keys| - 1];
      QcLoopFacts(cols, init);
      var name := Some(QcName(keys[|keys| - 1]));
      var before := QcLoop(cols, init);
      forall k | k in keys
        ensures Flags(Some(QcName(k))) in SetFlags(before, name)
      {
        if k != keys[|keys| - 1] {
          assert k in init;
          assert Flags(Some(QcName(k))) in before;
          assert Flags(Some(QcName(k))).key != name || Flags(Some(QcName(k))) == Flags(name);
        }
      }
    }
  }

  /** Every data column left after the quality-control loop has its `_QC` column beside it. */
  lemma EveryDataColumnFlagged(keys: seq<Label>)
    ensures forall k :: Data(k) in QcLoop(DataColumns(keys), keys) ==> Flags(Some(QcName(k))) in QcLoop(DataColumns(keys), keys)
  {
    QcLoopFacts(DataColumns(keys), keys);
    forall k | Data(k) in QcLoop(DataColumns(keys), keys)
      ensures k in keys
    {
      var i :| 0 <= i < |keys| && DataColumns(keys)[i] == Data(k);
    }
  }
}
