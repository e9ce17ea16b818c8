/**
 * The slip builder of `processScan` (src/App.jsx): one `{name, stats}` value
 * per selected row.
 */
module Slips {
  import opened Wrappers
  import opened JsText
  import opened JsArray
  import opened Records
  import opened Matcher

  /** One line of a slip: its label and the cell it shows (`None` when the row lacks the column). */
  datatype Stat = Stat(caption: string, val: Option<Cell>)

  datatype Slip = Slip(name: Cell, stats: seq<Stat>)

  const Unknown: Cell := Text("Unknown")

  /** A value that may serve as the slip's name: any value under the wildcard, else a qualifying one. */
  predicate NameQualifies(v: Cell, targets: seq<string>) {
    IsWildcard(targets) || Qualifies(v, targets)
  }

  function NameTest(targets: seq<string>): Entry -> bool {
    (e: Entry) => NameQualifies(e.1, targets)
  }

  /** `Object.values(row).find(...)`, as the position found: the first value that may serve as the name. */
  function NameIndex(row: Row, targets: seq<string>): (r: Option<nat>)
    ensures r.Some? ==> r.value < |row| && NameQualifies(row[r.value].1, targets)
    ensures r.Some? ==> forall j :: 0 <= j < r.value ==> !NameQualifies(row[j].1, targets)
    ensures r.None? <==> forall j :: 0 <= j < |row| ==> !NameQualifies(row[j].1, targets)
  {
    FindIndex(row, NameTest(targets))
  }

  /** `Object.values(row).find(...) || "Unknown"`. */
  function SlipName(row: Row, targets: seq<string>): Cell {
    match NameIndex(row, targets)
    case None => Unknown
    case Some(i) => if Falsy(row[i].1) then Unknown else row[i].1
  }

  /**
   * The name is the first value in column order that may serve as one,
   * unless that value is falsy; it is "Unknown" when there is none.
   */
  lemma SlipNameSpec(row: Row, targets: seq<string>, i: nat)
    requires i < |row| && NameQualifies(row[i].1, targets)
    requires forall j :: 0 <= j < i ==> !NameQualifies(row[j].1, targets)
    ensures SlipName(row, targets) == if Falsy(row[i].1) then Unknown else row[i].1
  {
    FindIndexAt(row, NameTest(targets), i);
  }

  lemma NoNameIsUnknown(row: Row, targets: seq<string>)
    requires forall j :: 0 <= j < |row| ==> !NameQualifies(row[j].1, targets)
    ensures SlipName(row, targets) == Unknown
  {
  }

  /** Under the wildcard the name is the row's first value, unless the row is empty or that value is falsy. */
  lemma WildcardNameIsFirstValue(row: Row, targets: seq<string>)
    requires IsWildcard(targets)
    ensures SlipName(row, targets) == if row == [] || Falsy(row[0].1) then Unknown else row[0].1
  {
  }

  /** The name depends only on which tokens are targets. */
  lemma SlipNameOrderIndependent(row: Row, t1: seq<string>, t2: seq<string>)
    requires forall x :: x in t1 <==> x in t2
    ensures SlipName(row, t1) == SlipName(row, t2)
  {
    assert forall v :: NameQualifies(v, t1) == NameQualifies(v, t2);
    match NameIndex(row, t1)
    case None =>
    case Some(i) =>
      SlipNameSpec(row, t2, i);
  }

  /** The column test as line 279 writes it: `k.startsWith('_EMPTY_')`. */
  predicate StartsWithEmptyMarker(k: string) {
    StartsWith(k, "_EMPTY_")
  }

  /** A column a default slip shows, as line 279 decides it. */
  predicate IsDataColumn(k: string) {
    !StartsWithEmptyMarker(k)
  }

  /**
   * A placeholder column: one the test of line 279 excludes, or one named
   * `__EMPTY`, `__EMPTY_1`, ... — the names the spreadsheet importer gives
   * columns whose header cell is blank.
   */
  predicate IsPlaceholderKey(k: string) {
    StartsWithEmptyMarker(k) || StartsWith(k, "__EMPTY")
  }

  /** The columns the test of line 279 is evidently meant to keep. */
  predicate IsIntendedDataColumn(k: string) {
    !IsPlaceholderKey(k)
  }

  /** `rowKeys.filter(keep).map(k => ({ label: k, val: row[k] }))`. */
  function KeyStats(rowKeys: seq<string>, row: Row, keep: string -> bool): seq<Stat> {
    var columns := Filter(rowKeys, keep);
    seq(|columns|, i requires 0 <= i < |columns| => Stat(columns[i], Get(row, columns[i])))
  }

  /** The stats of a slip without requested fields, as line 279 computes them. */
  function DefaultStats(rowKeys: seq<string>, row: Row): seq<Stat> {
    KeyStats(rowKeys, row, IsDataColumn)
  }

  /** The same with the evidently intended column test, which also drops blank-header columns. */
  function IntendedDefaultStats(rowKeys: seq<string>, row: Row): seq<Stat> {
    KeyStats(rowKeys, row, IsIntendedDataColumn)
  }

  /**
   * The kept-key stats list exactly the keys that pass the test, in key
   * order, each with this row's value under it.
   */
  lemma KeyStatsOrder(rowKeys: seq<string>, row: Row, keep: string -> bool)
    ensures var stats, idx := KeyStats(rowKeys, row, keep), FilterIndices(rowKeys, keep);
            && |idx| == |stats|
            && (forall k :: 0 <= k < |idx| ==> idx[k] < |rowKeys| && stats[k] == Stat(rowKeys[idx[k]], Get(row, rowKeys[idx[k]])))
            && (forall k, l :: 0 <= k < l < |idx| ==> idx[k] < idx[l])
            && (forall i :: 0 <= i < |rowKeys| ==> (i in idx <==> keep(rowKeys[i])))
  {
    FilterByIndices(rowKeys, keep);
  }

  /**
   * As written, a column the importer calls `__EMPTY` (a blank header) is
   * not excluded: it shows up on the slip.
   */
  lemma AsWrittenKeepsBlankHeaderColumn(row: Row)
    ensures DefaultStats(["__EMPTY"], row) == [Stat("__EMPTY", Get(row, "__EMPTY"))]
    ensures DefaultStats(["__EMPTY_1"], row) == [Stat("__EMPTY_1", Get(row, "__EMPTY_1"))]
  {
    assert "__EMPTY"[..7][1] != "_EMPTY_"[1];
    assert "__EMPTY_1"[..7][1] != "_EMPTY_"[1];
    var none: seq<string> := [];
    assert ["__EMPTY"][..0] == none && ["__EMPTY_1"][..0] == none;
  }

  /**
   * The default stats list the columns of the first matched row, in key
   * order: exactly the keys that do not start with `_EMPTY_`, each with this
   * row's value under it.
   */
  lemma DefaultStatsOrder(rowKeys: seq<string>, row: Row)
    ensures var stats, idx := DefaultStats(rowKeys, row), FilterIndices(rowKeys, IsDataColumn);
            && |idx| == |stats|
            && (forall k :: 0 <= k < |idx| ==> idx[k] < |rowKeys| && stats[k] == Stat(rowKeys[idx[k]], Get(row, rowKeys[idx[k]])))
            && (forall k, l :: 0 <= k < l < |idx| ==> idx[k] < idx[l])
            && (forall i :: 0 <= i < |rowKeys| ==> (i in idx <==> !StartsWith(rowKeys[i], "_EMPTY_")))
  {
    KeyStatsOrder(rowKeys, row, IsDataColumn);
  }

  /** Every key that does not start with `_EMPTY_` gets a default stat, with this row's value under it. */
  lemma DefaultStatsKeep(rowKeys: seq<string>, row: Row, i: nat)
    requires i < |rowKeys| && !StartsWith(rowKeys[i], "_EMPTY_")
    ensures Stat(rowKeys[i], Get(row, rowKeys[i])) in DefaultStats(rowKeys, row)
  {
    var idx := FilterIndices(rowKeys, IsDataColumn);
    DefaultStatsOrder(rowKeys, row);
    var k :| 0 <= k < |idx| && idx[k] == i;
    assert DefaultStats(rowKeys, row)[k] == Stat(rowKeys[i], Get(row, rowKeys[i]));
  }

  /**
   * With the intended test, no placeholder column, neither a marked one nor
   * a blank header, reaches a default slip, and every other column does.
   */
  lemma IntendedDefaultStatsOmitPlaceholders(rowKeys: seq<string>, row: Row)
    ensures forall s :: s in IntendedDefaultStats(rowKeys, row) ==>
              !StartsWith(s.caption, "_EMPTY_") && !StartsWith(s.caption, "__EMPTY")
    ensures forall i :: 0 <= i < |rowKeys| && !StartsWith(rowKeys[i], "_EMPTY_") && !StartsWith(rowKeys[i], "__EMPTY") ==>
              Stat(rowKeys[i], Get(row, rowKeys[i])) in IntendedDefaultStats(rowKeys, row)
  {
    var stats := IntendedDefaultStats(rowKeys, row);
    var idx := FilterIndices(rowKeys, IsIntendedDataColumn);
    KeyStatsOrder(rowKeys, row, IsIntendedDataColumn);
    forall s | s in stats
      ensures !StartsWith(s.caption, "_EMPTY_") && !StartsWith(s.caption, "__EMPTY")
    {
      var k :| 0 <= k < |stats| && stats[k] == s;
      assert idx[k] in idx;
    }
    forall i | 0 <= i < |rowKeys| && !StartsWith(rowKeys[i], "_EMPTY_") && !StartsWith(rowKeys[i], "__EMPTY")
      ensures Stat(rowKeys[i], Get(row, rowKeys[i])) in stats
    {
      assert i in idx;
      var k :| 0 <= k < |idx| && idx[k] == i;
      assert stats[k] == Stat(rowKeys[i], Get(row, rowKeys[i]));
    }
  }

  /** On the row the keys come from, every kept-key stat carries that row's own value. */
  lemma KeyStatsPresent(row: Row, keep: string -> bool)
    requires WellFormed(row)
    ensures forall s :: s in KeyStats(Keys(row), row, keep) ==>
              exists i :: 0 <= i < |row| && s == Stat(row[i].0, Some(row[i].1))
  {
    var keys := Keys(row);
    KeyStatsOrder(keys, row, keep);
    var idx := FilterIndices(keys, keep);
    var stats := KeyStats(keys, row, keep);
    forall s | s in stats ensures exists i :: 0 <= i < |row| && s == Stat(row[i].0, Some(row[i].1)) {
      var k :| 0 <= k < |stats| && stats[k] == s;
      var i := idx[k];
      assert i < |row| && keys[i] == row[i].0;
      assert Get(row, row[i].0) == Some(row[i].1);
      assert s == Stat(row[i].0, Some(row[i].1));
    }
  }

  /** On the row the keys come from, every default stat carries that row's own value. */
  lemma FirstRowStatsPresent(row: Row)
    requires WellFormed(row)
    ensures forall s :: s in DefaultStats(Keys(row), row) ==>
              exists i :: 0 <= i < |row| && s == Stat(row[i].0, Some(row[i].1))
  {
    KeyStatsPresent(row, IsDataColumn);
  }

  /** `row[m.matchedKey]` for a resolved mapping. */
  function MappedValue(row: Row, m: FieldMapping): Option<Cell> {
    if m.matchedKey.Some? then Get(row, m.matchedKey.value) else None
  }

  /** The stats of a slip with requested fields: one per surviving mapping, in mapping order. */
  function MappedStats(row: Row, mappings: seq<FieldMapping>): seq<Stat> {
    seq(|mappings|, i requires 0 <= i < |mappings| => Stat(mappings[i].displayLabel, MappedValue(row, mappings[i])))
  }

  function SlipStats(row: Row, rowKeys: seq<string>, requested: seq<string>, mappings: seq<FieldMapping>): seq<Stat> {
    if |requested| > 0 then MappedStats(row, mappings) else DefaultStats(rowKeys, row)
  }

  /** `matchedRows.map(row => ({ name, stats }))`. */
  function BuildSlips(matched: seq<Row>, targets: seq<string>, rowKeys: seq<string>,
                      requested: seq<string>, mappings: seq<FieldMapping>): seq<Slip>
  {
    seq(|matched|, i requires 0 <= i < |matched| =>
      Slip(SlipName(matched[i], targets), SlipStats(matched[i], rowKeys, requested, mappings)))
  }

  /** The slips depend on the targets only through the set of tokens. */
  lemma BuildSlipsOrderIndependent(matched: seq<Row>, t1: seq<string>, t2: seq<string>, rowKeys: seq<string>,
                                   requested: seq<string>, mappings: seq<FieldMapping>)
    requires forall x :: x in t1 <==> x in t2
    ensures BuildSlips(matched, t1, rowKeys, requested, mappings) == BuildSlips(matched, t2, rowKeys, requested, mappings)
  {
    forall k | 0 <= k < |matched| ensures SlipName(matched[k], t1) == SlipName(matched[k], t2) {
      SlipNameOrderIndependent(matched[k], t1, t2);
    }
  }

  /**
   * With requested fields, each slip lists the surviving mappings in request
   * order, labelled as resolved and valued from its own row; every slip has
   * the same labels.
   */
  lemma MappedStatsFollowRequests(rowKeys: seq<string>, data: seq<Row>, requested: seq<string>, row: Row)
    requires |requested| > 0
    ensures var mappings := FieldMappings(rowKeys, data, requested);
            var stats := SlipStats(row, rowKeys, requested, mappings);
            var idx := FilterIndices(Resolutions(rowKeys, data, requested), IsResolved);
            && |stats| == |idx|
            && forall k :: 0 <= k < |stats| ==>
                 && idx[k] < |requested|
                 && var m := ResolveField(rowKeys, data, requested[idx[k]]);
                    stats[k] == Stat(m.displayLabel, MappedValue(row, m))
  {
    FieldMappingsOrder(rowKeys, data, requested);
  }
}
