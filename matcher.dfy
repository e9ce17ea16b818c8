/**
 * The record matcher of `processScan` (src/App.jsx): which rows a scan
 * selects, and which column each requested field is read from.
 */
module Matcher {
  import opened Wrappers
  import opened JsText
  import opened JsArray
  import opened Records

  /** The target token that selects every row. */
  const Wildcard: string := "*"

  predicate NonEmpty(s: string) {
    s != ""
  }

  /** The comma-separated pieces of the target list, trimmed and lower-cased, empty ones dropped. */
  function ParseTargets(employeeNames: string): seq<string> {
    var pieces := Split(employeeNames, ',');
    Filter(seq(|pieces|, i requires 0 <= i < |pieces| => Normalize(pieces[i])), NonEmpty)
  }

  /** Every target token is non-empty and already in normal form. */
  lemma TargetsAreNormal(employeeNames: string)
    ensures forall t :: t in ParseTargets(employeeNames) ==> t != "" && Normalize(t) == t
  {
    var pieces := Split(employeeNames, ',');
    forall t | t in ParseTargets(employeeNames) ensures t != "" && Normalize(t) == t {
      ParseTargetsExact(employeeNames, t);
      var p :| p in pieces && Normalize(p) == t;
      NormalizeIdempotent(p);
    }
  }

  /** A token is a target exactly when it is the non-empty normal form of some comma-separated piece. */
  lemma ParseTargetsExact(employeeNames: string, t: string)
    ensures t in ParseTargets(employeeNames) <==>
            t != "" && exists p :: p in Split(employeeNames, ',') && Normalize(p) == t
  {
    var pieces := Split(employeeNames, ',');
    var normal := seq(|pieces|, i requires 0 <= i < |pieces| => Normalize(pieces[i]));
    FilterByIndices(normal, NonEmpty);
    if t != "" && exists p :: p in pieces && Normalize(p) == t {
      var p :| p in pieces && Normalize(p) == t;
      var i :| 0 <= i < |pieces| && pieces[i] == p;
      assert normal[i] == t;
      var k :| 0 <= k < |FilterIndices(normal, NonEmpty)| && FilterIndices(normal, NonEmpty)[k] == i;
      assert ParseTargets(employeeNames)[k] == t;
    }
    if t in ParseTargets(employeeNames) {
      var i :| 0 <= i < |normal| && normal[i] == t;
      assert pieces[i] in pieces && Normalize(pieces[i]) == t;
    }
  }

  predicate IsWildcard(targets: seq<string>) {
    Wildcard in targets
  }

  /** `targets.includes(String(val).trim().toLowerCase())`. */
  predicate Qualifies(v: Cell, targets: seq<string>) {
    Normalize(CellString(v)) in targets
  }

  /** Some value of the row qualifies. */
  predicate RowMatches(row: Row, targets: seq<string>) {
    exists i :: 0 <= i < |row| && Qualifies(row[i].1, targets)
  }

  function RowMatchesTargets(targets: seq<string>): Row -> bool {
    (row: Row) => RowMatches(row, targets)
  }

  /** The rows a scan selects. */
  function MatchRows(data: seq<Row>, targets: seq<string>): (matched: seq<Row>)
    ensures IsWildcard(targets) ==> matched == data
    ensures forall k :: 0 <= k < |matched| ==> IsWildcard(targets) || RowMatches(matched[k], targets)
  {
    if IsWildcard(targets) then data else Filter(data, RowMatchesTargets(targets))
  }

  /** The positions in `data` of the selected rows. */
  function MatchIndices(data: seq<Row>, targets: seq<string>): seq<nat> {
    if IsWildcard(targets) then seq(|data|, i => i) else FilterIndices(data, RowMatchesTargets(targets))
  }

  /**
   * The selected rows are the imported rows in their original order: all of
   * them under the wildcard, otherwise exactly those with a qualifying value.
   */
  lemma MatchRowsOrder(data: seq<Row>, targets: seq<string>)
    ensures var m, idx := MatchRows(data, targets), MatchIndices(data, targets);
            && |idx| == |m|
            && (forall k :: 0 <= k < |idx| ==> idx[k] < |data| && m[k] == data[idx[k]])
            && (forall k, l :: 0 <= k < l < |idx| ==> idx[k] < idx[l])
            && (forall i :: 0 <= i < |data| ==> (i in idx <==> IsWildcard(targets) || RowMatches(data[i], targets)))
  {
    if !IsWildcard(targets) {
      FilterByIndices(data, RowMatchesTargets(targets));
    } else {
      var idx := MatchIndices(data, targets);
      forall i | 0 <= i < |data| ensures i in idx {
        assert idx[i] == i;
      }
    }
  }

  /** Without the wildcard, a scan where no row has a qualifying value selects nothing. */
  lemma NoMatchSelectsNothing(data: seq<Row>, targets: seq<string>)
    requires !IsWildcard(targets)
    requires forall i :: 0 <= i < |data| ==> !RowMatches(data[i], targets)
    ensures MatchRows(data, targets) == []
  {
    FilterNone(data, RowMatchesTargets(targets));
  }

  /** Selection depends only on which tokens are targets, not on their order or repetition. */
  lemma MatchOrderIndependent(data: seq<Row>, t1: seq<string>, t2: seq<string>)
    requires forall x :: x in t1 <==> x in t2
    ensures MatchRows(data, t1) == MatchRows(data, t2)
  {
    assert IsWildcard(t1) == IsWildcard(t2);
    forall i | 0 <= i < |data| ensures RowMatchesTargets(t1)(data[i]) == RowMatchesTargets(t2)(data[i]) {
      assert RowMatches(data[i], t1) == RowMatches(data[i], t2);
    }
    FilterCongruence(data, RowMatchesTargets(t1), RowMatchesTargets(t2));
  }

  /** The comma-separated pieces of the field list, trimmed (case kept), empty ones dropped. */
  function RequestedFields(requiredFields: string): seq<string> {
    var pieces := Split(requiredFields, ',');
    Filter(seq(|pieces|, i requires 0 <= i < |pieces| => Trim(pieces[i])), NonEmpty)
  }

  /**
   * The requested fields are the trimmed comma-separated pieces of the field
   * list, in piece order and with repeats kept, empty ones dropped: the k-th
   * request is the trim of the piece at the k-th of a strictly increasing
   * list of positions, and a position is in that list exactly when its piece
   * does not trim to the empty string.
   */
  lemma RequestedFieldsSpec(requiredFields: string)
    ensures var pieces, requested := Split(requiredFields, ','), RequestedFields(requiredFields);
            var idx := FilterIndices(seq(|pieces|, i requires 0 <= i < |pieces| => Trim(pieces[i])), NonEmpty);
            && |requested| == |idx|
            && (forall k :: 0 <= k < |idx| ==> idx[k] < |pieces| && requested[k] == Trim(pieces[idx[k]]))
            && (forall k, l :: 0 <= k < l < |idx| ==> idx[k] < idx[l])
            && (forall i :: 0 <= i < |pieces| ==> (i in idx <==> Trim(pieces[i]) != ""))
            && (forall k :: 0 <= k < |requested| ==> requested[k] != "" && IsTrimmed(requested[k]))
  {
    var pieces := Split(requiredFields, ',');
    var trimmed := seq(|pieces|, i requires 0 <= i < |pieces| => Trim(pieces[i]));
    FilterByIndices(trimmed, NonEmpty);
    var requested := RequestedFields(requiredFields);
    var idx := FilterIndices(trimmed, NonEmpty);
    forall k | 0 <= k < |requested| ensures requested[k] != "" && IsTrimmed(requested[k]) {
      TrimSpec(pieces[idx[k]]);
    }
  }

  /** A resolved field: the column it is read from (`None` for undefined) and its label. */
  datatype FieldMapping = FieldMapping(matchedKey: Option<string>, displayLabel: string)

  /** The mapping survives `.filter(m => m.matchedKey)`: its key is defined and not the empty string. */
  predicate IsResolved(m: FieldMapping) {
    m.matchedKey.Some? && m.matchedKey.value != ""
  }

  function KeyMatches(searchStr: string): string -> bool {
    (k: string) => Normalize(k) == searchStr
  }

  /** `rowKeys.find(k => k.trim().toLowerCase() === searchStr)`, as the position found. */
  function ExactKey(rowKeys: seq<string>, searchStr: string): (r: Option<nat>)
    ensures r.Some? ==> r.value < |rowKeys| && Normalize(rowKeys[r.value]) == searchStr
    ensures r.Some? ==> forall j :: 0 <= j < r.value ==> Normalize(rowKeys[j]) != searchStr
    ensures r.None? <==> forall j :: 0 <= j < |rowKeys| ==> Normalize(rowKeys[j]) != searchStr
  {
    FindIndex(rowKeys, KeyMatches(searchStr))
  }

  /** The cell of the entry, trimmed and lower-cased, is the search string. */
  predicate EntryMatches(e: Entry, searchStr: string) {
    Normalize(CellString(e.1)) == searchStr
  }

  function EntryMatchesSearch(searchStr: string): Entry -> bool {
    (e: Entry) => EntryMatches(e, searchStr)
  }

  /** `Object.entries(row).find(([key, val]) => ...)`, as the position found. */
  function EntryMatch(row: Row, searchStr: string): (r: Option<nat>)
    ensures r.Some? ==> r.value < |row| && EntryMatches(row[r.value], searchStr)
    ensures r.Some? ==> forall j :: 0 <= j < r.value ==> !EntryMatches(row[j], searchStr)
    ensures r.None? <==> forall j :: 0 <= j < |row| ==> !EntryMatches(row[j], searchStr)
  {
    FindIndex(row, EntryMatchesSearch(searchStr))
  }

  function EntryMatchIn(searchStr: string): Row -> Option<nat> {
    (row: Row) => EntryMatch(row, searchStr)
  }

  /**
   * The value search over all imported rows: the first row where the entry
   * search succeeds, with the entry it finds there.
   */
  function ValueSearch(data: seq<Row>, searchStr: string): Option<(nat, nat)> {
    FirstFound(data, EntryMatchIn(searchStr), 0)
  }

  /**
   * One requested field resolved: a key of the first matched row first,
   * otherwise the column of the first matching cell among all imported rows,
   * labelled with that cell's trimmed text.
   */
  function ResolveField(rowKeys: seq<string>, data: seq<Row>, req: string): FieldMapping {
    var searchStr := ToLower(req);
    var exact := ExactKey(rowKeys, searchStr);
    var matchedKey := if exact.Some? then Some(rowKeys[exact.value]) else None;
    if matchedKey.Some? && matchedKey.value != "" then FieldMapping(matchedKey, req)
    else match ValueSearch(data, searchStr)
      case Some((r, j)) => FieldMapping(Some(data[r][j].0), Trim(CellString(data[r][j].1)))
      case None => FieldMapping(matchedKey, req)
  }

  /** The first key whose normal form is the lower-cased request wins, labelled with the request itself. */
  lemma ResolveByExactKey(rowKeys: seq<string>, data: seq<Row>, req: string, i: nat)
    requires req != ""
    requires i < |rowKeys| && Normalize(rowKeys[i]) == ToLower(req)
    requires forall j :: 0 <= j < i ==> Normalize(rowKeys[j]) != ToLower(req)
    ensures ResolveField(rowKeys, data, req) == FieldMapping(Some(rowKeys[i]), req)
  {
    var exact := ExactKey(rowKeys, ToLower(req));
    assert exact == Some(i);
    NormalizeSpec(rowKeys[i]);
  }

  /**
   * With no matching key, the field is read from the column of the first
   * matching cell of the first imported row that has one, and labelled with
   * that cell's trimmed, original-case text.
   */
  lemma ResolveByValueSearch(rowKeys: seq<string>, data: seq<Row>, req: string, r: nat, j: nat)
    requires forall k :: 0 <= k < |rowKeys| ==> Normalize(rowKeys[k]) != ToLower(req)
    requires r < |data| && j < |data[r]| && EntryMatches(data[r][j], ToLower(req))
    requires forall i, j' :: 0 <= i < r && 0 <= j' < |data[i]| ==> !EntryMatches(data[i][j'], ToLower(req))
    requires forall j' :: 0 <= j' < j ==> !EntryMatches(data[r][j'], ToLower(req))
    ensures ResolveField(rowKeys, data, req) == FieldMapping(Some(data[r][j].0), Trim(CellString(data[r][j].1)))
  {
    ValueSearchAt(data, ToLower(req), r, j);
  }

  /** The value search stops at the first matching cell of the first row that has one. */
  lemma ValueSearchAt(data: seq<Row>, searchStr: string, r: nat, j: nat)
    requires r < |data| && j < |data[r]| && EntryMatches(data[r][j], searchStr)
    requires forall i, j' :: 0 <= i < r && 0 <= j' < |data[i]| ==> !EntryMatches(data[i][j'], searchStr)
    requires forall j' :: 0 <= j' < j ==> !EntryMatches(data[r][j'], searchStr)
    ensures ValueSearch(data, searchStr) == Some((r, j))
  {
    var search := EntryMatchIn(searchStr);
    forall i | 0 <= i < r ensures search(data[i]).None? {
      assert forall j' :: 0 <= j' < |data[i]| ==> !EntryMatches(data[i][j'], searchStr);
    }
    assert search(data[r]) == Some(j);
    FirstFoundAt(data, search, r, j);
  }

  /** A request that matches no key and no cell is dropped. */
  lemma UnmatchedRequestDropped(rowKeys: seq<string>, data: seq<Row>, req: string)
    requires forall k :: 0 <= k < |rowKeys| ==> Normalize(rowKeys[k]) != ToLower(req)
    requires forall i, j :: 0 <= i < |data| && 0 <= j < |data[i]| ==> !EntryMatches(data[i][j], ToLower(req))
    ensures !IsResolved(ResolveField(rowKeys, data, req))
  {
    assert ExactKey(rowKeys, ToLower(req)).None?;
    assert ValueSearch(data, ToLower(req)).None?;
  }

  /**
   * A resolved field is labelled with the request up to case, and is read
   * either from a key of the first matched row or from a column of some
   * imported row whose cell there matches the request.
   */
  lemma ResolvedFieldSound(rowKeys: seq<string>, data: seq<Row>, req: string)
    requires IsTrimmed(req)
    ensures var m := ResolveField(rowKeys, data, req);
            IsResolved(m) ==>
              && ToLower(m.displayLabel) == ToLower(req)
              && ((m.matchedKey.value in rowKeys && Normalize(m.matchedKey.value) == ToLower(req))
                  || exists i, j :: 0 <= i < |data| && 0 <= j < |data[i]| && data[i][j].0 == m.matchedKey.value
                                    && EntryMatches(data[i][j], ToLower(req)))
  {
    var m := ResolveField(rowKeys, data, req);
    var exact := ExactKey(rowKeys, ToLower(req));
    if exact.Some? && rowKeys[exact.value] != "" {
      assert m.matchedKey.value == rowKeys[exact.value];
    } else {
      var found := ValueSearch(data, ToLower(req));
      if found.Some? {
        var (r, j) := found.value;
        var trimmed := Trim(CellString(data[r][j].1));
        assert ToLower(trimmed) == Normalize(CellString(data[r][j].1));
      }
    }
  }

  /** The resolution of one request against the first selected row's keys and all imported rows. */
  function Resolver(rowKeys: seq<string>, data: seq<Row>): string -> FieldMapping {
    (req: string) => ResolveField(rowKeys, data, req)
  }

  /** `requested.map(req => ...)` before the filter. */
  function Resolutions(rowKeys: seq<string>, data: seq<Row>, requested: seq<string>): seq<FieldMapping> {
    Map(requested, Resolver(rowKeys, data))
  }

  /** The field mapping: each request resolved, the unresolved ones dropped. */
  function FieldMappings(rowKeys: seq<string>, data: seq<Row>, requested: seq<string>): (mapping: seq<FieldMapping>)
    ensures forall k :: 0 <= k < |mapping| ==> IsResolved(mapping[k])
  {
    Filter(Resolutions(rowKeys, data, requested), IsResolved)
  }

  /**
   * The surviving mappings are the resolutions of the requests, in request
   * order, of exactly the requests that resolve.
   */
  lemma FieldMappingsOrder(rowKeys: seq<string>, data: seq<Row>, requested: seq<string>)
    ensures var m, idx := FieldMappings(rowKeys, data, requested), FilterIndices(Resolutions(rowKeys, data, requested), IsResolved);
            && |idx| == |m|
            && (forall k :: 0 <= k < |idx| ==> idx[k] < |requested| && m[k] == ResolveField(rowKeys, data, requested[idx[k]]))
            && (forall k, l :: 0 <= k < l < |idx| ==> idx[k] < idx[l])
            && (forall i :: 0 <= i < |requested| ==> (i in idx <==> IsResolved(ResolveField(rowKeys, data, requested[i]))))
  {
    FilterByIndices(Resolutions(rowKeys, data, requested), IsResolved);
  }

  /** Resolving one more request appends its mapping when it resolves. */
  lemma FieldMappingsStep(rowKeys: seq<string>, data: seq<Row>, requested: seq<string>, i: nat)
    requires i < |requested|
    ensures var m := ResolveField(rowKeys, data, requested[i]);
            FieldMappings(rowKeys, data, requested[..i + 1])
              == FieldMappings(rowKeys, data, requested[..i]) + (if IsResolved(m) then [m] else [])
  {
    FilterMapStep(requested, Resolver(rowKeys, data), IsResolved, i);
  }

  /**
   * The resolution of one request as `processScan` runs it: the exact-key
   * `find`, then, when that leaves the key undefined, the loop over all
   * imported rows that stops at the first row holding a matching cell, whose
   * entry supplies both the key and the label.
   */
  method ResolveFieldLoop(rowKeys: seq<string>, data: seq<Row>, req: string) returns (m: FieldMapping)
    ensures m == ResolveField(rowKeys, data, req)
  {
    var searchStr := ToLower(req);
    var exact := ExactKey(rowKeys, searchStr);
    var matchedKey := if exact.Some? then Some(rowKeys[exact.value]) else None;
    var displayLabel := req;
    if !(matchedKey.Some? && matchedKey.value != "") {
      var found := FirstFoundLoop(data, EntryMatchIn(searchStr));
      if found.Some? {
        var (r, j) := found.value;
        matchedKey := Some(data[r][j].0);
        displayLabel := Trim(CellString(data[r][j].1));
      }
    }
    m := FieldMapping(matchedKey, displayLabel);
  }
}
