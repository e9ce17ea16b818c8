/**
 * The state of the salary-slip application (src/App.jsx) and the two actions
 * that work on it: `processScan`, which turns the imported rows into the
 * preview list of slips, and `generateBulkPDF`, which draws that list into
 * one PDF document.
 */
module App {
  import opened Wrappers
  import opened JsText
  import opened JsArray
  import opened Records
  import opened Matcher
  import opened Slips
  import opened Layout
  import opened Export

  datatype LogKind = Info | Success | Failure

  /** One line of the activity log; its time of day is not kept. */
  datatype LogEntry = LogEntry(msg: string, kind: LogKind)

  const SystemReady: LogEntry := LogEntry("System ready.", Success)
  const DataOrTargetsMissing: LogEntry := LogEntry("Data source or targets missing.", Failure)
  const NoRecordsFound: LogEntry := LogEntry("No records found for specified targets.", Failure)
  const BatchExported: LogEntry := LogEntry("Batch exported successfully.", Success)

  function SlipsPrepared(count: nat): LogEntry {
    LogEntry("Successfully prepared " + DecimalString(count) + " slips.", Success)
  }

  function RecordsImported(count: nat): LogEntry {
    LogEntry("Imported " + DecimalString(count) + " records.", Success)
  }

  const DefaultSlipHeader: string := "SALARY SLIP"

  /** What a scan leaves behind: the new preview list and the line it logs. */
  datatype ScanOutcome = ScanOutcome(preview: seq<Slip>, log: LogEntry)

  /** `processScan` on the imported rows, the two input strings and the current preview list. */
  function Scan(data: seq<Row>, employeeNames: string, requiredFields: string, preview: seq<Slip>): ScanOutcome {
    if |data| == 0 || employeeNames == "" then ScanOutcome(preview, DataOrTargetsMissing)
    else
      var targets := ParseTargets(employeeNames);
      var matched := MatchRows(data, targets);
      if |matched| == 0 then ScanOutcome([], NoRecordsFound)
      else
        var rowKeys := Keys(matched[0]);
        var requested := RequestedFields(requiredFields);
        var mappings := FieldMappings(rowKeys, data, requested);
        ScanOutcome(BuildSlips(matched, targets, rowKeys, requested, mappings), SlipsPrepared(|matched|))
  }

  /** Without imported rows or without targets, the scan only logs an error; the preview list stays. */
  lemma ScanGuard(data: seq<Row>, employeeNames: string, requiredFields: string, preview: seq<Slip>)
    requires |data| == 0 || employeeNames == ""
    ensures Scan(data, employeeNames, requiredFields, preview) == ScanOutcome(preview, DataOrTargetsMissing)
  {
  }

  /**
   * When no imported row has a value that is a target (and `*` is not one),
   * the scan empties the preview list and logs that nothing was found.
   */
  lemma ScanNoMatch(data: seq<Row>, employeeNames: string, requiredFields: string, preview: seq<Slip>)
    requires |data| > 0 && employeeNames != ""
    requires !IsWildcard(ParseTargets(employeeNames))
    requires forall i :: 0 <= i < |data| ==> !RowMatches(data[i], ParseTargets(employeeNames))
    ensures Scan(data, employeeNames, requiredFields, preview) == ScanOutcome([], NoRecordsFound)
  {
    NoMatchSelectsNothing(data, ParseTargets(employeeNames));
  }

  /**
   * A successful scan makes one slip per selected row, in row order: the
   * k-th slip is named after and filled from the k-th selected row, and the
   * log counts the slips.
   */
  lemma ScanSlipPerRow(data: seq<Row>, employeeNames: string, requiredFields: string, preview: seq<Slip>)
    requires |data| > 0 && employeeNames != ""
    ensures var targets := ParseTargets(employeeNames);
            var matched, out := MatchRows(data, targets), Scan(data, employeeNames, requiredFields, preview);
            |matched| > 0 ==>
              && |out.preview| == |matched|
              && out.log == SlipsPrepared(|matched|)
              && var rowKeys, requested := Keys(matched[0]), RequestedFields(requiredFields);
                 forall k :: 0 <= k < |matched| ==>
                   out.preview[k] == Slip(SlipName(matched[k], targets),
                                          SlipStats(matched[k], rowKeys, requested, FieldMappings(rowKeys, data, requested)))
  {
  }

  /** Under the wildcard every imported row gets a slip, each named after its row's first value. */
  lemma ScanWildcard(data: seq<Row>, employeeNames: string, requiredFields: string, preview: seq<Slip>)
    requires |data| > 0 && employeeNames != ""
    requires IsWildcard(ParseTargets(employeeNames))
    ensures var out := Scan(data, employeeNames, requiredFields, preview);
            && |out.preview| == |data|
            && out.log == SlipsPrepared(|data|)
            && forall k :: 0 <= k < |data| ==>
                 out.preview[k].name == if data[k] == [] || Falsy(data[k][0].1) then Unknown else data[k][0].1
  {
    var targets := ParseTargets(employeeNames);
    forall k | 0 <= k < |data|
      ensures SlipName(data[k], targets) == if data[k] == [] || Falsy(data[k][0].1) then Unknown else data[k][0].1
    {
      WildcardNameIsFirstValue(data[k], targets);
    }
  }

  /**
   * A scan without requested fields lists on every slip each column of the
   * first selected row whose key does not start with `_EMPTY_`, blank-header
   * columns such as `__EMPTY` included, valued from the slip's own row.
   */
  lemma ScanDefaultColumns(data: seq<Row>, employeeNames: string, requiredFields: string, preview: seq<Slip>)
    requires |data| > 0 && employeeNames != "" && RequestedFields(requiredFields) == []
    ensures var matched, out := MatchRows(data, ParseTargets(employeeNames)), Scan(data, employeeNames, requiredFields, preview);
            |matched| > 0 ==>
              forall k, i :: 0 <= k < |matched| && 0 <= i < |Keys(matched[0])| && !StartsWith(Keys(matched[0])[i], "_EMPTY_") ==>
                Stat(Keys(matched[0])[i], Get(matched[k], Keys(matched[0])[i])) in out.preview[k].stats
  {
    var matched := MatchRows(data, ParseTargets(employeeNames));
    if |matched| > 0 {
      var keys := Keys(matched[0]);
      ScanSlipPerRow(data, employeeNames, requiredFields, preview);
      forall k, i | 0 <= k < |matched| && 0 <= i < |keys| && !StartsWith(keys[i], "_EMPTY_")
        ensures Stat(keys[i], Get(matched[k], keys[i])) in DefaultStats(keys, matched[k])
      {
        DefaultStatsKeep(keys, matched[k], i);
      }
    }
  }

  /**
   * Only the set of target tokens matters: two target strings that name the
   * same tokens, in any order and with any repetition or spacing, scan alike.
   */
  lemma ScanTokenOrderIndependent(data: seq<Row>, names1: string, names2: string, requiredFields: string, preview: seq<Slip>)
    requires names1 != "" && names2 != ""
    requires forall t :: t in ParseTargets(names1) <==> t in ParseTargets(names2)
    ensures Scan(data, names1, requiredFields, preview) == Scan(data, names2, requiredFields, preview)
  {
    var t1, t2 := ParseTargets(names1), ParseTargets(names2);
    MatchOrderIndependent(data, t1, t2);
    var matched := MatchRows(data, t1);
    if |data| > 0 && |matched| > 0 {
      var rowKeys, requested := Keys(matched[0]), RequestedFields(requiredFields);
      BuildSlipsOrderIndependent(matched, t1, t2, rowKeys, requested, FieldMappings(rowKeys, data, requested));
    }
  }

  /**
   * `requested.map(...).filter(m => m.matchedKey)`: each request resolved in
   * turn, the resolved ones kept in request order.
   */
  method MapFields(rowKeys: seq<string>, data: seq<Row>, requested: seq<string>) returns (fieldMapping: seq<FieldMapping>)
    ensures fieldMapping == FieldMappings(rowKeys, data, requested)
  {
    fieldMapping := [];
    for i := 0 to |requested|
      invariant fieldMapping == FieldMappings(rowKeys, data, requested[..i])
    {
      var m := ResolveFieldLoop(rowKeys, data, requested[i]);
      FieldMappingsStep(rowKeys, data, requested, i);
      if IsResolved(m) {
        fieldMapping := fieldMapping + [m];
      }
    }
    assert requested[..|requested|] == requested;
  }

  /** The application state the two actions read and update. */
  class AppState {
    var excelData: seq<Row>
    var employeeNames: string
    var requiredFields: string
    var slipHeader: string
    var previewList: seq<Slip>
    var logs: seq<LogEntry>

    /** The initial state: nothing imported, empty inputs, the default header, one log line. */
    constructor ()
      ensures excelData == [] && employeeNames == "" && requiredFields == ""
      ensures slipHeader == DefaultSlipHeader && previewList == [] && logs == [SystemReady]
    {
      excelData := [];
      employeeNames := "";
      requiredFields := "";
      slipHeader := DefaultSlipHeader;
      previewList := [];
      logs := [SystemReady];
    }

    /** The state update of a successful import: the rows replace the old ones and their number is logged. */
    method ImportRecords(rows: seq<Row>)
      modifies this
      ensures excelData == rows && logs == old(logs) + [RecordsImported(|rows|)]
      ensures employeeNames == old(employeeNames) && requiredFields == old(requiredFields)
      ensures slipHeader == old(slipHeader) && previewList == old(previewList)
    {
      excelData := rows;
      logs := logs + [RecordsImported(|rows|)];
    }

    /**
     * `processScan`: the guard, the row selection, the field mapping (each
     * request resolved by the exact-key search and then the value-search
     * loop), and the slips. The new preview list and log line are those of
     * `Scan`; nothing else changes.
     */
    method ProcessScan()
      modifies this
      ensures var out := Scan(old(excelData), old(employeeNames), old(requiredFields), old(previewList));
              previewList == out.preview && logs == old(logs) + [out.log]
      ensures excelData == old(excelData) && employeeNames == old(employeeNames)
      ensures requiredFields == old(requiredFields) && slipHeader == old(slipHeader)
    {
      if |excelData| == 0 || employeeNames == "" {
        logs := logs + [DataOrTargetsMissing];
        return;
      }
      var targets := ParseTargets(employeeNames);
      var matchedRows := MatchRows(excelData, targets);
      if |matchedRows| == 0 {
        logs := logs + [NoRecordsFound];
        previewList := [];
        return;
      }
      var rowKeys := Keys(matchedRows[0]);
      var requested := RequestedFields(requiredFields);
      var fieldMapping := MapFields(rowKeys, excelData, requested);
      previewList := BuildSlips(matchedRows, targets, rowKeys, requested, fieldMapping);
      logs := logs + [SlipsPrepared(|matchedRows|)];
    }

    /**
     * `generateBulkPDF`: nothing happens when the preview list is empty or
     * the PDF library is not loaded; otherwise a fresh document gets one page
     * per slip, is saved once under the batch name, and the export is logged.
     */
    method GenerateBulkPdf(pdfLibraryLoaded: bool, headerLines: nat, isoTimestamp: string) returns (doc: PdfDocument?)
      modifies this
      ensures excelData == old(excelData) && employeeNames == old(employeeNames) && requiredFields == old(requiredFields)
      ensures slipHeader == old(slipHeader) && previewList == old(previewList)
      ensures |previewList| == 0 || !pdfLibraryLoaded ==> doc == null && logs == old(logs)
      ensures |previewList| > 0 && pdfLibraryLoaded ==>
                && doc != null && fresh(doc)
                && doc.pages == BulkPages(previewList, slipHeader, headerLines)
                && doc.savedAs == [BatchFileName(isoTimestamp)]
                && logs == old(logs) + [BatchExported]
    {
      if |previewList| == 0 || !pdfLibraryLoaded {
        return null;
      }
      doc := new PdfDocument();
      var total := |previewList|;
      for index := 0 to total
        modifies doc
        invariant doc.Valid() && doc.savedAs == []
        invariant index == 0 ==> doc.pages == [[]]
        invariant index > 0 ==> doc.pages == BulkPages(previewList, slipHeader, headerLines)[..index]
      {
        ghost var before := doc.pages;
        CreateEmployeeDoc(doc, previewList[index], index, total, slipHeader, headerLines);
        DrawnOnFreshPage(before, PageOps(previewList[index], index, total, slipHeader, headerLines));
        assert BulkPages(previewList, slipHeader, headerLines)[..index + 1]
            == BulkPages(previewList, slipHeader, headerLines)[..index] + [PageOps(previewList[index], index, total, slipHeader, headerLines)];
      }
      assert BulkPages(previewList, slipHeader, headerLines)[..total] == BulkPages(previewList, slipHeader, headerLines);
      doc.Save(BatchFileName(isoTimestamp));
      logs := logs + [BatchExported];
    }
  }
}
