/**
 * The PDF export of src/App.jsx: the document the slips are drawn into, the
 * page `createEmployeeDoc` draws for one slip with its vertical cursor, and
 * the file name of the batch.
 */
module Export {
  import opened JsText
  import opened Records
  import opened Slips
  import opened Layout

  /** The header's first baseline. */
  const HeaderTop: int := 25
  /** Height of one wrapped header line. */
  const HeaderLineHeight: int := 8

  /**
   * What a page shows, with the y position it is drawn at. The header is
   * drawn as the lines `splitTextToSize` wraps it into; only their number is
   * kept. The timestamp of "Generated on" is not kept.
   */
  datatype DrawOp =
    | Header(text: string, lineCount: nat, y: int)
    | GeneratedOn(y: int)
    | Label(text: string, y: int)
    | Rule(y: int)
    | AutoTable(table: Table, startY: int)

  function OpY(op: DrawOp): int {
    match op
    case Header(_, _, y) => y
    case GeneratedOn(y) => y
    case Label(_, y) => y
    case Rule(y) => y
    case AutoTable(_, startY) => startY
  }

  /** A jsPDF document: its pages, each the list of what was drawn on it, the last one current. */
  class PdfDocument {
    var pages: seq<seq<DrawOp>>
    var savedAs: seq<string>

    predicate Valid()
      reads this
    {
      |pages| >= 1
    }

    /** `new jsPDF()`: one blank page, not saved. */
    constructor ()
      ensures Valid() && pages == [[]] && savedAs == []
    {
      pages := [[]];
      savedAs := [];
    }

    /** `doc.addPage()`: a new blank page becomes current. */
    method AddPage()
      requires Valid()
      modifies this
      ensures Valid() && pages == old(pages) + [[]] && savedAs == old(savedAs)
    {
      pages := pages + [[]];
    }

    /** One drawing call: it lands on the current page. */
    method Draw(op: DrawOp)
      requires Valid()
      modifies this
      ensures Valid() && savedAs == old(savedAs)
      ensures |pages| == |old(pages)| && pages[..|pages| - 1] == old(pages)[..|pages| - 1]
      ensures pages[|pages| - 1] == old(pages)[|pages| - 1] + [op]
    {
      pages := pages[..|pages| - 1] + [pages[|pages| - 1] + [op]];
    }

    /** `doc.save(name)`. */
    method Save(name: string)
      modifies this
      ensures pages == old(pages) && savedAs == old(savedAs) + [name]
    {
      savedAs := savedAs + [name];
    }
  }

  /** The pages with `ops` drawn, in order, on the last one. */
  function DrawnOnLast(pages: seq<seq<DrawOp>>, ops: seq<DrawOp>): (r: seq<seq<DrawOp>>)
    requires |pages| >= 1
    ensures |r| == |pages| && r[..|r| - 1] == pages[..|pages| - 1] && r[|r| - 1] == pages[|pages| - 1] + ops
  {
    pages[..|pages| - 1] + [pages[|pages| - 1] + ops]
  }

  /** Drawing on a page just added, or on the only page of a new document, fills that page alone. */
  lemma DrawnOnFreshPage(pages: seq<seq<DrawOp>>, ops: seq<DrawOp>)
    ensures DrawnOnLast(pages + [[]], ops) == pages + [ops]
    ensures DrawnOnLast([[]], ops) == [ops]
  {
    assert (pages + [[]])[..|pages|] == pages;
    assert [] + ops == ops;
  }

  /** `Employee Slip: ${index + 1} / ${total}`. */
  function SlipCounter(index: nat, total: nat): string {
    "Employee Slip: " + DecimalString(index + 1) + " / " + DecimalString(total)
  }

  /**
   * What `createEmployeeDoc` draws for slip number `index` of `total`, when
   * the upper-cased slip header wraps into `headerLines` lines.
   */
  function PageOps(employee: Slip, index: nat, total: nat, slipHeader: string, headerLines: nat): seq<DrawOp> {
    var y1 := HeaderTop + headerLines * HeaderLineHeight;
    var y2 := y1 + 6;
    var y3 := y2 + 10;
    var y4 := y3 + 6;
    [ Header(ToUpper(slipHeader), headerLines, HeaderTop),
      GeneratedOn(y1),
      Label(SlipCounter(index, total), y1),
      Rule(y2),
      Label("Employee Name:", y3),
      Label(ToUpper(CellString(employee.name)), y4),
      AutoTable(TableFor(employee.stats), y4 + 8) ]
  }

  /**
   * `createEmployeeDoc`: every slip after the first starts a new page; the
   * cursor starts below the wrapped header and moves down step by step to
   * where the table starts.
   */
  method CreateEmployeeDoc(doc: PdfDocument, employee: Slip, index: nat, total: nat, slipHeader: string, headerLines: nat)
    requires doc.Valid()
    modifies doc
    ensures doc.Valid() && doc.savedAs == old(doc.savedAs)
    ensures doc.pages == DrawnOnLast(if index > 0 then old(doc.pages) + [[]] else old(doc.pages),
                                     PageOps(employee, index, total, slipHeader, headerLines))
  {
    if index > 0 {
      doc.AddPage();
    }
    ghost var start := doc.pages;
    var headerText := ToUpper(slipHeader);
    doc.Draw(Header(headerText, headerLines, HeaderTop));
    var currentY := HeaderTop + headerLines * HeaderLineHeight;
    doc.Draw(GeneratedOn(currentY));
    doc.Draw(Label(SlipCounter(index, total), currentY));
    currentY := currentY + 6;
    doc.Draw(Rule(currentY));
    currentY := currentY + 10;
    doc.Draw(Label("Employee Name:", currentY));
    currentY := currentY + 6;
    doc.Draw(Label(ToUpper(CellString(employee.name)), currentY));
    var table := BuildTable(employee.stats);
    doc.Draw(AutoTable(table, currentY + 8));
    assert doc.pages[..|start| - 1] == start[..|start| - 1];
    assert doc.pages[|start| - 1] == start[|start| - 1] + PageOps(employee, index, total, slipHeader, headerLines);
  }

  /**
   * The layout of a slip's page: the header block takes 8 units per wrapped
   * line; "Generated on" and the counter share the line below it; every later
   * item is drawn below the one before; the table starts 30 units below the
   * header block, at 55 + 8 L; the counter and the upper-cased name are the
   * third and sixth items; and the table holds the slip's stats.
   */
  lemma PageLayout(employee: Slip, index: nat, total: nat, slipHeader: string, headerLines: nat)
    ensures var ops := PageOps(employee, index, total, slipHeader, headerLines);
            && |ops| == 7
            && OpY(ops[0]) == 25 && ops[0].Header? && ops[0].lineCount == headerLines
            && OpY(ops[1]) == OpY(ops[2]) == 25 + 8 * headerLines
            && (forall k :: 2 < k < |ops| ==> OpY(ops[k - 1]) < OpY(ops[k]))
            && ops[2] == Label(SlipCounter(index, total), 25 + 8 * headerLines)
            && ops[5] == Label(ToUpper(CellString(employee.name)), 47 + 8 * headerLines)
            && ops[6] == AutoTable(TableFor(employee.stats), 55 + 8 * headerLines)
            && ReadTable(ops[6].table) == employee.stats
  {
    ReadTableFor(employee.stats);
  }

  /** The counter names the slip's position and the batch size, and two positions never print alike. */
  lemma SlipCounterReads(i: nat, j: nat, total: nat)
    ensures var prefix := "Employee Slip: ";
            SlipCounter(i, total)[..|prefix|] == prefix
    ensures SlipCounter(i, total) == SlipCounter(j, total) ==> i == j
  {
    if SlipCounter(i, total) == SlipCounter(j, total) {
      var a, b := DecimalString(i + 1), DecimalString(j + 1);
      var tail := " / " + DecimalString(total);
      var prefix := "Employee Slip: ";
      assert SlipCounter(i, total) == prefix + a + tail;
      assert SlipCounter(j, total) == prefix + b + tail;
      assert |a| == |b|;
      assert a == SlipCounter(i, total)[|prefix|..|prefix| + |a|];
      assert b == SlipCounter(j, total)[|prefix|..|prefix| + |b|];
      DecimalStringInjective(i + 1, j + 1);
    }
  }

  /** `OmVetan_Batch_${isoTimestamp.slice(0, 10)}.pdf`. */
  function BatchFileName(isoTimestamp: string): string {
    var date := if |isoTimestamp| <= 10 then isoTimestamp else isoTimestamp[..10];
    "OmVetan_Batch_" + date + ".pdf"
  }

  /** The document `generateBulkPDF` produces: one page per slip, in slip order. */
  function BulkPages(slips: seq<Slip>, slipHeader: string, headerLines: nat): seq<seq<DrawOp>> {
    seq(|slips|, k requires 0 <= k < |slips| => PageOps(slips[k], k, |slips|, slipHeader, headerLines))
  }

  /**
   * Each page of the batch shows its own slip: the counter gives its place
   * in the batch, different pages carry different counters, the name is the
   * slip's name in upper case, and the page's table reads back that slip's
   * stats.
   */
  lemma BulkPagesShowTheirSlips(slips: seq<Slip>, slipHeader: string, headerLines: nat)
    ensures var pages, total := BulkPages(slips, slipHeader, headerLines), |slips|;
            && |pages| == total
            && (forall k :: 0 <= k < total ==>
                  && |pages[k]| == 7
                  && pages[k][2].Label? && pages[k][2].text == SlipCounter(k, total)
                  && pages[k][5].Label? && pages[k][5].text == ToUpper(CellString(slips[k].name))
                  && pages[k][6].AutoTable? && ReadTable(pages[k][6].table) == slips[k].stats)
            && (forall k, l :: 0 <= k < l < total ==> pages[k][2] != pages[l][2])
  {
    var pages: seq<seq<DrawOp>>, total := BulkPages(slips, slipHeader, headerLines), |slips|;
    forall k | 0 <= k < total
      ensures && |pages[k]| == 7
              && pages[k][2].Label? && pages[k][2].text == SlipCounter(k, total)
              && pages[k][5].Label? && pages[k][5].text == ToUpper(CellString(slips[k].name))
              && pages[k][6].AutoTable? && ReadTable(pages[k][6].table) == slips[k].stats
    {
      assert pages[k] == PageOps(slips[k], k, total, slipHeader, headerLines);
      PageLayout(slips[k], k, total, slipHeader, headerLines);
    }
    forall k, l | 0 <= k < l < total ensures pages[k][2] != pages[l][2] {
      SlipCounterReads(k, l, total);
    }
  }
}
