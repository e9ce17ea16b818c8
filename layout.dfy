/**
 * The slip table of `createEmployeeDoc` (src/App.jsx): the stats of one slip
 * laid out as rows of a `Description | Value` table, split into two such
 * column pairs when the slip has more than twelve stats.
 */
module Layout {
  import opened Wrappers
  import opened Records
  import opened Slips

  /** A table cell: a text cell (a label, or the blank `""`), or a stat's value (`None` for undefined). */
  datatype TableCell = Str(s: string) | Val(v: Option<Cell>)

  datatype Table = Table(head: seq<seq<string>>, body: seq<seq<TableCell>>)

  const TwoColumnHead: seq<seq<string>> := [["Description", "Value"]]
  const FourColumnHead: seq<seq<string>> := [["Description", "Value", "Description", "Value"]]

  /** More stats than this and the table is split into two column pairs. */
  const SplitThreshold: nat := 12

  /** `Math.ceil(n / 2)`. */
  function Half(n: nat): (h: nat)
    ensures n <= 2 * h <= n + 1
  {
    (n + 1) / 2
  }

  /** `[s.label, s.val]`. */
  function StatCells(s: Stat): seq<TableCell> {
    [Str(s.caption), Val(s.val)]
  }

  /** Row `i` of the split table: stat `i` on the left, stat `i + half` (or two blank cells) on the right. */
  function SplitRow(stats: seq<Stat>, half: nat, i: nat): seq<TableCell>
    requires i < half <= |stats|
  {
    StatCells(stats[i]) + (if i + half < |stats| then StatCells(stats[i + half]) else [Str(""), Str("")])
  }

  /** The table a slip with these stats gets. */
  function TableFor(stats: seq<Stat>): Table {
    if |stats| > SplitThreshold then
      var half := Half(|stats|);
      Table(FourColumnHead, seq(half, i requires 0 <= i < half => SplitRow(stats, half, i)))
    else
      Table(TwoColumnHead, seq(|stats|, i requires 0 <= i < |stats| => StatCells(stats[i])))
  }

  /**
   * The table as `createEmployeeDoc` builds it: the two-column `map`, or the
   * `for` loop that pushes one split row per index below `half`.
   */
  method BuildTable(stats: seq<Stat>) returns (table: Table)
    ensures table == TableFor(stats)
  {
    var tableBody: seq<seq<TableCell>> := [];
    var tableHead := TwoColumnHead;
    if |stats| > SplitThreshold {
      tableHead := FourColumnHead;
      var half := Half(|stats|);
      for i := 0 to half
        invariant |tableBody| == i
        invariant forall k :: 0 <= k < i ==> tableBody[k] == SplitRow(stats, half, k)
      {
        var left := stats[i];
        var row := [Str(left.caption), Val(left.val)];
        if i + half < |stats| {
          var right := stats[i + half];
          row := row + [Str(right.caption), Val(right.val)];
        } else {
          row := row + [Str(""), Str("")];
        }
        tableBody := tableBody + [row];
      }
    } else {
      tableBody := seq(|stats|, i requires 0 <= i < |stats| => StatCells(stats[i]));
    }
    table := Table(tableHead, tableBody);
  }

  /** The stat a row shows at column `col`: a label cell followed by a value cell, or nothing. */
  function StatAt(row: seq<TableCell>, col: nat): seq<Stat> {
    if col + 1 < |row| && row[col].Str? && row[col + 1].Val? then [Stat(row[col].s, row[col + 1].v)] else []
  }

  /** The stats shown in column `col` of the rows, top to bottom. */
  function ColumnStats(rows: seq<seq<TableCell>>, col: nat): seq<Stat> {
    if rows == [] then [] else ColumnStats(rows[..|rows| - 1], col) + StatAt(rows[|rows| - 1], col)
  }

  /** Reading a table back: down the left column pair, then down the right one when there is one. */
  function ReadTable(table: Table): seq<Stat> {
    if table.head == FourColumnHead then ColumnStats(table.body, 0) + ColumnStats(table.body, 2)
    else ColumnStats(table.body, 0)
  }

  /** When the first `k` rows show one stat each in column `col` and the rest none, the column reads those `k`. */
  lemma {:induction false} ColumnStatsPrefix(rows: seq<seq<TableCell>>, col: nat, shown: seq<Stat>, k: nat)
    requires k <= |rows| && k <= |shown|
    requires forall i :: 0 <= i < k ==> StatAt(rows[i], col) == [shown[i]]
    requires forall i :: k <= i < |rows| ==> StatAt(rows[i], col) == []
    ensures ColumnStats(rows, col) == shown[..k]
  {
    if rows != [] {
      var init := rows[..|rows| - 1];
      if k == |rows| {
        ColumnStatsPrefix(init, col, shown, k - 1);
        assert shown[..k - 1] + [shown[k - 1]] == shown[..k];
      } else {
        ColumnStatsPrefix(init, col, shown, k);
      }
    }
  }

  /**
   * Every stat of the slip appears in its table exactly once and in order:
   * reading the table back gives the stats.
   */
  lemma ReadTableFor(stats: seq<Stat>)
    ensures ReadTable(TableFor(stats)) == stats
  {
    if |stats| > SplitThreshold {
      ReadSplitTable(stats);
    } else {
      ReadPlainTable(stats);
    }
  }

  lemma ReadSplitTable(stats: seq<Stat>)
    requires |stats| > SplitThreshold
    ensures ReadTable(TableFor(stats)) == stats
  {
    var half := Half(|stats|);
    LeftColumnReads(stats);
    RightColumnReads(stats);
    assert stats[..half] + stats[half..] == stats;
  }

  /** The left column pair of a split table shows the first `half` stats. */
  lemma LeftColumnReads(stats: seq<Stat>)
    requires |stats| > SplitThreshold
    ensures ColumnStats(TableFor(stats).body, 0) == stats[..Half(|stats|)]
  {
    var half := Half(|stats|);
    var body := TableFor(stats).body;
    forall i | 0 <= i < half ensures StatAt(body[i], 0) == [stats[i]] {
      SplitRowStats(stats, half, i);
    }
    ColumnStatsPrefix(body, 0, stats, half);
  }

  /** The right column pair of a split table shows the remaining stats, then blanks. */
  lemma RightColumnReads(stats: seq<Stat>)
    requires |stats| > SplitThreshold
    ensures ColumnStats(TableFor(stats).body, 2) == stats[Half(|stats|)..]
  {
    var n, half := |stats|, Half(|stats|);
    var body := TableFor(stats).body;
    var right := stats[half..];
    forall i | 0 <= i < half
      ensures StatAt(body[i], 2) == if i < n - half then [right[i]] else []
    {
      SplitRowStats(stats, half, i);
    }
    ColumnStatsPrefix(body, 2, right, n - half);
  }

  /** The stats a split row shows on its left and on its right. */
  lemma SplitRowStats(stats: seq<Stat>, half: nat, i: nat)
    requires i < half <= |stats|
    ensures StatAt(SplitRow(stats, half, i), 0) == [stats[i]]
    ensures StatAt(SplitRow(stats, half, i), 2) == if i + half < |stats| then [stats[i + half]] else []
  {
  }

  lemma ReadPlainTable(stats: seq<Stat>)
    requires |stats| <= SplitThreshold
    ensures ReadTable(TableFor(stats)) == stats
  {
    var body := TableFor(stats).body;
    assert TwoColumnHead != FourColumnHead by {
      assert |TwoColumnHead[0]| != |FourColumnHead[0]|;
    }
    forall i | 0 <= i < |stats| ensures StatAt(body[i], 0) == [stats[i]] {
    }
    ColumnStatsPrefix(body, 0, stats, |stats|);
    assert stats[..|stats|] == stats;
  }

  /**
   * The shape of the table: up to twelve stats, one two-cell row per stat;
   * beyond that, `ceil(n / 2)` four-cell rows whose right pair is blank only
   * on the last row, and only when the number of stats is odd.
   */
  lemma TableShape(stats: seq<Stat>)
    ensures var table, n := TableFor(stats), |stats|;
            && (n <= SplitThreshold ==>
                  && table.head == TwoColumnHead && |table.body| == n
                  && forall i :: 0 <= i < n ==> table.body[i] == [Str(stats[i].caption), Val(stats[i].val)])
            && (n > SplitThreshold ==>
                  && table.head == FourColumnHead && |table.body| == Half(n)
                  && (forall i :: 0 <= i < |table.body| ==> |table.body[i]| == 4 && table.body[i][..2] == StatCells(stats[i]))
                  && (forall i :: 0 <= i < |table.body| ==>
                        (table.body[i][2..] == [Str(""), Str("")] <==> i == |table.body| - 1 && n % 2 == 1)))
  {
    var table, n := TableFor(stats), |stats|;
    if n > SplitThreshold {
      var half := Half(n);
      forall i | 0 <= i < half
        ensures |table.body[i]| == 4 && table.body[i][..2] == StatCells(stats[i])
        ensures table.body[i][2..] == [Str(""), Str("")] <==> i == half - 1 && n % 2 == 1
      {
        var row := SplitRow(stats, half, i);
        assert table.body[i] == row;
        if i + half < n {
          assert row[3] == Val(stats[i + half].val);
        }
      }
    }
  }
}
