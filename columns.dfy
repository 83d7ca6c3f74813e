/** Display widths of the columns of the result sheet.

    A sheet is a sequence of rows and a row is a sequence of cell strings.
    The width of a column is the length of its longest cell; rows may have
    different lengths, so a column only collects the cells of the rows that
    reach it.
 */
module Columns {

  type Row = seq<string>

  function Max(a: nat, b: nat): (m: nat)
    ensures m >= a && m >= b && (m == a || m == b)
  {
    if a >= b then a else b
  }

  /** Length of the longest row (0 for no rows). */
  function LongestRow(rows: seq<Row>): nat
    decreases |rows|
  {
    if rows == [] then 0
    else Max(LongestRow(rows[..|rows| - 1]), |rows[|rows| - 1]|)
  }

  /** Length of the longest cell at index i over all rows that have one (0 if none does). */
  function ColumnMax(rows: seq<Row>, i: nat): nat
    decreases |rows|
  {
    if rows == [] then 0
    else
      var last := rows[|rows| - 1];
      var m := ColumnMax(rows[..|rows| - 1], i);
      if i < |last| then Max(m, |last[i]|) else m
  }

  /** Appending a row extends LongestRow by that row. */
  lemma LongestRowSnoc(rows: seq<Row>, row: Row)
    ensures LongestRow(rows + [row]) == Max(LongestRow(rows), |row|)
  {
    assert (rows + [row])[..|rows|] == rows;
  }

  /** Appending a row extends every column's maximum by that row's cell, if it has one. */
  lemma ColumnMaxSnoc(rows: seq<Row>, row: Row)
    ensures forall i: nat :: ColumnMax(rows + [row], i) ==
              if i < |row| then Max(ColumnMax(rows, i), |row[i]|) else ColumnMax(rows, i)
  {
    assert (rows + [row])[..|rows|] == rows;
  }

  /** No row is longer than LongestRow, and some row is exactly that long. */
  lemma {:induction false} LongestRowIsLongest(rows: seq<Row>)
    ensures forall r :: 0 <= r < |rows| ==> |rows[r]| <= LongestRow(rows)
    ensures rows != [] ==> exists r :: 0 <= r < |rows| && |rows[r]| == LongestRow(rows)
  {
    if rows != [] {
      var init := rows[..|rows| - 1];
      LongestRowIsLongest(init);
      assert forall r :: 0 <= r < |init| ==> rows[r] == init[r];
      if init != [] && LongestRow(init) >= |rows[|rows| - 1]| {
        var r :| 0 <= r < |init| && |init[r]| == LongestRow(init);
        assert |rows[r]| == LongestRow(rows);
      } else {
        assert |rows[|rows| - 1]| == LongestRow(rows);
      }
    }
  }

  /** Every cell at index i is at most ColumnMax(rows, i) long. */
  lemma {:induction false} ColumnMaxBound(rows: seq<Row>, i: nat, r: nat)
    requires r < |rows| && i < |rows[r]|
    ensures |rows[r][i]| <= ColumnMax(rows, i)
    decreases |rows|
  {
    if r < |rows| - 1 {
      var init := rows[..|rows| - 1];
      assert init[r] == rows[r];
      ColumnMaxBound(init, i, r);
    }
  }

  /** Below LongestRow, ColumnMax(rows, i) is the length of an actual cell at index i. */
  lemma {:induction false} ColumnMaxAttained(rows: seq<Row>, i: nat)
    requires i < LongestRow(rows)
    ensures exists r :: 0 <= r < |rows| && i < |rows[r]| && |rows[r][i]| == ColumnMax(rows, i)
    decreases |rows|
  {
    var init := rows[..|rows| - 1];
    var last := rows[|rows| - 1];
    if i < LongestRow(init) {
      ColumnMaxAttained(init, i);
      var r :| 0 <= r < |init| && i < |init[r]| && |init[r][i]| == ColumnMax(init, i);
      assert rows[r] == init[r];
      if i < |last| && |last[i]| >= ColumnMax(init, i) {
        assert |rows[|rows| - 1][i]| == ColumnMax(rows, i);
      }
    } else {
      // no earlier row reaches index i, so the last row holds the maximum
      ColumnMaxZero(init, i);
      assert |rows[|rows| - 1][i]| == ColumnMax(rows, i);
    }
  }

  /** A column that no row reaches has maximum 0. */
  lemma {:induction false} ColumnMaxZero(rows: seq<Row>, i: nat)
    requires LongestRow(rows) <= i
    ensures ColumnMax(rows, i) == 0
    decreases |rows|
  {
    if rows != [] {
      ColumnMaxZero(rows[..|rows| - 1], i);
    }
  }

  /** The nested loop of the result logger: for every row and every cell of it, either
      widen the width already recorded for that column or, the first time the column
      is seen, append the cell's length. The else branch only ever appends at index
      |widths|, so the list stays contiguous. */
  method ColumnWidths(rows: seq<Row>) returns (widths: seq<nat>)
    ensures |widths| == LongestRow(rows)
    ensures forall i :: 0 <= i < |widths| ==> widths[i] == ColumnMax(rows, i)
  {
    widths := [];
    var r := 0;
    while r < |rows|
      invariant 0 <= r <= |rows|
      invariant |widths| == LongestRow(rows[..r])
      invariant forall i :: 0 <= i < |widths| ==> widths[i] == ColumnMax(rows[..r], i)
    {
      var row := rows[r];
      var done := rows[..r];
      assert done + [row[..0]] == done + [[]];
      LongestRowSnoc(done, []);
      ColumnMaxSnoc(done, []);
      var j := 0;
      while j < |row|
        invariant 0 <= j <= |row|
        invariant |widths| == LongestRow(done + [row[..j]])
        invariant forall i :: 0 <= i < |widths| ==> widths[i] == ColumnMax(done + [row[..j]], i)
      {
        var cell := row[j];
        LongestRowSnoc(done, row[..j]);
        LongestRowSnoc(done, row[..j + 1]);
        ColumnMaxSnoc(done, row[..j]);
        ColumnMaxSnoc(done, row[..j + 1]);
        if |widths| > j {
          widths := widths[j := Max(widths[j], |cell|)];
        } else {
          assert |widths| == j;
          ColumnMaxZero(done, j);
          widths := widths + [|cell|];
        }
        j := j + 1;
      }
      assert row[..j] == row;
      assert done + [row] == rows[..r + 1];
      r := r + 1;
    }
    assert rows[..r] == rows;
  }
}
