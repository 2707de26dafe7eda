/**
 * The occupancy map panel (frontend/src/components/MapView.jsx): the
 * count of occupied cells shown under the map, and the build handler with
 * its guard, error text and loading flag. The `buildMap` request is
 * outside the model; its outcome is the input `reply`.
 */
module MapView {
  import opened Wrappers

  type Grid = seq<seq<int>>

  /** The inner `reduce`: the non-zero cells of one row. */
  function RowCount(row: seq<int>): (c: nat)
    ensures c <= |row|
    decreases |row|
  {
    if row == [] then 0 else RowCount(row[..|row| - 1]) + (if row[|row| - 1] != 0 then 1 else 0)
  }

  /** The outer `reduce`: the row counts summed. */
  function GridCount(rows: Grid): (c: nat)
    decreases |rows|
  {
    if rows == [] then 0 else GridCount(rows[..|rows| - 1]) + RowCount(rows[|rows| - 1])
  }

  /** `occupiedCount`: 0 without a grid (`?? 0`), the non-zero cells otherwise. */
  function OccupiedCount(grid: Option<Grid>): (c: nat)
    ensures grid.None? ==> c == 0
  {
    if grid.None? then 0 else GridCount(grid.value)
  }

  /** All cells of a grid, row after row. */
  function Cells(rows: Grid): (cs: seq<int>)
    decreases |rows|
  {
    if rows == [] then [] else Cells(rows[..|rows| - 1]) + rows[|rows| - 1]
  }

  /** A row's count is its length less its zeros. */
  lemma {:induction false} RowCountIsNonZero(row: seq<int>)
    ensures RowCount(row) == |row| - multiset(row)[0]
    decreases |row|
  {
    if row != [] {
      var init := row[..|row| - 1];
      RowCountIsNonZero(init);
      assert row == init + [row[|row| - 1]];
      assert multiset(row) == multiset(init) + multiset{row[|row| - 1]};
    }
  }

  /** `occupiedCount` is the number of cells that are not 0: all cells less the zero ones. */
  lemma {:induction false} GridCountIsNonZero(rows: Grid)
    ensures GridCount(rows) == |Cells(rows)| - multiset(Cells(rows))[0]
    decreases |rows|
  {
    if rows != [] {
      GridCountIsNonZero(rows[..|rows| - 1]);
      RowCountIsNonZero(rows[|rows| - 1]);
      assert multiset(Cells(rows)) == multiset(Cells(rows[..|rows| - 1])) + multiset(rows[|rows| - 1]);
    }
  }

  /** `rows` rows of `cols` cells have rows * cols cells. */
  lemma {:induction false} CellsOfRect(rows: Grid, cols: nat)
    requires forall i :: 0 <= i < |rows| ==> |rows[i]| == cols
    ensures |Cells(rows)| == |rows| * cols
    decreases |rows|
  {
    if rows != [] {
      CellsOfRect(rows[..|rows| - 1], cols);
      assert |rows| * cols == (|rows| - 1) * cols + cols;
    }
  }

  /** The count is at most rows x columns, and 0 when every cell is free. */
  lemma OccupiedBounds(rows: Grid, cols: nat)
    requires forall i :: 0 <= i < |rows| ==> |rows[i]| == cols
    ensures OccupiedCount(Some(rows)) <= |rows| * cols
    ensures (forall i, j :: 0 <= i < |rows| && 0 <= j < cols ==> rows[i][j] == 0) ==> OccupiedCount(Some(rows)) == 0
  {
    GridCountIsNonZero(rows);
    CellsOfRect(rows, cols);
    if forall i, j :: 0 <= i < |rows| && 0 <= j < cols ==> rows[i][j] == 0 {
      AllZeroCells(rows, cols);
      MultisetOfZeros(Cells(rows));
    }
  }

  lemma {:induction false} AllZeroCells(rows: Grid, cols: nat)
    requires forall i :: 0 <= i < |rows| ==> |rows[i]| == cols
    requires forall i, j :: 0 <= i < |rows| && 0 <= j < cols ==> rows[i][j] == 0
    ensures forall k :: 0 <= k < |Cells(rows)| ==> Cells(rows)[k] == 0
    decreases |rows|
  {
    if rows != [] {
      AllZeroCells(rows[..|rows| - 1], cols);
    }
  }

  lemma {:induction false} MultisetOfZeros(s: seq<int>)
    requires forall k :: 0 <= k < |s| ==> s[k] == 0
    ensures multiset(s)[0] == |s|
    decreases |s|
  {
    if s != [] {
      MultisetOfZeros(s[..|s| - 1]);
      assert s == s[..|s| - 1] + [s[|s| - 1]];
      assert multiset(s) == multiset(s[..|s| - 1]) + multiset{0};
    }
  }

  /** What `buildMap` did: a grid in the reply, or an exception with its message. */
  datatype BuildReply = Built(grid: Grid) | Failed(message: string)

  const NoFileMessage := "Please select a .npz scan first."

  class MapPanel {
    var file: Option<string>
    var grid: Option<Grid>
    var err: string
    var loading: bool

    constructor ()
      ensures file.None? && grid.None? && err == "" && !loading
    {
      file := None;
      grid := None;
      err := "";
      loading := false;
    }

    /**
     * `onBuild`: without a file only the error text is set and nothing is
     * requested; with one the error is cleared, the request made, its grid
     * or its error message kept, and loading is off at the end either way.
     */
    method OnBuild(reply: BuildReply) returns (requested: bool)
      modifies this
      ensures requested <==> old(file).Some?
      ensures file == old(file)
      ensures !requested ==> err == NoFileMessage && grid == old(grid) && loading == old(loading)
      ensures requested ==> !loading
      ensures requested && reply.Built? ==> grid == Some(reply.grid) && err == ""
      ensures requested && reply.Failed? ==> grid == old(grid) && err == reply.message
    {
      if file.None? {
        err := NoFileMessage;
        return false;
      }
      err := "";
      loading := true;
      requested := true;
      match reply {
        case Built(g) => grid := Some(g);
        case Failed(m) => err := m;
      }
      loading := false;
    }
  }
}
