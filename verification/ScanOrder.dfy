/** The order in which a scan visits the cells of a rack, fresh and resumed. */
module ScanOrder {
  import opened Prelude

  datatype Cell = Cell(row: int, col: int)

  /** The cell at place `k` of a row: even rows run left to right, odd rows right to left. */
  function CellAt(row: int, k: int, cols: int): Cell {
    Cell(row, if row % 2 == 0 then k else cols - 1 - k)
  }

  /** The skip rule of the loop, which applies in the start row only. */
  predicate Skips(c: Cell, start: Cell) {
    c.row == start.row
    && ((c.row % 2 == 0 && c.col < start.col) || (c.row % 2 != 0 && c.col > start.col))
  }

  /** The cells of a row from place `k` on that the loop does not skip. */
  function RowVisits(row: int, k: nat, cols: int, start: Cell): seq<Cell>
    decreases cols - k
  {
    if k >= cols then []
    else
      var c := CellAt(row, k, cols);
      (if Skips(c, start) then [] else [c]) + RowVisits(row, k + 1, cols, start)
  }

  /** The cells from `row` on that the loop visits. */
  function Visits(row: int, rows: int, cols: int, start: Cell): seq<Cell>
    decreases rows - row
  {
    if row >= rows then [] else RowVisits(row, 0, cols, start) + Visits(row + 1, rows, cols, start)
  }

  /** Where a run starts, given the last completed cell of the run it resumes. */
  function StartCell(cols: int, resume: Option<Cell>): Cell {
    if resume.None? then Cell(0, 0)
    else if resume.value.col + 1 >= cols then Cell(resume.value.row + 1, 0)
    else Cell(resume.value.row, resume.value.col + 1)
  }

  /** What an undisturbed run visits. */
  function Plan(rows: int, cols: int, resume: Option<Cell>): seq<Cell> {
    var start := StartCell(cols, resume);
    Visits(start.row, rows, cols, start)
  }

  predicate InGrid(c: Cell, rows: int, cols: int) {
    0 <= c.row < rows && 0 <= c.col < cols
  }

  /** The place of a cell in the fresh order. */
  function IndexOf(c: Cell, cols: int): int {
    c.row * cols + if c.row % 2 == 0 then c.col else cols - 1 - c.col
  }

  // ---- Rows -------------------------------------------------------------------------

  /** Whole rows, none of them the start row or none of their cells skipped. */
  function WholeRow(row: int, cols: nat): (s: seq<Cell>)
    ensures |s| == cols
  {
    seq(cols, k => CellAt(row, k, cols))
  }

  lemma {:induction false} RowVisitsFrom(row: int, k: nat, cols: nat, start: Cell, from: nat)
    requires k <= from <= cols
    requires forall p {:trigger CellAt(row, p, cols)} :: k <= p < cols ==>
      (Skips(CellAt(row, p, cols), start) <==> p < from)
    ensures RowVisits(row, k, cols, start) == WholeRow(row, cols)[from..]
    decreases cols - k
  {
    var whole := WholeRow(row, cols);
    if k < from {
      assert Skips(CellAt(row, k, cols), start);
      RowVisitsFrom(row, k + 1, cols, start, from);
    } else if k < cols {
      assert !Skips(CellAt(row, k, cols), start);
      RowVisitsFrom(row, k + 1, cols, start, k + 1);
      assert whole[k..] == [whole[k]] + whole[k + 1..];
    }
  }

  function WholeRows(row: int, rows: int, cols: nat): seq<Cell>
    decreases rows - row
  {
    if row >= rows then [] else WholeRow(row, cols) + WholeRows(row + 1, rows, cols)
  }

  lemma {:induction false} VisitsWholeRows(row: int, rows: int, cols: nat, start: Cell)
    requires row > start.row || (row == start.row && start.row % 2 == 0 && start.col <= 0)
    ensures Visits(row, rows, cols, start) == WholeRows(row, rows, cols)
    decreases rows - row
  {
    if row < rows {
      RowVisitsFrom(row, 0, cols, start, 0);
      VisitsWholeRows(row + 1, rows, cols, start);
    }
  }

  lemma {:induction false} WholeRowsLength(row: int, rows: int, cols: nat)
    ensures |WholeRows(row, rows, cols)| == (if row >= rows then 0 else (rows - row) * cols)
    decreases rows - row
  {
    if row < rows {
      WholeRowsLength(row + 1, rows, cols);
      assert (rows - row) * cols == cols + (rows - (row + 1)) * cols;
    }
  }

  /** Cutting whole rows off the front. */
  lemma {:induction false} WholeRowsDrop(row: int, upTo: int, rows: int, cols: nat)
    requires row <= upTo <= rows
    ensures 0 <= (upTo - row) * cols <= |WholeRows(row, rows, cols)|
    ensures WholeRows(row, rows, cols)[(upTo - row) * cols..] == WholeRows(upTo, rows, cols)
    decreases upTo - row
  {
    WholeRowsLength(row, rows, cols);
    WholeRowsLength(upTo, rows, cols);
    if row < upTo {
      WholeRowsDrop(row + 1, upTo, rows, cols);
      var rest := WholeRows(row + 1, rows, cols);
      assert (upTo - row) * cols == cols + (upTo - (row + 1)) * cols;
      assert (WholeRow(row, cols) + rest)[cols + (upTo - (row + 1)) * cols..] == rest[(upTo - (row + 1)) * cols..];
    }
  }

  /** The fresh order from any place inside a row. */
  lemma WholeRowsSuffix(row: nat, k: nat, rows: nat, cols: nat)
    requires row < rows && k <= cols
    ensures 0 <= row * cols + k <= |WholeRows(0, rows, cols)|
    ensures WholeRows(0, rows, cols)[row * cols + k..] == WholeRow(row, cols)[k..] + WholeRows(row + 1, rows, cols)
  {
    var all := WholeRows(0, rows, cols);
    WholeRowsDrop(0, row, rows, cols);
    WholeRowsLength(row, rows, cols);
    RowFits(row, rows, cols);
    DropDrop(all, row * cols, k);
    DropConcat(WholeRow(row, cols), WholeRows(row + 1, rows, cols), k);
  }

  lemma RowFits(row: nat, rows: nat, cols: nat)
    requires row < rows
    ensures 0 <= row * cols <= row * cols + cols == (row + 1) * cols <= rows * cols
    ensures (rows - row) * cols >= cols
  {
    assert (rows - row) * cols == (rows - row - 1) * cols + cols;
    assert rows * cols == (rows - row) * cols + row * cols;
  }

  // ---- The fresh scan ---------------------------------------------------------------

  lemma FreshPlan(rows: int, cols: nat)
    ensures Plan(rows, cols, None) == WholeRows(0, rows, cols)
  {
    VisitsWholeRows(0, rows, cols, Cell(0, 0));
  }

  lemma IndexInGrid(c: Cell, rows: nat, cols: nat)
    requires InGrid(c, rows, cols)
    ensures 0 <= IndexOf(c, cols) < rows * cols
  {
    assert c.row * cols <= (rows - 1) * cols;
    assert (rows - 1) * cols + cols == rows * cols;
    assert 0 <= c.row * cols;
  }

  /** A fresh scan visits every cell of the grid exactly once: `IndexOf` and indexing into the
      visit list are inverse to each other. */
  lemma FreshScanIsBijection(rows: nat, cols: nat)
    ensures var plan := Plan(rows, cols, None);
      && |plan| == rows * cols
      && (forall c :: InGrid(c, rows, cols) ==> 0 <= IndexOf(c, cols) < |plan| && plan[IndexOf(c, cols)] == c)
      && (forall i :: 0 <= i < |plan| ==> InGrid(plan[i], rows, cols) && IndexOf(plan[i], cols) == i)
  {
    var plan := Plan(rows, cols, None);
    FreshPlan(rows, cols);
    WholeRowsLength(0, rows, cols);
    forall c | InGrid(c, rows, cols) ensures 0 <= IndexOf(c, cols) < |plan| && plan[IndexOf(c, cols)] == c {
      IndexInGrid(c, rows, cols);
      var k := IndexOf(c, cols) - c.row * cols;
      FreshCell(c.row, k, rows, cols);
    }
    forall i | 0 <= i < |plan| ensures InGrid(plan[i], rows, cols) && IndexOf(plan[i], cols) == i {
      FreshPlace(i, rows, cols);
    }
  }

  /** The order in full: row by row, even rows from the first column to the last, odd rows back. */
  lemma FreshScanIsSnake(rows: nat, cols: nat, row: nat, k: nat)
    requires row < rows && k < cols
    ensures 0 <= row * cols + k < |Plan(rows, cols, None)|
    ensures Plan(rows, cols, None)[row * cols + k] == if row % 2 == 0 then Cell(row, k) else Cell(row, cols - 1 - k)
  {
    FreshCell(row, k, rows, cols);
  }

  lemma FreshPlace(i: nat, rows: nat, cols: nat)
    requires i < rows * cols
    ensures i < |Plan(rows, cols, None)|
    ensures var c := Plan(rows, cols, None)[i]; InGrid(c, rows, cols) && IndexOf(c, cols) == i
  {
    var row, k := RowAndPlace(i, rows, cols);
    FreshCell(row, k, rows, cols);
  }

  lemma {:induction false} RowAndPlace(i: nat, rows: nat, cols: nat) returns (row: nat, k: nat)
    requires i < rows * cols
    ensures row < rows && k < cols && i == row * cols + k
  {
    if i < cols {
      row, k := 0, i;
    } else {
      assert (rows - 1) * cols == rows * cols - cols;
      row, k := RowAndPlace(i - cols, rows - 1, cols);
      row := row + 1;
    }
  }

  predicate Neighbours(a: Cell, b: Cell) {
    Abs(a.row - b.row) + Abs(a.col - b.col) == 1
  }

  /** From each cell the gantry moves to a neighbour in the grid, also where rows change. */
  lemma FreshScanMovesToNeighbours(rows: nat, cols: nat, i: nat)
    requires i + 1 < rows * cols
    ensures var plan := Plan(rows, cols, None); i + 1 < |plan| && Neighbours(plan[i], plan[i + 1])
  {
    var plan := Plan(rows, cols, None);
    var row, k := RowAndPlace(i, rows, cols);
    FreshCell(row, k, rows, cols);
    if k + 1 < cols {
      FreshCell(row, k + 1, rows, cols);
    } else {
      assert row + 1 < rows by {
        RowFits(row, rows, cols);
      }
      assert (row + 1) * cols == i + 1;
      FreshCell(row + 1, 0, rows, cols);
    }
  }

  lemma FreshCell(row: nat, k: nat, rows: nat, cols: nat)
    requires row < rows && k < cols
    ensures var plan := Plan(rows, cols, None);
      0 <= row * cols + k < |plan| && plan[row * cols + k] == CellAt(row, k, cols)
  {
    var plan := Plan(rows, cols, None);
    FreshPlan(rows, cols);
    WholeRowsSuffix(row, k, rows, cols);
    assert plan[row * cols + k..][0] == WholeRow(row, cols)[k..][0];
  }

  // ---- Resuming ---------------------------------------------------------------------

  /** From a start cell in a row: the rest of that row as the snake runs, then whole rows. */
  lemma VisitsFromStart(rows: nat, cols: nat, start: Cell)
    requires InGrid(start, rows, cols)
    ensures var k := if start.row % 2 == 0 then start.col else cols - 1 - start.col;
      Visits(start.row, rows, cols, start) == WholeRow(start.row, cols)[k..] + WholeRows(start.row + 1, rows, cols)
  {
    VisitsWholeRows(start.row + 1, rows, cols, start);
    RowVisitsFrom(start.row, 0, cols, start, if start.row % 2 == 0 then start.col else cols - 1 - start.col);
  }

  lemma ResumesInRow(rows: nat, cols: nat, r: nat, c: nat)
    requires r < rows && c < cols - 1
    ensures Plan(rows, cols, Some(Cell(r, c))) == Visits(r, rows, cols, Cell(r, c + 1))
  {
  }

  lemma ResumeInRow(rows: nat, cols: nat, r: nat, c: nat)
    requires r < rows && c < cols - 1
    ensures var whole := Plan(rows, cols, None);
      var at := IndexOf(Cell(r, c), cols);
      && 0 <= at < |whole|
      && Plan(rows, cols, Some(Cell(r, c))) ==
           (if r % 2 == 0 then [] else [Cell(r, c + 1), Cell(r, c)]) + whole[at + 1..]
  {
    hide Plan, Visits, WholeRow, WholeRows;
    FreshPlan(rows, cols);
    ResumesInRow(rows, cols, r, c);
    VisitsFromStart(rows, cols, Cell(r, c + 1));
    var k := if r % 2 == 0 then c else cols - 1 - c;
    FreshCell(r, k, rows, cols);
    WholeRowsSuffix(r, k + 1, rows, cols);
    if r % 2 != 0 {
      OddRowTail(r, k, cols);
    }
  }

  lemma OddRowTail(r: nat, k: nat, cols: nat)
    requires r % 2 != 0 && 0 < k < cols
    ensures WholeRow(r, cols)[k - 1..] ==
      [Cell(r, cols - k), Cell(r, cols - 1 - k)] + WholeRow(r, cols)[k + 1..]
  {
    var row := WholeRow(r, cols);
    assert row[k - 1..] == [row[k - 1], row[k]] + row[k + 1..];
  }

  lemma ResumeAtLastColumn(rows: nat, cols: nat, r: nat)
    requires r < rows && cols > 0
    ensures var whole := Plan(rows, cols, None);
      var at := IndexOf(Cell(r, cols - 1), cols);
      && 0 <= at < |whole|
      && (r + 1 < rows ==> at + cols <= |whole|)
      && Plan(rows, cols, Some(Cell(r, cols - 1))) == if r + 1 < rows then whole[at + cols..] else []
  {
    FreshPlan(rows, cols);
    FreshCell(r, if r % 2 == 0 then cols - 1 else 0, rows, cols);
    if r + 1 < rows {
      RestartBelow(rows, cols, r);
    }
  }

  lemma RestartBelow(rows: nat, cols: nat, r: nat)
    requires r + 1 < rows && cols > 0
    ensures var at := IndexOf(Cell(r, cols - 1), cols);
      var all := WholeRows(0, rows, cols);
      0 <= at + cols <= |all| && Plan(rows, cols, Some(Cell(r, cols - 1))) == all[at + cols..]
  {
    hide Visits;
    var k := if r % 2 == 0 then cols - 1 else 0;
    VisitsFromStart(rows, cols, Cell(r + 1, 0));
    WholeRowsSuffix(r + 1, k, rows, cols);
    RowFits(r, rows, cols);
  }

  /** The visit list of a run that resumes after cell (r, c), in terms of the fresh order, in
      which (r, c) stands at place `IndexOf`. */
  lemma ResumePlan(rows: nat, cols: nat, r: nat, c: nat)
    requires r < rows && c < cols
    ensures var whole := Plan(rows, cols, None);
      var at := IndexOf(Cell(r, c), cols);
      var resumed := Plan(rows, cols, Some(Cell(r, c)));
      && 0 <= at < |whole|
      && (r % 2 == 0 && c < cols - 1 ==> resumed == whole[at + 1..])
      && (r % 2 != 0 && c < cols - 1 ==> resumed == [Cell(r, c + 1), Cell(r, c)] + whole[at + 1..])
      && (c == cols - 1 && r + 1 < rows ==> at + cols <= |whole| && resumed == whole[at + cols..])
      && (c == cols - 1 && r + 1 == rows ==> resumed == [])
  {
    hide Plan, IndexOf;
    if c < cols - 1 {
      ResumeInRow(rows, cols, r, c);
    } else {
      ResumeAtLastColumn(rows, cols, r);
    }
  }

  /** Resuming continues exactly where the scan stopped iff the rack has one column, or the last
      cell lies in an even row and is not its last one, or the scan had reached the end of the
      last row, an even one. */
  lemma ResumeIsExactIff(rows: nat, cols: nat, r: nat, c: nat)
    requires r < rows && c < cols
    ensures var whole := Plan(rows, cols, None);
      var at := IndexOf(Cell(r, c), cols);
      && 0 <= at < |whole|
      && (Plan(rows, cols, Some(Cell(r, c))) == whole[at + 1..]
          <==> cols == 1 || (r % 2 == 0 && (c < cols - 1 || r == rows - 1)))
  {
    var whole := Plan(rows, cols, None);
    var at := IndexOf(Cell(r, c), cols);
    var resumed := Plan(rows, cols, Some(Cell(r, c)));
    hide Plan;
    ResumePlan(rows, cols, r, c);
    FreshScanIsBijection(rows, cols);
    RowFits(r, rows, cols);
    if c == cols - 1 && r + 1 == rows {
      assert |whole| - (at + 1) == if r % 2 == 0 then 0 else cols - 1;
    } else if cols > 1 && !(r % 2 == 0 && c < cols - 1) {
      assert |resumed| != |whole[at + 1..]|;
    }
  }

  /** Together with the run before it a resumed scan covers the whole grid iff the last cell is
      not in the last column, or it is the end of the last row, an even one, or the rack has one
      column. Otherwise cells are lost: the rest of the odd row that begins in the last
      column, or all but the first visited cell of the odd row below. */
  lemma ResumeCoversGridIff(rows: nat, cols: nat, r: nat, c: nat)
    requires r < rows && c < cols
    ensures var whole := Plan(rows, cols, None);
      var resumed := Plan(rows, cols, Some(Cell(r, c)));
      var at := IndexOf(Cell(r, c), cols);
      && 0 <= at < |whole|
      && ((forall x :: InGrid(x, rows, cols) ==> x in whole[..at + 1] || x in resumed)
          <==> c < cols - 1 || cols == 1 || (r % 2 == 0 && r == rows - 1))
  {
    var whole := Plan(rows, cols, None);
    var at := IndexOf(Cell(r, c), cols);
    ResumePlan(rows, cols, r, c);
    FreshScanIsBijection(rows, cols);
    if c < cols - 1 || cols == 1 || (r % 2 == 0 && r == rows - 1) {
      AllCovered(rows, cols, r, c);
    } else {
      FirstLost(rows, cols, r, c);
      assert InGrid(whole[at + 1], rows, cols);
    }
  }

  lemma AllCovered(rows: nat, cols: nat, r: nat, c: nat)
    requires r < rows && c < cols
    requires c < cols - 1 || cols == 1 || (r % 2 == 0 && r == rows - 1)
    ensures var whole := Plan(rows, cols, None);
      var at := IndexOf(Cell(r, c), cols);
      && 0 <= at < |whole|
      && forall x :: InGrid(x, rows, cols) ==> x in whole[..at + 1] || x in Plan(rows, cols, Some(Cell(r, c)))
  {
    var whole := Plan(rows, cols, None);
    var at := IndexOf(Cell(r, c), cols);
    var resumed := Plan(rows, cols, Some(Cell(r, c)));
    hide Plan;
    ResumePlan(rows, cols, r, c);
    FreshScanIsBijection(rows, cols);
    RowFits(r, rows, cols);
    forall x | InGrid(x, rows, cols) ensures x in whole[..at + 1] || x in resumed {
      var i := IndexOf(x, cols);
      if i <= at {
        assert whole[..at + 1][i] == x;
      } else {
        assert whole[at + 1..][i - (at + 1)] == x;
      }
    }
  }

  lemma FirstLost(rows: nat, cols: nat, r: nat, c: nat)
    requires r < rows && c == cols - 1 && cols > 1 && !(r % 2 == 0 && r == rows - 1)
    ensures var whole := Plan(rows, cols, None);
      var at := IndexOf(Cell(r, c), cols);
      && 0 <= at < |whole| - 1
      && whole[at + 1] !in whole[..at + 1]
      && whole[at + 1] !in Plan(rows, cols, Some(Cell(r, c)))
  {
    var whole := Plan(rows, cols, None);
    var at := IndexOf(Cell(r, c), cols);
    var resumed := Plan(rows, cols, Some(Cell(r, c)));
    hide Plan;
    ResumePlan(rows, cols, r, c);
    FreshScanIsBijection(rows, cols);
    RowFits(r, rows, cols);
    forall j | 0 <= j < |resumed| ensures resumed[j] != whole[at + 1] {
      assert resumed[j] == whole[at + cols + j];
      assert IndexOf(resumed[j], cols) == at + cols + j;
    }
    forall j | 0 <= j < at + 1 ensures whole[j] != whole[at + 1] {
      assert IndexOf(whole[j], cols) == j;
    }
  }
}
