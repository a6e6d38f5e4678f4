/** The scan executor as it runs on the Pi: nested loops over the grid, flags, counters. Proved
    to perform exactly the run that `ScanRun` describes over the visit list of `ScanOrder`. */
module ScanExecutor {
  import opened Prelude
  import opened ScanOrder
  import opened ScanRun

  class Executor {
    const env: Env
    var trace: seq<Action>
    var messages: seq<Message>
    var progress: Progress
    var sends: nat
    var shots: nat
    var looks: nat
    var running: bool

    constructor (env: Env)
      ensures this.env == env && !running && View() == START
    {
      this.env := env;
      trace, messages, progress := [], [], Progress(0, 0, None);
      sends, shots, looks, running := 0, 0, 0, false;
    }

    ghost function View(): Exec
      reads this
    {
      Exec(trace, messages, progress, sends, shots, looks)
    }

    /** `start`: ignored while a run is on, otherwise one run from beginning to end. */
    method Start(rows: int, cols: int, resume: Option<Cell>)
      modifies this
      ensures old(running) ==> View() == old(View()) && running
      ensures !old(running) ==> View() == RunPlan(Plan(rows, cols, resume), env) && !running
    {
      if running {
        return;
      }
      trace, messages, sends, shots, looks := [], [], 0, 0, 0;
      progress := Progress(0, 0, None);
      running := true;
      Run(rows, cols, resume);
      running := false;
    }

    method Run(rows: int, cols: int, resume: Option<Cell>)
      requires View() == START
      modifies this
      ensures View() == RunPlan(Plan(rows, cols, resume), env)
    {
      hide RunCells, Visits;
      var homed := DoG28();
      if !homed {
        PublishStatus(AbortedHoming);
        return;
      }
      var aborted := AbortRequested();
      if aborted {
        PublishStatus(AbortedEmergency);
        return;
      }
      trace := trace + [KeepaliveOn];

      var startRow, startCol := 0, 0;
      if resume.Some? {
        startCol := resume.value.col + 1;
        startRow := resume.value.row;
        if startCol >= cols {
          startCol := 0;
          startRow := resume.value.row + 1;
        }
      }
      var scanAborted, scanPaused := WalkGrid(startRow, startCol, rows, cols);

      trace := trace + [KeepaliveOff];
      if !scanAborted {
        var _ := DoG28();
      }
      if scanAborted {
        PublishStatus(AbortedEmergency);
      } else if scanPaused {
        PublishStatus(PausedByStop);
      } else {
        PublishStatus(Complete);
      }
    }

    /** The snake-pattern loop. */
    method WalkGrid(startRow: int, startCol: int, rows: int, cols: int) returns (scanAborted: bool, scanPaused: bool)
      modifies this
      ensures (View(), if scanAborted then Aborted else if scanPaused then Paused else Finished)
        == RunCells(Visits(startRow, rows, cols, Cell(startRow, startCol)), old(View()), env)
    {
      hide RunCells, Visits;
      ghost var start := Cell(startRow, startCol);
      ghost var plan := Visits(startRow, rows, cols, start);
      ghost var x := View();
      scanAborted, scanPaused := false, false;
      var row := startRow;
      while row < rows
        invariant !scanAborted && !scanPaused
        invariant RunCells(Visits(row, rows, cols, start), View(), env) == RunCells(plan, x, env)
        decreases rows - row
      {
        scanAborted, scanPaused := RunRow(row, rows, cols, startRow, startCol, plan, x);
        if scanAborted || scanPaused {
          break;
        }
        row := row + 1;
      }
      if !scanAborted && !scanPaused {
        VisitsEnd(row, rows, cols, start, View());
      }
    }

    /** The inner loop. If it breaks off, the run over the whole plan has ended here and so. */
    method RunRow(row: int, rows: int, cols: int, startRow: int, startCol: int, ghost plan: seq<Cell>, ghost x: Exec)
      returns (scanAborted: bool, scanPaused: bool)
      requires row < rows
      requires RunCells(Visits(row, rows, cols, Cell(startRow, startCol)), View(), env) == RunCells(plan, x, env)
      modifies this
      ensures scanAborted ==> !scanPaused && (View(), Aborted) == RunCells(plan, x, env)
      ensures scanPaused ==> (View(), Paused) == RunCells(plan, x, env)
      ensures !scanAborted && !scanPaused ==>
        RunCells(Visits(row + 1, rows, cols, Cell(startRow, startCol)), View(), env) == RunCells(plan, x, env)
    {
      hide RunCells, ScanRun.DoCell, AfterCell, RowVisits;
      ghost var start := Cell(startRow, startCol);
      ghost var below := Visits(row + 1, rows, cols, start);
      assert Visits(row, rows, cols, start) == RowVisits(row, 0, cols, start) + below;
      scanAborted, scanPaused := false, false;
      var k := 0;
      while k < cols
        invariant 0 <= k && !scanAborted && !scanPaused
        invariant RunCells(RowVisits(row, k, cols, start) + below, View(), env) == RunCells(plan, x, env)
        decreases cols - k
      {
        RowVisitsStep(row, k, cols, start, below);
        ghost var rest := RowVisits(row, k + 1, cols, start) + below;
        var col := if row % 2 == 0 then k else cols - 1 - k;
        k := k + 1;
        if row == startRow {
          if row % 2 == 0 && col < startCol {
            continue;
          }
          if row % 2 != 0 && col > startCol {
            continue;
          }
        }
        RunCellsStep(Cell(row, col), rest, View(), env);
        var abort := AbortRequested();
        if abort {
          scanAborted := true;
          break;
        }
        var _ := DoCell(row, col);
        scanAborted, scanPaused := CheckAfterCell();
        if scanAborted || scanPaused {
          break;
        }
      }
      if !scanAborted && !scanPaused {
        RowVisitsEnd(row, k, cols, start, below);
      }
    }

    lemma VisitsEnd(row: int, rows: int, cols: int, start: Cell, x: Exec)
      requires row >= rows
      ensures RunCells(Visits(row, rows, cols, start), x, env) == (x, Finished)
    {
    }

    lemma RowVisitsStep(row: int, k: nat, cols: int, start: Cell, below: seq<Cell>)
      requires k < cols
      ensures var c := CellAt(row, k, cols);
        var rest := RowVisits(row, k + 1, cols, start) + below;
        RowVisits(row, k, cols, start) + below == if Skips(c, start) then rest else [c] + rest
    {
    }

    lemma RowVisitsEnd(row: int, k: nat, cols: int, start: Cell, below: seq<Cell>)
      requires k >= cols
      ensures RowVisits(row, k, cols, start) + below == below
    {
    }

    lemma RunCellsStep(cell: Cell, rest: seq<Cell>, x: Exec, env: Env)
      ensures RunCells([cell] + rest, x, env) ==
        if IsSet(env.abortAt, x.looks) then (ReadFlag(x), Aborted)
        else
          var (after, ending) := AfterCell(ScanRun.DoCell(ReadFlag(x), cell, env), env);
          if ending.Some? then (after, ending.value) else RunCells(rest, after, env)
    {
      assert ([cell] + rest)[1..] == rest;
    }

    /** The checks after each cell: stop without abort pauses, abort aborts. */
    method CheckAfterCell() returns (scanAborted: bool, scanPaused: bool)
      modifies this`looks
      ensures View() == AfterCell(old(View()), env).0
      ensures scanAborted <==> AfterCell(old(View()), env).1 == Some(Aborted)
      ensures scanPaused <==> AfterCell(old(View()), env).1 == Some(Paused)
      ensures AfterCell(old(View()), env).1.None? <==> !scanAborted && !scanPaused
    {
      scanAborted, scanPaused := false, false;
      var stop := StopRequested();
      if stop {
        var abort := AbortRequested();
        if !abort {
          scanPaused := true;
          return;
        }
      }
      scanAborted := AbortRequested();
    }

    method DoCell(row: int, col: int) returns (ok: bool)
      modifies this
      ensures View() == ScanRun.DoCell(old(View()), Cell(row, col), env)
      ensures ok == (env.replies(old(sends)) && env.captures(old(shots)))
    {
      var moved := SerialCmd(M700(Cell(row, col)));
      if !moved {
        progress := Progress(progress.completed, progress.failed + 1, Some(Cell(row, col)));
        PublishProgress(Cell(row, col), false);
        return false;
      }
      var _ := SerialCmd(M114);
      var _ := SerialCmd(M710);
      trace := trace + [CaptureAt(Cell(row, col))];
      var captureOk := env.captures(shots);
      shots := shots + 1;
      var _ := SerialCmd(M711);
      if captureOk {
        progress := progress.(completed := progress.completed + 1);
      } else {
        progress := progress.(failed := progress.failed + 1);
      }
      progress := progress.(last := Some(Cell(row, col)));
      PublishProgress(Cell(row, col), captureOk);
      return captureOk;
    }

    method DoG28() returns (homed: bool)
      modifies this`trace, this`sends
      ensures View() == SendTo(old(View()), G28) && homed == env.replies(old(sends))
    {
      homed := SerialCmd(G28);
    }

    /** A command and whether any reply came back. */
    method SerialCmd(cmd: SerialCommand) returns (replied: bool)
      modifies this`trace, this`sends
      ensures View() == SendTo(old(View()), cmd) && replied == env.replies(old(sends))
    {
      replied := env.replies(sends);
      trace := trace + [Send(cmd)];
      sends := sends + 1;
    }

    method StopRequested() returns (set_: bool)
      modifies this`looks
      ensures View() == ReadFlag(old(View())) && set_ == IsSet(env.stopAt, old(looks))
    {
      set_ := IsSet(env.stopAt, looks);
      looks := looks + 1;
    }

    method AbortRequested() returns (set_: bool)
      modifies this`looks
      ensures View() == ReadFlag(old(View())) && set_ == IsSet(env.abortAt, old(looks))
    {
      set_ := IsSet(env.abortAt, looks);
      looks := looks + 1;
    }

    method PublishProgress(cell: Cell, ok: bool)
      modifies this`messages
      ensures messages == old(messages) + [CellDone(cell, ok, progress.completed, progress.failed)]
    {
      messages := messages + [CellDone(cell, ok, progress.completed, progress.failed)];
    }

    method PublishStatus(status: Status)
      modifies this`messages
      ensures View() == Report(old(View()), status)
    {
      messages := messages + [Final(status, progress.completed, progress.failed, progress.last)];
    }
  }

  /** What one call of `Start` amounts to, fresh or resumed: the cells visited are those of the
      resume theorem as far as the run got. */
  lemma StartOutcome(rows: nat, cols: nat, resume: Option<Cell>, env: Env) returns (n: nat)
    ensures var plan := Plan(rows, cols, resume);
      ProperRun(RunPlan(plan, env), n, plan, env) && SafeTrace(RunPlan(plan, env).trace)
    ensures var x := RunPlan(Plan(rows, cols, resume), env);
      x.progress.completed + x.progress.failed == n == |Moves(x.trace)|
    ensures env.replies(0) && env.stopAt.None? && env.abortAt.None? ==> n == |Plan(rows, cols, resume)|
  {
    hide Plan, RunPlan, SafeTrace, After, Captures, Successes;
    n := RunOutcome(Plan(rows, cols, resume), env);
    var x := RunPlan(Plan(rows, cols, resume), env);
    TotalsAddUp(x.messages[..n], x.progress.completed, x.progress.failed);
    RunIsSafe(Plan(rows, cols, resume), env);
  }
}
