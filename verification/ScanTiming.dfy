/** Exactly how a scan run ends, and after how many cells, for every moment at which stop and abort
    can be requested. */
module ScanTiming {
  import opened Prelude
  import opened ScanOrder
  import opened ScanRun

  /** The flags are read once before the loop, and three times a cell: abort before it, stop and
      abort after it. So cell i lies between the reads 3i + 1 and 3i + 2. */
  function StopCell(stopAt: nat): nat {
    stopAt / 3
  }

  /** Abort is found set before cell n was begun, or after cell n - 1. */
  function CellsBeforeAbort(abortAt: nat): nat {
    (abortAt + 1) / 3
  }

  /** Abort is in force by the second look at it after the cell during which stop is found. */
  predicate AbortByStop(env: Env)
    requires env.stopAt.Some?
  {
    env.abortAt.Some? && env.abortAt.value <= 3 * StopCell(env.stopAt.value) + 3
  }

  predicate EndsAborted(cells: nat, env: Env) {
    && env.abortAt.Some? && env.abortAt.value <= 3 * cells
    && (env.stopAt.Some? ==> AbortByStop(env))
  }

  predicate EndsPaused(cells: nat, env: Env) {
    env.stopAt.Some? && StopCell(env.stopAt.value) < cells && !AbortByStop(env)
  }

  /** The ending of a loop over so many cells. */
  function EndingOf(cells: nat, env: Env): Ending {
    if EndsAborted(cells, env) then Aborted else if EndsPaused(cells, env) then Paused else Finished
  }

  /** How many of them it attempts. */
  function Attempted(cells: nat, env: Env): nat {
    if EndsAborted(cells, env) then CellsBeforeAbort(env.abortAt.value)
    else if EndsPaused(cells, env) then StopCell(env.stopAt.value) + 1
    else cells
  }

  /** The loop after `done` undisturbed cells. */
  lemma {:induction false} LoopEndsExactly(cells: seq<Cell>, done: nat, x: Exec, env: Env)
    requires x.looks == 3 * done + 1
    requires env.abortAt.Some? ==> env.abortAt.value > 3 * done
    requires env.stopAt.Some? ==> env.stopAt.value >= 3 * done
    ensures var (end, ending) := RunCells(cells, x, env);
      && ending == EndingOf(done + |cells|, env)
      && done <= Attempted(done + |cells|, env) <= done + |cells|
      && Moves(end.trace) == Moves(x.trace) + cells[..Attempted(done + |cells|, env) - done]
    decreases |cells|
  {
    hide DoCell, Moves;
    if cells == [] {
      assert cells[..0] == [];
    } else if IsSet(env.abortAt, x.looks) {
      assert Attempted(done + |cells|, env) == done;
      assert cells[..0] == [];
    } else {
      var y := DoCell(ReadFlag(x), cells[0], env);
      CellMoves(ReadFlag(x), cells[0], env);
      CellReadsNoFlag(ReadFlag(x), cells[0], env);
      var (after, ending) := AfterCell(y, env);
      assert after.trace == y.trace;
      if ending.Some? {
        assert cells[..1] == [cells[0]];
        assert Attempted(done + |cells|, env) == done + 1;
      } else {
        LoopEndsExactly(cells[1..], done + 1, after, env);
        var n := Attempted(done + |cells|, env);
        assert [cells[0]] + cells[1..][..n - done - 1] == cells[..n - done];
      }
    }
  }

  lemma CellReadsNoFlag(x: Exec, cell: Cell, env: Env)
    ensures DoCell(x, cell, env).looks == x.looks
  {
  }

  lemma CellMoves(x: Exec, cell: Cell, env: Env)
    ensures Moves(DoCell(x, cell, env).trace) == Moves(x.trace) + [cell]
  {
    CellTrace(x, cell, env);
    hide DoCell, Moves;
    var t1 := x.trace + [Send(M700(cell))];
    var t2 := t1 + [Send(M114)];
    var t3 := t2 + [Send(M710)];
    var t4 := t3 + [CaptureAt(cell)];
    AfterAppend(x.trace, Send(M700(cell)));
    AfterAppend(t1, Send(M114));
    AfterAppend(t2, Send(M710));
    AfterAppend(t3, CaptureAt(cell));
    AfterAppend(t4, Send(M711));
  }

  function StatusOf(cells: nat, env: Env): Status {
    if !env.replies(0) then AbortedHoming
    else match EndingOf(cells, env)
      case Aborted => AbortedEmergency
      case Paused => PausedByStop
      case Finished => Complete
  }

  /** Every run: its status and the cells it moves to are decided by the first reply and by when the
      flags are set, and by nothing else. Paused iff stop is found after a planned cell with abort
      still unset; aborted iff abort is found first. Once a flag is set no cell is begun after
      the one under way. */
  lemma RunEndsExactly(plan: seq<Cell>, env: Env)
    ensures var x := RunPlan(plan, env);
      var n := if env.replies(0) then Attempted(|plan|, env) else 0;
      && n <= |plan| && Moves(x.trace) == plan[..n]
      && x.messages != [] && x.messages[|x.messages| - 1].Final?
      && x.messages[|x.messages| - 1].status == StatusOf(|plan|, env)
  {
    hide Moves, RunCells, EndingOf, Attempted;
    OnlyHomed();
    hide After;
    assert plan[..0] == [];
    if env.replies(0) {
      if IsSet(env.abortAt, 0) {
        AbortedAtOnce(|plan|, env);
      } else {
        var on := Do(ReadFlag(SendTo(START, G28)), KeepaliveOn);
        LoopEndsExactly(plan, 0, on, env);
        var end := RunCells(plan, on, env).0;
        AfterAppend(end.trace, KeepaliveOff);
        AfterAppend(end.trace + [KeepaliveOff], Send(G28));
        assert [] + plan[..Attempted(|plan|, env)] == plan[..Attempted(|plan|, env)];
      }
    }
  }

  lemma AbortedAtOnce(cells: nat, env: Env)
    requires IsSet(env.abortAt, 0)
    ensures EndingOf(cells, env) == Aborted && Attempted(cells, env) == 0
  {
  }

  /** Of the cells attempted, none was begun after a look that would have found a flag set: the
      last one began before stop's look 3i + 2 for its cell i, and before abort's look 3i + 1. */
  lemma NoCellAfterFlag(cells: nat, env: Env)
    ensures env.stopAt.Some? ==> Attempted(cells, env) <= StopCell(env.stopAt.value) + 1
    ensures env.abortAt.Some? ==> Attempted(cells, env) <= CellsBeforeAbort(env.abortAt.value)
    ensures env.stopAt == Some(0) || env.abortAt == Some(0) ==> Attempted(cells, env) <= 1
    ensures EndingOf(cells, env).Finished? <==>
      && (env.stopAt.Some? ==> StopCell(env.stopAt.value) >= cells)
      && (env.abortAt.Some? ==> env.abortAt.value > 3 * cells)
  {
    if env.stopAt.Some? {
      assert 3 * StopCell(env.stopAt.value) <= env.stopAt.value;
    }
  }
}
