/** One scan run as a function of what the environment does to it: replies that come or not,
    captures that raise or not, and the moments at which stop and abort are requested. */
module ScanRun {
  import opened Prelude
  import opened ScanOrder

  datatype SerialCommand = G28 | M700(cell: Cell) | M114 | M710 | M711

  /** What a run does, in order: commands handed to the serial link, captures, and the start and
      stop of the keepalive thread. */
  datatype Action = Send(cmd: SerialCommand) | CaptureAt(cell: Cell) | KeepaliveOn | KeepaliveOff

  datatype Status = Complete | PausedByStop | AbortedHoming | AbortedEmergency

  /** scan_progress and scan_status messages. */
  datatype Message =
    | CellDone(cell: Cell, ok: bool, completed: nat, failed: nat)
    | Final(status: Status, completed: nat, failed: nat, last: Option<Cell>)

  /** The n-th command handed over gets a reply iff `replies(n)`; the n-th capture succeeds iff
      `captures(n)`. The stop and abort flags are only ever read, so each is placed in time by
      the number of flag reads that still find it unset, if it is ever set. */
  datatype Env = Env(replies: nat -> bool, captures: nat -> bool, stopAt: Option<nat>, abortAt: Option<nat>)

  predicate IsSet(flag: Option<nat>, looks: nat) {
    flag.Some? && flag.value <= looks
  }

  datatype Progress = Progress(completed: nat, failed: nat, last: Option<Cell>)

  datatype Exec = Exec(
    trace: seq<Action>, messages: seq<Message>, progress: Progress, sends: nat, shots: nat, looks: nat)

  const START := Exec([], [], Progress(0, 0, None), 0, 0, 0)

  datatype Ending = Finished | Paused | Aborted

  function SendTo(x: Exec, cmd: SerialCommand): Exec {
    x.(trace := x.trace + [Send(cmd)], sends := x.sends + 1)
  }

  function Do(x: Exec, a: Action): Exec {
    x.(trace := x.trace + [a])
  }

  function ReadFlag(x: Exec): Exec {
    x.(looks := x.looks + 1)
  }

  function Count(x: Exec, cell: Cell, ok: bool): Exec {
    var completed, failed := x.progress.completed + (if ok then 1 else 0), x.progress.failed + (if ok then 0 else 1);
    var p := Progress(completed, failed, Some(cell));
    x.(progress := p, messages := x.messages + [CellDone(cell, ok, p.completed, p.failed)])
  }

  function DoCell(x: Exec, cell: Cell, env: Env): Exec {
    var moved := SendTo(x, M700(cell));
    if !env.replies(x.sends) then Count(moved, cell, false)
    else
      var placed := SendTo(SendTo(moved, M114), M710);
      var shot := Do(placed, CaptureAt(cell)).(shots := placed.shots + 1);
      Count(SendTo(shot, M711), cell, env.captures(x.shots))
  }

  /** After a cell: stop is read first, and abort only if stop is set; if that does not pause
      the scan, abort is read (again). */
  function AfterCell(x: Exec, env: Env): (Exec, Option<Ending>) {
    var x1 := ReadFlag(x);
    if IsSet(env.stopAt, x.looks) then
      var x2 := ReadFlag(x1);
      if !IsSet(env.abortAt, x1.looks) then (x2, Some(Paused))
      else (ReadFlag(x2), if IsSet(env.abortAt, x2.looks) then Some(Aborted) else None)
    else (ReadFlag(x1), if IsSet(env.abortAt, x1.looks) then Some(Aborted) else None)
  }

  function RunCells(cells: seq<Cell>, x: Exec, env: Env): (Exec, Ending)
    decreases |cells|
  {
    if cells == [] then (x, Finished)
    else if IsSet(env.abortAt, x.looks) then (ReadFlag(x), Aborted)
    else
      var (after, ending) := AfterCell(DoCell(ReadFlag(x), cells[0], env), env);
      if ending.Some? then (after, ending.value) else RunCells(cells[1..], after, env)
  }

  function Report(x: Exec, status: Status): Exec {
    x.(messages := x.messages + [Final(status, x.progress.completed, x.progress.failed, x.progress.last)])
  }

  /** A whole run over the planned cells. */
  function RunPlan(plan: seq<Cell>, env: Env): Exec {
    var homed := SendTo(START, G28);
    if !env.replies(0) then Report(homed, AbortedHoming)
    else
      var ready := ReadFlag(homed);
      if IsSet(env.abortAt, homed.looks) then Report(ready, AbortedEmergency)
      else
        var (end, ending) := RunCells(plan, Do(ready, KeepaliveOn), env);
        var off := Do(end, KeepaliveOff);
        match ending
        case Aborted => Report(off, AbortedEmergency)
        case Paused => Report(SendTo(off, G28), PausedByStop)
        case Finished => Report(SendTo(off, G28), Complete)
  }

  // ---- The grammar of traces --------------------------------------------------------

  /** G28 [On (M700 [M114 M710 capture M711])* Off [G28]], each capture at the cell of the move
      before it. */
  datatype Place =
    | AtStart | Homed | Between | Moved(cell: Cell) | Located(cell: Cell) | CameraIn(cell: Cell) | Shot
    | LoopLeft | HomedAgain | Wrong

  function Next(p: Place, a: Action): Place {
    match (p, a)
    case (AtStart, Send(G28)) => Homed
    case (Homed, KeepaliveOn) => Between
    case (Between, Send(M700(c))) => Moved(c)
    case (Moved(_), Send(M700(c))) => Moved(c)
    case (Moved(c), Send(M114)) => Located(c)
    case (Located(c), Send(M710)) => CameraIn(c)
    case (CameraIn(c), CaptureAt(d)) => if c == d then Shot else Wrong
    case (Shot, Send(M711)) => Between
    case (Between, KeepaliveOff) => LoopLeft
    case (Moved(_), KeepaliveOff) => LoopLeft
    case (LoopLeft, Send(G28)) => HomedAgain
    case _ => Wrong
  }

  function After(trace: seq<Action>): Place {
    if trace == [] then AtStart else Next(After(trace[..|trace| - 1]), trace[|trace| - 1])
  }

  /** The cells a trace moves to. */
  function Moves(trace: seq<Action>): seq<Cell> {
    if trace == [] then []
    else
      Moves(trace[..|trace| - 1])
      + match trace[|trace| - 1] case Send(M700(c)) => [c] case _ => []
  }

  lemma AfterAppend(trace: seq<Action>, a: Action)
    ensures After(trace + [a]) == Next(After(trace), a)
    ensures Moves(trace + [a]) == Moves(trace) + match a case Send(M700(c)) => [c] case _ => []
  {
    assert (trace + [a])[..|trace|] == trace;
  }

  predicate InLoop(x: Exec) {
    After(x.trace).Between? || After(x.trace).Moved?
  }

  lemma CellKeepsGrammar(x: Exec, cell: Cell, env: Env)
    requires InLoop(x)
    ensures InLoop(DoCell(x, cell, env))
    ensures Moves(DoCell(x, cell, env).trace) == Moves(x.trace) + [cell]
  {
    CellTrace(x, cell, env);
    hide DoCell, After, Moves;
    var t0 := x.trace;
    var t1 := t0 + [Send(M700(cell))];
    var t2 := t1 + [Send(M114)];
    var t3 := t2 + [Send(M710)];
    var t4 := t3 + [CaptureAt(cell)];
    AfterAppend(t0, Send(M700(cell)));
    AfterAppend(t1, Send(M114));
    AfterAppend(t2, Send(M710));
    AfterAppend(t3, CaptureAt(cell));
    AfterAppend(t4, Send(M711));
  }

  /** The commands of a cell: the move alone if it gets no reply. */
  lemma CellTrace(x: Exec, cell: Cell, env: Env)
    ensures DoCell(x, cell, env).trace ==
            if !env.replies(x.sends) then x.trace + [Send(M700(cell))]
            else x.trace + [Send(M700(cell))] + [Send(M114)] + [Send(M710)] + [CaptureAt(cell)] + [Send(M711)]
  {
  }

  // ---- Accounting -------------------------------------------------------------------

  /** The progress messages after the given cells were attempted: one per cell, in order, each
      with totals that count it and all before it, up to `p`. */
  ghost predicate Accounted(messages: seq<Message>, cells: seq<Cell>, p: Progress) {
    && |messages| == |cells|
    && p.last == (if cells == [] then None else Some(cells[|cells| - 1]))
    && (forall i :: 0 <= i < |cells| ==> messages[i].CellDone? && messages[i].cell == cells[i])
    && RunningTotals(messages, p.completed, p.failed)
  }

  /** The totals of each message are those of the one before, with its own cell added. */
  predicate RunningTotals(messages: seq<Message>, completed: int, failed: int) {
    if messages == [] then completed == 0 && failed == 0
    else
      var m := messages[|messages| - 1];
      && m.CellDone? && m.completed == completed && m.failed == failed
      && RunningTotals(messages[..|messages| - 1],
           completed - (if m.ok then 1 else 0), failed - (if m.ok then 0 else 1))
  }

  /** So they add up to the number of cells attempted so far. */
  lemma {:induction false} TotalsAddUp(messages: seq<Message>, completed: int, failed: int)
    requires RunningTotals(messages, completed, failed)
    ensures completed + failed == |messages|
    ensures forall i :: 0 <= i < |messages| ==>
      messages[i].CellDone? && messages[i].completed + messages[i].failed == i + 1
  {
    if messages != [] {
      var m := messages[|messages| - 1];
      TotalsAddUp(messages[..|messages| - 1], completed - (if m.ok then 1 else 0), failed - (if m.ok then 0 else 1));
    }
  }

  /** The number of captures in a trace, and how many of the first n succeeded. */
  function Captures(trace: seq<Action>): nat {
    if trace == [] then 0
    else Captures(trace[..|trace| - 1]) + if trace[|trace| - 1].CaptureAt? then 1 else 0
  }

  function Successes(captures: nat -> bool, n: nat): nat {
    if n == 0 then 0 else Successes(captures, n - 1) + if captures(n - 1) then 1 else 0
  }

  /** After the cells `done` of a run: where the trace stands and what has been counted. A cell
      counts as completed iff its capture was taken and succeeded. */
  ghost predicate DoneSoFar(x: Exec, done: seq<Cell>, env: Env) {
    && InLoop(x)
    && Moves(x.trace) == done
    && Accounted(x.messages, done, x.progress)
    && Captures(x.trace) == x.shots && x.progress.completed == Successes(env.captures, x.shots)
  }

  lemma CapturesAppend(trace: seq<Action>, a: Action)
    ensures Captures(trace + [a]) == Captures(trace) + if a.CaptureAt? then 1 else 0
  {
    assert (trace + [a])[..|trace|] == trace;
  }

  lemma CellCaptures(x: Exec, cell: Cell, env: Env)
    requires Captures(x.trace) == x.shots && x.progress.completed == Successes(env.captures, x.shots)
    ensures var y := DoCell(x, cell, env);
      Captures(y.trace) == y.shots && y.progress.completed == Successes(env.captures, y.shots)
  {
    var t1 := x.trace + [Send(M700(cell))];
    var t2 := t1 + [Send(M114)];
    var t3 := t2 + [Send(M710)];
    var t4 := t3 + [CaptureAt(cell)];
    CapturesAppend(x.trace, Send(M700(cell)));
    CapturesAppend(t1, Send(M114));
    CapturesAppend(t2, Send(M710));
    CapturesAppend(t3, CaptureAt(cell));
    CapturesAppend(t4, Send(M711));
  }

  lemma CellAccounts(x: Exec, done: seq<Cell>, cell: Cell, env: Env)
    requires Accounted(x.messages, done, x.progress)
    ensures var y := DoCell(x, cell, env); Accounted(y.messages, done + [cell], y.progress)
  {
    hide Accounted;
    AccountOneMore(x.messages, done, x.progress, cell, env.replies(x.sends) && env.captures(x.shots));
  }

  lemma AccountOneMore(messages: seq<Message>, cells: seq<Cell>, p: Progress, cell: Cell, ok: bool)
    requires Accounted(messages, cells, p)
    ensures var q := Progress(p.completed + (if ok then 1 else 0), p.failed + (if ok then 0 else 1), Some(cell));
      Accounted(messages + [CellDone(cell, ok, q.completed, q.failed)], cells + [cell], q)
  {
    var q := Progress(p.completed + (if ok then 1 else 0), p.failed + (if ok then 0 else 1), Some(cell));
    var more := messages + [CellDone(cell, ok, q.completed, q.failed)];
    assert more[..|more| - 1] == messages;
    assert RunningTotals(more, q.completed, q.failed);
    hide RunningTotals;
  }

  lemma CellDoneSoFar(x: Exec, done: seq<Cell>, cell: Cell, env: Env)
    requires DoneSoFar(x, done, env)
    ensures DoneSoFar(DoCell(ReadFlag(x), cell, env), done + [cell], env)
  {
    hide DoCell, Accounted;
    CellKeepsGrammar(ReadFlag(x), cell, env);
    CellCaptures(ReadFlag(x), cell, env);
    CellAccounts(ReadFlag(x), done, cell, env);
  }

  lemma AfterCellOutcome(x: Exec, done: seq<Cell>, env: Env)
    requires DoneSoFar(x, done, env)
    ensures var (after, ending) := AfterCell(x, env);
      && DoneSoFar(after, done, env)
      && (ending.Some? ==> !ending.value.Finished?)
      && (ending == Some(Paused) ==> env.stopAt.Some?)
      && (ending == Some(Aborted) ==> env.abortAt.Some?)
  {
  }

  lemma ReadFlagChangesNothing(x: Exec, done: seq<Cell>, env: Env)
    requires DoneSoFar(x, done, env)
    ensures DoneSoFar(ReadFlag(x), done, env)
  {
  }

  // ---- Whole runs -------------------------------------------------------------------

  /** How the loop ends, and after how many cells. */
  lemma {:induction false} LoopOutcome(cells: seq<Cell>, x: Exec, env: Env, done: seq<Cell>) returns (n: nat)
    requires DoneSoFar(x, done, env)
    ensures n <= |cells|
    ensures var (end, ending) := RunCells(cells, x, env);
      && DoneSoFar(end, done + cells[..n], env)
      && (ending.Finished? ==> n == |cells|)
      && (ending.Paused? ==> n > 0 && env.stopAt.Some?)
      && (ending.Aborted? ==> env.abortAt.Some?)
    decreases |cells|
  {
    hide DoCell, AfterCell, DoneSoFar;
    if cells == [] || IsSet(env.abortAt, x.looks) {
      ReadFlagChangesNothing(x, done, env);
      n := 0;
      assert done + cells[..n] == done;
    } else {
      CellDoneSoFar(x, done, cells[0], env);
      var y := DoCell(ReadFlag(x), cells[0], env);
      AfterCellOutcome(y, done + [cells[0]], env);
      var (after, ending) := AfterCell(y, env);
      if ending.Some? {
        n := 1;
        assert cells[..1] == [cells[0]];
      } else {
        n := LoopOutcome(cells[1..], after, env, done + [cells[0]]);
        assert done + [cells[0]] + cells[1..][..n] == done + cells[..n + 1];
        n := n + 1;
      }
    }
  }

  /** The place of a run's trace when it ends with the given status after n planned cells. */
  predicate EndsProperly(status: Status, n: nat, plan: seq<Cell>, p: Place, env: Env) {
    match status
    case Complete => n == |plan| && p.HomedAgain?
    case PausedByStop => n > 0 && env.stopAt.Some? && p.HomedAgain?
    case AbortedHoming => n == 0 && p.Homed?
    case AbortedEmergency => env.abortAt.Some? && (p.LoopLeft? || (n == 0 && p.Homed?))
  }

  /** A finished run that attempted the first n planned cells. Its messages are one progress
      message per cell and then one status, which carries the final totals. */
  ghost predicate ProperRun(x: Exec, n: nat, plan: seq<Cell>, env: Env) {
    && n <= |plan| && |x.messages| == n + 1
    && Moves(x.trace) == plan[..n]
    && Accounted(x.messages[..n], plan[..n], x.progress)
    && x.progress.completed == Successes(env.captures, Captures(x.trace))
    && x.messages[n].Final?
    && x.messages[n] == Final(x.messages[n].status, x.progress.completed, x.progress.failed, x.progress.last)
    && EndsProperly(x.messages[n].status, n, plan, After(x.trace), env)
    && (x.messages[n].status.AbortedHoming? <==> !env.replies(0))
  }

  lemma Reported(x: Exec, status: Status, done: seq<Cell>)
    requires Accounted(x.messages, done, x.progress)
    ensures var m := Report(x, status).messages; |m| == |done| + 1 && m[..|done|] == x.messages
  {
  }

  /** For every timing of stop and abort, every pattern of missing replies and failed captures:
      the trace fits the grammar; nothing moves unless the first G28 was answered; the cells
      moved to are a prefix of the plan; the final G28 comes iff the loop was entered and not
      aborted; there is one progress message per cell and then exactly one status, whose totals
      add up to the cells attempted and whose last cell is the last one visited; "completed"
      counts the successful captures; and "complete" means that every planned cell was
      attempted. */
  lemma RunOutcome(plan: seq<Cell>, env: Env) returns (n: nat)
    ensures ProperRun(RunPlan(plan, env), n, plan, env)
  {
    hide RunPlan, ProperRun;
    if !env.replies(0) || IsSet(env.abortAt, 0) {
      NotEntered(plan, env);
      n := 0;
    } else {
      n := EnteredLoop(plan, env);
    }
  }

  lemma NotEntered(plan: seq<Cell>, env: Env)
    requires !env.replies(0) || IsSet(env.abortAt, 0)
    ensures ProperRun(RunPlan(plan, env), 0, plan, env)
  {
    hide RunCells, Successes, After, Moves, Captures, Accounted;
    OnlyHomed();
    NoSuccessesYet(env);
    NothingAccounted();
    Reported(SendTo(START, G28), if env.replies(0) then AbortedEmergency else AbortedHoming, []);
    assert plan[..0] == [];
  }

  lemma OnlyHomed()
    ensures var t := SendTo(START, G28).trace; After(t) == Homed && Moves(t) == [] && Captures(t) == 0
    ensures var t := SendTo(START, G28).trace + [KeepaliveOn]; After(t) == Between && Moves(t) == [] && Captures(t) == 0
  {
    var t := SendTo(START, G28).trace;
    assert t == [] + [Send(G28)];
    AfterAppend([], Send(G28));
    CapturesAppend([], Send(G28));
    AfterAppend(t, KeepaliveOn);
    CapturesAppend(t, KeepaliveOn);
  }

  /** Leaving the loop, with or without the final G28. */
  lemma Leaving(trace: seq<Action>)
    requires After(trace).Between? || After(trace).Moved?
    ensures var off := trace + [KeepaliveOff];
      After(off) == LoopLeft && Moves(off) == Moves(trace) && Captures(off) == Captures(trace)
    ensures var home := trace + [KeepaliveOff] + [Send(G28)];
      After(home) == HomedAgain && Moves(home) == Moves(trace) && Captures(home) == Captures(trace)
  {
    AfterAppend(trace, KeepaliveOff);
    CapturesAppend(trace, KeepaliveOff);
    AfterAppend(trace + [KeepaliveOff], Send(G28));
    CapturesAppend(trace + [KeepaliveOff], Send(G28));
  }

  lemma EnteredLoop(plan: seq<Cell>, env: Env) returns (n: nat)
    requires env.replies(0) && !IsSet(env.abortAt, 0)
    ensures ProperRun(RunPlan(plan, env), n, plan, env)
  {
    hide RunCells, Successes, After, Moves, Captures, Accounted;
    var on := Do(ReadFlag(SendTo(START, G28)), KeepaliveOn);
    OnlyHomed();
    NoSuccessesYet(env);
    NothingAccounted();
    n := LoopOutcome(plan, on, env, []);
    var (end, ending) := RunCells(plan, on, env);
    assert [] + plan[..n] == plan[..n];
    Leaving(end.trace);
    Reported(end, Complete, plan[..n]);
  }

  lemma NothingAccounted()
    ensures Accounted([], [], Progress(0, 0, None))
  {
  }

  lemma NoSuccessesYet(env: Env)
    ensures Successes(env.captures, 0) == 0
  {
  }

  // ---- What the grammar means -------------------------------------------------------

  /** The "camera in" at `i` is followed at once by the capture and "camera out". */
  predicate OutAgain(trace: seq<Action>, i: nat)
    requires i < |trace|
  {
    i + 2 < |trace| && trace[i + 1].CaptureAt? && trace[i + 2] == Send(M711)
  }

  /** In a trace that fits the grammar every "camera in" is followed by capture and "camera out",
      unless the trace ends in between. */
  lemma {:induction false} CameraComesOut(trace: seq<Action>, i: nat)
    requires i < |trace| && trace[i] == Send(M710)
    requires !After(trace).Wrong?
    ensures match After(trace)
      case CameraIn(_) => i == |trace| - 1 || OutAgain(trace, i)
      case Shot => (i == |trace| - 2 && trace[i + 1].CaptureAt?) || OutAgain(trace, i)
      case _ => OutAgain(trace, i)
  {
    var front := trace[..|trace| - 1];
    if i < |front| {
      CameraComesOut(front, i);
    }
  }

  /** No move, and no camera command, comes before the opening G28. */
  lemma {:induction false} HomesFirst(trace: seq<Action>)
    requires trace != [] && !After(trace).Wrong?
    ensures trace[0] == Send(G28)
  {
    if |trace| > 1 {
      HomesFirst(trace[..|trace| - 1]);
    } else {
      assert trace[..0] == [];
    }
  }

  /** Homing first, and every "camera in" followed at once by capture and "camera out". */
  ghost predicate SafeTrace(trace: seq<Action>) {
    && trace != [] && trace[0] == Send(G28)
    && forall i :: 0 <= i < |trace| && trace[i] == Send(M710) ==> OutAgain(trace, i)
  }

  lemma FinishedTraceIsSafe(trace: seq<Action>)
    requires trace != []
    requires After(trace).HomedAgain? || After(trace).LoopLeft? || After(trace).Homed?
    ensures SafeTrace(trace)
  {
    HomesFirst(trace);
    forall i | 0 <= i < |trace| && trace[i] == Send(M710) ensures OutAgain(trace, i) {
      CameraComesOut(trace, i);
    }
  }

  lemma ProperEnd(x: Exec, n: nat, plan: seq<Cell>, env: Env)
    requires ProperRun(x, n, plan, env)
    ensures var p := After(x.trace); p.HomedAgain? || p.LoopLeft? || p.Homed?
    ensures x.trace != []
    ensures Moves(x.trace) != [] ==> env.replies(0)
  {
    hide Accounted, Successes, Captures;
  }

  /** On every run: homing comes first, nothing moves unless it was answered, and the camera is
      never left in the rack when the gantry moves. */
  lemma RunIsSafe(plan: seq<Cell>, env: Env)
    ensures SafeTrace(RunPlan(plan, env).trace)
    ensures Moves(RunPlan(plan, env).trace) != [] ==> env.replies(0)
  {
    hide *;
    var n := RunOutcome(plan, env);
    ProperEnd(RunPlan(plan, env), n, plan, env);
    FinishedTraceIsSafe(RunPlan(plan, env).trace);
  }
}
