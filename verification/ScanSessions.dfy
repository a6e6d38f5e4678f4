/** The server's record of a scan: what the Pi's progress and status messages make of the session
    row. Progress messages may be lost on the way, the status arrives at least once. */
module ScanSessions {
  import opened Prelude
  import opened ScanOrder
  import opened ScanRun
  import R = RackProtocol
  import I = RackInvariants
  import S = RackSafety
  import Q = QueueOrder

  /** A `scan_sessions` row. */
  datatype SessionRow = SessionRow(
    rack: string, status: string, completed: int, failed: int, last: Option<Cell>, abortReason: Option<string>)

  /** `releases` lists the calls of `release_lock`, `scanStates` the racks and their scan_state. */
  datatype Book = Book(
    sessions: map<nat, SessionRow>, scanStates: map<string, string>, active: map<string, nat>,
    resumeWindows: map<string, int>, releases: seq<string>, staleMarks: set<string>)

  const RESUME_WINDOW_S := 300

  function StatusText(s: Status): string {
    match s
    case Complete => "complete"
    case PausedByStop => "paused"
    case AbortedHoming => "aborted"
    case AbortedEmergency => "aborted"
  }

  function AbortReason(s: Status): Option<string> {
    match s
    case AbortedHoming => Some("homing_failed")
    case AbortedEmergency => Some("emergency_stop")
    case _ => None
  }

  /** What one message writes into the session row. */
  function Updated(row: SessionRow, m: Message): SessionRow {
    match m
    case CellDone(cell, _, completed, failed) => row.(completed := completed, failed := failed, last := Some(cell))
    case Final(PausedByStop, _, _, last) => row.(status := "paused", last := last)
    case Final(Complete, _, _, _) => row.(status := "complete")
    case Final(status, _, _, _) => row.(status := "aborted", abortReason := AbortReason(status))
  }

  function SessionUpdated(sessions: map<nat, SessionRow>, session: Option<nat>, m: Message): map<nat, SessionRow> {
    if session.Some? && session.value != 0 && session.value in sessions
    then sessions[session.value := Updated(sessions[session.value], m)]
    else sessions
  }

  /** What one message from a rack does. */
  function Received(b: Book, rack: string, session: Option<nat>, m: Message, now: int): Book {
    match m
    case CellDone(_, _, _, _) =>
      b.(sessions := SessionUpdated(b.sessions, session, m),
         scanStates := if rack in b.scanStates then b.scanStates[rack := "running"] else b.scanStates)
    case Final(status, _, _, _) =>
      if rack !in b.scanStates then b
      else
        var c := b.(sessions := SessionUpdated(b.sessions, session, m),
                    scanStates := b.scanStates[rack := StatusText(status)]);
        match status
        case Complete => c.(releases := b.releases + [rack], active := b.active - {rack})
        case PausedByStop => c.(resumeWindows := b.resumeWindows[rack := now + RESUME_WINDOW_S])
        case AbortedHoming =>
          c.(releases := b.releases + [rack], active := b.active - {rack}, resumeWindows := b.resumeWindows - {rack})
        case AbortedEmergency =>
          c.(releases := b.releases + [rack], active := b.active - {rack}, resumeWindows := b.resumeWindows - {rack},
             staleMarks := b.staleMarks + {rack})
  }

  class Tracker {
    var sessions: map<nat, SessionRow>
    var scanStates: map<string, string>
    var active: map<string, nat>
    var resumeWindows: map<string, int>
    var releases: seq<string>
    var staleMarks: set<string>

    constructor (b: Book)
      ensures View() == b
    {
      sessions, scanStates, active := b.sessions, b.scanStates, b.active;
      resumeWindows, releases, staleMarks := b.resumeWindows, b.releases, b.staleMarks;
    }

    ghost function View(): Book
      reads this
    {
      Book(sessions, scanStates, active, resumeWindows, releases, staleMarks)
    }

    /** `on_scan_progress`. */
    method OnScanProgress(rack: string, session: Option<nat>, cell: Cell, ok: bool, completed: nat, failed: nat,
      now: int)
      modifies this`sessions, this`scanStates
      ensures View() == Received(old(View()), rack, session, CellDone(cell, ok, completed, failed), now)
    {
      if session.Some? && session.value != 0 && session.value in sessions {
        var row := sessions[session.value];
        row := row.(completed := completed, failed := failed);
        row := row.(last := Some(cell));
        sessions := sessions[session.value := row];
      }
      if rack in scanStates {
        scanStates := scanStates[rack := "running"];
      }
    }

    /** `on_scan_status`. */
    method OnScanStatus(rack: string, session: Option<nat>, status: Status, completed: nat, failed: nat,
      last: Option<Cell>, now: int)
      modifies this
      ensures View() == Received(old(View()), rack, session, Final(status, completed, failed, last), now)
    {
      if rack !in scanStates {
        return;
      }
      var found := session.Some? && session.value != 0 && session.value in sessions;
      if status.Complete? {
        if found {
          sessions := sessions[session.value := sessions[session.value].(status := "complete")];
        }
        scanStates := scanStates[rack := "complete"];
        releases := releases + [rack];
        active := active - {rack};
      } else if status.PausedByStop? {
        if found {
          sessions := sessions[session.value := sessions[session.value].(status := "paused", last := last)];
        }
        scanStates := scanStates[rack := "paused"];
        resumeWindows := resumeWindows[rack := now + RESUME_WINDOW_S];
      } else {
        if found {
          sessions := sessions[session.value :=
            sessions[session.value].(status := "aborted", abortReason := AbortReason(status))];
        }
        scanStates := scanStates[rack := "aborted"];
        releases := releases + [rack];
        active := active - {rack};
        resumeWindows := resumeWindows - {rack};
        if status.AbortedEmergency? {
          staleMarks := staleMarks + {rack};
        }
      }
    }
  }

  // ---- What arrives -----------------------------------------------------------------

  /** Of the messages sent, those that arrive: in order, each progress message at most once, each
      status at least once. */
  predicate Arrives(sent: seq<Message>, got: seq<Message>)
    decreases |sent| + |got|
  {
    if sent == [] then got == []
    else
      var front, last := sent[..|sent| - 1], sent[|sent| - 1];
      if last.CellDone? then
        Arrives(front, got) || (got != [] && got[|got| - 1] == last && Arrives(front, got[..|got| - 1]))
      else
        && got != [] && got[|got| - 1] == last
        && (Arrives(front, got[..|got| - 1]) || Arrives(sent, got[..|got| - 1]))
  }

  function RowAfter(row: SessionRow, got: seq<Message>): SessionRow {
    if got == [] then row else Updated(RowAfter(row, got[..|got| - 1]), got[|got| - 1])
  }

  /** All messages of one run, at the times given. */
  function Deliver(b: Book, rack: string, session: nat, got: seq<Message>, clock: nat -> int): Book {
    if got == [] then b
    else
      var n := |got| - 1;
      Received(Deliver(b, rack, session, got[..n], clock), rack, Some(session), got[n], clock(n))
  }

  /** What one message does to a book that knows the session and the rack. */
  lemma ReceivedEffect(b: Book, rack: string, session: nat, m: Message, now: int)
    requires session != 0 && session in b.sessions && rack in b.scanStates
    ensures var after := Received(b, rack, Some(session), m, now);
      && after.sessions == b.sessions[session := Updated(b.sessions[session], m)]
      && after.releases == b.releases + (if EndsScan(m) then [rack] else [])
      && after.scanStates.Keys == b.scanStates.Keys
      && forall other :: other in b.scanStates && other != rack ==> after.scanStates[other] == b.scanStates[other]
  {
    hide Updated;
  }

  predicate EndsScan(m: Message) {
    m.Final? && !m.status.PausedByStop?
  }

  /** Messages write the row they name and no other, and each status that ends the scan releases
      the rack's lock once more. */
  lemma {:induction false} DeliverWritesOneRow(b: Book, rack: string, session: nat, got: seq<Message>,
    clock: nat -> int)
    requires session != 0 && session in b.sessions && rack in b.scanStates
    ensures var after := Deliver(b, rack, session, got, clock);
      && after.sessions == b.sessions[session := RowAfter(b.sessions[session], got)]
      && after.releases == b.releases + seq(Endings(got), _ => rack)
      && after.scanStates.Keys == b.scanStates.Keys
      && forall other :: other in b.scanStates && other != rack ==> after.scanStates[other] == b.scanStates[other]
  {
    hide Updated, Received;
    if got != [] {
      var front := got[..|got| - 1];
      DeliverWritesOneRow(b, rack, session, front, clock);
      ReceivedEffect(Deliver(b, rack, session, front, clock), rack, session, got[|got| - 1], clock(|got| - 1));
    }
  }

  function Endings(got: seq<Message>): nat {
    if got == [] then 0
    else Endings(got[..|got| - 1]) + if got[|got| - 1].Final? && !got[|got| - 1].status.PausedByStop? then 1 else 0
  }

  // ---- The row and the run ----------------------------------------------------------

  predicate Progressing(sent: seq<Message>) {
    forall i :: 0 <= i < |sent| ==> sent[i].CellDone? && sent[i].completed + sent[i].failed == i + 1
  }

  /** The row shows the last progress message that arrived, the m-th of those sent. */
  lemma {:induction false} RowShowsLastArrived(sent: seq<Message>, got: seq<Message>, row: SessionRow) returns (m: nat)
    requires Progressing(sent) && Arrives(sent, got)
    ensures m <= |sent| && (m > 0 ==> sent[m - 1] in got)
    ensures forall j :: m <= j < |sent| ==> sent[j] !in got
    ensures forall g :: g in got ==> g in sent
    ensures RowAfter(row, got) == if m == 0 then row else Updated(row, sent[m - 1])
  {
    if sent == [] {
      m := 0;
    } else {
      var n := |sent| - 1;
      var front, last := sent[..n], sent[n];
      assert forall i :: 0 <= i < n ==> sent[i] != last;
      assert last !in front;
      if Arrives(front, got) {
        m := RowShowsLastArrived(front, got, row);
      } else {
        var before := got[..|got| - 1];
        var k := RowShowsLastArrived(front, before, row);
        m := n + 1;
        assert got == before + [last];
      }
    }
  }

  /** Repeating the status changes nothing in the row. */
  lemma {:induction false} StatusEndsRow(progress: seq<Message>, final: Message, got: seq<Message>, row: SessionRow)
    returns (before: seq<Message>)
    requires Progressing(progress) && final.Final? && Arrives(progress + [final], got)
    ensures Arrives(progress, before)
    ensures RowAfter(row, got) == Updated(RowAfter(row, before), final)
    ensures forall g :: g in got <==> g in before || g == final
    decreases |got|
  {
    var sent := progress + [final];
    assert sent[..|sent| - 1] == progress;
    var rest := got[..|got| - 1];
    assert got == rest + [final];
    if Arrives(progress, rest) {
      before := rest;
    } else {
      before := StatusEndsRow(progress, final, rest, row);
    }
  }

  /** A session as it is when its scan is started. */
  predicate NewSession(row: SessionRow) {
    row.status == "running" && row.completed == 0 && row.failed == 0 && row.last.None? && row.abortReason.None?
  }

  /** What the row of a session says after a run that attempted n planned cells, whichever
      progress messages were lost: the right status; the totals of the last progress message that
      arrived, which are those of the run iff the last one sent did; and for a paused run the
      right resume point in any case. */
  ghost predicate RowMatches(row: SessionRow, x: Exec, n: nat, plan: seq<Cell>, m: nat, got: seq<Message>)
    requires n <= |plan| && |x.messages| == n + 1 && x.messages[n].Final?
  {
    var status := x.messages[n].status;
    && m <= n
    && (row.status, row.abortReason) == Words(status)
    && row.completed + row.failed == m
    && (m == n <==> n == 0 || x.messages[n - 1] in got)
    && (m == n ==> row.completed == x.progress.completed && row.failed == x.progress.failed)
    && (status.PausedByStop? ==> n > 0 && row.last == Some(plan[n - 1]))
    && (!status.PausedByStop? ==> row.last == if m == 0 then None else Some(plan[m - 1]))
  }

  /** How a row reads after a run. */
  ghost function Words(s: Status): (string, Option<string>) {
    match s
    case Complete => ("complete", None)
    case PausedByStop => ("paused", None)
    case AbortedHoming => ("aborted", Some("homing_failed"))
    case AbortedEmergency => ("aborted", Some("emergency_stop"))
  }

  lemma SessionFollowsRun(x: Exec, n: nat, plan: seq<Cell>, env: Env, got: seq<Message>, row: SessionRow)
    returns (m: nat)
    requires ProperRun(x, n, plan, env) && Arrives(x.messages, got) && NewSession(row)
    ensures RowMatches(RowAfter(row, got), x, n, plan, m, got)
  {
    hide RowAfter, Arrives;
    var progress, final := x.messages[..n], x.messages[n];
    assert x.messages == progress + [final];
    MessagesOfRun(x, n, plan, env);
    hide ProperRun;
    var before := StatusEndsRow(progress, final, got, row);
    m := RowShowsLastArrived(progress, before, row);
    if m > 0 {
      assert progress[m - 1] == x.messages[m - 1];
    }
    if n > 0 {
      assert progress[n - 1] == x.messages[n - 1];
    }
  }

  /** The messages of a run, one by one. */
  lemma MessagesOfRun(x: Exec, n: nat, plan: seq<Cell>, env: Env)
    requires ProperRun(x, n, plan, env)
    ensures n <= |plan| && |x.messages| == n + 1 && x.messages[n].Final?
    ensures Progressing(x.messages[..n])
    ensures forall i :: 0 <= i < n ==> x.messages[i].CellDone? && x.messages[i].cell == plan[i]
    ensures n > 0 ==>
      x.messages[n - 1].completed == x.progress.completed && x.messages[n - 1].failed == x.progress.failed
    ensures n == 0 ==> x.progress.completed == 0 && x.progress.failed == 0
    ensures x.messages[n].status.PausedByStop? ==> n > 0 && x.messages[n].last == Some(plan[n - 1])
  {
    hide Moves, After, Captures, Successes;
    var progress := x.messages[..n];
    TotalsAddUp(progress, x.progress.completed, x.progress.failed);
    assert forall i :: 0 <= i < n ==> progress[i] == x.messages[i] && plan[..n][i] == plan[i];
  }

  /** A completed fresh scan has attempted every cell, but its row adds up to the size of the grid
      iff the last progress message arrived. */
  lemma CompleteSessionAddsUpIff(rows: nat, cols: nat, env: Env, got: seq<Message>, row: SessionRow)
    requires Arrives(RunPlan(Plan(rows, cols, None), env).messages, got) && NewSession(row)
    requires RowAfter(row, got).status == "complete"
    ensures var x := RunPlan(Plan(rows, cols, None), env);
      var after := RowAfter(row, got);
      && |x.messages| == rows * cols + 1
      && Moves(x.trace) == Plan(rows, cols, None)
      && (after.completed + after.failed == rows * cols
          <==> rows * cols == 0 || x.messages[rows * cols - 1] in got)
  {
    hide RunPlan, Plan, RowAfter, Arrives, Accounted, Moves, After, Captures, Successes;
    var plan := Plan(rows, cols, None);
    var n := RunOutcome(plan, env);
    var m := SessionFollowsRun(RunPlan(plan, env), n, plan, env, got, row);
    FreshScanIsBijection(rows, cols);
    assert plan[..|plan|] == plan;
  }

  /** A fresh scan that was paused, resumed from the point its row holds, and then completed:
      together the two runs visit the whole grid iff the resume point is not in the last
      column, or the rack has one column, or it is the end of the last row, an even one. No loss
      of progress messages matters. */
  lemma PausedScanResumes(rows: nat, cols: nat, env: Env, got: seq<Message>, row: SessionRow, again: Env)
    requires Arrives(RunPlan(Plan(rows, cols, None), env).messages, got) && NewSession(row)
    requires RowAfter(row, got).status == "paused"
    requires var second := RunPlan(Plan(rows, cols, RowAfter(row, got).last), again).messages;
      second != [] && second[|second| - 1].Final? && second[|second| - 1].status.Complete?
    ensures RowAfter(row, got).last.Some?
    ensures var first := RunPlan(Plan(rows, cols, None), env);
      var last := RowAfter(row, got).last.value;
      var second := RunPlan(Plan(rows, cols, Some(last)), again);
      ((forall x :: InGrid(x, rows, cols) ==> x in Moves(first.trace) || x in Moves(second.trace))
        <==> last.col < cols - 1 || cols == 1 || (last.row % 2 == 0 && last.row == rows - 1))
  {
    hide RunPlan, Plan, RowAfter, Arrives, Accounted, Moves, After, Captures, Successes;
    var plan := Plan(rows, cols, None);
    var first := RunPlan(plan, env);
    var n := RunOutcome(plan, env);
    var _ := SessionFollowsRun(first, n, plan, env, got, row);
    var last := RowAfter(row, got).last.value;
    assert last == plan[n - 1];
    FreshScanIsBijection(rows, cols);
    var rest := Plan(rows, cols, Some(last));
    var second := RunPlan(rest, again);
    var k := RunOutcome(rest, again);
    assert rest[..k] == rest;
    ResumeCoversGridIff(rows, cols, last.row, last.col);
  }

  // ---- Status messages and the rack's lock ------------------------------------------

  /** A message as it arrives: what happened on the rack since the one before, and how the
      release that it may cause goes. */
  datatype Arrival = Arrival(message: Message, meanwhile: seq<R.Step>, sees: R.Sees, env: R.Env)

  function Messages(arrivals: seq<Arrival>): (m: seq<Message>)
    ensures |m| == |arrivals| && forall i :: 0 <= i < |m| ==> m[i] == arrivals[i].message
  {
    seq(|arrivals|, i requires 0 <= i < |arrivals| => arrivals[i].message)
  }

  /** The book and the rack together: the messages go into the book, and each call of
      `release_lock` that the book records is carried out on the rack. */
  function Together(b: Book, r: R.Rack, rack: string, session: nat, arrivals: seq<Arrival>, t: R.Timeouts): (Book,
    R.Rack)
    decreases |arrivals|
  {
    if arrivals == [] then (b, r)
    else
      var last := arrivals[|arrivals| - 1];
      var (c, q) := Together(b, r, rack, session, arrivals[..|arrivals| - 1], t);
      var d := Received(c, rack, Some(session), last.message, last.env.now);
      var now := R.Run(q, last.meanwhile, t);
      (d, if |d.releases| > |c.releases| then R.Release(now, last.sees, last.env, t) else now)
  }

  /** The rack as a message finds it. */
  function Found(b: Book, r: R.Rack, rack: string, session: nat, arrivals: seq<Arrival>, t: R.Timeouts): R.Rack
    requires arrivals != []
  {
    R.Run(Together(b, r, rack, session, arrivals[..|arrivals| - 1], t).1, arrivals[|arrivals| - 1].meanwhile, t)
  }

  /** The book's side of it is the delivery of the messages, with one release for each that ends
      the scan; and on the rack just these release. */
  lemma {:induction false} ReleasesAreCarriedOut(b: Book, r: R.Rack, rack: string, session: nat, arrivals: seq<Arrival>,
    t: R.Timeouts)
    requires session != 0 && session in b.sessions && rack in b.scanStates
    ensures var (after, q) := Together(b, r, rack, session, arrivals, t);
      && after.sessions == b.sessions[session := RowAfter(b.sessions[session], Messages(arrivals))]
      && after.releases == b.releases + seq(Endings(Messages(arrivals)), _ => rack)
      && after.scanStates.Keys == b.scanStates.Keys
    ensures arrivals != [] ==>
      var last := arrivals[|arrivals| - 1];
      var found := Found(b, r, rack, session, arrivals, t);
      Together(b, r, rack, session, arrivals, t).1
        == if EndsScan(last.message) then R.Release(found, last.sees, last.env, t) else found
  {
    hide Updated, Received, R.Release, R.Run;
    if arrivals != [] {
      var front, last := arrivals[..|arrivals| - 1], arrivals[|arrivals| - 1];
      ReleasesAreCarriedOut(b, r, rack, session, front, t);
      var c := Together(b, r, rack, session, front, t).0;
      ReceivedEffect(c, rack, session, last.message, last.env.now);
      assert Messages(arrivals)[..|arrivals| - 1] == Messages(front);
    }
  }

  /** A message that ends the scan, first or repeated, and whatever happened on the rack before it:
      it changes nothing on the rack iff the rack has no lock then; otherwise it frees the lock
      there is, whoever holds it. */
  lemma EndingIsHarmlessIff(b: Book, r: R.Rack, rack: string, session: nat, arrivals: seq<Arrival>, t: R.Timeouts)
    requires session != 0 && session in b.sessions && rack in b.scanStates
    requires arrivals != [] && EndsScan(arrivals[|arrivals| - 1].message)
    ensures var found := Found(b, r, rack, session, arrivals, t);
      var after := Together(b, r, rack, session, arrivals, t).1;
      && (after == found <==> !R.Held(found))
      && (R.Held(found) ==> found.log + [R.Released(arrivals[|arrivals| - 1].env.now)] <= after.log)
  {
    hide R.Run, Together, Found;
    ReleasesAreCarriedOut(b, r, rack, session, arrivals, t);
    var last := arrivals[|arrivals| - 1];
    var found := Found(b, r, rack, session, arrivals, t);
    S.ReleaseQuiet(found, last.sees, last.env, t);
    hide R.Release;
    if R.Held(found) {
      assert |found.log + [R.Released(last.env.now)]| == |found.log| + 1;
    } else {
      UnheldRelease(found, last.sees, last.env, t);
    }
  }

  lemma UnheldRelease(r: R.Rack, sees: R.Sees, env: R.Env, t: R.Timeouts)
    requires !R.Held(r)
    ensures R.Release(r, sees, env, t) == r
  {
  }

  /** Between two messages that end the scan: the lock that the second one finds was granted since
      the first, so it is never the lock of that scan. */
  lemma RepeatedEndingFreesAnotherLock(initial: Option<R.Row>, r: R.Rack, sees: R.Sees, env: R.Env,
    between: seq<R.Step>, t: R.Timeouts)
    requires I.Inv(initial, r)
    requires R.Held(R.Run(R.Release(r, sees, env, t), between, t))
    ensures var found := R.Run(R.Release(r, sees, env, t), between, t);
      r.log <= found.log && exists g :: |r.log| <= g < |found.log| && found.log[g].Granted?
  {
    hide R.Release, R.Run, R.Held, I.Inv, I.Replay;
    var once := R.Release(r, sees, env, t);
    var found := R.Run(once, between, t);
    I.ReleaseKeeps(initial, r, sees, env, t);
    I.RunKeeps(initial, once, between, t);
    S.RunLogs(once, between, t);
    S.ReleaseQuiet(r, sees, env, t);
    HeldAsReplayed(initial, r);
    HeldAsReplayed(initial, found);
    ReplayOfRelease(initial.value, r.log, env.now);
    var free := if R.Held(r) then r.log + [R.Released(env.now)] else r.log;
    if !R.Held(r) {
      UnheldRelease(r, sees, env, t);
    }
    assert free <= found.log && found.log[..|free|] == free;
    if forall g :: |r.log| <= g < |found.log| ==> !found.log[g].Granted? {
      FreeUntilGranted(initial.value, found.log, |free|);
    }
  }

  lemma HeldAsReplayed(initial: Option<R.Row>, r: R.Rack)
    requires I.Inv(initial, r)
    ensures R.Held(r) <==> initial.Some? && I.Replay(initial.value, r.log).holder.Some?
  {
  }

  lemma ReplayOfRelease(row: R.Row, log: seq<R.Entry>, now: int)
    ensures I.Replay(row, log + [R.Released(now)]).holder.None?
  {
    I.Appended(log, R.Released(now));
  }

  /** A lock that is free after the first n entries is held at the end only if it was granted. */
  lemma {:induction false} FreeUntilGranted(row: R.Row, log: seq<R.Entry>, n: nat)
    requires n <= |log| && I.Replay(row, log[..n]).holder.None?
    requires forall g :: n <= g < |log| ==> !log[g].Granted?
    ensures I.Replay(row, log).holder.None?
  {
    if n == |log| {
      assert log[..n] == log;
    } else {
      var front := log[..|log| - 1];
      assert front[..n] == log[..n];
      FreeUntilGranted(row, front, n);
    }
  }

  /** It does happen: when a command was waiting, the first message hands the lock to that command's
      user and the second takes it away again, however long it still had to run. */
  lemma RepeatedStatusFreesNextLock(r: R.Rack, env: R.Env, again: R.Env, t: R.Timeouts)
    requires Q.AllOrdinary(r) && R.Held(r) && r.queue != []
    requires env.dbOk && env.publishOk
    ensures var once := R.Release(r, R.Fresh, env, t);
      var twice := R.Release(once, R.Fresh, again, t);
      && R.Held(once) && once.row.value.holder == Some(R.HolderFor(r.queue[0].user))
      && once.queue == r.queue[1..]
      && once.log + [R.Released(again.now)] <= twice.log
  {
    Q.SeenRelease(r, env, t);
    var once := R.Release(r, R.Fresh, env, t);
    S.ReleaseQuiet(once, R.Fresh, again, t);
    assert Q.Ordinary(r.queue[0]);
  }
}
