/** What a scan's messages leave behind on the server besides the session row: the stale mark, the
    active session, the resume window, the scan state; for any messages that arrive, and for those
    of a run. */
module ScanEffects {
  import opened Prelude
  import opened ScanOrder
  import opened ScanRun
  import opened ScanSessions
  import Mon = Recovery

  // ---- Any messages -----------------------------------------------------------------

  /** An emergency abort is among the messages. */
  predicate EmergencyIn(got: seq<Message>) {
    exists i :: 0 <= i < |got| && got[i].Final? && got[i].status.AbortedEmergency?
  }

  /** A status that ends the scan is among them: complete, or aborted for either reason. */
  predicate EndIn(got: seq<Message>) {
    exists i :: 0 <= i < |got| && got[i].Final?
      && (got[i].status.Complete? || got[i].status.AbortedHoming? || got[i].status.AbortedEmergency?)
  }

  lemma OneMore(got: seq<Message>, m: Message)
    ensures EmergencyIn(got + [m]) <==> EmergencyIn(got) || (m.Final? && m.status.AbortedEmergency?)
    ensures EndIn(got + [m]) <==>
      EndIn(got) || (m.Final? && (m.status.Complete? || m.status.AbortedHoming? || m.status.AbortedEmergency?))
  {
    var all := got + [m];
    assert all[|got|] == m;
    assert forall i :: 0 <= i < |got| ==> all[i] == got[i];
  }

  /** The rack is marked for a stale-homing check iff an emergency abort arrives, and no longer has an
      active session iff a status arrives that ends the scan; other racks' marks and sessions stay. */
  lemma {:induction false} MarksAndSessions(b: Book, rack: string, session: nat, got: seq<Message>, clock: nat -> int)
    requires rack in b.scanStates
    ensures var after := Deliver(b, rack, session, got, clock);
      && rack in after.scanStates
      && after.staleMarks == b.staleMarks + (if EmergencyIn(got) then {rack} else {})
      && after.active == (if EndIn(got) then b.active - {rack} else b.active)
      && after.resumeWindows - {rack} == b.resumeWindows - {rack}
  {
    hide EmergencyIn, EndIn, SessionUpdated;
    if got == [] {
      NothingIn();
    } else {
      var front, last := got[..|got| - 1], got[|got| - 1];
      MarksAndSessions(b, rack, session, front, clock);
      assert got == front + [last];
      OneMore(front, last);
    }
  }

  lemma NothingIn()
    ensures !EmergencyIn([]) && !EndIn([])
  {
  }

  /** Whether an operator may resume: the window stands iff the last status other than "complete" was a
      pause, and then until 300 seconds after that pause arrived. */
  lemma {:induction false} WindowIs(b: Book, rack: string, session: nat, got: seq<Message>, clock: nat -> int, k: nat)
    requires rack in b.scanStates && k < |got| && got[k].Final? && !got[k].status.Complete?
    requires forall i :: k < i < |got| ==> got[i].CellDone? || got[i].status.Complete?
    ensures var after := Deliver(b, rack, session, got, clock);
      && (rack in after.resumeWindows <==> got[k].status.PausedByStop?)
      && (rack in after.resumeWindows ==> after.resumeWindows[rack] == clock(k) + 300)
    decreases |got|
  {
    hide SessionUpdated;
    var front := got[..|got| - 1];
    MarksAndSessions(b, rack, session, front, clock);
    if k < |got| - 1 {
      WindowIs(b, rack, session, front, clock, k);
    }
  }

  /** Without such a status it is as it was. */
  lemma {:induction false} WindowStays(b: Book, rack: string, session: nat, got: seq<Message>, clock: nat -> int)
    requires forall i :: 0 <= i < |got| ==> got[i].CellDone? || got[i].status.Complete?
    ensures Deliver(b, rack, session, got, clock).resumeWindows == b.resumeWindows
  {
    hide SessionUpdated;
    if got != [] {
      WindowStays(b, rack, session, got[..|got| - 1], clock);
    }
  }

  /** What the rack shows: the word for the last message. */
  lemma StateShown(b: Book, rack: string, session: nat, got: seq<Message>, clock: nat -> int)
    requires rack in b.scanStates && got != []
    ensures var last := got[|got| - 1];
      Deliver(b, rack, session, got, clock).scanStates == b.scanStates[rack :=
        if last.CellDone? then "running"
        else if last.status.Complete? then "complete"
        else if last.status.PausedByStop? then "paused"
        else "aborted"]
  {
    OtherStates(b, rack, session, got[..|got| - 1], clock);
  }

  lemma {:induction false} OtherStates(b: Book, rack: string, session: nat, got: seq<Message>, clock: nat -> int)
    requires rack in b.scanStates
    ensures var after := Deliver(b, rack, session, got, clock);
      rack in after.scanStates && after.scanStates - {rack} == b.scanStates - {rack}
  {
    hide SessionUpdated;
    if got != [] {
      OtherStates(b, rack, session, got[..|got| - 1], clock);
    }
  }

  /** For a rack that the database does not know, a status does nothing at all, and progress writes at
      most the session row it names; session 0, or one that is not there, is not written. */
  lemma {:induction false} UnknownRack(b: Book, rack: string, session: nat, got: seq<Message>, clock: nat -> int)
    requires rack !in b.scanStates
    ensures var after := Deliver(b, rack, session, got, clock);
      && after == b.(sessions := after.sessions)
      && (session == 0 || session !in b.sessions || (forall i :: 0 <= i < |got| ==> got[i].Final?) ==> after == b)
  {
    hide Updated;
    if got != [] {
      UnknownRack(b, rack, session, got[..|got| - 1], clock);
    }
  }

  /** Messages without a session, or with one that is not there, write no row. */
  lemma {:induction false} NoSession(b: Book, rack: string, session: nat, got: seq<Message>, clock: nat -> int)
    requires session == 0 || session !in b.sessions
    ensures Deliver(b, rack, session, got, clock).sessions == b.sessions
    ensures forall m: Message, now :: Received(b, rack, None, m, now).sessions == b.sessions
  {
    hide Updated;
    if got != [] {
      NoSession(b, rack, session, got[..|got| - 1], clock);
    }
  }

  // ---- The session row in words -----------------------------------------------------

  /** The row of a session known to the server, after a last message: how the scan stands, why it was
      aborted, and where it stopped. */
  lemma RowInWords(b: Book, rack: string, session: nat, got: seq<Message>, clock: nat -> int)
    requires rack in b.scanStates && session != 0 && session in b.sessions && got != []
    ensures var n := |got| - 1;
      var before := Deliver(b, rack, session, got[..n], clock).sessions;
      var after := Deliver(b, rack, session, got, clock).sessions;
      && session in before && session in after && after.Keys == b.sessions.Keys
      && (forall other :: other in b.sessions && other != session ==> after[other] == b.sessions[other])
      && var row, was := after[session], before[session];
      && row.rack == was.rack
      && (got[n].CellDone? ==>
            && row.completed == got[n].completed && row.failed == got[n].failed && row.last == Some(got[n].cell)
            && row.status == was.status && row.abortReason == was.abortReason)
      && (got[n].Final? ==>
            && row.completed == was.completed && row.failed == was.failed
            && (row.status, row.abortReason, row.last) == match got[n].status
               case Complete => ("complete", was.abortReason, was.last)
               case PausedByStop => ("paused", was.abortReason, got[n].last)
               case AbortedHoming => ("aborted", Some("homing_failed"), was.last)
               case AbortedEmergency => ("aborted", Some("emergency_stop"), was.last))
  {
    var front := got[..|got| - 1];
    DeliverWritesOneRow(b, rack, session, front, clock);
  }

  // ---- The messages of a run --------------------------------------------------------

  /** Of a run's messages the status arrives last, maybe also before; the others are progress. */
  lemma StatusOfRun(x: Exec, n: nat, plan: seq<Cell>, env: Env, got: seq<Message>)
    requires ProperRun(x, n, plan, env) && Arrives(x.messages, got)
    ensures |x.messages| == n + 1 && x.messages[n].Final?
    ensures got != [] && got[|got| - 1] == x.messages[n]
    ensures forall i :: 0 <= i < |got| ==> got[i].CellDone? || got[i] == x.messages[n]
  {
    hide ProperRun, Updated;
    MessagesOfRun(x, n, plan, env);
    var progress, final := x.messages[..n], x.messages[n];
    assert x.messages == progress + [final];
    assert got != [] && got[|got| - 1] == final by {
      assert x.messages[|x.messages| - 1] == final;
    }
    hide Arrives, RowAfter;
    var row := SessionRow("", "", 0, 0, None, None);
    var before := StatusEndsRow(progress, final, got, row);
    var _ := RowShowsLastArrived(progress, before, row);
    forall i | 0 <= i < |got| ensures got[i].CellDone? || got[i] == final {
      assert got[i] in got;
    }
  }

  /** After the messages of a run, some of the progress lost: the rack shows how the run ended; it is
      newly marked iff the run was aborted by an emergency stop; its active session is gone unless
      the run paused; and it may be resumed, for 300 seconds from the last arrival, iff the run
      paused, except that a complete run leaves an older window standing. */
  lemma RunLeaves(x: Exec, n: nat, plan: seq<Cell>, env: Env, got: seq<Message>, b: Book, rack: string, session: nat,
    clock: nat -> int)
    requires ProperRun(x, n, plan, env) && Arrives(x.messages, got) && rack in b.scanStates
    ensures |x.messages| == n + 1 && x.messages[n].Final? && got != []
    ensures var after := Deliver(b, rack, session, got, clock);
      match x.messages[n].status
      case Complete =>
        && after.scanStates == b.scanStates[rack := "complete"] && after.staleMarks == b.staleMarks
        && after.active == b.active - {rack} && after.resumeWindows == b.resumeWindows
      case PausedByStop =>
        && after.scanStates == b.scanStates[rack := "paused"] && after.staleMarks == b.staleMarks
        && after.active == b.active && after.resumeWindows == b.resumeWindows[rack := clock(|got| - 1) + 300]
      case AbortedHoming =>
        && after.scanStates == b.scanStates[rack := "aborted"] && after.staleMarks == b.staleMarks
        && after.active == b.active - {rack} && after.resumeWindows == b.resumeWindows - {rack}
      case AbortedEmergency =>
        && after.scanStates == b.scanStates[rack := "aborted"] && after.staleMarks == b.staleMarks + {rack}
        && after.active == b.active - {rack} && after.resumeWindows == b.resumeWindows - {rack}
  {
    hide ProperRun, Arrives, Received, EmergencyIn, EndIn, Deliver;
    StatusOfRun(x, n, plan, env, got);
    var final := x.messages[n];
    MarksAndSessions(b, rack, session, got, clock);
    StateShown(b, rack, session, got, clock);
    KindsIn(got, final);
    if final.status.Complete? {
      WindowStays(b, rack, session, got, clock);
    } else {
      WindowIs(b, rack, session, got, clock, |got| - 1);
      var windows := Deliver(b, rack, session, got, clock).resumeWindows;
      SameExcept(windows, b.resumeWindows, rack);
    }
  }

  lemma KindsIn(got: seq<Message>, final: Message)
    requires got != [] && got[|got| - 1] == final && final.Final?
    requires forall i :: 0 <= i < |got| ==> got[i].CellDone? || got[i] == final
    ensures EmergencyIn(got) <==> final.status.AbortedEmergency?
    ensures EndIn(got) <==> !final.status.PausedByStop?
  {
  }

  lemma SameExcept(a: map<string, int>, b: map<string, int>, key: string)
    requires a - {key} == b - {key}
    ensures key in a ==> a == b[key := a[key]]
    ensures key !in a ==> a == b - {key}
  {
    assert forall k :: k != key ==> (k in a <==> k in a - {key}) && (k in b <==> k in b - {key});
    assert forall k :: k != key && k in a ==> a[k] == (a - {key})[k] && b[k] == (b - {key})[k];
  }

  /** The book's new mark reaches the position monitor: after a run, the rack's next M114 alerts iff
      homing is stale by then and a check was due before or the run was stopped by an emergency. */
  lemma EmergencyAsksForHoming(x: Exec, n: nat, plan: seq<Cell>, env: Env, got: seq<Message>, b: Book, rack: string,
    session: nat, clock: nat -> int, m: Mon.Monitor, r: Mon.Reading, stale: bool, lockValid: bool)
    requires ProperRun(x, n, plan, env) && Arrives(x.messages, got) && rack in b.scanStates
    requires rack !in b.staleMarks
    ensures |x.messages| == n + 1 && x.messages[n].Final?
    ensures var marked := rack in Deliver(b, rack, session, got, clock).staleMarks;
      var due := if marked then Mon.Do(m, Mon.Reconnected) else m;
      var end := Mon.OnM114(due, r, stale, lockValid);
      && m.log <= end.log && !end.staleDue
      && (Mon.StaleAlert in end.log[|m.log|..] <==> stale && (m.staleDue || x.messages[n].status.AbortedEmergency?))
  {
    hide ProperRun, Arrives, Deliver, Mon.Breaches;
    RunLeaves(x, n, plan, env, got, b, rack, session, clock);
    var due := if x.messages[n].status.AbortedEmergency? then Mon.Do(m, Mon.Reconnected) else m;
    Alerts(due, r, stale, lockValid);
  }

  lemma Alerts(m: Mon.Monitor, r: Mon.Reading, stale: bool, lockValid: bool)
    ensures var end := Mon.OnM114(m, r, stale, lockValid);
      && m.log <= end.log && !end.staleDue
      && (Mon.StaleAlert in end.log[|m.log|..] <==> stale && m.staleDue)
  {
    var e := Mon.M114(r, stale, lockValid);
    assert Mon.OnM114(m, r, stale, lockValid) == Mon.Do(m, e);
    NoLongerDue(m, r, stale, lockValid);
    AlertIsSent(m, r, stale, lockValid);
    hide Mon.Breaches, Mon.OnM114, Mon.Do, Mon.Sent;
    Mon.SendsExactly(m, e);
    assert Mon.Do(m, e).log[|m.log|..] == Mon.Sent(m, e);
  }

  lemma AlertIsSent(m: Mon.Monitor, r: Mon.Reading, stale: bool, lockValid: bool)
    ensures Mon.StaleAlert in Mon.Sent(m, Mon.M114(r, stale, lockValid)) <==> stale && m.staleDue
  {
    hide Mon.Accepts, Mon.Retries;
  }

  lemma NoLongerDue(m: Mon.Monitor, r: Mon.Reading, stale: bool, lockValid: bool)
    ensures !Mon.OnM114(m, r, stale, lockValid).staleDue
  {
    hide Mon.CheckTolerance;
  }
}
