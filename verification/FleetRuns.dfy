/** The scheduler, the position monitor and everybody else, over any sequence of steps: who is
    selected, who is started, and how. */
module FleetRuns {
  import opened Prelude
  import opened RackProtocol
  import opened Scheduling
  import M = Recovery

  datatype World = World(fleet: Fleet, monitors: map<string, M.Monitor>)

  /** Runs of the job, timers that fire, manual starts, messages to the monitor; and what others do
      to locks, connections and schedules. */
  datatype Event =
    | CheckEvent
    | TimerEvent(timer: nat)
    | ManualEvent(rack: string, user: string)
    | MonitorEvent(rack: string, message: M.Event)
    | LockEvent(rack: string, lock: Row)
    | OnlineEvent(online: set<string>)
    | ScheduleEvent(rack: string, schedule: Schedule)

  datatype Step = Step(event: Event, now: int)

  function MonitorOf(w: World, id: string): M.Monitor {
    if id in w.monitors then w.monitors[id] else M.INITIAL
  }

  function Attempts(w: World, id: string): nat {
    MonitorOf(w, id).recovery.attempt
  }

  /** What the monitor's escalation writes into the database. */
  function Escalate(f: Fleet, id: string): Fleet {
    f.(racks := if id in f.racks then f.racks[id := f.racks[id].(maintenance := true)] else f.racks,
       schedules := if id in f.schedules then f.schedules[id := f.schedules[id].(enabled := false)] else f.schedules)
  }

  function Without(timers: seq<Timer>, k: nat): seq<Timer>
    requires k < |timers|
  {
    timers[..k] + timers[k + 1..]
  }

  predicate Fires(w: World, s: Step) {
    s.event.TimerEvent? && s.event.timer < |w.fleet.timers| && w.fleet.timers[s.event.timer].at <= s.now
  }

  function Do(w: World, s: Step, order: seq<string>, c: Config): World
    requires c.groupSize > 0
  {
    var f := w.fleet;
    match s.event
    case CheckEvent => w.(fleet := CheckDue(f, order, s.now, c))
    case TimerEvent(k) =>
      if !Fires(w, s) then w
      else w.(fleet := TryFire(f.(timers := Without(f.timers, k)), f.timers[k].rack, s.now, c))
    case ManualEvent(id, user) => w.(fleet := TriggerManual(f, id, user, s.now, c).0)
    case MonitorEvent(id, message) =>
      var m := MonitorOf(w, id);
      World(if M.Flagged in M.Sent(m, message) then Escalate(f, id) else f, w.monitors[id := M.Do(m, message)])
    case LockEvent(id, lock) =>
      if id in f.racks then w.(fleet := f.(racks := f.racks[id := f.racks[id].(lock := lock)])) else w
    case OnlineEvent(online) => w.(fleet := f.(online := online))
    case ScheduleEvent(id, schedule) => w.(fleet := f.(schedules := f.schedules[id := schedule]))
  }

  function Run(w: World, steps: seq<Step>, order: seq<string>, c: Config): World
    requires c.groupSize > 0
  {
    if steps == [] then w else Do(Run(w, steps[..|steps| - 1], order, c), steps[|steps| - 1], order, c)
  }

  lemma {:induction false} RunAppend(w: World, a: seq<Step>, b: seq<Step>, order: seq<string>, c: Config)
    requires c.groupSize > 0
    ensures Run(w, a + b, order, c) == Run(Run(w, a, order, c), b, order, c)
  {
    hide Do;
    if b == [] {
      assert a + b == a;
    } else {
      assert (a + b)[..|a + b| - 1] == a + b[..|b| - 1];
      RunAppend(w, a, b[..|b| - 1], order, c);
    }
  }

  // ---- The monitor in the run -------------------------------------------------------

  function MessagesTo(id: string, steps: seq<Step>): seq<M.Event> {
    if steps == [] then []
    else
      MessagesTo(id, steps[..|steps| - 1])
      + match steps[|steps| - 1].event case MonitorEvent(rack, m) => (if rack == id then [m] else []) case _ => []
  }

  /** Each rack's monitor is what its own messages make of it: a run of `Recovery`. */
  lemma {:induction false} MonitorsFollowMessages(w: World, steps: seq<Step>, order: seq<string>, c: Config, id: string)
    requires c.groupSize > 0 && w.monitors == map[]
    ensures MonitorOf(Run(w, steps, order, c), id) == M.Run(MessagesTo(id, steps))
  {
    hide CheckDue, TryFire, TriggerManual, M.Do, M.Sent;
    if steps != [] {
      var last := steps[|steps| - 1];
      var messages := MessagesTo(id, steps[..|steps| - 1]);
      MonitorsFollowMessages(w, steps[..|steps| - 1], order, c, id);
      assert messages + [] == messages;
      if last.event.MonitorEvent? && last.event.rack == id {
        assert (messages + [last.event.message])[..|messages|] == messages;
      }
    }
  }

  /** A message never lowers the attempt count, and one that takes it to two or more flags. */
  lemma MessageCounts(m: M.Monitor, e: M.Event)
    ensures M.Do(m, e).recovery.attempt == m.recovery.attempt + if M.Accepts(m, e) then 1 else 0
    ensures M.Do(m, e).recovery.attempt >= 2 ==> m.recovery.attempt >= 2 || M.Flagged in M.Sent(m, e)
  {
    hide M.Breaches, M.CheckStale;
    if e.M114? {
      assert forall n: M.Monitor :: M.CheckStale(n, e.stale).recovery == n.recovery by {
        forall n: M.Monitor ensures M.CheckStale(n, e.stale).recovery == n.recovery {
          StaleKeepsRecovery(n, e.stale);
        }
      }
    }
    if M.Accepts(m, e) && m.recovery.attempt >= 1 {
      assert M.Sent(m, e)[2] == M.Flagged;
    }
  }

  lemma StaleKeepsRecovery(m: M.Monitor, stale: bool)
    ensures M.CheckStale(m, stale).recovery == m.recovery
  {
  }

  // ---- (a) Never selected anew ------------------------------------------------------

  lemma {:induction false} FiringKeepsMaintenance(f: Fleet, ids: seq<string>, now: int, c: Config)
    ensures var g := FireAll(f, ids, now, c);
      g.racks.Keys == f.racks.Keys && forall id :: id in f.racks ==> g.racks[id].maintenance == f.racks[id].maintenance
  {
    if ids != [] {
      FiringKeepsMaintenance(f, ids[..|ids| - 1], now, c);
    }
  }

  /** The rack's row says what the monitor has found. */
  predicate RowFlagged(w: World, id: string) {
    Attempts(w, id) >= 2 && id in w.fleet.racks ==> w.fleet.racks[id].maintenance
  }

  predicate UnderMaintenance(w: World, id: string) {
    id in w.fleet.racks && w.fleet.racks[id].maintenance
  }

  lemma StepKeepsMaintenance(w: World, s: Step, order: seq<string>, c: Config, id: string)
    requires c.groupSize > 0
    ensures var v := Do(w, s, order, c);
      && v.fleet.racks.Keys == w.fleet.racks.Keys
      && (UnderMaintenance(w, id) ==> UnderMaintenance(v, id))
      && Attempts(w, id) <= Attempts(v, id)
      && (RowFlagged(w, id) ==> RowFlagged(v, id))
  {
    hide DueList, FireAll, M.Do, M.Sent, M.Accepts;
    match s.event
    case CheckEvent =>
      var due := DueList(order, w.fleet, s.now);
      FiringKeepsMaintenance(w.fleet, due[..AtOnce(|due|, c)], s.now, c);
    case MonitorEvent(rack, message) => MessageCounts(MonitorOf(w, rack), message);
    case _ =>
  }

  lemma {:induction false} RunKeepsMaintenance(w: World, steps: seq<Step>, order: seq<string>, c: Config, id: string)
    requires c.groupSize > 0
    ensures var v := Run(w, steps, order, c);
      && v.fleet.racks.Keys == w.fleet.racks.Keys
      && (UnderMaintenance(w, id) ==> UnderMaintenance(v, id))
      && Attempts(w, id) <= Attempts(v, id)
      && (RowFlagged(w, id) ==> RowFlagged(v, id))
  {
    hide Do, Attempts, RowFlagged, UnderMaintenance;
    if steps != [] {
      RunKeepsMaintenance(w, steps[..|steps| - 1], order, c, id);
      StepKeepsMaintenance(Run(w, steps[..|steps| - 1], order, c), steps[|steps| - 1], order, c, id);
    }
  }

  /** Once the monitor's second attempt has escalated a rack, no later run of the job selects it, at
      any time, whatever happens in between, even if its schedule is enabled again. */
  lemma EscalatedRackIsNeverSelected(w: World, before: seq<Step>, after: seq<Step>, order: seq<string>, c: Config,
    id: string, table: seq<string>, time: int)
    requires c.groupSize > 0 && w.monitors == map[]
    requires Attempts(Run(w, before, order, c), id) >= 2
    ensures id !in DueList(table, Run(w, before + after, order, c).fleet, time)
    ensures M.Accepted(MessagesTo(id, before)) >= 2
  {
    hide Do, DueList;
    MonitorsFollowMessages(w, before, order, c, id);
    M.RunKeeps(MessagesTo(id, before));
    RunKeepsMaintenance(w, before, order, c, id);
    RunKeepsMaintenance(Run(w, before, order, c), after, order, c, id);
    RunAppend(w, before, after, order, c);
    DueListIs(table, Run(w, before + after, order, c).fleet, time, id);
  }

  // ---- (b) Every start is gated -----------------------------------------------------

  /** A start message of this step: its rack was online, known and unlocked, holds a scan lock
      granted now, and has a new session. */
  ghost predicate Gated(p: ScanStart, f: Fleet, g: Fleet, user: string, now: int, c: Config) {
    && Startable(f, p.rack, now)
    && p.rack in g.racks && g.racks[p.rack].lock == LockedRow(user, Scan, now, c.timeouts)
    && |f.sessions| <= p.session < |g.sessions| && g.sessions[p.session].rack == p.rack
  }

  ghost predicate AllGated(f: Fleet, g: Fleet, user: string, now: int, c: Config) {
    && f.published <= g.published
    && forall k :: |f.published| <= k < |g.published| ==> Gated(g.published[k], f, g, user, now, c)
  }

  lemma BeginIsGated(f: Fleet, id: string, user: string, now: int, c: Config)
    requires Startable(f, id, now)
    ensures var g := Begin(f, id, user, now, c);
      && AllGated(f, g, user, now, c)
      && g.published == f.published + [ScanStart(id, |f.sessions|, f.racks[id].gridRows, f.racks[id].gridCols)]
  {
  }

  /** What firing one rack after others does; `f` is where the job began. */
  ghost predicate FiredFrom(f: Fleet, g: Fleet, ids: seq<string>, now: int, c: Config) {
    && AllGated(f, g, SCAN_USER, now, c)
    && f.online == g.online && f.racks.Keys == g.racks.Keys && |f.sessions| <= |g.sessions|
    && (forall k :: |f.published| <= k < |g.published| ==> g.published[k].rack in ids)
    && (forall id :: id in f.racks ==>
          || g.racks[id].lock == f.racks[id].lock
          || (g.racks[id].lock == LockedRow(SCAN_USER, Scan, now, c.timeouts) && !Blocks(f.racks[id].lock, now)))
  }

  lemma FireOneMore(f: Fleet, g: Fleet, ids: seq<string>, id: string, now: int, c: Config)
    requires FiredFrom(f, g, ids, now, c)
    ensures FiredFrom(f, TryFire(g, id, now, c), ids + [id], now, c)
  {
    hide Blocks;
    var h := TryFire(g, id, now, c);
    if Startable(g, id, now) {
      assert h.published == g.published + [ScanStart(id, |g.sessions|, g.racks[id].gridRows, g.racks[id].gridCols)];
      assert h.sessions[..|g.sessions|] == g.sessions;
      forall k | |f.published| <= k < |h.published|
        ensures Gated(h.published[k], f, h, SCAN_USER, now, c) && h.published[k].rack in ids + [id]
      {
        if k < |g.published| {
          assert h.published[k] == g.published[k];
          assert Gated(g.published[k], f, g, SCAN_USER, now, c);
          assert h.sessions[g.published[k].session] == g.sessions[g.published[k].session];
        }
      }
    } else {
      assert h.published == g.published && h.racks == g.racks && h.sessions == g.sessions;
      assert forall k :: |f.published| <= k < |g.published| ==> Gated(g.published[k], f, g, SCAN_USER, now, c);
    }
  }

  lemma {:induction false} FireAllIsGated(f: Fleet, ids: seq<string>, now: int, c: Config)
    ensures FiredFrom(f, FireAll(f, ids, now, c), ids, now, c)
  {
    hide FiredFrom, TryFire;
    if ids == [] {
      NothingFired(f, now, c);
    } else {
      var front, last := ids[..|ids| - 1], ids[|ids| - 1];
      FireAllIsGated(f, front, now, c);
      FireOneMore(f, FireAll(f, front, now, c), front, last, now, c);
      assert ids == front + [last];
    }
  }

  lemma NothingFired(f: Fleet, now: int, c: Config)
    ensures FiredFrom(f, f, [], now, c)
  {
  }

  function UserOf(s: Step): string {
    if s.event.ManualEvent? then s.event.user else SCAN_USER
  }

  /** The racks that a step attempts to start. */
  function Candidates(w: World, s: Step, order: seq<string>, c: Config): seq<string> {
    match s.event
    case CheckEvent => DueList(order, w.fleet, s.now)
    case TimerEvent(k) => if Fires(w, s) then [w.fleet.timers[k].rack] else []
    case ManualEvent(id, _) => [id]
    case _ => []
  }

  /** Timers do not matter to it. */
  lemma GatedWhateverTimers(f: Fleet, f': Fleet, g: Fleet, g': Fleet, user: string, now: int, c: Config)
    requires AllGated(f, g, user, now, c) && f' == f.(timers := f'.timers) && g' == g.(timers := g'.timers)
    ensures AllGated(f', g', user, now, c)
  {
    forall k | |f.published| <= k < |g.published| ensures Gated(g'.published[k], f', g', user, now, c) {
      assert Gated(g.published[k], f, g, user, now, c);
    }
  }

  lemma NothingPublished(f: Fleet, g: Fleet, user: string, now: int, c: Config)
    requires g.published == f.published
    ensures AllGated(f, g, user, now, c)
  {
  }

  lemma StepIsGated(w: World, s: Step, order: seq<string>, c: Config)
    requires c.groupSize > 0
    ensures var v := Do(w, s, order, c);
      && AllGated(w.fleet, v.fleet, UserOf(s), s.now, c)
      && forall k :: |w.fleet.published| <= k < |v.fleet.published| ==>
           v.fleet.published[k].rack in Candidates(w, s, order, c)
  {
    hide DueList, FireAll, TryFire, Begin, M.Do, M.Sent, Blocks, AllGated;
    var f, v := w.fleet, Do(w, s, order, c);
    match s.event
    case CheckEvent =>
      var due := DueList(order, f, s.now);
      var ids := due[..AtOnce(|due|, c)];
      FireAllIsGated(f, ids, s.now, c);
      GatedWhateverTimers(f, f, FireAll(f, ids, s.now, c), v.fleet, SCAN_USER, s.now, c);
    case TimerEvent(k) =>
      if Fires(w, s) {
        var g := f.(timers := Without(f.timers, k));
        NothingFired(g, s.now, c);
        FireOneMore(g, g, [], f.timers[k].rack, s.now, c);
        GatedWhateverTimers(g, f, v.fleet, v.fleet, SCAN_USER, s.now, c);
      } else {
        NothingPublished(f, v.fleet, SCAN_USER, s.now, c);
      }
    case ManualEvent(id, user) =>
      if Startable(f, id, s.now) {
        BeginIsGated(f, id, user, s.now, c);
      } else {
        NothingPublished(f, v.fleet, user, s.now, c);
      }
    case _ => NothingPublished(f, v.fleet, SCAN_USER, s.now, c);
  }

  /** Every start message of a run goes back to a step that attempted its rack, found it online,
      known and unlocked, and locked it for a scan. */
  lemma {:induction false} EveryStartIsGated(w: World, steps: seq<Step>, order: seq<string>, c: Config, k: nat)
    returns (i: nat)
    requires c.groupSize > 0
    requires |w.fleet.published| <= k < |Run(w, steps, order, c).fleet.published|
    ensures i < |steps|
    ensures var u, v := Run(w, steps[..i], order, c), Run(w, steps[..i + 1], order, c);
      var p := Run(w, steps, order, c).fleet.published[k];
      && v == Do(u, steps[i], order, c)
      && |u.fleet.published| <= k < |v.fleet.published| && v.fleet.published[k] == p
      && Gated(p, u.fleet, v.fleet, UserOf(steps[i]), steps[i].now, c)
      && p.rack in Candidates(u, steps[i], order, c)
  {
    hide Do, Gated, Candidates;
    var n := |steps| - 1;
    var u := Run(w, steps[..n], order, c);
    StepIsGated(u, steps[n], order, c);
    assert steps[..n + 1] == steps;
    if k < |u.fleet.published| {
      i := EveryStartIsGated(w, steps[..n], order, c, k);
      assert steps[..n][..i] == steps[..i] && steps[..n][..i + 1] == steps[..i + 1];
    } else {
      i := n;
    }
  }

  // ---- (c) How an escalated rack still starts ---------------------------------------

  predicate StartsIn(w: World, v: World, id: string) {
    exists k :: |w.fleet.published| <= k < |v.fleet.published| && v.fleet.published[k].rack == id
  }

  /** A step starts a rack under maintenance iff the gates are open and the step is a manual start
      of it, or a timer of it that fires; neither looks at the flag. */
  lemma EscalatedStartsIff(w: World, s: Step, order: seq<string>, c: Config, id: string)
    requires c.groupSize > 0 && UnderMaintenance(w, id)
    ensures StartsIn(w, Do(w, s, order, c), id) <==>
      && Startable(w.fleet, id, s.now)
      && ((s.event.ManualEvent? && s.event.rack == id)
          || (Fires(w, s) && w.fleet.timers[s.event.timer].rack == id))
  {
    hide DueList, FireAll, CheckDue, M.Do, M.Sent, Blocks;
    StepIsGated(w, s, order, c);
    var v := Do(w, s, order, c);
    DueListIs(order, w.fleet, s.now, id);
    assert |w.fleet.published| < |v.fleet.published| ==>
      Gated(v.fleet.published[|w.fleet.published|], w.fleet, v.fleet, UserOf(s), s.now, c);
    if StartsIn(w, v, id) {
      var k :| |w.fleet.published| <= k < |v.fleet.published| && v.fleet.published[k].rack == id;
      assert Gated(v.fleet.published[k], w.fleet, v.fleet, UserOf(s), s.now, c);
      assert id in Candidates(w, s, order, c);
    } else if Startable(w.fleet, id, s.now) && id in Candidates(w, s, order, c) {
      ManualOrTimerStarts(w, s, order, c, id);
    }
  }

  lemma ManualOrTimerStarts(w: World, s: Step, order: seq<string>, c: Config, id: string)
    requires c.groupSize > 0 && Startable(w.fleet, id, s.now)
    requires (s.event.ManualEvent? && s.event.rack == id) || (Fires(w, s) && w.fleet.timers[s.event.timer].rack == id)
    ensures Do(w, s, order, c).fleet.published == w.fleet.published
      + [ScanStart(id, |w.fleet.sessions|, w.fleet.racks[id].gridRows, w.fleet.racks[id].gridCols)]
    ensures StartsIn(w, Do(w, s, order, c), id)
  {
    var v := Do(w, s, order, c);
    assert v.fleet.published[|w.fleet.published|].rack == id;
  }

  /** Under maintenance a rack gets no new timer. */
  lemma StepSetsNoTimer(w: World, s: Step, order: seq<string>, c: Config, id: string)
    requires c.groupSize > 0 && UnderMaintenance(w, id)
    ensures forall tm :: tm in Do(w, s, order, c).fleet.timers && tm.rack == id ==> tm in w.fleet.timers
  {
    hide DueList, FireAll, TryFire, M.Do, M.Sent, Blocks;
    if s.event.CheckEvent? {
      var due := DueList(order, w.fleet, s.now);
      TimersOfFiring(w.fleet, due[..AtOnce(|due|, c)], s.now, c);
      DueListIs(order, w.fleet, s.now, id);
      forall tm | tm in TimersFor(due, s.now, c) ensures tm.rack in due {
        var k :| 0 <= k < |TimersFor(due, s.now, c)| && TimersFor(due, s.now, c)[k] == tm;
        assert tm.rack == due[AtOnce(|due|, c) + k];
      }
    } else if Fires(w, s) {
      var g := w.fleet.(timers := Without(w.fleet.timers, s.event.timer));
      TimersOfOne(g, w.fleet.timers[s.event.timer].rack, s.now, c);
    }
  }

  lemma TimersOfOne(f: Fleet, id: string, now: int, c: Config)
    ensures TryFire(f, id, now, c).timers == f.timers
  {
  }

  lemma {:induction false} TimersOfFiring(f: Fleet, ids: seq<string>, now: int, c: Config)
    ensures FireAll(f, ids, now, c).timers == f.timers
  {
    hide TryFire;
    if ids != [] {
      TimersOfFiring(f, ids[..|ids| - 1], now, c);
      TimersOfOne(FireAll(f, ids[..|ids| - 1], now, c), ids[|ids| - 1], now, c);
    }
  }

  lemma {:induction false} RunSetsNoTimer(w: World, steps: seq<Step>, order: seq<string>, c: Config, id: string)
    requires c.groupSize > 0 && UnderMaintenance(w, id)
    ensures forall tm :: tm in Run(w, steps, order, c).fleet.timers && tm.rack == id ==> tm in w.fleet.timers
  {
    hide Do, UnderMaintenance;
    if steps != [] {
      var front := steps[..|steps| - 1];
      RunSetsNoTimer(w, front, order, c, id);
      RunKeepsMaintenance(w, front, order, c, id);
      StepSetsNoTimer(Run(w, front, order, c), steps[|steps| - 1], order, c, id);
    }
  }

  /** So every scan of a rack that starts after its escalation goes back to a manual start, or to a
      timer that was set before the escalation. */
  lemma EscalatedStartsByHandOrOldTimer(w: World, steps: seq<Step>, order: seq<string>, c: Config, id: string, k: nat)
    returns (i: nat)
    requires c.groupSize > 0 && UnderMaintenance(w, id)
    requires |w.fleet.published| <= k < |Run(w, steps, order, c).fleet.published|
    requires Run(w, steps, order, c).fleet.published[k].rack == id
    ensures i < |steps|
    ensures var u, s := Run(w, steps[..i], order, c), steps[i];
      && Startable(u.fleet, id, s.now)
      && ((s.event.ManualEvent? && s.event.rack == id)
          || (Fires(u, s) && u.fleet.timers[s.event.timer].rack == id
              && u.fleet.timers[s.event.timer] in w.fleet.timers))
  {
    hide Do, Candidates, UnderMaintenance, Fires, Startable;
    i := EveryStartIsGated(w, steps, order, c, k);
    var u := Run(w, steps[..i], order, c);
    RunKeepsMaintenance(w, steps[..i], order, c, id);
    RunSetsNoTimer(w, steps[..i], order, c, id);
    EscalatedStartsIff(u, steps[i], order, c, id);
    var v := Run(w, steps[..i + 1], order, c);
    assert v.fleet.published[k].rack == id;
    assert StartsIn(u, v, id);
    if !(steps[i].event.ManualEvent? && steps[i].event.rack == id) {
      FiringTimerIsPending(u, steps[i]);
    }
  }

  lemma FiringTimerIsPending(w: World, s: Step)
    requires Fires(w, s)
    ensures s.event.TimerEvent? && s.event.timer < |w.fleet.timers| && w.fleet.timers[s.event.timer] in w.fleet.timers
  {
  }

  // ---- Manual starts that are answered "queued" -------------------------------------

  /** A manual start that is answered "queued" leaves no trace: taken out of a run it changes
      nothing, so it is the origin of no start message, now or later. */
  lemma QueuedManualLeavesNoTrace(w: World, before: seq<Step>, s: Step, after: seq<Step>, order: seq<string>, c: Config)
    requires c.groupSize > 0 && s.event.ManualEvent?
    requires TriggerManual(Run(w, before, order, c).fleet, s.event.rack, s.event.user, s.now, c).1.ManualQueued?
    ensures Run(w, before + [s] + after, order, c) == Run(w, before + after, order, c)
  {
    hide CheckDue, TryFire, Begin, Blocks;
    var u := Run(w, before, order, c);
    assert (before + [s])[..|before|] == before;
    assert Run(w, before + [s], order, c) == Do(u, s, order, c);
    assert Do(u, s, order, c) == u;
    hide Do;
    RunAppend(w, before + [s], after, order, c);
    RunAppend(w, before, after, order, c);
  }
}
