/** Whom a run of the scheduler's job selects, read off the schedules and rows themselves; what a
    start writes; and what a disabled schedule means over whole runs of the fleet. */
module DueSchedules {
  import opened Prelude
  import P = RackProtocol
  import opened Scheduling
  import opened FleetRuns
  import opened StaggerRuns
  import SecondStarts
  import LockKinds

  // ---- One run of the job -----------------------------------------------------------

  /** `at` are the places in the table of the selected racks. */
  ghost predicate InTableOrder(order: seq<string>, due: seq<string>, at: seq<nat>) {
    && |at| == |due|
    && (forall i :: 0 <= i < |due| ==> at[i] < |order| && due[i] == order[at[i]])
    && forall i, j :: 0 <= i < j < |at| ==> at[i] < at[j]
  }

  lemma {:induction false} DuePlaces(order: seq<string>, f: Fleet, now: int) returns (at: seq<nat>)
    ensures InTableOrder(order, DueList(order, f, now), at)
  {
    hide IsDue, InTableOrder;
    if order == [] {
      at := [];
      NoPlaces();
    } else {
      var rest := DuePlaces(order[1..], f, now);
      at := PlacesMoved(order, DueList(order[1..], f, now), rest);
      if IsDue(f, order[0], now) {
        FirstPlace(order, DueList(order[1..], f, now), at);
        at := [0] + at;
      } else {
        assert [] + DueList(order[1..], f, now) == DueList(order[1..], f, now);
      }
    }
  }

  lemma NoPlaces()
    ensures InTableOrder([], [], [])
  {
  }

  lemma PlacesMoved(order: seq<string>, due: seq<string>, rest: seq<nat>) returns (at: seq<nat>)
    requires order != [] && InTableOrder(order[1..], due, rest)
    ensures InTableOrder(order, due, at) && forall i :: 0 <= i < |at| ==> at[i] > 0
  {
    at := seq(|rest|, i requires 0 <= i < |rest| => rest[i] + 1);
    assert forall i :: 0 <= i < |rest| ==> due[i] == order[1..][rest[i]] == order[at[i]];
  }

  lemma FirstPlace(order: seq<string>, due: seq<string>, at: seq<nat>)
    requires order != [] && InTableOrder(order, due, at) && forall i :: 0 <= i < |at| ==> at[i] > 0
    ensures InTableOrder(order, [order[0]] + due, [0] + at)
  {
  }

  /** A run of the job takes the racks with an enabled schedule whose next scan has come, except
      those under maintenance, in the order of the table. With a positive delay it tries to start
      the first group of them and gives each other a timer, one delay further away for each group;
      without one it tries them all. Of the tried, just those whose gates are open are started. */
  lemma CheckInFields(f: Fleet, order: seq<string>, now: int, c: Config)
    returns (due: seq<string>, at: seq<nat>, later: seq<Timer>)
    requires c.groupSize > 0 && Distinct(order)
    ensures InTableOrder(order, due, at)
    ensures forall id :: id in due <==>
      && id in order
      && id in f.schedules && f.schedules[id].enabled && f.schedules[id].nextScanAt <= now
      && id in f.racks && !f.racks[id].maintenance
    ensures var g := CheckDue(f, order, now, c);
      var n := if c.delayMinutes == 0 || |due| <= c.groupSize then |due| else c.groupSize;
      && g.timers == f.timers + later && |later| == |due| - n
      && (forall i :: n <= i < |due| ==>
            later[i - n] == Timer(now + i / c.groupSize * c.delayMinutes * 60, due[i]))
      && RacksOf(g.published) == RacksOf(f.published) + Startables(f, due[..n], now)
  {
    hide DueList, CheckDue, InTableOrder, RacksOf, Startables, TimersFor, Delay;
    due := DueList(order, f, now);
    at := DuePlaces(order, f, now);
    later := TimersFor(due, now, c);
    forall id ensures id in due <==> id in order && IsDue(f, id, now) {
      DueListIs(order, f, now, id);
    }
    FirstGroup(|due|, c);
    CheckStarts(f, order, now, c);
    CheckIs(f, order, now, c);
    forall i | AtOnce(|due|, c) <= i < |due|
      ensures later[i - AtOnce(|due|, c)] == Timer(now + i / c.groupSize * c.delayMinutes * 60, due[i])
    {
      TimerTime(due, i, now, c);
      DelayIs(i, c);
    }
  }

  lemma FirstGroup(n: nat, c: Config)
    ensures AtOnce(n, c) == if c.delayMinutes == 0 || n <= c.groupSize then n else c.groupSize
  {
  }

  lemma CheckStarts(f: Fleet, order: seq<string>, now: int, c: Config)
    requires c.groupSize > 0 && Distinct(order)
    ensures var due := DueList(order, f, now);
      RacksOf(CheckDue(f, order, now, c).published)
        == RacksOf(f.published) + Startables(f, due[..AtOnce(|due|, c)], now)
  {
    hide DueList, FireAll, RacksOf, Startables;
    var due := DueList(order, f, now);
    DueRacks(order, f, now);
    FireAllExactly(f, due[..AtOnce(|due|, c)], now, c);
  }

  lemma TimerTime(due: seq<string>, i: nat, now: int, c: Config)
    requires c.groupSize > 0 && AtOnce(|due|, c) <= i < |due|
    ensures TimersFor(due, now, c)[i - AtOnce(|due|, c)] == Timer(now + Delay(i, c) * 60, due[i])
  {
    hide Delay, AtOnce, TimersFor;
    var n := AtOnce(|due|, c);
    assert TimersFor(due, now, c)[i - n] == Timer(now + Delay(n + (i - n), c) * 60, due[n + (i - n)]);
  }

  lemma DelayIs(i: nat, c: Config)
    requires c.groupSize > 0
    ensures Delay(i, c) * 60 == i / c.groupSize * c.delayMinutes * 60
  {
  }

  /** A run of the job plans a rack's next scan anew. */
  predicate Replans(f: Fleet, g: Fleet, id: string) {
    id in f.schedules && id in g.schedules && f.schedules[id].nextScanAt != g.schedules[id].nextScanAt
  }

  /** It has set a timer for the rack. */
  ghost predicate SetsTimer(f: Fleet, g: Fleet, id: string) {
    exists k :: |f.timers| <= k < |g.timers| && g.timers[k].rack == id
  }

  /** So a run of the job does something for a rack iff the rack is in the table, its schedule is
      enabled with the next scan at or before now, and its row exists without maintenance. */
  lemma TakenUpIff(f: Fleet, order: seq<string>, now: int, c: Config, id: string)
    requires c.groupSize > 0 && c.postponeMinutes > 0 && Distinct(order)
    requires id in f.schedules ==> f.schedules[id].intervalHours > 0
    ensures var g := CheckDue(f, order, now, c);
      Replans(f, g, id) || SetsTimer(f, g, id) <==>
        && id in order
        && id in f.schedules && f.schedules[id].enabled && f.schedules[id].nextScanAt <= now
        && id in f.racks && !f.racks[id].maintenance
  {
    hide FireAll, Startables, RacksOf;
    var due := DueList(order, f, now);
    var n := AtOnce(|due|, c);
    DueListIs(order, f, now, id);
    DueRacks(order, f, now);
    FireAllExactly(f, due[..n], now, c);
    TimedIff(f, due, n, now, c, id);
    hide DueList, CheckDue;
    assert CheckDue(f, order, now, c) == FireAll(f, due[..n], now, c).(timers := f.timers + TimersFor(due, now, c)) by {
      CheckIs(f, order, now, c);
    }
    assert due == due[..n] + due[n..];
    if id in due[..n] {
      var i :| 0 <= i < n && due[i] == id;
      assert FireAll(f, due[..n], now, c).schedules[due[..n][i]].nextScanAt == NextAfter(f, id, now, c);
    } else if id in f.schedules && id !in f.racks {
      UnknownIsNotReplanned(f, due[..n], now, c, id);
    }
  }

  lemma CheckIs(f: Fleet, order: seq<string>, now: int, c: Config)
    requires c.groupSize > 0
    ensures var due := DueList(order, f, now); var n := AtOnce(|due|, c);
      CheckDue(f, order, now, c) == FireAll(f, due[..n], now, c).(timers := f.timers + TimersFor(due, now, c))
  {
    var due := DueList(order, f, now);
    TimersOfFiring(f, due[..AtOnce(|due|, c)], now, c);
  }

  lemma {:induction false} UnknownIsNotReplanned(f: Fleet, ids: seq<string>, now: int, c: Config, id: string)
    requires id !in ids && id in f.schedules
    ensures var g := FireAll(f, ids, now, c);
      id in g.schedules && g.schedules[id] == f.schedules[id]
  {
    if ids != [] {
      UnknownIsNotReplanned(f, ids[..|ids| - 1], now, c, id);
    }
  }

  lemma TimedIff(f: Fleet, due: seq<string>, n: nat, now: int, c: Config, id: string)
    requires c.groupSize > 0 && n == AtOnce(|due|, c)
    ensures SetsTimer(f, f.(timers := f.timers + TimersFor(due, now, c)), id) <==> id in due[n..]
  {
    hide Delay;
    var later := TimersFor(due, now, c);
    var timers := f.timers + later;
    forall k | 0 <= k < |later| ensures timers[|f.timers| + k].rack == due[n..][k] {
      assert later[k] == Timer(now + Delay(n + k, c) * 60, due[n + k]);
    }
    if id in due[n..] {
      var k :| 0 <= k < |due[n..]| && due[n..][k] == id;
      assert timers[|f.timers| + k].rack == id;
    }
    forall k | |f.timers| <= k < |timers| && timers[k].rack == id ensures id in due[n..] {
      assert timers[|f.timers| + (k - |f.timers|)].rack == due[n..][k - |f.timers|];
    }
  }

  // ---- What a start and a postponement write ----------------------------------------

  /** A scan of the rack has been started: its row holds a scan lock of the user and shows it
      running, a session for all cells of its grid is open and its active one, and the message goes
      out with session and grid. */
  ghost predicate Begun(f: Fleet, g: Fleet, id: string, user: string, now: int, c: Config)
    requires id in f.racks
  {
    var rows, cols, n := f.racks[id].gridRows, f.racks[id].gridCols, |f.sessions|;
    && g.sessions == f.sessions + [ScanSession(id, "running", now, rows * cols)]
    && g.published == f.published + [ScanStart(id, n, rows, cols)]
    && g.active.Keys == f.active.Keys + {id} && g.active[id] == n
    && id in g.racks && LockKinds.LockedBy(g.racks[id].lock, user, P.Scan, now, c.timeouts)
    && g.racks[id].scanState == "running"
  }

  /** An attempt starts a scan iff the rack is online, known, and has no lock in force; its next scan
      comes an interval later then, and otherwise after the postponement, unless the rack is not
      known at all. The schedule is enabled or disabled as before. */
  lemma AttemptInFields(f: Fleet, id: string, now: int, c: Config)
    ensures var g := TryFire(f, id, now, c);
      var starts := id in f.online && id in f.racks && !LockKinds.InForce(f.racks[id].lock, now);
      && (starts ==> Begun(f, g, id, "_scan_engine", now, c))
      && (!starts ==> g == f.(schedules := g.schedules))
      && g.schedules.Keys == f.schedules.Keys
      && (id in f.schedules ==>
            && g.schedules[id].enabled == f.schedules[id].enabled
            && g.schedules[id].intervalHours == f.schedules[id].intervalHours
            && g.schedules[id].nextScanAt ==
                 if starts then now + f.schedules[id].intervalHours * 3600
                 else if id in f.online && id !in f.racks then f.schedules[id].nextScanAt
                 else now + c.postponeMinutes * 60)
  {
  }

  /** A manual start is answered by the first obstacle: the Pi is offline, the rack is not known, a
      lock is in force; without one the scan is started for the user, and the schedule stays. */
  lemma ManualInFields(f: Fleet, id: string, user: string, now: int, c: Config)
    ensures var (g, reply) := TriggerManual(f, id, user, now, c);
      && (reply.PiOffline? <==> id !in f.online)
      && (reply.NoRack? <==> id in f.online && id !in f.racks)
      && (reply.ManualQueued? <==> id in f.online && id in f.racks && LockKinds.InForce(f.racks[id].lock, now))
      && (reply.ManualPublished? ==> Begun(f, g, id, user, now, c) && g.schedules == f.schedules)
      && (!reply.ManualPublished? ==> g == f)
  {
  }

  // ---- Disabled schedules over runs -------------------------------------------------

  predicate NotEnabled(f: Fleet, id: string) {
    id in f.schedules ==> !f.schedules[id].enabled
  }

  /** Nobody enables the rack's schedule. */
  predicate LeavesDisabled(s: Step, id: string) {
    s.event.ScheduleEvent? && s.event.rack == id ==> !s.event.schedule.enabled
  }

  lemma {:induction false} FiringKeepsDisabled(f: Fleet, ids: seq<string>, now: int, c: Config, id: string)
    requires NotEnabled(f, id)
    ensures NotEnabled(FireAll(f, ids, now, c), id)
  {
    if ids != [] {
      FiringKeepsDisabled(f, ids[..|ids| - 1], now, c, id);
    }
  }

  lemma StepKeepsDisabled(w: World, s: Step, order: seq<string>, c: Config, id: string)
    requires c.groupSize > 0 && NotEnabled(w.fleet, id) && LeavesDisabled(s, id)
    ensures NotEnabled(Do(w, s, order, c).fleet, id)
  {
    hide FireAll, DueList, M.Do, M.Sent;
    if s.event.CheckEvent? {
      var due := DueList(order, w.fleet, s.now);
      FiringKeepsDisabled(w.fleet, due[..AtOnce(|due|, c)], s.now, c, id);
    }
  }

  /** No step sets a timer for the rack. */
  lemma DisabledGetsNoTimer(w: World, s: Step, order: seq<string>, c: Config, id: string)
    requires c.groupSize > 0 && NotEnabled(w.fleet, id)
    ensures forall tm :: tm in Do(w, s, order, c).fleet.timers && tm.rack == id ==> tm in w.fleet.timers
  {
    hide DueList, FireAll, TryFire, M.Do, M.Sent, P.Blocks;
    if s.event.CheckEvent? {
      var due := DueList(order, w.fleet, s.now);
      TimersOfFiring(w.fleet, due[..AtOnce(|due|, c)], s.now, c);
      DueListIs(order, w.fleet, s.now, id);
      forall tm | tm in TimersFor(due, s.now, c) ensures tm.rack in due {
        var k :| 0 <= k < |TimersFor(due, s.now, c)| && TimersFor(due, s.now, c)[k] == tm;
        assert tm.rack == due[AtOnce(|due|, c) + k];
      }
    } else if Fires(w, s) {
      var g := w.fleet.(timers := Without(w.fleet.timers, s.event.timer));
      TimersOfOne(g, w.fleet.timers[s.event.timer].rack, s.now, c);
    }
  }

  lemma DisabledIsNotDue(w: World, s: Step, id: string)
    requires NotEnabled(w.fleet, id)
    ensures !IsDue(w.fleet, id, s.now)
  {
  }

  /** Until somebody enables its schedule, a rack gets no timer, and it is started exactly as often as
      it is started by hand, or one of its old timers fires, with the gates open. */
  lemma {:induction false} DisabledOverRuns(w: World, steps: seq<Step>, order: seq<string>, c: Config, id: string)
    requires c.groupSize > 0 && Distinct(order) && NotEnabled(w.fleet, id)
    requires forall i :: 0 <= i < |steps| ==> LeavesDisabled(steps[i], id)
    ensures var end := Run(w, steps, order, c);
      && NotEnabled(end.fleet, id)
      && (forall tm :: tm in end.fleet.timers && tm.rack == id ==> tm in w.fleet.timers)
      && SecondStarts.StartsOf(end, id)
           == SecondStarts.StartsOf(w, id) + SecondStarts.Openings(w, steps, order, c, id)
  {
    hide Do, NotEnabled, LeavesDisabled, SecondStarts.StartsOf, SecondStarts.Opens;
    if steps != [] {
      var front, last := steps[..|steps| - 1], steps[|steps| - 1];
      var u := Run(w, front, order, c);
      DisabledOverRuns(w, front, order, c, id);
      StepKeepsDisabled(u, last, order, c, id);
      DisabledGetsNoTimer(u, last, order, c, id);
      DisabledIsNotDue(u, last, id);
      SecondStarts.StartsOnceIffOpened(u, last, order, c, id);
    }
  }

  /** So every such start goes back to a manual start of the rack, or to a timer that was pending
      when the schedule was found disabled; no run of the job starts it. */
  lemma DisabledStartsByHandOrOldTimer(w: World, steps: seq<Step>, order: seq<string>, c: Config, id: string, k: nat)
    returns (i: nat)
    requires c.groupSize > 0 && Distinct(order) && NotEnabled(w.fleet, id)
    requires forall i :: 0 <= i < |steps| ==> LeavesDisabled(steps[i], id)
    requires |w.fleet.published| <= k < |Run(w, steps, order, c).fleet.published|
    requires Run(w, steps, order, c).fleet.published[k].rack == id
    ensures i < |steps|
    ensures var u, s := Run(w, steps[..i], order, c), steps[i];
      && id in u.fleet.online && id in u.fleet.racks && !LockKinds.InForce(u.fleet.racks[id].lock, s.now)
      && ((s.event.ManualEvent? && s.event.rack == id)
          || (s.event.TimerEvent? && s.event.timer < |u.fleet.timers|
              && u.fleet.timers[s.event.timer].rack == id && u.fleet.timers[s.event.timer].at <= s.now
              && u.fleet.timers[s.event.timer] in w.fleet.timers))
  {
    hide Do, Candidates, NotEnabled, LeavesDisabled, Startable, P.Blocks;
    i := EveryStartIsGated(w, steps, order, c, k);
    var u := Run(w, steps[..i], order, c);
    DisabledOverRuns(w, steps[..i], order, c, id);
    DisabledIsNotCandidate(u, steps[i], order, c, id);
    GatesOpen(u.fleet, id, steps[i].now);
  }

  lemma DisabledIsNotCandidate(w: World, s: Step, order: seq<string>, c: Config, id: string)
    requires NotEnabled(w.fleet, id) && id in Candidates(w, s, order, c)
    ensures (s.event.ManualEvent? && s.event.rack == id)
      || (Fires(w, s) && w.fleet.timers[s.event.timer].rack == id)
  {
    hide DueList;
    DueListIs(order, w.fleet, s.now, id);
  }

  lemma GatesOpen(f: Fleet, id: string, now: int)
    requires Startable(f, id, now)
    ensures id in f.online && id in f.racks && !LockKinds.InForce(f.racks[id].lock, now)
  {
  }

  // ---- What an escalation does to the schedule --------------------------------------

  /** The monitor's second attempt disables the rack's schedule, and until somebody enables it again the
      rack is started by hand or by its old timers only, as often as they find the gates open. */
  lemma EscalationDisables(w: World, s: Step, after: seq<Step>, order: seq<string>, c: Config, id: string)
    requires c.groupSize > 0 && Distinct(order)
    requires Attempts(w, id) < 2 <= Attempts(Do(w, s, order, c), id)
    requires forall i :: 0 <= i < |after| ==> LeavesDisabled(after[i], id)
    ensures var v := Do(w, s, order, c);
      var end := Run(v, after, order, c);
      && (id in end.fleet.schedules ==> !end.fleet.schedules[id].enabled)
      && (forall tm :: tm in end.fleet.timers && tm.rack == id ==> tm in v.fleet.timers)
      && SecondStarts.StartsOf(end, id)
           == SecondStarts.StartsOf(v, id) + SecondStarts.Openings(v, after, order, c, id)
  {
    hide Run, SecondStarts.StartsOf, SecondStarts.Openings;
    SecondAttemptDisables(w, s, order, c, id);
    DisabledOverRuns(Do(w, s, order, c), after, order, c, id);
  }

  lemma SecondAttemptDisables(w: World, s: Step, order: seq<string>, c: Config, id: string)
    requires c.groupSize > 0 && Attempts(w, id) < 2 <= Attempts(Do(w, s, order, c), id)
    ensures NotEnabled(Do(w, s, order, c).fleet, id)
  {
    hide CheckDue, TryFire, TriggerManual, M.Do, M.Sent, M.Accepts;
    assert s.event.MonitorEvent? && s.event.rack == id;
    MessageCounts(MonitorOf(w, id), s.event.message);
  }
}
