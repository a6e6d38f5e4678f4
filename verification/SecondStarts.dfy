/** What is published while runs of the job and stagger timers race, and which racks are started a
    second time. */
module SecondStarts {
  import opened Prelude
  import opened Scheduling
  import opened FleetRuns
  import opened StaggerRuns
  import opened StaggerTimers

  /** The racks that a step tries to start, by the job, a timer or hand. */
  function TriedBy(w: World, s: Step, order: seq<string>, c: Config): seq<string> {
    if s.event.ManualEvent? then [s.event.rack] else AttemptsOf(w, s, order, c)
  }

  lemma ManualPublishes(f: Fleet, id: string, user: string, now: int, c: Config)
    ensures RacksOf(TriggerManual(f, id, user, now, c).0.published)
      == RacksOf(f.published) + if Startable(f, id, now) then [id] else []
  {
  }

  lemma OneStartable(f: Fleet, id: string, now: int)
    ensures Startables(f, [id], now) == if Startable(f, id, now) then [id] else []
  {
    assert [id][..0] == [];
  }

  /** Any step: of the racks it tries, just those whose gates are open are started, in their order. */
  lemma StepPublishes(w: World, s: Step, order: seq<string>, c: Config)
    requires c.groupSize > 0 && Distinct(order)
    ensures RacksOf(Do(w, s, order, c).fleet.published)
      == RacksOf(w.fleet.published) + Startables(w.fleet, TriedBy(w, s, order, c), s.now)
  {
    hide DueList, FireAll, TryFire, TriggerManual, RacksOf, Startable;
    var f := w.fleet;
    assert Startables(f, [], s.now) == [];
    if s.event.CheckEvent? {
      var ids := TriedBy(w, s, order, c);
      DueRacks(order, f, s.now);
      FireAllExactly(f, ids, s.now, c);
    } else if Fires(w, s) {
      var g := f.(timers := Without(f.timers, s.event.timer));
      var id := f.timers[s.event.timer].rack;
      TryFirePublishes(g, id, s.now, c);
      OneStartable(f, id, s.now);
      GatesWhateverTimers(f, g, id, s.now);
    } else if s.event.ManualEvent? {
      ManualPublishes(f, s.event.rack, s.event.user, s.now, c);
      OneStartable(f, s.event.rack, s.now);
    }
  }

  lemma GatesWhateverTimers(f: Fleet, g: Fleet, id: string, now: int)
    requires g == f.(timers := g.timers)
    ensures Startable(g, id, now) <==> Startable(f, id, now)
  {
  }

  /** While runs take their groups in turn, run j starts just those racks of group j that are online
      and unlocked then, in the order of the list. */
  lemma GroupIsStarted(w: World, steps: seq<Step>, due: seq<string>, order: seq<string>, c: Config)
    requires c.groupSize > 0 && Distinct(order) && InTurn(w, steps, due, order, c)
    requires steps != [] && steps[|steps| - 1].event.CheckEvent?
    ensures var front, last := steps[..|steps| - 1], steps[|steps| - 1];
      var u := Run(w, front, order, c);
      RacksOf(Run(w, steps, order, c).fleet.published)
        == RacksOf(u.fleet.published) + Startables(u.fleet, Group(due, ChecksIn(front), c), last.now)
  {
    hide Do, RacksOf, Group, DueList;
    StepPublishes(Run(w, steps[..|steps| - 1], order, c), steps[|steps| - 1], order, c);
  }

  // ---- Racks that were attempted already --------------------------------------------

  /** The step fires a timer of the rack, or starts it by hand, with the gates open. */
  predicate Opens(w: World, s: Step, id: string) {
    && Startable(w.fleet, id, s.now)
    && ((s.event.ManualEvent? && s.event.rack == id) || (Fires(w, s) && w.fleet.timers[s.event.timer].rack == id))
  }

  function Openings(w: World, steps: seq<Step>, order: seq<string>, c: Config, id: string): nat
    requires c.groupSize > 0
  {
    if steps == [] then 0
    else
      var front, last := steps[..|steps| - 1], steps[|steps| - 1];
      Openings(w, front, order, c, id) + if Opens(Run(w, front, order, c), last, id) then 1 else 0
  }

  lemma {:induction false} NotTriedNotStarted(f: Fleet, ids: seq<string>, now: int, id: string)
    ensures id in Startables(f, ids, now) ==> id in ids
  {
    if ids != [] {
      NotTriedNotStarted(f, ids[..|ids| - 1], now, id);
    }
  }

  /** How often a rack has been started. */
  function StartsOf(w: World, id: string): nat {
    multiset(RacksOf(w.fleet.published))[id]
  }

  /** A step starts a rack that is not due, once and with this message, iff it opens it. */
  lemma StartsOnceIffOpened(w: World, s: Step, order: seq<string>, c: Config, id: string)
    requires c.groupSize > 0 && Distinct(order) && !IsDue(w.fleet, id, s.now)
    ensures StartsOf(Do(w, s, order, c), id)
      == StartsOf(w, id) + if Opens(w, s, id) then 1 else 0
    ensures Opens(w, s, id) ==>
      var f := w.fleet;
      Do(w, s, order, c).fleet.published
        == f.published + [ScanStart(id, |f.sessions|, f.racks[id].gridRows, f.racks[id].gridCols)]
  {
    StepPublishes(w, s, order, c);
    if Opens(w, s, id) {
      ManualOrTimerStarts(w, s, order, c, id);
    }
    hide Do, RacksOf, DueList, IsDue, Startable;
    var tried := TriedBy(w, s, order, c);
    if s.event.CheckEvent? {
      DueListIs(order, w.fleet, s.now, id);
      NotTriedNotStarted(w.fleet, tried, s.now, id);
      assert id !in Startables(w.fleet, tried, s.now);
    } else if s.event.ManualEvent? || Fires(w, s) {
      OneStartable(w.fleet, tried[0], s.now);
      assert tried == [tried[0]];
    }
  }

  lemma {:induction false} AttemptedStays(w: World, before: seq<Step>, after: seq<Step>, order: seq<string>, c: Config)
    requires c.groupSize > 0
    ensures AttemptedIn(w, before, order, c) <= AttemptedIn(w, before + after, order, c)
  {
    hide AttemptsOf, Do;
    if after == [] {
      assert before + after == before;
    } else {
      assert (before + after)[..|before + after| - 1] == before + after[..|after| - 1];
      AttemptedStays(w, before, after[..|after| - 1], order, c);
    }
  }

  /** After a rack's first attempt in the period, whatever else comes, it is started again exactly as
      often as one of its timers fires, or it is started by hand, with the gates open: online, and
      its lock gone, as it is once the first scan has ended. */
  lemma {:induction false} StartedAgainPerOpening(w: World, before: seq<Step>, after: seq<Step>, order: seq<string>,
    from: int, to: int, c: Config, id: string)
    requires Calm(w.fleet, order, from, to, c) && Orderly(before + after, from, to)
    requires c.groupSize > 0 && id in AttemptedIn(w, before, order, c)
    ensures var u := Run(w, before, order, c);
      StartsOf(Run(w, before + after, order, c), id) == StartsOf(u, id) + Openings(u, after, order, c, id)
  {
    hide Calm, Orderly, AttemptedIn, Do, Opens, StartsOf, Traffic;
    if after == [] {
      assert before + after == before;
    } else {
      var front, last := after[..|after| - 1], after[|after| - 1];
      assert before + after == before + front + [last];
      OrderlyPrefix(before + front, last, from, to);
      StartedAgainPerOpening(w, before, front, order, from, to, c, id);
      AttemptedStays(w, before, front, order, c);
      OneMoreStep(w, before + front, last, order, from, to, c, id);
      RunAppend(w, before, front, order, c);
    }
  }

  lemma OrderlyPrefix(steps: seq<Step>, last: Step, from: int, to: int)
    requires Orderly(steps + [last], from, to)
    ensures Orderly(steps, from, to) && from <= last.now < to
  {
    OrderlyFront(steps + [last], from, to);
    assert (steps + [last])[..|steps|] == steps;
  }

  lemma OneMoreStep(w: World, steps: seq<Step>, last: Step, order: seq<string>, from: int, to: int, c: Config,
    id: string)
    requires Calm(w.fleet, order, from, to, c) && Orderly(steps, from, to) && from <= last.now < to
    requires c.groupSize > 0 && id in AttemptedIn(w, steps, order, c)
    ensures var u := Run(w, steps, order, c);
      StartsOf(Run(w, steps + [last], order, c), id) == StartsOf(u, id) + if Opens(u, last, id) then 1 else 0
  {
    CalmConfig(w.fleet, order, from, to, c);
    AttemptedIsNotDue(w, steps, order, from, to, c, id, last.now);
    assert (steps + [last])[..|steps|] == steps;
    hide Calm, Orderly, AttemptedIn, Do, Opens, StartsOf, IsDue;
    StartsOnceIffOpened(Run(w, steps, order, c), last, order, c, id);
  }

  lemma AttemptedIsNotDue(w: World, steps: seq<Step>, order: seq<string>, from: int, to: int, c: Config, id: string,
    t: int)
    requires Calm(w.fleet, order, from, to, c) && Orderly(steps, from, to) && from <= t < to
    requires c.groupSize > 0 && id in AttemptedIn(w, steps, order, c)
    ensures !IsDue(Run(w, steps, order, c).fleet, id, t)
  {
    hide Calm, Orderly, Run, AttemptedIn;
    RunSince(w, steps, order, from, to, c);
    DueIff(w.fleet, Run(w, steps, order, c).fleet, AttemptedIn(w, steps, order, c), id, order, from, to, c, t);
  }

  // ---- The interval -----------------------------------------------------------------

  /** An attempt of a known rack plans its next scan: after the interval if it starts, after the
      postponement if not. */
  lemma AttemptPlans(w: World, s: Step, order: seq<string>, c: Config, id: string)
    requires c.groupSize > 0 && Distinct(order)
    requires id in AttemptsOf(w, s, order, c) && id in w.fleet.racks && id in w.fleet.schedules
    ensures var g := Do(w, s, order, c).fleet;
      id in g.schedules && g.schedules[id].nextScanAt == NextAfter(w.fleet, id, s.now, c)
  {
    hide DueList, FireAll, TryFire;
    var f := w.fleet;
    if s.event.CheckEvent? {
      var ids := AttemptsOf(w, s, order, c);
      DueRacks(order, f, s.now);
      FireAllExactly(f, ids, s.now, c);
    } else {
      FireOne(f.(timers := Without(f.timers, s.event.timer)), id, s.now, c);
    }
  }

  /** Steps that do not attempt a rack leave its schedule as it is. */
  lemma NotAttemptedKeepsSchedule(w: World, s: Step, order: seq<string>, c: Config, id: string)
    requires c.groupSize > 0 && Distinct(order) && Traffic(s)
    requires id !in AttemptsOf(w, s, order, c) && id in w.fleet.racks && id in w.fleet.schedules
    ensures var g := Do(w, s, order, c).fleet;
      id in g.racks && id in g.schedules && g.schedules[id] == w.fleet.schedules[id]
  {
    hide DueList, FireAll, TryFire, Startable;
    var f := w.fleet;
    if s.event.CheckEvent? {
      var ids := AttemptsOf(w, s, order, c);
      DueRacks(order, f, s.now);
      FireAllExactly(f, ids, s.now, c);
    } else if Fires(w, s) {
      TryFireTouches(f.(timers := Without(f.timers, s.event.timer)), f.timers[s.event.timer].rack, s.now, c);
    }
  }

  predicate LeavesAlone(w: World, steps: seq<Step>, order: seq<string>, c: Config, id: string)
    requires c.groupSize > 0
  {
    if steps == [] then true
    else
      var front, last := steps[..|steps| - 1], steps[|steps| - 1];
      LeavesAlone(w, front, order, c, id) && Traffic(last) && id !in AttemptsOf(Run(w, front, order, c), last, order, c)
  }

  lemma {:induction false} LeftAlone(w: World, steps: seq<Step>, order: seq<string>, c: Config, id: string)
    requires c.groupSize > 0 && Distinct(order) && LeavesAlone(w, steps, order, c, id)
    requires id in w.fleet.racks && id in w.fleet.schedules
    ensures var g := Run(w, steps, order, c).fleet;
      id in g.racks && id in g.schedules && g.schedules[id] == w.fleet.schedules[id]
  {
    hide Do, AttemptsOf, Traffic;
    if steps != [] {
      var front := steps[..|steps| - 1];
      LeftAlone(w, front, order, c, id);
      NotAttemptedKeepsSchedule(Run(w, front, order, c), steps[|steps| - 1], order, c, id);
    }
  }

  /** A rack is started by the job or a timer; then, whatever comes that does not attempt it, one of
      its timers fires. This shortens the interval that the start had set iff a gate is shut by
      then, as it is while the scan runs, and the postponement ends before the interval would. */
  lemma TimerShortensIff(w: World, start: Step, between: seq<Step>, fire: Step, order: seq<string>, c: Config,
    id: string)
    requires c.groupSize > 0 && Distinct(order)
    requires id in AttemptsOf(w, start, order, c) && Startable(w.fleet, id, start.now) && id in w.fleet.schedules
    requires LeavesAlone(Do(w, start, order, c), between, order, c, id)
    requires var u := Run(Do(w, start, order, c), between, order, c);
      Fires(u, fire) && u.fleet.timers[fire.event.timer].rack == id && start.now <= fire.now
    ensures var v := Do(w, start, order, c);
      var u := Run(v, between, order, c);
      && id in u.fleet.schedules && id in Do(u, fire, order, c).fleet.schedules
      && u.fleet.schedules[id].intervalHours == w.fleet.schedules[id].intervalHours
      && var planned := start.now + w.fleet.schedules[id].intervalHours * 3600;
      && u.fleet.schedules[id].nextScanAt == planned
      && (Do(u, fire, order, c).fleet.schedules[id].nextScanAt < planned <==>
            ShutOut(u.fleet, id, fire.now) && fire.now + c.postponeMinutes * 60 < planned)
  {
    AttemptPlans(w, start, order, c, id);
    StartKeepsInterval(w, start, order, c, id);
    var v := Do(w, start, order, c);
    LeftAlone(v, between, order, c, id);
    var u := Run(v, between, order, c);
    hide AttemptsOf, LeavesAlone, Run, TryFire;
    var g := u.fleet.(timers := Without(u.fleet.timers, fire.event.timer));
    FiringBringsForwardIff(g, id, fire.now, c);
    TryFireTouches(g, id, fire.now, c);
    assert Do(u, fire, order, c).fleet == TryFire(g, id, fire.now, c);
  }

  lemma StartKeepsInterval(w: World, s: Step, order: seq<string>, c: Config, id: string)
    requires c.groupSize > 0 && (s.event.CheckEvent? || Fires(w, s)) && id in w.fleet.schedules
    ensures var g := Do(w, s, order, c).fleet;
      && g.racks.Keys == w.fleet.racks.Keys
      && id in g.schedules && g.schedules[id].intervalHours == w.fleet.schedules[id].intervalHours
  {
    hide DueList, FireAll, TryFire;
    if s.event.CheckEvent? {
      FiringKeepsIntervals(w.fleet, AttemptsOf(w, s, order, c), s.now, c, id);
    } else {
      var f := w.fleet;
      TryFireTouches(f.(timers := Without(f.timers, s.event.timer)), f.timers[s.event.timer].rack, s.now, c);
    }
  }

  lemma {:induction false} FiringKeepsIntervals(f: Fleet, ids: seq<string>, now: int, c: Config, id: string)
    requires id in f.schedules
    ensures var g := FireAll(f, ids, now, c);
      && g.racks.Keys == f.racks.Keys && g.schedules.Keys == f.schedules.Keys
      && g.schedules[id].intervalHours == f.schedules[id].intervalHours
  {
    hide TryFire;
    if ids != [] {
      FiringKeepsIntervals(f, ids[..|ids| - 1], now, c, id);
      TryFireTouches(FireAll(f, ids[..|ids| - 1], now, c), ids[|ids| - 1], now, c);
    }
  }
}
