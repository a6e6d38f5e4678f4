/** The stagger timers: when they cannot come first, and what they do when they fire after the scan
    of their rack was started already. */
module StaggerTimers {
  import opened Prelude
  import opened Scheduling
  import opened FleetRuns
  import opened StaggerRuns

  // ---- Runs of the job that leave the timers behind ---------------------------------

  function LastCheck(steps: seq<Step>): int
    requires ChecksIn(steps) > 0
  {
    var front, last := steps[..|steps| - 1], steps[|steps| - 1];
    if last.event.CheckEvent? then last.now else LastCheck(front)
  }

  /** From one run of the job to the next less time passes than given. */
  predicate GapsBelow(steps: seq<Step>, seconds: int) {
    if steps == [] then true
    else
      var front, last := steps[..|steps| - 1], steps[|steps| - 1];
      && GapsBelow(front, seconds)
      && (last.event.CheckEvent? && ChecksIn(front) > 0 ==> last.now - LastCheck(front) < seconds)
  }

  /** The delay from one group to the next. */
  function StepDelay(c: Config): int {
    c.delayMinutes * 60
  }

  /** After n runs, at `last`: a timer of a rack of group k, not yet taken, is k - n + 1 delays away
      from the last run, or later. */
  ghost predicate TimersAway(timers: seq<Timer>, due: seq<string>, n: nat, last: int, c: Config) {
    forall i, k :: 0 <= i < |timers| && k >= n && timers[i].rack in Group(due, k, c) ==>
      timers[i].at >= last + (k - n + 1) * StepDelay(c)
  }

  ghost predicate NoTimersFor(timers: seq<Timer>, due: seq<string>) {
    forall i :: 0 <= i < |timers| ==> timers[i].rack !in due
  }

  /** How the race stands after n runs, the last of them at `last`, at `now`. Timers of later groups
      have fired only after a gap. */
  ghost predicate Standing(timers: seq<Timer>, fired: set<string>, due: seq<string>, n: nat, last: int, now: int,
    c: Config)
  {
    if n == 0 then NoTimersFor(timers, due) && NoneOf(due, fired)
    else
      && TimersAway(timers, due, n, last, c)
      && (NoneOf(Later(due, n, c), fired) || now >= last + StepDelay(c))
  }

  ghost predicate Behind(w: World, steps: seq<Step>, due: seq<string>, order: seq<string>, c: Config)
    requires c.groupSize > 0
  {
    Standing(Run(w, steps, order, c).fleet.timers, TimersFired(w, steps, order, c), due, ChecksIn(steps),
      LastOf(steps).0, LastOf(steps).1, c)
  }

  ghost predicate NoneOf(ids: seq<string>, gone: set<string>) {
    forall id :: id in ids ==> id !in gone
  }

  lemma DelayInSeconds(j: nat, c: Config)
    ensures j * c.delayMinutes * 60 == j * StepDelay(c)
  {
  }

  lemma NewTimerAway(due: seq<string>, n: nat, c: Config, m: nat, k: nat)
    requires c.groupSize > 0 && Distinct(due) && k > n
    requires m < |Later(due, n, c)| && Later(due, n, c)[m] in Group(due, k, c)
    ensures Delay(m, c) * 60 == (k - n) * StepDelay(c)
  {
    hide Later, Group, Distinct, StepDelay;
    var rest := Later(due, n, c);
    var j := m / c.groupSize;
    InGroup(rest, m, c);
    GroupOfLater(due, n, j, c);
    GroupIsUnique(due, n + j, k, c, rest[m]);
    DelayInSeconds(j, c);
  }

  /** The timers that a run sets for what is left after n groups. */
  lemma NewTimersAway(due: seq<string>, n: nat, now: int, c: Config)
    requires c.groupSize > 0 && c.delayMinutes > 0 && Distinct(due)
    ensures TimersAway(TimersFor(Later(due, n, c), now, c), due, n + 1, now, c)
  {
    hide Later, Group, Delay, AtOnce, Distinct, StepDelay;
    var rest := Later(due, n, c);
    var timers := TimersFor(rest, now, c);
    forall i, k | 0 <= i < |timers| && k >= n + 1 && timers[i].rack in Group(due, k, c)
      ensures timers[i].at >= now + (k - (n + 1) + 1) * StepDelay(c)
    {
      NewTimerAway(due, n, c, AtOnce(|rest|, c) + i, k);
    }
  }

  lemma OldTimersAway(timers: seq<Timer>, due: seq<string>, n: nat, last: int, now: int, c: Config)
    requires TimersAway(timers, due, n, last, c) && now - last < StepDelay(c)
    ensures TimersAway(timers, due, n + 1, now, c)
  {
    forall i, k | 0 <= i < |timers| && k >= n + 1 && timers[i].rack in Group(due, k, c)
      ensures timers[i].at >= now + (k - (n + 1) + 1) * StepDelay(c)
    {
      assert (k - n + 1) * StepDelay(c) == (k - n) * StepDelay(c) + StepDelay(c);
    }
  }

  lemma NoOldTimers(timers: seq<Timer>, due: seq<string>, n: nat, last: int, c: Config)
    requires NoTimersFor(timers, due)
    ensures TimersAway(timers, due, n, last, c)
  {
    forall k: nat ensures forall id :: id in Group(due, k, c) ==> id in due {
      GroupsInDue(due, k, c);
    }
  }

  lemma TimersAwayConcat(a: seq<Timer>, b: seq<Timer>, due: seq<string>, n: nat, last: int, c: Config)
    requires TimersAway(a, due, n, last, c) && TimersAway(b, due, n, last, c)
    ensures TimersAway(a + b, due, n, last, c)
  {
    hide Group;
  }

  lemma FewerTimersAway(timers: seq<Timer>, k: nat, due: seq<string>, n: nat, last: int, c: Config)
    requires k < |timers|
    ensures TimersAway(timers, due, n, last, c) ==> TimersAway(Without(timers, k), due, n, last, c)
    ensures NoTimersFor(timers, due) ==> NoTimersFor(Without(timers, k), due)
  {
    hide Group;
    var fewer := Without(timers, k);
    assert forall i :: 0 <= i < |fewer| ==> fewer[i] == timers[if i < k then i else i + 1];
  }

  /** What a step does to the timers. */
  lemma StepTimers(w: World, s: Step, order: seq<string>, c: Config)
    requires c.groupSize > 0 && Traffic(s)
    ensures var timers := Do(w, s, order, c).fleet.timers;
      && (s.event.CheckEvent? ==> timers == w.fleet.timers + TimersFor(DueList(order, w.fleet, s.now), s.now, c))
      && (Fires(w, s) ==> timers == Without(w.fleet.timers, s.event.timer))
      && (!s.event.CheckEvent? && !Fires(w, s) ==> timers == w.fleet.timers)
  {
    hide DueList, FireAll, TryFire, TimersFor;
    if s.event.CheckEvent? {
      var due := DueList(order, w.fleet, s.now);
      TimersOfFiring(w.fleet, due[..AtOnce(|due|, c)], s.now, c);
    } else if Fires(w, s) {
      var g := w.fleet.(timers := Without(w.fleet.timers, s.event.timer));
      TimersOfOne(g, w.fleet.timers[s.event.timer].rack, s.now, c);
    }
  }

  /** A run of the job that comes before the gap is over finds the later groups complete. */
  lemma StandingAtCheck(timers: seq<Timer>, fired: set<string>, due: seq<string>, n: nat, last: int, now: int,
    later: int, c: Config)
    requires c.groupSize > 0 && c.delayMinutes > 0 && Distinct(due)
    requires Standing(timers, fired, due, n, last, now, c)
    requires n > 0 ==> now <= later < last + StepDelay(c)
    ensures NoneOf(Later(due, n, c), fired)
    ensures Standing(timers + TimersFor(Later(due, n, c), later, c), fired, due, n + 1, later, later, c)
  {
    GroupsInDue(due, n, c);
    LaterStep(due, n, c);
    hide TimersAway, TimersFor, Later, Group, StepDelay, Distinct, NoTimersFor;
    NewTimersAway(due, n, later, c);
    if n == 0 {
      NoOldTimers(timers, due, 1, later, c);
    } else {
      OldTimersAway(timers, due, n, last, later, c);
    }
    TimersAwayConcat(timers, TimersFor(Later(due, n, c), later, c), due, n + 1, later, c);
  }

  lemma StandingAtTimer(timers: seq<Timer>, fired: set<string>, due: seq<string>, n: nat, last: int, now: int,
    later: int, k: nat, c: Config)
    requires c.groupSize > 0 && c.delayMinutes > 0
    requires Standing(timers, fired, due, n, last, now, c)
    requires n > 0 ==> now <= later
    requires k < |timers| && timers[k].at <= later
    ensures Standing(Without(timers, k), fired + {timers[k].rack}, due, n, last, later, c)
  {
    hide Group, Later;
    FewerTimersAway(timers, k, due, n, last, c);
    if n > 0 && timers[k].rack in Later(due, n, c) {
      var j := LaterHasGroup(due, n, c, timers[k].rack);
      assert timers[k].at >= last + (j - n + 1) * StepDelay(c);
      Monotone(1, j - n + 1, StepDelay(c));
    }
  }

  lemma StandingLater(timers: seq<Timer>, fired: set<string>, due: seq<string>, n: nat, last: int, now: int,
    later: int, c: Config)
    requires Standing(timers, fired, due, n, last, now, c) && (n > 0 ==> now <= later)
    ensures Standing(timers, fired, due, n, last, later, c)
  {
  }

  /** Such a run finds just the later groups due. */
  lemma CheckFindsLater(w: World, front: seq<Step>, order: seq<string>, from: int, to: int, c: Config, now: int)
    requires Calm(w.fleet, order, from, to, c) && Orderly(front, from, to) && from <= now < to
    requires InTurn(w, front, DueList(order, w.fleet, from), order, c)
    requires NoneOf(Later(DueList(order, w.fleet, from), ChecksIn(front), c), TimersFired(w, front, order, c))
    ensures DueList(order, Run(w, front, order, c).fleet, now)
      == Later(DueList(order, w.fleet, from), ChecksIn(front), c)
  {
    DueWhileInTurn(w, front, order, from, to, c, now);
    hide Calm, Orderly, DueList, InTurn, Run, Later;
    RemainingNone(Later(DueList(order, w.fleet, from), ChecksIn(front), c), TimersFired(w, front, order, c));
  }

  lemma AtCheck(w: World, steps: seq<Step>, order: seq<string>, c: Config)
    requires c.groupSize > 0 && steps != [] && steps[|steps| - 1].event.CheckEvent?
    ensures var front, last := steps[..|steps| - 1], steps[|steps| - 1];
      && Run(w, steps, order, c) == Do(Run(w, front, order, c), last, order, c)
      && TimersFired(w, steps, order, c) == TimersFired(w, front, order, c)
      && ChecksIn(steps) == ChecksIn(front) + 1 && LastCheck(steps) == last.now
  {
    hide Do;
  }

  /** When the last run was, and the last step; without any the value does not matter. */
  function LastOf(steps: seq<Step>): (int, int) {
    (if ChecksIn(steps) > 0 then LastCheck(steps) else 0, if steps == [] then 0 else steps[|steps| - 1].now)
  }

  lemma GapAtCheck(steps: seq<Step>, from: int, to: int, seconds: int)
    requires Orderly(steps, from, to) && GapsBelow(steps, seconds)
    requires steps != [] && steps[|steps| - 1].event.CheckEvent?
    ensures var front, last := steps[..|steps| - 1], steps[|steps| - 1];
      ChecksIn(front) > 0 ==> LastOf(front).1 <= last.now < LastOf(front).0 + seconds
  {
    OrderlyFront(steps, from, to);
    hide Orderly;
  }

  /** A run that comes before the gap is over finds the later groups complete. */
  lemma CheckInTime(w: World, steps: seq<Step>, due: seq<string>, order: seq<string>, from: int, to: int, c: Config)
    requires c.groupSize > 0 && c.delayMinutes > 0 && Distinct(due) && Orderly(steps, from, to)
    requires steps != [] && steps[|steps| - 1].event.CheckEvent? && GapsBelow(steps, StepDelay(c))
    requires Behind(w, steps[..|steps| - 1], due, order, c)
    ensures var front, last := steps[..|steps| - 1], steps[|steps| - 1];
      && NoneOf(Later(due, ChecksIn(front), c), TimersFired(w, front, order, c))
      && (DueList(order, Run(w, front, order, c).fleet, last.now) == Later(due, ChecksIn(front), c) ==>
            Behind(w, steps, due, order, c))
  {
    var front, last := steps[..|steps| - 1], steps[|steps| - 1];
    var n, fired, u := ChecksIn(front), TimersFired(w, front, order, c), Run(w, front, order, c);
    GapAtCheck(steps, from, to, StepDelay(c));
    AtCheck(w, steps, order, c);
    StepTimers(u, last, order, c);
    hide Orderly, DueList, Do, Standing, Later, StepDelay, Traffic, Distinct, TimersFor, NoneOf;
    hide Run, TimersFired, ChecksIn, LastCheck, GapsBelow, LastOf;
    StandingAtCheck(u.fleet.timers, fired, due, n, LastOf(front).0, LastOf(front).1, last.now, c);
    LastAtCheck(steps);
  }

  lemma LastAtCheck(steps: seq<Step>)
    requires steps != [] && steps[|steps| - 1].event.CheckEvent?
    ensures LastOf(steps) == (steps[|steps| - 1].now, steps[|steps| - 1].now)
  {
  }

  lemma CheckKeepsBehind(w: World, steps: seq<Step>, order: seq<string>, from: int, to: int, c: Config)
    requires Calm(w.fleet, order, from, to, c) && Orderly(steps, from, to) && c.delayMinutes > 0
    requires steps != [] && steps[|steps| - 1].event.CheckEvent? && GapsBelow(steps, StepDelay(c))
    requires InTurn(w, steps[..|steps| - 1], DueList(order, w.fleet, from), order, c)
    requires Behind(w, steps[..|steps| - 1], DueList(order, w.fleet, from), order, c)
    ensures Behind(w, steps, DueList(order, w.fleet, from), order, c)
    ensures NoneOf(Later(DueList(order, w.fleet, from), ChecksIn(steps[..|steps| - 1]), c),
                   TimersFired(w, steps[..|steps| - 1], order, c))
  {
    CalmConfig(w.fleet, order, from, to, c);
    DueRacks(order, w.fleet, from);
    OrderlyFront(steps, from, to);
    hide Calm, Orderly, DueList, InTurn, Behind, GapsBelow, NoneOf, Run, TimersFired, ChecksIn, Later;
    CheckInTime(w, steps, DueList(order, w.fleet, from), order, from, to, c);
    CheckFindsLater(w, steps[..|steps| - 1], order, from, to, c, steps[|steps| - 1].now);
  }

  lemma OtherKeepsBehind(w: World, steps: seq<Step>, due: seq<string>, from: int, to: int, order: seq<string>,
    c: Config)
    requires c.groupSize > 0 && c.delayMinutes > 0 && Orderly(steps, from, to)
    requires steps != [] && !steps[|steps| - 1].event.CheckEvent?
    requires Behind(w, steps[..|steps| - 1], due, order, c)
    ensures Behind(w, steps, due, order, c)
  {
    var front, last := steps[..|steps| - 1], steps[|steps| - 1];
    var n, fired, u := ChecksIn(front), TimersFired(w, front, order, c), Run(w, front, order, c);
    var t, now := if n > 0 then LastCheck(front) else 0, if front == [] then 0 else front[|front| - 1].now;
    OrderlyFront(steps, from, to);
    StepTimers(u, last, order, c);
    hide Orderly, Do, Standing, Traffic;
    if Fires(u, last) {
      StandingAtTimer(u.fleet.timers, fired, due, n, t, now, last.now, last.event.timer, c);
    } else {
      assert fired + {} == fired;
      StandingLater(u.fleet.timers, fired, due, n, t, now, last.now, c);
    }
  }

  /** What a caller can check: if no rack that is due has an old timer, and every gap between two
      runs of the job is shorter than the delay, then no timer comes first, so each run attempts
      just the group of its number. */
  lemma {:induction false} ShortGapsKeepTurn(w: World, steps: seq<Step>, order: seq<string>, from: int, to: int,
    c: Config)
    requires Calm(w.fleet, order, from, to, c) && Orderly(steps, from, to) && c.delayMinutes > 0
    requires NoTimersFor(w.fleet.timers, DueList(order, w.fleet, from)) && GapsBelow(steps, StepDelay(c))
    ensures var due := DueList(order, w.fleet, from);
      && InTurn(w, steps, due, order, c) && NoTimerAhead(w, steps, due, order, c)
      && Behind(w, steps, due, order, c)
  {
    CalmConfig(w.fleet, order, from, to, c);
    DueRacks(order, w.fleet, from);
    hide Calm, DueList, Do, Traffic, Group, Behind;
    var due := DueList(order, w.fleet, from);
    if steps == [] {
      NothingBehind(w, due, order, c);
    } else {
      var front, last := steps[..|steps| - 1], steps[|steps| - 1];
      OrderlyFront(steps, from, to);
      ShortGapsKeepTurn(w, front, order, from, to, c);
      if last.event.CheckEvent? {
        CheckKeepsBehind(w, steps, order, from, to, c);
      } else {
        OtherKeepsBehind(w, steps, due, from, to, order, c);
      }
      GroupsStartInTurnIff(w, steps, order, from, to, c);
    }
  }

  lemma NothingBehind(w: World, due: seq<string>, order: seq<string>, c: Config)
    requires c.groupSize > 0 && NoTimersFor(w.fleet.timers, due)
    ensures Behind(w, [], due, order, c)
  {
  }

  // ---- The timers that a run sets ---------------------------------------------------

  /** Every run sets a timer for each rack that it leaves to later groups, j delays away for the j-th
      of these; so a rack collects one from every run before its own. */
  lemma CheckSetsTimers(w: World, s: Step, order: seq<string>, c: Config, j: nat, id: string)
    requires c.groupSize > 0 && c.delayMinutes > 0 && s.event.CheckEvent?
    requires j >= 1 && id in Group(DueList(order, w.fleet, s.now), j, c)
    ensures Timer(s.now + j * StepDelay(c), id) in Do(w, s, order, c).fleet.timers
  {
    var due := DueList(order, w.fleet, s.now);
    StepTimers(w, s, order, c);
    hide DueList, Do;
    GroupTimer(due, s.now, c, j, id);
  }

  lemma GroupTimer(due: seq<string>, now: int, c: Config, j: nat, id: string)
    requires c.groupSize > 0 && c.delayMinutes > 0 && j >= 1 && id in Group(due, j, c)
    ensures Timer(now + j * StepDelay(c), id) in TimersFor(due, now, c)
  {
    var m :| 0 <= m < |Group(due, j, c)| && Group(due, j, c)[m] == id;
    var i := j * c.groupSize + m;
    assert due[i] == id;
    Monotone(1, j, c.groupSize);
    assert (j + 1) * c.groupSize == j * c.groupSize + c.groupSize;
    Quotient(i, c.groupSize, j);
    assert Delay(i, c) == j * c.delayMinutes;
    hide Group, Later, Delay;
    var n := AtOnce(|due|, c);
    assert TimersFor(due, now, c)[i - n] == Timer(now + Delay(i, c) * 60, due[i]);
    assert Delay(i, c) * 60 == j * StepDelay(c);
  }

  /** A timer once set is pending until it fires: attempts of its rack do not cancel it. */
  lemma {:induction false} PendingUntilFired(w: World, steps: seq<Step>, order: seq<string>, c: Config, tm: Timer)
    requires c.groupSize > 0 && tm in w.fleet.timers && forall i :: 0 <= i < |steps| ==> Traffic(steps[i])
    ensures tm in Run(w, steps, order, c).fleet.timers
      || exists k :: 0 <= k < |steps| && FiresTimer(Run(w, steps[..k], order, c), steps[k], tm)
  {
    hide Do, Traffic;
    if steps != [] {
      var front, last := steps[..|steps| - 1], steps[|steps| - 1];
      var u := Run(w, front, order, c);
      PendingUntilFired(w, front, order, c, tm);
      if tm in u.fleet.timers {
        StepTimers(u, last, order, c);
        if Fires(u, last) {
          OthersStay(u, last, tm);
        } else if last.event.CheckEvent? {
          assert tm in Do(u, last, order, c).fleet.timers;
        }
        assert steps[..|steps| - 1] == front;
      } else {
        var k :| 0 <= k < |front| && FiresTimer(Run(w, front[..k], order, c), front[k], tm);
        assert front[..k] == steps[..k] && front[k] == steps[k];
      }
    }
  }

  predicate FiresTimer(w: World, s: Step, tm: Timer) {
    Fires(w, s) && w.fleet.timers[s.event.timer] == tm
  }

  lemma OthersStay(w: World, s: Step, tm: Timer)
    requires tm in w.fleet.timers && Fires(w, s)
    ensures FiresTimer(w, s, tm) || tm in Without(w.fleet.timers, s.event.timer)
  {
    var i :| 0 <= i < |w.fleet.timers| && w.fleet.timers[i] == tm;
    var k := s.event.timer;
    if i < k {
      assert Without(w.fleet.timers, k)[i] == tm;
    } else if i > k {
      assert Without(w.fleet.timers, k)[i - 1] == tm;
    }
  }
}
