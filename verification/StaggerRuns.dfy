/** What staggering comes to when runs of the scheduler's job and stagger timers race: which rack is
    attempted by which run, when the timers come first, what is started, and what is started
    again. */
module StaggerRuns {
  import opened Prelude
  import opened Scheduling
  import opened FleetRuns

  function RacksOf(published: seq<ScanStart>): (r: seq<string>)
    ensures |r| == |published| && forall i :: 0 <= i < |r| ==> r[i] == published[i].rack
  {
    seq(|published|, i requires 0 <= i < |published| => published[i].rack)
  }

  /** Of some racks those whose gates are open. */
  function Startables(f: Fleet, ids: seq<string>, now: int): seq<string> {
    if ids == [] then []
    else Startables(f, ids[..|ids| - 1], now) + if Startable(f, ids[|ids| - 1], now) then [ids[|ids| - 1]] else []
  }

  /** The next scan of a known rack after an attempt. */
  function NextAfter(f: Fleet, id: string, now: int, c: Config): int
    requires id in f.schedules
  {
    if Startable(f, id, now) then now + f.schedules[id].intervalHours * 3600 else now + c.postponeMinutes * 60
  }

  /** Racks that are as they were. */
  ghost predicate Untouched(f: Fleet, g: Fleet, id: string) {
    && g.online == f.online
    && id in f.racks && id in g.racks && g.racks[id] == f.racks[id]
    && id in f.schedules && id in g.schedules && g.schedules[id] == f.schedules[id]
  }

  lemma TryFirePublishes(f: Fleet, id: string, now: int, c: Config)
    ensures var g := TryFire(f, id, now, c);
      && RacksOf(g.published) == RacksOf(f.published) + (if Startable(f, id, now) then [id] else [])
      && g.timers == f.timers && g.online == f.online
  {
  }

  lemma FireOne(f: Fleet, id: string, now: int, c: Config)
    requires id in f.racks && id in f.schedules
    ensures var g := TryFire(f, id, now, c);
      g.schedules.Keys == f.schedules.Keys && g.schedules[id].nextScanAt == NextAfter(f, id, now, c)
    ensures forall other :: other != id && other in f.racks && other in f.schedules ==>
      Untouched(f, TryFire(f, id, now, c), other)
  {
  }

  lemma {:induction false} FireAllExactly(f: Fleet, ids: seq<string>, now: int, c: Config)
    requires Distinct(ids)
    requires forall i :: 0 <= i < |ids| ==> ids[i] in f.racks && ids[i] in f.schedules
    ensures var g := FireAll(f, ids, now, c);
      && RacksOf(g.published) == RacksOf(f.published) + Startables(f, ids, now)
      && g.timers == f.timers && g.online == f.online && g.schedules.Keys == f.schedules.Keys
      && (forall i :: 0 <= i < |ids| ==> g.schedules[ids[i]].nextScanAt == NextAfter(f, ids[i], now, c))
      && (forall id :: id !in ids && id in f.racks && id in f.schedules ==> Untouched(f, g, id))
    decreases |ids|
  {
    hide TryFire, RacksOf;
    if ids != [] {
      var front, last := ids[..|ids| - 1], ids[|ids| - 1];
      var h := FireAll(f, front, now, c);
      FireAllExactly(f, front, now, c);
      assert last !in front && Untouched(f, h, last);
      TryFirePublishes(h, last, now, c);
      FireOne(h, last, now, c);
      FiringKeepsMaintenance(f, front, now, c);
      forall i | 0 <= i < |front| ensures Untouched(h, TryFire(h, last, now, c), front[i]) {
        assert ids[i] == front[i];
      }
      assert forall id :: id in ids <==> id in front || id == last;
    }
  }

  // ---- Groups -----------------------------------------------------------------------

  /** What is left of a list after its first j groups, and the group that comes next. */
  function Later(due: seq<string>, j: nat, c: Config): seq<string> {
    due[Min(j * c.groupSize, |due|)..]
  }

  function Group(due: seq<string>, j: nat, c: Config): seq<string> {
    var rest := Later(due, j, c);
    rest[..Min(c.groupSize, |rest|)]
  }

  lemma LaterStep(due: seq<string>, j: nat, c: Config)
    ensures Later(due, j, c) == Group(due, j, c) + Later(due, j + 1, c)
  {
    assert (j + 1) * c.groupSize == j * c.groupSize + c.groupSize;
  }

  /** The i-th rack of a list is in group i / group size. */
  lemma InGroup(due: seq<string>, i: nat, c: Config)
    requires c.groupSize > 0 && i < |due|
    ensures due[i] in Group(due, i / c.groupSize, c)
  {
    var j := i / c.groupSize;
    Quotient(i, c.groupSize, j);
    assert (j + 1) * c.groupSize == j * c.groupSize + c.groupSize;
    assert Group(due, j, c)[i - j * c.groupSize] == due[i];
  }

  lemma EarlierGroupIsNotLater(due: seq<string>, j: nat, n: nat, c: Config, id: string)
    requires Distinct(due) && j < n && id in Group(due, j, c)
    ensures id in due && id !in Later(due, n, c)
  {
    Monotone(j + 1, n, c.groupSize);
    assert (j + 1) * c.groupSize == j * c.groupSize + c.groupSize;
    var k :| 0 <= k < |Group(due, j, c)| && Group(due, j, c)[k] == id;
    assert due[j * c.groupSize + k] == id;
    forall m | 0 <= m < |Later(due, n, c)| ensures Later(due, n, c)[m] != id {
      assert Later(due, n, c)[m] == due[n * c.groupSize + m];
    }
  }

  lemma {:induction false} LaterHasGroup(due: seq<string>, n: nat, c: Config, id: string) returns (k: nat)
    requires c.groupSize > 0 && id in Later(due, n, c)
    ensures k >= n && id in Group(due, k, c)
    decreases |Later(due, n, c)|
  {
    LaterStep(due, n, c);
    if id in Group(due, n, c) {
      k := n;
    } else {
      k := LaterHasGroup(due, n + 1, c, id);
    }
  }

  lemma GroupOfLater(due: seq<string>, n: nat, j: nat, c: Config)
    ensures Group(Later(due, n, c), j, c) == Group(due, n + j, c)
  {
    assert (n + j) * c.groupSize == n * c.groupSize + j * c.groupSize;
    assert j * c.groupSize >= 0;
  }

  lemma GroupIsUnique(due: seq<string>, j: nat, k: nat, c: Config, id: string)
    requires Distinct(due) && id in Group(due, j, c) && id in Group(due, k, c)
    ensures j == k
  {
    if j < k {
      EarlierGroupIsNotLater(due, j, k, c, id);
    } else if k < j {
      EarlierGroupIsNotLater(due, k, j, c, id);
    }
  }

  lemma GroupsInDue(due: seq<string>, n: nat, c: Config)
    ensures forall id :: id in Group(due, n, c) ==> id in Later(due, n, c)
    ensures forall id :: id in Later(due, n, c) ==> id in due
    ensures Later(due, 0, c) == due
  {
  }

  // ---- Attempts ---------------------------------------------------------------------

  /** The racks that a step fires, whether they start or are postponed. */
  function AttemptsOf(w: World, s: Step, order: seq<string>, c: Config): seq<string> {
    match s.event
    case CheckEvent =>
      var due := DueList(order, w.fleet, s.now);
      due[..AtOnce(|due|, c)]
    case TimerEvent(k) => if Fires(w, s) then [w.fleet.timers[k].rack] else []
    case _ => []
  }

  function AttemptedIn(w: World, steps: seq<Step>, order: seq<string>, c: Config): set<string>
    requires c.groupSize > 0
  {
    if steps == [] then {}
    else
      var front := steps[..|steps| - 1];
      AttemptedIn(w, front, order, c)
      + AsSet(AttemptsOf(Run(w, front, order, c), steps[|steps| - 1], order, c))
  }

  function AsSet(ids: seq<string>): set<string> {
    set id | id in ids
  }

  /** Anything but messages to the monitors and changes of schedules: runs of the job, timers,
      manual starts, changes of locks and connections. */
  predicate Traffic(s: Step) {
    !s.event.MonitorEvent? && !s.event.ScheduleEvent?
  }

  ghost predicate Orderly(steps: seq<Step>, from: int, to: int) {
    && (forall i :: 0 <= i < |steps| ==> Traffic(steps[i]) && from <= steps[i].now < to)
    && (forall i, j :: 0 <= i <= j < |steps| ==> steps[i].now <= steps[j].now)
  }

  /** A period, no longer than the postponement and than an hour, in which no rack becomes due. */
  ghost predicate Calm(f: Fleet, order: seq<string>, from: int, to: int, c: Config) {
    && c.groupSize > 0 && c.postponeMinutes > 0 && Distinct(order)
    && from < to <= from + Min(c.postponeMinutes * 60, 3600)
    && (forall id :: id in f.schedules ==> f.schedules[id].intervalHours >= 1)
    && (forall id, t :: from <= t < to && IsDue(f, id, t) ==> IsDue(f, id, from))
  }

  /** How the fleet stands since `f`, some racks having been attempted. */
  ghost predicate Since(f: Fleet, g: Fleet, attempted: set<string>, to: int) {
    && g.racks.Keys == f.racks.Keys && g.schedules.Keys == f.schedules.Keys
    && (forall id :: id in f.racks ==> g.racks[id].maintenance == f.racks[id].maintenance)
    && (forall id :: id in f.schedules ==>
          && g.schedules[id].enabled == f.schedules[id].enabled
          && g.schedules[id].intervalHours == f.schedules[id].intervalHours
          && (id !in attempted ==> g.schedules[id] == f.schedules[id])
          && (id in attempted && id in f.racks ==> g.schedules[id].nextScanAt >= to))
  }

  lemma TryFireTouches(g: Fleet, id: string, now: int, c: Config)
    ensures var h := TryFire(g, id, now, c);
      && h.racks.Keys == g.racks.Keys && h.schedules.Keys == g.schedules.Keys
      && (forall x :: x in g.racks ==> h.racks[x].maintenance == g.racks[x].maintenance)
      && (forall x :: x in g.schedules && x != id ==> h.schedules[x] == g.schedules[x])
      && (id in g.schedules ==>
            && h.schedules[id].enabled == g.schedules[id].enabled
            && h.schedules[id].intervalHours == g.schedules[id].intervalHours
            && (id in g.racks && g.schedules[id].intervalHours >= 1 ==>
                  h.schedules[id].nextScanAt >= now + Min(c.postponeMinutes * 60, 3600)))
  {
  }

  lemma OneFiring(f: Fleet, g: Fleet, attempted: set<string>, id: string, now: int, to: int, c: Config)
    requires Since(f, g, attempted, to) && to <= now + Min(c.postponeMinutes * 60, 3600)
    requires forall x :: x in f.schedules ==> f.schedules[x].intervalHours >= 1
    ensures Since(f, TryFire(g, id, now, c), attempted + {id}, to)
  {
    hide TryFire;
    TryFireTouches(g, id, now, c);
  }

  lemma {:induction false} AllFirings(f: Fleet, g: Fleet, attempted: set<string>, ids: seq<string>, now: int, to: int,
    c: Config)
    requires Since(f, g, attempted, to) && to <= now + Min(c.postponeMinutes * 60, 3600)
    requires forall x :: x in f.schedules ==> f.schedules[x].intervalHours >= 1
    ensures Since(f, FireAll(g, ids, now, c), attempted + AsSet(ids), to)
  {
    hide Since, TryFire;
    if ids == [] {
      assert attempted + AsSet(ids) == attempted;
    } else {
      var front, last := ids[..|ids| - 1], ids[|ids| - 1];
      AllFirings(f, g, attempted, front, now, to, c);
      OneFiring(f, FireAll(g, front, now, c), attempted + AsSet(front), last, now, to, c);
      assert attempted + AsSet(ids) == attempted + AsSet(front) + {last};
    }
  }

  lemma SinceWhateverTimers(f: Fleet, g: Fleet, h: Fleet, attempted: set<string>, to: int)
    requires Since(f, g, attempted, to) && h == g.(timers := h.timers)
    ensures Since(f, h, attempted, to)
  {
  }

  lemma StepSince(f: Fleet, w: World, attempted: set<string>, s: Step, order: seq<string>, from: int, to: int,
    c: Config)
    requires Calm(f, order, from, to, c) && Traffic(s) && from <= s.now
    requires Since(f, w.fleet, attempted, to)
    ensures Since(f, Do(w, s, order, c).fleet, attempted + AsSet(AttemptsOf(w, s, order, c)), to)
  {
    hide DueList, FireAll, TryFire, IsDue;
    var g, now := w.fleet, s.now;
    var attempts := AsSet(AttemptsOf(w, s, order, c));
    if s.event.CheckEvent? {
      var ids := AttemptsOf(w, s, order, c);
      AllFirings(f, g, attempted, ids, now, to, c);
      SinceWhateverTimers(f, FireAll(g, ids, now, c), Do(w, s, order, c).fleet, attempted + attempts, to);
    } else if Fires(w, s) {
      var rack := g.timers[s.event.timer].rack;
      var h := g.(timers := Without(g.timers, s.event.timer));
      SinceWhateverTimers(f, g, h, attempted, to);
      OneFiring(f, h, attempted, rack, now, to, c);
      assert attempts == {rack};
    } else {
      assert attempted + attempts == attempted;
    }
  }

  lemma {:induction false} RunSince(w: World, steps: seq<Step>, order: seq<string>, from: int, to: int, c: Config)
    requires Calm(w.fleet, order, from, to, c) && Orderly(steps, from, to)
    ensures Since(w.fleet, Run(w, steps, order, c).fleet, AttemptedIn(w, steps, order, c), to)
  {
    hide Calm, Do, Traffic, AttemptsOf;
    assert c.groupSize > 0 by { CalmConfig(w.fleet, order, from, to, c); }
    if steps == [] {
      assert Since(w.fleet, w.fleet, {}, to);
    } else {
      hide Since;
      var front, last := steps[..|steps| - 1], steps[|steps| - 1];
      OrderlyFront(steps, from, to);
      RunSince(w, front, order, from, to, c);
      StepSince(w.fleet, Run(w, front, order, c), AttemptedIn(w, front, order, c), last, order, from, to, c);
    }
  }

  lemma CalmConfig(f: Fleet, order: seq<string>, from: int, to: int, c: Config)
    requires Calm(f, order, from, to, c)
    ensures c.groupSize > 0 && Distinct(order) && from < to
  {
  }

  lemma OrderlyFront(steps: seq<Step>, from: int, to: int)
    requires Orderly(steps, from, to) && steps != []
    ensures var front, last := steps[..|steps| - 1], steps[|steps| - 1];
      && Orderly(front, from, to) && Traffic(last) && from <= last.now < to
      && (front != [] ==> front[|front| - 1].now <= last.now)
  {
    var front := steps[..|steps| - 1];
    assert forall i :: 0 <= i < |front| ==> front[i] == steps[i];
  }

  // ---- What is due ------------------------------------------------------------------

  /** A list without some racks. */
  function Remaining(due: seq<string>, gone: set<string>): seq<string> {
    if due == [] then []
    else (if due[0] in gone then [] else [due[0]]) + Remaining(due[1..], gone)
  }

  lemma {:induction false} RemainingHolds(due: seq<string>, gone: set<string>, id: string)
    ensures id in Remaining(due, gone) <==> id in due && id !in gone
  {
    if due != [] {
      RemainingHolds(due[1..], gone, id);
    }
  }

  lemma {:induction false} RemainingConcat(a: seq<string>, b: seq<string>, gone: set<string>)
    ensures Remaining(a + b, gone) == Remaining(a, gone) + Remaining(b, gone)
  {
    if a == [] {
      assert a + b == b;
    } else {
      assert (a + b)[1..] == a[1..] + b;
      RemainingConcat(a[1..], b, gone);
    }
  }

  lemma {:induction false} RemainingSame(due: seq<string>, gone: set<string>, lost: set<string>)
    requires forall id :: id in due ==> (id in gone <==> id in lost)
    ensures Remaining(due, gone) == Remaining(due, lost)
  {
    if due != [] {
      RemainingSame(due[1..], gone, lost);
    }
  }

  lemma {:induction false} RemainingNone(due: seq<string>, gone: set<string>)
    ensures (forall id :: id in due ==> id in gone) ==> Remaining(due, gone) == []
    ensures (forall id :: id in due ==> id !in gone) ==> Remaining(due, gone) == due
  {
    if due != [] {
      RemainingNone(due[1..], gone);
    }
  }

  lemma {:induction false} DueIsRemaining(order: seq<string>, f: Fleet, from: int, g: Fleet, t: int, gone: set<string>)
    requires forall id :: id in order ==> (IsDue(g, id, t) <==> IsDue(f, id, from) && id !in gone)
    ensures DueList(order, g, t) == Remaining(DueList(order, f, from), gone)
  {
    hide IsDue;
    if order != [] {
      assert order[0] in order && forall id :: id in order[1..] ==> id in order;
      DueIsRemaining(order[1..], f, from, g, t, gone);
      var list, rest := DueList(order, f, from), DueList(order[1..], f, from);
      assert IsDue(g, order[0], t) <==> IsDue(f, order[0], from) && order[0] !in gone;
      if IsDue(f, order[0], from) {
        assert list == [order[0]] + rest && list[1..] == rest;
      } else {
        assert list == rest;
      }
    }
  }

  /** Whatever steps come in the period, in whatever order: due are, at any time, just those racks of
      the list that no run of the job and no timer has attempted yet. */
  lemma DueAreTheUnattempted(w: World, steps: seq<Step>, order: seq<string>, from: int, to: int, c: Config, t: int)
    requires Calm(w.fleet, order, from, to, c) && Orderly(steps, from, to) && from <= t < to
    ensures DueList(order, Run(w, steps, order, c).fleet, t)
      == Remaining(DueList(order, w.fleet, from), AttemptedIn(w, steps, order, c))
  {
    RunSince(w, steps, order, from, to, c);
    hide Orderly, DueList, AttemptedIn, Run, Calm, Since, IsDue;
    CalmConfig(w.fleet, order, from, to, c);
    var g, gone := Run(w, steps, order, c).fleet, AttemptedIn(w, steps, order, c);
    forall id | id in order ensures IsDue(g, id, t) <==> IsDue(w.fleet, id, from) && id !in gone {
      DueIff(w.fleet, g, gone, id, order, from, to, c, t);
    }
    DueIsRemaining(order, w.fleet, from, g, t, gone);
  }

  lemma DueIff(f: Fleet, g: Fleet, gone: set<string>, id: string, order: seq<string>, from: int, to: int, c: Config,
    t: int)
    requires Calm(f, order, from, to, c) && Since(f, g, gone, to) && from <= t < to
    ensures IsDue(g, id, t) <==> IsDue(f, id, from) && id !in gone
  {
    assert IsDue(f, id, t) <==> IsDue(f, id, from);
  }

  // ---- Runs that take their groups in turn ------------------------------------------

  function ChecksIn(steps: seq<Step>): nat {
    if steps == [] then 0
    else ChecksIn(steps[..|steps| - 1]) + if steps[|steps| - 1].event.CheckEvent? then 1 else 0
  }

  /** The racks whose timers have fired. */
  function TimersFired(w: World, steps: seq<Step>, order: seq<string>, c: Config): set<string>
    requires c.groupSize > 0
  {
    if steps == [] then {}
    else
      var front, last := steps[..|steps| - 1], steps[|steps| - 1];
      var u := Run(w, front, order, c);
      TimersFired(w, front, order, c) + if Fires(u, last) then {u.fleet.timers[last.event.timer].rack} else {}
  }

  /** The j-th run of the job attempts the j-th group, for every j. */
  predicate InTurn(w: World, steps: seq<Step>, due: seq<string>, order: seq<string>, c: Config)
    requires c.groupSize > 0
  {
    if steps == [] then true
    else
      var front, last := steps[..|steps| - 1], steps[|steps| - 1];
      && InTurn(w, front, due, order, c)
      && (last.event.CheckEvent? ==>
            AttemptsOf(Run(w, front, order, c), last, order, c) == Group(due, ChecksIn(front), c))
  }

  /** No rack's timer fires before the run of its group. */
  predicate NoTimerAhead(w: World, steps: seq<Step>, due: seq<string>, order: seq<string>, c: Config)
    requires c.groupSize > 0
  {
    if steps == [] then true
    else
      var front, last := steps[..|steps| - 1], steps[|steps| - 1];
      && NoTimerAhead(w, front, due, order, c)
      && (last.event.CheckEvent? ==>
            forall id :: id in Group(due, ChecksIn(front), c) ==> id !in TimersFired(w, front, order, c))
  }

  /** The racks of the first n groups. */
  function Taken(due: seq<string>, n: nat, c: Config): seq<string> {
    due[..Min(n * c.groupSize, |due|)]
  }

  lemma TakenStep(due: seq<string>, n: nat, c: Config)
    ensures Taken(due, n + 1, c) == Taken(due, n, c) + Group(due, n, c)
    ensures due == Taken(due, n, c) + Later(due, n, c)
  {
    assert (n + 1) * c.groupSize == n * c.groupSize + c.groupSize;
  }

  lemma {:induction false} AttemptedWhileInTurn(w: World, steps: seq<Step>, due: seq<string>, order: seq<string>,
    c: Config,
    id: string)
    requires c.groupSize > 0 && InTurn(w, steps, due, order, c)
    ensures id in AttemptedIn(w, steps, order, c) <==>
      id in Taken(due, ChecksIn(steps), c) || id in TimersFired(w, steps, order, c)
  {
    hide DueList, Do, Taken, Group, AtOnce;
    if steps == [] {
      assert id !in Taken(due, 0, c) by { NoneTaken(due, c); }
    } else {
      var front := steps[..|steps| - 1];
      AttemptedWhileInTurn(w, front, due, order, c, id);
      TakenStep(due, ChecksIn(front), c);
    }
  }

  lemma NoneTaken(due: seq<string>, c: Config)
    ensures Taken(due, 0, c) == []
  {
  }

  /** While runs take their groups in turn, the racks left are those of the later groups whose
      timers have not fired. */
  lemma DueWhileInTurn(w: World, steps: seq<Step>, order: seq<string>, from: int, to: int, c: Config, t: int)
    requires Calm(w.fleet, order, from, to, c) && Orderly(steps, from, to) && from <= t < to
    requires InTurn(w, steps, DueList(order, w.fleet, from), order, c)
    ensures var due := DueList(order, w.fleet, from);
      DueList(order, Run(w, steps, order, c).fleet, t)
        == Remaining(Later(due, ChecksIn(steps), c), TimersFired(w, steps, order, c))
  {
    CalmConfig(w.fleet, order, from, to, c);
    var due, n := DueList(order, w.fleet, from), ChecksIn(steps);
    var attempted, fired := AttemptedIn(w, steps, order, c), TimersFired(w, steps, order, c);
    DueAreTheUnattempted(w, steps, order, from, to, c, t);
    DueRacks(order, w.fleet, from);
    hide Calm, Orderly, DueList, InTurn, AttemptedIn, TimersFired, ChecksIn, Run;
    forall id ensures id in attempted <==> id in Taken(due, n, c) || id in fired {
      AttemptedWhileInTurn(w, steps, due, order, c, id);
    }
    TakenStep(due, n, c);
    RemainingConcat(Taken(due, n, c), Later(due, n, c), attempted);
    RemainingNone(Taken(due, n, c), attempted);
    TakenIsNotLater(due, n, c);
    RemainingSame(Later(due, n, c), attempted, fired);
  }

  lemma TakenIsNotLater(due: seq<string>, n: nat, c: Config)
    requires Distinct(due)
    ensures forall id :: id in Later(due, n, c) ==> id !in Taken(due, n, c)
  {
  }

  lemma DueRacks(order: seq<string>, f: Fleet, now: int)
    requires Distinct(order)
    ensures Distinct(DueList(order, f, now))
    ensures forall id :: id in DueList(order, f, now) ==> id in f.racks && id in f.schedules && id in order
  {
    forall id | id in DueList(order, f, now) ensures id in f.racks && id in f.schedules && id in order {
      DueListIs(order, f, now, id);
    }
    if order != [] {
      assert Distinct(order[1..]);
      DueRacks(order[1..], f, now);
      DueListIs(order[1..], f, now, order[0]);
    }
  }

  /** The first few racks of what is left are those of the whole list iff none of them is gone. */
  lemma FirstOfRemaining(rest: seq<string>, gone: set<string>, size: nat)
    ensures var left := Remaining(rest, gone);
      var group := rest[..Min(size, |rest|)];
      left[..Min(size, |left|)] == group <==> forall id :: id in group ==> id !in gone
  {
    var n := Min(size, |rest|);
    var group, others := rest[..n], rest[n..];
    var left := Remaining(rest, gone);
    assert rest == group + others;
    RemainingConcat(group, others, gone);
    RemainingNone(group, gone);
    if forall id :: id in group ==> id !in gone {
      if |rest| <= size {
        assert others == [];
        assert left == group;
      } else {
        assert left == group + Remaining(others, gone);
      }
    } else {
      var id :| id in group && id in gone;
      RemainingHolds(rest, gone, id);
      assert id !in left[..Min(size, |left|)];
    }
  }

  /** In the race of the job's runs against the timers, with locks and connections changing and
      manual starts coming in between: each run attempts just the group of its number iff no
      timer of a rack fires before the run of that rack's group. */
  lemma {:induction false} GroupsStartInTurnIff(w: World, steps: seq<Step>, order: seq<string>, from: int, to: int,
    c: Config)
    requires Calm(w.fleet, order, from, to, c) && Orderly(steps, from, to) && c.delayMinutes > 0
    ensures var due := DueList(order, w.fleet, from);
      InTurn(w, steps, due, order, c) <==> NoTimerAhead(w, steps, due, order, c)
  {
    CalmConfig(w.fleet, order, from, to, c);
    hide Calm, DueList, Do, Traffic;
    if steps != [] {
      var front, last := steps[..|steps| - 1], steps[|steps| - 1];
      OrderlyFront(steps, from, to);
      hide Orderly;
      GroupsStartInTurnIff(w, front, order, from, to, c);
      var due := DueList(order, w.fleet, from);
      if last.event.CheckEvent? && InTurn(w, front, due, order, c) {
        DueWhileInTurn(w, front, order, from, to, c, last.now);
        hide InTurn, NoTimerAhead;
        FirstOfRemaining(Later(due, ChecksIn(front), c), TimersFired(w, front, order, c), c.groupSize);
      }
    }
  }
}
