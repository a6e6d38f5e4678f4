/** The auto-scan scheduler as a function of the fleet's state: which racks are due, which start at
    once and which get a timer, and what firing one does. */
module Scheduling {
  import opened Prelude
  import opened RackProtocol

  /** SCAN_POSTPONE_MINUTES, SCAN_STAGGER_GROUP_SIZE, SCAN_STAGGER_DELAY_MINUTES. */
  datatype Config = Config(postponeMinutes: nat, groupSize: nat, delayMinutes: nat, timeouts: Timeouts)

  datatype Schedule = Schedule(enabled: bool, nextScanAt: int, intervalHours: int)

  datatype RackInfo = RackInfo(lock: Row, scanState: string, maintenance: bool, gridRows: int, gridCols: int)

  datatype ScanSession = ScanSession(rack: string, status: string, startedAt: int, cellsTotal: int)

  datatype ScanStart = ScanStart(rack: string, session: nat, gridRows: int, gridCols: int)

  datatype Timer = Timer(at: int, rack: string)

  datatype Fleet = Fleet(
    racks: map<string, RackInfo>, schedules: map<string, Schedule>, online: set<string>,
    sessions: seq<ScanSession>, active: map<string, nat>, published: seq<ScanStart>, timers: seq<Timer>)

  const SCAN_USER := "_scan_engine"

  function Postpone(f: Fleet, id: string, now: int, c: Config): Fleet {
    if id !in f.schedules then f
    else f.(schedules := f.schedules[id := f.schedules[id].(nextScanAt := now + c.postponeMinutes * 60)])
  }

  /** A scan lock, a session, and the start message. */
  function Begin(f: Fleet, id: string, user: string, now: int, c: Config): Fleet
    requires id in f.racks
  {
    var rack := f.racks[id];
    var session := |f.sessions|;
    f.(racks := f.racks[id := rack.(lock := LockedRow(user, Scan, now, c.timeouts), scanState := "running")],
       sessions := f.sessions + [ScanSession(id, "running", now, rack.gridRows * rack.gridCols)],
       active := f.active[id := session],
       published := f.published + [ScanStart(id, session, rack.gridRows, rack.gridCols)])
  }

  function Reschedule(f: Fleet, id: string, now: int): Fleet {
    if id !in f.schedules then f
    else
      var s := f.schedules[id];
      f.(schedules := f.schedules[id := s.(nextScanAt := now + s.intervalHours * 3600)])
  }

  /** The two gates, then fire or postpone. */
  function TryFire(f: Fleet, id: string, now: int, c: Config): Fleet {
    if id !in f.online then Postpone(f, id, now, c)
    else if id !in f.racks then f
    else if Blocks(f.racks[id].lock, now) then Postpone(f, id, now, c)
    else Begin(Reschedule(f, id, now), id, SCAN_USER, now, c)
  }

  function FireAll(f: Fleet, ids: seq<string>, now: int, c: Config): Fleet {
    if ids == [] then f
    else TryFire(FireAll(f, ids[..|ids| - 1], now, c), ids[|ids| - 1], now, c)
  }

  predicate IsDue(f: Fleet, id: string, now: int) {
    && id in f.schedules && f.schedules[id].enabled && f.schedules[id].nextScanAt <= now
    && id in f.racks && !f.racks[id].maintenance
  }

  /** The rows of the due query, in the order of the table. */
  function DueList(order: seq<string>, f: Fleet, now: int): seq<string> {
    if order == [] then []
    else (if IsDue(f, order[0], now) then [order[0]] else []) + DueList(order[1..], f, now)
  }

  /** The delay of the i-th due rack, in minutes. */
  function Delay(i: nat, c: Config): nat
    requires c.groupSize > 0
  {
    (i / c.groupSize) * c.delayMinutes
  }

  /** How many of n due racks start at once. */
  function AtOnce(n: nat, c: Config): nat {
    if c.delayMinutes == 0 then n else Min(n, c.groupSize)
  }

  function TimersFor(due: seq<string>, now: int, c: Config): (t: seq<Timer>)
    requires c.groupSize > 0
    ensures |t| == |due| - AtOnce(|due|, c)
    ensures forall k :: 0 <= k < |t| ==>
      var i := AtOnce(|due|, c) + k; t[k] == Timer(now + Delay(i, c) * 60, due[i])
  {
    var n := AtOnce(|due|, c);
    seq(|due| - n, k requires 0 <= k < |due| - n => Timer(now + Delay(n + k, c) * 60, due[n + k]))
  }

  /** One run of the scheduler's job. */
  function CheckDue(f: Fleet, order: seq<string>, now: int, c: Config): Fleet
    requires c.groupSize > 0
  {
    var due := DueList(order, f, now);
    var fired := FireAll(f, due[..AtOnce(|due|, c)], now, c);
    fired.(timers := fired.timers + TimersFor(due, now, c))
  }

  datatype ManualReply = ManualPublished | ManualQueued | PiOffline | NoRack

  function TriggerManual(f: Fleet, id: string, user: string, now: int, c: Config): (Fleet, ManualReply) {
    if id !in f.online then (f, PiOffline)
    else if id !in f.racks then (f, NoRack)
    else if Blocks(f.racks[id].lock, now) then (f, ManualQueued)
    else (Begin(f, id, user, now, c), ManualPublished)
  }

  // ---- Staggering -------------------------------------------------------------------

  /** The first group starts at once, and with a positive delay no other rack does; so the i-th
      due rack starts after (i / group size) * delay minutes, in groups of at most the group
      size. */
  lemma StaggerPartition(n: nat, i: nat, c: Config)
    requires c.groupSize > 0 && i < n
    ensures Delay(i, c) == 0 <==> i < AtOnce(n, c)
    ensures forall k: nat :: i / c.groupSize == k <==> k * c.groupSize <= i < (k + 1) * c.groupSize
  {
    if c.delayMinutes > 0 {
      Quotient(i, c.groupSize, 0);
      if i / c.groupSize > 0 {
        assert Delay(i, c) >= 1 * c.delayMinutes by { Monotone(1, i / c.groupSize, c.delayMinutes); }
      }
    }
    forall k: nat ensures i / c.groupSize == k <==> k * c.groupSize <= i < (k + 1) * c.groupSize {
      Quotient(i, c.groupSize, k);
    }
  }

  lemma Monotone(a: nat, b: nat, m: nat)
    requires a <= b
    ensures a * m <= b * m
  {
  }

  lemma Quotient(i: nat, g: nat, k: nat)
    requires g > 0
    ensures i / g == k <==> k * g <= i < (k + 1) * g
  {
    var q := i / g;
    assert i == q * g + i % g;
    assert (q + 1) * g == q * g + g && (k + 1) * g == k * g + g;
    if k < q {
      Monotone(k + 1, q, g);
    } else if q < k {
      Monotone(q + 1, k, g);
    }
  }

  // ---- Firing -----------------------------------------------------------------------

  /** A start message goes out iff the rack is online, known, and its lock is free, and then a
      scan lock has been granted; every attempt on a known rack with a schedule leaves the next
      scan in the future; and no other rack is touched. */
  lemma FireOutcome(f: Fleet, id: string, now: int, c: Config)
    requires c.postponeMinutes > 0
    requires id in f.schedules ==> f.schedules[id].intervalHours > 0
    ensures var g := TryFire(f, id, now, c);
      && (g.published != f.published <==> id in f.online && id in f.racks && !Blocks(f.racks[id].lock, now))
      && (g.published != f.published ==>
            && g.racks[id].lock == LockedRow(SCAN_USER, Scan, now, c.timeouts)
            && g.published == f.published + [ScanStart(id, |f.sessions|, f.racks[id].gridRows, f.racks[id].gridCols)]
            && g.active[id] == |f.sessions| && g.sessions[|f.sessions|].rack == id)
      && (id in f.schedules && (id in f.racks || id !in f.online) ==> g.schedules[id].nextScanAt > now)
      && (g.published == f.published ==> g.racks == f.racks && g.sessions == f.sessions)
      && OthersUntouched(f, g, id)
  {
    assert |f.published + [ScanStart(id, 0, 0, 0)]| == |f.published| + 1;
  }

  ghost predicate OthersUntouched(f: Fleet, g: Fleet, id: string) {
    && g.schedules.Keys == f.schedules.Keys && g.racks.Keys == f.racks.Keys && g.online == f.online
    && (forall other :: other in f.schedules && other != id ==> g.schedules[other] == f.schedules[other])
    && (forall other :: other in f.racks && other != id ==> g.racks[other] == f.racks[other])
    && (forall other :: other in f.racks ==> g.racks[other].maintenance == f.racks[other].maintenance)
    && (forall other :: other in f.schedules ==>
          g.schedules[other].enabled == f.schedules[other].enabled
          && g.schedules[other].intervalHours == f.schedules[other].intervalHours)
  }

  lemma {:induction false} DueListIs(order: seq<string>, f: Fleet, now: int, id: string)
    ensures id in DueList(order, f, now) <==> id in order && IsDue(f, id, now)
  {
    if order != [] {
      DueListIs(order[1..], f, now, id);
    }
  }

  /** A manual start that meets a lock in force reports "queued" and leaves no trace. */
  lemma ManualScanIsNotQueued(f: Fleet, id: string, user: string, now: int, c: Config)
    ensures var (g, reply) := TriggerManual(f, id, user, now, c);
      && (reply.ManualQueued? ==> g == f)
      && (reply.ManualPublished? <==> g.published != f.published)
      && (reply.ManualPublished? ==> g.racks[id].lock == LockedRow(user, Scan, now, c.timeouts) && id in f.online)
  {
    assert |f.published + [ScanStart(id, 0, 0, 0)]| == |f.published| + 1;
  }

  /** The gates are open. */
  predicate Startable(f: Fleet, id: string, now: int) {
    id in f.online && id in f.racks && !Blocks(f.racks[id].lock, now)
  }

  /** A gate is shut: the firing postpones. */
  predicate ShutOut(f: Fleet, id: string, now: int) {
    id !in f.online || (id in f.racks && Blocks(f.racks[id].lock, now))
  }

  /** A firing brings the next scan forward iff it postpones to, or starts with an interval that
      ends at, an earlier moment than the one planned. */
  lemma FiringBringsForwardIff(f: Fleet, id: string, now: int, c: Config)
    requires id in f.schedules
    ensures var s := f.schedules[id];
      TryFire(f, id, now, c).schedules[id].nextScanAt < s.nextScanAt <==>
        || (ShutOut(f, id, now) && now + c.postponeMinutes * 60 < s.nextScanAt)
        || (Startable(f, id, now) && now + s.intervalHours * 3600 < s.nextScanAt)
  {
  }

  /** A second firing, in a fleet where anything else may have changed since the first started a
      scan: it shortens the interval iff a gate is shut by then, as it is while the scan's own
      lock runs, and the postponement ends before the interval would. */
  lemma SecondFiringShortensIff(f: Fleet, id: string, now: int, g: Fleet, later: int, c: Config)
    requires Startable(f, id, now) && id in f.schedules && id in g.schedules && now <= later
    requires g.schedules[id] == TryFire(f, id, now, c).schedules[id]
    ensures var interval := f.schedules[id].intervalHours;
      && g.schedules[id].nextScanAt == now + interval * 3600
      && (TryFire(g, id, later, c).schedules[id].nextScanAt < g.schedules[id].nextScanAt <==>
            ShutOut(g, id, later) && later + c.postponeMinutes * 60 < now + interval * 3600)
  {
  }

  /** With nothing changed in between, the scan's own lock shuts the gate while it runs. */
  lemma SecondFiringMeetsOwnLock(f: Fleet, id: string, now: int, later: int, c: Config)
    requires Startable(f, id, now) && id in f.schedules
    requires now <= later < now + 2 * Max(c.timeouts.motion, c.timeouts.capture)
    ensures var once := TryFire(f, id, now, c);
      var twice := TryFire(once, id, later, c);
      && ShutOut(once, id, later)
      && twice.schedules[id].nextScanAt == later + c.postponeMinutes * 60
      && twice.published == once.published
  {
  }

  // ---- Selection over several runs of the job ---------------------------------------

  lemma {:induction false} FireAllTouches(f: Fleet, ids: seq<string>, now: int, c: Config)
    requires c.postponeMinutes > 0
    requires forall i :: 0 <= i < |ids| ==> ids[i] in f.schedules && ids[i] in f.racks
    requires forall i :: 0 <= i < |ids| ==> f.schedules[ids[i]].intervalHours >= 1
    ensures var g := FireAll(f, ids, now, c);
      && g.schedules.Keys == f.schedules.Keys && g.racks.Keys == f.racks.Keys
      && (forall id :: id in f.racks ==> g.racks[id].maintenance == f.racks[id].maintenance)
      && (forall id :: id in f.schedules ==>
            g.schedules[id].enabled == f.schedules[id].enabled
            && g.schedules[id].intervalHours == f.schedules[id].intervalHours)
      && (forall id :: id in f.schedules && id !in ids ==> g.schedules[id] == f.schedules[id])
      && (forall id :: id in ids ==> g.schedules[id].nextScanAt >= now + Min(c.postponeMinutes * 60, 3600))
    decreases |ids|
  {
    if ids != [] {
      var front, last := ids[..|ids| - 1], ids[|ids| - 1];
      FireAllTouches(f, front, now, c);
      FireOutcome(FireAll(f, front, now, c), last, now, c);
      assert forall id :: id in ids <==> id in front || id == last;
    }
  }

  /** If the racks due in `g` are those due in `f` without the first ones, the lists agree. */
  lemma {:induction false} DueListWithout(order: seq<string>, f: Fleet, now: int, g: Fleet, later: int,
    gone: seq<string>)
    requires forall id :: id in order ==> (IsDue(g, id, later) <==> IsDue(f, id, now) && id !in gone)
    requires Distinct(order)
    requires gone <= DueList(order, f, now)
    ensures DueList(order, g, later) == DueList(order, f, now)[|gone|..]
    decreases |order|
  {
    hide IsDue;
    if order != [] {
      var head, tail := order[0], order[1..];
      assert head in order && Distinct(tail);
      DueListIs(tail, f, now, head);
      var rest := DueList(tail, f, now);
      if IsDue(f, head, now) && gone != [] {
        assert gone[0] == head && gone[1..] <= rest;
        assert gone == [head] + gone[1..];
        assert forall id :: id in tail ==> (id in gone <==> id in gone[1..]);
        DueListWithout(tail, f, now, g, later, gone[1..]);
        assert ([head] + rest)[|gone|..] == rest[|gone[1..]|..];
      } else {
        assert gone <= rest;
        DueListWithout(tail, f, now, g, later, gone);
        if IsDue(f, head, now) {
          assert gone == [];
        } else {
          assert !IsDue(g, head, later);
        }
      }
    }
  }

  ghost predicate Distinct(order: seq<string>) {
    forall i, j :: 0 <= i < j < |order| ==> order[i] != order[j]
  }

  /** The racks given a timer are not marked in any way: at the next run of the job they are due
      again, in the same order, without the group that has just been fired. So the next group
      starts then, whatever its timer says. */
  lemma NextCheckSelectsAgain(f: Fleet, order: seq<string>, now: int, later: int, c: Config)
    requires c.groupSize > 0 && c.postponeMinutes > 0
    requires Distinct(order)
    requires forall id :: id in f.schedules ==> f.schedules[id].intervalHours >= 1
    requires now <= later < now + Min(c.postponeMinutes * 60, 3600)
    requires forall id :: id in order && !IsDue(f, id, now) ==> !IsDue(f, id, later)
    ensures var due := DueList(order, f, now);
      DueList(order, CheckDue(f, order, now, c), later) == due[AtOnce(|due|, c)..]
  {
    var due := DueList(order, f, now);
    var gone := due[..AtOnce(|due|, c)];
    var fired := FireAll(f, gone, now, c);
    var g := CheckDue(f, order, now, c);
    forall i | 0 <= i < |gone| ensures gone[i] in f.schedules && gone[i] in f.racks {
      assert gone[i] == due[i];
      DueListIs(order, f, now, gone[i]);
    }
    FireAllTouches(f, gone, now, c);
    forall id | id in order ensures IsDue(g, id, later) <==> IsDue(f, id, now) && id !in gone {
      DueListIs(order, f, now, id);
    }
    DueListWithout(order, f, now, g, later, gone);
  }
}
