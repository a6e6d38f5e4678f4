/** Position recovery for one rack, as a function of the messages that reach the monitor, and
    what it keeps over every run. */
module Recovery {
  import opened Prelude

  /** One parsed M114 line, with the rack's tolerances. */
  datatype Reading = Reading(x: real, y: real, homedX: bool, homedY: bool, homedC: bool, tolX: real, tolY: real) {
    predicate AllHomed() {
      homedX && homedY && homedC
    }
  }

  datatype Target = Target(x: Option<real>, y: Option<real>)

  datatype RecoveryState = RecoveryState(inRecovery: bool, attempt: nat, original: Option<string>)

  const NO_RECOVERY := RecoveryState(false, 0, None)

  /** What is sent out: "!", G28, the retried command; and the maintenance flag. */
  datatype Effect = Stop | Home | Retried(command: string) | Flagged | StaleAlert

  /** `scheduleOff`: the monitor has disabled the rack's scan schedule. */
  datatype Monitor = Monitor(
    recovery: RecoveryState, target: Option<Target>, staleDue: bool, maintenance: bool, scheduleOff: bool,
    log: seq<Effect>)

  const INITIAL := Monitor(NO_RECOVERY, None, false, false, false, [])

  function AbsDiff(a: real, b: real): real {
    if a >= b then a - b else b - a
  }

  function Error(actual: real, target: Option<real>): real {
    if target.None? then 0.0 else AbsDiff(actual, target.value)
  }

  predicate Breaches(r: Reading, t: Target) {
    Error(r.x, t.x) > r.tolX || Error(r.y, t.y) > r.tolY
  }

  function StartRecovery(m: Monitor, original: Option<string>): Monitor {
    if m.recovery.inRecovery then m
    else
      var attempt := m.recovery.attempt + 1;
      m.(recovery := RecoveryState(true, attempt, original),
         maintenance := m.maintenance || attempt >= 2,
         scheduleOff := m.scheduleOff || attempt >= 2,
         log := m.log + [Stop, Home] + if attempt >= 2 then [Flagged] else [])
  }

  function CheckTolerance(m: Monitor, r: Reading): Monitor {
    if m.target.Some? && Breaches(r, m.target.value) then StartRecovery(m.(target := None), None) else m
  }

  function CheckStale(m: Monitor, stale: bool): Monitor {
    m.(staleDue := false, log := m.log + if m.staleDue && stale then [StaleAlert] else [])
  }

  /** After a re-home: recovery is over, and the original command goes out again if there is one
      and the rack's lock still holds. */
  function FollowUp(m: Monitor, r: Reading, lockValid: bool): Monitor {
    if !(m.recovery.inRecovery && r.AllHomed()) then m
    else
      var done := m.(recovery := m.recovery.(inRecovery := false));
      var c := m.recovery.original;
      if c.Some? && c.value != "" && lockValid then done.(log := done.log + [Retried(c.value)]) else done
  }

  /** `on_m114`, in the order of the code: tolerance, stale homing, follow-up. */
  function OnM114(m: Monitor, r: Reading, stale: bool, lockValid: bool): Monitor {
    FollowUp(CheckStale(CheckTolerance(m, r), stale), r, lockValid)
  }

  function SetTarget(m: Monitor, t: Target): Monitor {
    m.(target := if t.x.None? && t.y.None? then None else Some(t))
  }

  datatype Event =
    | M114(reading: Reading, stale: bool, lockValid: bool)
    | Trigger(original: Option<string>)
    | Command(target: Target)
    | Reconnected

  function Do(m: Monitor, e: Event): Monitor {
    match e
    case M114(r, stale, lockValid) => OnM114(m, r, stale, lockValid)
    case Trigger(original) => StartRecovery(m, original)
    case Command(target) => SetTarget(m, target)
    case Reconnected => m.(staleDue := true)
  }

  function Run(events: seq<Event>): Monitor {
    if events == [] then INITIAL else Do(Run(events[..|events| - 1]), events[|events| - 1])
  }

  // ---- Counting ---------------------------------------------------------------------

  function Count(log: seq<Effect>, p: Effect -> bool): nat {
    if log == [] then 0 else Count(log[..|log| - 1], p) + if p(log[|log| - 1]) then 1 else 0
  }

  lemma CountAppend(log: seq<Effect>, e: Effect, p: Effect -> bool)
    ensures Count(log + [e], p) == Count(log, p) + if p(e) then 1 else 0
  {
    assert (log + [e])[..|log|] == log;
  }

  function IsStop(): Effect -> bool { (e: Effect) => e.Stop? }
  function IsHome(): Effect -> bool { (e: Effect) => e.Home? }
  function IsRetry(): Effect -> bool { (e: Effect) => e.Retried? }

  /** The triggers a run accepts, from outside and by tolerance. */
  function Accepted(events: seq<Event>): nat {
    if events == [] then 0
    else
      var front := events[..|events| - 1];
      Accepted(front) + if Accepts(Run(front), events[|events| - 1]) then 1 else 0
  }

  /** An event starts a recovery iff none is on and it is a trigger or a breach of the stored
      target. */
  predicate Accepts(m: Monitor, e: Event) {
    !m.recovery.inRecovery
    && match e
       case Trigger(_) => true
       case M114(r, _, _) => m.target.Some? && Breaches(r, m.target.value)
       case _ => false
  }

  /** Recoveries started by tolerance, and targets stored. */
  function BreachesIn(events: seq<Event>): nat {
    if events == [] then 0
    else
      var front := events[..|events| - 1];
      var e := events[|events| - 1];
      BreachesIn(front) + if e.M114? && Accepts(Run(front), e) then 1 else 0
  }

  function TargetsIn(events: seq<Event>): nat {
    if events == [] then 0
    else
      var e := events[|events| - 1];
      TargetsIn(events[..|events| - 1]) + if e.Command? && SetTarget(INITIAL, e.target).target.Some? then 1 else 0
  }

  // ---- The shape of the log ---------------------------------------------------------

  /** (! G28 [flag] [retry])*, alerts anywhere but between "!" and G28. */
  datatype Place = Quiet | Stopped | Homing | Wrong

  function Next(p: Place, e: Effect): Place {
    match (p, e)
    case (Stopped, Home) => Homing
    case (Stopped, _) => Wrong
    case (Wrong, _) => Wrong
    case (_, Stop) => Stopped
    case (Homing, Flagged) => Homing
    case (Homing, Retried(_)) => Quiet
    case (q, StaleAlert) => q
    case _ => Wrong
  }

  function After(log: seq<Effect>): Place {
    if log == [] then Quiet else Next(After(log[..|log| - 1]), log[|log| - 1])
  }

  lemma AfterAppend(log: seq<Effect>, e: Effect)
    ensures After(log + [e]) == Next(After(log), e)
  {
    assert (log + [e])[..|log|] == log;
  }

  ghost predicate Inv(m: Monitor) {
    && Count(m.log, IsStop()) == m.recovery.attempt
    && Count(m.log, IsHome()) == m.recovery.attempt
    && (m.maintenance <==> m.recovery.attempt >= 2)
    && (m.scheduleOff <==> m.recovery.attempt >= 2)
    && (After(m.log).Quiet? || After(m.log).Homing?)
    && (m.recovery.inRecovery ==> After(m.log).Homing?)
    && Count(m.log, IsRetry()) + (if After(m.log).Homing? then 1 else 0) <= m.recovery.attempt
  }

  lemma LogStep(log: seq<Effect>, e: Effect)
    ensures After(log + [e]) == Next(After(log), e)
    ensures Count(log + [e], IsStop()) == Count(log, IsStop()) + if e.Stop? then 1 else 0
    ensures Count(log + [e], IsHome()) == Count(log, IsHome()) + if e.Home? then 1 else 0
    ensures Count(log + [e], IsRetry()) == Count(log, IsRetry()) + if e.Retried? then 1 else 0
  {
    AfterAppend(log, e);
    CountAppend(log, e, IsStop());
    CountAppend(log, e, IsHome());
    CountAppend(log, e, IsRetry());
  }

  lemma StartKeeps(m: Monitor, original: Option<string>)
    requires Inv(m)
    ensures Inv(StartRecovery(m, original))
    ensures StartRecovery(m, original).recovery.attempt
      == m.recovery.attempt + if m.recovery.inRecovery then 0 else 1
  {
    hide After, Count;
    LogStep(m.log, Stop);
    LogStep(m.log + [Stop], Home);
    LogStep(m.log + [Stop] + [Home], Flagged);
    assert m.log + [Stop, Home] == m.log + [Stop] + [Home];
    assert m.log + [Stop, Home] + [] == m.log + [Stop, Home];
  }

  lemma StaleKeeps(m: Monitor, stale: bool)
    requires Inv(m)
    ensures Inv(CheckStale(m, stale))
  {
    hide After, Count;
    LogStep(m.log, StaleAlert);
    assert m.log + [] == m.log;
  }

  lemma FollowUpKeeps(m: Monitor, r: Reading, lockValid: bool)
    requires Inv(m)
    ensures Inv(FollowUp(m, r, lockValid))
  {
    hide After, Count;
    if m.recovery.original.Some? {
      LogStep(m.log, Retried(m.recovery.original.value));
    }
  }

  lemma StepKeeps(m: Monitor, e: Event)
    requires Inv(m)
    ensures Inv(Do(m, e))
    ensures Do(m, e).recovery.attempt == m.recovery.attempt + if Accepts(m, e) then 1 else 0
  {
    hide Inv;
    match e
    case M114(r, stale, lockValid) =>
      if m.target.Some? && Breaches(r, m.target.value) {
        TargetKeeps(m, None);
        StartKeeps(m.(target := None), None);
      }
      StaleKeeps(CheckTolerance(m, r), stale);
      FollowUpKeeps(CheckStale(CheckTolerance(m, r), stale), r, lockValid);
    case Trigger(original) => StartKeeps(m, original);
    case Command(target) => TargetKeeps(m, SetTarget(m, target).target);
    case Reconnected => assert Inv(m.(staleDue := true)) by { ReconnectKeeps(m); }
  }

  lemma ReconnectKeeps(m: Monitor)
    requires Inv(m)
    ensures Inv(m.(staleDue := true))
  {
  }

  lemma TargetKeeps(m: Monitor, t: Option<Target>)
    requires Inv(m)
    ensures Inv(m.(target := t))
  {
  }

  lemma {:induction false} RunKeeps(events: seq<Event>)
    ensures Inv(Run(events))
    ensures Run(events).recovery.attempt == Accepted(events)
    decreases |events|
  {
    hide Do, Accepts;
    if events == [] {
      assert Inv(INITIAL) by { hide Do; }
    } else {
      RunKeeps(events[..|events| - 1]);
      StepKeeps(Run(events[..|events| - 1]), events[|events| - 1]);
    }
  }

  // ---- Main results -----------------------------------------------------------------

  /** Over every run: each accepted trigger sends exactly one "!" and then at once one G28, and
      raises the attempt count by one; the log is (! G28 [flag] [retry])*, so at most one retry
      follows each recovery; and the rack is flagged for maintenance and its schedule disabled
      from the second accepted trigger on, however long after the first. */
  lemma RecoveryAccounts(events: seq<Event>)
    ensures var m := Run(events);
      && Count(m.log, IsStop()) == Accepted(events)
      && Count(m.log, IsHome()) == Accepted(events)
      && Count(m.log, IsRetry()) <= Accepted(events)
      && !After(m.log).Wrong? && !After(m.log).Stopped?
      && (m.maintenance <==> Accepted(events) >= 2)
      && (m.scheduleOff <==> Accepted(events) >= 2)
  {
    RunKeeps(events);
  }

  lemma {:induction false} AcceptedGrows(events: seq<Event>, more: seq<Event>)
    ensures Accepted(events) <= Accepted(events + more)
  {
    if more == [] {
      assert events + more == events;
    } else {
      var front := more[..|more| - 1];
      AcceptedGrows(events, front);
      assert (events + more)[..|events + more| - 1] == events + front;
    }
  }

  /** Maintenance is never lifted by anything the monitor does. */
  lemma MaintenanceIsForever(events: seq<Event>, more: seq<Event>)
    requires Run(events).recovery.attempt >= 2
    ensures Run(events + more).maintenance && Run(events + more).scheduleOff
  {
    RunKeeps(events);
    AcceptedGrows(events, more);
    RunKeeps(events + more);
  }

  /** Each stored target causes at most one recovery. */
  lemma {:induction false} OneRecoveryPerTarget(events: seq<Event>)
    ensures BreachesIn(events) + (if Run(events).target.Some? then 1 else 0) <= TargetsIn(events)
    decreases |events|
  {
    if events != [] {
      OneRecoveryPerTarget(events[..|events| - 1]);
    }
  }

  /** What an event sends, in order. */
  function Sent(m: Monitor, e: Event): seq<Effect> {
    (if !Accepts(m, e) then [] else if m.recovery.attempt >= 1 then [Stop, Home, Flagged] else [Stop, Home])
    + (if e.M114? && m.staleDue && e.stale then [StaleAlert] else [])
    + (if Retries(m, e) then [Retried(m.recovery.original.value)] else [])
  }

  /** A retry needs a recovery that was already on, with a command, all axes homed, and a lock. */
  predicate Retries(m: Monitor, e: Event) {
    && e.M114? && m.recovery.inRecovery && e.reading.AllHomed() && e.lockValid
    && m.recovery.original.Some? && m.recovery.original.value != ""
  }

  /** Recovery goes out iff the event is accepted, so never while one is on; a retry goes out iff
      an all-homed M114 finds a recovery on, with a command, and the lock valid; and nothing
      else is sent. */
  lemma SendsExactly(m: Monitor, e: Event)
    ensures Do(m, e).log == m.log + Sent(m, e)
    ensures m.recovery.inRecovery ==> Stop !in Sent(m, e) && Home !in Sent(m, e)
  {
    hide OnM114, StartRecovery;
    match e
    case M114(r, stale, lockValid) => M114Sends(m, r, stale, lockValid);
    case Trigger(original) => StartSends(m, original);
    case _ => assert m.log + [] == m.log;
  }

  lemma StartSends(m: Monitor, original: Option<string>)
    ensures StartRecovery(m, original).log == m.log +
      if m.recovery.inRecovery then [] else if m.recovery.attempt >= 1 then [Stop, Home, Flagged] else [Stop, Home]
  {
    assert m.log + [] == m.log;
    assert m.log + [Stop, Home] + [Flagged] == m.log + [Stop, Home, Flagged];
    assert m.log + [Stop, Home] + [] == m.log + [Stop, Home];
  }

  lemma M114Sends(m: Monitor, r: Reading, stale: bool, lockValid: bool)
    ensures OnM114(m, r, stale, lockValid).log == m.log + Sent(m, M114(r, stale, lockValid))
  {
    hide StartRecovery, Breaches;
    var e := M114(r, stale, lockValid);
    var m1 := CheckTolerance(m, r);
    var m2 := CheckStale(m1, stale);
    StartSends(m.(target := None), None);
    StartRecoveryKeepsRest(m.(target := None), None);
    var recovery :=
      if !Accepts(m, e) then [] else if m.recovery.attempt >= 1 then [Stop, Home, Flagged] else [Stop, Home];
    var alert := if m.staleDue && stale then [StaleAlert] else [];
    var retry := if Retries(m, e) then [Retried(m.recovery.original.value)] else [];
    assert m1.log == m.log + recovery;
    assert m2.log == m1.log + alert;
    FollowUpSends(m2, r, lockValid);
    assert FollowUp(m2, r, lockValid).log == m2.log + retry;
  }

  /** A recovery that starts has no command to retry yet. */
  lemma StartRecoveryKeepsRest(m: Monitor, original: Option<string>)
    ensures var n := StartRecovery(m, original);
      && n.staleDue == m.staleDue
      && (m.recovery.inRecovery ==> n == m)
      && (!m.recovery.inRecovery ==> n.recovery == RecoveryState(true, m.recovery.attempt + 1, original))
  {
  }

  lemma FollowUpSends(m: Monitor, r: Reading, lockValid: bool)
    ensures var c := m.recovery.original;
      FollowUp(m, r, lockValid).log == m.log +
        if m.recovery.inRecovery && r.AllHomed() && c.Some? && c.value != "" && lockValid
        then [Retried(c.value)]
        else []
  {
    assert m.log + [] == m.log;
  }

  /** A breach clears its own recovery: if the M114 that breaches the tolerance reports all axes
      homed, recovery has begun and ended when the call returns, with nothing to retry;
      otherwise it stays on. */
  lemma BreachEndsItsRecovery(m: Monitor, r: Reading, stale: bool, lockValid: bool)
    requires Accepts(m, M114(r, stale, lockValid))
    ensures var after := OnM114(m, r, stale, lockValid);
      && after.recovery.attempt == m.recovery.attempt + 1
      && (after.recovery.inRecovery <==> !r.AllHomed())
      && forall c :: Retried(c) !in after.log[|m.log|..]
  {
    SendsExactly(m, M114(r, stale, lockValid));
  }

  /** So the guard against overlapping recoveries does not hold off a second breach: two targets
      missed with all axes homed, no re-home in between, flag the rack. */
  lemma TwoMissesFlagRack(m: Monitor, t1: Target, r1: Reading, t2: Target, r2: Reading)
    requires !m.recovery.inRecovery && r1.AllHomed()
    requires (t1.x.Some? || t1.y.Some?) && (t2.x.Some? || t2.y.Some?)
    requires Breaches(r1, t1) && Breaches(r2, t2)
    ensures var a := OnM114(SetTarget(m, t1), r1, false, false);
      var b := OnM114(SetTarget(a, t2), r2, false, false);
      b.maintenance && b.recovery.attempt == m.recovery.attempt + 2
  {
    var a := OnM114(SetTarget(m, t1), r1, false, false);
    BreachEndsItsRecovery(SetTarget(m, t1), r1, false, false);
    BreachEndsItsRecovery(SetTarget(a, t2), r2, false, false);
  }
}
