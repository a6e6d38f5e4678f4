/** When a reported position misses its target, in inequalities; and which command a recovery sends
    again, over runs. */
module Tolerance {
  import opened Prelude
  import opened Recovery

  /** A coordinate lies outside the tolerance; one that no command gave never does, for a tolerance
      that is not negative. */
  predicate Outside(actual: real, target: Option<real>, tolerance: real) {
    match target
    case None => tolerance < 0.0
    case Some(x) => actual < x - tolerance || actual > x + tolerance
  }

  /** After a target has been stored outside a recovery, an M114 sends "!" and then G28 iff the target
      has a coordinate, and one of the two lies outside its tolerance. The target is used up then,
      and recovery is over at once if all axes are homed; otherwise everything stays as it was. */
  lemma MissedIff(m: Monitor, x: Option<real>, y: Option<real>, r: Reading, stale: bool, lockValid: bool)
    requires !m.recovery.inRecovery
    ensures var end := OnM114(SetTarget(m, Target(x, y)), r, stale, lockValid);
      var missed := (x.Some? || y.Some?) && (Outside(r.x, x, r.tolX) || Outside(r.y, y, r.tolY));
      && m.log <= end.log
      && (Stop in end.log[|m.log|..] <==> missed) && (Home in end.log[|m.log|..] <==> missed)
      && (missed ==>
            && m.log + [Stop, Home] <= end.log && end.target.None?
            && end.recovery == RecoveryState(!(r.homedX && r.homedY && r.homedC), m.recovery.attempt + 1, None))
      && (!missed ==>
            && end.recovery == m.recovery
            && end.target == if x.None? && y.None? then None else Some(Target(x, y)))
  {
    hide Breaches, Outside, Reading.AllHomed;
    BreachesOutside(r, Target(x, y));
    AfterM114(SetTarget(m, Target(x, y)), r, stale, lockValid);
    assert r.AllHomed() <==> r.homedX && r.homedY && r.homedC by { AxesAre(r); }
  }

  lemma BreachesOutside(r: Reading, t: Target)
    ensures Breaches(r, t) <==> Outside(r.x, t.x, r.tolX) || Outside(r.y, t.y, r.tolY)
  {
  }

  lemma AxesAre(r: Reading)
    ensures r.AllHomed() <==> r.homedX && r.homedY && r.homedC
  {
  }

  /** Outside a recovery, by what the M114 does. */
  lemma AfterM114(m: Monitor, r: Reading, stale: bool, lockValid: bool)
    requires !m.recovery.inRecovery
    ensures var end := OnM114(m, r, stale, lockValid);
      var missed := m.target.Some? && Breaches(r, m.target.value);
      && m.log <= end.log
      && (Stop in end.log[|m.log|..] <==> missed) && (Home in end.log[|m.log|..] <==> missed)
      && (missed ==>
            && m.log + [Stop, Home] <= end.log && end.target.None?
            && end.recovery == RecoveryState(!r.AllHomed(), m.recovery.attempt + 1, None))
      && (!missed ==> end.recovery == m.recovery && end.target == m.target)
  {
    var e := M114(r, stale, lockValid);
    assert Do(m, e) == OnM114(m, r, stale, lockValid);
    RecoveryAfterM114(m, r, stale, lockValid);
    StopIsSent(m, r, stale, lockValid);
    hide Breaches, Reading.AllHomed, OnM114, Do, Sent;
    SendsExactly(m, e);
    assert Do(m, e).log[|m.log|..] == Sent(m, e);
  }

  lemma StopIsSent(m: Monitor, r: Reading, stale: bool, lockValid: bool)
    requires !m.recovery.inRecovery
    ensures var sent := Sent(m, M114(r, stale, lockValid));
      var missed := m.target.Some? && Breaches(r, m.target.value);
      && (Stop in sent <==> missed) && (Home in sent <==> missed) && (missed ==> [Stop, Home] <= sent)
  {
    hide Breaches, Reading.AllHomed;
  }

  lemma RecoveryAfterM114(m: Monitor, r: Reading, stale: bool, lockValid: bool)
    requires !m.recovery.inRecovery
    ensures var end := OnM114(m, r, stale, lockValid);
      if m.target.Some? && Breaches(r, m.target.value)
      then end.target.None? && end.recovery == RecoveryState(!r.AllHomed(), m.recovery.attempt + 1, None)
      else end.recovery == m.recovery && end.target == m.target
  {
    hide Breaches, Reading.AllHomed;
  }

  /** With tolerances that are not negative: a position exactly at the tolerance is no miss, neither is
      any position for a coordinate without target. */
  lemma AtToleranceIsNoMiss(m: Monitor, x: Option<real>, y: Option<real>, r: Reading, stale: bool, lockValid: bool)
    requires !m.recovery.inRecovery && r.tolX >= 0.0 && r.tolY >= 0.0
    requires x.Some? ==> r.x == x.value + r.tolX || r.x == x.value - r.tolX
    requires y.Some? ==> r.y == y.value + r.tolY || r.y == y.value - r.tolY
    ensures var end := OnM114(SetTarget(m, Target(x, y)), r, stale, lockValid);
      end.recovery == m.recovery && m.log <= end.log && Stop !in end.log[|m.log|..]
  {
    MissedIff(m, x, y, r, stale, lockValid);
  }

  /** One coordinate is enough, whatever the other does. */
  lemma OneAxisIsEnough(m: Monitor, x: real, y: Option<real>, r: Reading, stale: bool, lockValid: bool)
    requires !m.recovery.inRecovery && (r.x < x - r.tolX || r.x > x + r.tolX)
    ensures var end := OnM114(SetTarget(m, Target(Some(x), y)), r, stale, lockValid);
      m.log + [Stop, Home] <= end.log && end.recovery.attempt == m.recovery.attempt + 1
  {
    MissedIff(m, Some(x), y, r, stale, lockValid);
  }

  // ---- Which command goes out again -------------------------------------------------

  /** An M114 that finds all three axes homed. */
  predicate Homed(e: Event) {
    e.M114? && e.reading.homedX && e.reading.homedY && e.reading.homedC
  }

  lemma {:induction false} RecoveryStaysOn(before: seq<Event>, between: seq<Event>)
    requires Run(before).recovery.inRecovery
    requires forall i :: 0 <= i < |between| ==> !Homed(between[i])
    ensures Run(before + between).recovery == Run(before).recovery
  {
    if between == [] {
      assert before + between == before;
    } else {
      var front := between[..|between| - 1];
      RecoveryStaysOn(before, front);
      assert (before + between)[..|before + between| - 1] == before + front;
    }
  }

  /** A recovery that begins for a command ends with the first M114 that finds all axes homed, whatever
      comes before it: other triggers, targets, reconnections, positions missed. That M114 sends the
      command again iff there is one and the rack's lock still holds. */
  lemma OriginalIsRetriedIff(before: seq<Event>, original: Option<string>, between: seq<Event>, homed: Event)
    requires !Run(before).recovery.inRecovery
    requires forall i :: 0 <= i < |between| ==> !Homed(between[i])
    requires Homed(homed)
    ensures var m := Run(before + [Trigger(original)] + between);
      var end := Run(before + [Trigger(original)] + between + [homed]);
      && m.recovery.inRecovery && !end.recovery.inRecovery && m.log <= end.log
      && forall c :: Retried(c) in end.log[|m.log|..] <==> original == Some(c) && c != "" && homed.lockValid
  {
    var started := before + [Trigger(original)];
    assert started[..|started| - 1] == before;
    RecoveryStaysOn(started, between);
    var waiting := started + between;
    assert (waiting + [homed])[..|waiting|] == waiting;
    var m := Run(waiting);
    assert Run(waiting + [homed]) == Do(m, homed);
    assert m.recovery.inRecovery && m.recovery.original == original;
    HomedEndsIt(m, homed);
    hide Run, Do, Sent;
    SendsExactly(m, homed);
    assert Do(m, homed).log[|m.log|..] == Sent(m, homed);
  }

  lemma HomedEndsIt(m: Monitor, homed: Event)
    requires m.recovery.inRecovery && Homed(homed)
    ensures !Do(m, homed).recovery.inRecovery
    ensures forall c ::
      Retried(c) in Sent(m, homed) <==> m.recovery.original == Some(c) && c != "" && homed.lockValid
  {
    hide Breaches;
  }
}
