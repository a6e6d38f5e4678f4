/** The position monitor as it runs: per-rack dictionaries updated in place, proved to do to the
    rack at hand what `Recovery` says and nothing to the others. */
module PositionMonitor {
  import opened Prelude
  import opened Recovery

  class Monitors {
    var recovery: map<string, RecoveryState>
    var commandedTargets: map<string, Target>
    var staleCheckDue: map<string, bool>
    var maintenance: set<string>
    /** Racks whose scan schedule has been disabled. */
    var schedulesOff: set<string>
    var logs: map<string, seq<Effect>>

    constructor ()
      ensures forall id :: View(id) == INITIAL
    {
      recovery, commandedTargets, staleCheckDue, maintenance, schedulesOff, logs := map[], map[], map[], {}, {}, map[];
    }

    ghost function View(id: string): Monitor
      reads this
    {
      Monitor(
        if id in recovery then recovery[id] else NO_RECOVERY,
        if id in commandedTargets then Some(commandedTargets[id]) else None,
        id in staleCheckDue && staleCheckDue[id],
        id in maintenance,
        id in schedulesOff,
        Log(id))
    }

    function Log(id: string): seq<Effect>
      reads this
    {
      if id in logs then logs[id] else []
    }

    method Send(id: string, effects: seq<Effect>)
      modifies this`logs
      ensures View(id) == old(View(id)).(log := old(View(id)).log + effects)
      ensures forall other :: other != id ==> View(other) == old(View(other))
    {
      logs := logs[id := Log(id) + effects];
    }

    method SetRecovery(id: string, rec: RecoveryState)
      modifies this`recovery
      ensures View(id) == old(View(id)).(recovery := rec)
      ensures forall other :: other != id ==> View(other) == old(View(other))
    {
      recovery := recovery[id := rec];
    }

    method SetCommandedTarget(id: string, x: Option<real>, y: Option<real>)
      modifies this`commandedTargets
      ensures View(id) == SetTarget(old(View(id)), Target(x, y))
      ensures forall other :: other != id ==> View(other) == old(View(other))
    {
      if x.None? && y.None? {
        commandedTargets := commandedTargets - {id};
      } else {
        commandedTargets := commandedTargets[id := Target(x, y)];
      }
    }

    method MarkStaleCheckDue(id: string)
      modifies this`staleCheckDue
      ensures View(id) == Do(old(View(id)), Reconnected)
      ensures forall other :: other != id ==> View(other) == old(View(other))
    {
      staleCheckDue := staleCheckDue[id := true];
    }

    /** `trigger_recovery` and `_start_recovery`. */
    method StartRecovery(id: string, original: Option<string>)
      modifies this
      ensures View(id) == Recovery.StartRecovery(old(View(id)), original)
      ensures forall other :: other != id ==> View(other) == old(View(other))
    {
      var rec := if id in recovery then recovery[id] else NO_RECOVERY;
      if rec.inRecovery {
        return;
      }
      assert rec == View(id).recovery;
      hide View;
      var attempt := rec.attempt + 1;
      SetRecovery(id, RecoveryState(true, attempt, original));
      Send(id, [Stop]);
      Send(id, [Home]);
      if attempt >= 2 {
        EscalateToMaintenance(id);
      }
    }

    /** `_escalate_to_maintenance`: the rack is flagged and its scan schedule disabled. */
    method EscalateToMaintenance(id: string)
      modifies this`maintenance, this`schedulesOff, this`logs
      ensures View(id) == old(View(id)).(maintenance := true, scheduleOff := true, log := old(View(id)).log + [Flagged])
      ensures forall other :: other != id ==> View(other) == old(View(other))
    {
      maintenance := maintenance + {id};
      schedulesOff := schedulesOff + {id};
      Send(id, [Flagged]);
    }

    method CheckTolerance(id: string, r: Reading, target: Target)
      requires id in commandedTargets && commandedTargets[id] == target
      modifies this
      ensures View(id) == Recovery.CheckTolerance(old(View(id)), r)
      ensures forall other :: other != id ==> View(other) == old(View(other))
    {
      var errX := if target.x.Some? then AbsDiff(r.x, target.x.value) else 0.0;
      var errY := if target.y.Some? then AbsDiff(r.y, target.y.value) else 0.0;
      if errX > r.tolX || errY > r.tolY {
        commandedTargets := commandedTargets - {id};
        StartRecovery(id, None);
      }
    }

    /** `on_m114`: tolerance, stale homing, then the follow-up of a recovery. */
    method OnM114(id: string, r: Reading, stale: bool, lockValid: bool)
      modifies this
      ensures View(id) == Recovery.OnM114(old(View(id)), r, stale, lockValid)
      ensures forall other :: other != id ==> View(other) == old(View(other))
    {
      if id in commandedTargets {
        CheckTolerance(id, r, commandedTargets[id]);
      }
      PopStaleCheck(id, stale);
      if id in recovery && recovery[id].inRecovery && r.AllHomed() {
        var originalCmd := recovery[id].original;
        SetRecovery(id, recovery[id].(inRecovery := false));
        if originalCmd.Some? {
          RetryCommand(id, originalCmd.value, lockValid);
        }
      }
    }

    method PopStaleCheck(id: string, stale: bool)
      modifies this`staleCheckDue, this`logs
      ensures View(id) == CheckStale(old(View(id)), stale)
      ensures forall other :: other != id ==> View(other) == old(View(other))
    {
      var staleDue := id in staleCheckDue && staleCheckDue[id];
      staleCheckDue := staleCheckDue - {id};
      if staleDue && stale {
        Send(id, [StaleAlert]);
      }
    }

    method RetryCommand(id: string, command: string, lockValid: bool)
      modifies this`logs
      ensures View(id) == old(View(id)).(
        log := old(View(id)).log + if command != "" && lockValid then [Retried(command)] else [])
      ensures forall other :: other != id ==> View(other) == old(View(other))
    {
      if command == "" || !lockValid {
        return;
      }
      Send(id, [Retried(command)]);
    }
  }
}
