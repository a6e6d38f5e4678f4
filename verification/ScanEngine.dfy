/** The scan engine as it runs: the due query, the batch loop, the firing gates. */
module ScanEngine {
  import opened Prelude
  import opened RackProtocol
  import opened Scheduling

  class Engine {
    const config: Config
    /** The order in which the database returns schedules. */
    const order: seq<string>
    var racks: map<string, RackInfo>
    var schedules: map<string, Schedule>
    var online: set<string>
    var sessions: seq<ScanSession>
    var active: map<string, nat>
    var published: seq<ScanStart>
    var timers: seq<Timer>

    constructor (config: Config, order: seq<string>, f: Fleet)
      ensures this.config == config && this.order == order && View() == f
    {
      this.config, this.order := config, order;
      racks, schedules, online, sessions := f.racks, f.schedules, f.online, f.sessions;
      active, published, timers := f.active, f.published, f.timers;
    }

    ghost function View(): Fleet
      reads this
    {
      Fleet(racks, schedules, online, sessions, active, published, timers)
    }

    /** `_check_due_scans`: batches of the group size, the first at once, batch k after k delays. */
    method CheckDueScans(now: int)
      requires config.groupSize > 0
      modifies this
      ensures View() == CheckDue(old(View()), order, now, config)
    {
      hide FireAll, DueList, Delay;
      var due := QueryDue(now);
      ghost var f := View();
      ghost var n := AtOnce(|due|, config);
      ghost var later := TimersFor(due, now, config);
      ghost var fired := FireAll(f, due[..n], now, config);
      PendingMore(fired, [], []);
      FireNone(f, due, now);
      var batch, i := 0, 0;
      while i < |due|
        invariant 0 <= i <= |due|
        invariant i < |due| ==> i == batch * config.groupSize
        invariant i <= n ==> View() == FireAll(f, due[..i], now, config)
        invariant i >= n ==> View() == Pending(fired, later[..i - n])
      {
        var end := Min(i + config.groupSize, |due|);
        var delay := batch * config.delayMinutes;
        BatchDelay(batch, i, |due|);
        if delay == 0 {
          FireBatch(due, i, end, now, f);
        } else {
          ghost var more := StartTimers(due, i, end, delay, now);
          BatchTimers(due, now, i, end, delay, more);
          assert later[..i - n] + more == later[..end - n];
          PendingMore(fired, later[..i - n], more);
        }
        batch, i := batch + 1, end;
      }
      assert later[..|due| - n] == later && due[..i] == due;
    }

    lemma FireNone(f: Fleet, due: seq<string>, now: int)
      ensures FireAll(f, due[..0], now, config) == f
    {
    }

    function Pending(f: Fleet, more: seq<Timer>): Fleet {
      f.(timers := f.timers + more)
    }

    lemma PendingMore(f: Fleet, a: seq<Timer>, b: seq<Timer>)
      ensures Pending(Pending(f, a), b) == Pending(f, a + b)
      ensures Pending(f, []) == f
    {
      assert f.timers + a + b == f.timers + (a + b);
      assert f.timers + [] == f.timers;
    }

    lemma BatchTimers(due: seq<string>, now: int, i: nat, end: nat, delay: nat, more: seq<Timer>)
      requires config.groupSize > 0 && AtOnce(|due|, config) <= i <= end <= |due|
      requires forall j: nat {:trigger Delay(j, config)} :: i <= j < end ==> Delay(j, config) == delay
      requires |more| == end - i && forall k :: 0 <= k < |more| ==> more[k] == Timer(now + delay * 60, due[i + k])
      ensures var n := AtOnce(|due|, config); TimersFor(due, now, config)[i - n..end - n] == more
    {
      var n := AtOnce(|due|, config);
      var later := TimersFor(due, now, config);
      forall k | 0 <= k < |more| ensures later[i - n..end - n][k] == more[k] {
        assert Delay(i + k, config) == delay;
        assert later[i - n + k] == Timer(now + Delay(i + k, config) * 60, due[i + k]);
      }
    }

    /** A batch begins at once or not at all in the first group, and all its racks share a delay. */
    lemma BatchDelay(batch: nat, i: nat, n: nat)
      requires config.groupSize > 0 && i == batch * config.groupSize && i < n
      ensures batch * config.delayMinutes == 0 ==> Min(i + config.groupSize, n) <= AtOnce(n, config)
      ensures batch * config.delayMinutes != 0 ==> i >= AtOnce(n, config)
      ensures forall j: nat {:trigger Delay(j, config)} :: i <= j < i + config.groupSize ==>
        Delay(j, config) == batch * config.delayMinutes
    {
      if config.delayMinutes > 0 && batch > 0 {
        Monotone(1, batch, config.groupSize);
        Monotone(1, batch, config.delayMinutes);
      }
      forall j: nat | i <= j < i + config.groupSize ensures Delay(j, config) == batch * config.delayMinutes {
        Quotient(j, config.groupSize, batch);
      }
    }

    method QueryDue(now: int) returns (due: seq<string>)
      ensures due == DueList(order, View(), now)
    {
      due := [];
      var k := 0;
      while k < |order|
        invariant 0 <= k <= |order|
        invariant due + DueList(order[k..], View(), now) == DueList(order, View(), now)
      {
        var id := order[k];
        if id in schedules && schedules[id].enabled && schedules[id].nextScanAt <= now
           && id in racks && !racks[id].maintenance {
          due := due + [id];
        }
        k := k + 1;
      }
    }

    method FireBatch(due: seq<string>, from: nat, end: nat, now: int, ghost f: Fleet)
      requires from <= end <= |due|
      requires View() == FireAll(f, due[..from], now, config)
      modifies this
      ensures View() == FireAll(f, due[..end], now, config)
    {
      var j := from;
      while j < end
        invariant from <= j <= end
        invariant View() == FireAll(f, due[..j], now, config)
      {
        TryFireScan(due[j], now);
        assert due[..j + 1][..j] == due[..j];
        j := j + 1;
      }
    }

    method StartTimers(due: seq<string>, from: nat, end: nat, delay: nat, now: int) returns (ghost more: seq<Timer>)
      requires from <= end <= |due|
      modifies this`timers
      ensures View() == Pending(old(View()), more)
      ensures |more| == end - from && forall k :: 0 <= k < |more| ==> more[k] == Timer(now + delay * 60, due[from + k])
    {
      more := [];
      var j := from;
      while j < end
        invariant from <= j <= end && timers == old(timers) + more
        invariant |more| == j - from
        invariant forall k :: 0 <= k < |more| ==> more[k] == Timer(now + delay * 60, due[from + k])
      {
        timers := timers + [Timer(now + delay * 60, due[j])];
        more := more + [Timer(now + delay * 60, due[j])];
        j := j + 1;
      }
    }

    /** `_try_fire_scan`. */
    method TryFireScan(id: string, now: int)
      modifies this
      ensures View() == TryFire(old(View()), id, now, config)
    {
      if id !in online {
        PostponeScan(id, now);
        return;
      }
      if id !in racks {
        return;
      }
      var rack := racks[id];
      if rack.lock.holder.Some? && rack.lock.expiresAt.Some? && rack.lock.expiresAt.value > now {
        PostponeScan(id, now);
        return;
      }
      if id in schedules {
        schedules := schedules[id := schedules[id].(nextScanAt := now + schedules[id].intervalHours * 3600)];
      }
      StartScan(id, SCAN_USER, now);
    }

    method StartScan(id: string, user: string, now: int)
      requires id in racks
      modifies this`racks, this`sessions, this`active, this`published
      ensures View() == Begin(old(View()), id, user, now, config)
    {
      var rack := racks[id];
      racks := racks[id := rack.(lock := LockedRow(user, Scan, now, config.timeouts), scanState := "running")];
      var session := |sessions|;
      sessions := sessions + [ScanSession(id, "running", now, rack.gridRows * rack.gridCols)];
      active := active[id := session];
      published := published + [ScanStart(id, session, rack.gridRows, rack.gridCols)];
    }

    method PostponeScan(id: string, now: int)
      modifies this`schedules
      ensures View() == Postpone(old(View()), id, now, config)
    {
      if id in schedules {
        schedules := schedules[id := schedules[id].(nextScanAt := now + config.postponeMinutes * 60)];
      }
    }

    /** `trigger_manual_scan`. */
    method TriggerManualScan(id: string, user: string, now: int) returns (reply: ManualReply)
      modifies this
      ensures (View(), reply) == TriggerManual(old(View()), id, user, now, config)
    {
      if id !in online {
        return PiOffline;
      }
      if id !in racks {
        return NoRack;
      }
      if Blocks(racks[id].lock, now) {
        return ManualQueued;
      }
      StartScan(id, user, now);
      return ManualPublished;
    }
  }
}
