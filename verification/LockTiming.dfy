/** Timed mutual exclusion: when a rack lock may change hands, and how long keepalives hold it. */
module LockTiming {
  import opened Prelude
  import opened RackProtocol
  import opened RackInvariants
  import opened RackSafety

  /** The expiry of the lock after a log: set by the last grant or extension, gone after a
      release or sweep. */
  function CurrentExpiry(log: seq<Entry>): Option<int> {
    if log == [] then None
    else match Last(log)
      case Granted(_, _, _, expiry) => Some(expiry)
      case Extended(_, expiry) => Some(expiry)
      case Released(_) => None
      case Swept(_) => None
      case _ => CurrentExpiry(Front(log))
  }

  predicate Frees(e: Entry) {
    e.Released? || e.Swept?
  }

  /** From a grant on, as long as nothing frees the lock, the columns hold a lock that runs
      to the current expiry. */
  lemma {:induction false} HeldSinceGrant(row: Row, log: seq<Entry>, i: nat)
    requires i < |log| && log[i].Granted?
    requires forall k :: i < k < |log| ==> !Frees(log[k])
    ensures CurrentExpiry(log).Some?
    ensures Replay(row, log).holder.Some? && Replay(row, log).expiresAt == CurrentExpiry(log)
    decreases |log|
  {
    if i < |log| - 1 {
      HeldSinceGrant(row, Front(log), i);
    }
  }

  /** Between two grants of a rack there is a release, a sweep, or the second comes no earlier
      than the expiry that the lock has by then, extensions included. A sweep itself comes
      strictly after that expiry. */
  lemma MutualExclusion(r: Rack, steps: seq<Step>, t: Timeouts, i: nat, j: nat)
    requires Start(r)
    requires var log := Run(r, steps, t).log;
      i < j < |log| && log[i].Granted? && (log[j].Granted? || log[j].Swept?)
    ensures var log := Run(r, steps, t).log;
      || (exists k :: i < k < j && Frees(log[k]))
      || (CurrentExpiry(log[..j]).Some?
          && if log[j].Granted? then CurrentExpiry(log[..j]).value <= log[j].at
             else CurrentExpiry(log[..j]).value < log[j].at)
  {
    var log := Run(r, steps, t).log;
    ReachableIsLawful(r, steps, t);
    if forall k :: i < k < j ==> !Frees(log[k]) {
      if r.row.Some? {
        HeldSinceGrant(r.row.value, log[..j], i);
      }
    }
  }

  // ---- Keepalives -------------------------------------------------------------------

  /** Every step that could take the lock from its holder comes in time, where `deadline` is
      the lock's expiry and each extension moves it. */
  predicate Timely(steps: seq<Step>, deadline: int) {
    steps == []
    || (var now := steps[0].env.now;
        match steps[0].event
        case ReleaseEvent(_) => false
        case ExtendEvent(seconds) => Timely(steps[1..], now + seconds)
        case SweepClearEvent => now <= deadline && Timely(steps[1..], deadline)
        case CaptureFinishedEvent(_) => Timely(steps[1..], deadline)
        case ReconcileEvent => Timely(steps[1..], deadline)
        case _ => now < deadline && Timely(steps[1..], deadline))
  }

  function Deadline(steps: seq<Step>, deadline: int): int {
    if steps == [] then deadline
    else match steps[0].event
      case ExtendEvent(seconds) => Deadline(steps[1..], steps[0].env.now + seconds)
      case _ => Deadline(steps[1..], deadline)
  }

  predicate LockEntry(e: Entry) {
    e.Granted? || e.Released? || e.Swept?
  }

  /** The holder keeps the lock through `later`: nobody is granted it, nobody frees it. */
  ghost predicate Keeps(r: Rack, later: Rack, expiry: int)
    requires Held(r)
  {
    && later.row == Some(r.row.value.(expiresAt := Some(expiry)))
    && r.log <= later.log
    && forall k :: |r.log| <= k < |later.log| ==> !LockEntry(later.log[k])
  }

  /** A submission or dispatch that meets a lock in force leaves it alone. */
  lemma BlockedSubmit(r: Rack, c: Command, env: Env, t: Timeouts)
    requires Held(r) && Blocks(r.row.value, env.now)
    ensures Keeps(r, Submit(r, c, Session(r.row, true), env, t), r.row.value.expiresAt.value)
  {
  }

  lemma TimelyStep(initial: Option<Row>, r: Rack, s: Step, rest: seq<Step>, t: Timeouts)
    requires Inv(initial, r)
    requires Held(r) && r.row.value.kind != Some(Capture)
    requires Timely([s] + rest, r.row.value.expiresAt.value)
    ensures var next := Deadline([s], r.row.value.expiresAt.value);
      Keeps(r, Do(r, s, t), next) && Timely(rest, next)
  {
    assert ([s] + rest)[1..] == rest;
    assert Deadline([s][1..], r.row.value.expiresAt.value) == r.row.value.expiresAt.value;
    match s.event
    case SubmitEvent(text, user) =>
      var c := Command(NextTicket(r.log), text, user);
      BlockedSubmit(Record(r, Submitted(c)), c, s.env, t);
    case FireEvent =>
      if r.queue != [] {
        BlockedSubmit(r.(queue := r.queue[1..]), r.queue[0], s.env, t);
      }
    case ExtendEvent(seconds) =>
      assert Deadline([s][1..], s.env.now + seconds) == s.env.now + seconds;
    case _ =>
  }

  /** A motion or scan lock outlives every timely run, whoever else submits, acquires or
      sweeps meanwhile: same holder, same acquisition, expiry moved by the extensions. */
  lemma {:induction false} TimelyRunKeepsLock(initial: Option<Row>, r: Rack, steps: seq<Step>, t: Timeouts)
    requires Inv(initial, r)
    requires Held(r) && r.row.value.kind != Some(Capture)
    requires Timely(steps, r.row.value.expiresAt.value)
    ensures Keeps(r, Run(r, steps, t), Deadline(steps, r.row.value.expiresAt.value))
    decreases |steps|
  {
    hide Do, Inv;
    if steps == [] {
      HeldShape(initial, r);
    } else {
      var next := Do(r, steps[0], t);
      assert steps == [steps[0]] + steps[1..];
      HeldShape(initial, r);
      TimelyStep(initial, r, steps[0], steps[1..], t);
      StepKeeps(initial, r, steps[0], t);
      TimelyRunKeepsLock(initial, next, steps[1..], t);
      DeadlineStep(steps, r.row.value.expiresAt.value);
    }
  }

  lemma HeldShape(initial: Option<Row>, r: Rack)
    requires Inv(initial, r) && Held(r)
    ensures r.row.value.expiresAt.Some?
  {
  }

  lemma DeadlineStep(steps: seq<Step>, d: int)
    requires steps != []
    ensures Deadline(steps, d) == Deadline(steps[1..], Deadline([steps[0]], d))
  {
    assert [steps[0]][1..] == [];
    if steps[0].event.ExtendEvent? {
      assert Deadline([], steps[0].env.now + steps[0].event.seconds) == steps[0].env.now + steps[0].event.seconds;
    }
  }

  /** No explicit release, time never runs backwards, and every keepalive, as well as the
      end of the run, comes before the expiry that the one before it set. */
  predicate KeptAlive(steps: seq<Step>, from: int, deadline: int, end: int) {
    if steps == [] then from <= end < deadline
    else
      var now := steps[0].env.now;
      && from <= now
      && match steps[0].event
         case ReleaseEvent(_) => false
         case ExtendEvent(seconds) => now < deadline && KeptAlive(steps[1..], now, now + seconds, end)
         case _ => KeptAlive(steps[1..], now, deadline, end)
  }

  /** With a clock, it is enough to look at the keepalives. */
  lemma {:induction false} KeepalivesAreTimely(steps: seq<Step>, from: int, deadline: int, end: int)
    requires KeptAlive(steps, from, deadline, end)
    ensures Timely(steps, deadline)
    ensures from < deadline
  {
    if steps != [] {
      var s := steps[0];
      KeepalivesAreTimely(steps[1..], s.env.now,
        if s.event.ExtendEvent? then s.env.now + s.event.seconds else deadline, end);
    }
  }

  /** A scan lock granted at `now`, first extended within 2 * max(motion, capture) seconds and
      then each time before the previous extension runs out, is never swept and never granted
      again, whatever else is tried on the rack. */
  lemma KeepalivesHoldScanLock(initial: Option<Row>, r: Rack, user: string, now: int, steps: seq<Step>,
    end: int, t: Timeouts)
    requires Inv(initial, r)
    requires r.row.Some? && !Blocks(r.row.value, now)
    requires KeptAlive(steps, now, now + 2 * Max(t.motion, t.capture), end)
    ensures var granted := Acquire(r, user, Scan, now, t).0;
      var after := Run(granted, steps, t);
      && Keeps(granted, after, Deadline(steps, now + 2 * Max(t.motion, t.capture)))
      && after.row.value.holder == Some(user)
      && Blocks(after.row.value, end)
  {
    hide Inv, KeptAlive, Timely, Deadline, Run, Do;
    AcquireKeeps(initial, r, user, Scan, now, t);
    KeepalivesAreTimely(steps, now, now + 2 * Max(t.motion, t.capture), end);
    TimelyRunKeepsLock(initial, Acquire(r, user, Scan, now, t).0, steps, t);
    DeadlineAfterEnd(steps, now, now + 2 * Max(t.motion, t.capture), end);
  }

  lemma {:induction false} DeadlineAfterEnd(steps: seq<Step>, from: int, deadline: int, end: int)
    requires KeptAlive(steps, from, deadline, end)
    ensures end < Deadline(steps, deadline)
  {
    if steps != [] {
      var s := steps[0];
      DeadlineAfterEnd(steps[1..], s.env.now,
        if s.event.ExtendEvent? then s.env.now + s.event.seconds else deadline, end);
    }
  }

  /** The bounds of `Timely` are exact. A sweep takes the lock iff it is past the expiry, an
      acquisition iff it is at or past it; so at the very instant of expiry the sweep leaves
      in place a lock that the next caller overwrites. */
  lemma LateStepsTakeLock(initial: Option<Row>, r: Rack, user: string, kind: LockType, now: int, t: Timeouts)
    requires Inv(initial, r) && Held(r)
    ensures SweepClear(r, now) != r <==> now > r.row.value.expiresAt.value
    ensures Acquire(r, user, kind, now, t).1 == Acquired <==> now >= r.row.value.expiresAt.value
    ensures now == r.row.value.expiresAt.value ==>
      SweepClear(r, now) == r && Last(Acquire(r, user, kind, now, t).0.log).Granted?
  {
    Appended(r.log, Swept(now));
    assert |Unlock(r, Swept(now)).log| == |r.log| + 1;
  }
}
