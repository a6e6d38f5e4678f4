/** One rack as the server sees it: its lock columns in the database, the lock fields of the
    in-memory mirror, its queue of waiting commands and a log of everything that happened.
    The functions here say what each server operation does to one rack; the classes of
    `RackServer` are proved against them, and `RackInvariants`, `LockTiming`,
    `QueueOrder` prove what they keep over whole runs. */
module RackProtocol {
  import opened Prelude
  import opened Text

  datatype LockType = Motion | Capture | Scan

  /** `Raised` stands for the database error of a write that another transaction blocks. */
  datatype LockResult = Acquired | AlreadyLocked | RackNotFound | Raised

  /** Lock lifetimes in seconds: MOTION_TIMEOUT_S and CAPTURE_LOCK_TIMEOUT_S. */
  datatype Timeouts = Timeouts(motion: int, capture: int)

  function ExpirySeconds(kind: LockType, t: Timeouts): int {
    match kind
    case Motion => t.motion
    case Capture => t.capture
    case Scan => 2 * Max(t.motion, t.capture)
  }

  /** The four lock columns of a `racks` row. */
  datatype Row = Row(
    holder: Option<string>, kind: Option<LockType>, acquiredAt: Option<int>, expiresAt: Option<int>)

  const UNLOCKED := Row(None, None, None, None)

  function LockedRow(user: string, kind: LockType, now: int, t: Timeouts): Row {
    Row(Some(user), Some(kind), Some(now), Some(now + ExpirySeconds(kind, t)))
  }

  /** What makes `acquire_lock` refuse. */
  predicate Blocks(row: Row, now: int) {
    row.holder.Some? && row.expiresAt.Some? && row.expiresAt.value > now
  }

  /** The filter of the expiry sweep. */
  predicate Sweepable(row: Row, now: int) {
    row.holder.Some? && row.expiresAt.Some? && row.expiresAt.value < now
  }

  /** The lock fields of a mirror entry; an absent entry has the defaults. */
  datatype MirrorLock = MirrorLock(holder: Option<string>, kind: Option<LockType>, expiresAt: Option<int>)

  function MirrorOf(row: Row): MirrorLock {
    MirrorLock(row.holder, row.kind, row.expiresAt)
  }

  /** A command given to `submit`. The ticket is its place in the order of submission to its
      rack: the identity the log follows it by. */
  datatype Command = Command(ticket: nat, text: string, user: Option<string>)

  datatype Entry =
    | Submitted(cmd: Command)
    | Published(cmd: Command)
    | Discarded(cmd: Command)
    | Failed(cmd: Command)
    | Granted(user: string, kind: LockType, at: int, expiry: int)
    | Extended(at: int, expiry: int)
    | Released(at: int)
    | Swept(at: int)

  datatype Rack = Rack(row: Option<Row>, mirror: MirrorLock, queue: seq<Command>, log: seq<Entry>)

  /** What the environment decides during one operation: the clock, whether the database
      session can be used, whether the broker accepts the message. */
  datatype Env = Env(now: int, dbOk: bool, publishOk: bool)

  /** What a dispatch fired inside an uncommitted release reads of that release: its result
      (one shared connection), or still the old row, which it then cannot overwrite either. */
  datatype Sees = Fresh | Stale

  /** What a session reads of the rack's row, and whether it may write it. */
  datatype Session = Session(row: Option<Row>, writable: bool)

  // ---- Locks ------------------------------------------------------------------------

  function AcquireIn(r: Rack, user: string, kind: LockType, s: Session, now: int, t: Timeouts): (Rack, LockResult) {
    if s.row.None? then (r, RackNotFound)
    else if Blocks(s.row.value, now) then (r, AlreadyLocked)
    else if !s.writable then (r, Raised)
    else (Grant(r, user, kind, now, t), Acquired)
  }

  function Acquire(r: Rack, user: string, kind: LockType, now: int, t: Timeouts): (Rack, LockResult) {
    AcquireIn(r, user, kind, Session(r.row, true), now, t)
  }

  function Grant(r: Rack, user: string, kind: LockType, now: int, t: Timeouts): Rack {
    var row := LockedRow(user, kind, now, t);
    r.(row := Some(row), mirror := MirrorOf(row),
       log := r.log + [Granted(user, kind, now, row.expiresAt.value)])
  }

  predicate Held(r: Rack) {
    r.row.Some? && r.row.value.holder.Some?
  }

  function Extend(r: Rack, seconds: int, now: int): Rack {
    if !Held(r) then r
    else r.(row := Some(r.row.value.(expiresAt := Some(now + seconds))),
            mirror := r.mirror.(expiresAt := Some(now + seconds)),
            log := r.log + [Extended(now, now + seconds)])
  }

  function Unlock(r: Rack, entry: Entry): Rack {
    r.(row := Some(UNLOCKED), mirror := MirrorOf(UNLOCKED), log := r.log + [entry])
  }

  /** First half of the sweep: the committed clearing of an expired lock. */
  function SweepClear(r: Rack, now: int): Rack {
    if r.row.Some? && Sweepable(r.row.value, now) then Unlock(r, Swept(now)) else r
  }

  // ---- Commands ---------------------------------------------------------------------

  function FirstToken(text: string): Option<string> {
    var ts := Tokens(text);
    if ts == [] then None else Some(Upper(ts[0]))
  }

  function LockTypeFor(token: string): LockType {
    if token == "CAPTURE" then Capture
    else if token == "SCAN_START" || token == "SCAN_STOP" then Scan
    else Motion
  }

  const ANONYMOUS := "__anonymous__"

  function HolderFor(user: Option<string>): string {
    if user.Some? && user.value != "" then user.value else ANONYMOUS
  }

  function NextTicket(log: seq<Entry>): nat {
    if log == [] then 0
    else NextTicket(log[..|log| - 1]) + if log[|log| - 1].Submitted? then 1 else 0
  }

  function Record(r: Rack, entry: Entry): Rack {
    r.(log := r.log + [entry])
  }

  /** `submit`, for a command already in hand. */
  function Submit(r: Rack, c: Command, s: Session, env: Env, t: Timeouts): Rack {
    var token := FirstToken(c.text);
    if token.None? then Record(r, Failed(c))
    else if token.value == "!" then Emergency(r, c, env)
    else if !env.dbOk then Record(r, Failed(c))
    else
      var (g, result) := AcquireIn(r, HolderFor(c.user), LockTypeFor(token.value), s, env.now, t);
      match result
      case AlreadyLocked => r.(queue := r.queue + [c])
      case Acquired => Record(g, if env.publishOk then Published(c) else Failed(c))
      case _ => Record(r, Failed(c))
  }

  function Discards(q: seq<Command>): (d: seq<Entry>)
    ensures |d| == |q| && forall i :: 0 <= i < |q| ==> d[i] == Discarded(q[i])
  {
    seq(|q|, i requires 0 <= i < |q| => Discarded(q[i]))
  }

  /** `submit_emergency`: the queue goes first, then "!" is published; the lock stays. */
  function Emergency(r: Rack, c: Command, env: Env): Rack {
    Record(DiscardQueue(r), if env.publishOk then Published(c) else Failed(c))
  }

  function DiscardQueue(r: Rack): Rack {
    r.(queue := [], log := r.log + Discards(r.queue))
  }

  /** `on_lock_released`: the head of the queue goes through `submit` again. */
  function Dispatch(r: Rack, s: Session, env: Env, t: Timeouts): Rack {
    if r.queue == [] then r
    else Submit(r.(queue := r.queue[1..]), r.queue[0], s, env, t)
  }

  /** A caller's `submit`. */
  function SubmitNew(r: Rack, text: string, user: Option<string>, env: Env, t: Timeouts): Rack {
    var c := Command(NextTicket(r.log), text, user);
    Submit(Record(r, Submitted(c)), c, Session(r.row, true), env, t)
  }

  /** `release_lock` in a session that commits afterwards. */
  function Release(r: Rack, sees: Sees, env: Env, t: Timeouts): Rack {
    if !Held(r) then r
    else
      var u := Unlock(r, Released(env.now));
      Dispatch(u, if sees.Fresh? then Session(u.row, true) else Session(r.row, false), env, t)
  }

  /** The callback of the sweep, after its commit. */
  function Fire(r: Rack, env: Env, t: Timeouts): Rack {
    Dispatch(r, Session(r.row, true), env, t)
  }

  /** One pass of `sweep_expired_locks` over this rack. */
  function SweepRound(r: Rack, now: int, env: Env, t: Timeouts): Rack {
    var c := SweepClear(r, now);
    if r.row.Some? && Sweepable(r.row.value, now) then Fire(c, env, t) else c
  }

  /** CAPTURE_DONE, CAPTURE_ERROR and an image's arrival: release if the mirror says "capture". */
  function CaptureFinished(r: Rack, sees: Sees, env: Env, t: Timeouts): Rack {
    if r.mirror.kind == Some(Capture) then Release(r, sees, env, t) else r
  }

  /** The e-stop route: `submit_emergency`, then a release of its own if it went out. */
  function EmergencyStop(r: Rack, user: Option<string>, sees: Sees, env: Env, t: Timeouts): Rack {
    var e := SubmitNew(r, "!", user, env, t);
    if env.publishOk then Release(e, sees, env, t) else e
  }

  /** `reconcile_from_db` for the lock fields, when the row is taken over. */
  function Reconcile(r: Rack): Rack {
    if r.row.None? then r else r.(mirror := MirrorOf(r.row.value))
  }

  // ---- Runs -------------------------------------------------------------------------

  /** The atomic steps. Sweep and e-stop are two each, so that any other step can come
      between their halves; the sweep's callback may fire at any moment. */
  datatype Event =
    | SubmitEvent(text: string, user: Option<string>)
    | AcquireEvent(holder: string, kind: LockType)
    | ExtendEvent(seconds: int)
    | ReleaseEvent(sees: Sees)
    | SweepClearEvent
    | FireEvent
    | CaptureFinishedEvent(sees: Sees)
    | ReconcileEvent

  datatype Step = Step(event: Event, env: Env)

  function Do(r: Rack, s: Step, t: Timeouts): Rack {
    match s.event
    case SubmitEvent(text, user) => SubmitNew(r, text, user, s.env, t)
    case AcquireEvent(holder, kind) => Acquire(r, holder, kind, s.env.now, t).0
    case ExtendEvent(seconds) => Extend(r, seconds, s.env.now)
    case ReleaseEvent(sees) => Release(r, sees, s.env, t)
    case SweepClearEvent => SweepClear(r, s.env.now)
    case FireEvent => Fire(r, s.env, t)
    case CaptureFinishedEvent(sees) => CaptureFinished(r, sees, s.env, t)
    case ReconcileEvent => Reconcile(r)
  }

  function Run(r: Rack, steps: seq<Step>, t: Timeouts): Rack
    decreases |steps|
  {
    if steps == [] then r else Run(Do(r, steps[0], t), steps[1..], t)
  }

  /** A rack when the server starts: mirror seeded from the row, nothing submitted yet. */
  predicate Start(r: Rack) {
    && r.queue == [] && r.log == []
    && (r.row.Some? ==> r.mirror == MirrorOf(r.row.value) && RowShape(r.row.value))
    && (r.row.None? ==> r.mirror == MirrorOf(UNLOCKED))
  }

  /** The four columns are written together. */
  predicate RowShape(row: Row) {
    || row == UNLOCKED
    || (row.holder.Some? && row.kind.Some? && row.acquiredAt.Some? && row.expiresAt.Some?)
  }
}
