/** Invariants of one rack over every run of the protocol: no command is lost, duplicated or
    altered, the mirror agrees with the row, the row is what the log says, and every grant
    in the log was legal. */
module RackInvariants {
  import opened Prelude
  import opened RackProtocol

  // ---- What the log says ------------------------------------------------------------

  /** The submitted commands, in order. */
  function Accepted(log: seq<Entry>): seq<Command> {
    if log == [] then []
    else Accepted(Front(log)) + match Last(log) case Submitted(c) => [c] case _ => []
  }

  /** The commands that have met their end, with multiplicity. */
  function Settled(log: seq<Entry>): multiset<Command> {
    if log == [] then multiset{}
    else Settled(Front(log)) + SettledBy(Last(log))
  }

  function SettledBy(e: Entry): multiset<Command> {
    match e
    case Published(c) => multiset{c}
    case Discarded(c) => multiset{c}
    case Failed(c) => multiset{c}
    case _ => multiset{}
  }

  /** The lock columns that result from a log, starting with `row`. */
  function Replay(row: Row, log: seq<Entry>): Row {
    if log == [] then row
    else
      var before := Replay(row, Front(log));
      match Last(log)
      case Granted(user, kind, at, expiry) => Row(Some(user), Some(kind), Some(at), Some(expiry))
      case Extended(at, expiry) => before.(expiresAt := Some(expiry))
      case Released(_) => UNLOCKED
      case Swept(_) => UNLOCKED
      case _ => before
  }

  /** Each grant found the lock, as the log before it leaves it, absent or at its expiry; each
      sweep found it strictly past its expiry. */
  predicate LegalLocks(row: Row, log: seq<Entry>) {
    && (forall j :: 0 <= j < |log| && log[j].Granted? ==> !Blocks(Replay(row, log[..j]), log[j].at))
    && (forall j :: 0 <= j < |log| && log[j].Swept? ==> Sweepable(Replay(row, log[..j]), log[j].at))
  }

  function Front(log: seq<Entry>): seq<Entry>
    requires log != []
  {
    log[..|log| - 1]
  }

  function Last(log: seq<Entry>): Entry
    requires log != []
  {
    log[|log| - 1]
  }

  // ---- The invariants ---------------------------------------------------------------

  predicate MirrorAgrees(r: Rack) {
    r.mirror == MirrorOf(if r.row.Some? then r.row.value else UNLOCKED)
  }

  /** Tickets number the submitted commands, so no command is submitted twice. */
  predicate Numbered(r: Rack) {
    && NextTicket(r.log) == |Accepted(r.log)|
    && forall i :: 0 <= i < |Accepted(r.log)| ==> Accepted(r.log)[i].ticket == i
  }

  /** `initial` is the row the run started from. */
  predicate Lawful(initial: Option<Row>, r: Rack) {
    && r.row.Some? == initial.Some?
    && (initial.Some? ==>
      && RowShape(r.row.value)
      && r.row.value == Replay(initial.value, r.log)
      && LegalLocks(initial.value, r.log))
    && (initial.None? ==> forall i :: 0 <= i < |r.log| ==> !r.log[i].Granted?)
  }

  /** What every operation keeps. `pending` are the commands in hand, neither queued nor
      settled; between operations there are none. */
  predicate InvWith(initial: Option<Row>, r: Rack, pending: multiset<Command>) {
    && MirrorAgrees(r) && Numbered(r) && Lawful(initial, r)
    && multiset(Accepted(r.log)) == Settled(r.log) + multiset(r.queue) + pending
  }

  predicate Inv(initial: Option<Row>, r: Rack) {
    InvWith(initial, r, multiset{})
  }

  // ---- Single log entries -----------------------------------------------------------

  lemma Appended(log: seq<Entry>, e: Entry)
    ensures Front(log + [e]) == log && Last(log + [e]) == e
  {
  }

  /** An entry about a command changes neither the lock history nor its legality. */
  lemma LockHistoryAppend(row: Row, log: seq<Entry>, e: Entry)
    requires LegalLocks(row, log)
    requires e.Granted? ==> !Blocks(Replay(row, log), e.at)
    requires e.Swept? ==> Sweepable(Replay(row, log), e.at)
    ensures LegalLocks(row, log + [e])
  {
    var log' := log + [e];
    forall j | 0 <= j < |log'|
      ensures log'[j].Granted? ==> !Blocks(Replay(row, log'[..j]), log'[j].at)
      ensures log'[j].Swept? ==> Sweepable(Replay(row, log'[..j]), log'[j].at)
    {
      if j < |log| {
        assert log'[..j] == log[..j];
      } else {
        assert log'[..j] == log;
      }
    }
  }

  /** An entry about a command leaves the lock as it is. */
  lemma CommandEntry(row: Row, log: seq<Entry>, e: Entry)
    requires LegalLocks(row, log) && (e.Submitted? || e.Published? || e.Discarded? || e.Failed?)
    ensures LegalLocks(row, log + [e]) && Replay(row, log + [e]) == Replay(row, log)
  {
    Appended(log, e);
    LockHistoryAppend(row, log, e);
  }

  /** A grant leaves the lock that it gave. */
  lemma GrantEntry(row: Row, log: seq<Entry>, user: string, kind: LockType, at: int, expiry: int)
    requires LegalLocks(row, log) && !Blocks(Replay(row, log), at)
    ensures var e := Granted(user, kind, at, expiry);
      LegalLocks(row, log + [e]) && Replay(row, log + [e]) == Row(Some(user), Some(kind), Some(at), Some(expiry))
  {
    Appended(log, Granted(user, kind, at, expiry));
    LockHistoryAppend(row, log, Granted(user, kind, at, expiry));
  }

  lemma RecordKeeps(initial: Option<Row>, r: Rack, e: Entry, pending: multiset<Command>)
    requires InvWith(initial, r, SettledBy(e) + pending)
    requires e.Published? || e.Discarded? || e.Failed?
    ensures InvWith(initial, Record(r, e), pending)
  {
    hide Replay, LegalLocks;
    Appended(r.log, e);
    if initial.Some? {
      CommandEntry(initial.value, r.log, e);
    }
  }

  lemma SubmittedKeeps(initial: Option<Row>, r: Rack, text: string, user: Option<string>, pending: multiset<Command>)
    requires InvWith(initial, r, pending)
    ensures var c := Command(NextTicket(r.log), text, user);
      InvWith(initial, Record(r, Submitted(c)), pending + multiset{c})
  {
    hide Replay, LegalLocks;
    var c := Command(NextTicket(r.log), text, user);
    Appended(r.log, Submitted(c));
    if initial.Some? {
      CommandEntry(initial.value, r.log, Submitted(c));
    }
    assert multiset(Accepted(r.log) + [c]) == multiset(Accepted(r.log)) + multiset{c};
  }

  lemma GrantKeeps(initial: Option<Row>, r: Rack, user: string, kind: LockType, now: int, t: Timeouts,
    pending: multiset<Command>)
    requires InvWith(initial, r, pending)
    requires r.row.Some? && !Blocks(r.row.value, now)
    ensures InvWith(initial, Grant(r, user, kind, now, t), pending)
  {
    hide Replay, LegalLocks;
    var e := Granted(user, kind, now, now + ExpirySeconds(kind, t));
    Appended(r.log, e);
    GrantEntry(initial.value, r.log, user, kind, now, now + ExpirySeconds(kind, t));
  }

  lemma UnlockKeeps(initial: Option<Row>, r: Rack, e: Entry, pending: multiset<Command>)
    requires InvWith(initial, r, pending)
    requires r.row.Some?
    requires e.Released? || (e.Swept? && Sweepable(r.row.value, e.at))
    ensures InvWith(initial, Unlock(r, e), pending)
  {
    Appended(r.log, e);
    LockHistoryAppend(initial.value, r.log, e);
  }

  lemma ExtendKeeps(initial: Option<Row>, r: Rack, seconds: int, now: int, pending: multiset<Command>)
    requires InvWith(initial, r, pending)
    ensures InvWith(initial, Extend(r, seconds, now), pending)
  {
    if Held(r) {
      var e := Extended(now, now + seconds);
      Appended(r.log, e);
      LockHistoryAppend(initial.value, r.log, e);
    }
  }

  // ---- Operations -------------------------------------------------------------------

  /** Discarding the queue item by item. */
  lemma {:induction false} DiscardKeeps(initial: Option<Row>, r: Rack, pending: multiset<Command>)
    requires InvWith(initial, r, pending)
    ensures InvWith(initial, DiscardQueue(r), pending)
    decreases |r.queue|
  {
    if r.queue == [] {
      assert r.log + Discards(r.queue) == r.log;
    } else {
      DiscardHead(initial, r, pending);
      var next := Record(r.(queue := r.queue[1..]), Discarded(r.queue[0]));
      DiscardKeeps(initial, next, pending);
      DiscardUnfold(r);
    }
  }

  lemma DiscardUnfold(r: Rack)
    requires r.queue != []
    ensures DiscardQueue(Record(r.(queue := r.queue[1..]), Discarded(r.queue[0]))) == DiscardQueue(r)
  {
    assert r.log + [Discarded(r.queue[0])] + Discards(r.queue[1..]) == r.log + Discards(r.queue);
  }

  lemma DiscardHead(initial: Option<Row>, r: Rack, pending: multiset<Command>)
    requires r.queue != [] && InvWith(initial, r, pending)
    ensures InvWith(initial, Record(r.(queue := r.queue[1..]), Discarded(r.queue[0])), pending)
  {
    MultisetHead(r.queue);
    RecordKeeps(initial, r.(queue := r.queue[1..]), Discarded(r.queue[0]), pending);
  }

  /** The session a dispatch or submit works in is either the current row, or the row before an
      uncommitted release, which it may read but not write. */
  predicate ProperSession(r: Rack, s: Session) {
    s.writable ==> s.row == r.row
  }

  lemma EmergencyKeeps(initial: Option<Row>, r: Rack, c: Command, env: Env)
    requires InvWith(initial, r, multiset{c})
    ensures Inv(initial, Emergency(r, c, env))
  {
    DiscardKeeps(initial, r, multiset{c});
    RecordKeeps(initial, DiscardQueue(r), if env.publishOk then Published(c) else Failed(c), multiset{});
  }

  lemma QueuedKeeps(initial: Option<Row>, r: Rack, c: Command)
    requires InvWith(initial, r, multiset{c})
    ensures Inv(initial, r.(queue := r.queue + [c]))
  {
    assert multiset(r.queue + [c]) == multiset(r.queue) + multiset{c};
  }

  lemma SettledKeeps(initial: Option<Row>, r: Rack, e: Entry)
    requires e.Published? || e.Failed?
    requires InvWith(initial, r, multiset{e.cmd})
    ensures Inv(initial, Record(r, e))
  {
    RecordKeeps(initial, r, e, multiset{});
  }

  lemma SubmitKeeps(initial: Option<Row>, r: Rack, c: Command, s: Session, env: Env, t: Timeouts)
    requires InvWith(initial, r, multiset{c})
    requires ProperSession(r, s)
    ensures Inv(initial, Submit(r, c, s, env, t))
  {
    hide InvWith, Inv;
    var token := FirstToken(c.text);
    if token.None? {
      SettledKeeps(initial, r, Failed(c));
    } else if token.value == "!" {
      EmergencyKeeps(initial, r, c, env);
    } else if !env.dbOk || s.row.None? {
      SettledKeeps(initial, r, Failed(c));
    } else if Blocks(s.row.value, env.now) {
      QueuedKeeps(initial, r, c);
    } else if !s.writable {
      SettledKeeps(initial, r, Failed(c));
    } else {
      GrantKeeps(initial, r, HolderFor(c.user), LockTypeFor(token.value), env.now, t, multiset{c});
      var g := Grant(r, HolderFor(c.user), LockTypeFor(token.value), env.now, t);
      SettledKeeps(initial, g, if env.publishOk then Published(c) else Failed(c));
    }
  }

  lemma DispatchKeeps(initial: Option<Row>, r: Rack, s: Session, env: Env, t: Timeouts)
    requires Inv(initial, r) && ProperSession(r, s)
    ensures Inv(initial, Dispatch(r, s, env, t))
  {
    if r.queue != [] {
      MultisetHead(r.queue);
      SubmitKeeps(initial, r.(queue := r.queue[1..]), r.queue[0], s, env, t);
    }
  }

  lemma ReleaseKeeps(initial: Option<Row>, r: Rack, sees: Sees, env: Env, t: Timeouts)
    requires Inv(initial, r)
    ensures Inv(initial, Release(r, sees, env, t))
  {
    if Held(r) {
      UnlockKeeps(initial, r, Released(env.now), multiset{});
      var u := Unlock(r, Released(env.now));
      DispatchKeeps(initial, u, if sees.Fresh? then Session(u.row, true) else Session(r.row, false), env, t);
    }
  }

  lemma SubmitNewKeeps(initial: Option<Row>, r: Rack, text: string, user: Option<string>, env: Env, t: Timeouts)
    requires Inv(initial, r)
    ensures Inv(initial, SubmitNew(r, text, user, env, t))
  {
    SubmittedKeeps(initial, r, text, user, multiset{});
    var c := Command(NextTicket(r.log), text, user);
    assert multiset{} + multiset{c} == multiset{c};
    SubmitKeeps(initial, Record(r, Submitted(c)), c, Session(r.row, true), env, t);
  }

  lemma AcquireKeeps(initial: Option<Row>, r: Rack, user: string, kind: LockType, now: int, t: Timeouts)
    requires Inv(initial, r)
    ensures Inv(initial, Acquire(r, user, kind, now, t).0)
  {
    if r.row.Some? && !Blocks(r.row.value, now) {
      GrantKeeps(initial, r, user, kind, now, t, multiset{});
    }
  }

  lemma SweepClearKeeps(initial: Option<Row>, r: Rack, now: int)
    requires Inv(initial, r)
    ensures Inv(initial, SweepClear(r, now))
  {
    if r.row.Some? && Sweepable(r.row.value, now) {
      UnlockKeeps(initial, r, Swept(now), multiset{});
    }
  }

  lemma ReconcileKeeps(initial: Option<Row>, r: Rack)
    requires Inv(initial, r)
    ensures Reconcile(r) == r
  {
  }

  lemma StepKeeps(initial: Option<Row>, r: Rack, s: Step, t: Timeouts)
    requires Inv(initial, r)
    ensures Inv(initial, Do(r, s, t))
  {
    hide InvWith;
    match s.event
    case SubmitEvent(text, user) => SubmitNewKeeps(initial, r, text, user, s.env, t);
    case AcquireEvent(holder, kind) => AcquireKeeps(initial, r, holder, kind, s.env.now, t);
    case ExtendEvent(seconds) => ExtendKeeps(initial, r, seconds, s.env.now, multiset{});
    case ReleaseEvent(sees) => ReleaseKeeps(initial, r, sees, s.env, t);
    case SweepClearEvent => SweepClearKeeps(initial, r, s.env.now);
    case FireEvent => DispatchKeeps(initial, r, Session(r.row, true), s.env, t);
    case CaptureFinishedEvent(sees) => ReleaseKeeps(initial, r, sees, s.env, t);
    case ReconcileEvent => ReconcileKeeps(initial, r);
  }

  lemma {:induction false} RunKeeps(initial: Option<Row>, r: Rack, steps: seq<Step>, t: Timeouts)
    requires Inv(initial, r)
    ensures Inv(initial, Run(r, steps, t))
    decreases |steps|
  {
    if steps != [] {
      StepKeeps(initial, r, steps[0], t);
      RunKeeps(initial, Do(r, steps[0], t), steps[1..], t);
    }
  }

  lemma StartKeeps(r: Rack)
    requires Start(r)
    ensures Inv(r.row, r)
  {
  }

  /** Every rack state a run can reach satisfies the invariants. */
  lemma ReachableIsLawful(r: Rack, steps: seq<Step>, t: Timeouts)
    requires Start(r)
    ensures Inv(r.row, Run(r, steps, t))
  {
    StartKeeps(r);
    RunKeeps(r.row, r, steps, t);
  }
}
