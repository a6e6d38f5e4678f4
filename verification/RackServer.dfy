/** The lock functions and the queue manager as they run: the `racks` table, the mirror and the
    per-rack queues are updated in place. Each method is proved to do to its rack exactly what
    `RackProtocol` says, and nothing to any other rack. */
module RackServer {
  import opened Prelude
  import opened RackProtocol
  import opened GantryMirror

  datatype Outcome = OutPublished | OutQueued | OutEmergency | OutError

  /** What `submit` tells its caller, given what it added to the log: nothing if the command
      waits, otherwise its end. */
  function Reply(before: seq<Entry>, after: seq<Entry>): Outcome {
    if |after| <= |before| then OutQueued
    else match after[|after| - 1]
      case Published(c) => if FirstToken(c.text) == Some("!") then OutEmergency else OutPublished
      case _ => OutError
  }

  class Server {
    const timeouts: Timeouts
    const state: GantryState
    var rows: map<string, Row>
    var queues: map<string, seq<Command>>
    var logs: map<string, seq<Entry>>

    constructor (timeouts: Timeouts, state: GantryState, rows: map<string, Row>)
      requires state.Valid()
      ensures this.timeouts == timeouts && this.state == state && this.rows == rows
      ensures queues == map[] && logs == map[]
    {
      this.timeouts, this.state, this.rows := timeouts, state, rows;
      queues, logs := map[], map[];
    }

    ghost function View(id: string): Rack
      reads this, state
    {
      Rack(if id in rows then Some(rows[id]) else None, state.LockShown(id), Queue(id), Log(id))
    }

    function Queue(id: string): seq<Command>
      reads this
    {
      if id in queues then queues[id] else []
    }

    function Log(id: string): seq<Entry>
      reads this
    {
      if id in logs then logs[id] else []
    }

    function RowOf(id: string): Option<Row>
      reads this
    {
      if id in rows then Some(rows[id]) else None
    }

    method Append(id: string, e: Entry)
      modifies this`logs
      ensures View(id) == Record(old(View(id)), e)
      ensures forall other :: other != id ==> View(other) == old(View(other))
    {
      logs := logs[id := Log(id) + [e]];
    }

    // ---- Locks ----------------------------------------------------------------------

    /** `acquire_lock`, in a session that reads `s.row`. */
    method AcquireLock(id: string, user: string, kind: LockType, s: Session, now: int) returns (result: LockResult)
      requires state.Valid()
      requires s.writable ==> s.row == RowOf(id)
      modifies this`rows, this`logs, state
      ensures state.Valid()
      ensures (View(id), result) == AcquireIn(old(View(id)), user, kind, s, now, timeouts)
      ensures forall other :: other != id ==> View(other) == old(View(other))
    {
      if s.row.None? {
        return RackNotFound;
      }
      var rack := s.row.value;
      if rack.holder.Some? && rack.expiresAt.Some? && rack.expiresAt.value > now {
        return AlreadyLocked;
      }
      if !s.writable {
        return Raised;
      }
      var expiresAt := now + ExpirySeconds(kind, timeouts);
      rows := rows[id := Row(Some(user), Some(kind), Some(now), Some(expiresAt))];
      MirrorLockFields(id, Some(user), Some(kind), Some(expiresAt), now);
      Append(id, Granted(user, kind, now, expiresAt));
      return Acquired;
    }

    method MirrorLockFields(id: string, holder: Option<string>, kind: Option<LockType>, expiresAt: Option<int>,
      now: int)
      requires state.Valid()
      modifies state
      ensures state.Valid()
      ensures state.LockShown(id) == MirrorLock(holder, kind, expiresAt)
      ensures forall other :: other != id ==> state.Shown(other) == old(state.Shown(other))
    {
      var fields := [Holder(holder), Kind(kind), ExpiresAt(expiresAt)];
      ghost var shown := state.Shown(id);
      state.Upsert(id, fields, now);
      calc {
        SetFields(shown, fields);
        { assert fields[1..] == [Kind(kind), ExpiresAt(expiresAt)]; }
        SetFields(shown.(lockHolder := holder), [Kind(kind), ExpiresAt(expiresAt)]);
        { assert [Kind(kind), ExpiresAt(expiresAt)][1..] == [ExpiresAt(expiresAt)]; }
        SetFields(shown.(lockHolder := holder, lockType := kind), [ExpiresAt(expiresAt)]);
        { assert [ExpiresAt(expiresAt)][1..] == []; }
        shown.(lockHolder := holder, lockType := kind, lockExpiresAt := expiresAt);
      }
    }

    /** `extend_lock`: CAPTURE_STARTED and SCAN_KEEPALIVE, whatever the type of the lock. */
    method ExtendLock(id: string, seconds: int, now: int) returns (extended: bool)
      requires state.Valid()
      modifies this`rows, this`logs, state
      ensures state.Valid()
      ensures View(id) == Extend(old(View(id)), seconds, now)
      ensures extended <==> old(Held(View(id)))
      ensures forall other :: other != id ==> View(other) == old(View(other))
    {
      if id !in rows || rows[id].holder.None? {
        return false;
      }
      rows := rows[id := rows[id].(expiresAt := Some(now + seconds))];
      var fields := [ExpiresAt(Some(now + seconds))];
      state.Upsert(id, fields, now);
      assert fields[1..] == [];
      Append(id, Extended(now, now + seconds));
      return true;
    }

    /** `release_lock` with its callback, then the commit of the caller's session. Until that
        commit the dispatch's own session sees the old row, unless the two share one. */
    method ReleaseLock(id: string, sees: Sees, env: Env) returns (released: bool)
      requires state.Valid()
      modifies this, state
      ensures state.Valid()
      ensures View(id) == Release(old(View(id)), sees, env, timeouts)
      ensures released <==> old(Held(View(id)))
      ensures forall other :: other != id ==> View(other) == old(View(other))
    {
      if id !in rows || rows[id].holder.None? {
        return false;
      }
      MirrorLockFields(id, None, None, None, env.now);
      Append(id, Released(env.now));
      if sees.Fresh? {
        CommitUnlocked(id);
        OnLockReleased(id, Session(Some(UNLOCKED), true), env);
      } else {
        var before := rows[id];
        ghost var u := Unlock(old(View(id)), Released(env.now));
        assert View(id).(row := Some(UNLOCKED)) == u;
        OnLockReleased(id, Session(Some(before), false), env);
        DispatchIgnoresRow(u, old(View(id)), Session(Some(before), false), env);
        CommitUnlocked(id);
      }
      return true;
    }

    method CommitUnlocked(id: string)
      modifies this`rows
      ensures View(id) == old(View(id)).(row := Some(UNLOCKED))
      ensures forall other :: other != id ==> View(other) == old(View(other))
    {
      rows := rows[id := UNLOCKED];
    }

    /** In a session that cannot write, a dispatch neither uses nor changes the row itself. */
    lemma DispatchIgnoresRow(u: Rack, r: Rack, s: Session, env: Env)
      requires !s.writable
      ensures Dispatch(u.(row := r.row), s, env, timeouts).(row := u.row) == Dispatch(u, s, env, timeouts)
      ensures Dispatch(u.(row := r.row), s, env, timeouts).row == r.row
    {
    }

    // ---- Commands -------------------------------------------------------------------

    /** A caller's `submit`. */
    method SubmitCommand(id: string, text: string, user: Option<string>, env: Env) returns (outcome: Outcome)
      requires state.Valid()
      modifies this, state
      ensures state.Valid()
      ensures View(id) == SubmitNew(old(View(id)), text, user, env, timeouts)
      ensures outcome == Reply(old(Log(id)) + [Submitted(Command(NextTicket(old(Log(id))), text, user))], View(id).log)
      ensures forall other :: other != id ==> View(other) == old(View(other))
    {
      var c := Command(NextTicket(Log(id)), text, user);
      Append(id, Submitted(c));
      outcome := Submit(id, c, Session(RowOf(id), true), env);
    }

    method Submit(id: string, c: Command, s: Session, env: Env) returns (outcome: Outcome)
      requires state.Valid()
      requires s.writable ==> s.row == RowOf(id)
      modifies this, state
      ensures state.Valid()
      ensures View(id) == RackProtocol.Submit(old(View(id)), c, s, env, timeouts)
      ensures outcome == Reply(old(Log(id)), View(id).log)
      ensures forall other :: other != id ==> View(other) == old(View(other))
    {
      hide LockedRow, MirrorOf, Emergency, FirstToken, LockTypeFor, HolderFor;
      var token := FirstToken(c.text);
      if token.None? {
        Append(id, Failed(c));
        return OutError;
      }
      if token.value == "!" {
        outcome := SubmitEmergency(id, c, env);
        return;
      }
      if !env.dbOk {
        Append(id, Failed(c));
        return OutError;
      }
      var result := AcquireLock(id, HolderFor(c.user), LockTypeFor(token.value), s, env.now);
      if result == RackNotFound || result == Raised {
        Append(id, Failed(c));
        return OutError;
      }
      if result == AlreadyLocked {
        Enqueue(id, c);
        return OutQueued;
      }
      if !env.publishOk {
        Append(id, Failed(c));
        return OutError;
      }
      Append(id, Published(c));
      return OutPublished;
    }

    method Enqueue(id: string, c: Command)
      modifies this`queues
      ensures View(id) == old(View(id)).(queue := old(Queue(id)) + [c])
      ensures forall other :: other != id ==> View(other) == old(View(other))
    {
      queues := queues[id := Queue(id) + [c]];
    }

    method Pop(id: string) returns (c: Option<Command>)
      modifies this`queues
      ensures old(Queue(id)) == [] ==> c.None? && View(id) == old(View(id))
      ensures old(Queue(id)) != [] ==>
        c == Some(old(Queue(id))[0]) && View(id) == old(View(id)).(queue := old(Queue(id))[1..])
      ensures forall other :: other != id ==> View(other) == old(View(other))
    {
      if Queue(id) == [] {
        return None;
      }
      c := Some(queues[id][0]);
      queues := queues[id := queues[id][1..]];
    }

    /** `submit_emergency`: the queue is cleared before "!" goes out, and the lock is left. */
    method SubmitEmergency(id: string, c: Command, env: Env) returns (outcome: Outcome)
      requires FirstToken(c.text) == Some("!")
      modifies this`queues, this`logs
      ensures View(id) == Emergency(old(View(id)), c, env)
      ensures outcome == Reply(old(Log(id)), View(id).log)
      ensures forall other :: other != id ==> View(other) == old(View(other))
    {
      ClearQueue(id);
      if !env.publishOk {
        Append(id, Failed(c));
        return OutError;
      }
      Append(id, Published(c));
      return OutEmergency;
    }

    method ClearQueue(id: string)
      modifies this`queues, this`logs
      ensures View(id) == DiscardQueue(old(View(id)))
      ensures forall other :: other != id ==> View(other) == old(View(other))
    {
      logs := logs[id := Log(id) + Discards(Queue(id))];
      queues := queues[id := []];
    }

    /** The registered callback: pop the head and put it through `submit` again. */
    method OnLockReleased(id: string, s: Session, env: Env)
      requires state.Valid()
      requires s.writable ==> s.row == RowOf(id)
      modifies this, state
      ensures state.Valid()
      ensures View(id) == Dispatch(old(View(id)), s, env, timeouts)
      ensures forall other :: other != id ==> View(other) == old(View(other))
    {
      var item := Pop(id);
      if item.Some? {
        var _ := Submit(id, item.value, s, env);
      }
    }

    // ---- Routes, handlers, sweep ----------------------------------------------------

    /** An e-stop request: `submit_emergency`, then the release in a session of its own. */
    method EmergencyStop(id: string, user: Option<string>, sees: Sees, env: Env)
      requires state.Valid()
      modifies this, state
      ensures state.Valid()
      ensures View(id) == RackProtocol.EmergencyStop(old(View(id)), user, sees, env, timeouts)
      ensures forall other :: other != id ==> View(other) == old(View(other))
    {
      var outcome := SubmitCommand(id, "!", user, env);
      if outcome == OutEmergency {
        var _ := ReleaseLock(id, sees, env);
      }
    }

    /** CAPTURE_DONE, CAPTURE_ERROR, and the arrival of an image. */
    method OnCaptureFinished(id: string, sees: Sees, env: Env)
      requires state.Valid()
      modifies this, state
      ensures state.Valid()
      ensures View(id) == CaptureFinished(old(View(id)), sees, env, timeouts)
      ensures forall other :: other != id ==> View(other) == old(View(other))
    {
      if id in state.racks && state.racks[id].lockType == Some(Capture) {
        var _ := ReleaseLock(id, sees, env);
      }
    }

    /** `sweep_expired_locks`: clear every expired lock, commit, then fire the callback for each
        rack cleared. Per rack this is one `SweepRound`, in whatever order the racks come. */
    method Sweep(now: int, envs: string -> Env) returns (released: seq<string>)
      requires state.Valid()
      modifies this, state
      ensures state.Valid()
      ensures forall id :: View(id) == SweepRound(old(View(id)), now, envs(id), timeouts)
      ensures forall id :: id in released <==> id in old(rows) && Sweepable(old(rows)[id], now)
      ensures forall i, j :: 0 <= i < j < |released| ==> released[i] != released[j]
    {
      released := ClearExpired(now);
      FireReleased(released, envs);
    }

    method FireReleased(released: seq<string>, envs: string -> Env)
      requires state.Valid()
      requires forall i, j :: 0 <= i < j < |released| ==> released[i] != released[j]
      modifies this, state
      ensures state.Valid()
      ensures forall id ::
        View(id) == (if id in released then Fire(old(View(id)), envs(id), timeouts) else old(View(id)))
    {
      var k := 0;
      while k < |released|
        invariant 0 <= k <= |released| && state.Valid()
        invariant forall id ::
          View(id) == (if id in released[..k] then Fire(old(View(id)), envs(id), timeouts) else old(View(id)))
      {
        OnLockReleased(released[k], Session(RowOf(released[k]), true), envs(released[k]));
        k := k + 1;
      }
      assert released[..k] == released;
    }

    method ClearOne(id: string, now: int)
      requires state.Valid() && id in rows && Sweepable(rows[id], now)
      modifies this`rows, this`logs, state
      ensures state.Valid()
      ensures View(id) == SweepClear(old(View(id)), now)
      ensures forall other :: other != id ==> View(other) == old(View(other))
      ensures rows.Keys == old(rows.Keys)
    {
      rows := rows[id := UNLOCKED];
      MirrorLockFields(id, None, None, None, now);
      Append(id, Swept(now));
    }

    method ClearExpired(now: int) returns (released: seq<string>)
      requires state.Valid()
      modifies this`rows, this`logs, state
      ensures state.Valid()
      ensures forall id :: View(id) == SweepClear(old(View(id)), now)
      ensures forall id :: id in released <==> id in old(rows) && Sweepable(old(rows)[id], now)
      ensures forall i, j :: 0 <= i < j < |released| ==> released[i] != released[j]
    {
      hide SweepClear;
      released := [];
      var expired := set id | id in rows && Sweepable(rows[id], now);
      var todo := expired;
      while todo != {}
        invariant todo <= expired && state.Valid()
        invariant forall id :: id in released <==> id in expired - todo
        invariant forall i, j :: 0 <= i < j < |released| ==> released[i] != released[j]
        invariant forall id :: View(id) == if id in released then SweepClear(old(View(id)), now) else old(View(id))
        decreases todo
      {
        var id :| id in todo;
        assert View(id) == old(View(id));
        ClearOne(id, now);
        released := released + [id];
        todo := todo - {id};
      }
      forall id | id !in released ensures SweepClear(old(View(id)), now) == old(View(id)) {
        NothingToClear(old(View(id)), now);
      }
    }

    lemma NothingToClear(r: Rack, now: int)
      requires r.row.Some? ==> !Sweepable(r.row.value, now)
      ensures SweepClear(r, now) == r
    {
    }
  }
}
