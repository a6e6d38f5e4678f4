/** What a submission asks of its rack, read off the text of the command: which lock it takes, for
    whom and until when, what its caller is told, and which locks the end of a capture frees. */
module LockKinds {
  import opened Prelude
  import opened Text
  import opened RackProtocol
  import opened RackInvariants
  import opened RackSafety
  import opened RackServer
  import LockTiming

  // ---- The first word of a text -----------------------------------------------------

  lemma TokenOfWord(gap: string, word: string, rest: string)
    requires FirstWord(gap, word, rest)
    ensures FirstToken(gap + word + rest) == Some(Upper(word))
  {
    hide Upper, Tokens;
    TokensAfterWord(gap, word, rest);
  }

  lemma NoTokenInBlank(text: string)
    requires AllSpace(text)
    ensures FirstToken(text).None?
  {
    BlankHasNoTokens(text);
  }

  // ---- The lock that a text takes ---------------------------------------------------

  /** A lock that a submission has to wait for. */
  predicate InForce(row: Row, now: int) {
    row.holder.Some? && row.expiresAt.Some? && now < row.expiresAt.value
  }

  predicate Grantable(r: Rack, env: Env) {
    env.dbOk && r.row.Some? && !InForce(r.row.value, env.now)
  }

  /** The row after a grant at `now`: a motion lock lasts the motion timeout, a capture lock the
      capture timeout, a scan lock twice the longer one. */
  ghost predicate LockedBy(row: Row, user: string, kind: LockType, now: int, t: Timeouts) {
    && row.holder == Some(user) && row.kind == Some(kind) && row.acquiredAt == Some(now)
    && row.expiresAt.Some?
    && match kind
       case Motion => row.expiresAt.value == now + t.motion
       case Capture => row.expiresAt.value == now + t.capture
       case Scan =>
         && row.expiresAt.value >= now + 2 * t.motion && row.expiresAt.value >= now + 2 * t.capture
         && (row.expiresAt.value == now + 2 * t.motion || row.expiresAt.value == now + 2 * t.capture)
  }

  /** An acquisition succeeds iff the rack exists and no lock is in force; it then locks the rack
      in row and mirror. */
  lemma AcquireLocks(r: Rack, user: string, kind: LockType, now: int, t: Timeouts)
    ensures var (end, result) := Acquire(r, user, kind, now, t);
      && (result.RackNotFound? <==> r.row.None?)
      && (result.AlreadyLocked? <==> r.row.Some? && InForce(r.row.value, now))
      && (result.Acquired? <==> r.row.Some? && !InForce(r.row.value, now))
      && (!result.Acquired? ==> end == r)
      && (result.Acquired? ==>
            && end.row.Some? && LockedBy(end.row.value, user, kind, now, t)
            && end.mirror == MirrorLock(Some(user), Some(kind), end.row.value.expiresAt)
            && end.queue == r.queue && end.log == r.log + [Granted(user, kind, now, end.row.value.expiresAt.value)])
  {
  }

  /** The lock of a command whose first word is `word`: for its user, "__anonymous__" without one; a
      capture lock iff the word reads CAPTURE in upper case, a scan lock iff it reads SCAN_START or
      SCAN_STOP, and a motion lock otherwise. */
  ghost predicate LockedFor(r: Rack, word: string, user: Option<string>, now: int, t: Timeouts) {
    && r.row.Some? && r.row.value.holder.Some? && r.row.value.kind.Some?
    && LockedBy(r.row.value, r.row.value.holder.value, r.row.value.kind.value, now, t)
    && r.mirror == MirrorLock(r.row.value.holder, r.row.value.kind, r.row.value.expiresAt)
    && (r.row.value.holder.value == match user case Some(u) => (if u == "" then "__anonymous__" else u)
                                               case None => "__anonymous__")
    && (r.row.value.kind == Some(Capture) <==> Upper(word) == "CAPTURE")
    && (r.row.value.kind == Some(Scan) <==> Upper(word) == "SCAN_START" || Upper(word) == "SCAN_STOP")
  }

  /** A submission that meets no lock in force takes the lock of its text. */
  lemma LockFollowsText(r: Rack, gap: string, word: string, rest: string, user: Option<string>, env: Env, t: Timeouts)
    requires FirstWord(gap, word, rest) && Upper(word) != "!" && Grantable(r, env)
    ensures LockedFor(SubmitNew(r, gap + word + rest, user, env, t), word, user, env.now, t)
  {
    hide FirstToken, Upper;
    TokenOfWord(gap, word, rest);
  }

  /** So does the command that a seen release dispatches, the head of the queue. */
  lemma DispatchFollowsText(r: Rack, gap: string, word: string, rest: string, env: Env, t: Timeouts)
    requires FirstWord(gap, word, rest) && Upper(word) != "!" && env.dbOk
    requires Held(r) && r.queue != [] && r.queue[0].text == gap + word + rest
    ensures var end := Release(r, Fresh, env, t);
      LockedFor(end, word, r.queue[0].user, env.now, t) && end.queue == r.queue[1..]
  {
    hide FirstToken, Upper;
    TokenOfWord(gap, word, rest);
  }

  /** A submission changes the row in no other case: not if the text is blank or an e-stop, nor
      without database or row, nor against a lock in force. */
  lemma OtherTextsTakeNoLock(r: Rack, text: string, user: Option<string>, env: Env, t: Timeouts)
    requires AllSpace(text) || !Grantable(r, env)
      || exists gap, word, rest :: text == gap + word + rest && FirstWord(gap, word, rest) && Upper(word) == "!"
    ensures var end := SubmitNew(r, text, user, env, t);
      end.row == r.row && end.mirror == r.mirror
  {
    hide FirstToken, Upper, Tokens;
    if AllSpace(text) {
      NoTokenInBlank(text);
    } else if Grantable(r, env) {
      var gap, word, rest :| text == gap + word + rest && FirstWord(gap, word, rest) && Upper(word) == "!";
      TokenOfWord(gap, word, rest);
    }
  }

  // ---- What the caller is told ------------------------------------------------------

  function Asked(r: Rack, text: string, user: Option<string>): Command {
    Command(NextTicket(r.log), text, user)
  }

  /** What a submission adds to the queue and the log, and the answer to its caller. */
  function Told(r: Rack, text: string, user: Option<string>, end: Rack): Outcome {
    Reply(r.log + [Submitted(Asked(r, text, user))], end.log)
  }

  lemma BlankIsRefused(r: Rack, text: string, user: Option<string>, env: Env, t: Timeouts)
    requires AllSpace(text)
    ensures var end := SubmitNew(r, text, user, env, t); var c := Asked(r, text, user);
      Told(r, text, user, end).OutError? && end == r.(log := r.log + [Submitted(c), Failed(c)])
  {
    hide FirstToken;
    NoTokenInBlank(text);
  }

  /** An e-stop empties the queue and answers by whether it went out. */
  lemma StopIsAnswered(r: Rack, gap: string, word: string, rest: string, user: Option<string>, env: Env, t: Timeouts)
    requires FirstWord(gap, word, rest) && Upper(word) == "!"
    ensures var text := gap + word + rest; var c := Asked(r, text, user);
      var end := SubmitNew(r, text, user, env, t);
      && end.queue == [] && end.row == r.row && end.mirror == r.mirror && end.log != []
      && Last(end.log) == (if env.publishOk then Published(c) else Failed(c))
      && Told(r, text, user, end) == if env.publishOk then OutEmergency else OutError
  {
    hide FirstToken, Upper;
    TokenOfWord(gap, word, rest);
  }

  /** Any other command waits at the tail of the queue iff it meets a lock in force, is published
      iff it meets none and the broker takes it, and fails otherwise; its caller is told which. */
  lemma CommandIsAnswered(r: Rack, gap: string, word: string, rest: string, user: Option<string>, env: Env,
    t: Timeouts)
    requires FirstWord(gap, word, rest) && Upper(word) != "!"
    ensures var text := gap + word + rest; var c := Asked(r, text, user);
      var end := SubmitNew(r, text, user, env, t);
      var waits := env.dbOk && r.row.Some? && InForce(r.row.value, env.now);
      var goes := Grantable(r, env) && env.publishOk;
      && (Told(r, text, user, end) == if waits then OutQueued else if goes then OutPublished else OutError)
      && end.queue == r.queue + (if waits then [c] else [])
      && (waits ==> end.log == r.log + [Submitted(c)])
      && (!waits ==> end.log != [] && Last(end.log) == if goes then Published(c) else Failed(c))
  {
    hide FirstToken, Upper;
    TokenOfWord(gap, word, rest);
  }

  // ---- What the end of a capture frees ----------------------------------------------

  lemma {:induction false} LockSinceGrant(row: Row, log: seq<Entry>, i: nat)
    requires i < |log| && log[i].Granted?
    requires forall k :: i < k < |log| ==> !LockTiming.LockEntry(log[k])
    ensures Replay(row, log).holder == Some(log[i].user) && Replay(row, log).kind == Some(log[i].kind)
    decreases |log|
  {
    if i < |log| - 1 {
      LockSinceGrant(row, Front(log), i);
    }
  }

  /** Nothing has granted, released or swept the rack's lock between the two states. */
  ghost predicate LockUndisturbed(r: Rack, later: Rack) {
    forall k :: |r.log| <= k < |later.log| ==> !LockTiming.LockEntry(later.log[k])
  }

  /** A command goes out on a rack of any run, and its lock is undisturbed until a capture is
      reported done, or failed, or its image arrives. If the command was a capture, this frees the
      rack; a move or a scan keeps its lock. */
  lemma CaptureFreesCapturesOnly(start: Rack, before: seq<Step>, gap: string, word: string, rest: string,
    user: Option<string>, env: Env, between: seq<Step>, sees: Sees, done: Env, t: Timeouts)
    requires Start(start) && FirstWord(gap, word, rest) && Upper(word) != "!"
    requires Grantable(Run(start, before, t), env)
    requires var sent := SubmitNew(Run(start, before, t), gap + word + rest, user, env, t);
      LockUndisturbed(sent, Run(sent, between, t))
    ensures var sent := SubmitNew(Run(start, before, t), gap + word + rest, user, env, t);
      var later := Run(sent, between, t);
      var end := CaptureFinished(later, sees, done, t);
      && Held(later) && later.row.value.holder == sent.row.value.holder
      && (Upper(word) != "CAPTURE" ==> end == later)
      && (Upper(word) == "CAPTURE" ==>
            && later.log + [Released(done.now)] <= end.log
            && (later.queue == [] ==>
                  && end.row == Some(Row(None, None, None, None)) && end.mirror == MirrorLock(None, None, None)
                  && end.log == later.log + [Released(done.now)]))
  {
    hide Run, FirstToken, Upper, Inv, InvWith, Replay;
    var r := Run(start, before, t);
    var text := gap + word + rest;
    var sent := SubmitNew(r, text, user, env, t);
    var later := Run(sent, between, t);
    LockFollowsText(r, gap, word, rest, user, env, t);
    GrantIsLogged(r, gap, word, rest, user, env, t);
    ReachableIsLawful(start, before, t);
    StepKeeps(start.row, r, Step(SubmitEvent(text, user), env), t);
    RunKeeps(start.row, sent, between, t);
    RunLogs(sent, between, t);
    SameRowKnown(start.row, r);
    SameLock(start.row, r, sent, later);
    ReleaseQuiet(later, sees, done, t);
  }

  /** The log of a granted submission: its arrival, the grant, its end. */
  lemma GrantIsLogged(r: Rack, gap: string, word: string, rest: string, user: Option<string>, env: Env, t: Timeouts)
    requires FirstWord(gap, word, rest) && Upper(word) != "!" && Grantable(r, env)
    ensures var end := SubmitNew(r, gap + word + rest, user, env, t); var n := |r.log|;
      && |end.log| == n + 3 && end.log[n + 1].Granted? && !LockTiming.LockEntry(end.log[n + 2])
      && end.row.Some? && end.row.value.holder == Some(end.log[n + 1].user)
      && end.row.value.kind == Some(end.log[n + 1].kind)
  {
    hide FirstToken, Upper;
    TokenOfWord(gap, word, rest);
  }

  lemma SameRowKnown(initial: Option<Row>, r: Rack)
    requires Inv(initial, r)
    ensures r.row.Some? <==> initial.Some?
  {
  }

  lemma SameLock(initial: Option<Row>, r: Rack, sent: Rack, later: Rack)
    requires Inv(initial, later) && sent.log <= later.log && LockUndisturbed(sent, later)
    requires sent.row.Some? && initial.Some? && |sent.log| == |r.log| + 3
    requires var n := |r.log|;
      && sent.log[n + 1].Granted? && !LockTiming.LockEntry(sent.log[n + 2])
      && sent.row.value.holder == Some(sent.log[n + 1].user) && sent.row.value.kind == Some(sent.log[n + 1].kind)
    ensures later.row.Some? && later.row.value.holder == sent.row.value.holder
    ensures later.row.value.kind == sent.row.value.kind && later.mirror.kind == later.row.value.kind
  {
    var n := |r.log|;
    assert forall k :: 0 <= k < |sent.log| ==> later.log[k] == sent.log[k];
    LockSinceGrant(initial.value, later.log, n + 1);
  }

  // ---- An e-stop that does not go out -----------------------------------------------

  /** It still empties the queue, but keeps the lock. */
  lemma RefusedStopKeepsLock(r: Rack, user: Option<string>, sees: Sees, env: Env, t: Timeouts)
    requires !env.publishOk
    ensures var end := EmergencyStop(r, user, sees, env, t);
      && end.row == r.row && end.mirror == r.mirror && end.queue == []
      && end.log != [] && Last(end.log) == Failed(Asked(r, "!", user))
  {
    StopToken();
  }
}
