/** Submissions and dispatches as they interleave within: a command is in hand between its arrival,
    or its leaving the queue, the session that asks for the lock, and its end. Any other thread's
    step can come in between. */
module InFlight {
  import opened Prelude
  import opened RackProtocol
  import opened RackInvariants
  import opened RackSafety
  import opened TurnOrder

  /** Where a command in hand stands: before its session, refused by the lock and about to be queued,
      holding the lock and about to be published, or an e-stop that has cleared the queue. */
  datatype Flight =
    | Pending(cmd: Command)
    | Refused(cmd: Command)
    | Admitted(cmd: Command)
    | Stopping(cmd: Command)

  datatype State = State(rack: Rack, inHand: seq<Flight>)

  datatype Event =
    | Arrive(text: string, user: Option<string>)  // a call of submit
    | Pop                                         // a callback takes the head of the queue
    | Ask(i: nat, session: Session)               // the lock session of a command in hand, or the clear of a stop
    | Finish(i: nat)                              // enqueue or publish
    | Take(holder: string, kind: LockType)        // somebody else acquires the lock
    | Prolong(seconds: int)
    | Free                                        // a release, up to its callbacks
    | Sweep                                       // the sweep's commit

  datatype Move = Move(event: Event, env: Env)

  function Remove(flights: seq<Flight>, i: nat): seq<Flight>
    requires i < |flights|
  {
    flights[..i] + flights[i + 1..]
  }

  function Commands(flights: seq<Flight>): (c: seq<Command>)
    ensures |c| == |flights| && forall i :: 0 <= i < |c| ==> c[i] == flights[i].cmd
  {
    seq(|flights|, i requires 0 <= i < |flights| => flights[i].cmd)
  }

  function Fail(s: State, i: nat): State
    requires i < |s.inHand|
  {
    State(Record(s.rack, Failed(s.inHand[i].cmd)), Remove(s.inHand, i))
  }

  function AskFor(s: State, i: nat, session: Session, env: Env, t: Timeouts): State
    requires i < |s.inHand|
  {
    var c := s.inHand[i].cmd;
    var token := FirstToken(c.text);
    if token.None? then Fail(s, i)
    else if token.value == "!" then State(DiscardQueue(s.rack), s.inHand[i := Stopping(c)])
    else if !env.dbOk then Fail(s, i)
    else
      var (g, result) := AcquireIn(s.rack, HolderFor(c.user), LockTypeFor(token.value), session, env.now, t);
      match result
      case AlreadyLocked => s.(inHand := s.inHand[i := Refused(c)])
      case Acquired => State(g, s.inHand[i := Admitted(c)])
      case _ => Fail(s, i)
  }

  function End(s: State, i: nat, env: Env): State
    requires i < |s.inHand|
  {
    var c := s.inHand[i].cmd;
    match s.inHand[i]
    case Pending(_) => s
    case Refused(_) => State(s.rack.(queue := s.rack.queue + [c]), Remove(s.inHand, i))
    case _ => if env.publishOk then State(Record(s.rack, Published(c)), Remove(s.inHand, i)) else Fail(s, i)
  }

  function Do(s: State, step: Move, t: Timeouts): State {
    var r, env := s.rack, step.env;
    match step.event
    case Arrive(text, user) =>
      var c := Command(NextTicket(r.log), text, user);
      State(Record(r, Submitted(c)), s.inHand + [Pending(c)])
    case Pop => if r.queue == [] then s else State(r.(queue := r.queue[1..]), s.inHand + [Pending(r.queue[0])])
    case Ask(i, session) =>
      if i < |s.inHand| && s.inHand[i].Pending? && ProperSession(r, session) then AskFor(s, i, session, env, t) else s
    case Finish(i) => if i < |s.inHand| then End(s, i, env) else s
    case Take(holder, kind) => s.(rack := Acquire(r, holder, kind, env.now, t).0)
    case Prolong(seconds) => s.(rack := Extend(r, seconds, env.now))
    case Free => if Held(r) then s.(rack := Unlock(r, Released(env.now))) else s
    case Sweep => s.(rack := SweepClear(r, env.now))
  }

  function Run(s: State, steps: seq<Move>, t: Timeouts): State {
    if steps == [] then s else Do(Run(s, steps[..|steps| - 1], t), steps[|steps| - 1], t)
  }

  // ---- Invariant --------------------------------------------------------------------

  predicate Lawful(initial: Option<Row>, s: State) {
    InvWith(initial, s.rack, multiset(Commands(s.inHand)))
  }

  lemma RemoveOne(flights: seq<Flight>, i: nat)
    requires i < |flights|
    ensures multiset(Commands(flights)) == multiset{flights[i].cmd} + multiset(Commands(Remove(flights, i)))
  {
    var c := Commands(flights);
    assert c == c[..i] + [c[i]] + c[i + 1..];
    assert Commands(Remove(flights, i)) == c[..i] + c[i + 1..];
  }

  lemma FailKeeps(initial: Option<Row>, s: State, i: nat)
    requires Lawful(initial, s) && i < |s.inHand|
    ensures Lawful(initial, Fail(s, i))
  {
    hide InvWith;
    RemoveOne(s.inHand, i);
    RecordKeeps(initial, s.rack, Failed(s.inHand[i].cmd), multiset(Commands(Remove(s.inHand, i))));
  }

  lemma AskKeeps(initial: Option<Row>, s: State, i: nat, session: Session, env: Env, t: Timeouts)
    requires Lawful(initial, s) && i < |s.inHand| && ProperSession(s.rack, session)
    ensures Lawful(initial, AskFor(s, i, session, env, t))
  {
    hide InvWith, Blocks, FirstToken;
    var c := s.inHand[i].cmd;
    var hand := multiset(Commands(s.inHand));
    FailKeeps(initial, s, i);
    DiscardKeeps(initial, s.rack, hand);
    assert Commands(s.inHand[i := Stopping(c)]) == Commands(s.inHand);
    assert Commands(s.inHand[i := Refused(c)]) == Commands(s.inHand);
    assert Commands(s.inHand[i := Admitted(c)]) == Commands(s.inHand);
    if session.writable && s.rack.row.Some? && !Blocks(s.rack.row.value, env.now) && FirstToken(c.text).Some? {
      GrantKeeps(initial, s.rack, HolderFor(c.user), LockTypeFor(FirstToken(c.text).value), env.now, t, hand);
    }
  }

  lemma EndKeeps(initial: Option<Row>, s: State, i: nat, env: Env)
    requires Lawful(initial, s) && i < |s.inHand|
    ensures Lawful(initial, End(s, i, env))
  {
    hide InvWith, Commands;
    var c := s.inHand[i].cmd;
    FailKeeps(initial, s, i);
    RemoveOne(s.inHand, i);
    var others := multiset(Commands(Remove(s.inHand, i)));
    if s.inHand[i].Refused? {
      QueueingKeeps(initial, s.rack, c, others);
    } else {
      RecordKeeps(initial, s.rack, Published(c), others);
    }
  }

  lemma QueueingKeeps(initial: Option<Row>, r: Rack, c: Command, pending: multiset<Command>)
    requires InvWith(initial, r, multiset{c} + pending)
    ensures InvWith(initial, r.(queue := r.queue + [c]), pending)
  {
    hide Accepted, Settled, Replay, LegalLocks;
    assert multiset(r.queue + [c]) == multiset(r.queue) + multiset{c};
  }

  lemma ArriveKeeps(initial: Option<Row>, s: State, text: string, user: Option<string>, env: Env, t: Timeouts)
    requires Lawful(initial, s)
    ensures Lawful(initial, Do(s, Move(Arrive(text, user), env), t))
  {
    hide InvWith;
    var c := Command(NextTicket(s.rack.log), text, user);
    SubmittedKeeps(initial, s.rack, text, user, multiset(Commands(s.inHand)));
    assert Commands(s.inHand + [Pending(c)]) == Commands(s.inHand) + [c];
  }

  lemma PopKeeps(initial: Option<Row>, s: State, env: Env, t: Timeouts)
    requires Lawful(initial, s)
    ensures Lawful(initial, Do(s, Move(Pop, env), t))
  {
    if s.rack.queue != [] {
      MultisetHead(s.rack.queue);
      assert Commands(s.inHand + [Pending(s.rack.queue[0])]) == Commands(s.inHand) + [s.rack.queue[0]];
    }
  }

  lemma StepKeepsLaw(initial: Option<Row>, s: State, step: Move, t: Timeouts)
    requires Lawful(initial, s)
    ensures Lawful(initial, Do(s, step, t))
  {
    var hand, now := multiset(Commands(s.inHand)), step.env.now;
    var r := s.rack;
    hide InvWith, AskFor, End, Blocks;
    match step.event
    case Arrive(text, user) => ArriveKeeps(initial, s, text, user, step.env, t);
    case Pop => PopKeeps(initial, s, step.env, t);
    case Ask(i, session) =>
      if i < |s.inHand| && ProperSession(r, session) {
        AskKeeps(initial, s, i, session, step.env, t);
      }
    case Finish(i) =>
      if i < |s.inHand| {
        EndKeeps(initial, s, i, step.env);
      }
    case Take(holder, kind) =>
      if r.row.Some? && !Blocks(r.row.value, now) {
        GrantKeeps(initial, r, holder, kind, now, t, hand);
      }
    case Prolong(seconds) => ExtendKeeps(initial, r, seconds, now, hand);
    case Free =>
      if Held(r) {
        UnlockKeeps(initial, r, Released(now), hand);
      }
    case Sweep =>
      if r.row.Some? && Sweepable(r.row.value, now) {
        UnlockKeeps(initial, r, Swept(now), hand);
      }
  }

  lemma {:induction false} RunKeepsLaw(initial: Option<Row>, s: State, steps: seq<Move>, t: Timeouts)
    requires Lawful(initial, s)
    ensures Lawful(initial, Run(s, steps, t))
  {
    hide Do, Lawful;
    if steps != [] {
      RunKeepsLaw(initial, s, steps[..|steps| - 1], t);
      StepKeepsLaw(initial, Run(s, steps[..|steps| - 1], t), steps[|steps| - 1], t);
    }
  }

  lemma StartsLawful(r: Rack)
    requires Start(r)
    ensures Lawful(r.row, State(r, []))
  {
    assert Commands([]) == [];
  }

  /** Through every interleaving each submitted command is in exactly one place, once: in hand,
      waiting, published, discarded or failed. */
  lemma ConservedInFlight(r: Rack, steps: seq<Move>, t: Timeouts, c: Command)
    requires Start(r)
    ensures var end := Run(State(r, []), steps, t);
      Places(end.rack, c) + multiset(Commands(end.inHand))[c] == if c in Accepted(end.rack.log) then 1 else 0
  {
    StartsLawful(r);
    RunKeepsLaw(r.row, State(r, []), steps, t);
    OnePlace(r.row, Run(State(r, []), steps, t), c);
  }

  lemma OnePlace(initial: Option<Row>, s: State, c: Command)
    requires Lawful(initial, s)
    ensures Places(s.rack, c) + multiset(Commands(s.inHand))[c] == if c in Accepted(s.rack.log) then 1 else 0
  {
    hide Replay, LegalLocks, Commands, Fated;
    SettledIsFated(s.rack.log);
    DistinctOnce(Accepted(s.rack.log), c);
    assert multiset(Accepted(s.rack.log))[c]
      == (Settled(s.rack.log) + multiset(s.rack.queue) + multiset(Commands(s.inHand)))[c];
  }

  // ---- First in, first out ----------------------------------------------------------

  /** A command is published while an earlier one waits or is in hand. */
  ghost predicate PassesEarlier(s: State, step: Move) {
    && step.event.Finish? && step.env.publishOk && step.event.i < |s.inHand|
    && (s.inHand[step.event.i].Admitted? || s.inHand[step.event.i].Stopping?)
    && EarlierUnsettled(s, s.inHand[step.event.i].cmd)
  }

  ghost predicate EarlierUnsettled(s: State, c: Command) {
    exists d: Command :: (d in s.rack.queue || d in Commands(s.inHand)) && d.ticket < c.ticket
  }

  lemma UnsettledIff(initial: Option<Row>, s: State, d: Command)
    requires Lawful(initial, s)
    ensures d in Accepted(s.rack.log) && Settled(s.rack.log)[d] == 0 <==> d in s.rack.queue || d in Commands(s.inHand)
  {
    OnePlace(initial, s, d);
    SettledIsFated(s.rack.log);
    hide Lawful, Fated, Commands, Accepted;
    assert multiset(s.rack.queue)[d] > 0 <==> d in s.rack.queue;
    assert multiset(Commands(s.inHand))[d] > 0 <==> d in Commands(s.inHand);
  }

  lemma HasTurnIff(initial: Option<Row>, s: State, c: Command)
    requires Lawful(initial, s)
    ensures HasTurn(s.rack.log, c) <==> !EarlierUnsettled(s, c)
  {
    hide Lawful, Accepted, Settled, Commands;
    forall d: Command | d.ticket < c.ticket
      ensures d in Accepted(s.rack.log) && Settled(s.rack.log)[d] == 0 <==> d in s.rack.queue || d in Commands(s.inHand)
    {
      UnsettledIff(initial, s, d);
    }
  }

  /** Only the end of a command in hand publishes. */
  lemma PublishesOnlyAtEnd(s: State, step: Move, t: Timeouts)
    ensures var log, later := s.rack.log, Do(s, step, t).rack.log;
      if step.event.Finish? && step.env.publishOk && step.event.i < |s.inHand|
         && (s.inHand[step.event.i].Admitted? || s.inHand[step.event.i].Stopping?)
      then later == log + [Published(s.inHand[step.event.i].cmd)]
      else log <= later && forall k :: |log| <= k < |later| ==> !later[k].Published?
  {
    hide FirstToken, Blocks;
  }

  lemma StepTurnInFlight(initial: Option<Row>, s: State, step: Move, t: Timeouts)
    requires Lawful(initial, s)
    ensures InTurn(Do(s, step, t).rack.log) <==> InTurn(s.rack.log) && !PassesEarlier(s, step)
  {
    hide Lawful, Do, HasTurn;
    PublishesOnlyAtEnd(s, step, t);
    var log, later := s.rack.log, Do(s, step, t).rack.log;
    if step.event.Finish? && step.env.publishOk && step.event.i < |s.inHand|
       && (s.inHand[step.event.i].Admitted? || s.inHand[step.event.i].Stopping?) {
      var c := s.inHand[step.event.i].cmd;
      Appended(log, Published(c));
      HasTurnIff(initial, s, c);
    } else {
      assert later == log + later[|log|..];
      SilentKeepsTurn(log, later[|log|..]);
    }
  }

  ghost predicate NobodyPassed(s: State, steps: seq<Move>, t: Timeouts) {
    steps == []
    || (NobodyPassed(s, steps[..|steps| - 1], t) && !PassesEarlier(Run(s, steps[..|steps| - 1], t), steps[|steps| - 1]))
  }

  /** Through every interleaving of any number of submissions and dispatches in flight: every command
      is published after all those submitted before it were settled iff none is published while an
      earlier one waits or is in hand. */
  lemma {:induction false} FirstInFirstOutInFlightIff(r: Rack, steps: seq<Move>, t: Timeouts)
    requires Start(r)
    ensures InTurn(Run(State(r, []), steps, t).rack.log) <==> NobodyPassed(State(r, []), steps, t)
  {
    hide Do, PassesEarlier, Lawful;
    if steps != [] {
      var front := steps[..|steps| - 1];
      FirstInFirstOutInFlightIff(r, front, t);
      StartsLawful(r);
      RunKeepsLaw(r.row, State(r, []), front, t);
      StepTurnInFlight(r.row, Run(State(r, []), front, t), steps[|steps| - 1], t);
    }
  }

  // ---- Emergency stops --------------------------------------------------------------

  lemma StepLogGrows(s: State, step: Move, t: Timeouts)
    ensures s.rack.log <= Do(s, step, t).rack.log
  {
    hide FirstToken, Blocks;
  }

  lemma {:induction false} LogGrows(s: State, steps: seq<Move>, t: Timeouts)
    ensures s.rack.log <= Run(s, steps, t).rack.log
  {
    hide Do;
    if steps != [] {
      LogGrows(s, steps[..|steps| - 1], t);
      StepLogGrows(Run(s, steps[..|steps| - 1], t), steps[|steps| - 1], t);
    }
  }

  /** What is settled stays as it is. */
  lemma SettledStays(initial: Option<Row>, s: State, steps: seq<Move>, t: Timeouts, c: Command)
    requires Lawful(initial, s) && Settled(s.rack.log)[c] > 0
    ensures var end := Run(s, steps, t);
      && Fated(end.rack.log, IsPublished)[c] == Fated(s.rack.log, IsPublished)[c]
      && Fated(end.rack.log, IsDiscarded)[c] == Fated(s.rack.log, IsDiscarded)[c]
  {
    hide Lawful, Run, Commands, Accepted, Fated, Settled;
    var end := Run(s, steps, t);
    LogGrows(s, steps, t);
    RunKeepsLaw(initial, s, steps, t);
    OnePlace(initial, s, c);
    OnePlace(initial, end, c);
    var more := end.rack.log[|s.rack.log|..];
    assert end.rack.log == s.rack.log + more;
    FatedGrows(s.rack.log, more, IsPublished);
    FatedGrows(s.rack.log, more, IsDiscarded);
    FatedGrows(s.rack.log, more, IsFailed);
    SettledIsFated(s.rack.log);
  }

  /** The clear of an e-stop: what waits then is discarded and never published, through every
      interleaving; and of all that was submitted before, only commands in hand at that moment can
      be published later. */
  lemma StopSparesOnlyCommandsInHand(r: Rack, before: seq<Move>, clear: Move, after: seq<Move>, t: Timeouts, c: Command)
    requires Start(r)
    requires var s := Run(State(r, []), before, t);
      && clear.event.Ask? && clear.event.i < |s.inHand| && s.inHand[clear.event.i].Pending?
      && ProperSession(s.rack, clear.event.session)
      && FirstToken(s.inHand[clear.event.i].cmd.text) == Some("!")
    requires c in Accepted(Run(State(r, []), before, t).rack.log)
    ensures var s := Run(State(r, []), before, t);
      var end := Run(Do(s, clear, t), after, t);
      && (c in s.rack.queue ==>
            Fated(end.rack.log, IsDiscarded)[c] == 1 && Fated(end.rack.log, IsPublished)[c] == 0)
      && (Fated(end.rack.log, IsPublished)[c] != Fated(s.rack.log, IsPublished)[c] ==> c in Commands(s.inHand))
  {
    var s := Run(State(r, []), before, t);
    StartsLawful(r);
    RunKeepsLaw(r.row, State(r, []), before, t);
    StepKeepsLaw(r.row, s, clear, t);
    hide Run, Accepted, FirstToken, ProperSession;
    var cleared := Do(s, clear, t);
    assert cleared.rack == DiscardQueue(s.rack);
    ClearSettles(r.row, s, cleared, c);
    hide Do, Lawful;
    if c !in Commands(s.inHand) {
      SettledStays(r.row, cleared, after, t, c);
    }
    if c in s.rack.queue {
      SettledStays(r.row, cleared, after, t, c);
    }
  }

  lemma ClearSettles(initial: Option<Row>, s: State, cleared: State, c: Command)
    requires Lawful(initial, s) && Lawful(initial, cleared) && cleared.rack == DiscardQueue(s.rack)
    requires c in Accepted(s.rack.log)
    ensures Fated(cleared.rack.log, IsPublished)[c] == Fated(s.rack.log, IsPublished)[c]
    ensures c in s.rack.queue ==>
      Fated(cleared.rack.log, IsDiscarded)[c] == 1 && Fated(cleared.rack.log, IsPublished)[c] == 0
    ensures c in s.rack.queue || c !in Commands(s.inHand) ==> Settled(cleared.rack.log)[c] > 0
  {
    hide Lawful, Commands, Accepted, Fated, Settled, Discards;
    OnePlace(initial, s, c);
    OnePlace(initial, cleared, c);
    UnsettledIff(initial, s, c);
    DiscardsPublishNothing(s.rack.log, s.rack.queue);
    SettledIsFated(cleared.rack.log);
    SettledIsFated(s.rack.log);
    if c in s.rack.queue {
      DiscardsFated(s.rack.log, s.rack.queue, c);
      assert multiset(s.rack.queue)[c] >= 1;
    } else {
      FatedGrows(s.rack.log, Discards(s.rack.queue), IsDiscarded);
      FatedGrows(s.rack.log, Discards(s.rack.queue), IsFailed);
    }
  }

  lemma {:induction false} DiscardsPublishNothing(log: seq<Entry>, q: seq<Command>)
    ensures Fated(log + Discards(q), IsPublished) == Fated(log, IsPublished)
  {
    if q == [] {
      assert log + Discards(q) == log;
    } else {
      var n := |q| - 1;
      DiscardsPublishNothing(log, q[..n]);
      assert Front(log + Discards(q)) == log + Discards(q[..n]);
    }
  }

  /** It does happen: a command that holds its lock is published after the stop. */
  lemma AdmittedFollowsStop(r: Rack, c: Command, stop: Command, env: Env, t: Timeouts)
    requires env.publishOk
    ensures var s := State(r, [Admitted(c), Stopping(stop)]);
      Run(s, [Move(Finish(1), env), Move(Finish(0), env)], t)
        == State(r.(log := r.log + [Published(stop)] + [Published(c)]), [])
  {
    var s := State(r, [Admitted(c), Stopping(stop)]);
    var one, two := [Move(Finish(1), env)], [Move(Finish(1), env), Move(Finish(0), env)];
    assert two[..1] == one && one[..0] == [];
    assert Run(s, [], t) == s;
    assert Remove(s.inHand, 1) == [Admitted(c)];
    assert Run(s, one, t) == State(Record(r, Published(stop)), [Admitted(c)]);
    assert Remove([Admitted(c)], 0) == [];
  }

  // ---- Without interruption ---------------------------------------------------------

  lemma AskThenFinish(r: Rack, hand: seq<Flight>, c: Command, session: Session, env: Env, t: Timeouts)
    requires ProperSession(r, session)
    ensures var s := State(r, hand + [Pending(c)]);
      var n := |hand|;
      Do(Do(s, Move(Ask(n, session), env), t), Move(Finish(n), env), t) == State(Submit(r, c, session, env, t), hand)
  {
    hide FirstToken, Blocks, Discards;
    var n := |hand|;
    assert Remove(hand + [Pending(c)], n) == hand;
    assert (hand + [Pending(c)])[n := Refused(c)] == hand + [Refused(c)] && Remove(hand + [Refused(c)], n) == hand;
    assert (hand + [Pending(c)])[n := Admitted(c)] == hand + [Admitted(c)] && Remove(hand + [Admitted(c)], n) == hand;
    assert (hand + [Pending(c)])[n := Stopping(c)] == hand + [Stopping(c)] && Remove(hand + [Stopping(c)], n) == hand;
  }

  /** A submission, or a dispatch, that nothing interrupts is the single step of the protocol,
      whatever else is in hand. */
  lemma UninterruptedIsAtomic(r: Rack, hand: seq<Flight>, text: string, user: Option<string>, session: Session,
    env: Env, t: Timeouts)
    ensures var n := |hand|;
      var ask := Move(Ask(n, Session(r.row, true)), env);
      Run(State(r, hand), [Move(Arrive(text, user), env), ask, Move(Finish(n), env)], t)
        == State(SubmitNew(r, text, user, env, t), hand)
    ensures r.queue != [] && ProperSession(r, session) ==>
      var n := |hand|;
      Run(State(r, hand), [Move(Pop, env), Move(Ask(n, session), env), Move(Finish(n), env)], t)
        == State(Dispatch(r, session, env, t), hand)
  {
    hide Submit, AskFor, End;
    var n := |hand|;
    var c := Command(NextTicket(r.log), text, user);
    var arrived := State(Record(r, Submitted(c)), hand + [Pending(c)]);
    var ask := Move(Ask(n, Session(r.row, true)), env);
    ThreeSteps(State(r, hand), Move(Arrive(text, user), env), ask, Move(Finish(n), env), t);
    AskThenFinish(arrived.rack, hand, c, Session(r.row, true), env, t);
    if r.queue != [] && ProperSession(r, session) {
      var popped := r.(queue := r.queue[1..]);
      ThreeSteps(State(r, hand), Move(Pop, env), Move(Ask(n, session), env), Move(Finish(n), env), t);
      AskThenFinish(popped, hand, r.queue[0], session, env, t);
    }
  }

  lemma ThreeSteps(s: State, a: Move, b: Move, c: Move, t: Timeouts)
    ensures Run(s, [a, b, c], t) == Do(Do(Do(s, a, t), b, t), c, t)
  {
    hide Do;
    assert [a, b, c][..2] == [a, b] && [a, b][..1] == [a] && [a][..0] == [];
    assert Run(s, [], t) == s;
    assert Run(s, [a], t) == Do(s, a, t);
    assert Run(s, [a, b], t) == Do(Do(s, a, t), b, t);
  }
}
