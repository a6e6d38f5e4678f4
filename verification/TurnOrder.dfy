/** First in, first out over all submitted commands, whether they ever waited or not: which steps
    break it, and exactly which runs keep it. */
module TurnOrder {
  import opened Prelude
  import opened RackProtocol
  import opened RackInvariants
  import opened RackSafety
  import opened QueueOrder

  /** Every command was published in its turn: after all those submitted before it were settled. */
  ghost predicate InTurn(log: seq<Entry>) {
    log == []
    || (InTurn(Front(log)) && (Last(log).Published? ==> HasTurn(Front(log), Last(log).cmd)))
  }

  ghost predicate HasTurn(log: seq<Entry>, c: Command) {
    forall d :: d in Accepted(log) && d.ticket < c.ticket ==> Settled(log)[d] > 0
  }

  /** A submission that finds commands waiting but no lock in force is published before them. */
  predicate CutsIn(r: Rack, s: Step) {
    && s.event.SubmitEvent? && Ordinary(Command(0, s.event.text, s.event.user))
    && r.queue != [] && s.env.dbOk && s.env.publishOk
    && r.row.Some? && !Blocks(r.row.value, s.env.now)
  }

  /** A dispatch publishes the head of a queue that an earlier command stands behind. */
  predicate SkipsEarlier(r: Rack, s: Step) {
    && r.queue != [] && s.env.dbOk && s.env.publishOk
    && (exists j :: 0 < j < |r.queue| && r.queue[j].ticket < r.queue[0].ticket)
    && var session := DispatchSession(r, s);
       session.Some? && session.value.writable && session.value.row.Some? && !Blocks(session.value.row.value, s.env.now)
  }

  /** What a submission does to commands that wait: it overtakes them all iff the lock is not in
      force, at or past its expiry or absent; otherwise it joins them. */
  lemma SubmissionOvertakesIff(r: Rack, text: string, user: Option<string>, env: Env, t: Timeouts)
    requires r.queue != [] && r.row.Some? && env.dbOk && env.publishOk
    requires Ordinary(Command(NextTicket(r.log), text, user))
    ensures var end := SubmitNew(r, text, user, env, t);
      var c := Command(NextTicket(r.log), text, user);
      if Blocks(r.row.value, env.now)
      then end.queue == r.queue + [c] && end.log == r.log + [Submitted(c)]
      else end.queue == r.queue && end.log != [] && Last(end.log) == Published(c)
  {
  }

  // ---- One step ---------------------------------------------------------------------

  lemma QueueNumbered(initial: Option<Row>, r: Rack, i: nat)
    requires Inv(initial, r) && i < |r.queue|
    ensures r.queue[i] in Accepted(r.log) && r.queue[i].ticket < NextTicket(r.log)
  {
    var c := r.queue[i];
    InvPlaces(initial, r, c);
    assert multiset(r.queue)[c] >= 1;
    var k :| 0 <= k < |Accepted(r.log)| && Accepted(r.log)[k] == c;
  }

  /** Entries after `log` of which at most the last is a publication. */
  ghost predicate PublishesAtEnd(log: seq<Entry>, later: seq<Entry>) {
    log <= later && forall i :: |log| <= i < |later| - 1 ==> !later[i].Published?
  }

  /** An ordinary command put through `submit`: it is published iff it finds a free lock that it
      can take, and a broker. */
  lemma SubmitPublishes(r: Rack, c: Command, session: Session, env: Env, t: Timeouts)
    requires Ordinary(c)
    ensures var end := Submit(r, c, session, env, t);
      && PublishesAtEnd(r.log, end.log)
      && (|end.log| > |r.log| && Last(end.log).Published? <==>
            env.dbOk && env.publishOk && session.writable && session.row.Some? && !Blocks(session.row.value, env.now))
      && (|end.log| > |r.log| && Last(end.log).Published? ==> Last(end.log).cmd == c && end.queue == r.queue)
      && (end.log == r.log || !Last(end.log).Submitted?)
  {
  }

  lemma DispatchPublishes(r: Rack, session: Session, env: Env, t: Timeouts)
    requires r.queue != [] ==> Ordinary(r.queue[0])
    ensures var end := Dispatch(r, session, env, t);
      && PublishesAtEnd(r.log, end.log)
      && (|end.log| > |r.log| && Last(end.log).Published? <==>
            r.queue != [] && env.dbOk && env.publishOk && session.writable
            && session.row.Some? && !Blocks(session.row.value, env.now))
      && (|end.log| > |r.log| && Last(end.log).Published? ==>
            Last(end.log).cmd == r.queue[0] && end.queue == r.queue[1..])
  {
    hide Submit, Ordinary, Blocks;
    if r.queue != [] {
      SubmitPublishes(r.(queue := r.queue[1..]), r.queue[0], session, env, t);
    }
  }

  /** The step published a command, and an earlier one still waits. */
  ghost predicate OutOfTurn(r: Rack, end: Rack) {
    |end.log| > |r.log| && Last(end.log).Published? && exists d :: d in end.queue && d.ticket < Last(end.log).cmd.ticket
  }

  /** A submission publishes out of turn iff it cuts in. */
  lemma SubmitOutOfTurn(initial: Option<Row>, r: Rack, s: Step, t: Timeouts)
    requires Inv(initial, r) && s.event.SubmitEvent?
    ensures OutOfTurn(r, Do(r, s, t)) <==> CutsIn(r, s)
    ensures PublishesAtEnd(r.log, Do(r, s, t).log)
  {
    hide Inv, Submit, Blocks, Discards, FirstToken;
    var c := Command(NextTicket(r.log), s.event.text, s.event.user);
    var u := Record(r, Submitted(c));
    var end := Do(r, s, t);
    if Ordinary(c) {
      SubmitPublishes(u, c, Session(r.row, true), s.env, t);
      if r.queue != [] {
        QueueNumbered(initial, r, 0);
      }
    } else {
      ExtraordinarySubmit(u, c, s.env, t);
    }
  }

  /** An e-stop empties the queue before it is published; a blank text is never published. */
  lemma ExtraordinarySubmit(r: Rack, c: Command, env: Env, t: Timeouts)
    requires !Ordinary(c)
    ensures var end := Submit(r, c, Session(r.row, true), env, t);
      && PublishesAtEnd(r.log, end.log) && |end.log| > |r.log|
      && (Last(end.log).Published? ==> end.queue == [])
  {
    hide FirstToken;
  }

  lemma DispatchOutOfTurn(r: Rack, s: Step, t: Timeouts)
    requires AllOrdinary(r) && DispatchSession(r, s).Some?
    ensures OutOfTurn(r, Do(r, s, t)) <==> SkipsEarlier(r, s)
    ensures PublishesAtEnd(r.log, Do(r, s, t).log)
  {
    hide Dispatch, Ordinary;
    var session := DispatchSession(r, s).value;
    var u := if s.event.FireEvent? then r else Unlock(r, Released(s.env.now));
    assert Do(r, s, t) == Dispatch(u, session, s.env, t);
    DispatchPublishes(u, session, s.env, t);
    assert r.log <= u.log;
    assert forall j :: 0 < j < |r.queue| ==> r.queue[j] == r.queue[1..][j - 1];
  }

  lemma OtherStepsDoNotPublish(r: Rack, s: Step, t: Timeouts)
    requires !s.event.SubmitEvent? && DispatchSession(r, s).None?
    ensures PublishesAtEnd(r.log, Do(r, s, t).log)
    ensures !OutOfTurn(r, Do(r, s, t)) && !CutsIn(r, s) && !SkipsEarlier(r, s)
  {
    hide Submit, Dispatch;
  }

  lemma {:induction false} SilentKeepsTurn(log: seq<Entry>, more: seq<Entry>)
    requires forall i :: 0 <= i < |more| ==> !more[i].Published?
    ensures InTurn(log + more) <==> InTurn(log)
  {
    if more == [] {
      assert log + more == log;
    } else {
      SilentKeepsTurn(log, Front(more));
      assert Front(log + more) == log + Front(more);
    }
  }

  lemma WaitsIffUnsettled(initial: Option<Row>, r: Rack, d: Command)
    requires Inv(initial, r) && r.log != [] && Last(r.log).Published? && Last(r.log).cmd != d
    ensures d in Accepted(Front(r.log)) && Settled(Front(r.log))[d] == 0 <==> d in r.queue
  {
    hide Inv, LegalLocks, Replay;
    InvPlaces(initial, r, d);
    SettledIsFated(r.log);
    hide Fated;
    assert Accepted(Front(r.log)) == Accepted(r.log);
    assert Settled(Front(r.log))[d] == Settled(r.log)[d];
    assert multiset(r.queue)[d] > 0 <==> d in r.queue;
  }

  /** What was published last had its turn iff no earlier command waits. */
  lemma LastHasTurnIff(initial: Option<Row>, r: Rack)
    requires Inv(initial, r) && r.log != [] && Last(r.log).Published?
    ensures HasTurn(Front(r.log), Last(r.log).cmd) <==> !exists d :: d in r.queue && d.ticket < Last(r.log).cmd.ticket
  {
    hide Inv, Accepted, Settled;
    var c := Last(r.log).cmd;
    forall d: Command | d.ticket < c.ticket
      ensures d in Accepted(Front(r.log)) && Settled(Front(r.log))[d] == 0 <==> d in r.queue
    {
      WaitsIffUnsettled(initial, r, d);
    }
  }

  lemma StepTurn(initial: Option<Row>, r: Rack, s: Step, t: Timeouts)
    requires Inv(initial, r) && AllOrdinary(r)
    ensures InTurn(Do(r, s, t).log) <==> InTurn(r.log) && !CutsIn(r, s) && !SkipsEarlier(r, s)
  {
    hide Do, Inv, CutsIn, SkipsEarlier, HasTurn, DispatchSession, AllOrdinary;
    StepKeeps(initial, r, s, t);
    var end := Do(r, s, t);
    if s.event.SubmitEvent? {
      SubmitOutOfTurn(initial, r, s, t);
      NoDispatchInSubmit(r, s);
    } else if DispatchSession(r, s).Some? {
      DispatchOutOfTurn(r, s, t);
      NoSubmitInDispatch(r, s);
    } else {
      OtherStepsDoNotPublish(r, s, t);
    }
    if |end.log| == |r.log| {
      assert end.log == r.log;
    } else {
      var more := Front(end.log)[|r.log|..];
      assert Front(end.log) == r.log + more;
      SilentKeepsTurn(r.log, more);
      if Last(end.log).Published? {
        LastHasTurnIff(initial, end);
      }
    }
  }

  lemma NoDispatchInSubmit(r: Rack, s: Step)
    requires s.event.SubmitEvent?
    ensures !SkipsEarlier(r, s)
  {
  }

  lemma NoSubmitInDispatch(r: Rack, s: Step)
    requires !s.event.SubmitEvent?
    ensures !CutsIn(r, s)
  {
  }

  // ---- Runs -------------------------------------------------------------------------

  predicate NobodyCutsIn(r: Rack, steps: seq<Step>, t: Timeouts)
    decreases |steps|
  {
    steps == [] || (!CutsIn(r, steps[0]) && NobodyCutsIn(Do(r, steps[0], t), steps[1..], t))
  }

  predicate NobodySkipped(r: Rack, steps: seq<Step>, t: Timeouts)
    decreases |steps|
  {
    steps == [] || (!SkipsEarlier(r, steps[0]) && NobodySkipped(Do(r, steps[0], t), steps[1..], t))
  }

  lemma {:induction false} TurnsOverRuns(initial: Option<Row>, r: Rack, steps: seq<Step>, t: Timeouts)
    requires Inv(initial, r) && AllOrdinary(r)
    ensures InTurn(Run(r, steps, t).log) <==>
      InTurn(r.log) && NobodyCutsIn(r, steps, t) && NobodySkipped(r, steps, t)
    decreases |steps|
  {
    hide Do, Inv, AllOrdinary, CutsIn, SkipsEarlier, InTurn;
    if steps != [] {
      StepTurn(initial, r, steps[0], t);
      StepKeeps(initial, r, steps[0], t);
      QueueAfter(r, steps[0], t);
      OrdinaryAfter(r, steps[0], t);
      TurnsOverRuns(initial, Do(r, steps[0], t), steps[1..], t);
    }
  }

  lemma OrdinaryAfter(r: Rack, s: Step, t: Timeouts)
    requires AllOrdinary(r)
    ensures AllOrdinary(Do(r, s, t))
  {
    OrdinaryOverRuns(r, [s], t);
    assert [s][1..] == [];
  }

  /** Over all runs from the start of the server: every command is published after all those
      submitted before it were settled, iff no submission came while commands waited without a
      lock in force, and no dispatch published a head with an earlier command behind it. */
  lemma FirstInFirstOutIff(r: Rack, steps: seq<Step>, t: Timeouts)
    requires Start(r)
    ensures InTurn(Run(r, steps, t).log) <==> NobodyCutsIn(r, steps, t) && NobodySkipped(r, steps, t)
  {
    StartKeeps(r);
    TurnsOverRuns(r.row, r, steps, t);
  }

  lemma {:induction false} OrderedQueuesAreNotSkipped(r: Rack, steps: seq<Step>, t: Timeouts)
    requires AllOrdinary(r) && InOrder(r) && Undisturbed(r, steps, t)
    ensures NobodySkipped(r, steps, t)
    decreases |steps|
  {
    hide Do, Rotates, AllOrdinary, DispatchSession;
    if steps != [] {
      OrderKeptExactly(r, steps[0], t);
      OrderedQueuesAreNotSkipped(Do(r, steps[0], t), steps[1..], t);
    }
  }

  /** With sweeps that fire right after their commit, and releases that are seen, only a
      submission can break it: first in, first out holds iff none came while commands waited
      without a lock in force, that is between the expiry of a lock and its sweep, or behind
      no lock at all. */
  lemma FirstInFirstOut(r: Rack, steps: seq<Step>, t: Timeouts)
    requires Start(r) && AtomicSweeps(r, steps, t)
    ensures InTurn(Run(r, steps, t).log) <==> NobodyCutsIn(r, steps, t)
  {
    FirstInFirstOutIff(r, steps, t);
    AtomicSweepsUndisturbed(r, steps, t);
    OrderedQueuesAreNotSkipped(r, steps, t);
  }
}
