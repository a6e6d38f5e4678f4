/** What the invariants of `RackInvariants` mean for commands, e-stops and the mirror. */
module RackSafety {
  import opened Prelude
  import opened RackProtocol
  import opened Text
  import opened RackInvariants

  datatype Fate = IsPublished | IsDiscarded | IsFailed

  /** The commands that met the given fate, with multiplicity. */
  function Fated(log: seq<Entry>, fate: Fate): multiset<Command> {
    if log == [] then multiset{}
    else Fated(Front(log), fate) + FatedBy(Last(log), fate)
  }

  function FatedBy(e: Entry, fate: Fate): multiset<Command> {
    if e.Published? && fate.IsPublished? then multiset{e.cmd}
    else if e.Discarded? && fate.IsDiscarded? then multiset{e.cmd}
    else if e.Failed? && fate.IsFailed? then multiset{e.cmd}
    else multiset{}
  }

  lemma {:induction false} SettledIsFated(log: seq<Entry>)
    ensures Settled(log) == Fated(log, IsPublished) + Fated(log, IsDiscarded) + Fated(log, IsFailed)
  {
    if log != [] {
      SettledIsFated(Front(log));
    }
  }

  lemma {:induction false} FatedGrows(log: seq<Entry>, more: seq<Entry>, fate: Fate)
    ensures Fated(log, fate) <= Fated(log + more, fate)
  {
    if more == [] {
      assert log + more == log;
    } else {
      FatedGrows(log, Front(more), fate);
      assert Front(log + more) == log + Front(more);
    }
  }

  /** How often a command occurs in a queue and under each fate. */
  function Places(r: Rack, c: Command): nat {
    multiset(r.queue)[c]
    + Fated(r.log, IsPublished)[c] + Fated(r.log, IsDiscarded)[c] + Fated(r.log, IsFailed)[c]
  }

  lemma {:induction false} DistinctOnce(s: seq<Command>, c: Command)
    requires forall i, j :: 0 <= i < j < |s| ==> s[i] != s[j]
    ensures multiset(s)[c] == if c in s then 1 else 0
  {
    if s != [] {
      MultisetHead(s);
      DistinctOnce(s[1..], c);
      assert s[0] !in s[1..];
    }
  }

  lemma InvPlaces(initial: Option<Row>, r: Rack, c: Command)
    requires Inv(initial, r)
    ensures Places(r, c) == if c in Accepted(r.log) then 1 else 0
  {
    SettledIsFated(r.log);
    DistinctOnce(Accepted(r.log), c);
    assert multiset(Accepted(r.log))[c] == (Settled(r.log) + multiset(r.queue))[c];
  }

  // ---- The log only grows, and only submissions add accepted commands ---------------

  /** The commands that the submissions of a run carry, as they are numbered. */
  function Requests(steps: seq<Step>, next: nat): seq<Command> {
    if steps == [] then []
    else match steps[0].event
      case SubmitEvent(text, user) => [Command(next, text, user)] + Requests(steps[1..], next + 1)
      case _ => Requests(steps[1..], next)
  }

  lemma {:induction false} QuietAppend(log: seq<Entry>, more: seq<Entry>)
    requires forall i :: 0 <= i < |more| ==> !more[i].Submitted?
    ensures Accepted(log + more) == Accepted(log) && NextTicket(log + more) == NextTicket(log)
  {
    if more == [] {
      assert log + more == log;
    } else {
      QuietAppend(log, Front(more));
      assert Front(log + more) == log + Front(more);
    }
  }

  /** Entries after `log` that no submission made. */
  ghost predicate Quiet(log: seq<Entry>, later: seq<Entry>) {
    log <= later && forall i :: |log| <= i < |later| ==> !later[i].Submitted?
  }

  lemma QuietAccepts(log: seq<Entry>, later: seq<Entry>)
    requires Quiet(log, later)
    ensures Accepted(later) == Accepted(log) && NextTicket(later) == NextTicket(log)
  {
    assert later == log + later[|log|..];
    QuietAppend(log, later[|log|..]);
  }

  lemma SubmitQuiet(r: Rack, c: Command, s: Session, env: Env, t: Timeouts)
    ensures Quiet(r.log, Submit(r, c, s, env, t).log)
  {
  }

  lemma DispatchQuiet(r: Rack, s: Session, env: Env, t: Timeouts)
    ensures Quiet(r.log, Dispatch(r, s, env, t).log)
  {
    if r.queue != [] {
      SubmitQuiet(r.(queue := r.queue[1..]), r.queue[0], s, env, t);
    }
  }

  lemma ReleaseQuiet(r: Rack, sees: Sees, env: Env, t: Timeouts)
    ensures Quiet(r.log, Release(r, sees, env, t).log)
    ensures Held(r) ==> r.log + [Released(env.now)] <= Release(r, sees, env, t).log
  {
    hide Dispatch;
    if Held(r) {
      var u := Unlock(r, Released(env.now));
      DispatchQuiet(u, if sees.Fresh? then Session(u.row, true) else Session(r.row, false), env, t);
    }
  }

  lemma StepLogs(r: Rack, s: Step, t: Timeouts)
    ensures s.event.SubmitEvent? ==>
      var c := Command(NextTicket(r.log), s.event.text, s.event.user);
      Quiet(r.log + [Submitted(c)], Do(r, s, t).log)
    ensures !s.event.SubmitEvent? ==> Quiet(r.log, Do(r, s, t).log)
  {
    hide Submit, Dispatch, Release;
    match s.event
    case SubmitEvent(text, user) =>
      var c := Command(NextTicket(r.log), text, user);
      SubmitQuiet(Record(r, Submitted(c)), c, Session(r.row, true), s.env, t);
    case ReleaseEvent(sees) => ReleaseQuiet(r, sees, s.env, t);
    case CaptureFinishedEvent(sees) => ReleaseQuiet(r, sees, s.env, t);
    case FireEvent => DispatchQuiet(r, Session(r.row, true), s.env, t);
    case _ =>
  }

  lemma StepAccepts(r: Rack, s: Step, t: Timeouts)
    ensures r.log <= Do(r, s, t).log
    ensures Accepted(Do(r, s, t).log) == Accepted(r.log) + Requests([s], NextTicket(r.log))
    ensures NextTicket(Do(r, s, t).log) == NextTicket(r.log) + if s.event.SubmitEvent? then 1 else 0
  {
    hide Do;
    StepLogs(r, s, t);
    var later := Do(r, s, t).log;
    assert Requests([s][1..], NextTicket(r.log)) == [];
    if s.event.SubmitEvent? {
      var c := Command(NextTicket(r.log), s.event.text, s.event.user);
      Appended(r.log, Submitted(c));
      QuietAccepts(r.log + [Submitted(c)], later);
    } else {
      QuietAccepts(r.log, later);
    }
  }

  lemma {:induction false} RunLogs(r: Rack, steps: seq<Step>, t: Timeouts)
    ensures r.log <= Run(r, steps, t).log
    ensures Accepted(Run(r, steps, t).log) == Accepted(r.log) + Requests(steps, NextTicket(r.log))
    decreases |steps|
  {
    hide Do;
    if steps != [] {
      var next := Do(r, steps[0], t);
      StepAccepts(r, steps[0], t);
      RunLogs(next, steps[1..], t);
    }
  }

  // ---- Conservation -----------------------------------------------------------------

  /** After every run the accepted commands are exactly the submitted ones, in order and
      unaltered, and each is in exactly one place, once: waiting in the queue, published,
      discarded by an e-stop, or failed. Nothing else is in any of these places. */
  lemma CommandsConserved(r: Rack, steps: seq<Step>, t: Timeouts)
    requires Start(r)
    ensures var end := Run(r, steps, t);
      && Accepted(end.log) == Requests(steps, 0)
      && forall c :: Places(end, c) == if c in Requests(steps, 0) then 1 else 0
  {
    var end := Run(r, steps, t);
    ReachableIsLawful(r, steps, t);
    RunLogs(r, steps, t);
    forall c ensures Places(end, c) == if c in Requests(steps, 0) then 1 else 0 {
      InvPlaces(r.row, end, c);
    }
  }

  // ---- Emergency stop ---------------------------------------------------------------

  lemma {:induction false} DiscardsFated(log: seq<Entry>, q: seq<Command>, c: Command)
    requires c in q
    ensures Fated(log + Discards(q), IsDiscarded)[c] >= 1
  {
    var n := |q| - 1;
    assert Front(log + Discards(q)) == log + Discards(q[..n]);
    if q[n] != c {
      DiscardsFated(log, q[..n], c);
    }
  }

  /** A command waiting when an e-stop runs is discarded then, and is never published
      afterwards, whatever else happens and however it interleaves. */
  lemma EmergencyIsFinal(r: Rack, before: seq<Step>, stop: Step, after: seq<Step>, t: Timeouts, c: Command)
    requires Start(r)
    requires stop.event.SubmitEvent? && FirstToken(stop.event.text) == Some("!")
    requires c in Run(r, before, t).queue
    ensures var end := Run(Do(Run(r, before, t), stop, t), after, t);
      && Fated(end.log, IsDiscarded)[c] == 1
      && Fated(end.log, IsPublished)[c] == 0
      && c !in end.queue
  {
    hide Run, Do, Inv, Fated, Accepted;
    var mid := Run(r, before, t);
    var stopped := Do(mid, stop, t);
    var end := Run(stopped, after, t);
    ReachableIsLawful(r, before, t);
    StepKeeps(r.row, mid, stop, t);
    RunKeeps(r.row, stopped, after, t);
    StopDiscards(mid, stop, t, c);
    RunLogs(stopped, after, t);
    assert end.log == stopped.log + end.log[|stopped.log|..];
    FatedGrows(stopped.log, end.log[|stopped.log|..], IsDiscarded);
    InvPlaces(r.row, end, c);
    assert c in end.queue ==> multiset(end.queue)[c] > 0;
  }

  /** The e-stop itself discards what waits. */
  lemma StopDiscards(r: Rack, stop: Step, t: Timeouts, c: Command)
    requires stop.event.SubmitEvent? && FirstToken(stop.event.text) == Some("!") && c in r.queue
    ensures Fated(Do(r, stop, t).log, IsDiscarded)[c] >= 1
  {
    hide Discards, FirstToken, Fated;
    var e := Command(NextTicket(r.log), stop.event.text, stop.event.user);
    var before, last := r.log + [Submitted(e)], if stop.env.publishOk then Published(e) else Failed(e);
    DiscardsFated(before, r.queue, c);
    assert Do(r, stop, t).log == before + Discards(r.queue) + [last];
    FatedGrows(before + Discards(r.queue), [last], IsDiscarded);
  }

  lemma StopToken()
    ensures FirstToken("!") == Some("!")
  {
    assert Tokens("!") == ["!"] by {
      TokensOfWord("!", "");
      assert "!" + "" == "!";
    }
    assert Upper("!") == "!";
  }

  /** The whole e-stop route, undisturbed: the rack ends up unlocked, its queue empty, and the
      only message that went out is the stop itself. */
  lemma EmergencyStopOutcome(r: Rack, user: Option<string>, sees: Sees, env: Env, t: Timeouts)
    requires env.publishOk
    ensures var end := EmergencyStop(r, user, sees, env, t);
      var c := Command(NextTicket(r.log), "!", user);
      && !Held(end) && end.queue == []
      && end.log == r.log + [Submitted(c)] + Discards(r.queue) + [Published(c)]
                    + if Held(r) then [Released(env.now)] else []
  {
    StopToken();
    var e := SubmitNew(r, "!", user, env, t);
    assert e.queue == [];
  }

  /** A command that another caller submits between the two halves of an e-stop is queued
      behind the lock that still stands, and the release of the e-stop dispatches it. */
  lemma EmergencyStopRace(r: Rack, stop: Step, late: Step, release: Step, t: Timeouts)
    requires Held(r) && RowShape(r.row.value)
    requires stop.event.SubmitEvent? && FirstToken(stop.event.text) == Some("!")
    requires late.event.SubmitEvent? && FirstToken(late.event.text).Some? && FirstToken(late.event.text).value != "!"
    requires release.event == ReleaseEvent(Fresh)
    requires late.env.dbOk && release.env.dbOk && release.env.publishOk
    requires Blocks(r.row.value, late.env.now)
    ensures var end := Run(r, [stop, late, release], t);
      && Held(end)
      && end.log != [] && Last(end.log) == Published(Command(NextTicket(r.log) + 1, late.event.text, late.event.user))
  {
    var r1 := Do(r, stop, t);
    var r2 := Do(r1, late, t);
    var r3 := Do(r2, release, t);
    var e := Command(NextTicket(r.log), stop.event.text, stop.event.user);
    Appended(r.log, Submitted(e));
    SubmitQuiet(Record(r, Submitted(e)), e, Session(r.row, true), stop.env, t);
    QuietAccepts(r.log + [Submitted(e)], r1.log);
    assert r2.queue == [Command(NextTicket(r.log) + 1, late.event.text, late.event.user)];
    assert r2.queue[1..] == [];
    assert Run(r, [stop, late, release], t) == r3 by {
      assert [stop, late, release][1..] == [late, release];
      assert [late, release][1..] == [release];
      assert [release][1..] == [];
      assert Run(r3, [], t) == r3;
      assert Run(r2, [release], t) == r3;
      assert Run(r1, [late, release], t) == r3;
    }
  }

  // ---- Mirror -----------------------------------------------------------------------

  /** After every step of every run the mirror shows the row's holder, type and expiry, so
      messages about captures release a capture lock or do nothing at all. */
  lemma CaptureMessagesSpareOtherLocks(r: Rack, steps: seq<Step>, sees: Sees, env: Env, t: Timeouts)
    requires Start(r)
    ensures var now := Run(r, steps, t);
      && (now.row.Some? ==> now.mirror == MirrorOf(now.row.value))
      && (now.row.Some? && now.row.value.kind != Some(Capture) ==> CaptureFinished(now, sees, env, t) == now)
      && (now.row.Some? && now.row.value.kind == Some(Capture) ==>
            now.log + [Released(env.now)] <= CaptureFinished(now, sees, env, t).log)
  {
    ReachableIsLawful(r, steps, t);
    var now := Run(r, steps, t);
    ReleaseQuiet(now, sees, env, t);
  }
}
