/** The order in which waiting commands leave a rack's queue. */
module QueueOrder {
  import opened Prelude
  import opened RackProtocol
  import opened RackInvariants
  import opened RackSafety

  /** A command that `submit` treats as an ordinary one. */
  predicate Ordinary(c: Command) {
    FirstToken(c.text).Some? && FirstToken(c.text).value != "!"
  }

  predicate AllOrdinary(r: Rack) {
    forall i :: 0 <= i < |r.queue| ==> Ordinary(r.queue[i])
  }

  /** The waiting commands are in the order of their submission. */
  predicate InOrder(r: Rack) {
    && (forall i, j :: 0 <= i < j < |r.queue| ==> r.queue[i].ticket < r.queue[j].ticket)
    && (forall i :: 0 <= i < |r.queue| ==> r.queue[i].ticket < NextTicket(r.log))
  }

  /** The session in which a step runs `on_lock_released`, if it does. */
  function DispatchSession(r: Rack, s: Step): Option<Session> {
    match s.event
    case FireEvent => Some(Session(r.row, true))
    case ReleaseEvent(sees) => ReleaseSession(r, sees)
    case CaptureFinishedEvent(sees) =>
      if r.mirror.kind == Some(Capture) then ReleaseSession(r, sees) else None
    case _ => None
  }

  function ReleaseSession(r: Rack, sees: Sees): Option<Session> {
    if !Held(r) then None
    else if sees.Fresh? then Some(Session(Some(UNLOCKED), true))
    else Some(Session(r.row, false))
  }

  /** The step takes the head of the queue and, finding the lock in force, puts it back at the
      tail. */
  predicate Rotates(r: Rack, s: Step) {
    && r.queue != []
    && var session := DispatchSession(r, s);
       session.Some? && s.env.dbOk && session.value.row.Some? && Blocks(session.value.row.value, s.env.now)
  }

  predicate Pops(r: Rack, s: Step) {
    r.queue != [] && DispatchSession(r, s).Some?
  }

  predicate Stops(s: Step) {
    s.event.SubmitEvent? && FirstToken(s.event.text) == Some("!")
  }

  /** What a step does to the queue: nothing, drop everything, take the head, take the head
      and put it at the tail, or append the new command. */
  lemma QueueAfter(r: Rack, s: Step, t: Timeouts)
    requires AllOrdinary(r)
    ensures var q := Do(r, s, t).queue;
      if Stops(s) then q == []
      else if Pops(r, s) then q == r.queue[1..] + if Rotates(r, s) then [r.queue[0]] else []
      else if s.event.SubmitEvent? then
        || q == r.queue
        || (q == r.queue + [Command(NextTicket(r.log), s.event.text, s.event.user)]
            && Ordinary(Command(NextTicket(r.log), s.event.text, s.event.user)))
      else q == r.queue
  {
    if r.queue != [] {
      assert Ordinary(r.queue[0]);
    }
  }

  /** The only step that can disorder a queue is a dispatch that finds the lock in force while
      another command waits behind the one it took. */
  lemma OrderKeptExactly(r: Rack, s: Step, t: Timeouts)
    requires AllOrdinary(r) && InOrder(r)
    ensures AllOrdinary(Do(r, s, t))
    ensures InOrder(Do(r, s, t)) <==> !(Rotates(r, s) && |r.queue| >= 2)
  {
    hide Do;
    QueueAfter(r, s, t);
    StepAccepts(r, s, t);
    var q := Do(r, s, t).queue;
    if Pops(r, s) && Rotates(r, s) && |r.queue| >= 2 {
      var last := |q| - 1;
      assert q[0] == r.queue[1] && q[last] == r.queue[0];
    }
  }

  /** No dispatch of the run meets a lock in force while two or more commands wait. */
  predicate Undisturbed(r: Rack, steps: seq<Step>, t: Timeouts)
    decreases |steps|
  {
    steps == []
    || (!(Rotates(r, steps[0]) && |r.queue| >= 2) && Undisturbed(Do(r, steps[0], t), steps[1..], t))
  }

  lemma {:induction false} OrderOverRuns(r: Rack, steps: seq<Step>, t: Timeouts)
    requires AllOrdinary(r) && InOrder(r)
    ensures AllOrdinary(Run(r, steps, t))
    ensures Undisturbed(r, steps, t) ==> InOrder(Run(r, steps, t))
    decreases |steps|
  {
    hide Do;
    if steps != [] {
      OrderKeptExactly(r, steps[0], t);
      if InOrder(Do(r, steps[0], t)) {
        OrderOverRuns(Do(r, steps[0], t), steps[1..], t);
      } else {
        OrdinaryOverRuns(Do(r, steps[0], t), steps[1..], t);
      }
    }
  }

  lemma {:induction false} OrdinaryOverRuns(r: Rack, steps: seq<Step>, t: Timeouts)
    requires AllOrdinary(r)
    ensures AllOrdinary(Run(r, steps, t))
    decreases |steps|
  {
    hide Do;
    if steps != [] {
      QueueAfter(r, steps[0], t);
      OrdinaryOverRuns(Do(r, steps[0], t), steps[1..], t);
    }
  }

  // ---- Commands that wait together ----------------------------------------------------------

  /** Among commands waiting in submission order, none overtakes another on an undisturbed run:
      once a later one is published, every earlier one has been settled. */
  lemma {:induction false} NoOvertaking(initial: Option<Row>, r: Rack, steps: seq<Step>, t: Timeouts, i: nat, j: nat)
    requires Inv(initial, r) && AllOrdinary(r) && InOrder(r)
    requires Undisturbed(r, steps, t)
    requires i < j < |r.queue|
    ensures var end := Run(r, steps, t);
      Fated(end.log, IsPublished)[r.queue[j]] > 0 ==>
        Settled(end.log)[r.queue[i]] > 0 && r.queue[i] !in end.queue
    decreases |steps|
  {
    hide Do, Inv, Stops, Pops, Rotates, AllOrdinary, Ordinary, Fated, Settled;
    var a, b := r.queue[i], r.queue[j];
    if steps == [] {
      StillWaiting(initial, r, b);
    } else {
      var s := steps[0];
      var next := Do(r, s, t);
      QueueAfter(r, s, t);
      OrderKeptExactly(r, s, t);
      StepKeeps(initial, r, s, t);
      if Stops(s) {
        OutOfQueue(initial, r, s, t, a);
        SettledForGood(initial, next, steps[1..], t, a);
      } else if Pops(r, s) && i == 0 {
        assert forall k :: 0 <= k < |next.queue| ==> next.queue[k].ticket > a.ticket;
        OutOfQueue(initial, r, s, t, a);
        SettledForGood(initial, next, steps[1..], t, a);
      } else if Pops(r, s) {
        assert next.queue[i - 1] == a && next.queue[j - 1] == b;
        NoOvertaking(initial, next, steps[1..], t, i - 1, j - 1);
      } else {
        assert next.queue[i] == a && next.queue[j] == b;
        NoOvertaking(initial, next, steps[1..], t, i, j);
      }
    }
  }

  lemma StillWaiting(initial: Option<Row>, r: Rack, c: Command)
    requires Inv(initial, r) && c in r.queue
    ensures Fated(r.log, IsPublished)[c] == 0
  {
    InvPlaces(initial, r, c);
    assert multiset(r.queue)[c] >= 1;
  }

  /** A command that a step takes out of the queue for good is settled. */
  lemma OutOfQueue(initial: Option<Row>, r: Rack, s: Step, t: Timeouts, c: Command)
    requires Inv(initial, r) && Inv(initial, Do(r, s, t))
    requires c in r.queue && c !in Do(r, s, t).queue
    ensures Settled(Do(r, s, t).log)[c] == 1
    ensures c in Accepted(Do(r, s, t).log)
  {
    hide Do;
    var next := Do(r, s, t);
    InvPlaces(initial, r, c);
    assert multiset(r.queue)[c] >= 1;
    StepAccepts(r, s, t);
    InvPlaces(initial, next, c);
    SettledIsFated(next.log);
  }

  lemma {:induction false} SettledGrows(log: seq<Entry>, more: seq<Entry>)
    ensures Settled(log) <= Settled(log + more)
  {
    if more == [] {
      assert log + more == log;
    } else {
      SettledGrows(log, Front(more));
      assert Front(log + more) == log + Front(more);
    }
  }

  lemma SettledForGood(initial: Option<Row>, r: Rack, steps: seq<Step>, t: Timeouts, c: Command)
    requires Inv(initial, r) && Settled(r.log)[c] > 0
    ensures var end := Run(r, steps, t); Settled(end.log)[c] > 0 && c !in end.queue
  {
    var end := Run(r, steps, t);
    RunLogs(r, steps, t);
    assert end.log == r.log + end.log[|r.log|..];
    SettledGrows(r.log, end.log[|r.log|..]);
    RunKeeps(initial, r, steps, t);
    InvPlaces(initial, end, c);
    SettledIsFated(end.log);
    assert multiset(end.queue)[c] == 0;
  }

  /** Runs on which each sweep fires its callback right after its commit, no callback fires
      otherwise, and a release's dispatch sees the release. */
  predicate AtomicSweeps(r: Rack, steps: seq<Step>, t: Timeouts)
    decreases |steps|
  {
    steps == []
    || match steps[0].event
       case FireEvent => false
       case ReleaseEvent(sees) => sees.Fresh? && AtomicSweeps(Do(r, steps[0], t), steps[1..], t)
       case CaptureFinishedEvent(sees) => sees.Fresh? && AtomicSweeps(Do(r, steps[0], t), steps[1..], t)
       case SweepClearEvent =>
         if Do(r, steps[0], t) == r then AtomicSweeps(r, steps[1..], t)
         else
           && |steps| >= 2 && steps[1].event.FireEvent?
           && AtomicSweeps(Do(Do(r, steps[0], t), steps[1], t), steps[2..], t)
       case _ => AtomicSweeps(Do(r, steps[0], t), steps[1..], t)
  }

  lemma {:induction false} AtomicSweepsUndisturbed(r: Rack, steps: seq<Step>, t: Timeouts)
    requires AtomicSweeps(r, steps, t)
    ensures Undisturbed(r, steps, t)
    decreases |steps|
  {
    if steps != [] {
      var next := Do(r, steps[0], t);
      if steps[0].event.SweepClearEvent? && next != r {
        assert next.row == Some(UNLOCKED);
        AtomicSweepsUndisturbed(Do(next, steps[1], t), steps[2..], t);
        assert steps[1..][1..] == steps[2..];
        assert Undisturbed(next, steps[1..], t);
      } else {
        AtomicSweepsUndisturbed(next, steps[1..], t);
      }
    }
  }

  /** On every such run from the start of the server waiting commands stand in submission order,
      and of two that wait together the later one is published only after the earlier one has
      been settled. */
  lemma WaitingTogetherKeepOrder(r: Rack, before: seq<Step>, after: seq<Step>, t: Timeouts, i: nat, j: nat)
    requires Start(r) && AtomicSweeps(r, before, t) && AtomicSweeps(Run(r, before, t), after, t)
    requires i < j < |Run(r, before, t).queue|
    ensures var mid := Run(r, before, t);
      var end := Run(mid, after, t);
      && mid.queue[i].ticket < mid.queue[j].ticket
      && (Fated(end.log, IsPublished)[mid.queue[j]] > 0 ==>
            Settled(end.log)[mid.queue[i]] > 0 && mid.queue[i] !in end.queue)
  {
    ReachableIsLawful(r, before, t);
    AtomicSweepsUndisturbed(r, before, t);
    OrderOverRuns(r, before, t);
    AtomicSweepsUndisturbed(Run(r, before, t), after, t);
    NoOvertaking(r.row, Run(r, before, t), after, t, i, j);
  }

  // ---- Draining by expiry and sweep -------------------------------------------------

  function PublishedSeq(log: seq<Entry>): seq<Command> {
    if log == [] then []
    else PublishedSeq(Front(log)) + if Last(log).Published? then [Last(log).cmd] else []
  }

  lemma PublishedAfterGrant(log: seq<Entry>, freed: Entry, granted: Entry, c: Command)
    requires !freed.Published? && !granted.Published?
    ensures PublishedSeq(log + [freed]) == PublishedSeq(log)
    ensures PublishedSeq(log + [freed] + [granted] + [Published(c)]) == PublishedSeq(log) + [c]
  {
    Appended(log, freed);
    Appended(log + [freed], granted);
    Appended(log + [freed] + [granted], Published(c));
    assert PublishedSeq(log + [freed]) == PublishedSeq(log);
    assert PublishedSeq(log + [freed] + [granted]) == PublishedSeq(log);
  }

  /** Sweep passes at the given times, nothing else happening on the rack. */
  function Sweeps(r: Rack, times: seq<int>, t: Timeouts): Rack
    decreases |times|
  {
    if times == [] then r
    else Sweeps(SweepRound(r, times[0], Env(times[0], true, true), t), times[1..], t)
  }

  /** Every pass comes after the expiry of the lock as it stands: `deadline` at first, then the
      lifetime of the longest lock after the pass before. */
  predicate WellSpaced(times: seq<int>, deadline: int, t: Timeouts) {
    times == [] || (times[0] > deadline && WellSpaced(times[1..], times[0] + 2 * Max(t.motion, t.capture), t))
  }

  predicate ProperTimeouts(t: Timeouts) {
    t.motion >= 0 && t.capture >= 0
  }

  lemma SweepPublishesHead(r: Rack, now: int, t: Timeouts)
    requires Held(r) && r.row.value.expiresAt.Some? && now > r.row.value.expiresAt.value
    requires AllOrdinary(r) && r.queue != [] && ProperTimeouts(t)
    ensures var end := SweepRound(r, now, Env(now, true, true), t);
      && end.queue == r.queue[1..]
      && PublishedSeq(end.log) == PublishedSeq(r.log) + [r.queue[0]]
      && Held(end) && end.row.value.expiresAt.Some?
      && end.row.value.expiresAt.value <= now + 2 * Max(t.motion, t.capture)
      && AllOrdinary(end)
  {
    var c := r.queue[0];
    assert Ordinary(c);
    var user, kind := HolderFor(c.user), LockTypeFor(FirstToken(c.text).value);
    var g := Granted(user, kind, now, now + ExpirySeconds(kind, t));
    PublishedAfterGrant(r.log, Swept(now), g, c);
    assert SweepRound(r, now, Env(now, true, true), t).log == r.log + [Swept(now)] + [g] + [Published(c)];
  }

  /** n expiry-and-sweep rounds publish the first n waiting commands, in queue order; as many
      rounds as there are commands empty the queue. */
  lemma {:induction false} SweepsDrainInOrder(r: Rack, times: seq<int>, t: Timeouts)
    requires Held(r) && r.row.value.expiresAt.Some?
    requires AllOrdinary(r) && |times| <= |r.queue| && ProperTimeouts(t)
    requires WellSpaced(times, r.row.value.expiresAt.value, t)
    ensures var end := Sweeps(r, times, t);
      && end.queue == r.queue[|times|..]
      && PublishedSeq(end.log) == PublishedSeq(r.log) + r.queue[..|times|]
    decreases |times|
  {
    hide SweepRound;
    if times != [] {
      var next := SweepRound(r, times[0], Env(times[0], true, true), t);
      SweepPublishesHead(r, times[0], t);
      WellSpacedEarlier(times[1..], times[0] + 2 * Max(t.motion, t.capture), next.row.value.expiresAt.value, t);
      SweepsDrainInOrder(next, times[1..], t);
      assert r.queue[..|times|] == [r.queue[0]] + r.queue[1..][..|times| - 1];
    }
  }

  lemma WellSpacedEarlier(times: seq<int>, d: int, earlier: int, t: Timeouts)
    requires earlier <= d && WellSpaced(times, d, t)
    ensures WellSpaced(times, earlier, t)
  {
  }

  // ---- The dispatch inside a release ------------------------------------------------

  lemma SeenRelease(r: Rack, env: Env, t: Timeouts)
    requires AllOrdinary(r) && Held(r) && r.queue != []
    requires env.dbOk && env.publishOk
    ensures var end := Release(r, Fresh, env, t);
      && PublishedSeq(end.log) == PublishedSeq(r.log) + [r.queue[0]]
      && end.queue == r.queue[1..] && Held(end)
  {
    var c := r.queue[0];
    assert Ordinary(c);
    var user, kind := HolderFor(c.user), LockTypeFor(FirstToken(c.text).value);
    var g := Granted(user, kind, env.now, env.now + ExpirySeconds(kind, t));
    PublishedAfterGrant(r.log, Released(env.now), g, c);
    assert Release(r, Fresh, env, t).log == r.log + [Released(env.now)] + [g] + [Published(c)];
  }

  lemma UnseenRelease(r: Rack, env: Env, t: Timeouts)
    requires AllOrdinary(r) && Held(r) && r.queue != [] && env.dbOk
    ensures var end := Release(r, Stale, env, t);
      && end.row == Some(UNLOCKED) && PublishedSeq(end.log) == PublishedSeq(r.log)
      && if Blocks(r.row.value, env.now) then
           end.queue == r.queue[1..] + [r.queue[0]] && Settled(end.log) == Settled(r.log)
         else
           end.queue == r.queue[1..] && Settled(end.log) == Settled(r.log) + multiset{r.queue[0]}
  {
    UnseenReleaseState(r, env, t);
    hide Release, Blocks, AllOrdinary;
    var l1 := r.log + [Released(env.now)];
    Appended(r.log, Released(env.now));
    Appended(l1, Failed(r.queue[0]));
  }

  lemma UnseenReleaseState(r: Rack, env: Env, t: Timeouts)
    requires AllOrdinary(r) && Held(r) && r.queue != [] && env.dbOk
    ensures var end := Release(r, Stale, env, t);
      && end.row == Some(UNLOCKED)
      && if Blocks(r.row.value, env.now) then
           end.queue == r.queue[1..] + [r.queue[0]] && end.log == r.log + [Released(env.now)]
         else
           end.queue == r.queue[1..] && end.log == r.log + [Released(env.now)] + [Failed(r.queue[0])]
  {
    assert Ordinary(r.queue[0]);
  }

  /** A release of a held lock with commands waiting, database and broker working, sends out the
      head of the queue iff the dispatch sees the release. If it does not, then while the old
      lock still runs the head moves to the tail, and once it has expired the head is lost to
      a failed write; either way the rack is left unlocked. */
  lemma ReleaseDispatchesIffSeen(r: Rack, sees: Sees, env: Env, t: Timeouts)
    requires AllOrdinary(r) && Held(r) && r.queue != []
    requires env.dbOk && env.publishOk
    ensures var end := Release(r, sees, env, t);
      && (PublishedSeq(end.log) == PublishedSeq(r.log) + [r.queue[0]] <==> sees.Fresh?)
      && (Held(end) <==> sees.Fresh?)
      && (sees.Stale? ==>
            if Blocks(r.row.value, env.now) then
              end.queue == r.queue[1..] + [r.queue[0]] && Settled(end.log) == Settled(r.log)
            else
              end.queue == r.queue[1..] && Settled(end.log) == Settled(r.log) + multiset{r.queue[0]})
  {
    hide Release;
    if sees.Fresh? {
      SeenRelease(r, env, t);
    } else {
      UnseenRelease(r, env, t);
      assert |PublishedSeq(r.log) + [r.queue[0]]| == |PublishedSeq(r.log)| + 1;
    }
  }

  /** Commands waiting behind no lock are stranded: no sweep ever looks at them, and the next
      ordinary submission is published ahead of all of them. */
  lemma {:induction false} StrandedWithoutLock(r: Rack, times: seq<int>, text: string, user: Option<string>,
    env: Env, t: Timeouts)
    requires r.row == Some(UNLOCKED)
    requires Ordinary(Command(NextTicket(r.log), text, user)) && env.dbOk && env.publishOk
    ensures Sweeps(r, times, t) == r
    ensures var end := SubmitNew(Sweeps(r, times, t), text, user, env, t);
      && end.queue == r.queue
      && end.log != [] && Last(end.log) == Published(Command(NextTicket(r.log), text, user))
    decreases |times|
  {
    if times != [] {
      StrandedWithoutLock(r, times[1..], text, user, env, t);
    }
  }
}
