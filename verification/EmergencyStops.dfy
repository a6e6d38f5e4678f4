/** The e-stop route as it interleaves with everything else: the stop empties the queue, other
    steps come in between, and then the route releases the lock. */
module EmergencyStops {
  import opened Prelude
  import opened RackProtocol
  import opened RackInvariants
  import opened RackSafety
  import opened QueueOrder

  /** A submission that meets a lock in force and waits. */
  predicate Joins(r: Rack, s: Step) {
    && s.event.SubmitEvent? && Ordinary(Command(0, s.event.text, s.event.user))
    && s.env.dbOk && r.row.Some? && Blocks(r.row.value, s.env.now)
  }

  /** How many commands wait after a run that begins with n: an e-stop drops them all, a dispatch
      takes one unless it puts it back, a submission that meets a lock in force adds one. */
  function Waiting(n: int, r: Rack, steps: seq<Step>, t: Timeouts): int
    decreases |steps|
  {
    if steps == [] then n
    else
      var s := steps[0];
      var m := if Stops(s) then 0
               else if Pops(r, s) && !Rotates(r, s) then n - 1
               else if Joins(r, s) then n + 1
               else n;
      Waiting(m, Do(r, s, t), steps[1..], t)
  }

  lemma JoinersWait(r: Rack, s: Step, t: Timeouts)
    requires s.event.SubmitEvent? && !Stops(s)
    ensures Do(r, s, t).queue ==
      r.queue + if Joins(r, s) then [Command(NextTicket(r.log), s.event.text, s.event.user)] else []
  {
    var text, user := s.event.text, s.event.user;
    assert Ordinary(Command(NextTicket(r.log), text, user)) <==> Ordinary(Command(0, text, user));
  }

  lemma QueueLengthAfter(r: Rack, s: Step, t: Timeouts)
    requires AllOrdinary(r)
    ensures |Do(r, s, t).queue| == Waiting(|r.queue|, r, [s], t)
    ensures AllOrdinary(Do(r, s, t))
  {
    hide Do, Rotates, Joins, AllOrdinary, Ordinary;
    QueueAfter(r, s, t);
    OrdinaryOverRuns(r, [s], t);
    assert [s][1..] == [];
    assert Run(Do(r, s, t), [], t) == Do(r, s, t);
    if s.event.SubmitEvent? && !Stops(s) {
      JoinersWait(r, s, t);
    } else {
      OnlySubmissionsJoin(r, s);
    }
  }

  lemma OnlySubmissionsJoin(r: Rack, s: Step)
    requires !s.event.SubmitEvent? || Stops(s)
    ensures !Joins(r, s)
  {
  }

  lemma {:induction false} QueueLengthIs(r: Rack, steps: seq<Step>, t: Timeouts)
    requires AllOrdinary(r)
    ensures |Run(r, steps, t).queue| == Waiting(|r.queue|, r, steps, t)
    ensures AllOrdinary(Run(r, steps, t))
    decreases |steps|
  {
    hide Do, Stops, Pops, Rotates, Joins, AllOrdinary;
    if steps != [] {
      var s := steps[0];
      QueueLengthAfter(r, s, t);
      assert [s][1..] == [];
      QueueLengthIs(Do(r, s, t), steps[1..], t);
    }
  }

  // ---- The releasing half -----------------------------------------------------------

  /** Nothing goes out and the rack is left unlocked. */
  predicate Silent(before: Rack, after: Rack) {
    !Held(after) && PublishedSeq(after.log) == PublishedSeq(before.log)
  }

  lemma Unpublished(log: seq<Entry>, e: Entry)
    requires !e.Published?
    ensures PublishedSeq(log + [e]) == PublishedSeq(log)
  {
    Appended(log, e);
  }

  /** A release is silent iff there is no lock, or nothing waits, or its dispatch cannot lock the
      rack: because it does not see the release, or has no database. With a broker that refuses,
      the dispatch publishes nothing but leaves the rack locked. */
  lemma ReleaseIsSilentIff(r: Rack, sees: Sees, env: Env, t: Timeouts)
    requires AllOrdinary(r)
    ensures var end := Release(r, sees, env, t);
      && (Silent(r, end) <==> !Held(r) || r.queue == [] || sees.Stale? || !env.dbOk)
      && (PublishedSeq(end.log) == PublishedSeq(r.log) <==>
            !Held(r) || r.queue == [] || sees.Stale? || !env.dbOk || !env.publishOk)
  {
    if Held(r) {
      var freed := r.log + [Released(env.now)];
      Unpublished(r.log, Released(env.now));
      if r.queue != [] {
        var c := r.queue[0];
        assert Ordinary(c);
        if !env.dbOk {
          Unpublished(freed, Failed(c));
          assert Release(r, sees, env, t).log == freed + [Failed(c)];
        } else if sees.Stale? {
          UnseenRelease(r, env, t);
        } else if env.publishOk {
          SeenRelease(r, env, t);
          assert |PublishedSeq(r.log) + [c]| == |PublishedSeq(r.log)| + 1;
        } else {
          SeenButRefused(r, env, t);
        }
      }
    }
  }

  lemma SeenButRefused(r: Rack, env: Env, t: Timeouts)
    requires AllOrdinary(r) && Held(r) && r.queue != [] && env.dbOk && !env.publishOk
    ensures var end := Release(r, Fresh, env, t);
      Held(end) && PublishedSeq(end.log) == PublishedSeq(r.log)
  {
    var c := r.queue[0];
    assert Ordinary(c);
    var user, kind := HolderFor(c.user), LockTypeFor(FirstToken(c.text).value);
    var g := Granted(user, kind, env.now, env.now + ExpirySeconds(kind, t));
    var freed := r.log + [Released(env.now)];
    assert Release(r, Fresh, env, t).log == freed + [g] + [Failed(c)];
    Unpublished(r.log, Released(env.now));
    Unpublished(freed, g);
    Unpublished(freed + [g], Failed(c));
  }

  // ---- The whole route --------------------------------------------------------------

  /** An e-stop, then any steps, then its release: the release leaves the rack unlocked with
      nothing dispatched iff the lock is gone by then, or everything that joined the queue since
      the stop has left it, or the dispatch cannot lock the rack. */
  lemma EmergencyStopIsSilentIff(r: Rack, stop: Step, between: seq<Step>, sees: Sees, env: Env, t: Timeouts)
    requires AllOrdinary(r) && Stops(stop)
    ensures var stopped := Do(r, stop, t);
      var mid := Run(stopped, between, t);
      Silent(mid, Release(mid, sees, env, t)) <==>
        !Held(mid) || Waiting(0, stopped, between, t) == 0 || sees.Stale? || !env.dbOk
  {
    hide Do, Release, Waiting, Held, Silent, AllOrdinary, PublishedSeq, Stops;
    QueueLengthAfter(r, stop, t);
    QueueAfter(r, stop, t);
    QueueLengthIs(Do(r, stop, t), between, t);
    ReleaseIsSilentIff(Run(Do(r, stop, t), between, t), sees, env, t);
  }

  /** Nothing waits at any moment between the two halves iff no submission in between meets a
      lock in force. */
  lemma {:induction false} EmptyThroughoutIff(r: Rack, steps: seq<Step>, t: Timeouts)
    requires r.queue == []
    ensures StaysEmpty(r, steps, t) <==> NobodyJoins(r, steps, t)
    decreases |steps|
  {
    hide Do, Joins, Pops, Stops;
    if steps != [] {
      QueueAfterEmpty(r, steps[0], t);
      if !Joins(r, steps[0]) {
        EmptyThroughoutIff(Do(r, steps[0], t), steps[1..], t);
      }
    }
  }

  lemma QueueAfterEmpty(r: Rack, s: Step, t: Timeouts)
    requires r.queue == []
    ensures Do(r, s, t).queue == [] <==> !Joins(r, s)
  {
    hide Do, Joins, Stops, Rotates, Ordinary;
    QueueAfter(r, s, t);
    if s.event.SubmitEvent? && !Stops(s) {
      JoinersWait(r, s, t);
    } else {
      OnlySubmissionsJoin(r, s);
      EmptyIsNotPopped(r, s);
    }
  }

  lemma EmptyIsNotPopped(r: Rack, s: Step)
    requires r.queue == []
    ensures !Pops(r, s)
  {
  }

  predicate StaysEmpty(r: Rack, steps: seq<Step>, t: Timeouts)
    decreases |steps|
  {
    r.queue == [] && (steps == [] || StaysEmpty(Do(r, steps[0], t), steps[1..], t))
  }

  predicate NobodyJoins(r: Rack, steps: seq<Step>, t: Timeouts)
    decreases |steps|
  {
    steps == [] || (!Joins(r, steps[0]) && NobodyJoins(Do(r, steps[0], t), steps[1..], t))
  }

  lemma {:induction false} EmptyAtTheEnd(r: Rack, steps: seq<Step>, t: Timeouts)
    requires StaysEmpty(r, steps, t)
    ensures Run(r, steps, t).queue == []
    decreases |steps|
  {
    if steps != [] {
      EmptyAtTheEnd(Do(r, steps[0], t), steps[1..], t);
    }
  }

  /** So if nobody submits to the locked rack in between, the stop is complete: unlocked, nothing
      dispatched, nothing waiting, whatever else happens and whatever the dispatch sees. */
  lemma UnjoinedStopIsComplete(r: Rack, stop: Step, between: seq<Step>, sees: Sees, env: Env, t: Timeouts)
    requires AllOrdinary(r) && Stops(stop) && NobodyJoins(Do(r, stop, t), between, t)
    ensures var mid := Run(Do(r, stop, t), between, t);
      var end := Release(mid, sees, env, t);
      Silent(mid, end) && end.queue == []
  {
    hide Do, Joins, AllOrdinary, Silent, Stops;
    QueueAfter(r, stop, t);
    QueueLengthAfter(r, stop, t);
    EmptyThroughoutIff(Do(r, stop, t), between, t);
    EmptyAtTheEnd(Do(r, stop, t), between, t);
    QueueLengthIs(Do(r, stop, t), between, t);
    ReleaseIsSilentIff(Run(Do(r, stop, t), between, t), sees, env, t);
  }
}
