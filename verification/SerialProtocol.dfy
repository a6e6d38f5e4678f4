/** All interleavings of the reader thread, one command caller and emergency stops on the serial
    link, as a transition system. Routing a line (reading the flag, then queueing) is one
    step. Deadlines are left open here: a timeout may strike at any moment of a wait. */
module SerialProtocol {
  import opened Prelude
  import opened Text
  import opened SerialHandler

  /** What sits in the response queue: a line the reader routed, with its place among all lines
      read, or the empty sentinel of an e-stop or disconnection. */
  datatype Item = Routed(index: nat, line: string) | Sentinel

  /** The answer of one attempt: which line it is, how many lines had been read when the attempt
      wrote, and whether an e-stop or disconnection was under way since. */
  datatype Answer = Answer(index: nat, line: string, mark: nat, disturbed: bool)

  /** Where the caller stands. `Waiting` carries the number of lines read when it wrote. */
  datatype Phase = Idle | Draining | Ready | Waiting(mark: nat) | Leaving(answer: Option<Answer>) | Pausing

  /** How an attempt went: the lines read when it wrote and when it ended, the line it returned, and
      of the lines read in between those that were lost (not queued because the flag was down, or
      drained by an e-stop) and those still in the queue at the end. */
  datatype Attempt = Attempt(mark: nat, end: nat, answer: Option<nat>, lost: set<nat>, left: set<nat>, disturbed: bool)

  /** What a call gave back, after how many attempts, and how these went. */
  datatype Return = Return(answer: Option<Answer>, attempts: nat, tries: seq<Attempt>)

  datatype Link = Link(
    linesRead: seq<string>,   // every non-empty line the reader has completed
    queue: seq<Item>,
    flag: bool,               // _waiting_for_response
    phase: Phase,
    disturbed: bool,          // since the last write
    stops: nat,               // emergency stops under way
    readerUp: bool,
    writes: nat,              // attempts of the current call
    lost: set<nat>,           // since the last write
    tries: seq<Attempt>,      // of the current call
    returned: seq<Return>)

  const INITIAL := Link([], [], false, Idle, false, 0, true, 0, {}, [], [])

  datatype Event =
    | ReaderRoutes(line: string)   // unsolicited if nobody waits
    | ReaderDies                   // SerialException: flag down, sentinel
    | StopBegins                   // emergency_stop: flag down, sentinel
    | StopDrains                   // its get_nowait
    | StopEnds                     // its queue.Empty
    | CallBegins
    | DrainDrops                   // pre-write drain takes a stale item
    | DrainEnds                    // its queue.Empty
    | CallerWrites
    | CallerTakes                  // queue.get in the wait loop
    | TimeRunsOut                  // either timeout exit of the wait loop
    | AttemptEnds                  // the finally block, and what send_command does next
    | PauseEnds

  predicate Enabled(s: Link, e: Event) {
    match e
    case ReaderRoutes(line) => s.readerUp && line != ""
    case ReaderDies => s.readerUp
    case StopBegins => true
    case StopDrains => s.stops > 0 && s.queue != []
    case StopEnds => s.stops > 0 && s.queue == []
    case CallBegins => s.phase.Idle?
    case DrainDrops => s.phase.Draining? && s.queue != []
    case DrainEnds => s.phase.Draining? && s.queue == []
    case CallerWrites => s.phase.Ready?
    case CallerTakes => s.phase.Waiting? && s.queue != []
    case TimeRunsOut => s.phase.Waiting?
    case AttemptEnds => s.phase.Leaving?
    case PauseEnds => s.phase.Pausing?
  }

  predicate NoiseItem(i: Item) {
    i.Sentinel? || Noise(i.line)
  }

  function IndexesIn(queue: seq<Item>): set<nat> {
    set i | 0 <= i < |queue| && queue[i].Routed? :: queue[i].index
  }

  function EndOfAttempt(s: Link, answer: Option<nat>, queue: seq<Item>): Attempt
    requires s.phase.Waiting?
  {
    Attempt(s.phase.mark, |s.linesRead|, answer, s.lost, IndexesIn(queue), s.disturbed)
  }

  function Do(s: Link, e: Event, retryCount: nat): Link
    requires Enabled(s, e)
  {
    match e
    case ReaderRoutes(line) =>
      s.(linesRead := s.linesRead + [line],
         queue := s.queue + (if s.flag then [Routed(|s.linesRead|, line)] else []),
         lost := s.lost + if s.flag then {} else {|s.linesRead|})
    case ReaderDies => s.(readerUp := false, flag := false, queue := s.queue + [Sentinel], disturbed := true)
    case StopBegins => s.(flag := false, queue := s.queue + [Sentinel], stops := s.stops + 1, disturbed := true)
    case StopDrains =>
      s.(queue := s.queue[1..], lost := s.lost + if s.queue[0].Routed? then {s.queue[0].index} else {})
    case StopEnds => s.(stops := s.stops - 1)
    case CallBegins => s.(phase := Draining, writes := 0, tries := [])
    case DrainDrops => s.(queue := s.queue[1..])
    case DrainEnds => s.(phase := Ready)
    case CallerWrites =>
      s.(phase := Waiting(|s.linesRead|), flag := true, writes := s.writes + 1, disturbed := s.stops > 0, lost := {})
    case CallerTakes =>
      if NoiseItem(s.queue[0]) then s.(queue := s.queue[1..])
      else
        s.(queue := s.queue[1..],
           phase := Leaving(Some(Answer(s.queue[0].index, s.queue[0].line, s.phase.mark, s.disturbed))),
           tries := s.tries + [EndOfAttempt(s, Some(s.queue[0].index), s.queue[1..])])
    case TimeRunsOut => s.(phase := Leaving(None), tries := s.tries + [EndOfAttempt(s, None, s.queue)])
    case AttemptEnds =>
      if s.phase.answer.None? && s.writes <= retryCount then s.(flag := false, phase := Pausing)
      else s.(flag := false, phase := Idle, returned := s.returned + [Return(s.phase.answer, s.writes, s.tries)])
    case PauseEnds => s.(phase := Draining)
  }

  /** The state after a sequence of events, if each of them was possible in its turn. */
  function Run(events: seq<Event>, retryCount: nat): Option<Link>
    decreases |events|
  {
    if events == [] then Some(INITIAL)
    else
      var before := Run(events[..|events| - 1], retryCount);
      var e := events[|events| - 1];
      if before.Some? && Enabled(before.value, e) then Some(Do(before.value, e, retryCount)) else None
  }

  // ---- Invariant --------------------------------------------------------------------

  /** Queued lines are lines that were read, each later one read later. */
  ghost predicate QueueTrue(s: Link) {
    && (forall i :: 0 <= i < |s.queue| && s.queue[i].Routed? ==>
          s.queue[i].index < |s.linesRead| && s.linesRead[s.queue[i].index] == s.queue[i].line)
    && (forall i, j :: 0 <= i < j < |s.queue| && s.queue[i].Routed? && s.queue[j].Routed? ==>
          s.queue[i].index < s.queue[j].index)
  }

  /** Between a drain and the next write only sentinels get into the queue; during a wait every
      queued line was read after the write; and the flag is up only during a wait. */
  ghost predicate NothingStale(s: Link) {
    && (s.flag ==> s.phase.Waiting? || s.phase.Leaving?)
    && (s.phase.Ready? ==> forall i :: 0 <= i < |s.queue| ==> s.queue[i].Sentinel?)
    && (s.phase.Waiting? ==>
          && s.phase.mark <= |s.linesRead|
          && forall i :: 0 <= i < |s.queue| && s.queue[i].Routed? ==> s.queue[i].index >= s.phase.mark)
  }

  ghost predicate Covered(linesRead: seq<string>, queue: seq<Item>, lost: set<nat>, mark: nat) {
    forall k :: mark <= k < |linesRead| ==>
      Noise(linesRead[k]) || Routed(k, linesRead[k]) in queue || k in lost
  }

  /** During a wait every line read since the write is noise, waits in the queue or was lost; none
      of those that wait was lost; and nothing is lost while nothing disturbs. */
  ghost predicate NothingMissed(s: Link) {
    s.phase.Waiting? ==>
      && (!s.disturbed ==> s.flag && s.stops == 0 && s.lost == {})
      && Covered(s.linesRead, s.queue, s.lost, s.phase.mark)
      && LostApart(s.linesRead, s.queue, s.lost)
  }

  ghost predicate LostApart(linesRead: seq<string>, queue: seq<Item>, lost: set<nat>) {
    && (forall k :: k in lost ==> k < |linesRead|)
    && (forall i :: 0 <= i < |queue| && queue[i].Routed? ==> queue[i].index !in lost)
  }

  /** The line of an answer is real, was read after its attempt wrote, and if nothing disturbed
      the attempt, is the first such line. */
  ghost predicate FreshAnswer(a: Answer, linesRead: seq<string>) {
    && a.mark <= a.index < |linesRead| && linesRead[a.index] == a.line && !Noise(a.line)
    && (!a.disturbed ==> forall k :: a.mark <= k < a.index ==> Noise(linesRead[k]))
  }

  ghost predicate AllFresh(s: Link) {
    && (s.phase.Leaving? && s.phase.answer.Some? ==> FreshAnswer(s.phase.answer.value, s.linesRead))
    && forall i :: 0 <= i < |s.returned| && s.returned[i].answer.Some? ==>
         FreshAnswer(s.returned[i].answer.value, s.linesRead)
  }

  /** An attempt returned a real line that had reached it, everything real before that was lost; or
      it returned nothing, and everything real was lost or is still in the queue. */
  ghost predicate Honest(a: Attempt, linesRead: seq<string>) {
    && a.mark <= a.end <= |linesRead|
    && (!a.disturbed ==> a.lost == {})
    && match a.answer
       case Some(n) =>
         && a.mark <= n < a.end && !Noise(linesRead[n]) && n !in a.lost && n !in a.left
         && forall k :: a.mark <= k < n ==> Noise(linesRead[k]) || k in a.lost
       case None =>
         forall k :: a.mark <= k < a.end ==> Noise(linesRead[k]) || k in a.lost || k in a.left
  }

  /** The tries of a call: the last gave its answer, those before it nothing. */
  ghost predicate TriesOf(tries: seq<Attempt>, answer: Option<Answer>) {
    && tries != []
    && (forall i :: 0 <= i < |tries| - 1 ==> tries[i].answer.None?)
    && match answer
       case None => tries[|tries| - 1].answer.None?
       case Some(a) => tries[|tries| - 1].answer == Some(a.index) && tries[|tries| - 1].mark == a.mark
  }

  ghost predicate AllHonest(s: Link) {
    && (forall i :: 0 <= i < |s.tries| ==> Honest(s.tries[i], s.linesRead))
    && (!s.phase.Leaving? && !s.phase.Idle? ==> forall i :: 0 <= i < |s.tries| ==> s.tries[i].answer.None?)
    && (s.phase.Leaving? ==> TriesOf(s.tries, s.phase.answer))
    && (!s.phase.Idle? ==> |s.tries| == if s.phase.Waiting? then s.writes - 1 else s.writes)
    && forall i :: 0 <= i < |s.returned| ==>
         && TriesOf(s.returned[i].tries, s.returned[i].answer) && |s.returned[i].tries| == s.returned[i].attempts
         && forall j :: 0 <= j < |s.returned[i].tries| ==> Honest(s.returned[i].tries[j], s.linesRead)
  }

  ghost predicate Attempts(s: Link, retryCount: nat) {
    && (s.phase.Idle? || s.writes <= retryCount + 1)
    && (s.phase.Draining? || s.phase.Ready? || s.phase.Pausing? ==> s.writes <= retryCount)
    && (s.phase.Waiting? || s.phase.Leaving? ==> s.writes >= 1)
    && forall i :: 0 <= i < |s.returned| ==>
         && 1 <= s.returned[i].attempts <= retryCount + 1
         && (s.returned[i].answer.None? ==> s.returned[i].attempts == retryCount + 1)
  }

  ghost predicate Inv(s: Link, retryCount: nat) {
    && QueueTrue(s) && NothingStale(s) && NothingMissed(s)
    && AllFresh(s) && AllHonest(s) && Attempts(s, retryCount)
  }

  /** A step adds a line that it reads, adds a sentinel, takes the head, or leaves the queue alone. */
  lemma QueueShape(s: Link, e: Event, retryCount: nat)
    requires Enabled(s, e)
    ensures var t := Do(s, e, retryCount);
      || (e.ReaderRoutes? && t.linesRead == s.linesRead + [e.line]
          && t.queue == s.queue + if s.flag then [Routed(|s.linesRead|, e.line)] else [])
      || (!e.ReaderRoutes? && t.linesRead == s.linesRead
          && (t.queue == s.queue || t.queue == s.queue + [Sentinel] || (s.queue != [] && t.queue == s.queue[1..])))
  {
    hide Noise, IndexesIn;
  }

  lemma QueueStep(s: Link, e: Event, retryCount: nat)
    requires QueueTrue(s) && Enabled(s, e)
    ensures QueueTrue(Do(s, e, retryCount))
  {
    hide Do, Enabled;
    QueueShape(s, e, retryCount);
  }

  lemma StaleStep(s: Link, e: Event, retryCount: nat)
    requires QueueTrue(s) && NothingStale(s) && Enabled(s, e)
    ensures NothingStale(Do(s, e, retryCount))
  {
    hide Noise;
  }

  lemma HeadTaken(linesRead: seq<string>, queue: seq<Item>, lost: set<nat>, more: set<nat>, mark: nat)
    requires Covered(linesRead, queue, lost, mark) && queue != [] && lost <= more
    requires NoiseItem(queue[0]) || (queue[0].Routed? && queue[0].index in more)
    ensures Covered(linesRead, queue[1..], more, mark)
  {
    hide Noise;
    forall k | mark <= k < |linesRead| && !Noise(linesRead[k]) && k !in more
      ensures Routed(k, linesRead[k]) in queue[1..]
    {
      assert Routed(k, linesRead[k]) in queue && Routed(k, linesRead[k]) != queue[0];
      assert queue == [queue[0]] + queue[1..];
    }
  }

  lemma LineAdded(linesRead: seq<string>, line: string, queue: seq<Item>, flag: bool, lost: set<nat>, mark: nat)
    requires Covered(linesRead, queue, lost, mark)
    ensures var n := |linesRead|;
      var routed, missed := if flag then [Routed(n, line)] else [], if flag then {} else {n};
      Covered(linesRead + [line], queue + routed, lost + missed, mark)
  {
    hide Noise;
  }

  lemma MissedStep(s: Link, e: Event, retryCount: nat)
    requires QueueTrue(s) && NothingStale(s) && NothingMissed(s) && Enabled(s, e)
    ensures NothingMissed(Do(s, e, retryCount))
  {
    hide Noise, IndexesIn, Covered, LostApart, QueueTrue, EndOfAttempt;
    if s.phase.Waiting? {
      CoveredStep(s, e, retryCount);
      LostStep(s, e, retryCount);
    } else if e.CallerWrites? {
      NothingToCover(s.linesRead, s.queue);
    }
  }

  lemma LostStep(s: Link, e: Event, retryCount: nat)
    requires QueueTrue(s) && Enabled(s, e) && s.phase.Waiting? && LostApart(s.linesRead, s.queue, s.lost)
    ensures var t := Do(s, e, retryCount);
      t.phase.Waiting? ==> LostApart(t.linesRead, t.queue, t.lost)
  {
    hide Noise, IndexesIn, EndOfAttempt;
    QueueShape(s, e, retryCount);
  }

  lemma NothingToCover(linesRead: seq<string>, queue: seq<Item>)
    ensures Covered(linesRead, queue, {}, |linesRead|) && LostApart(linesRead, queue, {})
  {
  }

  lemma CoveredStep(s: Link, e: Event, retryCount: nat)
    requires Enabled(s, e) && s.phase.Waiting? && Covered(s.linesRead, s.queue, s.lost, s.phase.mark)
    ensures var t := Do(s, e, retryCount);
      t.phase.Waiting? ==> Covered(t.linesRead, t.queue, t.lost, t.phase.mark)
  {
    var t := Do(s, e, retryCount);
    hide Noise, IndexesIn, Covered, EndOfAttempt;
    match e
    case ReaderRoutes(line) => LineAdded(s.linesRead, line, s.queue, s.flag, s.lost, s.phase.mark);
    case StopDrains => HeadTaken(s.linesRead, s.queue, s.lost, t.lost, s.phase.mark);
    case CallerTakes =>
      if NoiseItem(s.queue[0]) {
        HeadTaken(s.linesRead, s.queue, s.lost, s.lost, s.phase.mark);
      }
    case ReaderDies => SentinelAdded(s.linesRead, s.queue, s.lost, s.phase.mark);
    case StopBegins => SentinelAdded(s.linesRead, s.queue, s.lost, s.phase.mark);
    case _ =>
  }

  lemma SentinelAdded(linesRead: seq<string>, queue: seq<Item>, lost: set<nat>, mark: nat)
    requires Covered(linesRead, queue, lost, mark)
    ensures Covered(linesRead, queue + [Sentinel], lost, mark)
  {
    hide Noise;
  }

  /** What the head of the queue says about the lines before it, during a wait. */
  lemma HeadIsFirst(s: Link)
    requires QueueTrue(s) && NothingStale(s) && NothingMissed(s)
    requires s.phase.Waiting? && s.queue != [] && s.queue[0].Routed?
    ensures var n := s.queue[0].index;
      && s.phase.mark <= n < |s.linesRead| && s.linesRead[n] == s.queue[0].line
      && n !in s.lost && n !in IndexesIn(s.queue[1..])
      && forall k :: s.phase.mark <= k < n ==> Noise(s.linesRead[k]) || k in s.lost
  {
    hide Noise;
    var head := s.queue[0];
    assert forall i :: 0 <= i < |s.queue[1..]| ==> s.queue[1..][i] == s.queue[i + 1];
    assert forall i :: 0 <= i < |s.queue| && s.queue[i].Routed? ==> s.queue[i].index >= head.index;
    assert forall k :: s.phase.mark <= k < head.index ==> Routed(k, s.linesRead[k]) !in s.queue;
  }

  lemma FreshStep(s: Link, e: Event, retryCount: nat)
    requires QueueTrue(s) && NothingStale(s) && NothingMissed(s) && AllFresh(s) && Enabled(s, e)
    ensures AllFresh(Do(s, e, retryCount))
  {
    hide Noise;
    if e.CallerTakes? && !NoiseItem(s.queue[0]) {
      HeadIsFirst(s);
    }
  }

  lemma HonestStep(s: Link, e: Event, retryCount: nat)
    requires QueueTrue(s) && NothingStale(s) && NothingMissed(s) && AllHonest(s) && Enabled(s, e)
    ensures AllHonest(Do(s, e, retryCount))
  {
    hide Noise, Honest;
    var t := Do(s, e, retryCount);
    forall a: Attempt | Honest(a, s.linesRead) ensures Honest(a, t.linesRead) {
      StillHonest(a, s.linesRead, t.linesRead);
    }
    if e.CallerTakes? && !NoiseItem(s.queue[0]) {
      TakingIsHonest(s);
    } else if e.TimeRunsOut? {
      TimeoutIsHonest(s);
    }
  }

  lemma StillHonest(a: Attempt, linesRead: seq<string>, more: seq<string>)
    requires Honest(a, linesRead) && linesRead <= more
    ensures Honest(a, more)
  {
    hide Noise;
  }

  lemma TakingIsHonest(s: Link)
    requires QueueTrue(s) && NothingStale(s) && NothingMissed(s)
    requires s.phase.Waiting? && s.queue != [] && !NoiseItem(s.queue[0])
    ensures Honest(EndOfAttempt(s, Some(s.queue[0].index), s.queue[1..]), s.linesRead)
  {
    HeadIsFirst(s);
    hide Noise;
  }

  lemma TimeoutIsHonest(s: Link)
    requires QueueTrue(s) && NothingStale(s) && NothingMissed(s) && s.phase.Waiting?
    ensures Honest(EndOfAttempt(s, None, s.queue), s.linesRead)
  {
    hide Noise;
  }

  lemma AttemptsStep(s: Link, e: Event, retryCount: nat)
    requires Attempts(s, retryCount) && Enabled(s, e)
    ensures Attempts(Do(s, e, retryCount), retryCount)
  {
    hide Noise;
  }

  lemma {:induction false} InvHolds(events: seq<Event>, retryCount: nat)
    requires Run(events, retryCount).Some?
    ensures Inv(Run(events, retryCount).value, retryCount)
    decreases |events|
  {
    hide Do, Enabled, QueueTrue, NothingStale, NothingMissed, AllFresh, AllHonest, Attempts;
    if events == [] {
      InvInitially(retryCount);
    } else {
      var e := events[|events| - 1];
      var p := Run(events[..|events| - 1], retryCount).value;
      InvHolds(events[..|events| - 1], retryCount);
      QueueStep(p, e, retryCount);
      StaleStep(p, e, retryCount);
      MissedStep(p, e, retryCount);
      FreshStep(p, e, retryCount);
      HonestStep(p, e, retryCount);
      AttemptsStep(p, e, retryCount);
    }
  }

  lemma InvInitially(retryCount: nat)
    ensures Inv(INITIAL, retryCount)
  {
  }

  /** Over all interleavings: whatever a call returns, unless it is nothing, is a line that is
      neither empty nor noise and was read after the write of the attempt that returned it; and
      if no e-stop or disconnection was under way since, it is the first such line. A call writes
      at most `retryCount` + 1 times, and exactly so often when it returns nothing. */
  lemma SerialFreshness(events: seq<Event>, retryCount: nat)
    requires Run(events, retryCount).Some?
    ensures var s := Run(events, retryCount).value;
      forall i :: 0 <= i < |s.returned| ==>
        && 1 <= s.returned[i].attempts <= retryCount + 1
        && match s.returned[i].answer
           case None => s.returned[i].attempts == retryCount + 1
           case Some(a) => FreshAnswer(a, s.linesRead) && FreshText(a, s.linesRead)
  {
    hide Run, Noise, RealText;
    InvHolds(events, retryCount);
    TextsOf(Run(events, retryCount).value.linesRead);
  }

  /** In terms of the texts: the answer is real, and if nothing disturbed its attempt, no line read
      between the write and it was. */
  ghost predicate FreshText(a: Answer, linesRead: seq<string>) {
    && RealText(a.line)
    && (!a.disturbed ==> forall k :: a.mark <= k < a.index && k < |linesRead| ==> !RealText(linesRead[k]))
  }

  lemma TextsOf(linesRead: seq<string>)
    ensures forall k :: 0 <= k < |linesRead| ==> (Noise(linesRead[k]) <==> !RealText(linesRead[k]))
  {
    hide Noise, RealText;
    forall k | 0 <= k < |linesRead| ensures Noise(linesRead[k]) <==> !RealText(linesRead[k]) {
      NoiseIffNotReal(linesRead[k]);
    }
  }

  /** The first real line read during an attempt. */
  ghost predicate FirstRealOf(a: Attempt, linesRead: seq<string>, n: nat)
    requires a.end <= |linesRead|
  {
    a.mark <= n < a.end && RealText(linesRead[n]) && forall k :: a.mark <= k < n ==> !RealText(linesRead[k])
  }

  /** Over all interleavings, for every attempt of every call, disturbed or not: it returns the
      first real line read since its write iff that line was queued (the flag was up when it was
      routed), no drain of an e-stop took it, and it was not still in the queue when time ran out.
      An undisturbed attempt loses nothing, so if it returns nothing then no real line was taken
      from the queue before the timeout: all that was read is noise or still there. */
  lemma FirstLineReturnedIff(events: seq<Event>, retryCount: nat, i: nat, j: nat)
    requires Run(events, retryCount).Some?
    requires var s := Run(events, retryCount).value; i < |s.returned| && j < |s.returned[i].tries|
    ensures var s := Run(events, retryCount).value;
      var a := s.returned[i].tries[j];
      && a.end <= |s.linesRead|
      && (forall n: nat :: FirstRealOf(a, s.linesRead, n) ==>
            (a.answer == Some(n) <==> n !in a.lost && n !in a.left))
      && (!a.disturbed ==> a.lost == {})
      && (a.answer.None? && !a.disturbed ==>
            forall k :: a.mark <= k < a.end ==> !RealText(s.linesRead[k]) || k in a.left)
  {
    hide Run, Noise, RealText;
    InvHolds(events, retryCount);
    TextsOf(Run(events, retryCount).value.linesRead);
    var s := Run(events, retryCount).value;
    assert Honest(s.returned[i].tries[j], s.linesRead);
  }

  /** The tries of a call: as many as it wrote; only the last may have an answer, the call's own. */
  lemma CallIsItsTries(events: seq<Event>, retryCount: nat, i: nat)
    requires Run(events, retryCount).Some?
    requires i < |Run(events, retryCount).value.returned|
    ensures var c := Run(events, retryCount).value.returned[i];
      |c.tries| == c.attempts && TriesOf(c.tries, c.answer)
  {
    hide Run, Noise, Honest, TriesOf;
    InvHolds(events, retryCount);
  }

  lemma OneMore(events: seq<Event>, e: Event, retryCount: nat)
    requires Run(events, retryCount).Some? && Enabled(Run(events, retryCount).value, e)
    ensures Run(events + [e], retryCount) == Some(Do(Run(events, retryCount).value, e, retryCount))
  {
    assert (events + [e])[..|events|] == events;
  }

  /** While an e-stop is under way even the right answer can be lost: its drain takes the reply
      that was read after the write, and the call returns nothing. */
  lemma StopStealsReply(line: string) returns (events: seq<Event>)
    requires line != "" && !Noise(line)
    ensures Run(events, 0).Some?
    ensures var s := Run(events, 0).value;
      && s.linesRead == [line] && s.writes == 1
      && |s.returned| == 1 && s.returned[0].answer.None? && s.returned[0].attempts == 1
      && |s.returned[0].tries| == 1 && s.returned[0].tries[0].lost == {0} && s.returned[0].tries[0].left == {}
  {
    hide Run, Noise;
    assert Run([], 0) == Some(INITIAL) by { Begins(); }
    events := Then([], CallBegins);
    events := Then(events, DrainEnds);
    events := Then(events, StopBegins);
    events := Then(events, CallerWrites);
    events := Then(events, ReaderRoutes(line));
    events := Then(events, StopDrains);
    events := Then(events, StopDrains);
    events := Then(events, TimeRunsOut);
    events := Then(events, AttemptEnds);
  }

  lemma Begins()
    ensures Run([], 0) == Some(INITIAL)
  {
  }

  lemma Then(events: seq<Event>, e: Event) returns (more: seq<Event>)
    requires Run(events, 0).Some? && Enabled(Run(events, 0).value, e)
    ensures Run(more, 0) == Some(Do(Run(events, 0).value, e, 0))
  {
    OneMore(events, e, 0);
    more := events + [e];
  }
}
