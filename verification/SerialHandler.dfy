/** The serial link's command caller against any finite schedule of incoming lines: one command,
    its deadline, its retries. Times are in milliseconds. A blocked `queue.get` wakes when the
    reader completes a line, all lines of that instant being routed first, or times out; what
    arrives at the very instant of a timeout arrives after it. Writing takes no time. */
module SerialHandler {
  import opened Prelude
  import opened Text

  const DRAIN_MS := 150
  const RETRY_PAUSE_MS := 1000

  /** Firmware echo, or the empty sentinel. */
  predicate Noise(line: string) {
    var s := Lower(Strip(line));
    s == "" || Contains(s, "yo! on my way!") || Contains(s, "on my way")
  }

  // ---- What counts as an answer, in terms of the text -------------------------------

  /** A text with something in it besides whitespace, which nowhere reads "on my way", in whatever
      letter case. */
  ghost predicate RealText(text: string) {
    && (exists i :: 0 <= i < |text| && !IsSpace(text[i]))
    && forall a, b :: Lower(text) != a + "on my way" + b
  }

  ghost predicate Echoes(text: string) {
    exists a, b :: Lower(text) == a + "on my way" + b
  }

  /** Just the real texts are not noise. */
  lemma NoiseIffNotReal(line: string)
    ensures Noise(line) <==> !RealText(line)
  {
    hide Contains, Strip, Lower;
    StripBlankIff(line);
    EchoesIffContained(line);
    if Contains(Lower(Strip(line)), "yo! on my way!") {
      LongEcho(Lower(Strip(line)));
    }
    EmptyLower(Strip(line));
  }

  lemma EmptyLower(s: string)
    ensures Lower(s) == "" <==> s == ""
  {
  }

  lemma EchoesIffContained(line: string)
    ensures Contains(Lower(Strip(line)), "on my way") <==> Echoes(line)
  {
    hide Strip, Lower, Contains;
    var before, after := StripIs(line);
    var s := Strip(line);
    LowerConcat(before, s, after);
    if Contains(Lower(s), "on my way") {
      var a, b := ContainsSplits(Lower(s), "on my way");
      Around(Lower(before), a, "on my way", b, Lower(after));
      assert Lower(line) == (Lower(before) + a) + "on my way" + (b + Lower(after));
    }
    if Echoes(line) {
      var a, b :| Lower(line) == a + "on my way" + b;
      EchoInside(before, s, after, a, b);
    }
  }

  lemma Around(x: string, a: string, sub: string, b: string, y: string)
    ensures x + (a + sub + b) + y == (x + a) + sub + (b + y)
  {
  }

  lemma LowerConcat(a: string, s: string, b: string)
    ensures Lower(a + s + b) == Lower(a) + Lower(s) + Lower(b)
  {
  }

  /** The longer echo holds the shorter one. */
  lemma LongEcho(s: string)
    requires Contains(s, "yo! on my way!")
    ensures Contains(s, "on my way")
  {
    hide Contains;
    var a, b := ContainsSplits(s, "yo! on my way!");
    assert "yo! on my way!" == "yo! " + "on my way" + "!";
    Around(a, "yo! ", "on my way", "!", b);
    SplitContains(a + "yo! ", "on my way", "!" + b);
  }

  /** An echo begins and ends with a letter, so the whitespace around a text holds no part of it. */
  lemma EchoInside(before: string, s: string, after: string, a: string, b: string)
    requires AllSpace(before) && AllSpace(after)
    requires Lower(before + s + after) == a + "on my way" + b
    ensures Contains(Lower(s), "on my way")
  {
    var line := before + s + after;
    var i := |a|;
    assert Lower(line)[i] == 'o' && Lower(line)[i + 8] == 'y';
    assert !IsSpace(line[i]) && !IsSpace(line[i + 8]);
    assert forall k :: 0 <= k < |before| ==> line[k] == before[k];
    assert forall k :: |before| + |s| <= k < |line| ==> line[k] == after[k - |before| - |s|];
    var j := i - |before|;
    forall k | 0 <= k < 9 ensures Lower(s)[j + k] == "on my way"[k] {
      assert line[i + k] == s[j + k] && Lower(line)[i + k] == "on my way"[k];
    }
    assert Lower(s)[j..][..9] == "on my way";
  }

  /** The firmware's echo is discarded, the answer behind it is not. */
  lemma EchoAndAnswer()
    ensures !RealText("Yo! On my way!") && RealText("ROWS=12 COLS=7")
  {
    assert Lower("Yo! On my way!") == "yo! " + "on my way" + "!";
    assert "ROWS=12 COLS=7"[0] == 'R' && !IsSpace('R');
    assert 'n' !in Lower("ROWS=12 COLS=7");
    forall a, b ensures Lower("ROWS=12 COLS=7") != a + "on my way" + b {
      assert (a + "on my way" + b)[|a| + 1] == 'n';
    }
  }

  /** A line that the reader thread completes at the given time. */
  datatype Arrival = Arrival(at: int, line: string)

  datatype Write = Write(at: int, command: string)

  predicate Sorted(lines: seq<Arrival>) {
    forall i, j :: 0 <= i < j < |lines| ==> lines[i].at <= lines[j].at
  }

  /** Nothing but noise arrives from `from` until `to`. */
  ghost predicate Silent(lines: seq<Arrival>, from: int, to: int) {
    forall i :: 0 <= i < |lines| && from <= lines[i].at < to ==> Noise(lines[i].line)
  }

  /** `lines[k]` is the first line from `from` on that is not noise, and comes before `to`. */
  ghost predicate FirstReal(lines: seq<Arrival>, k: int, from: int, to: int) {
    && 0 <= k < |lines| && from <= lines[k].at < to && !Noise(lines[k].line)
    && forall i :: 0 <= i < k && from <= lines[i].at ==> Noise(lines[i].line)
  }

  function Texts(lines: seq<Arrival>): (t: seq<string>)
    ensures |t| == |lines| && forall i :: 0 <= i < |t| ==> t[i] == lines[i].line
  {
    seq(|lines|, i requires 0 <= i < |lines| => lines[i].line)
  }

  /** An attempt's answer, for a command written at `w`, and the time at which it ends. */
  ghost predicate Answers(lines: seq<Arrival>, w: int, timeout: int, result: Option<string>, end: int) {
    if Silent(lines, w, w + timeout) then result.None? && end == w + timeout
    else exists k :: FirstReal(lines, k, w, w + timeout) && result == Some(lines[k].line) && end == lines[k].at
  }

  /** The same in terms of the texts: the answer is the first real text from the write on that comes
      in time, at its arrival; without one the attempt ends at the timeout. */
  ghost predicate AnswersInText(lines: seq<Arrival>, w: int, timeout: int, result: Option<string>, end: int) {
    match result
    case None =>
      end == w + timeout && forall i :: 0 <= i < |lines| && w <= lines[i].at < w + timeout ==> !RealText(lines[i].line)
    case Some(text) =>
      exists k :: 0 <= k < |lines| && FirstRealText(lines, k, w, timeout) && text == lines[k].line && end == lines[k].at
  }

  ghost predicate FirstRealText(lines: seq<Arrival>, k: int, w: int, timeout: int)
    requires 0 <= k < |lines|
  {
    && w <= lines[k].at < w + timeout && RealText(lines[k].line)
    && forall i :: 0 <= i < k && w <= lines[i].at ==> !RealText(lines[i].line)
  }

  lemma InTextTerms(lines: seq<Arrival>, w: int, timeout: int, result: Option<string>, end: int)
    requires Answers(lines, w, timeout, result, end)
    ensures AnswersInText(lines, w, timeout, result, end)
  {
    hide Noise, RealText;
    forall i | 0 <= i < |lines| ensures Noise(lines[i].line) <==> !RealText(lines[i].line) {
      NoiseIffNotReal(lines[i].line);
    }
    if !Silent(lines, w, w + timeout) {
      var k :| FirstReal(lines, k, w, w + timeout) && result == Some(lines[k].line) && end == lines[k].at;
      assert FirstRealText(lines, k, w, timeout);
    }
  }

  datatype Reply = NotConnected | NoReply | Line(text: string)

  class Handler {
    const timeoutMs: nat
    const retryCount: nat
    /** Every line that will ever arrive; the reader has routed the first `next` of them. */
    const schedule: seq<Arrival>
    var next: nat
    var connected: bool
    var now: int
    var waiting: bool
    var queue: seq<string>
    var unsolicited: seq<string>
    var written: seq<Write>

    ghost predicate Valid()
      reads this
    {
      && Sorted(schedule) && next <= |schedule|
      && (forall i :: 0 <= i < next ==> schedule[i].at <= now)
      && (forall i :: next <= i < |schedule| ==> schedule[i].at >= now)
    }

    constructor (timeoutMs: nat, retryCount: nat, now: int, schedule: seq<Arrival>)
      requires Sorted(schedule) && forall i :: 0 <= i < |schedule| ==> schedule[i].at >= now
      ensures this.timeoutMs == timeoutMs && this.retryCount == retryCount && this.schedule == schedule
      ensures this.now == now && next == 0 && connected && !waiting
      ensures Valid() && queue == [] && unsolicited == [] && written == []
    {
      this.timeoutMs, this.retryCount, this.schedule, this.now := timeoutMs, retryCount, schedule, now;
      connected, waiting, queue, unsolicited, written, next := true, false, [], [], [], 0;
    }

    method RouteResponse(line: string)
      modifies this`queue, this`unsolicited
      ensures queue == old(queue) + if waiting then [line] else []
      ensures unsolicited == old(unsolicited) + if waiting then [] else [line]
    {
      if waiting {
        queue := queue + [line];
      } else {
        unsolicited := unsolicited + [line];
      }
    }

    /** The reader routes every line that comes before `to`, and those at `to` if `inclusive`. */
    method Advance(to: int, inclusive: bool)
      requires Valid() && to >= now
      modifies this`now, this`next, this`queue, this`unsolicited
      ensures Valid() && now == to && old(next) <= next
      ensures forall i :: next <= i < |schedule| ==> if inclusive then schedule[i].at > to else schedule[i].at >= to
      ensures forall i :: old(next) <= i < next ==> if inclusive then schedule[i].at <= to else schedule[i].at < to
      ensures queue == old(queue) + if waiting then Texts(schedule[old(next)..next]) else []
    {
      while next < |schedule| && (schedule[next].at < to || (inclusive && schedule[next].at == to))
        invariant old(next) <= next <= |schedule|
        invariant forall i :: old(next) <= i < next ==> if inclusive then schedule[i].at <= to else schedule[i].at < to
        invariant queue == old(queue) + if waiting then Texts(schedule[old(next)..next]) else []
      {
        RouteResponse(schedule[next].line);
        assert Texts(schedule[old(next)..next + 1]) == Texts(schedule[old(next)..next]) + [schedule[next].line];
        next := next + 1;
      }
      now := to;
    }

    /** `queue.get(timeout)`: an item at once if there is one, otherwise the first to arrive in
        time, otherwise nothing when time is up. */
    method QueueGet(timeout: nat) returns (item: Option<string>)
      requires Valid()
      modifies this`now, this`next, this`queue, this`unsolicited
      ensures Valid() && old(now) <= now <= old(now) + timeout && old(next) <= next
      ensures old(queue) != [] ==>
        item == Some(old(queue)[0]) && queue == old(queue)[1..] && now == old(now) && next == old(next)
      ensures old(queue) == [] && item.None? ==>
        && now == old(now) + timeout && queue == []
        && forall i :: old(next) <= i < next ==> schedule[i].at < now
      ensures old(queue) == [] && item.None? && waiting ==> next == old(next)
      ensures old(queue) == [] && item.Some? ==>
        && waiting && now < old(now) + timeout && old(next) < next
        && (forall i :: old(next) <= i < next ==> schedule[i].at == now)
        && [item.value] + queue == Texts(schedule[old(next)..next])
    {
      if queue != [] {
        item := Some(queue[0]);
        queue := queue[1..];
        return;
      }
      var deadline := now + timeout;
      if waiting && next < |schedule| && schedule[next].at < deadline {
        Advance(schedule[next].at, true);
        item := Some(queue[0]);
        queue := queue[1..];
      } else {
        Advance(deadline, false);
        item := None;
      }
    }

    /** Discards what is left in the queue, for 150 ms, while nobody waits. */
    method DrainStale()
      requires Valid() && !waiting
      modifies this`now, this`next, this`queue, this`unsolicited
      ensures Valid() && queue == [] && now == old(now) + DRAIN_MS
      ensures old(next) <= next && forall i :: 0 <= i < next ==> schedule[i].at < now
    {
      var deadline := now + DRAIN_MS;
      var stale := QueueGet(Max(0, deadline - now));
      while stale.Some?
        invariant Valid()
        invariant stale.Some? ==> now == old(now) && next == old(next)
        invariant stale.None? ==> queue == [] && now == deadline
        invariant stale.None? ==> old(next) <= next && forall i :: 0 <= i < next ==> schedule[i].at < now
        decreases stale.Some?, |queue|
      {
        stale := QueueGet(Max(0, deadline - now));
      }
    }

    /** One attempt: the command goes out after the drain, and the answer is the first line after
        that, noise apart, that arrives within the timeout, at the moment it arrives; without
        one the attempt ends when the timeout does, however much noise came. */
    method WriteAndWait(command: string) returns (result: Option<string>)
      requires Valid() && !waiting
      modifies this`now, this`next, this`queue, this`unsolicited, this`waiting, this`written
      ensures Valid() && !waiting
      ensures written == old(written) + [Write(old(now) + DRAIN_MS, Strip(command))]
      ensures Answers(schedule, old(now) + DRAIN_MS, timeoutMs, result, now)
      ensures AnswersInText(schedule, old(now) + 150, timeoutMs, result, now)
      ensures now <= old(now) + DRAIN_MS + timeoutMs
    {
      hide Noise, Strip, AnswersInText;
      DrainStale();
      waiting := true;
      written := written + [Write(now, Strip(command))];
      ghost var w := now;
      ghost var c := next;
      var deadline := now + timeoutMs;
      result := None;
      while true
        invariant Valid() && waiting && result.None?
        invariant written == old(written) + [Write(w, Strip(command))]
        invariant w <= now <= deadline && 0 <= c <= next
        invariant now == deadline ==> c == next
        invariant forall i :: 0 <= i < c && schedule[i].at >= w ==> Noise(schedule[i].line)
        invariant forall i :: c <= i < next ==> schedule[i].at == now
        invariant queue == Texts(schedule[c..next])
        decreases |queue| + |schedule| - next, deadline - now
      {
        var remaining := deadline - now;
        if remaining <= 0 {
          break;
        }
        var item := QueueGet(remaining);
        if item.None? {
          break;
        }
        assert item.value == schedule[c].line && queue == Texts(schedule[c + 1..next]);
        if !Noise(item.value) {
          result := item;
          assert FirstReal(schedule, c, w, deadline);
          break;
        }
        c := c + 1;
      }
      waiting := false;
      assert AnswersInText(schedule, w, timeoutMs, result, now) by {
        assert Answers(schedule, w, timeoutMs, result, now);
        InTextTerms(schedule, w, timeoutMs, result, now);
      }
    }

    /** `send_command`: at most `retryCount` + 1 attempts with a pause of one second between them.
        No answer means that every attempt was made and timed out; an answer belongs to the last
        attempt made, and all before it timed out. */
    method SendCommand(command: string) returns (reply: Reply)
      requires Valid() && !waiting
      modifies this`now, this`next, this`queue, this`unsolicited, this`waiting, this`written
      ensures Valid() && !waiting
      ensures reply.NotConnected? <==> !connected
      ensures !connected ==> written == old(written) && now == old(now)
      ensures connected ==>
        exists n :: Sent(reply, n, Strip(command), old(now), now, old(written), written)
          && SentInText(reply, n, Strip(command), old(now), now, old(written), written)
    {
      if !connected {
        return NotConnected;
      }
      hide Noise, Strip, Answers, AnswersInText, Silent, FirstReal, Valid, Attempts, WriteTime, Sent, SentInText;
      ghost var start, before := now, written;
      var result := WriteAndWait(command);
      FirstAttempt(Strip(command), start, before, result);
      var attempt := 1;
      while result.None? && attempt <= retryCount
        invariant 1 <= attempt <= retryCount + 1 && connected
        invariant InCall(attempt, Strip(command), start, before, result)
      {
        result := Retry(command, attempt, start, before);
        attempt := attempt + 1;
      }
      reply := if result.Some? then Line(result.value) else NoReply;
      AtEndOfCall(attempt, Strip(command), start, before, result);
      CallInTextTerms(attempt, Strip(command), start, before, result);
    }

    /** A pause and one more attempt. */
    method Retry(command: string, ghost attempt: nat, ghost start: int, ghost before: seq<Write>)
      returns (result: Option<string>)
      requires attempt >= 1 && InCall(attempt, Strip(command), start, before, None)
      modifies this`now, this`next, this`queue, this`unsolicited, this`waiting, this`written
      ensures InCall(attempt + 1, Strip(command), start, before, result)
    {
      hide Noise, Strip, Answers, Silent, FirstReal, Valid, Attempts, WriteTime;
      NoAnswer(WriteTime(start, attempt - 1), now);
      WriteTimeStep(start, attempt);
      Advance(now + RETRY_PAUSE_MS, false);
      OneMoreAttempt(attempt, Strip(command), start, before, written);
      result := WriteAndWait(command);
    }

    /** After n attempts of a call, the last with the given result. */
    ghost predicate InCall(n: int, command: string, start: int, before: seq<Write>, result: Option<string>)
      reads this
    {
      && Valid() && !waiting
      && Attempts(n, command, start, before, written)
      && (forall i :: 0 <= i < n - 1 ==> TimedOut(i, start))
      && Answers(schedule, WriteTime(start, n - 1), timeoutMs, result, now)
    }

    lemma FirstAttempt(command: string, start: int, before: seq<Write>, result: Option<string>)
      requires Valid() && !waiting
      requires written == before + [Write(start + DRAIN_MS, command)]
      requires Answers(schedule, start + DRAIN_MS, timeoutMs, result, now)
      ensures InCall(1, command, start, before, result)
    {
      assert WriteTime(start, 0) == start + DRAIN_MS;
    }

    lemma AtEndOfCall(n: nat, command: string, start: int, before: seq<Write>, result: Option<string>)
      requires 1 <= n <= retryCount + 1 && InCall(n, command, start, before, result)
      requires result.None? ==> n == retryCount + 1
      ensures Sent(if result.Some? then Line(result.value) else NoReply, n, command, start, now, before, written)
    {
      hide Noise, Silent, FirstReal, Attempts, WriteTime;
    }

    lemma NoAnswer(w: int, end: int)
      requires Answers(schedule, w, timeoutMs, None, end)
      ensures Silent(schedule, w, w + timeoutMs) && end == w + timeoutMs
    {
    }

    lemma OneMoreAttempt(n: nat, command: string, start: int, before: seq<Write>, after: seq<Write>)
      requires Attempts(n, command, start, before, after)
      ensures Attempts(n + 1, command, start, before, after + [Write(WriteTime(start, n), command)])
    {
      assert seq(n + 1, i => Write(WriteTime(start, i), command))
        == seq(n, i => Write(WriteTime(start, i), command)) + [Write(WriteTime(start, n), command)];
    }

    /** When attempt `i` of a call that begins at `start` writes, if it is made. */
    function WriteTime(start: int, i: int): int {
      start + DRAIN_MS + i * (DRAIN_MS + timeoutMs + RETRY_PAUSE_MS)
    }

    lemma WriteTimeStep(start: int, i: int)
      ensures WriteTime(start, i) == WriteTime(start, i - 1) + timeoutMs + RETRY_PAUSE_MS + DRAIN_MS
    {
    }

    ghost predicate TimedOut(i: int, start: int) {
      Silent(schedule, WriteTime(start, i), WriteTime(start, i) + timeoutMs)
    }

    ghost predicate Attempts(n: int, command: string, start: int, before: seq<Write>, after: seq<Write>) {
      n >= 0 && after == before + seq(n, i => Write(WriteTime(start, i), command))
    }

    /** The outcome of a call of n attempts. */
    ghost predicate Sent(reply: Reply, n: int, command: string, start: int, end: int, before: seq<Write>,
      after: seq<Write>)
    {
      && 1 <= n <= retryCount + 1
      && Attempts(n, command, start, before, after)
      && (forall i :: 0 <= i < n - 1 ==> TimedOut(i, start))
      && match reply
         case NotConnected => false
         case NoReply => n == retryCount + 1 && TimedOut(n - 1, start) && end == WriteTime(start, n - 1) + timeoutMs
         case Line(text) =>
           exists k :: FirstReal(schedule, k, WriteTime(start, n - 1), WriteTime(start, n - 1) + timeoutMs)
             && text == schedule[k].line && end == schedule[k].at
    }

    /** The same in numbers and texts: attempt i writes 150 ms, and i times the timeout and 1150 ms,
        after the call; in no attempt but the last a real text comes in time; and how the last ends. */
    ghost predicate SentInText(reply: Reply, n: int, command: string, start: int, end: int, before: seq<Write>,
      after: seq<Write>)
    {
      && 1 <= n <= retryCount + 1 && |after| == |before| + n && before == after[..|before|]
      && (forall i :: 0 <= i < n ==> after[|before| + i].command == command && after[|before| + i].at == Nth(start, i))
      && (forall i :: 0 <= i < n - 1 ==> NothingReal(Nth(start, i)))
      && (reply.NoReply? ==> n == retryCount + 1)
      && !reply.NotConnected?
      && AnswersInText(schedule, Nth(start, n - 1), timeoutMs, if reply.Line? then Some(reply.text) else None, end)
    }

    function Nth(start: int, i: int): int {
      start + 150 + i * (timeoutMs + 1150)
    }

    ghost predicate NothingReal(w: int) {
      forall k :: 0 <= k < |schedule| && w <= schedule[k].at < w + timeoutMs ==> !RealText(schedule[k].line)
    }

    lemma CallInTextTerms(n: nat, command: string, start: int, before: seq<Write>, result: Option<string>)
      requires 1 <= n <= retryCount + 1 && InCall(n, command, start, before, result)
      requires result.None? ==> n == retryCount + 1
      ensures SentInText(if result.Some? then Line(result.value) else NoReply, n, command, start, now, before, written)
    {
      hide Noise, RealText, Valid, FirstReal, Answers, AnswersInText;
      InTextTerms(schedule, WriteTime(start, n - 1), timeoutMs, result, now);
      forall i | 0 <= i < n - 1 ensures NothingReal(Nth(start, i)) {
        assert TimedOut(i, start);
        forall k | 0 <= k < |schedule| && Nth(start, i) <= schedule[k].at < Nth(start, i) + timeoutMs
          ensures !RealText(schedule[k].line)
        {
          NoiseIffNotReal(schedule[k].line);
        }
      }
    }
  }
}
