/** The deadline of an attempt that emergency stops disturb. A stop puts the empty sentinel into the
    queue, keeps lines out of it while the flag is down, and drains others from it; what reaches
    the waiting caller is a schedule like any other. */
module DisturbedWaits {
  import opened Prelude
  import opened Text
  import opened SerialHandler

  /** What happens on the link while a caller waits: the reader completes a line, which reaches the
      caller or is lost to a stop; or a stop or disconnection puts a sentinel. */
  datatype Happening = LineRead(at: int, line: string, lost: bool) | Sentinel(at: int)

  predicate Reaches(h: Happening) {
    h.Sentinel? || !h.lost
  }

  function AsArrival(h: Happening): Arrival {
    Arrival(h.at, if h.LineRead? then h.line else "")
  }

  /** The items that the caller's `queue.get` can see. */
  function Reaching(happenings: seq<Happening>): seq<Arrival> {
    if happenings == [] then []
    else
      var last := happenings[|happenings| - 1];
      Reaching(happenings[..|happenings| - 1]) + if Reaches(last) then [AsArrival(last)] else []
  }

  lemma {:induction false} OriginOf(h: seq<Happening>, k: nat) returns (i: nat)
    requires k < |Reaching(h)|
    ensures i < |h| && Reaches(h[i]) && Reaching(h)[k] == AsArrival(h[i])
    ensures Reaching(h[..i]) == Reaching(h)[..k]
  {
    var n := |h| - 1;
    if k < |Reaching(h[..n])| {
      i := OriginOf(h[..n], k);
      assert h[..n][..i] == h[..i];
    } else {
      i := n;
    }
  }

  lemma {:induction false} ReachedAs(h: seq<Happening>, i: nat) returns (k: nat)
    requires i < |h| && Reaches(h[i])
    ensures k < |Reaching(h)| && Reaching(h)[k] == AsArrival(h[i])
    ensures Reaching(h[..i]) == Reaching(h)[..k]
  {
    var n := |h| - 1;
    if i < n {
      k := ReachedAs(h[..n], i);
      assert h[..n][..i] == h[..i];
    } else {
      k := |Reaching(h[..n])|;
    }
  }

  lemma {:induction false} ReachingIsSorted(h: seq<Happening>)
    requires forall i, j :: 0 <= i <= j < |h| ==> h[i].at <= h[j].at
    ensures Sorted(Reaching(h))
    ensures forall k :: 0 <= k < |Reaching(h)| ==> Reaching(h)[k].at <= h[|h| - 1].at
  {
    if h != [] {
      ReachingIsSorted(h[..|h| - 1]);
    }
  }

  lemma SentinelIsNoise()
    ensures Noise("")
  {
  }

  /** A real line that reached the caller from the write on. */
  ghost predicate RealFrom(h: Happening, w: int) {
    h.LineRead? && !h.lost && h.at >= w && RealText(h.line)
  }

  /** An attempt as `WriteAndWait` ends it, over what reaches the caller: however stops disturb it,
      it ends by its write time plus the timeout, at the first real line that was not lost, or
      at the timeout if every real line in time was. */
  lemma DisturbedAttemptEndsInTime(h: seq<Happening>, w: int, timeout: nat, result: Option<string>, end: int)
    requires Answers(Reaching(h), w, timeout, result, end)
    ensures end <= w + timeout
    ensures match result
      case None => end == w + timeout && forall i :: 0 <= i < |h| && RealFrom(h[i], w) ==> h[i].at >= w + timeout
      case Some(text) => exists i :: 0 <= i < |h| && FirstNotLost(h, i, w) && h[i].line == text && h[i].at == end
  {
    hide Noise, Reaching, RealText;
    SentinelIsNoise();
    forall i | 0 <= i < |h| && h[i].LineRead? ensures Noise(h[i].line) <==> !RealText(h[i].line) {
      NoiseIffNotReal(h[i].line);
    }
    var lines := Reaching(h);
    if Silent(lines, w, w + timeout) {
      forall i | 0 <= i < |h| && RealFrom(h[i], w) ensures h[i].at >= w + timeout {
        var k := ReachedAs(h, i);
        assert lines[k] == AsArrival(h[i]);
      }
    } else {
      var k :| FirstReal(lines, k, w, w + timeout) && result == Some(lines[k].line) && end == lines[k].at;
      var i := OriginOf(h, k);
      assert lines[k] == AsArrival(h[i]);
      forall j | 0 <= j < i ensures !RealFrom(h[j], w) {
        if RealFrom(h[j], w) {
          EarlierReached(h, j, i, k);
        }
      }
      assert FirstNotLost(h, i, w);
    }
  }

  ghost predicate FirstNotLost(h: seq<Happening>, i: nat, w: int)
    requires i < |h|
  {
    RealFrom(h[i], w) && forall j :: 0 <= j < i ==> !RealFrom(h[j], w)
  }

  /** What reached the caller before another item stands before it. */
  lemma EarlierReached(h: seq<Happening>, j: nat, i: nat, k: nat)
    requires j < i < |h| && Reaches(h[j]) && k < |Reaching(h)| && Reaching(h[..i]) == Reaching(h)[..k]
    ensures exists m :: 0 <= m < k && Reaching(h)[m] == AsArrival(h[j])
  {
    var m := ReachedAs(h[..i], j);
    assert Reaching(h)[..k][m] == AsArrival(h[..i][j]);
  }
}
