/** The reader thread's line splitting: bytes come in chunks of any size, lines go out. */
module LineReader {
  import opened Prelude
  import opened Text

  newtype Byte = x: int | 0 <= x < 256

  const NEWLINE: Byte := 10

  function LineLength(s: seq<Byte>): (n: nat)
    ensures n <= |s|
    ensures n < |s| ==> s[n] == NEWLINE
    ensures NEWLINE !in s[..n]
  {
    if s == [] || s[0] == NEWLINE then 0 else 1 + LineLength(s[1..])
  }

  /** The complete lines of a byte stream, without their newlines. */
  function Lines(s: seq<Byte>): seq<seq<Byte>>
    decreases |s|
  {
    var n := LineLength(s);
    if n == |s| then [] else [s[..n]] + Lines(s[n + 1..])
  }

  /** What follows the last newline. */
  function Rest(s: seq<Byte>): seq<Byte>
    decreases |s|
  {
    var n := LineLength(s);
    if n == |s| then s else Rest(s[n + 1..])
  }

  /** Lines put back together, each with its newline. */
  function Joined(lines: seq<seq<Byte>>): seq<Byte> {
    if lines == [] then [] else lines[0] + [NEWLINE] + Joined(lines[1..])
  }

  function Concat(chunks: seq<seq<Byte>>): seq<Byte> {
    if chunks == [] then [] else chunks[0] + Concat(chunks[1..])
  }

  /** What is routed: each line decoded and stripped, unless that leaves nothing. */
  function Routed(lines: seq<seq<Byte>>, decode: seq<Byte> -> string): seq<string> {
    if lines == [] then []
    else
      var line := Strip(decode(lines[0]));
      (if line == "" then [] else [line]) + Routed(lines[1..], decode)
  }

  /** Line by line: a blank one is dropped, any other goes out without the whitespace at its ends. */
  lemma RoutedOne(line: seq<Byte>, decode: seq<Byte> -> string) returns (before: string, text: string, after: string)
    ensures decode(line) == before + text + after && AllSpace(before) && AllSpace(after)
    ensures text != "" ==> !IsSpace(text[0]) && !IsSpace(text[|text| - 1])
    ensures Routed([line], decode) == if AllSpace(decode(line)) then [] else [text]
  {
    before, after := StripIs(decode(line));
    text := Strip(decode(line));
    StripBlankIff(decode(line));
    assert Routed([line][1..], decode) == [];
  }

  /** And in order. */
  lemma {:induction false} RoutedAppend(a: seq<seq<Byte>>, b: seq<seq<Byte>>, decode: seq<Byte> -> string)
    ensures Routed(a + b, decode) == Routed(a, decode) + Routed(b, decode)
  {
    if a == [] {
      assert a + b == b;
    } else {
      assert (a + b)[1..] == a[1..] + b;
      RoutedAppend(a[1..], b, decode);
    }
  }

  lemma {:induction false} LineLengthOf(line: seq<Byte>, after: seq<Byte>)
    requires NEWLINE !in line
    ensures LineLength(line + [NEWLINE] + after) == |line|
    ensures LineLength(line) == |line|
  {
    if line == [] {
      assert ([NEWLINE] + after)[0] == NEWLINE;
      assert line + [NEWLINE] + after == [NEWLINE] + after;
    } else {
      assert (line + [NEWLINE] + after)[1..] == line[1..] + [NEWLINE] + after;
      LineLengthOf(line[1..], after);
    }
  }

  lemma SplitStep(s: seq<Byte>)
    ensures var n := LineLength(s);
      if n == |s| then Lines(s) == [] && Rest(s) == s && NEWLINE !in s
      else
        && Lines(s) == [s[..n]] + Lines(s[n + 1..]) && Rest(s) == Rest(s[n + 1..])
        && s == s[..n] + [NEWLINE] + s[n + 1..]
  {
    var n := LineLength(s);
    if n == |s| {
      assert s[..n] == s;
    } else {
      CutAtNewline(s, n);
    }
  }

  lemma CutAtNewline(s: seq<Byte>, n: nat)
    requires n < |s| && s[n] == NEWLINE
    ensures s == s[..n] + [NEWLINE] + s[n + 1..]
  {
  }

  /** Splitting is undone by joining; neither the lines nor the rest hold a newline. */
  lemma {:induction false} SplitReconstructs(s: seq<Byte>)
    ensures Joined(Lines(s)) + Rest(s) == s
    ensures NEWLINE !in Rest(s)
    ensures forall i :: 0 <= i < |Lines(s)| ==> NEWLINE !in Lines(s)[i]
    decreases |s|
  {
    hide Lines, Rest;
    var n := LineLength(s);
    SplitStep(s);
    if n < |s| {
      SplitReconstructs(s[n + 1..]);
      JoinedHead(s[..n], Lines(s[n + 1..]));
      assert Joined(Lines(s)) + Rest(s) == s[..n] + [NEWLINE] + (Joined(Lines(s[n + 1..])) + Rest(s[n + 1..]));
    }
  }

  /** A line ends at the first byte 10. */
  lemma LineEndsAtTen(line: seq<Byte>, after: seq<Byte>)
    requires 10 !in line
    ensures Lines(line + [10] + after) == [line] + Lines(after)
    ensures Lines(line) == [] && Rest(line) == line
  {
    var s := line + [10] + after;
    LineLengthOf(line, after);
    assert s[..|line|] == line && s[|line| + 1..] == after;
    SplitStep(s);
    SplitStep(line);
  }

  lemma JoinedHead(line: seq<Byte>, lines: seq<seq<Byte>>)
    ensures Joined([line] + lines) == line + [NEWLINE] + Joined(lines)
  {
    assert ([line] + lines)[1..] == lines;
  }

  /** There is only one such splitting. */
  lemma {:induction false} SplitIsUnique(lines: seq<seq<Byte>>, rest: seq<Byte>)
    requires NEWLINE !in rest
    requires forall i :: 0 <= i < |lines| ==> NEWLINE !in lines[i]
    ensures Lines(Joined(lines) + rest) == lines && Rest(Joined(lines) + rest) == rest
    decreases |lines|
  {
    if lines == [] {
      LineLengthOf(rest, []);
      assert Joined(lines) + rest == rest;
    } else {
      var after := Joined(lines[1..]) + rest;
      var s := Joined(lines) + rest;
      assert s == lines[0] + [NEWLINE] + after;
      LineLengthOf(lines[0], after);
      assert s[..|lines[0]|] == lines[0] && s[|lines[0]| + 1..] == after;
      SplitIsUnique(lines[1..], rest);
    }
  }

  lemma {:induction false} JoinedAppend(a: seq<seq<Byte>>, b: seq<seq<Byte>>)
    ensures Joined(a + b) == Joined(a) + Joined(b)
  {
    if a == [] {
      assert a + b == b;
    } else {
      assert (a + b)[1..] == a[1..] + b;
      JoinedAppend(a[1..], b);
    }
  }

  /** Splitting a stream in two steps, carrying the rest over, is splitting it at once. */
  lemma SplitInTwoSteps(a: seq<Byte>, b: seq<Byte>)
    ensures Lines(a + b) == Lines(a) + Lines(Rest(a) + b)
    ensures Rest(a + b) == Rest(Rest(a) + b)
  {
    var lines := Lines(a) + Lines(Rest(a) + b);
    var rest := Rest(Rest(a) + b);
    SplitReconstructs(a);
    SplitReconstructs(Rest(a) + b);
    hide Lines, Rest, Joined;
    JoinedAppend(Lines(a), Lines(Rest(a) + b));
    calc {
      a + b;
      Joined(Lines(a)) + Rest(a) + b;
      Joined(Lines(a)) + (Rest(a) + b);
      Joined(Lines(a)) + (Joined(Lines(Rest(a) + b)) + rest);
      Joined(Lines(a)) + Joined(Lines(Rest(a) + b)) + rest;
      Joined(lines) + rest;
    }
    SplitIsUnique(lines, rest);
  }

  lemma NothingLeft(s: seq<Byte>)
    requires NEWLINE !in s
    ensures Rest(s) == s && Lines(s) == []
  {
    LineLengthOf(s, []);
  }

  /** What will have been routed, and buffered, once the chunks from i on are read too. */
  ghost function RoutedInTheEnd(routed: seq<string>, buffer: seq<Byte>, chunks: seq<seq<Byte>>, i: nat,
    decode: seq<Byte> -> string): seq<string>
    requires i <= |chunks|
  {
    routed + Routed(Lines(buffer + Concat(chunks[i..])), decode)
  }

  ghost function BufferInTheEnd(buffer: seq<Byte>, chunks: seq<seq<Byte>>, i: nat): seq<Byte>
    requires i <= |chunks|
  {
    Rest(buffer + Concat(chunks[i..]))
  }

  /** Reading a chunk does not change them. */
  lemma OneMoreChunk(routed: seq<string>, buffer: seq<Byte>, chunks: seq<seq<Byte>>, i: nat,
    decode: seq<Byte> -> string)
    requires i < |chunks|
    ensures var all := buffer + chunks[i];
      RoutedInTheEnd(routed + Routed(Lines(all), decode), Rest(all), chunks, i + 1, decode)
        == RoutedInTheEnd(routed, buffer, chunks, i, decode)
    ensures BufferInTheEnd(Rest(buffer + chunks[i]), chunks, i + 1) == BufferInTheEnd(buffer, chunks, i)
  {
    hide Lines, Rest, Routed;
    var later := Concat(chunks[i + 1..]);
    assert chunks[i..][1..] == chunks[i + 1..];
    assert buffer + Concat(chunks[i..]) == (buffer + chunks[i]) + later;
    SplitInTwoSteps(buffer + chunks[i], later);
    RoutedAppend(Lines(buffer + chunks[i]), Lines(Rest(buffer + chunks[i]) + later), decode);
  }

  lemma BeforeTheFirstChunk(chunks: seq<seq<Byte>>, decode: seq<Byte> -> string)
    ensures RoutedInTheEnd([], [], chunks, 0, decode) == Routed(Lines(Concat(chunks)), decode)
    ensures BufferInTheEnd([], chunks, 0) == Rest(Concat(chunks))
  {
    assert chunks[0..] == chunks && [] + Concat(chunks) == Concat(chunks);
  }

  lemma AfterTheLastChunk(routed: seq<string>, buffer: seq<Byte>, chunks: seq<seq<Byte>>, decode: seq<Byte> -> string)
    requires NEWLINE !in buffer
    ensures RoutedInTheEnd(routed, buffer, chunks, |chunks|, decode) == routed
    ensures BufferInTheEnd(buffer, chunks, |chunks|) == buffer
  {
    assert buffer + Concat(chunks[|chunks|..]) == buffer;
    NothingLeft(buffer);
  }

  class Reader {
    /** UTF-8 decoding with replacement of what does not decode. */
    const decode: seq<Byte> -> string
    var buffer: seq<Byte>
    var routed: seq<string>

    constructor (decode: seq<Byte> -> string)
      ensures this.decode == decode && buffer == [] && routed == []
    {
      this.decode := decode;
      buffer, routed := [], [];
    }

    /** One chunk: append it to the buffer, then take lines off while there is a newline. */
    method Feed(chunk: seq<Byte>)
      modifies this
      ensures buffer == Rest(old(buffer) + chunk) && NEWLINE !in buffer
      ensures routed == old(routed) + Routed(Lines(old(buffer) + chunk), decode)
    {
      buffer := buffer + chunk;
      ghost var all := buffer;
      while NEWLINE in buffer
        invariant Rest(buffer) == Rest(all)
        invariant routed + Routed(Lines(buffer), decode) == old(routed) + Routed(Lines(all), decode)
        decreases |buffer|
      {
        var n := LineLength(buffer);
        assert buffer[..n] + buffer[n..] == buffer;
        var line := Strip(decode(buffer[..n]));
        buffer := buffer[n + 1..];
        if line == "" {
          continue;
        }
        routed := routed + [line];
      }
      NothingLeft(buffer);
    }

    /** The reader loop: what has been routed and what is buffered depend on the bytes received
        only, not on how they were cut into chunks. */
    method ReadAll(chunks: seq<seq<Byte>>)
      requires buffer == [] && routed == []
      modifies this
      ensures routed == Routed(Lines(Concat(chunks)), decode)
      ensures buffer == Rest(Concat(chunks))
    {
      hide RoutedInTheEnd, BufferInTheEnd, Lines, Rest, Routed, Concat;
      BeforeTheFirstChunk(chunks, decode);
      var i := 0;
      while i < |chunks|
        invariant 0 <= i <= |chunks|
        invariant RoutedInTheEnd(routed, buffer, chunks, i, decode) == RoutedInTheEnd([], [], chunks, 0, decode)
        invariant BufferInTheEnd(buffer, chunks, i) == BufferInTheEnd([], chunks, 0)
        invariant NEWLINE !in buffer
      {
        OneMoreChunk(routed, buffer, chunks, i, decode);
        Feed(chunks[i]);
        i := i + 1;
      }
      AfterTheLastChunk(routed, buffer, chunks, decode);
    }
  }
}
