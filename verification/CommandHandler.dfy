/** Parsing, validation and routing of the command strings operators send. */
module CommandHandler {
  import opened Prelude
  import opened Text

  datatype Route = MqttPublish | Emergency | Camera | ScanEngine

  datatype ParsedCommand = ParsedCommand(raw: string, cmd: string, params: map<char, int>, route: Route)

  datatype Error = EmptyCommand | NotAllowed | RowOutOfRange | ColumnOutOfRange

  datatype Result = Ok(command: ParsedCommand) | Err(error: Error)

  const ALLOWED_COMMANDS: set<string> := {
    "G28", "M700", "M701", "M702", "M703", "M704", "M705", "M706", "M707", "M710", "M711", "M114", "M799",
    "!", "CAPTURE", "SCAN_START", "SCAN_STOP"
  }

  const GRID_COMMANDS: set<string> := {"M700", "M701", "M702", "M703", "M704"}

  function RouteFor(cmd: string): Route {
    if cmd == "!" then Emergency
    else if cmd == "CAPTURE" then Camera
    else if cmd == "SCAN_START" || cmd == "SCAN_STOP" then ScanEngine
    else MqttPublish
  }

  // ---- Parameters -------------------------------------------------------------------

  /** An optional minus sign and at least one digit. */
  predicate IsNumeral(s: string) {
    if s != [] && s[0] == '-' then s[1..] != [] && AllDigits(s[1..]) else s != [] && AllDigits(s)
  }

  function NumeralValue(s: string): int
    requires IsNumeral(s)
  {
    if s[0] == '-' then 0 - ParseNat(s[1..]) else ParseNat(s)
  }

  /** A token that is a parameter: one letter and a numeral, nothing else. */
  predicate IsParam(token: string) {
    token != [] && IsLetter(token[0]) && IsNumeral(token[1..])
  }

  function ParamName(token: string): char
    requires IsParam(token)
  {
    UpperChar(token[0])
  }

  function ParamValue(token: string): int
    requires IsParam(token)
  {
    NumeralValue(token[1..])
  }

  /** The parameter map built from the tokens, left to right. */
  function Params(tokens: seq<string>): map<char, int> {
    if tokens == [] then map[]
    else
      var before := Params(tokens[..|tokens| - 1]);
      var token := tokens[|tokens| - 1];
      if IsParam(token) then before[ParamName(token) := ParamValue(token)] else before
  }

  /** Token i is the last one that gives parameter `name`. */
  predicate LastToGive(tokens: seq<string>, name: char, i: int) {
    && 0 <= i < |tokens| && IsParam(tokens[i]) && ParamName(tokens[i]) == name
    && forall j :: i < j < |tokens| && IsParam(tokens[j]) ==> ParamName(tokens[j]) != name
  }

  /** A parameter is present iff a token gives it, and its value is that of the last such token. */
  lemma {:induction false} LastTokenWins(tokens: seq<string>, name: char)
    ensures name in Params(tokens) <==> exists i :: LastToGive(tokens, name, i)
    ensures forall i :: LastToGive(tokens, name, i) ==>
      name in Params(tokens) && Params(tokens)[name] == ParamValue(tokens[i])
  {
    hide ParamName, ParamValue, IsParam;
    if tokens != [] {
      var n := |tokens| - 1;
      var front := tokens[..n];
      LastTokenWins(front, name);
      if IsParam(tokens[n]) && ParamName(tokens[n]) == name {
        assert LastToGive(tokens, name, n);
      } else {
        forall i ensures LastToGive(tokens, name, i) <==> LastToGive(front, name, i) {
          if LastToGive(front, name, i) {
            forall j | i < j < |tokens| && IsParam(tokens[j]) ensures ParamName(tokens[j]) != name {
              assert j < n ==> front[j] == tokens[j];
            }
          }
          if LastToGive(tokens, name, i) {
            assert i != n;
            assert forall j :: 0 <= j < n ==> front[j] == tokens[j];
          }
        }
      }
    }
  }

  // ---- Parsing and validation -------------------------------------------------------

  ghost function Parsed(raw: string): Result {
    var tokens := Tokens(Strip(raw));
    if tokens == [] then Err(EmptyCommand)
    else Ok(ParsedCommand(Strip(raw), Upper(tokens[0]), Params(tokens[1..]), RouteFor(Upper(tokens[0]))))
  }

  /** `parse_command`. */
  method ParseCommand(raw: string) returns (r: Result)
    ensures r == Parsed(raw)
    ensures r.Err? <==> AllSpace(raw)
  {
    var tokens := Tokens(Strip(raw));
    StripKeepsTokens(raw);
    NoTokensIffBlank(raw);
    if tokens == [] {
      return Err(EmptyCommand);
    }
    var cmd := Upper(tokens[0]);
    var params := map[];
    var rest := tokens[1..];
    for i := 0 to |rest|
      invariant params == Params(rest[..i])
    {
      assert rest[..i + 1][..i] == rest[..i];
      if IsParam(rest[i]) {
        params := params[ParamName(rest[i]) := ParamValue(rest[i])];
      }
    }
    assert rest[..|rest|] == rest;
    return Ok(ParsedCommand(Strip(raw), cmd, params, RouteFor(cmd)));
  }

  predicate InRange(params: map<char, int>, name: char, bound: int) {
    name in params ==> 0 <= params[name] < bound
  }

  /** `validate_command`: the outcome for a rack of `rows` by `cols`. */
  method ValidateCommand(raw: string, rows: int, cols: int) returns (r: Result)
    ensures r == Validated(raw, rows, cols)
  {
    var parsed := ParseCommand(raw);
    if parsed.Err? {
      return parsed;
    }
    var command := parsed.command;
    if command.cmd !in ALLOWED_COMMANDS {
      return Err(NotAllowed);
    }
    if command.cmd in GRID_COMMANDS {
      if 'R' in command.params {
        var row := command.params['R'];
        if !(0 <= row < rows) {
          return Err(RowOutOfRange);
        }
      }
      if 'C' in command.params {
        var col := command.params['C'];
        if !(0 <= col < cols) {
          return Err(ColumnOutOfRange);
        }
      }
    }
    return parsed;
  }

  ghost function Validated(raw: string, rows: int, cols: int): Result {
    var parsed := Parsed(raw);
    if parsed.Err? then parsed
    else if parsed.command.cmd !in ALLOWED_COMMANDS then Err(NotAllowed)
    else if parsed.command.cmd !in GRID_COMMANDS then parsed
    else if !InRange(parsed.command.params, 'R', rows) then Err(RowOutOfRange)
    else if !InRange(parsed.command.params, 'C', cols) then Err(ColumnOutOfRange)
    else parsed
  }

  // ---- Whitespace -------------------------------------------------------------------

  lemma {:induction false} NoTokensIffBlank(s: string)
    ensures Tokens(s) == [] <==> AllSpace(s)
  {
    if s != [] && IsSpace(s[0]) {
      NoTokensIffBlank(s[1..]);
      assert s == [s[0]] + s[1..];
    }
  }

  lemma {:induction false} DropTrailingSpace(s: string)
    requires s != [] && IsSpace(s[|s| - 1])
    ensures Tokens(s[..|s| - 1]) == Tokens(s)
    decreases |s|
  {
    var n := |s| - 1;
    if IsSpace(s[0]) {
      if n > 0 {
        DropTrailingSpace(s[1..]);
        assert s[1..][..n - 1] == s[..n][1..];
      }
    } else {
      var k := WordLength(s);
      var word, rest := s[..k], s[k..];
      assert s == word + rest && s[..n] == word + rest[..|rest| - 1];
      TokensOfWord(word, rest);
      TokensOfWord(word, rest[..|rest| - 1]);
      DropTrailingSpace(rest);
    }
  }

  lemma {:induction false} StripKeepsTokens(s: string)
    ensures Tokens(Strip(s)) == Tokens(s)
    decreases |s|
  {
    if s != [] {
      if IsSpace(s[0]) {
        StripKeepsTokens(s[1..]);
      } else if IsSpace(s[|s| - 1]) {
        DropTrailingSpace(s);
        StripKeepsTokens(s[..|s| - 1]);
      }
    }
  }

  /** The text with the given words, gap i in front of word i and one gap at the end. */
  function Spaced(gaps: seq<string>, words: seq<string>): string
    requires |gaps| == |words| + 1
  {
    if words == [] then gaps[0] else gaps[0] + (words[0] + Spaced(gaps[1..], words[1..]))
  }

  /** Gaps are whitespace, those between two words not empty; words are not empty and hold none. */
  predicate WellSpaced(gaps: seq<string>, words: seq<string>) {
    && |gaps| == |words| + 1
    && (forall i :: 0 <= i < |gaps| ==> AllSpace(gaps[i]) && (0 < i < |words| ==> gaps[i] != []))
    && (forall i :: 0 <= i < |words| ==> words[i] != [] && NoSpace(words[i]))
  }

  lemma {:induction false} TokensAreTheWords(gaps: seq<string>, words: seq<string>)
    requires WellSpaced(gaps, words)
    ensures Tokens(Spaced(gaps, words)) == words
  {
    if words == [] {
      NoTokensIffBlank(gaps[0]);
    } else {
      var rest := Spaced(gaps[1..], words[1..]);
      TokensAreTheWords(gaps[1..], words[1..]);
      TokensSkipSpace(gaps[0], words[0] + rest);
      TokensOfWord(words[0], rest);
      assert words == [words[0]] + words[1..];
    }
  }

  // ---- Moves to a cell --------------------------------------------------------------

  /** Some spelling of `M700 R{r} C{c}`: any letter case, any spacing. */
  predicate SpellsMove(raw: string, r: int, c: int, gaps: seq<string>, words: seq<string>) {
    && |words| == 3 && WellSpaced(gaps, words) && raw == Spaced(gaps, words)
    && Upper(words[0]) == "M700"
    && UpperChar(words[1][0]) == 'R' && words[1][1..] == Print(r)
    && UpperChar(words[2][0]) == 'C' && words[2][1..] == Print(c)
  }

  lemma PrintIsNumeral(n: int)
    ensures IsNumeral(Print(n)) && NumeralValue(Print(n)) == n
  {
    if n < 0 {
      ParseDecimal(-n);
      assert Print(n)[1..] == Decimal(-n);
    } else {
      ParseDecimal(n);
      assert Print(n)[0] == Decimal(n)[0];
    }
  }

  /** Parsing a move, however spelled, gives back exactly its row and column; it is accepted iff
      the cell is in the grid. */
  lemma MoveRoundTrip(raw: string, r: int, c: int, gaps: seq<string>, words: seq<string>, rows: int, cols: int)
    requires SpellsMove(raw, r, c, gaps, words)
    ensures Parsed(raw) == Ok(ParsedCommand(Strip(raw), "M700", map['R' := r, 'C' := c], MqttPublish))
    ensures Validated(raw, rows, cols).Ok? <==> 0 <= r < rows && 0 <= c < cols
  {
    TokensAreTheWords(gaps, words);
    StripKeepsTokens(raw);
    PrintIsNumeral(r);
    PrintIsNumeral(c);
    var rest := words[1..];
    assert rest == [words[1], words[2]];
    MoveParams(words[1], words[2], r, c);
  }

  lemma MoveParams(row: string, col: string, r: int, c: int)
    requires IsParam(row) && ParamName(row) == 'R' && ParamValue(row) == r
    requires IsParam(col) && ParamName(col) == 'C' && ParamValue(col) == c
    ensures Params([row, col]) == map['R' := r, 'C' := c]
  {
    hide IsParam, ParamName, ParamValue;
    assert [row, col][..1] == [row] && [row][..0] == [];
    assert Params([row]) == map['R' := r];
  }

  lemma SpacedThree(gaps: seq<string>, words: seq<string>)
    requires |words| == 3 && |gaps| == 4
    ensures Spaced(gaps, words) == gaps[0] + (words[0] + (gaps[1] + (words[1] + (gaps[2] + (words[2] + gaps[3])))))
  {
    assert Spaced(gaps[1..], words[1..]) == gaps[1] + (words[1] + Spaced(gaps[2..], words[2..])) by {
      assert gaps[1..][1..] == gaps[2..] && words[1..][1..] == words[2..];
    }
    assert Spaced(gaps[2..], words[2..]) == gaps[2] + (words[2] + Spaced(gaps[3..], words[3..])) by {
      assert gaps[2..][1..] == gaps[3..] && words[2..][1..] == words[3..];
    }
  }

  /** `M700`, two more words and single spaces between them. */
  function MoveText(first: string, second: string): string {
    "M700 " + first + " " + second
  }

  const SINGLE_GAPS := ["", " ", " ", ""]

  lemma MoveTextIsSpaced(first: string, second: string)
    requires first != [] && NoSpace(first) && second != [] && NoSpace(second)
    ensures WellSpaced(SINGLE_GAPS, ["M700", first, second])
    ensures MoveText(first, second) == Spaced(SINGLE_GAPS, ["M700", first, second])
  {
    hide Spaced;
    SpacedThree(SINGLE_GAPS, ["M700", first, second]);
  }

  lemma UpperOfMove()
    ensures Upper("M700") == "M700"
  {
  }

  /** What the scan executor sends for a cell is such a spelling. */
  lemma ExecutorSpellsMove(r: int, c: int)
    ensures var row, col := "R" + Print(r), "C" + Print(c);
      SpellsMove(MoveText(row, col), r, c, SINGLE_GAPS, ["M700", row, col])
  {
    hide Spaced, WellSpaced, MoveText, Print, Upper;
    LetterThenPrint('R', r);
    LetterThenPrint('C', c);
    UpperOfMove();
    MoveTextIsSpaced("R" + Print(r), "C" + Print(c));
  }

  lemma LetterThenPrint(letter: char, n: int)
    requires IsLetter(letter)
    ensures var word := [letter] + Print(n);
      && NoSpace(word) && word[1..] == Print(n)
      && IsParam(word) && ParamName(word) == UpperChar(letter) && ParamValue(word) == n
  {
    PrintHasNoSpace(n);
    PrintIsNumeral(n);
    assert ([letter] + Print(n))[1..] == Print(n);
  }

  lemma PrintHasNoSpace(n: int)
    ensures NoSpace(Print(n))
  {
    var digits := Decimal(Abs(n));
    assert forall i :: 0 <= i < |digits| ==> IsDigit(digits[i]);
  }

  // ---- What validation guarantees ---------------------------------------------------

  /** The last token that gives the parameter, if any does, is in range. */
  ghost predicate LastInRange(tokens: seq<string>, name: char, bound: int) {
    forall i :: LastToGive(tokens, name, i) ==> 0 <= ParamValue(tokens[i]) < bound
  }

  lemma InRangeIsLastInRange(tokens: seq<string>, name: char, bound: int)
    ensures InRange(Params(tokens), name, bound) <==> LastInRange(tokens, name, bound)
  {
    hide ParamValue, Params, LastToGive;
    LastTokenWins(tokens, name);
  }

  /** A command is accepted iff its word is on the list and, if it moves to a cell, the last token
      that gives R and the last that gives C are in range. */
  lemma AcceptedIffLastInRange(raw: string, rows: int, cols: int)
    requires Parsed(raw).Ok?
    ensures Tokens(raw) != []
    ensures Validated(raw, rows, cols).Ok? <==>
              && Upper(Tokens(raw)[0]) in ALLOWED_COMMANDS
              && (Upper(Tokens(raw)[0]) in GRID_COMMANDS ==>
                    LastInRange(Tokens(raw)[1..], 'R', rows) && LastInRange(Tokens(raw)[1..], 'C', cols))
  {
    hide LastInRange, InRange, Params, Tokens, Strip, Upper;
    StripKeepsTokens(raw);
    InRangeIsLastInRange(Tokens(raw)[1..], 'R', rows);
    InRangeIsLastInRange(Tokens(raw)[1..], 'C', cols);
  }

  /** So a row out of range passes when a later token repeats the parameter, though the text is sent
      on as it is. */
  lemma EarlierRowIsNotChecked(first: int, second: int, rows: int, cols: int)
    ensures Validated(MoveText("R" + Print(first), "R" + Print(second)), rows, cols).Ok? <==> 0 <= second < rows
  {
    hide Spaced, WellSpaced, MoveText, Print, Upper, Tokens, Strip, IsParam, ParamName, ParamValue;
    var raw, a, b := MoveText("R" + Print(first), "R" + Print(second)), "R" + Print(first), "R" + Print(second);
    LetterThenPrint('R', first);
    LetterThenPrint('R', second);
    UpperOfMove();
    MoveTextIsSpaced(a, b);
    TokensAreTheWords(SINGLE_GAPS, ["M700", a, b]);
    StripKeepsTokens(raw);
    assert ["M700", a, b][1..] == [a, b];
    RepeatedParam(a, b, 'R');
  }

  lemma RepeatedParam(first: string, second: string, name: char)
    requires IsParam(first) && ParamName(first) == name && IsParam(second) && ParamName(second) == name
    ensures Params([first, second]) == map[name := ParamValue(second)]
  {
    hide IsParam, ParamName, ParamValue;
    assert [first, second][..1] == [first] && [first][..0] == [];
    assert Params([first]) == map[name := ParamValue(first)];
  }
}
