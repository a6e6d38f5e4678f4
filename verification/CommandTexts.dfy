/** What parsing and validation make of a command text, read off the text itself. */
module CommandTexts {
  import opened Prelude
  import opened Text
  import opened CommandHandler

  // ---- Parameters -------------------------------------------------------------------

  /** A token of the form letter, optional minus sign, leading zeros, decimal numeral. */
  predicate Spells(token: string, letter: char, sign: string, zeros: string, n: nat) {
    && IsLetter(letter) && (sign == "" || sign == "-") && (forall i :: 0 <= i < |zeros| ==> zeros[i] == '0')
    && token == [letter] + sign + zeros + Decimal(n)
  }

  /** Every string of digits is a numeral with zeros in front. */
  lemma {:induction false} DigitsSpell(s: string) returns (zeros: string, n: nat)
    requires s != "" && AllDigits(s)
    ensures s == zeros + Decimal(n) && forall i :: 0 <= i < |zeros| ==> zeros[i] == '0'
  {
    var front, d := s[..|s| - 1], DigitValue(s[|s| - 1]);
    assert s == front + [s[|s| - 1]] && s[|s| - 1] == DigitChar(d);
    if front == "" {
      zeros, n := "", d;
      assert s == zeros + Decimal(n);
    } else {
      zeros, n := DigitsSpell(front);
      if n == 0 {
        assert Decimal(0) == "0";
        zeros, n := zeros + "0", d;
        assert s == zeros + Decimal(n);
      } else {
        NumeralsAre(n, d);
        assert Decimal(10 * n + d) == Decimal(n) + [DigitChar(d)];
        assert s == zeros + (Decimal(n) + [DigitChar(d)]);
        n := 10 * n + d;
      }
    }
  }

  /** Such a token gives the parameter of its letter, in upper case, the number it spells. */
  lemma SpelledParam(token: string, letter: char, sign: string, zeros: string, n: nat)
    requires Spells(token, letter, sign, zeros, n)
    ensures IsParam(token) && ParamName(token) == UpperChar(letter)
    ensures ParamValue(token) == if sign == "-" then 0 - n else n
  {
    var digits := zeros + Decimal(n);
    ParseLeadingZeros(zeros, Decimal(n));
    ParseDecimal(n);
    assert digits != "" && digits[0] != '-' && AllDigits(digits);
    assert token == [letter] + (sign + digits);
    assert token[1..] == sign + digits;
    assert sign == "-" ==> (sign + digits)[1..] == digits && (sign + digits)[0] == '-';
    assert sign == "" ==> sign + digits == digits;
  }

  /** No other token is a parameter. */
  lemma ParamSpells(token: string) returns (letter: char, sign: string, zeros: string, n: nat)
    requires IsParam(token)
    ensures Spells(token, letter, sign, zeros, n)
  {
    letter := token[0];
    sign := if token[1] == '-' then "-" else "";
    zeros, n := DigitsSpell(token[1 + |sign|..]);
    assert token == [letter] + sign + token[1 + |sign|..];
    assert token == [letter] + sign + (zeros + Decimal(n));
  }

  // ---- The answer to a text ---------------------------------------------------------

  /** A blank text is an error. Any other is read by its first word, in upper case: "!" goes to the
      emergency topic, CAPTURE to the camera, SCAN_START and SCAN_STOP to the scan engine, everything
      else to the rack; the text is kept but for the whitespace around it. */
  lemma RouteFollowsWord(gap: string, word: string, rest: string)
    requires FirstWord(gap, word, rest)
    ensures var raw, w := gap + word + rest, Upper(word);
      && Parsed(raw).Ok?
      && var c := Parsed(raw).command;
      && c.cmd == w
      && (c.route.Emergency? <==> w == "!")
      && (c.route.Camera? <==> w == "CAPTURE")
      && (c.route.ScanEngine? <==> w == "SCAN_START" || w == "SCAN_STOP")
      && c.params == Params(Tokens(rest))
      && c.raw != "" && !IsSpace(c.raw[0]) && !IsSpace(c.raw[|c.raw| - 1])
      && exists before, after :: AllSpace(before) && AllSpace(after) && raw == before + c.raw + after
  {
    hide Upper, Tokens, Strip, Params;
    var raw := gap + word + rest;
    TokensAfterWord(gap, word, rest);
    StripKeepsTokens(raw);
    var before, after := StripIs(raw);
    assert raw == before + Parsed(raw).command.raw + after;
    StripBlankIff(raw);
    assert raw[|gap|] == word[0];
  }

  /** The whitelist: four motion and query ranges of M codes, homing, position, the stop and the three
      words of the Pi. */
  predicate Listed(w: string) {
    || w == "G28" || w == "M700" || w == "M701" || w == "M702" || w == "M703" || w == "M704" || w == "M705"
    || w == "M706" || w == "M707" || w == "M710" || w == "M711" || w == "M114" || w == "M799" || w == "!"
    || w == "CAPTURE" || w == "SCAN_START" || w == "SCAN_STOP"
  }

  /** These move to a cell. */
  predicate Moves(w: string) {
    w == "M700" || w == "M701" || w == "M702" || w == "M703" || w == "M704"
  }

  lemma ListsAre(w: string)
    ensures w in ALLOWED_COMMANDS <==> Listed(w)
    ensures w in GRID_COMMANDS <==> Moves(w)
    ensures Moves(w) ==> Listed(w)
  {
  }

  /** A text is answered by the first thing that is wrong: nothing in it; its word is not on the list;
      it moves to a cell, and the last token that gives R, or else the last that gives C, is out of
      the rack's range. Otherwise it is passed on as parsed. */
  lemma AnswerFollowsText(gap: string, word: string, rest: string, rows: int, cols: int)
    requires FirstWord(gap, word, rest)
    ensures var raw, w := gap + word + rest, Upper(word);
      var r := Validated(raw, rows, cols);
      var rowFits, colFits := LastInRange(Tokens(rest), 'R', rows), LastInRange(Tokens(rest), 'C', cols);
      && (r == Err(NotAllowed) <==> !Listed(w))
      && (r == Err(RowOutOfRange) <==> Moves(w) && !rowFits)
      && (r == Err(ColumnOutOfRange) <==> Moves(w) && rowFits && !colFits)
      && (r.Ok? <==> Listed(w) && (Moves(w) ==> rowFits && colFits))
      && (r.Ok? ==> r == Parsed(raw))
  {
    hide Upper, Tokens, Strip, Params, LastInRange, InRange, Listed, Moves;
    var raw := gap + word + rest;
    TokensAfterWord(gap, word, rest);
    StripKeepsTokens(raw);
    ListsAre(Upper(word));
    InRangeIsLastInRange(Tokens(rest), 'R', rows);
    InRangeIsLastInRange(Tokens(rest), 'C', cols);
  }

  lemma BlankIsAnError(raw: string, rows: int, cols: int)
    requires AllSpace(raw)
    ensures Parsed(raw) == Validated(raw, rows, cols) == Err(EmptyCommand)
  {
    BlankHasNoTokens(raw);
    StripKeepsTokens(raw);
  }

  /** A move whose row is written anyhow, say "m700 r-01": out of range iff the number spelled is. */
  lemma SpelledRowIsChecked(gap: string, word: string, gap2: string, token: string, letter: char, sign: string,
    zeros: string, n: nat, rows: int, cols: int)
    requires FirstWord(gap, word, gap2 + token) && Upper(word) == "M700" && AllSpace(gap2) && gap2 != ""
    requires Spells(token, letter, sign, zeros, n) && NoSpace(token) && (letter == 'R' || letter == 'r')
    ensures var r := Validated(gap + word + (gap2 + token), rows, cols);
      if (sign == "" || n == 0) && n < rows then r.Ok? else r == Err(RowOutOfRange)
  {
    hide Upper, Tokens, Strip, Params, IsParam, ParamName, ParamValue;
    AnswerFollowsText(gap, word, gap2 + token, rows, cols);
    TokensSkipSpace(gap2, token);
    SpelledParam(token, letter, sign, zeros, n);
    OnlyToken(token);
    assert LastToGive([token], 'R', 0) && !LastToGive([token], 'C', 0);
  }

  lemma OnlyToken(token: string)
    requires token != "" && NoSpace(token)
    ensures Tokens(token) == [token]
  {
    TokensOfWord(token, "");
    assert token + "" == token && Tokens("") == [];
  }
}
