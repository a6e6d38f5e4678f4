/** Python string operations on ASCII text: whitespace splitting, upper-casing, and the
    decimal printing and parsing of integers. */
module Text {
  import opened Prelude

  predicate IsSpace(c: char) {
    c == ' ' || '\t' <= c <= '\r' || '\U{1c}' <= c <= '\U{1f}'
  }

  predicate IsDigit(c: char) {
    '0' <= c <= '9'
  }

  predicate IsLetter(c: char) {
    'a' <= c <= 'z' || 'A' <= c <= 'Z'
  }

  function UpperChar(c: char): char {
    if 'a' <= c <= 'z' then c - 'a' + 'A' else c
  }

  function LowerChar(c: char): char {
    if 'A' <= c <= 'Z' then c - 'A' + 'a' else c
  }

  function Upper(s: string): (u: string)
    ensures |u| == |s| && forall i :: 0 <= i < |s| ==> u[i] == UpperChar(s[i])
  {
    seq(|s|, i requires 0 <= i < |s| => UpperChar(s[i]))
  }

  function Lower(s: string): (u: string)
    ensures |u| == |s| && forall i :: 0 <= i < |s| ==> u[i] == LowerChar(s[i])
  {
    seq(|s|, i requires 0 <= i < |s| => LowerChar(s[i]))
  }

  /** Length of the leading run of non-whitespace. */
  function WordLength(s: string): (n: nat)
    ensures n <= |s|
    ensures forall i :: 0 <= i < n ==> !IsSpace(s[i])
    ensures n < |s| ==> IsSpace(s[n])
  {
    if s == [] || IsSpace(s[0]) then 0 else 1 + WordLength(s[1..])
  }

  /** `s.split()`: the maximal runs of non-whitespace, in order. */
  function Tokens(s: string): (ts: seq<string>)
    decreases |s|
  {
    if s == [] then []
    else if IsSpace(s[0]) then Tokens(s[1..])
    else [s[..WordLength(s)]] + Tokens(s[WordLength(s)..])
  }

  /** `s.strip()`. */
  function Strip(s: string): (t: string)
    ensures |t| <= |s|
    ensures t != [] ==> !IsSpace(t[0]) && !IsSpace(t[|t| - 1])
    decreases |s|
  {
    if s == [] then []
    else if IsSpace(s[0]) then Strip(s[1..])
    else if IsSpace(s[|s| - 1]) then Strip(s[..|s| - 1])
    else s
  }

  predicate Contains(s: string, sub: string) {
    exists i :: 0 <= i <= |s| && sub <= s[i..]
  }

  predicate AllSpace(s: string) {
    forall i :: 0 <= i < |s| ==> IsSpace(s[i])
  }

  predicate NoSpace(s: string) {
    forall i :: 0 <= i < |s| ==> !IsSpace(s[i])
  }

  /** Whitespace in front of a string does not change its tokens. */
  lemma {:induction false} TokensSkipSpace(gap: string, s: string)
    requires AllSpace(gap)
    ensures Tokens(gap + s) == Tokens(s)
  {
    if gap == [] {
      assert gap + s == s;
    } else {
      assert (gap + s)[1..] == gap[1..] + s;
      TokensSkipSpace(gap[1..], s);
    }
  }

  lemma {:induction false} WordLengthOf(word: string, s: string)
    requires NoSpace(word) && (s == [] || IsSpace(s[0]))
    ensures WordLength(word + s) == |word|
  {
    if word == [] {
      assert word + s == s;
    } else {
      assert (word + s)[1..] == word[1..] + s;
      WordLengthOf(word[1..], s);
    }
  }

  /** A word followed by whitespace, or by the end, is the first token. */
  lemma TokensOfWord(word: string, s: string)
    requires word != [] && NoSpace(word) && (s == [] || IsSpace(s[0]))
    ensures Tokens(word + s) == [word] + Tokens(s)
  {
    WordLengthOf(word, s);
    assert (word + s)[..|word|] == word;
    assert (word + s)[|word|..] == s;
  }

  // ---- Decimal numerals -------------------------------------------------------------

  predicate AllDigits(s: string) {
    forall i :: 0 <= i < |s| ==> IsDigit(s[i])
  }

  function DigitChar(d: nat): (c: char)
    requires d < 10
    ensures IsDigit(c) && DigitValue(c) == d
  {
    '0' + d as char
  }

  function DigitValue(c: char): (d: nat)
    requires IsDigit(c)
    ensures d < 10
  {
    c as int - '0' as int
  }

  /** The decimal numeral of a natural number, without leading zeros. */
  function Decimal(n: nat): (s: string)
    ensures s != [] && AllDigits(s)
  {
    if n < 10 then [DigitChar(n)] else Decimal(n / 10) + [DigitChar(n % 10)]
  }

  function ParseNat(s: string): nat
    requires AllDigits(s)
  {
    if s == [] then 0 else 10 * ParseNat(s[..|s| - 1]) + DigitValue(s[|s| - 1])
  }

  /** `str(n)`. */
  function Print(n: int): (s: string)
    ensures s != []
  {
    if n < 0 then "-" + Decimal(-n) else Decimal(n)
  }

  lemma {:induction false} ParseDecimal(n: nat)
    ensures ParseNat(Decimal(n)) == n
  {
    if n >= 10 {
      ParseDecimal(n / 10);
      var s := Decimal(n);
      assert s[..|s| - 1] == Decimal(n / 10);
    }
  }

  lemma {:induction false} ParseLeadingZeros(zeros: string, s: string)
    requires AllDigits(s) && forall i :: 0 <= i < |zeros| ==> zeros[i] == '0'
    ensures AllDigits(zeros + s) && ParseNat(zeros + s) == ParseNat(s)
  {
    if s == [] {
      if zeros != [] {
        assert zeros + s == zeros && zeros[..|zeros| - 1] + s == zeros[..|zeros| - 1];
        ParseLeadingZeros(zeros[..|zeros| - 1], s);
      }
    } else {
      var t := zeros + s;
      assert t[..|t| - 1] == zeros + s[..|s| - 1];
      ParseLeadingZeros(zeros, s[..|s| - 1]);
    }
  }

  // ---- What these functions come to -------------------------------------------------

  /** `word` is the first word of `gap + word + rest`. */
  predicate FirstWord(gap: string, word: string, rest: string) {
    && AllSpace(gap) && word != "" && NoSpace(word)
    && (rest == "" || IsSpace(rest[0]))
  }

  /** Every text is blank or has a first word. */
  lemma {:induction false} BlankOrWord(text: string) returns (gap: string, word: string, rest: string)
    ensures !AllSpace(text) ==> text == gap + word + rest && FirstWord(gap, word, rest)
  {
    gap, word, rest := "", "", "";
    if text != "" {
      if IsSpace(text[0]) {
        gap, word, rest := BlankOrWord(text[1..]);
        gap := [text[0]] + gap;
        assert text == [text[0]] + text[1..];
      } else {
        word, rest := text[..WordLength(text)], text[WordLength(text)..];
      }
    }
  }

  /** Splitting goes from the first word to the rest, and finds nothing in whitespace. */
  lemma TokensAfterWord(gap: string, word: string, rest: string)
    requires FirstWord(gap, word, rest)
    ensures Tokens(gap + word + rest) == [word] + Tokens(rest)
  {
    hide Tokens;
    assert gap + word + rest == gap + (word + rest);
    TokensSkipSpace(gap, word + rest);
    TokensOfWord(word, rest);
  }

  lemma BlankHasNoTokens(text: string)
    requires AllSpace(text)
    ensures Tokens(text) == []
  {
    TokensSkipSpace(text, "");
    assert text + "" == text;
  }

  /** The ASCII whitespace of Python: tab to carriage return, the four separators, space. */
  lemma SpacesAre(c: char)
    ensures IsSpace(c) <==> c as int in {9, 10, 11, 12, 13, 28, 29, 30, 31, 32}
  {
  }

  /** Upper and lower case differ in the 26 letters and nowhere else. */
  lemma CasesAre(c: char)
    ensures var small, big := "abcdefghijklmnopqrstuvwxyz", "ABCDEFGHIJKLMNOPQRSTUVWXYZ";
      && (forall i :: 0 <= i < 26 ==> UpperChar(small[i]) == big[i] && LowerChar(big[i]) == small[i])
      && (c !in small ==> UpperChar(c) == c) && (c !in big ==> LowerChar(c) == c)
  {
    var small, big := "abcdefghijklmnopqrstuvwxyz", "ABCDEFGHIJKLMNOPQRSTUVWXYZ";
    assert forall i :: 0 <= i < 26 ==> small[i] as int == 97 + i && big[i] as int == 65 + i;
    assert 'a' <= c <= 'z' ==> small[c as int - 97] == c;
    assert 'A' <= c <= 'Z' ==> big[c as int - 65] == c;
  }

  /** Containment is having the text in the middle. */
  lemma ContainsSplits(s: string, sub: string) returns (before: string, after: string)
    requires Contains(s, sub)
    ensures s == before + sub + after
  {
    var i :| 0 <= i <= |s| && sub <= s[i..];
    before, after := s[..i], s[i..][|sub|..];
    assert s[i..] == sub + after;
  }

  lemma SplitContains(before: string, sub: string, after: string)
    ensures Contains(before + sub + after, sub)
  {
    var s := before + sub + after;
    assert s[|before|..] == sub + after;
  }

  /** Stripping takes whitespace off both ends and nothing else. */
  lemma {:induction false} StripIs(s: string) returns (before: string, after: string)
    ensures s == before + Strip(s) + after && AllSpace(before) && AllSpace(after)
    decreases |s|
  {
    hide IsSpace;
    before, after := [], [];
    if s != [] && IsSpace(s[0]) {
      before, after := StripIs(s[1..]);
      FrontSpace(s[0], before, Strip(s[1..]), after);
      before := [s[0]] + before;
      assert s == [s[0]] + s[1..];
    } else if s != [] && IsSpace(s[|s| - 1]) {
      before, after := StripIs(s[..|s| - 1]);
      BackSpace(s[|s| - 1], before, Strip(s[..|s| - 1]), after);
      after := after + [s[|s| - 1]];
      assert s == s[..|s| - 1] + [s[|s| - 1]];
    } else {
      assert s == [] + s + [];
    }
  }

  lemma FrontSpace(c: char, before: string, s: string, after: string)
    ensures [c] + (before + s + after) == ([c] + before) + s + after
  {
  }

  lemma BackSpace(c: char, before: string, s: string, after: string)
    ensures (before + s + after) + [c] == before + s + (after + [c])
  {
  }

  /** A text is blank iff stripping leaves nothing. */
  lemma StripBlankIff(s: string)
    ensures Strip(s) == "" <==> AllSpace(s)
  {
    var before, after := StripIs(s);
    assert Strip(s) != "" ==> s[|before|] == Strip(s)[0];
  }

  /** The letters are the 26 in both cases. */
  lemma LettersAre(c: char)
    ensures IsLetter(c) <==> c in "abcdefghijklmnopqrstuvwxyz" || c in "ABCDEFGHIJKLMNOPQRSTUVWXYZ"
  {
    var small, big := "abcdefghijklmnopqrstuvwxyz", "ABCDEFGHIJKLMNOPQRSTUVWXYZ";
    assert forall i :: 0 <= i < 26 ==> small[i] as int == 97 + i && big[i] as int == 65 + i;
    assert 'a' <= c <= 'z' ==> small[c as int - 97] == c;
    assert 'A' <= c <= 'Z' ==> big[c as int - 65] == c;
  }

  /** Numerals are positional, base ten, most significant digit first. */
  lemma NumeralsAre(n: nat, d: nat)
    requires d < 10
    ensures Decimal(d) == [("0123456789")[d]]
    ensures n > 0 ==> Decimal(10 * n + d) == Decimal(n) + [("0123456789")[d]]
  {
    assert ("0123456789")[d] as int == 48 + d;
    assert (10 * n + d) / 10 == n && (10 * n + d) % 10 == d;
  }
}
