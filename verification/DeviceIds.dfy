/** Device ids: their printing, their order as strings, and how the next one is found. */
module DeviceIds {
  import opened Prelude
  import opened Text

  /** `f"{n:03d}"`. */
  function Pad3(n: nat): (s: string)
    ensures AllDigits(s) && s != []
  {
    var d := Decimal(n);
    Zeros(3 - Min(3, |d|)) + d
  }

  function Zeros(k: nat): (s: string)
    ensures |s| == k && forall i :: 0 <= i < k ==> s[i] == '0'
  {
    seq(k, _ => '0')
  }

  function Id(n: nat): string {
    "rack-" + Pad3(n)
  }

  /** The order of `ORDER BY id`. */
  predicate Less(a: string, b: string) {
    b != [] && (a == [] || a[0] < b[0] || (a[0] == b[0] && Less(a[1..], b[1..])))
  }

  lemma {:induction false} LessIsTotal(a: string, b: string)
    ensures Less(a, b) || Less(b, a) || a == b
  {
    if a != [] && b != [] && a[0] == b[0] {
      LessIsTotal(a[1..], b[1..]);
      assert a == [a[0]] + a[1..] && b == [b[0]] + b[1..];
    }
  }

  lemma {:induction false} LessIsStrict(a: string, b: string)
    ensures !(Less(a, b) && Less(b, a)) && !Less(a, a)
  {
    if a != [] && b != [] && a[0] == b[0] {
      LessIsStrict(a[1..], b[1..]);
    } else if a != [] {
      LessIsStrict(a[1..], a[1..]);
    }
    if a != [] {
      LessIsStrict(a[1..], a[1..]);
    }
  }

  lemma {:induction false} LessIsTransitive(a: string, b: string, c: string)
    requires Less(a, b) && Less(b, c)
    ensures Less(a, c)
  {
    if a != [] && a[0] == b[0] == c[0] {
      LessIsTransitive(a[1..], b[1..], c[1..]);
    }
  }

  lemma {:induction false} LessAfterPrefix(p: string, a: string, b: string)
    ensures Less(p + a, p + b) <==> Less(a, b)
  {
    if p == [] {
      assert p + a == a && p + b == b;
    } else {
      assert (p + a)[1..] == p[1..] + a && (p + b)[1..] == p[1..] + b;
      LessAfterPrefix(p[1..], a, b);
    }
  }

  /** The greatest of a set of ids. */
  ghost predicate IsMax(ids: set<string>, m: string) {
    m in ids && forall x :: x in ids ==> !Less(m, x)
  }

  lemma MaxIsUnique(ids: set<string>, m: string, n: string)
    requires IsMax(ids, m) && IsMax(ids, n)
    ensures m == n
  {
    LessIsTotal(m, n);
  }

  /** What follows the last dash, if there is a dash. */
  function AfterLastDash(s: string): Option<string> {
    if s == [] then None
    else match AfterLastDash(s[1..])
      case Some(t) => Some(t)
      case None => if s[0] == '-' then Some(s[1..]) else None
  }

  /** The number after that of a given last id; 1 if it carries none. */
  function NumberAfter(lastId: string): nat {
    match AfterLastDash(lastId)
    case Some(t) => if t != "" && AllDigits(t) then ParseNat(t) + 1 else 1
    case None => 1
  }

  lemma {:induction false} NoDash(s: string)
    requires AllDigits(s)
    ensures AfterLastDash(s) == None
  {
    if s != [] {
      NoDash(s[1..]);
    }
  }

  lemma SuffixOfId(n: nat)
    ensures AfterLastDash(Id(n)) == Some(Pad3(n))
  {
    var s := Id(n);
    NoDash(Pad3(n));
    assert s[5..] == Pad3(n);
    assert s[4] == '-' && s[4..][1..] == s[5..] && AfterLastDash(s[4..]) == Some(Pad3(n));
    assert s[3..][1..] == s[4..] && s[2..][1..] == s[3..] && s[1..][1..] == s[2..];
    assert AfterLastDash(s[3..]) == Some(Pad3(n));
    assert AfterLastDash(s[2..]) == Some(Pad3(n));
    assert AfterLastDash(s[1..]) == Some(Pad3(n));
  }

  /** Reading the number back from an id undoes the printing. */
  lemma NumberAfterId(n: nat)
    ensures NumberAfter(Id(n)) == n + 1
  {
    SuffixOfId(n);
    var d := Decimal(n);
    ParseDecimal(n);
    ParseLeadingZeros(Zeros(3 - Min(3, |d|)), d);
  }

  /** Any text is read by what follows its last dash: a number n gives n + 1, leading zeros or not;
      anything else, or no dash at all, gives 1. */
  lemma NumberAfterText(front: string, digits: string, n: nat, zeros: string, other: string)
    requires digits == zeros + Decimal(n) && forall i :: 0 <= i < |zeros| ==> zeros[i] == '0'
    requires '-' !in other && !(other != "" && AllDigits(other))
    ensures NumberAfter(front + "-" + digits) == n + 1
    ensures NumberAfter(front + "-" + other) == 1
    ensures '-' !in front ==> NumberAfter(front) == 1
  {
    ParseLeadingZeros(zeros, Decimal(n));
    ParseDecimal(n);
    LastDash(front, digits);
    LastDash(front, other);
    if '-' !in front {
      NoDashNothing(front);
    }
  }

  lemma {:induction false} NoDashNothing(s: string)
    requires '-' !in s
    ensures AfterLastDash(s).None?
  {
    if s != [] {
      NoDashNothing(s[1..]);
    }
  }

  lemma {:induction false} LastDash(front: string, back: string)
    requires '-' !in back
    ensures AfterLastDash(front + "-" + back) == Some(back)
  {
    var s := front + "-" + back;
    if front == [] {
      NoDashNothing(back);
      assert s == "-" + back && s[1..] == back;
    } else {
      assert s[1..] == front[1..] + "-" + back;
      LastDash(front[1..], back);
    }
  }

  /** Up to 999 an id has three digits. */
  lemma Pad3Digits(n: nat)
    requires n < 1000
    ensures Pad3(n) == [DigitChar(n / 100), DigitChar(n / 10 % 10), DigitChar(n % 10)]
  {
    if n < 10 {
      assert Decimal(n) == [DigitChar(n)];
      assert Zeros(2) == ['0', '0'];
    } else if n < 100 {
      assert Decimal(n / 10) == [DigitChar(n / 10)];
      assert Decimal(n) == [DigitChar(n / 10), DigitChar(n % 10)];
      assert Zeros(1) == ['0'];
    } else {
      assert n / 10 / 10 == n / 100;
      assert Decimal(n / 100) == [DigitChar(n / 100)];
      assert Decimal(n / 10) == [DigitChar(n / 100), DigitChar(n / 10 % 10)];
      assert Decimal(n) == [DigitChar(n / 100), DigitChar(n / 10 % 10), DigitChar(n % 10)];
      assert Zeros(0) == [];
    }
  }

  /** The text of an id: "rack-" and the three digits of a number up to 999, all digits of a greater
      one. */
  lemma IdText(n: nat)
    ensures n < 1000 ==> var digits := "0123456789";
      Id(n) == "rack-" + [digits[n / 100], digits[n / 10 % 10], digits[n % 10]]
    ensures n >= 1000 ==> Id(n) == "rack-" + Decimal(n)
  {
    hide Decimal;
    var digits := "0123456789";
    assert forall d: nat :: d < 10 ==> digits[d] as int == 48 + d;
    if n < 1000 {
      Pad3Digits(n);
    } else {
      LongNumeral(n);
      assert Zeros(0) == [];
    }
  }

  lemma LongNumeral(n: nat)
    requires n >= 1000
    ensures |Decimal(n)| >= 3
  {
    assert n / 10 >= 100 && n / 10 / 10 >= 10;
    assert |Decimal(n / 10 / 10)| >= 1;
    assert |Decimal(n / 10)| >= 2;
  }

  /** Up to 999, string order is numeric order. */
  lemma IdOrder(a: nat, b: nat)
    requires a < 1000 && b < 1000
    ensures Less(Id(a), Id(b)) <==> a < b
  {
    LessAfterPrefix("rack-", Pad3(a), Pad3(b));
    hide Pad3, Less;
    Pad3Digits(a);
    Pad3Digits(b);
    DigitsOf(a);
    DigitsOf(b);
    LessByDigits(a / 100, a / 10 % 10, a % 10, b / 100, b / 10 % 10, b % 10);
  }

  lemma DigitsOf(n: nat)
    requires n < 1000
    ensures n == 100 * (n / 100) + 10 * (n / 10 % 10) + n % 10 && n / 100 < 10
  {
    assert n / 10 / 10 == n / 100;
  }

  lemma LessByDigits(a2: nat, a1: nat, a0: nat, b2: nat, b1: nat, b0: nat)
    requires a2 < 10 && a1 < 10 && a0 < 10 && b2 < 10 && b1 < 10 && b0 < 10
    ensures Less([DigitChar(a2), DigitChar(a1), DigitChar(a0)], [DigitChar(b2), DigitChar(b1), DigitChar(b0)]) <==>
      100 * a2 + 10 * a1 + a0 < 100 * b2 + 10 * b1 + b0
  {
    hide Less;
    LessByHead(a2, [DigitChar(a1), DigitChar(a0)], b2, [DigitChar(b1), DigitChar(b0)]);
    LessByHead(a1, [DigitChar(a0)], b1, [DigitChar(b0)]);
    LessByHead(a0, [], b0, []);
    LessIsStrict("", "");
    assert [DigitChar(a0)] + [] == [DigitChar(a0)] && [DigitChar(b0)] + [] == [DigitChar(b0)];
    assert [DigitChar(a1)] + [DigitChar(a0)] == [DigitChar(a1), DigitChar(a0)];
    assert [DigitChar(b1)] + [DigitChar(b0)] == [DigitChar(b1), DigitChar(b0)];
    assert [DigitChar(a2)] + [DigitChar(a1), DigitChar(a0)] == [DigitChar(a2), DigitChar(a1), DigitChar(a0)];
    assert [DigitChar(b2)] + [DigitChar(b1), DigitChar(b0)] == [DigitChar(b2), DigitChar(b1), DigitChar(b0)];
  }

  lemma LessByHead(a: nat, s: string, b: nat, t: string)
    requires a < 10 && b < 10
    ensures Less([DigitChar(a)] + s, [DigitChar(b)] + t) <==> a < b || (a == b && Less(s, t))
  {
    assert ([DigitChar(a)] + s)[1..] == s && ([DigitChar(b)] + t)[1..] == t;
    assert DigitValue(DigitChar(a)) == a && DigitValue(DigitChar(b)) == b;
  }

  /** The id after 999 sorts before it. */
  lemma ThousandSortsBelow()
    ensures Less(Id(1000), Id(999)) && Id(1000) != Id(999)
  {
    LessAfterPrefix("rack-", Pad3(1000), Pad3(999));
    Pad3Digits(999);
    assert Decimal(1) == ['1'] && Decimal(10) == ['1', '0'] && Decimal(100) == ['1', '0', '0'];
    assert Decimal(1000) == ['1', '0', '0', '0'];
    assert Pad3(1000)[0] == '1' && Pad3(999)[0] == '9';
  }

  lemma IdInjective(a: nat, b: nat)
    requires Id(a) == Id(b)
    ensures a == b
  {
    NumberAfterId(a);
    NumberAfterId(b);
  }
}
