/** Numbers in decimal, and what `atoi` makes of them: the reader of the request parser against the positional value of
    a text (section 3.3.2 of RFC 7230: a body length is one or more digits). */
module Decimals {
  import opened HttpSyntax
  import opened Sequences

  predicate AllDigits(s: string) {
    forall i :: 0 <= i < |s| ==> IsDigit(s[i])
  }

  predicate AllWhite(s: string) {
    forall i :: 0 <= i < |s| ==> IsWhite(s[i])
  }

  /** A number as the standard writes it. */
  predicate IsNumber(s: string) {
    s != "" && AllDigits(s)
  }

  /** The value of a text of digits: the last one counts once, every other one ten times as much as the next. */
  function Value(s: string): nat
    requires AllDigits(s)
  {
    if s == "" then 0 else 10 * Value(s[..|s| - 1]) + (s[|s| - 1] as int - '0' as int)
  }

  function Decimal(n: nat): (s: string)
    ensures IsNumber(s)
  {
    if n < 10 then ['0' + n as char] else Decimal(n / 10) + ['0' + (n % 10) as char]
  }

  function Pow10(k: nat): nat {
    if k == 0 then 1 else 10 * Pow10(k - 1)
  }

  lemma {:induction false} ValueOfDecimal(n: nat)
    ensures Value(Decimal(n)) == n
  {
    var s := Decimal(n);
    if n >= 10 {
      ValueOfDecimal(n / 10);
      assert s[..|s| - 1] == Decimal(n / 10);
    } else {
      assert s[..0] == "";
    }
  }

  lemma {:induction false} DecimalLength(n: nat, k: nat)
    requires k >= 1
    ensures |Decimal(n)| <= k <==> n < Pow10(k)
  {
    if k == 1 {
      assert Pow10(1) == 10 * Pow10(0);
    } else if n >= 10 {
      DecimalLength(n / 10, k - 1);
    } else {
      assert Pow10(k) >= 10 by {
        AtLeastOne(k - 1);
      }
    }
  }

  lemma {:induction false} AtLeastOne(k: nat)
    ensures Pow10(k) >= 1
  {
    if k > 0 {
      AtLeastOne(k - 1);
    }
  }

  /** Zeros in front do not count, and with them every number text is the decimal form of its value. */
  lemma {:induction false} NumbersAreDecimals(s: string) returns (zeros: nat)
    requires IsNumber(s)
    ensures s == seq(zeros, _ => '0') + Decimal(Value(s))
    decreases |s|
  {
    hide Decimal;
    var front, c := s[..|s| - 1], s[|s| - 1];
    assert s == front + [c];
    if front == "" {
      NextDigit(0, c);
      assert Value(front) == 0;
      zeros := 0;
      assert s == [c] && [c] == Decimal(Value(s));
    } else {
      zeros := NumbersAreDecimals(front);
      var z := seq(zeros, _ => '0');
      NextDigit(Value(front), c);
      if Value(front) == 0 {
        assert seq(zeros + 1, _ => '0') == z + "0";
        zeros := zeros + 1;
      } else {
        Assoc(z, Decimal(Value(front)), [c]);
      }
    }
  }

  lemma NextDigit(n: nat, c: char)
    requires IsDigit(c)
    ensures var m := 10 * n + (c as int - '0' as int);
            if n == 0 then Decimal(n) == "0" && Decimal(m) == [c] else Decimal(m) == Decimal(n) + [c]
  {
  }

  // ---- What atoi reads ----

  lemma {:induction false} DigitsRead(s: string, rest: string)
    requires AllDigits(s)
    ensures Digits(s + rest, 0) == Digits(rest, Value(s))
    decreases |s|
  {
    if s == "" {
      assert s + rest == rest;
    } else {
      var front, c := s[..|s| - 1], s[|s| - 1];
      assert s + rest == front + ([c] + rest);
      DigitsRead(front, [c] + rest);
      assert ([c] + rest)[1..] == rest;
    }
  }

  lemma {:induction false} WhiteSkipped(white: string, rest: string)
    requires AllWhite(white) && (rest != "" ==> !IsWhite(rest[0]))
    ensures SkipWhite(white + rest) == rest
  {
    if white == "" {
      assert white + rest == rest;
    } else {
      assert (white + rest)[1..] == white[1..] + rest;
      WhiteSkipped(white[1..], rest);
    }
  }

  datatype Sign = NoSign | Plus | Minus

  function SignText(sign: Sign): string {
    match sign
    case NoSign => ""
    case Plus => "+"
    case Minus => "-"
  }

  /** White space, one sign or none, and digits: they are read as the value they have in decimal, and reading stops at
      the first other character. */
  lemma AtoiReads(white: string, sign: Sign, digits: string, rest: string)
    requires AllWhite(white) && IsNumber(digits) && (rest != "" ==> !IsDigit(rest[0]))
    ensures Atoi(white + (SignText(sign) + (digits + rest)))
            == if sign.Minus? then -(Value(digits) as int) else Value(digits) as int
  {
    var text := SignText(sign) + (digits + rest);
    assert digits + rest != "" && (digits + rest)[0] == digits[0] && IsDigit(digits[0]);
    assert text[0] == if sign.NoSign? then digits[0] else SignText(sign)[0];
    WhiteSkipped(white, text);
    DigitsRead(digits, rest);
    if sign.NoSign? {
      assert text == digits + rest;
    } else {
      assert text[1..] == digits + rest;
    }
  }

  /** A body length as the standard writes it is read as what it says. */
  lemma NumberIsRead(s: string)
    requires IsNumber(s)
    ensures Atoi(s) == Value(s)
  {
    AtoiReads("", NoSign, s, "");
    assert "" + (SignText(NoSign) + (s + "")) == s;
  }

  /** The reader gives every number back from its decimal form, also behind white space and zeros. */
  lemma DecimalIsRead(white: string, zeros: nat, n: nat)
    requires AllWhite(white)
    ensures Atoi(white + (seq(zeros, _ => '0') + Decimal(n))) == n
  {
    var z := seq(zeros, _ => '0');
    var s := z + Decimal(n);
    ZerosDoNotCount(zeros, Decimal(n));
    ValueOfDecimal(n);
    AtoiReads(white, NoSign, s, "");
    assert white + (SignText(NoSign) + (s + "")) == white + s;
  }

  lemma {:induction false} ZerosDoNotCount(zeros: nat, s: string)
    requires IsNumber(s)
    ensures IsNumber(seq(zeros, _ => '0') + s) && Value(seq(zeros, _ => '0') + s) == Value(s)
    decreases |s|
  {
    var z := seq(zeros, _ => '0');
    var front := s[..|s| - 1];
    assert (z + s)[..|z + s| - 1] == z + front;
    if front != "" {
      ZerosDoNotCount(zeros, front);
    } else {
      assert z + front == z;
      OnlyZeros(zeros);
    }
  }

  lemma {:induction false} OnlyZeros(zeros: nat)
    ensures AllDigits(seq(zeros, _ => '0')) && Value(seq(zeros, _ => '0')) == 0
  {
    if zeros > 0 {
      OnlyZeros(zeros - 1);
      assert seq(zeros, _ => '0')[..zeros - 1] == seq(zeros - 1, _ => '0');
    }
  }
}
