/** Strings and numbers survive being written and read: the lexical half of the printer's inverse. */
module Lexemes {
  import opened Basics
  import opened Json

  // ---------- strings ----------

  lemma HexInverts(d: nat)
    requires d < 16
    ensures HexValue(HexDigit(d)) == Some(d)
  {
  }

  /** The control characters without a short escape are written as `\u00xx`. */
  lemma ControlInverts(c: char, rest: Text)
    requires c < ' '
    ensures var digits := "00" + [HexDigit(c as nat / 16), HexDigit(c as nat % 16)];
            UnicodeEscape(digits + rest) == Parsed([c], rest)
  {
    var high, low := c as nat / 16, c as nat % 16;
    HexInverts(high);
    HexInverts(low);
    var s := "00" + [HexDigit(high), HexDigit(low)] + rest;
    assert HexValue('0') == Some(0);
    assert Hex4(s) == Some(c as nat);
    assert s[4..] == rest;
  }

  predicate Escaped(c: char) {
    c == '\"' || c == '\\' || c < ' '
  }

  lemma EscapeSequenceInverts(c: char, rest: Text)
    requires Escaped(c)
    ensures |EscapeChar(c)| >= 2 && EscapeChar(c)[0] == '\\'
    ensures EscapeSequence(EscapeChar(c)[1..] + rest) == Parsed([c], rest)
  {
    var t := EscapeChar(c)[1..] + rest;
    if EscapeChar(c)[1] == 'u' {
      ControlInverts(c, rest);
      assert t[1..] == "00" + [HexDigit(c as nat / 16), HexDigit(c as nat % 16)] + rest;
    } else {
      assert t[1..] == rest;
    }
  }

  /** One escaped byte, followed by anything, reads back as that byte. */
  lemma EscapeCharInverts(c: char, rest: Text)
    ensures StringBody(EscapeChar(c) + rest) == Prepend([c], StringBody(rest))
  {
    var s := EscapeChar(c) + rest;
    if Escaped(c) {
      EscapeSequenceInverts(c, rest);
      assert s[0] == '\\' && s[1..] == EscapeChar(c)[1..] + rest;
    } else {
      assert s == [c] + rest && s[1..] == rest;
    }
  }

  lemma {:induction false} StringInverts(t: Text, rest: Text)
    ensures StringBody(Escape(t) + ("\"" + rest)) == Parsed(t, rest)
  {
    if t == "" {
      assert Escape(t) + ("\"" + rest) == "\"" + rest;
      assert ("\"" + rest)[1..] == rest;
    } else {
      var tail := Escape(t[1..]) + ("\"" + rest);
      assert Escape(t) + ("\"" + rest) == EscapeChar(t[0]) + tail;
      EscapeCharInverts(t[0], tail);
      StringInverts(t[1..], rest);
      assert [t[0]] + t[1..] == t;
    }
  }

  /** A quoted text is a JSON string that reads back as the text, whatever follows it. */
  lemma QuoteInverts(t: Text, rest: Text)
    ensures Quote(t) + rest != "" && (Quote(t) + rest)[0] == '\"'
    ensures StringBody((Quote(t) + rest)[1..]) == Parsed(t, rest)
  {
    hide Escape, StringBody;
    StringInverts(t, rest);
    assert (Quote(t) + rest)[1..] == Escape(t) + ("\"" + rest);
  }

  // ---------- numbers ----------

  /** What may follow a number: nothing that would continue its lexeme. */
  predicate Ends(rest: Text) {
    rest == "" || !NumberChar(rest[0])
  }

  lemma {:induction false} DigitRunPrefix(s: Text)
    ensures forall i | 0 <= i < DigitRun(s) :: IsDigit(s[i])
  {
    if s != "" && IsDigit(s[0]) {
      DigitRunPrefix(s[1..]);
      assert forall i | 0 < i < DigitRun(s) :: s[i] == s[1..][i - 1];
    }
  }

  lemma {:induction false} DigitRunWhole(s: Text)
    requires AllDigits(s)
    ensures DigitRun(s) == |s|
  {
    if s != "" {
      DigitRunWhole(s[1..]);
    }
  }

  lemma {:induction false} NumberRunWhole(s: Text, rest: Text)
    requires forall i | 0 <= i < |s| :: NumberChar(s[i])
    requires Ends(rest)
    ensures NumberRun(s + rest) == |s|
  {
    if s == "" {
      assert s + rest == rest;
    } else {
      NumberRunWhole(s[1..], rest);
      assert (s + rest)[1..] == s[1..] + rest;
    }
  }

  lemma ExponentChars(s: Text)
    requires ValidExponent(s)
    ensures forall i | 0 <= i < |s| :: NumberChar(s[i])
  {
    if s != "" {
      var n := if |s| > 1 && (s[1] == '+' || s[1] == '-') then 2 else 1;
      DigitRunPrefix(s[n..]);
      assert forall i | n <= i < |s| :: s[i] == s[n..][i - n];
    }
  }

  lemma FractionChars(s: Text)
    requires ValidFraction(s)
    ensures forall i | 0 <= i < |s| :: NumberChar(s[i])
  {
    if s != "" && s[0] == '.' {
      var n := 1 + DigitRun(s[1..]);
      DigitRunPrefix(s[1..]);
      ExponentChars(s[n..]);
      assert forall i | 1 <= i < n :: s[i] == s[1..][i - 1];
      assert forall i | n <= i < |s| :: s[i] == s[n..][i - n];
    } else {
      ExponentChars(s);
    }
  }

  lemma UnsignedChars(body: Text)
    requires DigitRun(body) > 0 && ValidFraction(body[DigitRun(body)..])
    ensures body != "" && IsDigit(body[0]) && forall i | 0 <= i < |body| :: NumberChar(body[i])
  {
    hide DigitRun, ValidFraction;
    var n := DigitRun(body);
    DigitRunPrefix(body);
    FractionChars(body[n..]);
    assert forall i | n <= i < |body| :: body[i] == body[n..][i - n];
  }

  /** A valid number is one lexeme: it starts like a number and the scanner stops exactly at its end. */
  lemma NumberInverts(s: Text, rest: Text)
    requires ValidNumber(s) && Ends(rest)
    ensures s != "" && (s[0] == '-' || IsDigit(s[0]))
    ensures NumberRun(s + rest) == |s|
  {
    hide DigitRun, NumberRun, ValidFraction;
    if s != "" && s[0] == '-' {
      UnsignedChars(s[1..]);
      assert forall i | 0 < i < |s| :: s[i] == s[1..][i - 1];
    } else {
      UnsignedChars(s);
    }
    NumberRunWhole(s, rest);
  }

  lemma {:induction false} DigitsInvert(n: nat)
    ensures Digits(n) != "" && AllDigits(Digits(n))
    ensures NatOf(Digits(n)) == n
    ensures Digits(n)[0] == '0' ==> |Digits(n)| == 1
  {
    if n >= 10 {
      DigitsInvert(n / 10);
      assert Digits(n)[..|Digits(n)| - 1] == Digits(n / 10);
    } else {
      assert Digits(n)[..0] == "";
    }
  }

  /** An integer's display is a JSON number. */
  lemma DecimalIsNumber(n: int)
    ensures ValidNumber(Decimal(n))
  {
    var digits := Digits(if n < 0 then -n else n);
    DigitsInvert(if n < 0 then -n else n);
    DigitRunWhole(digits);
    assert digits[|digits|..] == "";
    if n < 0 {
      assert Decimal(n)[1..] == digits;
    }
  }

  lemma NaturalInverts(n: nat)
    ensures Digits(n) != "" && Digits(n)[0] != '-' && AllDigits(Digits(n))
    ensures NatOf(Digits(n)) == n
  {
    DigitsInvert(n);
    assert IsDigit(Digits(n)[0]);
  }

  /** An integer that i64 or u64 holds reads back as itself. */
  lemma DecimalInverts(n: int)
    requires -0x8000_0000_0000_0000 <= n < 0x1_0000_0000_0000_0000
    ensures AsInteger(Decimal(n)) == Some(n)
  {
    if n < 0 {
      NaturalInverts(-n);
      var digits := Digits(-n);
      assert Decimal(n) == "-" + digits;
      assert Decimal(n)[0] == '-' && Decimal(n)[1..] == digits;
    } else {
      NaturalInverts(n);
    }
  }

  /** Digits without a leading zero are what their value is displayed as. */
  lemma {:induction false} DigitsOfNat(d: Text)
    requires d != "" && AllDigits(d) && (|d| == 1 || d[0] != '0')
    ensures Digits(NatOf(d)) == d
    ensures d[0] != '0' ==> NatOf(d) > 0
  {
    var front, last := d[..|d| - 1], d[|d| - 1];
    assert d == front + [last];
    if front == "" {
      assert NatOf(front) == 0;
    } else {
      DigitsOfNat(front);
      assert NatOf(d) / 10 == NatOf(front);
    }
  }

  /** A valid number whose body is nothing but digits has no leading zero. */
  lemma PlainNumber(s: Text)
    requires ValidNumber(s)
    ensures s != ""
    ensures var body := if s[0] == '-' then s[1..] else s;
      body != "" && (AllDigits(body) ==> Digits(NatOf(body)) == body)
  {
    hide ValidFraction, Digits, NatOf;
    var body := if s != "" && s[0] == '-' then s[1..] else s;
    assert body == "" ==> DigitRun(body) == 0;
    if AllDigits(body) {
      DigitRunWhole(body);
      DigitsOfNat(body);
    }
  }

  /** The integers that are read are exactly the numbers displayed as integers that i64 or u64 holds. */
  lemma IntegersExactly(s: Text, n: int)
    requires ValidNumber(s)
    ensures AsInteger(s) == Some(n) <==> s == Decimal(n) && -0x8000_0000_0000_0000 <= n < 0x1_0000_0000_0000_0000
  {
    hide ValidNumber, Digits, NatOf, AllDigits;
    PlainNumber(s);
    if s[0] == '-' {
      assert s == "-" + s[1..];
    }
    if -0x8000_0000_0000_0000 <= n < 0x1_0000_0000_0000_0000 {
      DecimalInverts(n);
    }
  }
}
