/** The text printnum prints for a number, and what strtol reads back from it. */
module PrintNum {
  import opened Strtol

  function Hex(d: nat): char
    requires d < 16
  {
    "0123456789abcdef"[d]
  }

  /** The digits of num, most significant first. */
  function Digits(num: nat, base: nat): (t: string)
    requires 2 <= base <= 16
    ensures t != []
  {
    if num < base then [Hex(num)] else Digits(num / base, base) + [Hex(num % base)]
  }

  function Repeat(c: char, n: int): (t: string)
    ensures |t| == (if n > 0 then n else 0) && forall k: nat | k < |t| :: t[k] == c
  {
    if n <= 0 then [] else Repeat(c, n - 1) + [c]
  }

  /** What printnum prints: padding up to the width, then the digits. */
  function NumText(num: nat, base: nat, width: int, padc: char): string
    requires 2 <= base <= 16
  {
    Repeat(padc, width - |Digits(num, base)|) + Digits(num, base)
  }

  /** The last digit can be printed last, in a field one narrower. */
  lemma NumTextStep(num: nat, base: nat, width: int, padc: char)
    requires 2 <= base <= 16 && num >= base
    ensures NumText(num, base, width, padc) == NumText(num / base, base, width - 1, padc) + [Hex(num % base)]
  {
  }

  lemma NumTextBase(num: nat, base: nat, width: int, padc: char)
    requires 2 <= base <= 16 && num < base
    ensures num % base == num && NumText(num, base, width, padc) == Repeat(padc, width - 1) + [Hex(num)]
  {
    hide Hex, Repeat;
    SmallMod(num, base);
  }

  lemma SmallMod(num: nat, base: nat)
    requires num < base
    ensures num % base == num && num / base == 0
  {
  }

  lemma HexDigit(d: nat)
    requires d < 16
    ensures Dig(Hex(d)) == d && Hex(d) != ' ' && Hex(d) != '\t' && Hex(d) != '+' && Hex(d) != '-' && Hex(d) != 'x'
             && Hex(d) != NUL
    ensures Hex(d) == '0' <==> d == 0
  {
  }

  predicate NumeralChar(c: char, base: nat) {
    Dig(c) < base && c != ' ' && c != '\t' && c != '+' && c != '-' && c != 'x' && c != NUL
  }

  lemma HexNumeral(d: nat, base: nat)
    requires d < base <= 16
    ensures NumeralChar(Hex(d), base) && Dig(Hex(d)) == d
  {
    HexDigit(d);
  }

  ghost predicate AllNumeral(t: string, base: nat) {
    forall k: nat | k < |t| :: NumeralChar(t[k], base)
  }

  lemma NumeralAppend(t: string, c: char, base: nat)
    requires AllNumeral(t, base) && NumeralChar(c, base)
    ensures AllNumeral(t + [c], base)
  {
    hide NumeralChar;
  }

  lemma {:induction false} DigitsAre(num: nat, base: nat)
    requires 2 <= base <= 16
    ensures AllNumeral(Digits(num, base), base)
    decreases num
  {
    hide NumeralChar, Hex, AllNumeral;
    DivideBack(num, base);
    var q, r := num / base, num % base;
    if num < base {
      HexNumeral(num, base);
      NoneNumeral(base);
      NumeralAppend([], Hex(num), base);
      assert [] + [Hex(num)] == [Hex(num)];
    } else {
      HexNumeral(r, base);
      DigitsAre(q, base);
      NumeralAppend(Digits(q, base), Hex(r), base);
    }
  }

  lemma NoneNumeral(base: nat)
    ensures AllNumeral([], base)
  {
  }

  /** The number the k-th nested call of printnum is given. */
  function Passed(num: nat, base: nat, k: nat): nat
    requires base > 0
  {
    if k == 0 then num else Passed(num, base, k - 1) / base
  }

  /** With base 1 every nested call is given the same number, and makes another: printnum does not end. */
  lemma {:induction false} BaseOneStays(num: nat, k: nat)
    requires num >= 1
    ensures Passed(num, 1, k) == num && Passed(num, 1, k) >= 1
  {
    if k > 0 { BaseOneStays(num, k - 1); }
  }

  /** With a larger base the numbers get smaller until no call is made. */
  lemma {:induction false} LargerBaseEnds(num: nat, base: nat) returns (k: nat)
    requires base >= 2
    ensures Passed(num, base, k) < base
    decreases num
  {
    if num < base {
      k := 0;
    } else {
      DivideBack(num, base);
      k := LargerBaseEnds(num / base, base);
      PassedOn(num, base, k);
      k := k + 1;
    }
  }

  lemma {:induction false} PassedOn(num: nat, base: nat, k: nat)
    requires base > 0
    ensures Passed(num, base, k + 1) == Passed(num / base, base, k)
  {
    if k > 0 { PassedOn(num, base, k - 1); }
  }

  lemma DivideBack(num: nat, base: nat)
    requires base >= 2
    ensures num / base * base + num % base == num && (num > 0 ==> num / base < num)
  {
  }

  /** The digits have the value of the number. */
  lemma {:induction false} DigitsValue(num: nat, base: nat)
    requires 2 <= base <= 16
    ensures Value(Digits(num, base), base) == num
    decreases num
  {
    hide Dig, Hex, Value;
    if num < base {
      HexDigit(num);
      ValueAppend([], Hex(num), base);
    } else {
      var q, r := num / base, num % base;
      HexDigit(r);
      DivideBack(num, base);
      DigitsValue(q, base);
      ValueAppend(Digits(q, base), Hex(r), base);
      assert Value(Digits(q, base), base) * base == q * base;
      assert Digits(num, base) == Digits(q, base) + [Hex(r)];
    }
  }

  /** A nonzero number starts with a nonzero digit. */
  lemma {:induction false} NoLeadingZero(num: nat, base: nat)
    requires 2 <= base <= 16
    ensures Digits(num, base)[0] == '0' <==> num == 0
    decreases num
  {
    if num < base { HexDigit(num); } else { NoLeadingZero(num / base, base); }
  }

  // ----- reading a number back -----

  /** Blanks, then a row of numeral characters to the end. */
  ghost predicate Row(s: string, p: nat, base: nat) {
    && p < |s| && (forall k: nat | k < p :: Blank(s[k]))
    && forall k: nat | p <= k < |s| :: NumeralChar(s[k], base)
  }

  lemma RowDigits(s: string, p: nat, base: nat)
    requires base <= 36 && p <= |s| && forall k: nat | p <= k < |s| :: NumeralChar(s[k], base)
    ensures DigitEnd(s, p, base) == |s| && s[p..|s|] == s[p..]
  {
    hide Dig;
    DigOfNul();
    DigitsRead(s, p, |s|, base);
  }

  lemma RowStarts(s: string, p: nat, base: nat)
    requires Row(s, p, base)
    ensures BlankEnd(s, 0) == p && CharAt(s, p) == s[p] != '+' && s[p] != '-' && CharAt(s, p + 1) != 'x'
  {
    hide Dig;
    assert NumeralChar(s[p], base);
    if p + 1 < |s| { assert NumeralChar(s[p + 1], base); }
    BlanksRead(s, 0, p);
  }

  /** strtol in the base of the row reads it to its end. */
  lemma RowReads(s: string, p: nat, base: nat)
    requires Row(s, p, base) && base in {8, 10, 16}
    ensures Parse(s, base) == Parsed(Wrap64(Value(s[p..], base)), |s|)
  {
    hide Dig, Row, NumeralChar, Value;
    RowStarts(s, p, base);
    RowTail(s, p, base);
    RowDigits(s, p, base);
  }

  lemma RowTail(s: string, p: nat, base: nat)
    requires Row(s, p, base)
    ensures p < |s| && forall k: nat | p <= k < |s| :: NumeralChar(s[k], base)
  {
  }

  /** So does strtol in base 0, when the row is decimal and starts with no zero or is a zero. */
  lemma RowReadsAny(s: string, p: nat)
    requires Row(s, p, 10) && (s[p] == '0' ==> p + 1 == |s|)
    ensures Parse(s, 0) == Parsed(Wrap64(Value(s[p..], 10)), |s|)
  {
    hide Dig, Row, NumeralChar;
    RowStarts(s, p, 10);
    RowTail(s, p, 10);
    RowDigits(s, p, 10);
    if s[p] == '0' {
      DigOfNul();
      assert DigitEnd(s, p + 1, 8) == p + 1 && s[p + 1..p + 1] == [];
      assert s[p..] == ['0'] && Value(['0'], 10) == 0 by { assert ['0'][..0] == []; ZeroDig(); }
    }
  }

  lemma ZeroDig()
    ensures Dig('0') == 0
  {
  }

  /** With its prefix, a hexadecimal row is read in base 0 and in base 16. */
  lemma PrefixedReads(t: string, base: nat)
    requires Row(t, 0, 16) && base in {0, 16}
    ensures Parse("0x" + t, base) == Parsed(Wrap64(Value(t, 16)), |t| + 2)
  {
    hide Dig, NumeralChar, Value;
    var s := "0x" + t;
    assert s[2..] == t;
    assert BlankEnd(s, 0) == 0;
    assert forall k: nat | 2 <= k < |s| :: s[k] == t[k - 2];
    RowDigits(s, 2, 16);
  }

  /** A sign directly before the row. */
  lemma SignedReads(t: string, base: nat)
    requires Row(t, 0, base) && base in {8, 10, 16}
    ensures Parse("-" + t, base) == Parsed(Wrap64(-(Value(t, base) as int)), |t| + 1)
  {
    hide Dig, NumeralChar, Value;
    var s := "-" + t;
    RowStarts(t, 0, base);
    assert s[1..] == t;
    assert BlankEnd(s, 0) == 0 && CharAt(s, 1) == t[0] && CharAt(s, 2) == CharAt(t, 1);
    assert forall k: nat | 1 <= k < |s| :: s[k] == t[k - 1];
    RowDigits(s, 1, base);
  }

  lemma TextRow(num: nat, base: nat, width: int, padc: char)
    requires base in {8, 10, 16} && padc in {' ', '0'}
    ensures var t := NumText(num, base, width, padc);
            var p := if padc == ' ' then |t| - |Digits(num, base)| else 0;
            Row(t, p, base) && Value(t[p..], base) == num
  {
    hide Dig, NumeralChar, Value, Hex;
    var pad, digits := Repeat(padc, width - |Digits(num, base)|), Digits(num, base);
    DigitsAre(num, base);
    DigitsValue(num, base);
    HexNumeral(0, base);
    ZeroIsHex();
    if padc == ' ' {
      assert (pad + digits)[|pad|..] == digits;
    } else {
      ZerosLead(pad, digits, base);
      assert (pad + digits)[0..] == pad + digits;
    }
  }

  lemma ZeroIsHex()
    ensures Hex(0) == '0'
  {
  }

  /** strtol undoes printnum in its own base, for any width, padded with spaces or zeros. */
  lemma RoundTrip(num: nat, base: nat, width: int, padc: char)
    requires base in {8, 10, 16} && padc in {' ', '0'}
    ensures var t := NumText(num, base, width, padc); Parse(t, base) == Parsed(Wrap64(num), |t|)
  {
    hide Row, Value, Parse, Digits;
    var t := NumText(num, base, width, padc);
    TextRow(num, base, width, padc);
    RowReads(t, if padc == ' ' then |t| - |Digits(num, base)| else 0, base);
  }

  /** Base 0 reads a decimal number padded with spaces or not at all. */
  lemma RoundTripAny(num: nat, width: int)
    ensures var t := NumText(num, 10, width, ' '); Parse(t, 0) == Parsed(Wrap64(num), |t|)
  {
    var t := NumText(num, 10, width, ' ');
    OneDigit();
    TextRow(num, 10, width, ' ');
    NoLeadingZero(num, 10);
    RowReadsAny(t, |t| - |Digits(num, 10)|);
  }

  /** Padded with zeros a decimal number is read as octal: base 0 reads it right exactly when there is no padding,
      or a single octal digit. */
  lemma ZeroPaddedAny(num: nat, width: int)
    requires num < 0x1_0000_0000_0000_0000
    ensures var t := NumText(num, 10, width, '0');
            Parse(t, 0) == Parsed(Wrap64(num), |t|) <==> width <= |Digits(num, 10)| || num < 8
  {
    hide Digits, Row, Wrap64;
    var t := NumText(num, 10, width, '0');
    if width <= |Digits(num, 10)| {
      RoundTripAny(num, width);
      NoPadding(num, width);
    } else if num < 8 {
      SmallIsOctal(num);
      RoundTripOctal(num, width);
    } else {
      OctalDiffers(num, width);
    }
  }

  lemma NoPadding(num: nat, width: int)
    requires width <= |Digits(num, 10)|
    ensures NumText(num, 10, width, '0') == NumText(num, 10, width, ' ')
  {
    hide Digits;
    assert Repeat('0', width - |Digits(num, 10)|) == Repeat(' ', width - |Digits(num, 10)|);
  }

  lemma SmallIsOctal(num: nat)
    requires num < 8
    ensures Digits(num, 8) == Digits(num, 10)
  {
  }

  /** With a zero in front, base 0 reads the rest in base 8. */
  lemma ReadAsOctal(num: nat, width: int)
    requires width > |Digits(num, 10)|
    ensures var t := NumText(num, 10, width, '0');
            && |t| > 1 && t == ['0'] + t[1..]
            && Parse(t, 0) == Parsed(Wrap64(Value(t[1..DigitEnd(t, 1, 8)], 8)), DigitEnd(t, 1, 8))
            && Value(t[1..], 8) == Value(Digits(num, 10), 8)
  {
    hide Dig, NumeralChar, Value, Digits, Wrap64;
    var t := NumText(num, 10, width, '0');
    var pad := Repeat('0', width - |Digits(num, 10)|);
    TextRow(num, 10, width, '0');
    RowStarts(t, 0, 10);
    assert pad == ['0'] + pad[1..];
    assert t[1..] == pad[1..] + Digits(num, 10);
    ZerosLead(pad[1..], Digits(num, 10), 8);
  }

  /** Decimal digits read in base 8 give less, from 10 on. */
  lemma {:induction false} OctalSmaller(num: nat)
    ensures Value(Digits(num, 10), 8) <= num && (num >= 10 ==> Value(Digits(num, 10), 8) < num)
    decreases num
  {
    hide Dig, Hex, Value;
    if num < 10 {
      HexDigit(num);
      ValueAppend([], Hex(num), 8);
    } else {
      var q, r := num / 10, num % 10;
      HexDigit(r);
      OctalSmaller(q);
      ValueAppend(Digits(q, 10), Hex(r), 8);
      assert Digits(num, 10) == Digits(q, 10) + [Hex(r)];
    }
  }

  lemma OctalDiffers(num: nat, width: int)
    requires 8 <= num < 0x1_0000_0000_0000_0000 && width > |Digits(num, 10)|
    ensures var t := NumText(num, 10, width, '0'); Parse(t, 0) != Parsed(Wrap64(num), |t|)
  {
    hide Dig, Value, Digits, Wrap64, NumText, Parse;
    var t := NumText(num, 10, width, '0');
    ReadAsOctal(num, width);
    if DigitEnd(t, 1, 8) == |t| {
      if num < 10 {
        LastDigit(num, width);
        LastOctal(t);
      } else {
        OctalSmaller(num);
        assert t[1..|t|] == t[1..];
        if Wrap64(Value(t[1..], 8)) == Wrap64(num) { WrapInjective(Value(t[1..], 8), num); }
      }
    }
  }

  lemma LastOctal(t: string)
    requires |t| > 1 && DigitEnd(t, 1, 8) == |t|
    ensures Dig(t[|t| - 1]) < 8
  {
    hide Dig;
    assert AllDigits(t[1..|t|], 8) && t[1..|t|][|t| - 2] == t[|t| - 1];
  }

  lemma LastDigit(num: nat, width: int)
    requires num < 10
    ensures var t := NumText(num, 10, width, '0'); t != [] && Dig(t[|t| - 1]) == num
  {
    hide Dig, Hex, Repeat;
    HexDigit(num);
  }

  /** With 0x in front, base 0 and base 16 read a hexadecimal number, padded with zeros or not at all. */
  lemma HexRoundTrip(num: nat, width: int, base: nat)
    requires base in {0, 16}
    ensures var t := "0x" + NumText(num, 16, width, '0'); Parse(t, base) == Parsed(Wrap64(num), |t|)
  {
    hide Row, Value, Parse, Digits;
    var t := NumText(num, 16, width, '0');
    TextRow(num, 16, width, '0');
    assert t[0..] == t;
    PrefixedReads(t, base);
  }

  lemma OneDigit()
    ensures Digits(0, 10) == ['0']
  {
  }

  /** Base 0 reads an octal number with a zero in front. */
  lemma RoundTripOctal(num: nat, width: int)
    requires width > |Digits(num, 8)|
    ensures var t := NumText(num, 8, width, '0'); Parse(t, 0) == Parsed(Wrap64(num), |t|)
  {
    hide Dig, NumeralChar, Value, Digits;
    var t := NumText(num, 8, width, '0');
    TextRow(num, 8, width, '0');
    RowStarts(t, 0, 8);
    RowDigits(t, 1, 8);
    assert t[0] == '0' && t == ['0'] + t[1..] && t[0..] == t;
    ZerosLead(['0'], t[1..], 8);
  }

  /** A negative number, whose sign is printed before the padding, is read back exactly when no space comes between. */
  lemma NegativeRoundTrip(num: nat, width: int, padc: char)
    requires num > 0 && padc in {' ', '0'}
    ensures var t := "-" + NumText(num, 10, width, padc);
            Parse(t, 10) == Parsed(Wrap64(-(num as int)), |t|) <==> padc == '0' || width <= |Digits(num, 10)|
  {
    hide Value, Row, Digits;
    var t := NumText(num, 10, width, padc);
    TextRow(num, 10, width, padc);
    if padc == '0' || width <= |Digits(num, 10)| {
      assert t[0..] == t;
      SignedReads(t, 10);
    } else {
      SpaceStops(t);
    }
  }

  lemma SpaceStops(t: string)
    requires t != [] && t[0] == ' '
    ensures Parse("-" + t, 10) == Parsed(0, 1)
  {
    hide Dig;
    var s := "-" + t;
    assert BlankEnd(s, 0) == 0;
    assert Dig(' ') == 36 by { SpaceDig(); }
    assert DigitEnd(s, 1, 10) == 1 && s[1..1] == [];
  }

  lemma SpaceDig()
    ensures Dig(' ') == 36
  {
  }
}
