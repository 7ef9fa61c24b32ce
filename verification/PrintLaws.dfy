/** What formats print: for every conversion, width, precision and flag, the text, and what strtol reads in it. */
module PrintLaws {
  import opened Wrappers
  import opened Strtol
  import opened PrintNum
  import opened PrintFormat
  import opened Printf

  /** A width as it stands in a format; 0 is for none. */
  function Width(n: nat): string {
    if n == 0 then "" else Digits(n, 10)
  }

  /** The start of a directive: the percent sign, a flag, a width. */
  function Directive(flag: string, n: nat): string {
    "%" + flag + Width(n)
  }

  function FlagsOf(flag: string, n: nat): Flags {
    NO_FLAGS.(padc := if flag == "" then ' ' else flag[0], width := if n == 0 then -1 else n)
  }

  // ----- reading widths -----

  lemma DecimalDigit(d: nat)
    requires d < 10
    ensures IsDecimal(Hex(d))
  {
  }

  lemma {:induction false} DecimalDigits(n: nat)
    ensures forall k: nat | k < |Digits(n, 10)| :: IsDecimal(Digits(n, 10)[k])
    decreases n
  {
    hide Hex, IsDecimal;
    if n < 10 {
      DecimalDigit(n);
    } else {
      DivideBack(n, 10);
      DecimalDigits(n / 10);
      DecimalDigit(n % 10);
    }
  }

  lemma {:induction false} NumberEndAt(fmt: string, p: nat, e: nat)
    requires p <= e <= |fmt| && (forall k: nat | p <= k < e :: IsDecimal(fmt[k])) && !IsDecimal(CharAt(fmt, e))
    ensures NumberEnd(fmt, p) == e
    decreases e - p
  {
    hide IsDecimal;
    NumberStarts(fmt, p);
    if p < e { NumberEndAt(fmt, p + 1, e); }
  }

  /** A number in the flags. */
  lemma ScanNumber(before: string, n: nat, rest: string, f: Flags, args: seq<Arg>)
    requires n > 0 && !IsDecimal(CharAt(rest, 0))
    ensures var fmt, p := before + Digits(n, 10) + rest, |before|;
            Scan(fmt, p, f, args) == Scan(fmt, p + |Digits(n, 10)|, WithNumber(f, n), args)
  {
    hide Digits, Scan, Value, NumberEnd;
    var d := Digits(n, 10);
    var fmt, p := before + d + rest, |before|;
    DecimalDigits(n);
    NoLeadingZero(n, 10);
    DigitsValue(n, 10);
    assert fmt[p..p + |d|] == d && fmt[p] == d[0] && CharAt(fmt, p + |d|) == CharAt(rest, 0);
    assert forall k: nat | p + 1 <= k < p + |d| :: fmt[k] == d[k - p];
    NumberEndAt(fmt, p + 1, p + |d|);
    ScanStarts(fmt, p, f, args);
  }

  /** The flag and the width are read, and reading goes on behind them. */
  lemma ScanDirective(flag: string, n: nat, rest: string, args: seq<Arg>)
    requires flag in {"", "0", "-"} && !IsDecimal(CharAt(rest, 0))
    ensures var fmt := Directive(flag, n) + rest;
            Scan(fmt, 1, NO_FLAGS, args) == Scan(fmt, |Directive(flag, n)|, FlagsOf(flag, n), args)
  {
    hide Digits, Scan;
    var fmt, before := Directive(flag, n) + rest, "%" + flag;
    var f := FlagsOf(flag, 0);
    if flag != "" {
      assert fmt[1] == flag[0];
      ScanStarts(fmt, 1, NO_FLAGS, args);
    }
    if n > 0 {
      ScanNumber(before, n, rest, f, args);
      assert fmt == before + Digits(n, 10) + rest;
    }
  }

  /** A whole format that is one directive prints its one conversion. */
  lemma OneDirective(fmt: string, q: nat, f: Flags, a: Arg)
    requires |fmt| >= 2 && q == |fmt| - 1 && fmt[0] == '%' && Scan(fmt, 1, NO_FLAGS, [a]) == Some((q, f, [a]))
    requires IsConversion(fmt[q]) && fmt[q] != '%'
    ensures Out(fmt, 0, [a]) == Converted(fmt[q], f, a)
  {
    hide Scan, Converted;
    OutEscape(fmt, 0, [a], q, f, [a]);
    OutStarts(fmt, q + 1, []);
    assert [a][1..] == [];
    if Converted(fmt[q], f, a).Some? { assert Converted(fmt[q], f, a).value + "" == Converted(fmt[q], f, a).value; }
  }

  // ----- numbers -----

  lemma NumberDirective(flag: string, n: nat, long: bool, c: char, w: nat)
    requires flag in {"", "0"} && c in {'x', 'o', 'u', 'd', 'p'}
    ensures Out(Directive(flag, n) + (if long then "l" else "") + [c], 0, [Word(w)])
            == Converted(c, FlagsOf(flag, n).(lflag := if long then 1 else 0), Word(w))
  {
    hide Digits, Scan, Converted, Out;
    var rest := (if long then "l" else "") + [c];
    var fmt, p, f, a := Directive(flag, n) + rest, |Directive(flag, n)|, FlagsOf(flag, n), [Word(w)];
    assert fmt == Directive(flag, n) + (if long then "l" else "") + [c];
    assert fmt[0] == '%' && CharAt(fmt, p) == rest[0] && fmt[|fmt| - 1] == c;
    ScanDirective(flag, n, rest, a);
    ScanStarts(fmt, p, f, a);
    if long {
      assert fmt[p + 1] == c;
      ScanStarts(fmt, p + 1, f.(lflag := 1), a);
    }
    OneDirective(fmt, |fmt| - 1, f.(lflag := if long then 1 else 0), Word(w));
  }

  /** The digits of a number at the right of a field of n characters, or wider if they need it. */
  ghost predicate InField(t: string, num: nat, base: nat, n: nat, padc: char)
    requires 2 <= base <= 16
  {
    var d := Digits(num, base);
    && |t| == (if |d| < n then n else |d|) && t[|t| - |d|..] == d
    && forall k: nat | k < |t| - |d| :: t[k] == padc
  }

  lemma FieldText(num: nat, base: nat, n: nat, padc: char)
    requires 2 <= base <= 16
    ensures InField(NumText(num, base, if n == 0 then -1 else n, padc), num, base, n, padc)
  {
    hide Digits;
  }

  /** %x, %o and %u, with or without l, for every width, padded with spaces or zeros: the text is the number's, 32 bits
      of it or all 64, at the right of the field, and strtol reads it in base 16, 8 and 10, to its end. */
  lemma UnsignedRoundTrip(zero: bool, n: nat, long: bool, c: char, w: nat)
    requires c in {'x', 'o', 'u'} && w < 0x1_0000_0000_0000_0000
    ensures var fmt := "%" + (if zero then "0" else "") + Width(n) + (if long then "l" else "") + [c];
            var num := if long then w else w % 0x1_0000_0000;
            var base := if c == 'x' then 16 else if c == 'o' then 8 else 10;
            var t := Out(fmt, 0, [Word(w)]);
            && t.Some? && InField(t.value, num, base, n, if zero then '0' else ' ')
            && Parse(t.value, base) == Parsed(Wrap64(num), |t.value|)
  {
    hide Digits, Parse, Out, InField, Wrap64;
    var flag := if zero then "0" else "";
    var num := if long then w else w % 0x1_0000_0000;
    var base := if c == 'x' then 16 else if c == 'o' then 8 else 10;
    NumberDirective(flag, n, long, c, w);
    FieldText(num, base, n, if zero then '0' else ' ');
    RoundTrip(num, base, if n == 0 then -1 else n, if zero then '0' else ' ');
  }

  /** %d: the sign, which the width does not count, before the field; strtol reads it back, as a number of 32 or 64
      bits, exactly when no space stands between the two. */
  lemma SignedRoundTrip(zero: bool, n: nat, long: bool, w: nat)
    requires w < 0x1_0000_0000_0000_0000
    ensures var fmt := "%" + (if zero then "0" else "") + Width(n) + (if long then "l" else "") + "d";
            var low := w % 0x1_0000_0000;
            var v := if long then (if w < 0x8000_0000_0000_0000 then w else w - 0x1_0000_0000_0000_0000)
                     else (if low < 0x8000_0000 then low else low - 0x1_0000_0000);
            var t := Out(fmt, 0, [Word(w)]);
            && t.Some? && (v < 0 ==> t.value != "" && t.value[0] == '-')
            && InField(if v < 0 then t.value[1..] else t.value, Abs(v), 10, n, if zero then '0' else ' ')
            && (Parse(t.value, 10) == Parsed(v, |t.value|) <==> v >= 0 || zero || n <= |Digits(Abs(v), 10)|)
  {
    hide Digits, Parse, Out, InField;
    var padc, width := if zero then '0' else ' ', if n == 0 then -1 else n;
    var v := if long then Int64(w) else Int32(w);
    NumberDirective(if zero then "0" else "", n, long, 'd', w);
    FieldText(Abs(v), 10, n, padc);
    var t := NumText(Abs(v), 10, width, padc);
    if v < 0 {
      NegativeRoundTrip(Abs(v), width, padc);
      assert ("-" + t)[1..] == t;
    } else {
      RoundTrip(v, 10, width, padc);
      assert "" + t == t;
    }
  }

  /** %p: 0x before the field; strtol in base 0 reads the pointer exactly when no space stands between the two. */
  lemma PointerField(zero: bool, n: nat, w: nat)
    requires w < 0x1_0000_0000_0000_0000
    ensures var t := Out("%" + (if zero then "0" else "") + Width(n) + "p", 0, [Word(w)]);
            && t.Some? && |t.value| >= 2 && t.value[..2] == "0x"
            && InField(t.value[2..], w, 16, n, if zero then '0' else ' ')
            && (Parse(t.value, 0) == Parsed(Int64(w), |t.value|) <==> zero || n <= |Digits(w, 16)|)
  {
    hide Digits, Parse, Out, InField;
    var padc, width := if zero then '0' else ' ', if n == 0 then -1 else n;
    var flag := if zero then "0" else "";
    NumberDirective(flag, n, false, 'p', w);
    assert Directive(flag, n) + "" + "p" == "%" + flag + Width(n) + "p";
    FieldText(w, 16, n, padc);
    var t := NumText(w, 16, width, padc);
    assert ("0x" + t)[..2] == "0x" && ("0x" + t)[2..] == t;
    if zero || n <= |Digits(w, 16)| {
      NoRepeat(' ', width - |Digits(w, 16)|);
      assert zero || t == NumText(w, 16, -1, '0');
      HexRoundTrip(w, if zero then width else -1, 0);
    } else {
      SpaceBehindPrefix(t);
    }
  }

  lemma SpaceBehindPrefix(t: string)
    requires t != [] && t[0] == ' '
    ensures Parse("0x" + t, 0).end == 2
  {
    var s := "0x" + t;
    assert s[0] == '0' && s[1] == 'x' && s[2] == ' ' && BlankEnd(s, 0) == 0 && DigitEnd(s, 2, 16) == 2;
  }

  // ----- strings -----

  /** A string cut at m characters, at the left or the right of a field of n, or wider if it needs it. */
  ghost predicate StringInField(t: string, s: string, n: nat, m: nat, left: bool) {
    var cut := if |s| <= m then s else s[..m];
    && |t| == (if |cut| < n then n else |cut|)
    && (if left then t[..|cut|] == cut else t[|t| - |cut|..] == cut)
    && forall k | (if left then |cut| else 0) <= k < (if left then |t| else |t| - |cut|) :: t[k] == ' '
  }

  lemma StringText(s: string, n: nat, m: nat, left: bool)
    requires m > 0
    ensures StringInField(StrText(s, Flags(if left then '-' else ' ', n, m, 0, false)), s, n, m, left)
  {
    hide Cut, Repeat;
    var cut := if |s| <= m then s else s[..m];
    CutIs(s, m);
    assert Cut(s, m) == cut;
    ShownPlain(cut);
  }

  /** "%n.ms" and "%-n.ms". */
  lemma StringField(s: string, n: nat, m: nat, left: bool)
    requires n > 0 && m > 0
    ensures var fmt := "%" + (if left then "-" else "") + Width(n) + "." + Width(m) + "s";
            var t := Out(fmt, 0, [Str(Some(s))]);
            t.Some? && StringInField(t.value, s, n, m, left)
  {
    hide Digits, Scan, Out, StringInField, StrText;
    var flag, a := if left then "-" else "", [Str(Some(s))];
    var rest := "." + Width(m) + "s";
    var p, f := |Directive(flag, n)|, FlagsOf(flag, n);
    var fmt := Directive(flag, n) + rest;
    assert fmt == "%" + flag + Width(n) + "." + Width(m) + "s";
    assert CharAt(fmt, p) == '.' && fmt[|fmt| - 1] == 's' && fmt[0] == '%';
    ScanDirective(flag, n, rest, a);
    ScanStarts(fmt, p, f, a);
    assert fmt == (Directive(flag, n) + ".") + Digits(m, 10) + "s";
    ScanNumber(Directive(flag, n) + ".", m, "s", f, a);
    var g := Flags(if left then '-' else ' ', n, m, 0, false);
    ScanStarts(fmt, |fmt| - 1, g, a);
    OneDirective(fmt, |fmt| - 1, g, a[0]);
    StringText(s, n, m, left);
  }

  /** A null pointer prints as "(null)". */
  lemma NullString()
    ensures Out("%s", 0, [Str(None)]) == Some("(null)")
  {
    hide Out;
    var a := Str(None);
    PlainString("(null)");
    OneDirective("%s", 1, NO_FLAGS, a);
  }

  /** A precision of 0 cannot be written: the zero is taken for the flag, and nothing is cut. */
  lemma PrecisionZero(s: string)
    ensures Out("%.0s", 0, [Str(Some(s))]) == Some(s)
  {
    hide Out, Scan;
    var fmt, a := "%.0s", [Str(Some(s))];
    ScanStarts(fmt, 1, NO_FLAGS, a);
    ScanStarts(fmt, 2, NO_FLAGS.(width := 0), a);
    var f := NO_FLAGS.(width := 0, padc := '0');
    ScanStarts(fmt, 3, f, a);
    OneDirective(fmt, 3, f, a[0]);
    ShownPlain(s);
    assert "" + s == s;
  }

  /** %#s shows a question mark for what is not from space to tilde. */
  lemma ShownString(s: string)
    ensures var t := Out("%#s", 0, [Str(Some(s))]);
            && t.Some? && |t.value| == |s|
            && forall k | 0 <= k < |s| :: t.value[k] == if ' ' <= s[k] <= '~' then s[k] else '?'
  {
    hide Out, Scan;
    var fmt, a, f := "%#s", [Str(Some(s))], NO_FLAGS.(alt := true);
    ScanStarts(fmt, 1, NO_FLAGS, a);
    ScanStarts(fmt, 2, f, a);
    OneDirective(fmt, 2, f, a[0]);
    ShownAt(s);
    assert "" + Shown(s, true) == Shown(s, true);
  }

  lemma {:induction false} ShownAt(s: string)
    ensures forall k | 0 <= k < |s| :: Shown(s, true)[k] == if ' ' <= s[k] <= '~' then s[k] else '?'
  {
    if s != [] { ShownAt(s[1..]); }
  }

  // ----- characters, errors, percent signs -----

  /** %c prints the low byte, whatever the width. */
  lemma CharOut(flag: string, n: nat, w: nat)
    requires flag in {"", "0", "-"}
    ensures Out("%" + flag + Width(n) + "c", 0, [Word(w)]) == Some([(w % 0x100) as char])
  {
    hide Digits, Scan, Out;
    var fmt, p, f, a := Directive(flag, n) + "c", |Directive(flag, n)|, FlagsOf(flag, n), [Word(w)];
    ScanDirective(flag, n, "c", a);
    ScanStarts(fmt, p, f, a);
    OneDirective(fmt, p, f, a[0]);
  }

  /** %e prints the text of an error number or of its negative; for other numbers the number itself, which strtol
      reads behind the word. */
  lemma ErrorOut(v: int)
    requires -0x8000_0000 < v < 0x8000_0000
    ensures var w := if v < 0 then v + 0x1_0000_0000 else v;
            var t := Out("%e", 0, [Word(w)]);
            && t.Some?
            && (v in {1, -1} ==> t.value == "unspecified error") && (v in {2, -2} ==> t.value == "bad process")
            && (v in {3, -3} ==> t.value == "invalid parameter") && (v in {4, -4} ==> t.value == "out of memory")
            && (v in {5, -5} ==> t.value == "out of processes") && (v in {6, -6} ==> t.value == "segmentation fault")
            && (v == 0 || v < -6 || v > 6 ==>
                 && t.value[..6] == "error "
                 && Parse(t.value[6..], 10) == Parsed(if v < 0 then -v else v, |t.value| - 6))
  {
    hide Out, Digits, Parse;
    var w := if v < 0 then v + 0x1_0000_0000 else v;
    var a := Word(w);
    ScanStarts("%e", 1, NO_FLAGS, [a]);
    assert Int32(w) == v;
    OneDirective("%e", 1, NO_FLAGS, a);
    var d := Digits(Abs(v), 10);
    assert ("error " + d)[..6] == "error " && ("error " + d)[6..] == d;
    RoundTrip(Abs(v), 10, -1, ' ');
    assert NumText(Abs(v), 10, -1, ' ') == d;
  }

  /** A width taken from the arguments does what it does in the format. */
  lemma StarWidth(n: nat, c: char, w: nat)
    requires 0 < n < 0x8000_0000 && c in {'x', 'o', 'u', 'd'}
    ensures Out("%*" + [c], 0, [Word(n), Word(w)]) == Out("%" + Digits(n, 10) + [c], 0, [Word(w)])
  {
    hide Out, Scan, Digits, Converted;
    var fmt, args, f := "%*" + [c], [Word(n), Word(w)], NO_FLAGS.(width := n);
    ScanStarts(fmt, 1, NO_FLAGS, args);
    assert args[1..] == [Word(w)] && Int32(n) == n;
    ScanStarts(fmt, 2, f, [Word(w)]);
    OutEscape(fmt, 0, args, 2, f, [Word(w)]);
    OutStarts(fmt, 3, []);
    assert [Word(w)][1..] == [];
    NumberDirective("", n, false, c, w);
    assert Directive("", n) + "" + [c] == "%" + Digits(n, 10) + [c];
    assert Converted(c, f, Word(w)).Some? by { NumberConverts(c, f, w); }
    assert Converted(c, f, Word(w)).value + "" == Converted(c, f, Word(w)).value;
  }

  lemma NumberConverts(c: char, f: Flags, w: nat)
    requires c in {'x', 'o', 'u', 'd'}
    ensures Converted(c, f, Word(w)).Some?
  {
  }

  /** A doubled percent sign prints one, and an escape that means nothing is printed as it stands. */
  lemma PercentOut(flag: string, n: nat, c: char)
    requires flag in {"", "0", "-"}
    requires c !in {'c', 'e', 's', 'd', 'u', 'o', 'p', 'x', '%', '-', '0', '.', '#', 'l', '*'} && !('0' <= c <= '9')
    ensures Out("%%", 0, []) == Some("%")
    ensures var fmt := "%" + flag + Width(n) + [c]; Out(fmt, 0, []) == Some(fmt)
  {
    hide Digits, Scan, Out;
    ScanStarts("%%", 1, NO_FLAGS, []);
    OutEscape("%%", 0, [], 1, NO_FLAGS, []);
    OutStarts("%%", 2, []);
    assert "%" + "" == "%";
    var fmt, p, f := Directive(flag, n) + [c], |Directive(flag, n)|, FlagsOf(flag, n);
    ScanDirective(flag, n, [c], []);
    ScanStarts(fmt, p, f, []);
    OutEscape(fmt, 0, [], p, f, []);
    NoPercent(flag, n, c);
    Literal(fmt, 1, |fmt|, []);
    OutStarts(fmt, |fmt|, []);
    assert fmt[1..|fmt|] + "" == fmt[1..] && "%" + fmt[1..] == fmt;
  }

  lemma NoPercent(flag: string, n: nat, c: char)
    requires flag in {"", "0", "-"} && c != '%'
    ensures var fmt := Directive(flag, n) + [c]; forall k: nat | 1 <= k < |fmt| :: fmt[k] != '%'
  {
    hide Digits;
    if n > 0 { DecimalDigits(n); }
    var fmt := Directive(flag, n) + [c];
    forall k: nat | 1 <= k < |fmt| ensures fmt[k] != '%' {
      var j := k - 1 - |flag|;
      if k <= |flag| { assert fmt[k] == flag[k - 1]; }
      else if j < |Width(n)| { assert fmt[k] == Width(n)[j] && IsDecimal(Width(n)[j]); }
    }
  }
}
