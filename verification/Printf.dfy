/** printfmt.c: the format machine, printing into a bounded buffer. */
module Printf {
  import opened Wrappers
  import opened Strtol
  import opened PrintNum
  import opened PrintFormat

  /** struct sprintbuf: the buffer str, the next position buf in it, the last position ebuf, and the count. */
  class SprintBuf {
    const str: array<char>
    const ebuf: nat
    var buf: nat
    var cnt: nat
    ghost var all: string             // everything put so far
    ghost const before: seq<char>     // the contents of str at the start

    ghost predicate Valid()
      reads this, str
    {
      && ebuf < str.Length == |before| && cnt == |all| && buf == (if |all| < ebuf then |all| else ebuf)
      && str[..buf] == all[..buf] && str[buf..] == before[buf..]
    }

    constructor (a: array<char>, last: nat)
      requires last < a.Length
      ensures Valid() && str == a && ebuf == last && all == "" && before == a[..]
    {
      str, ebuf, buf, cnt, all, before := a, last, 0, 0, "", a[..];
    }

    /** sprintputch. */
    method Put(ch: char)
      requires Valid()
      modifies this, str
      ensures Valid() && all == old(all) + [ch]
    {
      cnt, all := cnt + 1, all + [ch];
      if buf < ebuf {
        str[buf] := ch;
        buf := buf + 1;
      }
    }
  }

  /** Put the character n times. */
  method PutRepeated(b: SprintBuf, ch: char, n: int)
    requires b.Valid()
    modifies b, b.str
    ensures b.Valid() && b.all == old(b.all) + Repeat(ch, n)
  {
    var k := 0;
    while k < n
      invariant 0 <= k && (k <= n || k == 0) && b.Valid() && b.all == old(b.all) + Repeat(ch, k)
    {
      b.Put(ch);
      k := k + 1;
    }
  }

  /** printnum. Its base is never 1, with which it would not end. */
  method Printnum(b: SprintBuf, num: nat, base: nat, width: int, padc: char)
    requires b.Valid() && 2 <= base <= 16
    modifies b, b.str
    ensures b.Valid() && b.all == old(b.all) + NumText(num, base, width, padc)
    decreases num
  {
    hide NumText, Hex, Repeat;
    DivideBack(num, base);
    var result, mod := num / base, num % base;
    if num >= base {
      NumTextStep(num, base, width, padc);
      Printnum(b, result, base, width - 1, padc);
    } else {
      NumTextBase(num, base, width, padc);
      PutRepeated(b, padc, width - 1);
    }
    b.Put(Hex(mod));
  }

  /** The padding before a string; width is what is left of the field. A negative precision becomes a huge
      size_t for strnlen. */
  method PadBefore(b: SprintBuf, s: string, f: Flags) returns (width: int)
    requires b.Valid() && IsCString(s) && |s| < 0x8000_0000_0000_0000 && FlagsOk(f)
    modifies b, b.str
    ensures b.Valid()
             && b.all == old(b.all) + if f.padc != '-' then Repeat(f.padc, f.width - |Cut(s, f.precision)|) else ""
    ensures if f.padc == '-' then width == f.width else width <= 0
  {
    hide Repeat, Cut;
    CutLength(s, f.precision);
    width := f.width;
    if width > 0 && f.padc != '-' {
      var len := StrnLen(s, if f.precision < 0 then f.precision + 0x1_0000_0000_0000_0000 else f.precision);
      width := width - len;
      PutRepeated(b, f.padc, width);
      width := if width > 0 then 0 else width;
    } else {
      NoRepeat(f.padc, f.width - |Cut(s, f.precision)|);
    }
  }

  /** The case of %s. */
  method PutString(b: SprintBuf, s: string, f: Flags)
    requires b.Valid() && IsCString(s) && |s| < 0x8000_0000_0000_0000 && FlagsOk(f)
    modifies b, b.str
    ensures b.Valid() && b.all == old(b.all) + StrText(s, f)
  {
    hide Repeat, Shown, Cut;
    var width := PadBefore(b, s, f);
    var n := PutChars(b, s, f.precision, f.alt);
    NoRepeat(' ', width - n);
    PutRepeated(b, ' ', width - n);
  }

  lemma CutLength(s: string, precision: int)
    ensures |Cut(s, precision)| == if precision < 0 || |s| <= precision then |s| else precision
  {
  }

  lemma NoRepeat(c: char, n: int)
    ensures n <= 0 ==> Repeat(c, n) == ""
  {
  }

  /** The characters of a string; n is how many. */
  method PutChars(b: SprintBuf, s: string, limit: int, alt: bool) returns (n: nat)
    requires b.Valid() && IsCString(s)
    modifies b, b.str
    ensures b.Valid() && b.all == old(b.all) + Shown(Cut(s, limit), alt) && n == |Cut(s, limit)|
  {
    hide Cut, Shown, Printable;
    ghost var t := Cut(s, limit);
    CutIs(s, limit);
    ShownEnd(t, 0, alt);
    var p, precision := 0, limit;
    while CharAt(s, p) != NUL && (precision < 0 || precision - 1 >= 0)
      invariant p <= |t| <= |s| && b.Valid() && b.all + Shown(t[p..], alt) == old(b.all) + Shown(t, alt)
      invariant limit < 0 ==> precision == limit
      invariant limit >= 0 ==> precision == limit - p
      decreases |s| - p
    {
      var ch := s[p];
      ShownStep(t, p, alt);
      if precision >= 0 {
        precision := precision - 1;
      }
      if alt && !Printable(ch) {
        b.Put('?');
      } else {
        b.Put(ch);
      }
      p := p + 1;
    }
    n := p;
    ShownEnd(t, p, alt);
  }

  lemma ShownStep(t: string, p: nat, alt: bool)
    requires p < |t|
    ensures Shown(t[p..], alt) == [if alt && !Printable(t[p]) then '?' else t[p]] + Shown(t[p + 1..], alt)
  {
    assert t[p..][1..] == t[p + 1..];
  }

  lemma ShownEnd(t: string, p: nat, alt: bool)
    requires p <= |t|
    ensures p == |t| ==> Shown(t[p..], alt) == ""
    ensures t[0..] == t
  {
  }

  lemma CutIs(s: string, limit: int)
    ensures var t := Cut(s, limit); t <= s && |t| == if limit < 0 || |s| <= limit then |s| else limit
  {
  }

  /** The digits of a number in a format: value and end. */
  method ReadNumber(fmt: string, p: nat) returns (n: nat, e: nat)
    requires p < |fmt| && IsNonzero(fmt[p])
    ensures e == NumberEnd(fmt, p + 1) && n == Value(fmt[p..e], 10)
  {
    hide Value, NumberEnd;
    n, e := 0, p;
    var ch := fmt[p];
    ValueEmpty();
    assert fmt[p..p] == "";
    NumberStarts(fmt, p + 1);
    while true
      invariant p <= e < |fmt| && ch == fmt[e] && IsDecimal(ch) && n == Value(fmt[p..e], 10)
      invariant NumberEnd(fmt, e + 1) == NumberEnd(fmt, p + 1)
      decreases |fmt| - e
    {
      assert fmt[p..e + 1] == fmt[p..e] + [ch];
      ValueAppend(fmt[p..e], ch, 10);
      DecimalDig(ch);
      n := n * 10 + (ch as nat - '0' as nat);
      e := e + 1;
      ch := CharAt(fmt, e);
      NumberStarts(fmt, e);
      if ch < '0' || ch > '9' {
        return;
      }
      NumberStarts(fmt, e + 1);
    }
  }

  lemma ValueEmpty()
    ensures Value("", 10) == 0
  {
  }

  lemma NumberStarts(fmt: string, p: nat)
    requires p <= |fmt|
    ensures NumberEnd(fmt, p) == if p < |fmt| && IsDecimal(fmt[p]) then NumberEnd(fmt, p + 1) else p
  {
  }

  lemma DecimalDig(c: char)
    requires IsDecimal(c)
    ensures Dig(c) == c as nat - '0' as nat
  {
  }

  predicate ArgsOk(args: seq<Arg>) {
    forall k: nat | k < |args| :: ArgOk(args[k])
  }

  lemma ScanStarts(fmt: string, p: nat, f: Flags, args: seq<Arg>)
    requires p <= |fmt|
    ensures Scan(fmt, p, f, args) ==
            if !IsFlag(CharAt(fmt, p)) then Some((p, f, args))
            else if fmt[p] == '*' then
              (if args == [] || !args[0].Word? then None else Scan(fmt, p + 1, WithNumber(f, Int32(args[0].w)),
                  args[1..]))
            else if IsNonzero(fmt[p]) then
              Scan(fmt, NumberEnd(fmt, p + 1), WithNumber(f, Value(fmt[p..NumberEnd(fmt, p + 1)], 10)), args)
            else Scan(fmt, p + 1, Flagged(f, fmt[p]), args)
  {
  }

  /** The part of vprintfmt from reswitch to a character that is no flag. */
  method ReadFlags(fmt: string, p: nat, args: seq<Arg>) returns (q: nat, f: Flags, left: seq<Arg>)
    requires p <= |fmt| && ArgsOk(args) && Scan(fmt, p, NO_FLAGS, args).Some?
    ensures Scan(fmt, p, NO_FLAGS, args) == Some((q, f, left)) && FlagsOk(f) && ArgsOk(left)
  {
    hide Scan, Value, NumberEnd;
    var padc, width, precision, lflag, altflag := ' ', -1, -1, 0, false;
    q, left := p, args;
    while true
      invariant q <= |fmt| && ArgsOk(left) && precision >= -0x8000_0000
      invariant Scan(fmt, q, Flags(padc, width, precision, lflag, altflag), left) == Scan(fmt, p, NO_FLAGS, args)
      decreases |fmt| - q
    {
      ghost var was := Flags(padc, width, precision, lflag, altflag);
      ScanStarts(fmt, q, was, left);
      var ch := CharAt(fmt, q);
      if ch == '-' || ch == '0' {
        padc, q := ch, q + 1;
      } else if IsNonzero(ch) {
        precision, q := ReadNumber(fmt, q);
        if width < 0 {
          width, precision := precision, -1;
        }
      } else if ch == '*' {
        precision, left, q := Int32(left[0].w), left[1..], q + 1;
        if width < 0 {
          width, precision := precision, -1;
        }
      } else if ch == '.' {
        if width < 0 {
          width := 0;
        }
        q := q + 1;
      } else if ch == '#' {
        altflag, q := true, q + 1;
      } else if ch == 'l' {
        lflag, q := lflag + 1, q + 1;
      } else {
        f := Flags(padc, width, precision, lflag, altflag);
        return;
      }
    }
  }

  // ----- conversions -----

  /** printf calls itself with two formats of its own, and only from the conversion %e, which they do not contain. */
  function Level(fmt: string): nat {
    if fmt == "error %d" || fmt == "%s" then 0 else 1
  }

  lemma NestedHasNoError(fmt: string, p: nat, args: seq<Arg>, q: nat, f: Flags, left: seq<Arg>)
    requires p < |fmt| && fmt[p] == '%' && Scan(fmt, p + 1, NO_FLAGS, args) == Some((q, f, left)) && q < |fmt|
             && fmt[q] == 'e'
    ensures Level(fmt) == 1
  {
    ScanStarts(fmt, p + 1, NO_FLAGS, args);
  }

  lemma NestedNumber(err: nat)
    requires err < 0x8000_0000
    ensures Out("error %d", 0, [Word(err)]) == Some("error " + Digits(err, 10))
  {
    hide Digits, Scan, Out;
    var fmt, a := "error %d", [Word(err)];
    OutStarts(fmt, 8, []);
    ScanStarts(fmt, 7, NO_FLAGS, a);
    assert Repeat(' ', -1 - |Digits(err, 10)|) == "" && "" + Digits(err, 10) == Digits(err, 10);
    assert Converted('d', NO_FLAGS, a[0]) == Some(Digits(err, 10)) && a[1..] == [];
    OutEscape(fmt, 6, a, 7, NO_FLAGS, a);
    assert Digits(err, 10) + "" == Digits(err, 10);
    Literal(fmt, 0, 6, a);
    assert fmt[0..6] == "error ";
  }

  lemma NestedString(s: string)
    ensures Out("%s", 0, [Str(Some(s))]) == Some(s)
  {
    var fmt, a := "%s", [Str(Some(s))];
    assert Out(fmt, 2, []) == Some("");
    assert Scan(fmt, 1, NO_FLAGS, a) == Some((1, NO_FLAGS, a));
    PlainString(s);
    assert Converted('s', NO_FLAGS, a[0]) == Some(s) && a[1..] == [];
    OutEscape(fmt, 0, a, 1, NO_FLAGS, a);
    assert s + "" == s;
  }

  lemma PlainString(s: string)
    ensures StrText(s, NO_FLAGS) == s
  {
    ShownPlain(s);
  }

  lemma {:induction false} ShownPlain(s: string)
    ensures Shown(s, false) == s
  {
    if s != [] { ShownPlain(s[1..]); }
  }

  /** The case of %e. */
  method PutError(b: SprintBuf, w: nat)
    requires b.Valid() && Int32(w) != -0x8000_0000
    modifies b, b.str
    ensures b.Valid() && b.all == old(b.all) + ErrorText(Abs(Int32(w)))
    decreases 1, 0
  {
    hide Out, Digits;
    var err := Int32(w);
    if err < 0 {
      err := -err;
    }
    if err > 6 || err == 0 {
      NestedNumber(err);
      Vprintfmt(b, "error %d", [Word(err)]);
    } else {
      NestedString(ERRORS[err]);
      Vprintfmt(b, "%s", [Str(Some(ERRORS[err]))]);
    }
  }

  /** The cases of the conversions that take an argument. */
  method PutConversion(b: SprintBuf, ch: char, f: Flags, a: Arg)
    requires b.Valid() && IsConversion(ch) && ch != '%' && ArgOk(a) && FlagsOk(f) && Converted(ch, f, a).Some?
    modifies b, b.str
    ensures b.Valid() && b.all == old(b.all) + Converted(ch, f, a).value
    decreases if ch == 'e' then 1 else 0, 1
  {
    hide NumText, StrText, ErrorText;
    if ch == 'c' {
      b.Put((a.w % 256) as char);
    } else if ch == 'e' {
      PutError(b, a.w);
    } else if ch == 's' {
      PutString(b, if a.s.Some? then a.s.value else "(null)", f);
    } else {
      var num, base := 0, 16;
      if ch == 'd' {
        var v := GetInt(a.w, f.lflag);
        if v < 0 {
          b.Put('-');
        }
        num, base := Abs(v), 10;
      } else if ch == 'u' {
        num, base := GetUint(a.w, f.lflag), 10;
      } else if ch == 'o' {
        num, base := GetUint(a.w, f.lflag), 8;
      } else if ch == 'p' {
        b.Put('0');
        b.Put('x');
        num := a.w;
      } else {
        num := GetUint(a.w, f.lflag);
      }
      Printnum(b, num, base, f.width, f.padc);
    }
  }

  lemma OutStarts(fmt: string, p: nat, args: seq<Arg>)
    requires p <= |fmt|
    ensures p < |fmt| && fmt[p] != '%' ==> Out(fmt, p, args) == Before([fmt[p]], Out(fmt, p + 1, args))
    ensures p == |fmt| ==> Out(fmt, p, args) == Some("")
    ensures p < |fmt| && fmt[p] == '%' && Out(fmt, p, args).Some? ==> Scan(fmt, p + 1, NO_FLAGS, args).Some?
  {
  }

  /** The text of an escape whose flags have been read. */
  lemma OutEscape(fmt: string, p: nat, args: seq<Arg>, q: nat, f: Flags, left: seq<Arg>)
    requires p < |fmt| && fmt[p] == '%' && Scan(fmt, p + 1, NO_FLAGS, args) == Some((q, f, left))
    ensures q == |fmt| || !IsConversion(fmt[q]) ==> Out(fmt, p, args) == Before("%", Out(fmt, p + 1, left))
    ensures q < |fmt| && fmt[q] == '%' ==> Out(fmt, p, args) == Before("%", Out(fmt, q + 1, left))
    ensures q < |fmt| && IsConversion(fmt[q]) && fmt[q] != '%' ==>
              Out(fmt, p, args) == if left == [] || Converted(fmt[q], f, left[0]).None? then None
                                   else Before(Converted(fmt[q], f, left[0]).value, Out(fmt, q + 1, left[1..]))
  {
  }

  /** One round of the outer loop of vprintfmt, from a '%' at p on: next is where the next round starts, beyond it. */
  method PutEscape(b: SprintBuf, fmt: string, p: nat, args: seq<Arg>) returns (next: nat, left: seq<Arg>)
    requires b.Valid() && IsCString(fmt) && p < |fmt| && fmt[p] == '%' && ArgsOk(args) && Out(fmt, p, args).Some?
    modifies b, b.str
    ensures b.Valid() && p < next <= |fmt| && ArgsOk(left) && Out(fmt, next, left).Some?
    ensures b.all + Out(fmt, next, left).value == old(b.all) + Out(fmt, p, args).value
    decreases Level(fmt), 2
  {
    hide Out, Scan, Converted;
    OutStarts(fmt, p, args);
    var q, f;
    q, f, left := ReadFlags(fmt, p + 1, args);
    ScanEnds(fmt, p + 1, NO_FLAGS, args);
    OutEscape(fmt, p, args, q, f, left);
    var ch := CharAt(fmt, q);
    if ch == '%' {
      b.Put(ch);
      next := q + 1;
    } else if ch != NUL && IsConversion(ch) {
      if ch == 'e' { NestedHasNoError(fmt, p, args, q, f, left); }
      PutConversion(b, ch, f, left[0]);
      left, next := left[1..], q + 1;
    } else {
      b.Put('%');
      next := q;
      while fmt[next - 1] != '%'
        invariant p + 1 <= next <= q
        decreases next
      {
        next := next - 1;
      }
    }
  }

  lemma ScanEnds(fmt: string, p: nat, f: Flags, args: seq<Arg>)
    requires p <= |fmt| && Scan(fmt, p, f, args).Some?
    ensures var q := Scan(fmt, p, f, args).value.0; p <= q <= |fmt| && forall k: nat | p <= k < q :: fmt[k] != '%'
  {
  }

  /** vprintfmt. */
  method Vprintfmt(b: SprintBuf, fmt: string, args: seq<Arg>)
    requires b.Valid() && IsCString(fmt) && ArgsOk(args) && Out(fmt, 0, args).Some?
    modifies b, b.str
    ensures b.Valid() && b.all == old(b.all) + Out(fmt, 0, args).value
    decreases Level(fmt), 3
  {
    hide Out;
    var p, left := 0, args;
    while true
      invariant b.Valid() && p <= |fmt| && ArgsOk(left) && Out(fmt, p, left).Some?
      invariant b.all + Out(fmt, p, left).value == old(b.all) + Out(fmt, 0, args).value
      decreases |fmt| - p
    {
      while CharAt(fmt, p) != '%'
        invariant b.Valid() && p <= |fmt| && Out(fmt, p, left).Some?
        invariant b.all + Out(fmt, p, left).value == old(b.all) + Out(fmt, 0, args).value
        decreases |fmt| - p
      {
        OutStarts(fmt, p, left);
        if CharAt(fmt, p) == NUL {
          return;
        }
        b.Put(fmt[p]);
        p := p + 1;
      }
      p, left := PutEscape(b, fmt, p, left);
    }
  }

  // ----- printing into a string -----

  const E_INVAL: int := 3

  /** vsnprintf: the length of the whole text, of which as much as fits is stored, with a terminator behind it. */
  method Vsnprintf(str: array?<char>, size: nat, fmt: string, args: seq<Arg>) returns (r: int)
    requires IsCString(fmt) && ArgsOk(args) && Out(fmt, 0, args).Some? && (str != null ==> size <= str.Length)
    modifies if str == null then {} else {str}
    ensures str == null || size == 0 ==> r == -3 && (str != null ==> str[..] == old(str[..]))
    ensures str != null && size > 0 ==>
              var t := Out(fmt, 0, args).value;
              var m := if |t| < size then |t| else size - 1;
              r == |t| && str[..m] == t[..m] && str[m] == NUL && str[m + 1..] == old(str[m + 1..])
  {
    hide Out;
    if str == null || size == 0 {
      return -E_INVAL;
    }
    var b := new SprintBuf(str, size - 1);
    Vprintfmt(b, fmt, args);
    assert "" + Out(fmt, 0, args).value == Out(fmt, 0, args).value;
    assert str[b.buf..] == b.before[b.buf..];
    label printed:
    str[b.buf] := NUL;
    assert str[..b.buf] == old@printed(str[..b.buf]);
    assert str[b.buf + 1..] == old@printed(str[b.buf..])[1..];
    r := b.cnt;
  }

  /** What %ld prints, strtol reads: the number as a long, to the end of the text. */
  lemma LongRoundTrip(w: nat)
    requires w < 0x1_0000_0000_0000_0000
    ensures var t := Out("%ld", 0, [Word(w)]); t.Some? && Parse(t.value, 10) == Parsed(Int64(w), |t.value|)
  {
    hide Digits, Parse, Scan;
    var fmt, a, f := "%ld", [Word(w)], NO_FLAGS.(lflag := 1);
    ScanStarts(fmt, 1, NO_FLAGS, a);
    ScanStarts(fmt, 2, f, a);
    OutEscape(fmt, 0, a, 2, f, a);
    OutStarts(fmt, 3, []);
    var v := Int64(w);
    var t := (if v < 0 then "-" else "") + NumText(Abs(v), 10, -1, ' ');
    assert a[1..] == [] && t + "" == t;
    if v < 0 {
      NegativeRoundTrip(Abs(v), -1, ' ');
    } else {
      RoundTrip(v, 10, -1, ' ');
      assert "" + NumText(v, 10, -1, ' ') == NumText(v, 10, -1, ' ');
    }
  }

  /** What %p prints, strtol in base 0 reads: the pointer, as a long. */
  lemma PointerRoundTrip(w: nat)
    requires w < 0x1_0000_0000_0000_0000
    ensures var t := Out("%p", 0, [Word(w)]); t.Some? && Parse(t.value, 0) == Parsed(Int64(w), |t.value|)
  {
    hide Digits, Parse, Scan, Row, Value;
    var fmt, a := "%p", [Word(w)];
    ScanStarts(fmt, 1, NO_FLAGS, a);
    OutEscape(fmt, 0, a, 1, NO_FLAGS, a);
    OutStarts(fmt, 2, []);
    var t := NumText(w, 16, -1, ' ');
    assert a[1..] == [] && ("0x" + t) + "" == "0x" + t;
    NoRepeat(' ', -1 - |Digits(w, 16)|);
    TextRow(w, 16, -1, ' ');
    assert t[0..] == t;
    PrefixedReads(t, 0);
  }
}
