/** strtol and strnlen of string.c on C strings. A string is given without its terminator: reading at its
    length reads the terminator, and nothing is read beyond. */
module Strtol {

  const NUL: char := '\0'

  function CharAt(s: string, p: nat): char
    requires p <= |s|
  {
    if p < |s| then s[p] else NUL
  }

  predicate IsCString(s: string) {
    NUL !in s
  }

  // ----- strnlen -----

  /** strnlen; limit is a size_t. */
  method StrnLen(s: string, limit: nat) returns (cnt: nat)
    requires IsCString(s)
    ensures cnt == if |s| < limit then |s| else limit
  {
    cnt := 0;
    while cnt < limit && CharAt(s, cnt) != NUL
      invariant cnt <= limit && cnt <= |s|
    {
      cnt := cnt + 1;
    }
  }

  // ----- strtol -----

  /** A 64-bit long: two's complement, wrapping around. */
  function Wrap64(v: int): (r: int)
    ensures -0x8000_0000_0000_0000 <= r < 0x8000_0000_0000_0000
    ensures -0x8000_0000_0000_0000 <= v < 0x8000_0000_0000_0000 ==> r == v
  {
    var u := v % 0x1_0000_0000_0000_0000;
    if u >= 0x8000_0000_0000_0000 then u - 0x1_0000_0000_0000_0000 else u
  }

  /** Wrapping takes away a multiple of 2^64. */
  lemma WrapIs(v: int) returns (k: int)
    ensures Wrap64(v) == v + k * 0x1_0000_0000_0000_0000
  {
    var q := v / 0x1_0000_0000_0000_0000;
    k := if Wrap64(v) < 0 then -q - 1 else if v % 0x1_0000_0000_0000_0000 == Wrap64(v) then -q else -q - 1;
  }

  lemma WrapShift(v: int, k: int)
    ensures Wrap64(v + k * 0x1_0000_0000_0000_0000) == Wrap64(v)
  {
  }

  /** Wrapping at every step is wrapping at the end. */
  lemma WrapStep(v: int, base: int, d: int)
    ensures Wrap64(Wrap64(v) * base + d) == Wrap64(v * base + d)
  {
    hide Wrap64;
    var k := WrapIs(v);
    assert Wrap64(v) * base + d == v * base + d + (k * base) * 0x1_0000_0000_0000_0000 by {
      assert (v + k * 0x1_0000_0000_0000_0000) * base == v * base + (k * base) * 0x1_0000_0000_0000_0000;
    }
    WrapShift(v * base + d, k * base);
  }

  lemma WrapNegated(v: int)
    ensures Wrap64(-Wrap64(v)) == Wrap64(-v)
  {
    hide Wrap64;
    WrapStep(v, -1, 0);
  }

  /** Numbers of 64 bits that wrap to the same long are the same. */
  lemma WrapInjective(a: nat, b: nat)
    requires a < 0x1_0000_0000_0000_0000 && b < 0x1_0000_0000_0000_0000 && Wrap64(a) == Wrap64(b)
    ensures a == b
  {
  }

  /** The value of a digit, or 36 for any other character. */
  function Dig(c: char): (d: nat)
    ensures d <= 36
  {
    if '0' <= c <= '9' then c as nat - '0' as nat
    else if 'a' <= c <= 'z' then c as nat - 'a' as nat + 10
    else if 'A' <= c <= 'Z' then c as nat - 'A' as nat + 10
    else 36
  }

  lemma DigOfNul()
    ensures Dig(NUL) == 36
  {
  }

  predicate Blank(c: char) {
    c == ' ' || c == '\t'
  }

  /** The value of a row of digits. */
  function Value(t: string, base: nat): nat {
    if t == [] then 0 else Value(t[..|t| - 1], base) * base + Dig(t[|t| - 1])
  }

  lemma ValueAppend(t: string, c: char, base: nat)
    ensures Value(t + [c], base) == Value(t, base) * base + Dig(c) && Value([], base) == 0 && [] + [c] == [c]
  {
    assert (t + [c])[..|t|] == t;
  }

  predicate AllDigits(t: string, base: nat) {
    forall c | c in t :: Dig(c) < base
  }

  /** The number read, and where reading ended. */
  datatype Parsed = Parsed(val: int, end: nat)

  function BlankEnd(s: string, p: nat): (e: nat)
    requires p <= |s|
    ensures p <= e <= |s| && !Blank(CharAt(s, e)) && forall k: nat | p <= k < e :: Blank(s[k])
    decreases |s| - p
  {
    if p < |s| && Blank(s[p]) then BlankEnd(s, p + 1) else p
  }

  function DigitEnd(s: string, p: nat, base: nat): (e: nat)
    requires p <= |s| && base <= 36
    ensures p <= e <= |s| && Dig(CharAt(s, e)) >= base && AllDigits(s[p..e], base)
    decreases |s| - p
  {
    if p < |s| && Dig(s[p]) < base then DigitEnd(s, p + 1, base) else p
  }

  /** Where the digits start after a prefix at p, and in which base they are. */
  function Prefix(s: string, p: nat, base: nat): (r: (nat, nat))
    requires p <= |s| && base <= 36
    ensures p <= r.0 <= |s| && r.1 <= 36
  {
    if (base == 0 || base == 16) && CharAt(s, p) == '0' && CharAt(s, p + 1) == 'x' then (p + 2, 16)
    else if base == 0 && CharAt(s, p) == '0' then (p + 1, 8)
    else if base == 0 then (p, 10)
    else (p, base)
  }

  function Parse(s: string, base: nat): Parsed
    requires base <= 36
  {
    var p := BlankEnd(s, 0);
    var q := if CharAt(s, p) == '+' || CharAt(s, p) == '-' then p + 1 else p;
    var (r, b) := Prefix(s, q, base);
    var e := DigitEnd(s, r, b);
    Parsed(Wrap64(Signed(CharAt(s, p) == '-', Value(s[r..e], b))), e)
  }

  function Signed(neg: bool, v: int): int {
    if neg then -v else v
  }

  /** The loop over the digits: val is a long, and overflow is not detected. */
  method ReadDigits(s: string, start: nat, base: nat) returns (val: int, p: nat)
    requires IsCString(s) && base <= 36 && start <= |s|
    ensures p == DigitEnd(s, start, base) && val == Wrap64(Value(s[start..p], base))
  {
    hide Dig, AllDigits, Value, Wrap64;
    assert Dig(NUL) == 36 by { DigOfNul(); }
    ValueAppend([], NUL, base);
    assert s[start..start] == [];
    p, val := start, 0;
    while Dig(CharAt(s, p)) < base
      invariant start <= p <= |s| && DigitEnd(s, p, base) == DigitEnd(s, start, base)
      invariant val == Wrap64(Value(s[start..p], base))
      decreases |s| - p
    {
      assert s[start..p + 1] == s[start..p] + [s[p]];
      ValueAppend(s[start..p], s[p], base);
      WrapStep(Value(s[start..p], base), base, Dig(s[p]));
      val, p := Wrap64(val * base + Dig(s[p])), p + 1;
    }
  }

  /** The loop over the blanks in front. */
  method SkipBlanks(s: string) returns (p: nat)
    ensures p == BlankEnd(s, 0)
  {
    p := 0;
    while Blank(CharAt(s, p))
      invariant p <= |s| && BlankEnd(s, p) == BlankEnd(s, 0)
      decreases |s| - p
    {
      p := p + 1;
    }
  }

  method StrToL(s: string, base: nat) returns (val: int, end: nat)
    requires IsCString(s) && base <= 36
    ensures Parsed(val, end) == Parse(s, base)
  {
    hide Dig, AllDigits, Value, BlankEnd, DigitEnd, Wrap64;
    var p := SkipBlanks(s);
    var neg := false;
    if CharAt(s, p) == '+' {
      p := p + 1;
    } else if CharAt(s, p) == '-' {
      p, neg := p + 1, true;
    }
    var b := base;
    if (base == 0 || base == 16) && CharAt(s, p) == '0' && CharAt(s, p + 1) == 'x' {
      p, b := p + 2, 16;
    } else if base == 0 && CharAt(s, p) == '0' {
      p, b := p + 1, 8;
    } else if base == 0 {
      b := 10;
    }
    val, end := ReadDigits(s, p, b);
    if neg {
      WrapNegated(Value(s[p..end], b));
      val := Wrap64(-val);
    }
  }

  // ----- reading known text -----

  /** A row of digits after p, followed by no digit, is read to its end. */
  lemma {:induction false} DigitsRead(s: string, p: nat, e: nat, base: nat)
    requires p <= e <= |s| && base <= 36 && AllDigits(s[p..e], base) && Dig(CharAt(s, e)) >= base
    ensures DigitEnd(s, p, base) == e
    decreases e - p
  {
    if p < e {
      assert s[p..e][0] == s[p] && s[p + 1..e] == s[p..e][1..];
      DigitsRead(s, p + 1, e, base);
    }
  }

  lemma {:induction false} BlanksRead(s: string, p: nat, e: nat)
    requires p <= e <= |s| && (forall k: nat | p <= k < e :: Blank(s[k])) && !Blank(CharAt(s, e))
    ensures BlankEnd(s, p) == e
    decreases e - p
  {
    if p < e { BlanksRead(s, p + 1, e); }
  }

  /** Zeros in front change nothing. */
  lemma {:induction false} ZerosLead(zeros: string, t: string, base: nat)
    requires forall k: nat | k < |zeros| :: zeros[k] == '0'
    ensures Value(zeros + t, base) == Value(t, base)
    decreases |zeros| + |t|
  {
    var u := zeros + t;
    if t != [] {
      assert u[..|u| - 1] == zeros + t[..|t| - 1];
      ZerosLead(zeros, t[..|t| - 1], base);
    } else if zeros != [] {
      var n := |zeros| - 1;
      assert u == zeros && zeros[..n] + [] == zeros[..n] && zeros[n] == '0';
      ZerosLead(zeros[..n], [], base);
    }
  }

  // ----- letters, signs and blanks -----

  const DIGITS: string := "0123456789ABCDEFGHIJKLMNOPQRSTUVWXYZ"

  lemma DigitIs(d: nat)
    requires d < 36
    ensures |DIGITS| == 36 && Dig(DIGITS[d]) == d && DIGITS[d] !in {' ', '\t', '+', '-', 'x', NUL}
  {
  }

  /** A number written with these digits, most significant first. */
  function Written(num: nat, base: nat): (t: string)
    requires 2 <= base <= 36
    ensures t != []
  {
    if num < base then [DIGITS[num]]
    else
      QuotientBack(num, base);
      Written(num / base, base) + [DIGITS[num % base]]
  }

  lemma {:induction false} WrittenReads(num: nat, base: nat)
    requires 2 <= base <= 36
    ensures Value(Written(num, base), base) == num && AllDigits(Written(num, base), base)
    ensures forall c | c in Written(num, base) :: c !in {' ', '\t', '+', '-', 'x', NUL}
    decreases num
  {
    hide Dig, Value;
    if num < base {
      DigitIs(num);
      ValueAppend([], DIGITS[num], base);
    } else {
      var q, r := num / base, num % base;
      QuotientBack(num, base);
      DigitIs(r);
      WrittenReads(q, base);
      ValueAppend(Written(q, base), DIGITS[r], base);
    }
  }

  lemma QuotientBack(num: nat, base: nat)
    requires base >= 2
    ensures num / base * base + num % base == num && (num > 0 ==> num / base < num) && num % base < base
  {
  }

  /** What ends a number in this base: the end of the text, a digit too large, or what is neither letter nor digit. */
  predicate Stops(tail: string, base: nat) {
    tail == [] || (exists d: nat :: base <= d < 36 && tail[0] == DIGITS[d])
    || !('0' <= tail[0] <= '9' || 'a' <= tail[0] <= 'z' || 'A' <= tail[0] <= 'Z')
  }

  lemma StopsReading(tail: string, base: nat)
    requires Stops(tail, base) && 2 <= base <= 36
    ensures Dig(CharAt(tail, 0)) >= base && CharAt(tail, 0) != 'x'
  {
    if tail != [] && ('0' <= tail[0] <= '9' || 'a' <= tail[0] <= 'z' || 'A' <= tail[0] <= 'Z') {
      var d: nat :| base <= d < 36 && tail[0] == DIGITS[d];
      DigitIs(d);
    }
  }

  /** Blanks, a sign, a number in any base from 2 to 36 in capital letters, and something that ends it: strtol reads
      the number, as a 64-bit long, and stops behind it. */
  lemma ReadsWritten(blanks: string, sign: string, num: nat, tail: string, base: nat)
    requires 2 <= base <= 36 && sign in {"", "+", "-"} && (forall c | c in blanks :: c == ' ' || c == '\t')
    requires Stops(tail, base)
    ensures var t := Written(num, base);
            Parse(blanks + sign + t + tail, base)
            == Parsed(Wrap64(if sign == "-" then -(num as int) else num), |blanks| + |sign| + |t|)
  {
    hide Dig, Value, Written, Stops, AllDigits, Wrap64, Parse, DigitEnd, BlankEnd;
    var t := Written(num, base);
    var s := blanks + sign + t + tail;
    var p, q := |blanks|, |blanks| + |sign|;
    var e := q + |t|;
    WrittenReads(num, base);
    StopsReading(tail, base);
    Pieces(blanks, sign, t, tail);
    assert t[0] in t && (|t| > 1 ==> t[1] in t);
    BlanksRead(s, 0, p);
    DigitsRead(s, q, e, base);
    ParseFrom(s, p, q, base);
  }

  /** What is read behind the blanks, where the sign is one or there is none, and no prefix follows. */
  lemma ParseFrom(s: string, p: nat, q: nat, base: nat)
    requires p <= q <= |s| && 2 <= base <= 36 && BlankEnd(s, 0) == p
    requires q == if CharAt(s, p) == '+' || CharAt(s, p) == '-' then p + 1 else p
    requires q < |s| ==> CharAt(s, q + 1) != 'x'
    ensures var e := DigitEnd(s, q, base);
            Parse(s, base) == Parsed(Wrap64(Signed(CharAt(s, p) == '-', Value(s[q..e], base))), e)
  {
    hide Dig, Value, AllDigits, Wrap64, BlankEnd, DigitEnd;
  }

  lemma Pieces(blanks: string, sign: string, t: string, tail: string)
    requires t != [] && |sign| <= 1
    ensures var s, p, q := blanks + sign + t + tail, |blanks|, |blanks| + |sign|;
            && (forall k: nat | k < p :: s[k] == blanks[k] && blanks[k] in blanks)
            && CharAt(s, p) == (if sign == "" then t[0] else sign[0]) && CharAt(s, q) == t[0]
            && CharAt(s, q + 1) == (if |t| > 1 then t[1] else CharAt(tail, 0))
            && s[q..q + |t|] == t && CharAt(s, q + |t|) == CharAt(tail, 0)
  {
  }

  /** A text that starts with none of these is read as 0, and nothing of it is used. */
  lemma NothingRead(s: string, base: nat)
    requires base <= 36 && s != [] && s[0] !in {' ', '\t', '+', '-'}
    requires !('0' <= s[0] <= '9' || 'a' <= s[0] <= 'z' || 'A' <= s[0] <= 'Z')
    ensures Parse(s, base) == Parsed(0, 0)
  {
    assert BlankEnd(s, 0) == 0 && DigitEnd(s, 0, base) == 0 && DigitEnd(s, 0, 10) == 0 && s[0..0] == [];
  }

  /** The small letter for a capital one; in base 0 and 16 an X may be part of a prefix, and is left as it is. */
  function Small(c: char, base: nat): char {
    if 'A' <= c <= 'Z' && !(c == 'X' && base in {0, 16}) then (c as nat - 'A' as nat + 'a' as nat) as char else c
  }

  /** Capital and small letters are read alike. */
  lemma CaseIgnored(s: string, t: string, base: nat)
    requires base <= 36 && |t| == |s| && forall k: nat | k < |s| :: t[k] == Small(s[k], base)
    ensures Parse(t, base) == Parse(s, base)
  {
    hide Dig, Value, AllDigits, Small, Wrap64;
    forall k: nat | k < |s| ensures SameReading(s[k], t[k], base) { SmallReads(s[k], base); }
    SameReadingEnds(base);
    forall k: nat | k <= |s| ensures SameReading(CharAt(s, k), CharAt(t, k), base) { }
    BlankEndSame(s, t, 0, base);
    var p := BlankEnd(s, 0);
    var q := if CharAt(s, p) == '+' || CharAt(s, p) == '-' then p + 1 else p;
    assert CharAt(s, q) == '0' <==> CharAt(t, q) == '0';
    assert base in {0, 16} && CharAt(s, q) == '0' ==> (CharAt(s, q + 1) == 'x' <==> CharAt(t, q + 1) == 'x');
    var (r, b) := Prefix(s, q, base);
    assert Prefix(t, q, base) == (r, b);
    DigitEndSame(s, t, r, b, base);
    ValueSame(s, t, r, DigitEnd(s, r, b), b, base);
  }

  /** The two characters count the same wherever strtol looks at them. */
  ghost predicate SameReading(c: char, d: char, base: nat) {
    && Dig(c) == Dig(d) && (Blank(c) <==> Blank(d))
    && (c == '+' <==> d == '+') && (c == '-' <==> d == '-') && (c == '0' <==> d == '0')
    && (base in {0, 16} ==> (c == 'x' <==> d == 'x'))
  }

  lemma SmallReads(c: char, base: nat)
    ensures SameReading(c, Small(c, base), base)
  {
  }

  lemma SameReadingEnds(base: nat)
    ensures SameReading(NUL, NUL, base)
  {
  }

  lemma {:induction false} BlankEndSame(s: string, t: string, p: nat, base: nat)
    requires |t| == |s| && p <= |s| && forall k: nat | k < |s| :: SameReading(s[k], t[k], base)
    ensures BlankEnd(t, p) == BlankEnd(s, p)
    decreases |s| - p
  {
    hide Dig, Blank;
    if p < |s| && Blank(s[p]) { BlankEndSame(s, t, p + 1, base); }
  }

  lemma {:induction false} DigitEndSame(s: string, t: string, p: nat, b: nat, base: nat)
    requires |t| == |s| && p <= |s| && b <= 36 && forall k: nat | k < |s| :: SameReading(s[k], t[k], base)
    ensures DigitEnd(t, p, b) == DigitEnd(s, p, b)
    decreases |s| - p
  {
    hide Dig, AllDigits;
    if p < |s| && Dig(s[p]) < b { DigitEndSame(s, t, p + 1, b, base); }
  }

  lemma {:induction false} ValueSame(s: string, t: string, r: nat, e: nat, b: nat, base: nat)
    requires |t| == |s| && r <= e <= |s| && forall k: nat | k < |s| :: SameReading(s[k], t[k], base)
    ensures Value(t[r..e], b) == Value(s[r..e], b)
    decreases e
  {
    hide Dig, Value;
    if r < e {
      ValueSame(s, t, r, e - 1, b, base);
      assert s[r..e] == s[r..e - 1] + [s[e - 1]] && t[r..e] == t[r..e - 1] + [t[e - 1]];
      ValueAppend(s[r..e - 1], s[e - 1], b);
      ValueAppend(t[r..e - 1], t[e - 1], b);
    } else {
      assert s[r..e] == t[r..e];
    }
  }

  /** The prefix 0X, which the comment on strtol allows, is not read: only its zero is. */
  lemma CapitalPrefix(t: string, base: nat)
    requires base in {0, 16}
    ensures Parse("0X" + t, base) == Parsed(0, 1)
  {
    hide Value;
    var s := "0X" + t;
    assert s[0] == '0' && s[1] == 'X' && BlankEnd(s, 0) == 0;
    if base == 16 {
      assert s[0..1] == [] + ['0'];
      DigitsRead(s, 0, 1, 16);
      ValueAppend([], '0', 16);
    } else {
      DigitsRead(s, 1, 1, 8);
      assert s[1..1] == [];
      ValueAppend([], '0', 8);
    }
  }
}
