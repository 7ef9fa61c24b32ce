/** What vprintfmt prints: the text of a format and its arguments. A format is given without its terminator. */
module PrintFormat {
  import opened Wrappers
  import opened Strtol
  import opened PrintNum

  /** A variadic argument: a 64-bit word, or a pointer to a C string that may be null. */
  datatype Arg = Word(w: nat) | Str(s: Option<string>)

  predicate ArgOk(a: Arg) {
    if a.Word? then a.w < 0x1_0000_0000_0000_0000
    else a.s.Some? ==> IsCString(a.s.value) && |a.s.value| < 0x8000_0000_0000_0000
  }

  function Int32(w: nat): int {
    var low := w % 0x1_0000_0000;
    if low >= 0x8000_0000 then low - 0x1_0000_0000 else low
  }

  function Int64(w: nat): int {
    if w >= 0x8000_0000_0000_0000 then w - 0x1_0000_0000_0000_0000 else w
  }

  /** getint and getuint. */
  function GetInt(w: nat, lflag: nat): int { if lflag == 0 then Int32(w) else Int64(w) }
  function GetUint(w: nat, lflag: nat): nat { if lflag == 0 then w % 0x1_0000_0000 else w }

  function Abs(v: int): nat { if v < 0 then -v else v }

  // ----- flags -----

  datatype Flags = Flags(padc: char, width: int, precision: int, lflag: nat, alt: bool)

  const NO_FLAGS := Flags(' ', -1, -1, 0, false)

  predicate IsNonzero(c: char) { '1' <= c <= '9' }

  predicate IsFlag(c: char) {
    c in {'-', '0', '.', '#', 'l', '*'} || IsNonzero(c)
  }

  /** Numbers from arguments are 32 bits wide. */
  predicate FlagsOk(f: Flags) { f.precision >= -0x8000_0000 }

  /** process_precision: the first number is the width. */
  function WithNumber(f: Flags, n: int): Flags {
    if f.width < 0 then f.(width := n, precision := -1) else f.(precision := n)
  }

  function Flagged(f: Flags, c: char): Flags {
    if c == '-' || c == '0' then f.(padc := c)
    else if c == '.' then (if f.width < 0 then f.(width := 0) else f)
    else if c == '#' then f.(alt := true)
    else f.(lflag := f.lflag + 1)
  }

  predicate IsDecimal(c: char) { '0' <= c <= '9' }

  /** The end of a number of decimal digits. */
  function NumberEnd(fmt: string, p: nat): (e: nat)
    requires p <= |fmt|
    ensures p <= e <= |fmt| && forall k: nat | p <= k < e :: IsDecimal(fmt[k])
    decreases |fmt| - p
  {
    if p < |fmt| && IsDecimal(fmt[p]) then NumberEnd(fmt, p + 1) else p
  }

  /** The flags from p on: where they end, what they say, and the arguments left. None when an argument is
      missing or is no number. */
  function Scan(fmt: string, p: nat, f: Flags, args: seq<Arg>): (r: Option<(nat, Flags, seq<Arg>)>)
    requires p <= |fmt|
    ensures r.Some? ==> p <= r.value.0 <= |fmt| && !IsFlag(CharAt(fmt, r.value.0)) && |r.value.2| <= |args|
    ensures r.Some? ==> forall k: nat | p <= k < r.value.0 :: fmt[k] != '%'
    decreases |fmt| - p
  {
    if !IsFlag(CharAt(fmt, p)) then Some((p, f, args))
    else if fmt[p] == '*' then
      if args == [] || !args[0].Word? then None
      else Scan(fmt, p + 1, WithNumber(f, Int32(args[0].w)), args[1..])
    else if IsNonzero(fmt[p]) then
      var e := NumberEnd(fmt, p + 1);
      Scan(fmt, e, WithNumber(f, Value(fmt[p..e], 10)), args)
    else Scan(fmt, p + 1, Flagged(f, fmt[p]), args)
  }

  // ----- conversions -----

  const ERRORS: seq<string> :=
    ["", "unspecified error", "bad process", "invalid parameter", "out of memory", "out of processes",
        "segmentation fault"]

  function ErrorText(err: nat): string {
    if err == 0 || err > 6 then "error " + Digits(err, 10) else ERRORS[err]
  }

  predicate Printable(c: char) { ' ' <= c <= '~' }

  /** The characters of a string, as %#s shows them. */
  function Shown(s: string, alt: bool): (t: string)
    ensures |t| == |s|
  {
    if s == [] then [] else [if alt && !Printable(s[0]) then '?' else s[0]] + Shown(s[1..], alt)
  }

  function Cut(s: string, precision: int): (t: string)
    ensures |t| <= |s|
  {
    if precision < 0 || |s| <= precision then s else s[..precision]
  }

  /** %s: at most precision characters, in a field of the width. */
  function StrText(s: string, f: Flags): string {
    var t := Shown(Cut(s, f.precision), f.alt);
    if f.padc == '-' then t + Repeat(' ', f.width - |t|) else Repeat(f.padc, f.width - |t|) + t
  }

  predicate IsConversion(c: char) {
    c in {'c', 'e', 's', 'd', 'u', 'o', 'p', 'x', '%'}
  }

  /** The text of one conversion of the first argument; None when there is none of the right kind. */
  function Converted(c: char, f: Flags, a: Arg): Option<string>
    requires IsConversion(c) && c != '%'
  {
    if c == 's' then (if a.Str? then Some(StrText(if a.s.Some? then a.s.value else "(null)", f)) else None)
    else if a.Str? then None
    else if c == 'c' then Some([(a.w % 256) as char])
    else if c == 'e' then (if Int32(a.w) == -0x8000_0000 then None else Some(ErrorText(Abs(Int32(a.w)))))
    else if c == 'd' then
      var v := GetInt(a.w, f.lflag);
      Some((if v < 0 then "-" else "") + NumText(Abs(v), 10, f.width, f.padc))
    else if c == 'u' then Some(NumText(GetUint(a.w, f.lflag), 10, f.width, f.padc))
    else if c == 'o' then Some(NumText(GetUint(a.w, f.lflag), 8, f.width, f.padc))
    else if c == 'p' then Some("0x" + NumText(a.w, 16, f.width, f.padc))
    else Some(NumText(GetUint(a.w, f.lflag), 16, f.width, f.padc))
  }

  function Before(t: string, rest: Option<string>): Option<string> {
    if rest.Some? then Some(t + rest.value) else None
  }

  /** The text from position p on; None when the arguments do not fit the format. An escape that is not
      recognised is printed as it stands, but a number it took from the arguments is gone. */
  function Out(fmt: string, p: nat, args: seq<Arg>): Option<string>
    requires p <= |fmt|
    decreases |fmt| - p
  {
    if p == |fmt| then Some("")
    else if fmt[p] != '%' then Before([fmt[p]], Out(fmt, p + 1, args))
    else
      var r := Scan(fmt, p + 1, NO_FLAGS, args);
      if r.None? then None
      else
        var (q, f, left) := r.value;
        if q == |fmt| || !IsConversion(fmt[q]) then Before("%", Out(fmt, p + 1, left))
        else if fmt[q] == '%' then Before("%", Out(fmt, q + 1, left))
        else if left == [] || Converted(fmt[q], f, left[0]).None? then None
        else Before(Converted(fmt[q], f, left[0]).value, Out(fmt, q + 1, left[1..]))
  }

  /** Characters before the next escape are printed as they stand. */
  lemma {:induction false} Literal(fmt: string, p: nat, q: nat, args: seq<Arg>)
    requires p <= q <= |fmt| && forall k: nat | p <= k < q :: fmt[k] != '%'
    ensures Out(fmt, p, args) == Before(fmt[p..q], Out(fmt, q, args))
    decreases q - p
  {
    if p == q {
      if Out(fmt, q, args).Some? { assert fmt[p..q] + Out(fmt, q, args).value == Out(fmt, q, args).value; }
    } else {
      Literal(fmt, p + 1, q, args);
      if Out(fmt, q, args).Some? {
        assert fmt[p..q] + Out(fmt, q, args).value == [fmt[p]] + (fmt[p + 1..q] + Out(fmt, q, args).value);
      }
    }
  }
}
