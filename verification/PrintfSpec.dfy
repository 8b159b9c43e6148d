/** What the formatter writes if there is no limit: the text of a format with its arguments. Floating
    point conversions are a parameter. */
module PrintfSpec {
  import opened PrintfDigits

  datatype Flags = Flags(zeropad: bool, left: bool, plus: bool, space: bool, hash: bool, upper: bool,
    charSize: bool, shortSize: bool, longSize: bool, longLong: bool, precision: bool)

  const NO_FLAGS := Flags(false, false, false, false, false, false, false, false, false, false, false)

  datatype Arg = Int(n: int) | Str(s: string) | Real(r: real)

  type RealText = (char, Flags, nat, nat, Arg) -> string

  function Repeat(c: char, n: int): (s: string)
    ensures |s| == (if n < 0 then 0 else n) && forall i :: 0 <= i < |s| ==> s[i] == c
  {
    seq(if n < 0 then 0 else n, _ => c)
  }

  function Min(a: int, b: int): int { if a < b then a else b }

  // ----- integers

  /** _out_rev. */
  function RevText(buf: string, width: nat, fl: Flags): string
  {
    (if !fl.left && !fl.zeropad then Repeat(' ', width - |buf|) else "")
    + Reverse(buf)
    + (if fl.left then Repeat(' ', width - |buf|) else "")
  }

  /** Zeros up to n digits, as far as the buffer goes. */
  function ZeroPad(buf: string, n: nat): string { buf + Repeat('0', Min(n, ROOM) - |buf|) }

  /** The prefix for '#': it may take the place of the highest digits. */
  function Kept(buf: string, base: nat, prec: nat, width: nat, fl: Flags): (n: nat)
    ensures n <= |buf|
  {
    if !fl.precision && buf != [] && (|buf| == prec || |buf| == width) then
      if |buf| > 1 && base == 16 then |buf| - 2 else |buf| - 1
    else |buf|
  }

  function Append(buf: string, c: char): string { if |buf| < ROOM then buf + [c] else buf }

  function Prefixed(buf: string, base: nat, prec: nat, width: nat, fl: Flags): string
  {
    var b := buf[..Kept(buf, base, prec, width, fl)];
    var x := if base == 16 then Append(b, if fl.upper then 'X' else 'x') else if base == 2 then Append(b, 'b') else b;
    Append(x, '0')
  }

  function Signed(buf: string, negative: bool, fl: Flags): string
  {
    if negative then Append(buf, '-')
    else if fl.plus then Append(buf, '+')
    else if fl.space then Append(buf, ' ')
    else buf
  }

  function WidthLeft(negative: bool, width: nat, fl: Flags): nat
  {
    if !fl.left && width > 0 && fl.zeropad && (negative || fl.plus || fl.space) then width - 1 else width
  }

  function Padded(buf: string, prec: nat, width: nat, fl: Flags): string
  {
    if fl.left then buf else if fl.zeropad then ZeroPad(ZeroPad(buf, prec), width) else ZeroPad(buf, prec)
  }

  /** _ntoa_format. */
  function FormatText(buf: string, negative: bool, base: nat, prec: nat, width: nat, fl: Flags): string
  {
    var w := WidthLeft(negative, width, fl);
    var b := Padded(buf, prec, w, fl);
    var h := if fl.hash then Prefixed(b, base, prec, w, fl) else b;
    RevText(Signed(h, negative, fl), w, fl)
  }

  /** _ntoa_long and _ntoa_long_long. */
  function IntText(value: nat, negative: bool, base: nat, prec: nat, width: nat, fl: Flags): string
    requires 2 <= base <= 16
  {
    var digits := if !fl.precision || value != 0 then Digits(value, base, fl.upper, ROOM) else "";
    FormatText(digits, negative, base, prec, width, fl.(hash := fl.hash && value != 0))
  }

  // ----- arguments, in the widths of the source's types

  function Wrap(v: int, size: nat): (u: nat)
    requires size > 0
    ensures u < size
  {
    v % size
  }

  function WrapSigned(v: int, size: nat): int
    requires size > 0
  {
    var u := Wrap(v, size);
    if u >= size / 2 then u - size else u
  }

  /** The number of values of the type that the length modifiers ask for. */
  function SizeOf(fl: Flags): (n: nat)
    ensures 0 < n <= ULONG
  {
    if fl.longLong || fl.longSize then ULONG
    else if fl.charSize then 0x100
    else if fl.shortSize then 0x1_0000
    else UINT
  }

  function IntArg(args: seq<Arg>, j: nat): int { if j < |args| && args[j].Int? then args[j].n else 0 }

  /** A C string argument, which ends before its first NUL. */
  function CString(s: string): string
    decreases |s|
  {
    if s == [] || s[0] == '\0' then [] else [s[0]] + CString(s[1..])
  }

  function StrArg(args: seq<Arg>, j: nat): string { if j < |args| && args[j].Str? then CString(args[j].s) else "" }

  function AnyArg(args: seq<Arg>, j: nat): Arg { if j < |args| then args[j] else Int(0) }

  // ----- parsing a directive

  /** Reading the format; it ends with NUL. */
  function At(f: string, i: nat): char { if i < |f| then f[i] else '\0' }

  function SetFlag(c: char, fl: Flags): Flags
  {
    match c
    case '0' => fl.(zeropad := true)
    case '-' => fl.(left := true)
    case '+' => fl.(plus := true)
    case ' ' => fl.(space := true)
    case '#' => fl.(hash := true)
    case _ => fl
  }

  predicate IsFlag(c: char) { c == '0' || c == '-' || c == '+' || c == ' ' || c == '#' }

  function FlagsEnd(f: string, i: nat): (e: nat)
    ensures e >= i
    decreases |f| - i
  {
    if IsFlag(At(f, i)) then FlagsEnd(f, i + 1) else i
  }

  function FlagsAt(f: string, i: nat, fl: Flags): Flags
    decreases |f| - i
  {
    if IsFlag(At(f, i)) then FlagsAt(f, i + 1, SetFlag(At(f, i), fl)) else fl
  }

  function DigitsEnd(f: string, i: nat): (e: nat)
    ensures e >= i && (i < e ==> e <= |f|) && (IsDigit(At(f, i)) ==> e > i)
    decreases |f| - i
  {
    if IsDigit(At(f, i)) then DigitsEnd(f, i + 1) else i
  }

  function NumberAt(f: string, i: nat): nat
  {
    if IsDigit(At(f, i)) then Atoi(f[i..DigitsEnd(f, i)]) else 0
  }

  /** A directive: its flags, width and precision, its conversion at position `at`, and its argument. */
  datatype Directive = Directive(flags: Flags, width: nat, precision: nat, at: nat, arg: nat)

  function WithWidth(f: string, args: seq<Arg>, d: Directive): (r: Directive)
    ensures r.at >= d.at
  {
    if IsDigit(At(f, d.at)) then d.(width := NumberAt(f, d.at), at := DigitsEnd(f, d.at))
    else if At(f, d.at) == '*' then
      var w := WrapSigned(IntArg(args, d.arg), UINT);
      d.(flags := d.flags.(left := d.flags.left || w < 0),
         width := if w < 0 then -w else w, at := d.at + 1, arg := d.arg + 1)
    else d
  }

  function WithPrecision(f: string, args: seq<Arg>, d: Directive): (r: Directive)
    ensures r.at >= d.at
  {
    if At(f, d.at) != '.' then d
    else
      var e := d.(flags := d.flags.(precision := true), at := d.at + 1);
      if IsDigit(At(f, e.at)) then e.(precision := NumberAt(f, e.at), at := DigitsEnd(f, e.at))
      else if At(f, e.at) == '*' then
        var p := WrapSigned(IntArg(args, e.arg), UINT);
        e.(precision := if p > 0 then p else 0, at := e.at + 1, arg := e.arg + 1)
      else e
  }

  function WithLength(f: string, d: Directive): (r: Directive)
    ensures r.at >= d.at
  {
    match At(f, d.at)
    case 'l' =>
      var e := d.(flags := d.flags.(longSize := true), at := d.at + 1);
      if At(f, e.at) == 'l' then e.(flags := e.flags.(longLong := true), at := e.at + 1) else e
    case 'h' =>
      var e := d.(flags := d.flags.(shortSize := true), at := d.at + 1);
      if At(f, e.at) == 'h' then e.(flags := e.flags.(charSize := true), at := e.at + 1) else e
    case 't' => d.(flags := d.flags.(longSize := true), at := d.at + 1)
    case 'j' => d.(flags := d.flags.(longSize := true), at := d.at + 1)
    case 'z' => d.(flags := d.flags.(longSize := true), at := d.at + 1)
    case _ => d
  }

  /** The directive that starts after the '%' at i - 1. */
  function Parse(f: string, i: nat, args: seq<Arg>, j: nat): (d: Directive)
    ensures d.at >= i
  {
    var d := Directive(FlagsAt(f, i, NO_FLAGS), 0, 0, FlagsEnd(f, i), j);
    WithLength(f, WithPrecision(f, args, WithWidth(f, args, d)))
  }

  // ----- conversions

  predicate IsInt(c: char) { c == 'd' || c == 'i' || c == 'u' || c == 'x' || c == 'X' || c == 'o' || c == 'b' }

  predicate IsReal(c: char) { c == 'f' || c == 'F' || c == 'e' || c == 'E' || c == 'g' || c == 'G' }

  function BaseOf(c: char): (b: nat)
    ensures 2 <= b <= 16
  {
    if c == 'x' || c == 'X' then 16 else if c == 'o' then 8 else if c == 'b' then 2 else 10
  }

  /** The flags that an integer conversion takes into account: '#' not in base 10, signs only for
      signed conversions, and '0' only without a precision. */
  function WithoutHash(c: char, fl: Flags): Flags { if BaseOf(c) == 10 then fl.(hash := false) else fl }

  function WithCase(c: char, fl: Flags): Flags { if c == 'X' then fl.(upper := true) else fl }

  function WithoutSigns(c: char, fl: Flags): Flags
  {
    if c != 'i' && c != 'd' then fl.(plus := false, space := false) else fl
  }

  function WithoutZero(fl: Flags): Flags { if fl.precision then fl.(zeropad := false) else fl }

  function IntFlags(c: char, fl: Flags): Flags { WithoutZero(WithoutSigns(c, WithCase(c, WithoutHash(c, fl)))) }

  function IntConversion(c: char, d: Directive, n: int): string
  {
    var fl := IntFlags(c, d.flags);
    if c == 'd' || c == 'i' then
      var v := WrapSigned(n, SizeOf(fl));
      IntText(if v < 0 then -v else v, v < 0, BaseOf(c), d.precision, d.width, fl)
    else
      IntText(Wrap(n, SizeOf(fl)), false, BaseOf(c), d.precision, d.width, fl)
  }

  /** A character or string with spaces up to the width. */
  function Field(body: string, width: nat, left: bool): string
  {
    (if left then "" else Repeat(' ', width - |body|)) + body + (if left then Repeat(' ', width - |body|) else "")
  }

  function StrConversion(d: Directive, s: string): string
  {
    Field(if d.flags.precision then s[..Min(|s|, d.precision)] else s, d.width, d.flags.left)
  }

  function PointerConversion(d: Directive, n: int): string
  {
    IntText(Wrap(n, ULONG), false, 16, d.precision, 16, d.flags.(zeropad := true, upper := true))
  }

  function RealFlags(c: char, fl: Flags): Flags
  {
    fl.(upper := fl.upper || c == 'F' || c == 'E' || c == 'G')
  }

  function Conversion(c: char, d: Directive, args: seq<Arg>, rt: RealText): string
  {
    if IsInt(c) then IntConversion(c, d, IntArg(args, d.arg))
    else if IsReal(c) then rt(c, RealFlags(c, d.flags), d.precision, d.width, AnyArg(args, d.arg))
    else if c == 'c' then Field([Wrap(IntArg(args, d.arg), 256) as char], d.width, d.flags.left)
    else if c == 's' then StrConversion(d, StrArg(args, d.arg))
    else if c == 'p' then PointerConversion(d, IntArg(args, d.arg))
    else [c]
  }

  predicate TakesArg(c: char) { IsInt(c) || IsReal(c) || c == 'c' || c == 's' || c == 'p' }

  /** Everything from position i of the format on, with the arguments from j on. */
  function Text(f: string, i: nat, args: seq<Arg>, j: nat, rt: RealText): string
    decreases |f| - i
  {
    if At(f, i) == '\0' then ""
    else if At(f, i) != '%' then [At(f, i)] + Text(f, i + 1, args, j, rt)
    else
      var d := Parse(f, i + 1, args, j);
      var c := At(f, d.at);
      Conversion(c, d, args, rt) + Text(f, d.at + 1, args, if TakesArg(c) then d.arg + 1 else d.arg, rt)
  }
}
