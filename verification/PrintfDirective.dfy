/** Whole directives against section 7.19.6.1 of C99: what the standard reads in the text of a directive, and
    exactly when what the source writes is what the standard asks for. */
module PrintfDirective {
  import opened PrintfDigits
  import opened PrintfSpec
  import opened PrintfStandard
  import opened PrintfHash
  import opened PrintfParse
  import opened PrintfPrefix

  // ----- what the standard reads

  /** The number that decimal digits denote. */
  function DecimalOf(s: string): nat
  {
    if s == "" then 0 else DecimalOf(s[..|s| - 1]) * 10 + DigitValue(s[|s| - 1])
  }

  /** A width or precision: digits, or a star that takes an argument of type int, or nothing. */
  function AmountAt(f: string, i: nat, args: seq<Arg>, j: nat): int
  {
    if IsDigit(At(f, i)) then DecimalOf(f[i..DigitsEnd(f, i)])
    else if At(f, i) == '*' then WrapSigned(IntArg(args, j), UINT)
    else 0
  }

  function AmountEnd(f: string, i: nat): nat
  {
    if IsDigit(At(f, i)) then DigitsEnd(f, i) else if At(f, i) == '*' then i + 1 else i
  }

  function ArgAfter(f: string, i: nat, j: nat): nat { if At(f, i) == '*' then j + 1 else j }

  function Abs(n: int): nat { if n < 0 then -n else n }

  datatype Precision = Omitted | Given(n: nat)

  /** Paragraphs 4 to 7: flags, minimum field width, precision, and the number of values of the type that the
      length asks for. */
  datatype Reading = Reading(flags: Flags, width: nat, precision: Precision, size: nat)

  /** hh, h, none, or one of l, ll, j, z and t. */
  function SizeAt(f: string, b: nat): (n: nat)
  {
    match At(f, b)
    case 'h' => if At(f, b + 1) == 'h' then 0x100 else 0x1_0000
    case 'l' => 0x1_0000_0000_0000_0000
    case 'j' => 0x1_0000_0000_0000_0000
    case 'z' => 0x1_0000_0000_0000_0000
    case 't' => 0x1_0000_0000_0000_0000
    case _ => 0x1_0000_0000
  }

  /** The int that stands for the precision after the dot at b. */
  function PrecisionAt(f: string, i: nat, args: seq<Arg>, j: nat): int
  {
    var a := FlagsEnd(f, i);
    AmountAt(f, AmountEnd(f, a) + 1, args, ArgAfter(f, a, j))
  }

  predicate HasDot(f: string, i: nat) { At(f, AmountEnd(f, FlagsEnd(f, i))) == '.' }

  /** Where the length begins. */
  function PrecisionEnd(f: string, b: nat): nat { if At(f, b) == '.' then AmountEnd(f, b + 1) else b }

  /** The precision is a star whose argument is negative: it is taken as if it were omitted. */
  predicate NegativeStar(f: string, i: nat, args: seq<Arg>, j: nat) { HasDot(f, i) && PrecisionAt(f, i, args, j) < 0 }

  /** The directive after the '%' at i - 1. A negative width is a '-' flag and a width. */
  function Read(f: string, i: nat, args: seq<Arg>, j: nat): Reading
  {
    var fl, w, p := FlagsAt(f, i, NO_FLAGS), AmountAt(f, FlagsEnd(f, i), args, j), PrecisionAt(f, i, args, j);
    Reading(fl.(left := fl.left || w < 0), Abs(w), if HasDot(f, i) && p >= 0 then Given(p) else Omitted,
            SizeAt(f, PrecisionEnd(f, AmountEnd(f, FlagsEnd(f, i)))))
  }

  /** Signs only for signed conversions, capitals for X. */
  function AskedFlags(c: char, r: Reading): Flags
  {
    var signed := c == 'd' || c == 'i';
    r.flags.(precision := r.precision.Given?, upper := c == 'X', plus := signed && r.flags.plus,
             space := signed && r.flags.space)
  }

  function AskedPrecision(r: Reading): nat { if r.precision.Given? then r.precision.n else 0 }

  // ----- what the source reads

  lemma {:induction false} AtoiNumber(s: string)
    ensures Atoi(s) == DecimalOf(s) % UINT
    decreases |s|
  {
    if s != "" {
      AtoiNumber(s[..|s| - 1]);
      ModStep(DecimalOf(s[..|s| - 1]), DigitValue(s[|s| - 1]), UINT);
    }
  }

  lemma WidthReads(f: string, args: seq<Arg>, d: Directive)
    requires d.width == 0
    ensures var e, w := WithWidth(f, args, d), AmountAt(f, d.at, args, d.arg);
      && e.flags == d.flags.(left := d.flags.left || w < 0) && e.width == Abs(w) % UINT && e.precision == d.precision
      && e.at == AmountEnd(f, d.at) && e.arg == ArgAfter(f, d.at, d.arg)
  {
    hide Atoi, DecimalOf, IntArg;
    assert d.flags == d.flags.(left := d.flags.left || false);
    if IsDigit(At(f, d.at)) {
      AtoiNumber(f[d.at..DigitsEnd(f, d.at)]);
    } else if At(f, d.at) == '*' {
      SmallAbs(WrapSigned(IntArg(args, d.arg), UINT));
      hide WrapSigned;
    } else {
      SmallZero();
    }
  }

  lemma SmallAbs(n: int)
    requires n < UINT && n + UINT > 0
    ensures Abs(n) % UINT == Abs(n)
  {
  }

  lemma SmallZero()
    ensures 0 % UINT == 0
  {
  }

  lemma PrecisionReads(f: string, args: seq<Arg>, d: Directive)
    requires d.precision == 0 && !d.flags.precision
    ensures var e, p := WithPrecision(f, args, d), AmountAt(f, d.at + 1, args, d.arg);
      && e.flags == d.flags.(precision := At(f, d.at) == '.') && e.width == d.width && e.at == PrecisionEnd(f, d.at)
      && e.precision == if At(f, d.at) == '.' && p >= 0 then p % UINT else 0
  {
    if At(f, d.at) == '.' && IsDigit(At(f, d.at + 1)) { AtoiNumber(f[d.at + 1..DigitsEnd(f, d.at + 1)]); }
  }

  /** The flags without those of a length. */
  function Plain(fl: Flags): Flags
  {
    fl.(charSize := false, shortSize := false, longSize := false, longLong := false)
  }

  predicate NoSize(fl: Flags) { !fl.charSize && !fl.shortSize && !fl.longSize && !fl.longLong }

  lemma SizeReads(f: string, d: Directive)
    requires NoSize(d.flags)
    ensures SizeOf(WithLength(f, d).flags) == SizeAt(f, d.at)
  {
    hide At;
  }

  lemma LengthReads(f: string, d: Directive)
    ensures var e := WithLength(f, d);
      e.width == d.width && e.precision == d.precision && e.arg == d.arg && Plain(e.flags) == Plain(d.flags)
  {
    hide At;
    var fl := d.flags;
    LongPlain(fl);
    LongPlain(fl.(longSize := true));
    ShortPlain(fl);
    ShortPlain(fl.(shortSize := true));
    hide Plain;
  }

  lemma LongPlain(fl: Flags)
    ensures Plain(fl.(longSize := true)) == Plain(fl) && Plain(fl.(longLong := true)) == Plain(fl)
  {
  }

  lemma ShortPlain(fl: Flags)
    ensures Plain(fl.(shortSize := true)) == Plain(fl) && Plain(fl.(charSize := true)) == Plain(fl)
  {
  }

  lemma SetKeeps(c: char, fl: Flags)
    requires IsFlag(c)
    ensures SetFlag(c, fl).precision == fl.precision && SetFlag(c, fl).upper == fl.upper
    ensures NoSize(SetFlag(c, fl)) == NoSize(fl)
  {
    hide SetFlag;
    OneFlag(fl, c);
  }

  lemma {:induction false} FlagsReads(f: string, i: nat, fl: Flags)
    ensures FlagsAt(f, i, fl).precision == fl.precision && FlagsAt(f, i, fl).upper == fl.upper
    ensures NoSize(FlagsAt(f, i, fl)) == NoSize(fl)
    decreases |f| - i
  {
    if IsFlag(At(f, i)) {
      SetKeeps(At(f, i), fl);
      FlagsReads(f, i + 1, SetFlag(At(f, i), fl));
      hide SetFlag, NoSize;
    }
  }

  /** Parse after the flags. */
  function After(f: string, args: seq<Arg>, d: Directive): Directive
  {
    WithLength(f, WithPrecision(f, args, WithWidth(f, args, d)))
  }

  lemma AfterReads(f: string, args: seq<Arg>, d: Directive)
    requires d.width == 0 && d.precision == 0 && !d.flags.precision && NoSize(d.flags)
    ensures var w, b := AmountAt(f, d.at, args, d.arg), AmountEnd(f, d.at);
      var p := AmountAt(f, b + 1, args, ArgAfter(f, d.at, d.arg));
      var e := After(f, args, d);
      && Plain(e.flags) == Plain(d.flags.(left := d.flags.left || w < 0).(precision := At(f, b) == '.'))
      && SizeOf(e.flags) == SizeAt(f, PrecisionEnd(f, b))
      && e.width == Abs(w) % UINT && e.precision == if At(f, b) == '.' && p >= 0 then p % UINT else 0
  {
    hide AmountAt, AmountEnd, ArgAfter, WithWidth, WithPrecision, WithLength, At, Abs, Plain, SizeOf, SizeAt;
    hide PrecisionEnd;
    WidthReads(f, args, d);
    var d1 := WithWidth(f, args, d);
    PrecisionReads(f, args, d1);
    LengthReads(f, WithPrecision(f, args, d1));
    SizeReads(f, WithPrecision(f, args, d1));
  }

  lemma ParseIs(f: string, i: nat, args: seq<Arg>, j: nat)
    ensures Parse(f, i, args, j) == After(f, args, Directive(FlagsAt(f, i, NO_FLAGS), 0, 0, FlagsEnd(f, i), j))
  {
    hide WithWidth, WithPrecision, WithLength, FlagsAt, FlagsEnd;
  }

  lemma PlainKeeps(fl: Flags, gl: Flags)
    requires Plain(fl) == Plain(gl)
    ensures fl.zeropad == gl.zeropad && fl.left == gl.left && fl.plus == gl.plus && fl.space == gl.space
    ensures fl.hash == gl.hash && fl.upper == gl.upper && fl.precision == gl.precision
  {
    assert Plain(fl).zeropad == Plain(gl).zeropad && Plain(fl).left == Plain(gl).left;
    assert Plain(fl).plus == Plain(gl).plus && Plain(fl).space == Plain(gl).space;
    assert Plain(fl).hash == Plain(gl).hash && Plain(fl).upper == Plain(gl).upper;
    assert Plain(fl).precision == Plain(gl).precision;
  }

  lemma ReadIs(f: string, i: nat, args: seq<Arg>, j: nat)
    ensures var r, fl := Read(f, i, args, j), FlagsAt(f, i, NO_FLAGS);
      var w, p := AmountAt(f, FlagsEnd(f, i), args, j), PrecisionAt(f, i, args, j);
      && r.flags == fl.(left := fl.left || w < 0) && r.width == Abs(w)
      && r.size == SizeAt(f, PrecisionEnd(f, AmountEnd(f, FlagsEnd(f, i))))
      && AskedPrecision(r) == (if HasDot(f, i) && p >= 0 then p else 0)
      && (HasDot(f, i) <==> r.precision.Given? || NegativeStar(f, i, args, j))
      && (NegativeStar(f, i, args, j) ==> r.precision.Omitted?)
  {
    hide FlagsAt, FlagsEnd, AmountAt, HasDot, PrecisionAt, Abs, SizeAt, PrecisionEnd;
  }

  lemma ParsedFlags(d: Directive, fl: Flags, left: bool, dot: bool)
    requires Plain(d.flags) == Plain(fl.(left := left).(precision := dot)) && !fl.upper
    ensures d.flags.zeropad == fl.zeropad && d.flags.left == left && d.flags.plus == fl.plus
    ensures d.flags.space == fl.space && d.flags.hash == fl.hash && !d.flags.upper && d.flags.precision == dot
  {
    hide Plain;
    PlainKeeps(d.flags, fl.(left := left).(precision := dot));
  }

  /** The source reads the same, but numbers modulo 2^32, and a negative star as a precision of zero. */
  lemma ParseReads(f: string, i: nat, args: seq<Arg>, j: nat)
    ensures var d, r := Parse(f, i, args, j), Read(f, i, args, j);
      && d.width == r.width % UINT && d.precision == AskedPrecision(r) % UINT
      && (d.flags.precision <==> r.precision.Given? || NegativeStar(f, i, args, j))
      && (NegativeStar(f, i, args, j) ==> r.precision.Omitted?)
      && d.flags.zeropad == r.flags.zeropad && d.flags.left == r.flags.left && d.flags.plus == r.flags.plus
      && d.flags.space == r.flags.space && d.flags.hash == r.flags.hash && !d.flags.upper
      && SizeOf(d.flags) == r.size
  {
    ReadIs(f, i, args, j);
    hide Parse, Read, After, Plain, FlagsAt, FlagsEnd, AmountAt, AmountEnd, ArgAfter, At, Abs;
    hide NegativeStar, AskedPrecision, SizeOf, SizeAt, PrecisionEnd;
    SmallZero();
    FlagsReads(f, i, NO_FLAGS);
    var fl, a := FlagsAt(f, i, NO_FLAGS), FlagsEnd(f, i);
    var w := AmountAt(f, a, args, j);
    ParseIs(f, i, args, j);
    AfterReads(f, args, Directive(fl, 0, 0, a, j));
    ParsedFlags(Parse(f, i, args, j), fl, fl.left || w < 0, HasDot(f, i));
  }

  // ----- flags

  /** The flags that the source formats with. */
  lemma IntFields(c: char, fl: Flags)
    ensures var gl := IntFlags(c, fl); var signed := c == 'd' || c == 'i';
      && gl.left == fl.left && gl.precision == fl.precision && gl.zeropad == (fl.zeropad && !fl.precision)
      && gl.plus == (signed && fl.plus) && gl.space == (signed && fl.space) && gl.upper == (fl.upper || c == 'X')
      && gl.hash == (fl.hash && BaseOf(c) != 10) && SizeOf(gl) == SizeOf(fl)
  {
    var a := WithoutHash(c, fl);
    HashOff(c, fl);
    SizeKept(c, fl);
    hide WithoutHash, BaseOf;
    CaseOn(c, a);
    var b := WithCase(c, a);
    hide WithCase;
    SignsOff(c, b);
    hide WithoutSigns;
  }

  lemma SizeKept(c: char, fl: Flags)
    ensures SizeOf(IntFlags(c, fl)) == SizeOf(fl)
  {
    hide WithoutHash, WithCase, WithoutSigns, WithoutZero, SizeOf;
    HashSize(c, fl);
    CaseSize(c, WithoutHash(c, fl));
    SignsSize(c, WithCase(c, WithoutHash(c, fl)));
    ZeroSize(WithoutSigns(c, WithCase(c, WithoutHash(c, fl))));
  }

  lemma HashSize(c: char, fl: Flags)
    ensures SizeOf(WithoutHash(c, fl)) == SizeOf(fl)
  {
    hide BaseOf;
  }

  lemma CaseSize(c: char, fl: Flags)
    ensures SizeOf(WithCase(c, fl)) == SizeOf(fl)
  {
  }

  lemma SignsSize(c: char, fl: Flags)
    ensures SizeOf(WithoutSigns(c, fl)) == SizeOf(fl)
  {
  }

  lemma ZeroSize(fl: Flags)
    ensures SizeOf(WithoutZero(fl)) == SizeOf(fl)
  {
  }

  lemma HashOff(c: char, fl: Flags)
    ensures var gl := WithoutHash(c, fl);
      && gl.left == fl.left && gl.precision == fl.precision && gl.zeropad == fl.zeropad && gl.plus == fl.plus
      && gl.space == fl.space && gl.upper == fl.upper && gl.hash == (fl.hash && BaseOf(c) != 10)
  {
    hide BaseOf;
  }

  lemma CaseOn(c: char, fl: Flags)
    ensures var gl := WithCase(c, fl);
      && gl.left == fl.left && gl.precision == fl.precision && gl.zeropad == fl.zeropad && gl.plus == fl.plus
      && gl.space == fl.space && gl.upper == (fl.upper || c == 'X') && gl.hash == fl.hash
  {
  }

  lemma SignsOff(c: char, fl: Flags)
    ensures var gl := WithoutSigns(c, fl); var signed := c == 'd' || c == 'i';
      && gl.left == fl.left && gl.precision == fl.precision && gl.zeropad == fl.zeropad
      && gl.plus == (signed && fl.plus) && gl.space == (signed && fl.space) && gl.upper == fl.upper
      && gl.hash == fl.hash
  {
    if c != 'i' && c != 'd' { assert WithoutSigns(c, fl) == fl.(plus := false, space := false); }
  }

  lemma AskedFields(c: char, r: Reading)
    ensures var gl := AskedFlags(c, r); var signed := c == 'd' || c == 'i';
      && gl.left == r.flags.left && gl.precision == r.precision.Given? && gl.zeropad == r.flags.zeropad
      && gl.plus == (signed && r.flags.plus) && gl.space == (signed && r.flags.space) && gl.upper == (c == 'X')
      && gl.hash == r.flags.hash
  {
  }

  /** The source's flags for the asked ones; star: for a negative star. */
  predicate Masked(gl: Flags, fl: Flags, star: bool)
  {
    && gl.left == fl.left && gl.plus == fl.plus && gl.space == fl.space && gl.upper == fl.upper
    && gl.precision == (fl.precision || star) && gl.zeropad == (fl.zeropad && !gl.precision)
    && (star ==> !fl.precision)
  }

  lemma SourceFlags(f: string, i: nat, args: seq<Arg>, j: nat, c: char)
    ensures var d, r := Parse(f, i, args, j), Read(f, i, args, j);
      && Masked(IntFlags(c, d.flags), AskedFlags(c, r), NegativeStar(f, i, args, j))
      && (IntFlags(c, d.flags).hash <==> r.flags.hash && BaseOf(c) != 10)
      && d.width == r.width % UINT && d.precision == AskedPrecision(r) % UINT
      && (!IntFlags(c, d.flags).precision ==> d.precision == 0) && SizeOf(IntFlags(c, d.flags)) == r.size
  {
    var d, r := Parse(f, i, args, j), Read(f, i, args, j);
    SmallZero();
    assert !r.precision.Given? ==> AskedPrecision(r) == 0;
    hide Parse, Read, IntFlags, AskedFlags, NegativeStar, BaseOf, AskedPrecision, SizeOf;
    ParseReads(f, i, args, j);
    IntFields(c, d.flags);
    AskedFields(c, r);
  }

  lemma MaskedAlike(gl: Flags, fl: Flags)
    requires Masked(gl, fl, false)
    ensures Alike(gl, fl) && (gl.precision ==> !gl.zeropad)
  {
  }

  // ----- numbers that do not fit unsigned int

  lemma SourceLength(value: nat, negative: bool, base: nat, prec: nat, width: nat, fl: Flags)
    requires 2 <= base <= 16
    ensures var n := |IntText(value, negative, base, prec, width, fl)|; n <= width || n <= ROOM
  {
    var buf := if !fl.precision || value != 0 then Digits(value, base, fl.upper, ROOM) else "";
    hide Digits, FormatText;
    FormatLength(buf, negative, base, prec, width, fl.(hash := fl.hash && value != 0));
  }

  lemma FormatLength(buf: string, negative: bool, base: nat, prec: nat, width: nat, fl: Flags)
    requires |buf| <= ROOM
    ensures var n := |FormatText(buf, negative, base, prec, width, fl)|; n <= width || n <= ROOM
  {
    var w := WidthLeft(negative, width, fl);
    PaddedRoom(buf, prec, w, fl);
    hide Padded;
    var b := Padded(buf, prec, w, fl);
    var h := if fl.hash then Prefixed(b, base, prec, w, fl) else b;
    assert |h| <= ROOM;
    hide Prefixed;
    assert |Signed(h, negative, fl)| <= ROOM;
  }

  lemma ArrangedLength(sign: string, digits: string, prec: nat, width: nat, fl: Flags)
    ensures |Arranged(sign, digits, prec, width, fl)| >= width
    ensures |Arranged(sign, digits, prec, width, fl)| >= prec
  {
  }

  /** Unsigned int holds the width and the precision. */
  predicate Represented(r: Reading) { r.width < UINT && AskedPrecision(r) < UINT }

  // ----- a negative star

  /** The zeros of '0' are missing, and so is the digit of zero. */
  predicate StarFits(lead: string, value: nat, base: nat, width: nat, fl: Flags)
    requires 2 <= base <= 16
  {
    value > 0 && (fl.left || !fl.zeropad || width <= |lead| + |Numeral(value, base, fl.upper)|)
  }

  /** Spaces before the lead instead of zeros after it. */
  lemma ZerosMissing(lead: string, digits: string, width: nat)
    requires digits != "" && |lead| <= 1 && (lead != "" ==> lead[0] != '0')
    ensures var gap := width - |lead| - |digits|;
      Repeat(' ', gap) + lead + digits == lead + Repeat('0', gap) + digits <==> gap <= 0
  {
    var gap := width - |lead| - |digits|;
    var ours, theirs := Repeat(' ', gap) + lead + digits, lead + Repeat('0', gap) + digits;
    if gap > 0 {
      assert theirs[|lead|] == '0';
      if gap > |lead| { assert ours[|lead|] == ' '; } else { assert ours[|lead|] == lead[0]; }
    } else {
      assert Repeat(' ', gap) == "" && Repeat('0', gap) == "";
    }
  }

  lemma SignNotZero(negative: bool, fl: Flags)
    ensures Sign(negative, fl) != "" ==> Sign(negative, fl)[0] != '0'
  {
  }

  /** What the source writes for a negative star, and what the standard asks for, for a value that has a digit. */
  lemma StarArranged(lead: string, digits: string, width: nat, gl: Flags, fl: Flags)
    requires Masked(gl, fl, true)
    ensures var gap := width - |lead| - |digits|;
      && Arranged(lead, digits, 0, width, gl) ==
           (if fl.left then lead + digits + Repeat(' ', gap) else Repeat(' ', gap) + lead + digits)
      && Arranged(lead, digits, 0, width, fl) ==
           if fl.left || !fl.zeropad then Arranged(lead, digits, 0, width, gl) else lead + Repeat('0', gap) + digits
  {
    assert Repeat('0', 0 - |digits|) + digits == digits;
  }

  lemma SpacesShow(sign: string, gap: int)
    requires (sign != "" ==> sign[0] != '0') && |sign| <= 1
    ensures '0' !in sign + "" + Repeat(' ', gap) && '0' !in Repeat(' ', gap) + sign + ""
  {
  }

  lemma DigitShows(sign: string, c: char, gap: int)
    ensures '0' in sign + "0" + Repeat(' ', gap) && '0' in Repeat(c, gap) + sign + "0"
    ensures '0' in sign + Repeat(c, gap) + "0"
  {
    assert (sign + "0" + Repeat(' ', gap))[|sign|] == '0';
    var x, y := Repeat(c, gap) + sign + "0", sign + Repeat(c, gap) + "0";
    assert x[|x| - 1] == '0' && y[|y| - 1] == '0';
  }

  /** No digit at all. */
  lemma NoDigit(sign: string, width: nat, gl: Flags, fl: Flags)
    requires Masked(gl, fl, true) && (sign != "" ==> sign[0] != '0') && |sign| <= 1
    ensures Arranged(sign, "", 0, width, gl) != Arranged(sign, "0", 0, width, fl)
  {
    StarArranged(sign, "", width, gl, fl);
    StarArranged(sign, "0", width, gl, fl);
    hide Arranged, Masked, Repeat;
    SpacesShow(sign, width - |sign|);
    DigitShows(sign, ' ', width - |sign| - 1);
    DigitShows(sign, '0', width - |sign| - 1);
  }

  lemma StarDigits(value: nat, base: nat, gl: Flags, fl: Flags)
    requires 2 <= base <= 16 && Masked(gl, fl, true)
    ensures DigitsOf(value, base, fl) == Numeral(value, base, fl.upper)
    ensures DigitsOf(value, base, gl) == if value == 0 then "" else Numeral(value, base, fl.upper)
    ensures Numeral(value, base, fl.upper) != "" && Numeral(0, base, fl.upper) == "0"
  {
  }

  lemma StarStandard(value: nat, negative: bool, base: nat, width: nat, gl: Flags, fl: Flags)
    requires 8 <= base <= 16 && value < ULONG && Masked(gl, fl, true) && !gl.hash
    ensures IntText(value, negative, base, 0, width, gl) == Standard(value, negative, base, 0, width, fl) <==>
      StarFits(Sign(negative, fl), value, base, width, fl)
  {
    var sign, digits := Sign(negative, fl), Numeral(value, base, fl.upper);
    assert Sign(negative, gl) == sign && (gl.precision ==> !gl.zeropad);
    hide IntText, Arranged, DigitsOf, Numeral, Sign;
    StandardText(value, negative, base, 0, width, gl);
    SignNotZero(negative, fl);
    StarDigits(value, base, gl, fl);
    StarArranged(sign, digits, width, gl, fl);
    if value == 0 {
      NoDigit(sign, width, gl, fl);
    } else {
      ZerosMissing(sign, digits, width);
    }
  }

  lemma LaidOf(value: nat, base: nat, width: nat, fl: Flags)
    requires (base == 8 || base == 16) && value > 0
    ensures StandardHash(value, base, 0, width, fl) == Laid(Prefix(base, fl), Numeral(value, base, fl.upper), width, fl)
  {
    var d := Numeral(value, base, fl.upper);
    HashedStandardIs(value, base, 0, width, fl);
    PrefixLength(base, fl);
    NoZeros(0, d);
    NoZeros(-1, d);
    hide Hashed, Laid, StandardHash, Numeral, Repeat, Prefix;
    if base == 16 { HashedHex(d, 0, width, fl); } else { HashedOct(d, 0, width, fl); }
  }

  lemma LaidStar(l: string, d: string, width: nat, gl: Flags, fl: Flags)
    requires Masked(gl, fl, true) && l != "" && l[0] == '0'
    ensures Laid(l, d, width, gl) == Laid(l, d, width, fl) <==> fl.left || !fl.zeropad || width <= |l| + |d|
  {
    var gap := width - |l| - |d|;
    if !fl.left && fl.zeropad {
      var ours, theirs := Repeat(' ', gap) + l + d, l + Repeat('0', gap) + d;
      if gap > 0 {
        assert ours[0] == ' ' && theirs[0] == '0';
      } else {
        assert Repeat(' ', gap) == "" && Repeat('0', gap) == "";
      }
    }
  }

  lemma SmallHashFits(n: nat, base: nat, width: nat, gl: Flags)
    requires gl.precision && !gl.zeropad && (base == 8 || base == 16)
    ensures HashFits(n, base, 0, width, gl)
  {
  }

  lemma StarHash(value: nat, base: nat, width: nat, gl: Flags, fl: Flags)
    requires (base == 8 || base == 16) && value < ULONG && Masked(gl, fl, true) && gl.hash && !gl.plus && !gl.space
    ensures IntText(value, false, base, 0, width, gl) == StandardHash(value, base, 0, width, fl) <==>
      StarFits(Prefix(base, fl), value, base, width, fl)
  {
    var d := Numeral(value, base, fl.upper);
    assert Prefix(base, gl) == Prefix(base, fl) && gl.precision && !gl.zeropad;
    hide IntText, Arranged, DigitsOf, Numeral, StandardHash, Laid, HashFits, Prefix, Fits;
    if value == 0 {
      NothingFits(width, gl);
      StarDigits(0, base, gl, fl);
      ZeroText(base, 0, width, gl);
      ZeroHashed(base, 0, width, fl);
      NoDigit("", width, gl, fl);
    } else {
      SmallHashFits(|d|, base, width, gl);
      HashText(value, base, 0, width, gl);
      LaidOf(value, base, width, gl);
      LaidOf(value, base, width, fl);
      PrefixLength(base, fl);
      LaidStar(Prefix(base, fl), d, width, gl, fl);
    }
  }

  // ----- any precision

  lemma SameHash(value: nat, base: nat, prec: nat, width: nat, fl: Flags, gl: Flags)
    requires (base == 8 || base == 16) && Alike(fl, gl)
    ensures StandardHash(value, base, prec, width, fl) == StandardHash(value, base, prec, width, gl)
    ensures HashFitsValue(value, base, prec, width, fl) == HashFitsValue(value, base, prec, width, gl)
  {
    hide Numeral, DigitsOf, Arranged, Fits;
    var digits := DigitsOf(value, base, fl);
    SameParts(value, false, base, fl, gl);
    SameParts(0, false, base, fl, gl);
    var p := if prec > |digits| || (digits != "" && digits[0] == '0') then prec else |digits| + 1;
    SameArranged("", digits, p, width, fl, gl);
    SameArranged("", digits, prec, width, fl, gl);
    SameArranged(Prefix(base, fl), digits, prec, width, fl, gl);
    SameArranged("", DigitsOf(0, base, fl), prec, width, fl, gl);
  }

  lemma LongAsked(text: string, asked: string, r: Reading, w: nat)
    requires !Represented(r) && w < UINT && (|text| <= w || |text| <= ROOM)
    requires |asked| >= r.width && |asked| >= AskedPrecision(r)
    ensures text != asked
  {
  }

  lemma StandardLength(value: nat, negative: bool, base: nat, prec: nat, width: nat, fl: Flags)
    requires 2 <= base <= 16
    ensures var n := |Standard(value, negative, base, prec, width, fl)|; n >= width && n >= prec
  {
    hide Arranged, Sign, DigitsOf;
    ArrangedLength(Sign(negative, fl), DigitsOf(value, base, fl), prec, width, fl);
  }

  lemma HashLength(value: nat, base: nat, prec: nat, width: nat, fl: Flags)
    requires 2 <= base <= 16
    ensures var n := |StandardHash(value, base, prec, width, fl)|; n >= width && n >= prec
  {
    hide Arranged, DigitsOf;
    var digits := DigitsOf(value, base, fl);
    ArrangedLength("", digits, prec, width, fl);
    ArrangedLength("", digits, |digits| + 1, width, fl);
    ArrangedLength(Prefix(base, fl), digits, prec, width, fl);
  }

  /** What the source makes of a width and a precision that it reads as w and prec. */
  predicate ReadAs(r: Reading, w: nat, prec: nat)
  {
    w < UINT && (Represented(r) ==> w == r.width && prec == AskedPrecision(r)) && (r.precision.Omitted? ==> prec == 0)
  }

  lemma ModReadAs(r: Reading)
    ensures ReadAs(r, r.width % UINT, AskedPrecision(r) % UINT)
  {
    SmallZero();
  }

  lemma PlainDirective(value: nat, negative: bool, base: nat, r: Reading, w: nat, prec: nat,
                       gl: Flags, fl: Flags, star: bool)
    requires 8 <= base <= 16 && value < ULONG && !gl.hash && Masked(gl, fl, star) && fl.precision == r.precision.Given?
    requires ReadAs(r, w, prec)
    ensures (IntText(value, negative, base, prec, w, gl) ==
      Standard(value, negative, base, AskedPrecision(r), r.width, fl)) <==>
      Represented(r) &&
      if star then StarFits(Sign(negative, fl), value, base, r.width, fl)
      else Fits(Sign(negative, fl), DigitsOf(value, base, fl), AskedPrecision(r), r.width, fl)
  {
    hide IntText, Standard, Fits, StarFits, Sign, DigitsOf, AskedPrecision, Represented;
    if !Represented(r) {
      SourceLength(value, negative, base, prec, w, gl);
      StandardLength(value, negative, base, AskedPrecision(r), r.width, fl);
      LongAsked(IntText(value, negative, base, prec, w, gl),
        Standard(value, negative, base, AskedPrecision(r), r.width, fl), r, w);
    } else if star {
      StarStandard(value, negative, base, w, gl, fl);
    } else {
      MaskedAlike(gl, fl);
      hide Masked;
      StandardText(value, negative, base, prec, w, gl);
      SameStandard(value, negative, base, prec, w, gl, fl);
    }
  }

  lemma HashedDirective(value: nat, base: nat, r: Reading, w: nat, prec: nat, gl: Flags, fl: Flags, star: bool)
    requires (base == 8 || base == 16) && value < ULONG && gl.hash && !gl.plus && !gl.space
    requires Masked(gl, fl, star) && fl.precision == r.precision.Given? && ReadAs(r, w, prec)
    ensures (IntText(value, false, base, prec, w, gl) ==
      StandardHash(value, base, AskedPrecision(r), r.width, fl)) <==>
      Represented(r) &&
      if star then StarFits(Prefix(base, fl), value, base, r.width, fl)
      else HashFitsValue(value, base, AskedPrecision(r), r.width, fl)
  {
    hide IntText, StandardHash, HashFitsValue, StarFits, Prefix, AskedPrecision, Represented;
    if !Represented(r) {
      SourceLength(value, false, base, prec, w, gl);
      HashLength(value, base, AskedPrecision(r), r.width, fl);
      LongAsked(IntText(value, false, base, prec, w, gl),
        StandardHash(value, base, AskedPrecision(r), r.width, fl), r, w);
    } else if star {
      StarHash(value, base, w, gl, fl);
    } else {
      MaskedAlike(gl, fl);
      hide Masked;
      HashText(value, base, prec, w, gl);
      SameHash(value, base, prec, w, gl, fl);
    }
  }

  // ----- directives

  function StandardBase(c: char): (b: nat)
    ensures 8 <= b <= 16
  {
    match c case 'o' => 8 case 'x' => 16 case 'X' => 16 case _ => 10
  }

  /** What a type with so many values holds of n: in two's complement for d and i. */
  function AskedValue(c: char, r: Reading, n: int): int
    requires r.size > 0
  {
    if c == 'd' || c == 'i' then (n + r.size / 2) % r.size - r.size / 2 else n % r.size
  }

  /** The argument as the source takes it: sign and magnitude. */
  function Negative(c: char, d: Directive, n: int): bool
  {
    (c == 'd' || c == 'i') && WrapSigned(n, SizeOf(IntFlags(c, d.flags))) < 0
  }

  function Magnitude(c: char, d: Directive, n: int): (m: nat)
    ensures m < ULONG
  {
    var size := SizeOf(IntFlags(c, d.flags));
    if c == 'd' || c == 'i' then
      var v := WrapSigned(n, size);
      if v < 0 then -v else v
    else Wrap(n, size)
  }

  lemma TwosComplement(n: int, h: nat)
    requires h > 0
    ensures WrapSigned(n, 2 * h) == (n + h) % (2 * h) - h
  {
    var size := 2 * h;
    var q, u := n / size, n % size;
    assert n == size * q + u;
    if u >= h {
      assert n + h == size * (q + 1) + (u - h);
      IntMod(n + h, size, q + 1, u - h);
    } else {
      IntMod(n + h, size, q, u + h);
    }
  }

  lemma IntMod(v: int, m: nat, q: int, r: nat)
    requires r < m && v == m * q + r
    ensures v % m == r
  {
    var d := v / m - q;
    assert v == m * (v / m) + v % m;
    assert m * d == r - v % m by { assert m * (v / m) - m * q == m * d; }
    if d > 0 { MulMono(m, 1, d); assert false; }
    if d < 0 { MulMono(m, d, -1); assert false; }
  }

  lemma Sizes(fl: Flags)
    ensures SizeOf(fl) in {0x100, 0x1_0000, 0x1_0000_0000, 0x1_0000_0000_0000_0000}
  {
  }

  lemma ValueIs(f: string, i: nat, args: seq<Arg>, j: nat, c: char, n: int)
    ensures var d, r := Parse(f, i, args, j), Read(f, i, args, j);
      r.size > 0 && Abs(AskedValue(c, r, n)) == Magnitude(c, d, n) && (AskedValue(c, r, n) < 0 <==> Negative(c, d, n))
  {
    hide Parse, Read, IntFlags, SizeOf, WrapSigned, Masked, NegativeStar;
    var d, r := Parse(f, i, args, j), Read(f, i, args, j);
    SourceFlags(f, i, args, j, c);
    Sizes(IntFlags(c, d.flags));
    TwosComplement(n, r.size / 2);
  }

  lemma ConversionIs(c: char, d: Directive, n: int)
    ensures IntConversion(c, d, n) ==
      IntText(Magnitude(c, d, n), Negative(c, d, n), BaseOf(c), d.precision, d.width, IntFlags(c, d.flags))
  {
    hide IntFlags, SizeOf, WrapSigned, Wrap, IntText, BaseOf;
  }

  /** d, i, u, o, x and X without '#', for any directive in any format and any argument: the text is the one
      that the standard asks for exactly if width and precision fit unsigned int and, for a negative star as
      precision, StarFits, and otherwise Fits. */
  lemma StandardDirective(f: string, i: nat, args: seq<Arg>, j: nat, c: char, n: int)
    requires c in {'d', 'i', 'u', 'o', 'x', 'X'} && (Read(f, i, args, j).flags.hash ==> StandardBase(c) == 10)
    ensures Read(f, i, args, j).size > 0
    ensures var d, r := Parse(f, i, args, j), Read(f, i, args, j);
      var v, base, fl := AskedValue(c, r, n), StandardBase(c), AskedFlags(c, r);
      IntConversion(c, d, n) == Standard(Abs(v), v < 0, base, AskedPrecision(r), r.width, fl) <==>
        Represented(r) &&
        if NegativeStar(f, i, args, j) then StarFits(Sign(v < 0, fl), Abs(v), base, r.width, fl)
        else Fits(Sign(v < 0, fl), DigitsOf(Abs(v), base, fl), AskedPrecision(r), r.width, fl)
  {
    var d, r := Parse(f, i, args, j), Read(f, i, args, j);
    assert StandardBase(c) == BaseOf(c);
    ConversionIs(c, d, n);
    hide Parse, Read, IntFlags, AskedFlags, SizeOf, IntText, Standard, StarFits, Fits, DigitsOf, Sign, IntConversion;
    hide Magnitude, Negative, NegativeStar, BaseOf, StandardBase, Masked, AskedPrecision, Represented, ReadAs;
    hide AskedValue, Abs;
    ValueIs(f, i, args, j, c, n);
    SourceFlags(f, i, args, j, c);
    AskedFields(c, r);
    ModReadAs(r);
    PlainDirective(Magnitude(c, d, n), Negative(c, d, n), BaseOf(c), r, d.width, d.precision,
      IntFlags(c, d.flags), AskedFlags(c, r), NegativeStar(f, i, args, j));
  }

  /** o, x and X with '#': in the same way, with what '#' puts before the digits for a sign. */
  lemma HashDirective(f: string, i: nat, args: seq<Arg>, j: nat, c: char, n: int)
    requires c in {'o', 'x', 'X'} && Read(f, i, args, j).flags.hash
    ensures Read(f, i, args, j).size > 0
    ensures var d, r := Parse(f, i, args, j), Read(f, i, args, j);
      var v, base, fl := Abs(AskedValue(c, r, n)), StandardBase(c), AskedFlags(c, r);
      IntConversion(c, d, n) == StandardHash(v, base, AskedPrecision(r), r.width, fl) <==>
        Represented(r) &&
        if NegativeStar(f, i, args, j) then StarFits(Prefix(base, fl), v, base, r.width, fl)
        else HashFitsValue(v, base, AskedPrecision(r), r.width, fl)
  {
    var d, r := Parse(f, i, args, j), Read(f, i, args, j);
    assert StandardBase(c) == BaseOf(c) && (BaseOf(c) == 8 || BaseOf(c) == 16);
    ConversionIs(c, d, n);
    hide Parse, Read, IntFlags, AskedFlags, SizeOf, IntText, StandardHash, StarFits, HashFitsValue, IntConversion;
    hide Magnitude, Prefix, NegativeStar, BaseOf, StandardBase, Masked, AskedPrecision, Represented, ReadAs;
    hide AskedValue, Abs;
    ValueIs(f, i, args, j, c, n);
    SourceFlags(f, i, args, j, c);
    AskedFields(c, r);
    UnsignedFlags(c, d.flags);
    ModReadAs(r);
    HashedDirective(Magnitude(c, d, n), BaseOf(c), r, d.width, d.precision,
      IntFlags(c, d.flags), AskedFlags(c, r), NegativeStar(f, i, args, j));
  }

  // ----- written directives

  lemma {:induction false} DecimalNumeral(n: nat)
    ensures DecimalOf(Numeral(n, 10, false)) == n
    decreases n
  {
    var s, c := Numeral(n, 10, false), DigitChar(n % 10, false);
    DigitRound(n % 10, false);
    if n < 10 {
      assert s == [c] && s[..0] == "" && n % 10 == n;
    } else {
      DecimalNumeral(n / 10);
      assert s[..|s| - 1] == Numeral(n / 10, 10, false);
    }
  }

  /** The number as it stands there, or the int that the star takes. */
  function Meant(a: Amount, args: seq<Arg>, j: nat): int { if a.Number? then a.n else a.Value(args, j) }

  lemma AmountRead(f: string, i: nat, a: Amount, args: seq<Arg>, j: nat)
    requires var s := a.Raw(); i + |s| <= |f| && f[i..i + |s|] == s
    requires !IsDigit(At(f, i + |a.Raw()|)) && (a.Absent? ==> At(f, i) != '*')
    ensures AmountAt(f, i, args, j) == Meant(a, args, j) && AmountEnd(f, i) == i + |a.Raw()|
    ensures ArgAfter(f, i, j) == j + a.Args()
  {
    if a.Number? {
      NumberRead(f, i, a.n);
      DecimalNumeral(a.n);
    }
    if a.Star? { AtIn(f, i, "*", 0); }
  }

  function SizeFor(length: Length): nat
  {
    match length
    case HH => 0x100
    case H => 0x1_0000
    case NoLength => 0x1_0000_0000
    case _ => 0x1_0000_0000_0000_0000
  }

  /** What the standard reads: no precision without a dot, zero after a bare dot, and none for a negative star. */
  function AskedOf(w: Written, args: seq<Arg>, j: nat): Reading
  {
    var fl, width, p := WithFlags(NO_FLAGS, w.flags), Meant(w.width, args, j),
      Meant(w.precision, args, j + w.width.Args());
    Reading(fl.(left := fl.left || width < 0), Abs(width), if w.dot && p >= 0 then Given(p) else Omitted,
            SizeFor(w.length))
  }

  lemma InPlaceIsRead(f: string, i: nat, w: Written, b: nat, e: nat, g: nat, h: nat, args: seq<Arg>, j: nat)
    requires w.Valid() && InPlace(f, i, w, b, e, g, h)
    ensures Read(f, i, args, j) == AskedOf(w, args, j)
    ensures NegativeStar(f, i, args, j) <==> w.dot && Meant(w.precision, args, j + w.width.Args()) < 0
  {
    hide EndsDirective, WithFlags, Amount.Value, Amount.Raw, Length.Raw, Amount.Args, Meant, Abs;
    hide FlagsEnd, FlagsAt, AmountAt, AmountEnd, ArgAfter, IsFlag, IsDigit;
    FlagsRead(f, i, w.flags, NO_FLAGS);
    AmountRead(f, b, w.width, args, j);
    DotRead(f, w, e, g);
    AbsentRaw(w.precision);
    LengthSize(f, g, w.length);
    hide SizeAt, SizeFor, At;
    if w.dot { AmountRead(f, e + 1, w.precision, args, j + w.width.Args()); }
  }

  lemma LengthSize(f: string, g: nat, length: Length)
    requires var s := length.Raw(); g + |s| <= |f| && f[g..g + |s|] == s && EndsDirective(At(f, g + |s|))
    ensures SizeAt(f, g) == SizeFor(length)
  {
    LengthChars(f, g, length);
    hide Length.Raw, At;
  }

  lemma AbsentRaw(a: Amount)
    ensures a.Absent? ==> |a.Raw()| == 0
  {
  }

  /** The dot, if there is one, and the precision after it. */
  lemma DotRead(f: string, w: Written, e: nat, g: nat)
    requires var p := (if w.dot then "." else "") + w.precision.Raw();
      w.Valid() && g == e + |p| && g <= |f| && f[e..g] == p && At(f, g) != '.'
    ensures At(f, e) == '.' <==> w.dot
    ensures w.dot ==> g == e + 1 + |w.precision.Raw()| && f[e + 1..g] == w.precision.Raw()
  {
    var p := (if w.dot then "." else "") + w.precision.Raw();
    if w.dot {
      AtIn(f, e, p, 0);
      assert f[e..g][1..] == p[1..] == w.precision.Raw();
      assert f[e + 1..g] == f[e..g][1..];
    }
  }

  /** A directive means what its parts say, wherever it stands in a format. */
  lemma WrittenIsRead(before: string, w: Written, c: char, after: string, args: seq<Arg>, j: nat)
    requires w.Valid() && EndsDirective(c)
    ensures var f := before + w.Raw() + [c] + after;
      && Read(f, |before|, args, j) == AskedOf(w, args, j)
      && (NegativeStar(f, |before|, args, j) <==> w.dot && Meant(w.precision, args, j + w.width.Args()) < 0)
  {
    hide EndsDirective, Written.Raw, Amount.Raw, Length.Raw, Amount.Value, Read, NegativeStar, IsFlag, IsDigit, At;
    hide InPlace, AskedOf, Meant;
    var f, b := before + w.Raw() + [c] + after, |before| + |w.flags|;
    var e := b + |w.width.Raw()|;
    var g := e + |(if w.dot then "." else "") + w.precision.Raw()|;
    var h := g + |w.length.Raw()|;
    PartsInPlace(f, before, w, c, after, b, e, g, h);
    InPlaceIsRead(f, |before|, w, b, e, g, h, args, j);
  }

  // ----- inputs for which the source and the standard differ

  const STAR: Written := Written("0", PrintfParse.Number(5), true, Star, NoLength)
  const BARE_STAR: Written := Written("", Absent, true, Star, NoLength)
  const HASH: Written := Written("#", PrintfParse.Number(2), false, Absent, NoLength)

  lemma StarRaw()
    ensures STAR.Valid() && "%" + STAR.Raw() + ['d'] + "" == "%05.*d"
    ensures BARE_STAR.Valid() && "%" + BARE_STAR.Raw() + ['d'] + "" == "%.*d"
    ensures HASH.Valid() && "%" + HASH.Raw() + ['x'] + "" == "%#2x"
  {
    assert Numeral(5, 10, false) == "5" && Numeral(2, 10, false) == "2";
    assert STAR.Raw() == "05.*" && BARE_STAR.Raw() == ".*" && HASH.Raw() == "#2";
  }

  const STAR_FLAGS: Flags := NO_FLAGS.(zeropad := true, precision := true)

  lemma OneFlagIn()
    ensures var s := "0"; '0' in s && '-' !in s && '+' !in s && ' ' !in s && '#' !in s
    ensures var s := "#"; '0' !in s && '-' !in s && '+' !in s && ' ' !in s && '#' in s
  {
  }

  lemma StarParsed(f: string, args: seq<Arg>)
    requires f == "%05.*d" && args == [Int(-1), Int(42)]
    ensures Parse(f, 1, args, 0) == Directive(STAR_FLAGS, 5, 0, 5, 1) && At(f, 5) == 'd'
    ensures Read(f, 1, args, 0) == Reading(NO_FLAGS.(zeropad := true), 5, Omitted, UINT) && NegativeStar(f, 1, args, 0)
  {
    StarRaw();
    OneFlagIn();
    assert STAR.FlagsOf(args, 0) == STAR_FLAGS && STAR.Raw() == "05.*";
    assert AskedOf(STAR, args, 0) == Reading(NO_FLAGS.(zeropad := true), 5, Omitted, UINT);
    hide Parse, Read, NegativeStar;
    WrittenIsParsed("%", STAR, 'd', "", args, 0);
    WrittenIsRead("%", STAR, 'd', "", args, 0);
  }

  /** What the standard asks for 42, and what the source writes, in terms of flags. */
  lemma FortyTwo()
    ensures Standard(42, false, 10, 0, 5, NO_FLAGS.(zeropad := true)) == "00042"
    ensures IntText(42, false, 10, 0, 5, NO_FLAGS.(precision := true)) == "   42"
  {
    var fl, gl := NO_FLAGS.(zeropad := true), NO_FLAGS.(precision := true);
    assert Numeral(42, 10, false) == "42";
    assert Fits("", "42", 0, 5, gl);
    assert Arranged("", "42", 0, 5, gl) == "   42" && Arranged("", "42", 0, 5, fl) == "00042" by {
      assert Repeat('0', -2) + "42" == "42" && Repeat(' ', 3) + "" + "42" == "   42";
      assert "" + Repeat('0', 3) + "42" == "00042";
    }
    hide IntText, Arranged, Fits;
    StandardText(42, false, 10, 0, 5, gl);
  }

  /** The text of a format that is one integer directive. */
  lemma OneDirective(f: string, args: seq<Arg>, rt: RealText, at: nat, c: char, arg: nat, n: int)
    requires |f| == at + 1 && at > 0 && f[0] == '%' && f[at] == c && IsInt(c)
    requires Parse(f, 1, args, 0).at == at && Parse(f, 1, args, 0).arg == arg < |args| && args[arg] == Int(n)
    ensures Text(f, 0, args, 0, rt) == IntConversion(c, Parse(f, 1, args, 0), n)
  {
    hide Parse, IntConversion;
    assert Text(f, at + 1, args, arg + 1, rt) == "";
  }

  lemma StarFlags()
    ensures IntFlags('d', STAR_FLAGS) == NO_FLAGS.(precision := true)
    ensures WrapSigned(42, UINT) == 42
  {
  }

  /** "%05.*d" of -1 and 42: the source takes the negative precision as zero and forgets the zeros of '0'. */
  lemma StarExample(f: string, rt: RealText)
    requires f == "%05.*d"
    ensures var args := [Int(-1), Int(42)]; var r := Read(f, 1, args, 0);
      && Text(f, 0, args, 0, rt) == "   42"
      && Standard(42, false, 10, AskedPrecision(r), r.width, AskedFlags('d', r)) == "00042"
  {
    var args := [Int(-1), Int(42)];
    StarParsed(f, args);
    FortyTwo();
    StarFlags();
    hide Parse, Read, IntText, Standard, IntFlags;
    OneDirective(f, args, rt, 5, 'd', 1, 42);
  }

  lemma BareParsed(f: string, args: seq<Arg>)
    requires f == "%.*d" && args == [Int(-1), Int(0)]
    ensures Parse(f, 1, args, 0) == Directive(NO_FLAGS.(precision := true), 0, 0, 3, 1) && At(f, 3) == 'd'
    ensures Read(f, 1, args, 0) == Reading(NO_FLAGS, 0, Omitted, UINT)
  {
    StarRaw();
    assert BARE_STAR.FlagsOf(args, 0) == NO_FLAGS.(precision := true) && BARE_STAR.Raw() == ".*";
    assert AskedOf(BARE_STAR, args, 0) == Reading(NO_FLAGS, 0, Omitted, UINT);
    hide Parse, Read, NegativeStar;
    WrittenIsParsed("%", BARE_STAR, 'd', "", args, 0);
    WrittenIsRead("%", BARE_STAR, 'd', "", args, 0);
  }

  /** "%.*d" of -1 and 0: the source writes nothing. */
  lemma BareStarExample(f: string, rt: RealText)
    requires f == "%.*d"
    ensures var args := [Int(-1), Int(0)]; var r := Read(f, 1, args, 0);
      && Text(f, 0, args, 0, rt) == ""
      && Standard(0, false, 10, AskedPrecision(r), r.width, AskedFlags('d', r)) == "0"
  {
    var args, fl := [Int(-1), Int(0)], NO_FLAGS.(precision := true);
    BareParsed(f, args);
    assert IntText(0, false, 10, 0, 0, fl) == "" && IntFlags('d', fl) == fl && WrapSigned(0, UINT) == 0;
    assert Standard(0, false, 10, 0, 0, NO_FLAGS) == "0" by { assert Numeral(0, 10, false) == "0"; }
    hide Parse, Read, IntText, Standard, IntFlags;
    OneDirective(f, args, rt, 3, 'd', 1, 0);
  }

  lemma HashParsed(f: string, args: seq<Arg>)
    requires f == "%#2x"
    ensures Parse(f, 1, args, 0) == Directive(NO_FLAGS.(hash := true), 2, 0, 3, 0) && At(f, 3) == 'x'
    ensures Read(f, 1, args, 0) == Reading(NO_FLAGS.(hash := true), 2, Omitted, UINT)
  {
    StarRaw();
    OneFlagIn();
    assert HASH.FlagsOf(args, 0) == NO_FLAGS.(hash := true) && HASH.Raw() == "#2";
    assert AskedOf(HASH, args, 0) == Reading(NO_FLAGS.(hash := true), 2, Omitted, UINT);
    hide Parse, Read, NegativeStar;
    WrittenIsParsed("%", HASH, 'x', "", args, 0);
    WrittenIsRead("%", HASH, 'x', "", args, 0);
  }

  /** "%#2x" of 0x12: the prefix takes the place of both digits. */
  lemma HashExample(f: string, rt: RealText)
    requires f == "%#2x"
    ensures var args := [Int(0x12)]; var r := Read(f, 1, args, 0);
      && Text(f, 0, args, 0, rt) == "0x"
      && StandardHash(0x12, 16, AskedPrecision(r), r.width, AskedFlags('x', r)) == "0x12"
  {
    var args, fl := [Int(0x12)], NO_FLAGS.(hash := true);
    HashParsed(f, args);
    NoDigitKept();
    assert IntFlags('x', fl) == fl && Wrap(0x12, UINT) == 0x12;
    assert StandardHash(0x12, 16, 0, 2, fl) == "0x12" by {
      assert Numeral(0x12, 16, false) == "12" && Repeat('0', -2) + "12" == "12";
      assert Repeat(' ', -2) + "0x" + "12" == "0x12";
    }
    hide Parse, Read, IntText, StandardHash, IntFlags;
    OneDirective(f, args, rt, 3, 'x', 0, 0x12);
  }
}
