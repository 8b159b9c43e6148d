/** The other conversions, and whole formats: what %s, %c, %p and %b write, and that a format is written piece by
    piece. */
module PrintfStrings {
  import opened PrintfDigits
  import opened PrintfSpec
  import opened PrintfStandard
  import opened PrintfParse
  import opened PrintfDirective

  predicate AllSpaces(s: string) { forall i :: 0 <= i < |s| ==> s[i] == ' ' }

  /** t is the body, filled up with spaces to the width, on the right for '-' and otherwise on the left. */
  predicate IsField(t: string, body: string, width: nat, left: bool)
  {
    && |t| == (if |body| < width then width else |body|)
    && if left then t[..|body|] == body && AllSpaces(t[|body|..])
       else t[|t| - |body|..] == body && AllSpaces(t[..|t| - |body|])
  }

  lemma FieldIs(body: string, width: nat, left: bool)
    ensures IsField(Field(body, width, left), body, width, left)
  {
    var t := Field(body, width, left);
    if left { assert t == body + Repeat(' ', width - |body|); } else { assert t == Repeat(' ', width - |body|) + body; }
  }

  /** Spaces alone are a field of a body exactly if that is spaces. */
  lemma SpacesField(body: string, width: nat, left: bool)
    ensures IsField(Field("", width, left), body, width, left) <==> AllSpaces(body) && |body| <= width
  {
    var t := Field("", width, left);
    assert AllSpaces(t) && |t| == width;
    if |body| <= width {
      if AllSpaces(body) {
        assert t[..|body|] == body && t[width - |body|..] == body;
      } else {
        var i :| 0 <= i < |body| && body[i] != ' ';
        assert t[..|body|][i] == ' ' && t[width - |body|..][i] == ' ';
      }
    }
  }

  /** The part of a string that the precision lets through. */
  function AskedPart(s: string, r: Reading): string
  {
    if r.precision.Given? && r.precision.n < |s| then s[..r.precision.n] else s
  }

  /** A string argument ends before its first NUL. */
  lemma {:induction false} CStringIs(s: string)
    ensures var t := CString(s); t <= s && '\0' !in t && (|t| < |s| ==> s[|t|] == '\0')
    decreases |s|
  {
    if s != [] && s[0] != '\0' {
      CStringIs(s[1..]);
      assert s == [s[0]] + s[1..];
    }
  }

  /** %s, for width and precision that fit unsigned int: the text is the one of section 7.19.6.1 of C99, except for
      a negative star as precision. Then nothing but spaces is written. */
  lemma StringDirective(f: string, i: nat, args: seq<Arg>, j: nat, rt: RealText)
    ensures var d, r := Parse(f, i, args, j), Read(f, i, args, j);
      var s := if d.arg < |args| && args[d.arg].Str? then CString(args[d.arg].s) else "";
      Represented(r) ==>
        (IsField(Conversion('s', d, args, rt), AskedPart(s, r), r.width, r.flags.left) <==>
          !NegativeStar(f, i, args, j) || (AllSpaces(s) && |s| <= r.width))
  {
    hide Parse, Read, NegativeStar, IsField, StrConversion, AskedPart, AllSpaces, Represented, CString;
    StringText(f, i, args, j, StrArg(args, Parse(f, i, args, j).arg));
  }

  lemma StringText(f: string, i: nat, args: seq<Arg>, j: nat, s: string)
    ensures var d, r := Parse(f, i, args, j), Read(f, i, args, j);
      Represented(r) ==>
        (IsField(StrConversion(d, s), AskedPart(s, r), r.width, r.flags.left) <==>
          !NegativeStar(f, i, args, j) || (AllSpaces(s) && |s| <= r.width))
  {
    var d, r := Parse(f, i, args, j), Read(f, i, args, j);
    ParseReads(f, i, args, j);
    hide Parse, Read, NegativeStar, IsField, Field;
    if Represented(r) {
      SmallMod(r.width);
      SmallMod(AskedPrecision(r));
      if NegativeStar(f, i, args, j) {
        SpacesField(s, r.width, r.flags.left);
        assert s[..0] == "";
      } else {
        FieldIs(AskedPart(s, r), r.width, r.flags.left);
        assert s[..|s|] == s;
      }
    }
  }

  lemma SmallMod(n: nat)
    requires n < UINT
    ensures n % UINT == n
  {
  }

  /** %c: the argument as unsigned char. */
  lemma CharDirective(f: string, i: nat, args: seq<Arg>, j: nat, rt: RealText)
    ensures var d, r := Parse(f, i, args, j), Read(f, i, args, j);
      Represented(r) ==>
        IsField(Conversion('c', d, args, rt), [(IntArg(args, d.arg) % 256) as char], r.width, r.flags.left)
  {
    var d, r := Parse(f, i, args, j), Read(f, i, args, j);
    ParseReads(f, i, args, j);
    hide Parse, Read, NegativeStar, IsField, Field;
    if Represented(r) {
      SmallMod(r.width);
      FieldIs([(IntArg(args, d.arg) % 256) as char], r.width, r.flags.left);
    }
  }

  lemma PointerArranged(digits: string, fl: Flags)
    requires !fl.left && fl.zeropad && !fl.precision
    ensures Arranged("", digits, 0, 16, fl) == Repeat('0', 16 - |digits|) + digits && Fits("", digits, 0, 16, fl)
  {
    assert Repeat('0', 0 - |digits|) + digits == digits;
  }

  lemma PointerParts(v: nat, fl: Flags)
    requires fl.upper && !fl.precision && !fl.plus && !fl.space
    ensures DigitsOf(v, 16, fl) == Numeral(v, 16, true) && Sign(false, fl) == ""
  {
    hide Numeral;
  }

  lemma PointerText(v: nat, fl: Flags)
    requires v < ULONG && !fl.left && fl.zeropad && !fl.precision && !fl.hash && fl.upper && !fl.plus && !fl.space
    ensures var digits := Numeral(v, 16, true);
      IntText(v, false, 16, 0, 16, fl) == Repeat('0', 16 - |digits|) + digits
  {
    hide IntText, Numeral, Arranged, Fits, Repeat, Sign, DigitsOf;
    PointerArranged(Numeral(v, 16, true), fl);
    PointerParts(v, fl);
    StandardText(v, false, 16, 0, 16, fl);
  }

  /** %p without flags and precision: all 64 bits, as 16 hexadecimal digits in capitals. */
  lemma PointerDirective(d: Directive, args: seq<Arg>, rt: RealText)
    requires d.flags == NO_FLAGS && d.precision == 0
    ensures var digits := Numeral(IntArg(args, d.arg) % ULONG, 16, true);
      Conversion('p', d, args, rt) == Repeat('0', 16 - |digits|) + digits
  {
    var n := IntArg(args, d.arg);
    hide IntText, Numeral, Repeat;
    PointerText(Wrap(n, ULONG), d.flags.(zeropad := true, upper := true));
  }

  lemma BinaryIs(value: nat, fl: Flags)
    requires !fl.precision && !fl.hash && !fl.upper
    ensures IntText(value, false, 2, 0, 0, fl) ==
      FormatText(Digits(value, 2, false, ROOM), false, 2, 0, 0, fl.(hash := false))
  {
    hide FormatText, Digits;
  }

  lemma DigitsTwo(value: nat)
    ensures Denote(Digits(value, 2, false, ROOM), 2) == value % 0x1_0000_0000
  {
    hide Digits, Denote, Pow;
    DigitsDenote(value, 2, false, ROOM);
    PowTwo();
  }

  lemma BackAgain(s: string)
    ensures Reverse(Reverse(s)) == s
  {
  }

  lemma BinaryText(value: nat, fl: Flags)
    requires Plain(fl) == NO_FLAGS
    ensures var t := IntText(value, false, 2, 0, 0, fl);
      |t| <= ROOM && Denote(Reverse(t), 2) == value % 0x1_0000_0000
  {
    PlainIs(fl);
    hide Digits, Denote, Pow, Plain, FormatText, IntText, Reverse;
    var digits := Digits(value, 2, false, ROOM);
    DigitsTwo(value);
    BinaryIs(value, fl);
    BareFormat(digits, fl.(hash := false));
    BackAgain(digits);
  }

  lemma BareFormat(digits: string, fl: Flags)
    requires !fl.zeropad && !fl.left && !fl.plus && !fl.space && !fl.hash
    ensures FormatText(digits, false, 2, 0, 0, fl) == Reverse(digits)
  {
    assert Padded(digits, 0, 0, fl) == digits;
    assert Repeat(' ', 0 - |digits|) + Reverse(digits) + "" == Reverse(digits);
  }

  /** %b without flags, width and precision: at most the lowest 32 bits are written, whatever the length. */
  lemma BinaryDirective(d: Directive, args: seq<Arg>, rt: RealText)
    requires d.precision == 0 && d.width == 0 && Plain(d.flags) == NO_FLAGS
    ensures var t := Conversion('b', d, args, rt);
      |t| <= ROOM && Denote(Reverse(t), 2) == IntArg(args, d.arg) % SizeOf(d.flags) % 0x1_0000_0000
  {
    var n := IntArg(args, d.arg);
    hide IntText, SizeOf, Reverse, Denote, Wrap, Plain, IntFlags;
    BinaryFlags(d.flags);
    BinaryText(Wrap(n, SizeOf(d.flags)), IntFlags('b', d.flags));
    WrapIs(n, SizeOf(d.flags));
  }

  /** With '#' and room for it, "0b" stands before the digits of a value other than zero. */
  lemma BinaryHash(value: nat, fl: Flags)
    requires value > 0 && Plain(fl) == NO_FLAGS.(hash := true) && |Digits(value, 2, false, ROOM)| <= ROOM - 2
    ensures IntText(value, false, 2, 0, 0, fl) == "0b" + Reverse(Digits(value, 2, false, ROOM))
  {
    var digits := Digits(value, 2, false, ROOM);
    HashedFlags(fl);
    hide Digits, Plain;
    HashFormat(digits, fl.(hash := true));
    assert fl.(hash := true) == fl;
    hide FormatText;
  }

  lemma HashedFlags(fl: Flags)
    requires Plain(fl) == NO_FLAGS.(hash := true)
    ensures !fl.zeropad && !fl.left && !fl.plus && !fl.space && fl.hash && !fl.upper && !fl.precision
  {
    PlainKeeps(fl, NO_FLAGS.(hash := true));
  }

  lemma HashFormat(digits: string, fl: Flags)
    requires 0 < |digits| <= ROOM - 2
    requires !fl.zeropad && !fl.left && !fl.plus && !fl.space && fl.hash && !fl.precision
    ensures FormatText(digits, false, 2, 0, 0, fl) == "0b" + Reverse(digits)
  {
    var h := digits + ['b'] + ['0'];
    assert digits[..|digits|] == digits;
    assert Padded(digits, 0, 0, fl) == digits && Prefixed(digits, 2, 0, 0, fl) == h;
    assert Reverse(h) == "0b" + Reverse(digits);
    assert Repeat(' ', 0 - |h|) + Reverse(h) + "" == Reverse(h);
  }

  lemma WrapIs(n: int, size: nat)
    requires size > 0
    ensures Wrap(n, size) == n % size
  {
  }

  lemma BinaryFlags(fl: Flags)
    requires Plain(fl) == NO_FLAGS
    ensures Plain(IntFlags('b', fl)) == NO_FLAGS && SizeOf(IntFlags('b', fl)) == SizeOf(fl)
  {
    SizeKept('b', fl);
    IntFields('b', fl);
    PlainIs(fl);
    hide IntFlags, SizeOf;
    var gl := IntFlags('b', fl);
    assert !gl.zeropad && !gl.left && !gl.plus && !gl.space && !gl.hash && !gl.upper && !gl.precision;
  }

  lemma PlainIs(fl: Flags)
    ensures Plain(fl) == NO_FLAGS <==>
      !fl.zeropad && !fl.left && !fl.plus && !fl.space && !fl.hash && !fl.upper && !fl.precision
  {
  }

  lemma PowTwo()
    ensures Pow(2, ROOM) == 0x1_0000_0000
  {
    assert Pow(2, 4) == 16;
    PowAdd(2, 4, 4);
    PowAdd(2, 8, 8);
    PowAdd(2, 16, 16);
  }

  /** The letters of the conversions. */
  lemma Letters(c: char)
    ensures IsInt(c) <==> c in "diuoxXb"
    ensures IsReal(c) <==> c in "fFeEgG"
    ensures TakesArg(c) <==> c in "diuxXobfFeEgGcsp"
  {
  }

  /** Capitals for F, E and G. */
  lemma RealCapitals(c: char, d: Directive, args: seq<Arg>, rt: RealText)
    requires c in "fFeEgG" && !d.flags.upper
    ensures Conversion(c, d, args, rt) ==
      rt(c, d.flags.(upper := c in "FEG"), d.precision, d.width, AnyArg(args, d.arg))
  {
    Letters(c);
    assert d.flags.(upper := false) == d.flags;
  }

  /** Any other letter stands for itself, and so does the second '%'. */
  lemma OtherLetter(c: char, d: Directive, args: seq<Arg>, rt: RealText)
    requires c !in "diuxXobfFeEgGcsp"
    ensures Conversion(c, d, args, rt) == [c]
  {
    Letters(c);
    hide IsInt, IsReal;
    assert 'c' in "diuxXobfFeEgGcsp" && 's' in "diuxXobfFeEgGcsp" && 'p' in "diuxXobfFeEgGcsp";
  }

  // ----- whole formats

  predicate Ordinary(s: string) { forall i :: 0 <= i < |s| ==> s[i] != '%' && s[i] != '\0' }

  lemma TextStep(f: string, i: nat, args: seq<Arg>, j: nat, rt: RealText)
    requires At(f, i) != '%' && At(f, i) != '\0'
    ensures Text(f, i, args, j, rt) == [At(f, i)] + Text(f, i + 1, args, j, rt)
  {
    hide Parse, Conversion, TakesArg;
  }

  lemma TextDirective(f: string, i: nat, args: seq<Arg>, j: nat, rt: RealText)
    requires At(f, i) == '%'
    ensures var d := Parse(f, i + 1, args, j); var c := At(f, d.at);
      Text(f, i, args, j, rt) == Conversion(c, d, args, rt)
        + Text(f, d.at + 1, args, if TakesArg(c) then d.arg + 1 else d.arg, rt)
  {
    hide Parse, Conversion, TakesArg;
  }

  lemma Grow(s: string, c: char, t: string, rest: string)
    requires s == [c] + t
    ensures [c] + (t + rest) == s + rest
  {
  }

  /** Characters that start no directive are written as they are. */
  lemma {:induction false} OrdinaryText(f: string, i: nat, s: string, args: seq<Arg>, j: nat, rt: RealText)
    requires i + |s| <= |f| && f[i..i + |s|] == s && Ordinary(s)
    ensures Text(f, i, args, j, rt) == s + Text(f, i + |s|, args, j, rt)
    decreases |s|
  {
    hide Text;
    if s == "" {
      assert "" + Text(f, i, args, j, rt) == Text(f, i, args, j, rt);
    } else {
      var t := s[1..];
      AtIn(f, i, s, 0);
      assert f[i + 1..i + 1 + |t|] == t by { assert f[i..i + |s|][1..] == t; }
      TextStep(f, i, args, j, rt);
      OrdinaryText(f, i + 1, t, args, j, rt);
      Grow(s, s[0], t, Text(f, i + |s|, args, j, rt));
    }
  }

  lemma PercentAt(f: string, before: string, rest: string)
    requires f == before + "%" + rest
    ensures f[0..|before|] == before && At(f, |before|) == '%'
  {
  }

  /** A format of ordinary characters, a directive, and more: these characters, the conversion of the argument that
      follows those of the stars, and the text of the rest with the arguments after it. */
  lemma FormatPieces(before: string, w: Written, c: char, after: string, args: seq<Arg>, j: nat, rt: RealText)
    requires Ordinary(before) && w.Valid() && EndsDirective(c)
    ensures var f := before + "%" + w.Raw() + [c] + after;
      var at := |before| + 1 + |w.Raw()|;
      var d := Directive(w.FlagsOf(args, j), w.WidthOf(args, j), w.PrecisionOf(args, j), at, j + w.Args());
      Text(f, 0, args, j, rt) == before + (Conversion(c, d, args, rt)
        + Text(f, at + 1, args, if c in "diuxXobfFeEgGcsp" then d.arg + 1 else d.arg, rt))
  {
    hide Text, Conversion, TakesArg, Written.FlagsOf, Written.WidthOf, Written.PrecisionOf, Written.Args, Written.Raw;
    hide Written.Valid, EndsDirective, Parse, At, Ordinary;
    var f := before + "%" + w.Raw() + [c] + after;
    assert f == before + "%" + (w.Raw() + [c] + after) && f == (before + "%") + w.Raw() + [c] + after;
    PercentAt(f, before, w.Raw() + [c] + after);
    OrdinaryText(f, 0, before, args, j, rt);
    WrittenIsParsed(before + "%", w, c, after, args, j);
    TextDirective(f, |before|, args, j, rt);
    Letters(c);
  }
}
