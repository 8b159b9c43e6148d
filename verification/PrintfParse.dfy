/** A directive written from its parts is parsed back. */
module PrintfParse {
  import opened PrintfDigits
  import opened PrintfSpec
  import opened PrintfStandard

  datatype Length = NoLength | H | HH | L | LL | T | J | Z {
    function Raw(): string
    {
      match this
      case NoLength => "" case H => "h" case HH => "hh" case L => "l" case LL => "ll"
      case T => "t" case J => "j" case Z => "z"
    }
  }

  /** A width or precision that is given as a number, by a star, or not at all. */
  datatype Amount = Absent | Number(n: nat) | Star {
    function Raw(): string
    {
      match this case Absent => "" case Number(n) => Numeral(n, 10, false) case Star => "*"
    }

    /** What unsigned int holds of the number, or the int that the star takes. */
    function Value(args: seq<Arg>, j: nat): int
    {
      match this case Absent => 0 case Number(n) => n % UINT case Star => WrapSigned(IntArg(args, j), UINT)
    }

    function Args(): nat { if this.Star? then 1 else 0 }
  }

  /** Flags in any order and any number, a width, a precision after a dot, and a length. */
  datatype Written = Written(flags: string, width: Amount, dot: bool, precision: Amount, length: Length) {
    predicate Valid()
    {
      && (forall k :: 0 <= k < |flags| ==> IsFlag(flags[k]))
      && (width.Number? ==> width.n > 0) && (!dot ==> precision.Absent?)
    }

    function Raw(): string { flags + width.Raw() + (if dot then "." else "") + precision.Raw() + length.Raw() }

    /** Each flag, if it is there; a negative width is a '-' as well. */
    function FlagsOf(args: seq<Arg>, j: nat): Flags
    {
      Flags('0' in flags, '-' in flags || width.Value(args, j) < 0, '+' in flags, ' ' in flags, '#' in flags, false,
            length.HH?, length.H? || length.HH?, !length.NoLength? && !length.H? && !length.HH?, length.LL?, dot)
    }

    function WidthOf(args: seq<Arg>, j: nat): nat
    {
      if width.Value(args, j) < 0 then -width.Value(args, j) else width.Value(args, j)
    }

    /** A negative precision counts as zero. */
    function PrecisionOf(args: seq<Arg>, j: nat): nat
    {
      var p := precision.Value(args, j + width.Args());
      if p < 0 then 0 else p
    }

    function Args(): nat { width.Args() + precision.Args() }
  }

  /** A character that ends a directive. */
  predicate EndsDirective(c: char)
  {
    !IsFlag(c) && !IsDigit(c) && c !in {'.', '*', 'l', 'h', 't', 'j', 'z'}
  }

  ghost predicate AllDigits(s: string) { forall k :: 0 <= k < |s| ==> IsDigit(s[k]) }

  lemma OneMoreDigit(t: string, c: char)
    requires AllDigits(t) && IsDigit(c)
    ensures AllDigits(t + [c])
  {
  }

  lemma {:induction false} NumeralDigits(v: nat)
    ensures var s := Numeral(v, 10, false);
      s != "" && AllDigits(s) && Atoi(s) == v % UINT && (v > 0 ==> s[0] != '0')
    decreases v
  {
    var c, rest := Figure(v % 10, false), v / 10;
    FigureIs(v % 10, false);
    DigitRound(v % 10, false);
    if v > 0 { FirstDigit(v, 10, false); }
    QuotientZero(v, 10);
    assert AllDigits("");
    hide Figure, DigitChar, DigitValue, IsDigit, AllDigits;
    NumeralIs(v, rest, 10, false);
    var t := if v < 10 then "" else Numeral(rest, 10, false);
    if v < 10 { SmallValue(v); } else { NumeralDigits(rest); }
    hide Numeral;
    OneMoreDigit(t, c);
    AtoiLast(t, c);
    if v >= 10 {
      DivMod(v, 10);
      ModStep(rest, v % 10, UINT);
    }
  }

  lemma SmallValue(v: nat)
    requires v < 10
    ensures v % 10 == v && v % UINT == v
  {
  }

  lemma AtoiLast(t: string, c: char)
    ensures Atoi(t + [c]) == (Atoi(t) * 10 + DigitValue(c)) % UINT && Atoi("") == 0
  {
    hide DigitValue;
    assert (t + [c])[..|t|] == t;
  }

  /** Reading a stretch of the format. */
  lemma AtIn(f: string, i: nat, s: string, k: nat)
    requires i + |s| <= |f| && f[i..i + |s|] == s && k < |s|
    ensures At(f, i + k) == s[k]
  {
    assert f[i..i + |s|][k] == f[i + k];
  }

  /** The flags with those in s added. */
  function WithFlags(fl: Flags, s: string): Flags
  {
    fl.(zeropad := fl.zeropad || '0' in s, left := fl.left || '-' in s, plus := fl.plus || '+' in s,
        space := fl.space || ' ' in s, hash := fl.hash || '#' in s)
  }

  lemma ZeroFlag(fl: Flags)
    ensures SetFlag('0', fl) == WithFlags(fl, ['0'])
  {
  }

  lemma LeftFlag(fl: Flags)
    ensures SetFlag('-', fl) == WithFlags(fl, ['-'])
  {
  }

  lemma PlusFlag(fl: Flags)
    ensures SetFlag('+', fl) == WithFlags(fl, ['+'])
  {
  }

  lemma SpaceFlag(fl: Flags)
    ensures SetFlag(' ', fl) == WithFlags(fl, [' '])
  {
  }

  lemma HashFlag(fl: Flags)
    ensures SetFlag('#', fl) == WithFlags(fl, ['#'])
  {
  }

  lemma OneFlag(fl: Flags, c: char)
    requires IsFlag(c)
    ensures SetFlag(c, fl) == WithFlags(fl, [c])
  {
    hide SetFlag, WithFlags;
    ZeroFlag(fl);
    LeftFlag(fl);
    PlusFlag(fl);
    SpaceFlag(fl);
    HashFlag(fl);
  }

  lemma MoreFlags(fl: Flags, c: char, t: string)
    ensures WithFlags(WithFlags(fl, [c]), t) == WithFlags(fl, [c] + t)
  {
    assert forall x :: x in [c] + t <==> x == c || x in t;
  }

  lemma {:induction false} FlagsRead(f: string, i: nat, s: string, fl: Flags)
    requires i + |s| <= |f| && f[i..i + |s|] == s && !IsFlag(At(f, i + |s|))
    requires forall k :: 0 <= k < |s| ==> IsFlag(s[k])
    ensures FlagsEnd(f, i) == i + |s| && FlagsAt(f, i, fl) == WithFlags(fl, s)
    decreases |s|
  {
    hide SetFlag;
    if s != "" {
      var c, t := s[0], s[1..];
      AtIn(f, i, s, 0);
      assert f[i + 1..i + 1 + |t|] == t;
      OneFlag(fl, c);
      hide WithFlags;
      FlagsRead(f, i + 1, t, SetFlag(c, fl));
      MoreFlags(fl, c, t);
      assert s == [c] + t;
    }
  }

  lemma {:induction false} DigitsRead(f: string, i: nat, s: string)
    requires i + |s| <= |f| && f[i..i + |s|] == s && !IsDigit(At(f, i + |s|))
    requires forall k :: 0 <= k < |s| ==> IsDigit(s[k])
    ensures DigitsEnd(f, i) == i + |s|
    decreases |s|
  {
    if s != "" {
      AtIn(f, i, s, 0);
      assert f[i + 1..i + 1 + |s[1..]|] == s[1..];
      DigitsRead(f, i + 1, s[1..]);
    }
  }

  /** A number is read as what unsigned int holds of it. */
  lemma NumberRead(f: string, i: nat, n: nat)
    requires var s := Numeral(n, 10, false); i + |s| <= |f| && f[i..i + |s|] == s && !IsDigit(At(f, i + |s|))
    ensures IsDigit(At(f, i)) && DigitsEnd(f, i) == i + |Numeral(n, 10, false)| && NumberAt(f, i) == n % UINT
  {
    hide Numeral, Figure, Atoi, At;
    var s := Numeral(n, 10, false);
    NumeralDigits(n);
    AtIn(f, i, s, 0);
    DigitsRead(f, i, s);
  }

  lemma WidthRead(f: string, args: seq<Arg>, d: Directive, width: Amount)
    requires var s := width.Raw(); d.at + |s| <= |f| && f[d.at..d.at + |s|] == s
    requires !IsDigit(At(f, d.at + |width.Raw()|)) && (width.Absent? ==> At(f, d.at) != '*') && d.width == 0
    ensures var e, w := WithWidth(f, args, d), width.Value(args, d.arg);
      && e.flags == d.flags.(left := d.flags.left || w < 0) && e.width == (if w < 0 then -w else w)
      && e.precision == d.precision && e.at == d.at + |width.Raw()| && e.arg == d.arg + width.Args()
  {
    if width.Number? { NumberRead(f, d.at, width.n); }
    if width.Star? { AtIn(f, d.at, "*", 0); }
  }

  lemma PrecisionRead(f: string, args: seq<Arg>, d: Directive, dot: bool, precision: Amount)
    requires var s := (if dot then "." else "") + precision.Raw(); d.at + |s| <= |f| && f[d.at..d.at + |s|] == s
    requires var e := d.at + |(if dot then "." else "") + precision.Raw()|;
      !IsDigit(At(f, e)) && At(f, e) != '*' && At(f, e) != '.'
    requires (!dot ==> precision.Absent?) && d.precision == 0 && !d.flags.precision
    ensures var e, p := WithPrecision(f, args, d), precision.Value(args, d.arg);
      && e.flags == d.flags.(precision := dot) && e.width == d.width && e.precision == (if p < 0 then 0 else p)
      && e.at == d.at + |(if dot then "." else "") + precision.Raw()| && e.arg == d.arg + precision.Args()
  {
    if dot {
      DotFirst(f, d.at, precision.Raw());
      DottedRead(f, args, d, precision);
    } else {
      assert d.flags == d.flags.(precision := false);
    }
  }

  lemma DottedRead(f: string, args: seq<Arg>, d: Directive, precision: Amount)
    requires var s := precision.Raw(); d.at + 1 + |s| <= |f| && f[d.at + 1..d.at + 1 + |s|] == s && At(f, d.at) == '.'
    requires var e := d.at + 1 + |precision.Raw()|; !IsDigit(At(f, e)) && At(f, e) != '*'
    requires d.precision == 0 && !d.flags.precision
    ensures var e, p := WithPrecision(f, args, d), precision.Value(args, d.arg);
      && e.flags == d.flags.(precision := true) && e.width == d.width && e.precision == (if p < 0 then 0 else p)
      && e.at == d.at + 1 + |precision.Raw()| && e.arg == d.arg + precision.Args()
  {
    hide Numeral, WrapSigned, IntArg, At;
    if precision.Number? { NumberRead(f, d.at + 1, precision.n); }
    if precision.Star? { AtIn(f, d.at + 1, "*", 0); }
    hide IsDigit;
  }

  lemma DotFirst(f: string, i: nat, t: string)
    requires i + |"." + t| <= |f| && f[i..i + |"." + t|] == "." + t
    ensures At(f, i) == '.' && i + 1 + |t| <= |f| && f[i + 1..i + 1 + |t|] == t
  {
    AtIn(f, i, "." + t, 0);
    assert ("." + t)[1..] == t;
    assert f[i..i + |"." + t|][1..] == f[i + 1..i + 1 + |t|];
  }

  lemma LengthRead(f: string, d: Directive, length: Length)
    requires var s := length.Raw(); d.at + |s| <= |f| && f[d.at..d.at + |s|] == s
    requires EndsDirective(At(f, d.at + |length.Raw()|))
    requires d.flags == d.flags.(charSize := false, shortSize := false, longSize := false, longLong := false)
    ensures WithLength(f, d) == d.(at := d.at + |length.Raw()|, flags := WithModifiers(d.flags, length))
  {
    LengthChars(f, d.at, length);
    hide Length.Raw, At;
    match length
    case NoLength =>
    case H => case HH => case L => case LL => case T => case J => case Z =>
  }

  lemma LengthChars(f: string, i: nat, length: Length)
    requires var s := length.Raw(); i + |s| <= |f| && f[i..i + |s|] == s
    requires EndsDirective(At(f, i + |length.Raw()|))
    ensures |length.Raw()| == (if length.NoLength? then 0 else if length.HH? || length.LL? then 2 else 1)
    ensures match length
      case NoLength => EndsDirective(At(f, i))
      case H => At(f, i) == 'h' && EndsDirective(At(f, i + 1))
      case HH => At(f, i) == 'h' && At(f, i + 1) == 'h'
      case L => At(f, i) == 'l' && EndsDirective(At(f, i + 1))
      case LL => At(f, i) == 'l' && At(f, i + 1) == 'l'
      case T => At(f, i) == 't'
      case J => At(f, i) == 'j'
      case Z => At(f, i) == 'z'
  {
    var s := length.Raw();
    if s != "" { AtIn(f, i, s, 0); }
    if |s| > 1 { AtIn(f, i, s, 1); }
  }
  /** The flags of a length. */
  function WithModifiers(fl: Flags, length: Length): Flags
  {
    fl.(charSize := length.HH?, shortSize := length.H? || length.HH?,
        longSize := !length.NoLength? && !length.H? && !length.HH?, longLong := length.LL?)
  }

  lemma FlagsCome(w: Written, args: seq<Arg>, j: nat)
    ensures var fl := WithFlags(NO_FLAGS, w.flags);
      var gl := fl.(left := fl.left || w.width.Value(args, j) < 0).(precision := w.dot);
      && WithModifiers(gl, w.length) == w.FlagsOf(args, j) && !fl.precision
      && gl == gl.(charSize := false, shortSize := false, longSize := false, longLong := false)
  {
    hide Amount.Value;
  }

  /** The parts in place: flags up to b, the width up to e, the precision up to g, the length up to h. */
  ghost predicate InPlace(f: string, i: nat, w: Written, b: nat, e: nat, g: nat, h: nat)
  {
    var p := (if w.dot then "." else "") + w.precision.Raw();
    && i <= b <= e <= g <= h < |f|
    && f[i..b] == w.flags && f[b..e] == w.width.Raw() && f[e..g] == p && f[g..h] == w.length.Raw()
    && !IsFlag(At(f, b)) && !IsDigit(At(f, e)) && (w.width.Absent? ==> At(f, b) != '*')
    && !IsDigit(At(f, g)) && At(f, g) != '*' && At(f, g) != '.' && EndsDirective(At(f, h))
  }

  lemma InPlaceIsParsed(f: string, i: nat, w: Written, b: nat, e: nat, g: nat, h: nat, args: seq<Arg>, j: nat)
    requires w.Valid() && InPlace(f, i, w, b, e, g, h)
    ensures Parse(f, i, args, j) ==
      Directive(w.FlagsOf(args, j), w.WidthOf(args, j), w.PrecisionOf(args, j), h, j + w.Args())
  {
    FlagsCome(w, args, j);
    hide EndsDirective, WithFlags, WithModifiers, Written.FlagsOf, Amount.Value, Amount.Raw, Length.Raw;
    hide FlagsEnd, FlagsAt, WithWidth, WithPrecision, WithLength, IsFlag, IsDigit, At, Amount.Args;
    FlagsRead(f, i, w.flags, NO_FLAGS);
    var d := Directive(WithFlags(NO_FLAGS, w.flags), 0, 0, b, j);
    WidthRead(f, args, d, w.width);
    var d1 := WithWidth(f, args, d);
    PrecisionRead(f, args, d1, w.dot, w.precision);
    LengthRead(f, WithPrecision(f, args, d1), w.length);
  }

  /** The places of the parts. */
  lemma Parts(f: string, before: string, x: string, y: string, p: string, z: string, c: char, after: string)
    requires f == before + (x + y + p + z) + [c] + after
    ensures var i := |before|; var b := i + |x|; var e := b + |y|; var g := e + |p|; var h := g + |z|;
      h < |f| && f[i..b] == x && f[b..e] == y && f[e..g] == p && f[g..h] == z && f[h] == c
  {
  }

  lemma FirstOf(f: string, k: nat, s: string)
    requires k + |s| <= |f| && f[k..k + |s|] == s && s != ""
    ensures At(f, k) == s[0]
  {
  }

  /** The length, or else the conversion, ends the precision. */
  lemma LengthInPlace(f: string, length: Length, g: nat, c: char)
    requires EndsDirective(c) && g + |length.Raw()| < |f|
    requires f[g..g + |length.Raw()|] == length.Raw() && f[g + |length.Raw()|] == c
    ensures At(f, g + |length.Raw()|) == c && !IsFlag(At(f, g)) && !IsDigit(At(f, g)) && At(f, g) != '*'
    ensures At(f, g) != '.'
  {
    if !length.NoLength? { FirstOf(f, g, length.Raw()); }
  }

  /** The dot, if there is one, ends the width. */
  lemma PrecisionInPlace(f: string, w: Written, e: nat)
    requires var p := (if w.dot then "." else "") + w.precision.Raw();
      w.Valid() && e + |p| < |f| && f[e..e + |p|] == p
      && !IsFlag(At(f, e + |p|)) && !IsDigit(At(f, e + |p|)) && At(f, e + |p|) != '*'
    ensures !IsFlag(At(f, e)) && !IsDigit(At(f, e)) && At(f, e) != '*'
  {
    var p := (if w.dot then "." else "") + w.precision.Raw();
    if w.dot { FirstOf(f, e, p); } else { assert p == ""; }
  }

  /** The width, if there is one, ends the flags. */
  lemma WidthInPlace(f: string, w: Written, b: nat)
    requires w.Valid() && b + |w.width.Raw()| < |f| && f[b..b + |w.width.Raw()|] == w.width.Raw()
    requires var e := b + |w.width.Raw()|; !IsFlag(At(f, e)) && At(f, e) != '*'
    ensures !IsFlag(At(f, b)) && (w.width.Absent? ==> At(f, b) != '*')
  {
    if w.width.Number? { NumeralDigits(w.width.n); }
    if !w.width.Absent? { FirstOf(f, b, w.width.Raw()); }
  }

  lemma RawIs(w: Written)
    ensures w.Raw() == w.flags + w.width.Raw() + ((if w.dot then "." else "") + w.precision.Raw()) + w.length.Raw()
  {
  }

  /** The text of a directive is in place where it stands in a format. */
  lemma PartsInPlace(f: string, before: string, w: Written, c: char, after: string, b: nat, e: nat, g: nat, h: nat)
    requires w.Valid() && EndsDirective(c) && f == before + w.Raw() + [c] + after
    requires b == |before| + |w.flags| && e == b + |w.width.Raw()|
    requires g == e + |(if w.dot then "." else "") + w.precision.Raw()| && h == g + |w.length.Raw()|
    ensures h == |before| + |w.Raw()| && InPlace(f, |before|, w, b, e, g, h) && At(f, h) == c
  {
    hide EndsDirective, Written.Raw, Amount.Raw, Length.Raw, IsFlag, IsDigit, At, Written.Valid;
    RawIs(w);
    Parts(f, before, w.flags, w.width.Raw(), (if w.dot then "." else "") + w.precision.Raw(), w.length.Raw(), c, after);
    LengthInPlace(f, w.length, g, c);
    PrecisionInPlace(f, w, e);
    WidthInPlace(f, w, b);
  }

  /** Wherever a directive stands in a format, its flags, width, precision and length are recovered, and
      its conversion is the character after it. */
  lemma WrittenIsParsed(before: string, w: Written, c: char, after: string, args: seq<Arg>, j: nat)
    requires w.Valid() && EndsDirective(c)
    ensures var f := before + w.Raw() + [c] + after;
      var d := Parse(f, |before|, args, j);
      && d == Directive(w.FlagsOf(args, j), w.WidthOf(args, j), w.PrecisionOf(args, j), |before| + |w.Raw()|,
           j + w.Args())
      && At(f, d.at) == c
  {
    hide EndsDirective, Written.FlagsOf, Written.Raw, Amount.Raw, Length.Raw, Amount.Value, Parse, IsFlag, IsDigit;
    hide At, InPlace, Written.WidthOf, Written.PrecisionOf, Written.Args;
    var f, b := before + w.Raw() + [c] + after, |before| + |w.flags|;
    var e := b + |w.width.Raw()|;
    var g := e + |(if w.dot then "." else "") + w.precision.Raw()|;
    var h := g + |w.length.Raw()|;
    PartsInPlace(f, before, w, c, after, b, e, g, h);
    InPlaceIsParsed(f, |before|, w, b, e, g, h, args, j);
  }

  // ----- an input for which the source and the standard differ

  const LEFT_PRECISION: Flags := NO_FLAGS.(left := true, precision := true)

  lemma ParsedExample(f: string, args: seq<Arg>)
    requires f == "%-5.3d"
    ensures Parse(f, 1, args, 0) == Directive(LEFT_PRECISION, 5, 3, 5, 0) && At(f, 5) == 'd'
  {
    var w := Written("-", Number(5), true, Number(3), NoLength);
    assert Numeral(5, 10, false) == "5" && Numeral(3, 10, false) == "3";
    assert w.Raw() == "-5.3" && "%" + w.Raw() + ['d'] + "" == f;
    assert w.FlagsOf(args, 0) == LEFT_PRECISION by {
      var s := "-";
      assert '0' !in s && '-' in s && '+' !in s && ' ' !in s && '#' !in s;
    }
    hide Parse;
    WrittenIsParsed("%", w, 'd', "", args, 0);
  }

  lemma SevenText()
    ensures IntText(7, false, 10, 3, 5, LEFT_PRECISION) == "7    "
    ensures Standard(7, false, 10, 3, 5, LEFT_PRECISION) == "007  "
  {
    var fl := LEFT_PRECISION;
    assert Numeral(7, 10, false) == "7";
    BufferIs(7, 10, 3, fl);
    IntTextIs(7, false, 10, 3, 5, fl);
    var buf := BufferOf(7, 10, fl);
    hide Reverse, FormatText, IntText, BufferOf;
    SourceLeft(buf, false, 10, 3, 5, fl);
    assert "" + "7" + Repeat(' ', 4) == "7    ";
    assert Repeat('0', 2) + "7" == "007" && "" + "007" + Repeat(' ', 2) == "007  ";
  }

  /** "%-5.3d" of 7: with '-' the source forgets the zeros of the precision, and writes "7    " instead of
      "007  ". */
  lemma LeftPrecisionExample(f: string, rt: RealText)
    requires f == "%-5.3d"
    ensures Text(f, 0, [Int(7)], 0, rt) == "7    "
    ensures var d := Parse(f, 1, [Int(7)], 0);
      Standard(7, false, 10, d.precision, d.width, IntFlags('d', d.flags)) == "007  "
  {
    var args := [Int(7)];
    ParsedExample(f, args);
    SevenText();
    assert IntFlags('d', LEFT_PRECISION) == LEFT_PRECISION && WrapSigned(7, UINT) == 7;
    hide Parse, IntText, Standard, IntFlags;
    var d := Parse(f, 1, args, 0);
    assert IntConversion('d', d, 7) == "7    ";
    assert At(f, 0) == '%' && At(f, 6) == '\0';
    assert Text(f, 6, args, 1, rt) == "";
  }
}
