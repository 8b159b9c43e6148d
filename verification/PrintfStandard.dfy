/** Integer conversions against section 7.19.6.1 of C99: exactly which flags, widths and precisions
    are formatted as the standard says. */
module PrintfStandard {
  import opened PrintfDigits
  import opened PrintfSpec

  /** The character of a digit. */
  function Figure(d: nat, upper: bool): char
    requires d < 16
  {
    if upper then "0123456789ABCDEF"[d] else "0123456789abcdef"[d]
  }

  lemma FigureIs(d: nat, upper: bool)
    requires d < 16
    ensures Figure(d, upper) == DigitChar(d, upper)
  {
  }

  /** The digits of a value, the highest first. */
  function Numeral(value: nat, base: nat, upper: bool): string
    requires 2 <= base <= 16
  {
    (if value < base then "" else Numeral(value / base, base, upper)) + [Figure(value % base, upper)]
  }

  function Sign(negative: bool, fl: Flags): (s: string)
    ensures |s| <= 1
  {
    if negative then "-" else if fl.plus then "+" else if fl.space then " " else ""
  }

  /** No digits for zero with a precision: the precision then brings all of them. */
  function DigitsOf(value: nat, base: nat, fl: Flags): string
    requires 2 <= base <= 16
  {
    if fl.precision && value == 0 then "" else Numeral(value, base, fl.upper)
  }

  /** Sign, zeros for the precision, digits, and padding on one of three sides. */
  function Arranged(sign: string, digits: string, prec: nat, width: nat, fl: Flags): string
  {
    var number := Repeat('0', prec - |digits|) + digits;
    var gap := width - |sign| - |number|;
    if fl.left then sign + number + Repeat(' ', gap)
    else if fl.zeropad && !fl.precision then sign + Repeat('0', gap) + number
    else Repeat(' ', gap) + sign + number
  }

  /** The standard's text for d, i, u, o, x and X without '#'. */
  function Standard(value: nat, negative: bool, base: nat, prec: nat, width: nat, fl: Flags): string
    requires 2 <= base <= 16
  {
    Arranged(Sign(negative, fl), DigitsOf(value, base, fl), prec, width, fl)
  }

  /** When the source agrees: with '-' no zeros may be needed for the precision; otherwise zeros and
      sign must fit the conversion buffer, unless the sign is a space that padding replaces. */
  predicate Fits(sign: string, digits: string, prec: nat, width: nat, fl: Flags)
  {
    if fl.left then prec <= |digits|
    else if fl.zeropad && !fl.precision then width - |sign| < ROOM || (width == ROOM && sign == "")
    else prec < ROOM || (prec == ROOM && (sign == "" || (sign == " " && width > ROOM)))
  }

  /** Flags that the standard does not distinguish for these conversions. */
  predicate Alike(fl: Flags, gl: Flags)
  {
    && fl.left == gl.left && fl.plus == gl.plus && fl.space == gl.space && fl.upper == gl.upper
    && fl.precision == gl.precision && (fl.precision || fl.zeropad == gl.zeropad)
  }

  lemma SameArranged(sign: string, digits: string, prec: nat, width: nat, fl: Flags, gl: Flags)
    requires Alike(fl, gl)
    ensures Arranged(sign, digits, prec, width, fl) == Arranged(sign, digits, prec, width, gl)
    ensures Fits(sign, digits, prec, width, fl) == Fits(sign, digits, prec, width, gl)
  {
  }

  lemma SameParts(value: nat, negative: bool, base: nat, fl: Flags, gl: Flags)
    requires 2 <= base <= 16 && Alike(fl, gl)
    ensures Sign(negative, fl) == Sign(negative, gl) && DigitsOf(value, base, fl) == DigitsOf(value, base, gl)
  {
    hide Numeral;
  }

  lemma SameStandard(value: nat, negative: bool, base: nat, prec: nat, width: nat, fl: Flags, gl: Flags)
    requires 2 <= base <= 16 && Alike(fl, gl)
    ensures Standard(value, negative, base, prec, width, fl) == Standard(value, negative, base, prec, width, gl)
    ensures Fits(Sign(negative, fl), DigitsOf(value, base, fl), prec, width, fl) ==
      Fits(Sign(negative, gl), DigitsOf(value, base, gl), prec, width, gl)
  {
    hide Arranged, Fits, Sign, DigitsOf;
    SameParts(value, negative, base, fl, gl);
    SameArranged(Sign(negative, fl), DigitsOf(value, base, fl), prec, width, fl, gl);
  }

  // ----- the digits

  lemma {:induction false} DigitsNumeral(value: nat, base: nat, upper: bool, room: nat)
    requires 2 <= base <= 16 && value < Pow(base, room)
    ensures value > 0 || room > 0 ==> Reverse(Digits(value, base, upper, room)) == Numeral(value, base, upper)
    decreases room
  {
    if room > 0 {
      hide Figure, DigitChar;
      var rest := value / base;
      DivMod(value, base);
      Quotient(value, base, Pow(base, room - 1));
      DigitsHead(value, rest, base, upper, room, Digits(rest, base, upper, room - 1));
      DigitsNumeral(rest, base, upper, room - 1);
      QuotientZero(value, base);
      FigureIs(value % base, upper);
      var s := Digits(value, base, upper, room);
      ReverseCons(s);
      hide Reverse, Pow;
      NumeralIs(value, rest, base, upper);
    }
  }

  lemma NumeralIs(value: nat, rest: nat, base: nat, upper: bool)
    requires 2 <= base <= 16 && rest == value / base && (rest == 0 <==> value < base)
    ensures Numeral(value, base, upper) ==
      (if rest == 0 then "" else Numeral(rest, base, upper)) + [Figure(value % base, upper)]
  {
    hide Figure;
  }

  lemma Quotient(v: nat, b: nat, m: nat)
    requires b > 0 && v < b * m
    ensures v / b < m
  {
    DivMod(v, b);
    if v / b >= m { MulMono(b, m, v / b); }
  }

  lemma QuotientZero(v: nat, b: nat)
    requires b > 0
    ensures v / b == 0 <==> v < b
  {
    DivMod(v, b);
    if v / b >= 1 { MulMono(b, 1, v / b); }
  }

  lemma ReverseCons<T>(s: seq<T>)
    requires s != []
    ensures Reverse(s) == Reverse(s[1..]) + [s[0]]
  {
  }

  /** At most 22 digits for a 64-bit value in base 8 or more. */
  lemma {:induction false} FewDigits(value: nat, base: nat, upper: bool, k: nat)
    requires 8 <= base <= 16 && k > 0 && value < Pow(8, k)
    ensures 0 < |Numeral(value, base, upper)| <= k
    decreases k
  {
    QuotientZero(value, base);
    if value >= base {
      DivMod(value, base);
      MulLess(8, base, value / base);
      Quotient8(value, value / base, Pow(8, k - 1));
      FewDigits(value / base, base, upper, k - 1);
    }
  }

  lemma MulLess(a: nat, b: nat, x: nat)
    requires a <= b
    ensures a * x <= b * x
  {
  }

  lemma Quotient8(v: nat, q: nat, m: nat)
    requires 8 * q <= v < 8 * m
    ensures q < m
  {
  }

  lemma BigPow8()
    ensures Pow(8, 22) >= ULONG
  {
    assert Pow(8, 4) == 4096;
    PowAdd(8, 4, 4);
    PowAdd(8, 8, 8);
    PowAdd(8, 16, 4);
    PowAdd(8, 20, 2);
    assert Pow(8, 2) == 64;
  }

  lemma {:induction false} PowMono(a: nat, b: nat, n: nat)
    requires 0 < a <= b
    ensures Pow(a, n) <= Pow(b, n)
    decreases n
  {
    if n > 0 {
      PowMono(a, b, n - 1);
      MulMono(a, Pow(a, n - 1), Pow(b, n - 1));
      MulLess(a, b, Pow(b, n - 1));
    }
  }

  lemma {:induction false} PowGrows(a: nat, m: nat, n: nat)
    requires a > 0 && m <= n
    ensures Pow(a, m) <= Pow(a, n)
    decreases n
  {
    if m < n {
      PowGrows(a, m, n - 1);
      PowPositive(a, n - 1);
      MulLess(1, a, Pow(a, n - 1));
    }
  }

  /** What the conversion buffer holds for a 64-bit value: all of its digits, fewer than fit. */
  lemma BufferDigits(value: nat, base: nat, upper: bool)
    requires 8 <= base <= 16 && value < ULONG
    ensures Reverse(Digits(value, base, upper, ROOM)) == Numeral(value, base, upper)
    ensures 0 < |Numeral(value, base, upper)| <= 22
    ensures value > 0 ==> Numeral(value, base, upper)[0] != '0'
  {
    BigPow8();
    PowGrows(8, 22, ROOM);
    PowMono(8, base, ROOM);
    DigitsNumeral(value, base, upper, ROOM);
    FewDigits(value, base, upper, 22);
    if value > 0 { FirstDigit(value, base, upper); }
  }

  lemma {:induction false} FirstDigit(value: nat, base: nat, upper: bool)
    requires 2 <= base <= 16 && value > 0
    ensures Numeral(value, base, upper) != [] && Numeral(value, base, upper)[0] != '0'
    decreases value
  {
    if value < base {
      Small(value, base);
    } else {
      QuotientZero(value, base);
      FirstDigit(value / base, base, upper);
    }
  }

  // ----- the source's text, the highest digit first

  lemma ReverseZeros(buf: string, k: int)
    ensures Reverse(buf + Repeat('0', k)) == Repeat('0', k) + Reverse(buf)
  {
  }

  /** A sign is written if there is room for it. */
  lemma ReverseSigned(buf: string, negative: bool, fl: Flags)
    ensures Reverse(Signed(buf, negative, fl)) == (if |buf| < ROOM then Sign(negative, fl) else "") + Reverse(buf)
    ensures |Signed(buf, negative, fl)| == |buf| + if |buf| < ROOM then |Sign(negative, fl)| else 0
  {
  }

  lemma SourceLeft(buf: string, negative: bool, base: nat, prec: nat, width: nat, fl: Flags)
    requires |buf| < ROOM && !fl.hash && fl.left
    ensures var sign := Sign(negative, fl);
      FormatText(buf, negative, base, prec, width, fl) == sign + Reverse(buf) + Repeat(' ', width - |sign| - |buf|)
  {
    ReverseSigned(buf, negative, fl);
  }

  lemma SourceZero(buf: string, negative: bool, base: nat, width: nat, fl: Flags)
    requires |buf| < ROOM && !fl.hash && !fl.left && fl.zeropad
    ensures var s := |Sign(negative, fl)|;
      var w := if width > 0 then width - s else 0;
      var number := Repeat('0', Min(w, ROOM) - |buf|) + Reverse(buf);
      FormatText(buf, negative, base, 0, width, fl) == (if |number| < ROOM then Sign(negative, fl) else "") + number
  {
    var w := WidthLeft(negative, width, fl);
    assert w == if width > 0 then width - |Sign(negative, fl)| else 0;
    var b := ZeroPad(buf, w);
    assert ZeroPad(buf, 0) == buf;
    assert Padded(buf, 0, w, fl) == b;
    ReverseZeros(buf, Min(w, ROOM) - |buf|);
    hide Reverse, Sign, Signed, Padded, WidthLeft, Repeat;
    ReverseSigned(b, negative, fl);
    BareText(Signed(b, negative, fl), w, fl);
  }

  lemma BareText(buf: string, width: nat, fl: Flags)
    requires !fl.left && fl.zeropad
    ensures RevText(buf, width, fl) == Reverse(buf)
  {
  }

  lemma SourcePlain(buf: string, negative: bool, base: nat, prec: nat, width: nat, fl: Flags)
    requires |buf| < ROOM && !fl.hash && !fl.left && !fl.zeropad
    ensures var number := Repeat('0', Min(prec, ROOM) - |buf|) + Reverse(buf);
      var body := (if |number| < ROOM then Sign(negative, fl) else "") + number;
      FormatText(buf, negative, base, prec, width, fl) == Repeat(' ', width - |body|) + body
  {
    var b := ZeroPad(buf, prec);
    ReverseZeros(buf, Min(prec, ROOM) - |buf|);
    ReverseSigned(b, negative, fl);
  }

  // ----- when the two texts agree

  /** With '-': sign, digits, spaces. */
  lemma LeftCase(sign: string, digits: string, prec: nat, width: nat, fl: Flags, ours: string)
    requires |sign| <= 1 && |digits| < ROOM && (digits != [] && prec > |digits| ==> digits[0] != '0') && fl.left
    requires ours == sign + digits + Repeat(' ', width - |sign| - |digits|)
    ensures ours == Arranged(sign, digits, prec, width, fl) <==> Fits(sign, digits, prec, width, fl)
  {
    var number := Repeat('0', prec - |digits|) + digits;
    var theirs := sign + number + Repeat(' ', width - |sign| - |number|);
    assert theirs == Arranged(sign, digits, prec, width, fl);
    if prec <= |digits| {
      assert number == digits;
    } else {
      assert |theirs| > |sign| && theirs[|sign|] == '0';
      if digits != [] {
        assert ours[|sign|] == digits[0];
      } else if width > |sign| {
        assert ours[|sign|] == ' ';
      } else {
        assert |ours| == |sign|;
      }
    }
  }

  /** With '0' and no precision: sign, zeros, digits. */
  lemma ZeroCase(sign: string, digits: string, width: nat, fl: Flags, ours: string)
    requires |sign| <= 1 && 0 < |digits| < ROOM && !fl.left && fl.zeropad && !fl.precision
    requires var w := if width > 0 then width - |sign| else 0;
      var number := Repeat('0', Min(w, ROOM) - |digits|) + digits;
      ours == (if |number| < ROOM then sign else "") + number
    ensures ours == Arranged(sign, digits, 0, width, fl) <==> Fits(sign, digits, 0, width, fl)
  {
    FitsZero(sign, digits, width, fl);
    ArrangedZero(sign, digits, width, fl);
    hide Arranged, Fits;
    var w := if width > 0 then width - |sign| else 0;
    if width - |sign| < ROOM {
      ZeroShort(sign, digits, width, w, ours);
    } else {
      ZeroLong(sign, digits, width, ours);
    }
  }

  lemma ArrangedZero(sign: string, digits: string, width: nat, fl: Flags)
    requires !fl.left && fl.zeropad && !fl.precision
    ensures Arranged(sign, digits, 0, width, fl) == sign + Repeat('0', width - |sign| - |digits|) + digits
  {
    assert Repeat('0', 0 - |digits|) + digits == digits;
  }

  lemma ZeroShort(sign: string, digits: string, width: nat, w: nat, ours: string)
    requires |sign| <= 1 && 0 < |digits| < ROOM && width - |sign| < ROOM && w == if width > 0 then width - |sign| else 0
    requires var number := Repeat('0', Min(w, ROOM) - |digits|) + digits;
      ours == (if |number| < ROOM then sign else "") + number
    ensures ours == sign + Repeat('0', width - |sign| - |digits|) + digits
  {
    assert Repeat('0', Min(w, ROOM) - |digits|) == Repeat('0', width - |sign| - |digits|);
  }

  lemma ZeroLong(sign: string, digits: string, width: nat, ours: string)
    requires |sign| <= 1 && 0 < |digits| < ROOM <= width - |sign|
    requires var number := Repeat('0', Min(width - |sign|, ROOM) - |digits|) + digits;
      ours == (if |number| < ROOM then sign else "") + number
    ensures ours == sign + Repeat('0', width - |sign| - |digits|) + digits <==> width == ROOM && sign == ""
  {
    assert |ours| == ROOM;
    if width == ROOM { assert sign == ""; }
  }

  lemma FitsZero(sign: string, digits: string, width: nat, fl: Flags)
    requires !fl.left && fl.zeropad && !fl.precision
    ensures Fits(sign, digits, 0, width, fl) <==> width - |sign| < ROOM || (width == ROOM && sign == "")
  {
  }

  /** Otherwise: spaces, sign, digits with the zeros of the precision. */
  lemma PlainCase(sign: string, digits: string, prec: nat, width: nat, fl: Flags, ours: string)
    requires |sign| <= 1 && |digits| < ROOM && !fl.left && !fl.zeropad
    requires var number := Repeat('0', Min(prec, ROOM) - |digits|) + digits;
      var body := (if |number| < ROOM then sign else "") + number;
      ours == Repeat(' ', width - |body|) + body
    ensures ours == Arranged(sign, digits, prec, width, fl) <==> Fits(sign, digits, prec, width, fl)
  {
    var number := Repeat('0', Min(prec, ROOM) - |digits|) + digits;
    var body := (if |number| < ROOM then sign else "") + number;
    var full := Repeat('0', prec - |digits|) + digits;
    var theirs := Repeat(' ', width - |sign| - |full|) + sign + full;
    assert theirs == Arranged(sign, digits, prec, width, fl) && (|sign| == 0 <==> sign == "");
    if prec < ROOM {
      assert full == number && |number| < ROOM;
      assert ours == theirs;
    } else if prec == ROOM {
      FullCase(sign, number, width);
    } else {
      LongCase(sign, number, full, prec, width);
    }
  }

  /** The buffer is full of digits, and the sign is left out. */
  lemma FullCase(sign: string, number: string, width: nat)
    requires |sign| <= 1 && |number| == ROOM
    ensures Repeat(' ', width - ROOM) + number == Repeat(' ', width - |sign| - ROOM) + sign + number <==>
      |sign| == 0 || (sign == " " && width > ROOM)
  {
    var ours, theirs := Repeat(' ', width - ROOM) + number, Repeat(' ', width - |sign| - ROOM) + sign + number;
    if |sign| == 1 {
      if width > ROOM {
        var k := width - 1 - ROOM;
        assert ours[k] == ' ' && theirs[k] == sign[0];
        if sign == " " { assert Repeat(' ', width - ROOM) == Repeat(' ', k) + sign; }
      } else {
        assert |ours| == ROOM && |theirs| == ROOM + 1;
      }
    } else {
      assert sign == "" && ours == theirs;
    }
  }

  /** More digits than the buffer holds. */
  lemma LongCase(sign: string, number: string, full: string, prec: nat, width: nat)
    requires |sign| <= 1 && |number| == ROOM && |full| == prec > ROOM && full[0] == '0'
    ensures Repeat(' ', width - ROOM) + number != Repeat(' ', width - |sign| - prec) + sign + full
  {
    var ours, theirs := Repeat(' ', width - ROOM) + number, Repeat(' ', width - |sign| - prec) + sign + full;
    if width >= |sign| + prec {
      assert ours[width - prec] == ' ' && theirs[width - prec] == '0';
    } else {
      assert |theirs| == |sign| + prec && |ours| == if width > ROOM then width else ROOM;
    }
  }

  lemma AgreeLeft(buf: string, negative: bool, base: nat, prec: nat, width: nat, fl: Flags)
    requires |buf| < ROOM && !fl.hash && (fl.precision ==> !fl.zeropad) && (!fl.precision ==> prec == 0 && buf != "")
    requires fl.left && (buf != "" && prec > |buf| ==> Reverse(buf)[0] != '0')
    ensures var sign, digits := Sign(negative, fl), Reverse(buf);
      FormatText(buf, negative, base, prec, width, fl) == Arranged(sign, digits, prec, width, fl) <==>
        Fits(sign, digits, prec, width, fl)
  {
    SourceLeft(buf, negative, base, prec, width, fl);
    hide FormatText, Reverse, Sign, Arranged, Fits;
    LeftCase(Sign(negative, fl), Reverse(buf), prec, width, fl, FormatText(buf, negative, base, prec, width, fl));
  }

  lemma AgreeZero(buf: string, negative: bool, base: nat, prec: nat, width: nat, fl: Flags)
    requires |buf| < ROOM && !fl.hash && (fl.precision ==> !fl.zeropad) && (!fl.precision ==> prec == 0 && buf != "")
    requires !fl.left && fl.zeropad
    ensures var sign, digits := Sign(negative, fl), Reverse(buf);
      FormatText(buf, negative, base, prec, width, fl) == Arranged(sign, digits, prec, width, fl) <==>
        Fits(sign, digits, prec, width, fl)
  {
    SourceZero(buf, negative, base, width, fl);
    hide FormatText, Reverse, Sign, Arranged, Fits;
    ZeroCase(Sign(negative, fl), Reverse(buf), width, fl, FormatText(buf, negative, base, prec, width, fl));
  }

  lemma AgreePlain(buf: string, negative: bool, base: nat, prec: nat, width: nat, fl: Flags)
    requires |buf| < ROOM && !fl.hash && (fl.precision ==> !fl.zeropad) && (!fl.precision ==> prec == 0 && buf != "")
    requires !fl.left && !fl.zeropad
    ensures var sign, digits := Sign(negative, fl), Reverse(buf);
      FormatText(buf, negative, base, prec, width, fl) == Arranged(sign, digits, prec, width, fl) <==>
        Fits(sign, digits, prec, width, fl)
  {
    SourcePlain(buf, negative, base, prec, width, fl);
    hide FormatText, Reverse, Sign, Arranged, Fits;
    PlainCase(Sign(negative, fl), Reverse(buf), prec, width, fl, FormatText(buf, negative, base, prec, width, fl));
  }

  lemma Agree(buf: string, negative: bool, base: nat, prec: nat, width: nat, fl: Flags)
    requires |buf| < ROOM && !fl.hash && (fl.precision ==> !fl.zeropad) && (!fl.precision ==> prec == 0 && buf != "")
    requires buf != "" && prec > |buf| ==> Reverse(buf)[0] != '0'
    ensures var sign, digits := Sign(negative, fl), Reverse(buf);
      FormatText(buf, negative, base, prec, width, fl) == Arranged(sign, digits, prec, width, fl) <==>
        Fits(sign, digits, prec, width, fl)
  {
    hide FormatText, Arranged, Fits, Sign, Reverse;
    if fl.left {
      AgreeLeft(buf, negative, base, prec, width, fl);
    } else if fl.zeropad {
      AgreeZero(buf, negative, base, prec, width, fl);
    } else {
      AgreePlain(buf, negative, base, prec, width, fl);
    }
  }

  /** What the conversion buffer holds. */
  function BufferOf(value: nat, base: nat, fl: Flags): string
    requires 2 <= base <= 16
  {
    if !fl.precision || value != 0 then Digits(value, base, fl.upper, ROOM) else ""
  }

  lemma BufferIs(value: nat, base: nat, prec: nat, fl: Flags)
    requires 8 <= base <= 16 && value < ULONG && (!fl.precision ==> prec == 0)
    ensures var buf := BufferOf(value, base, fl);
      && |buf| < ROOM && Reverse(buf) == DigitsOf(value, base, fl) && (!fl.precision ==> buf != "")
      && (buf != "" && prec > |buf| ==> Reverse(buf)[0] != '0')
  {
    BufferDigits(value, base, fl.upper);
    hide Numeral, Digits;
  }

  lemma IntTextIs(value: nat, negative: bool, base: nat, prec: nat, width: nat, fl: Flags)
    requires 2 <= base <= 16 && !fl.hash
    ensures IntText(value, negative, base, prec, width, fl) ==
      FormatText(BufferOf(value, base, fl), negative, base, prec, width, fl.(hash := false))
    ensures fl.(hash := false) == fl
  {
    hide FormatText, Digits;
  }

  /** d, i, u, o, x and X without '#' are formatted as the standard says exactly under the condition. */
  lemma StandardText(value: nat, negative: bool, base: nat, prec: nat, width: nat, fl: Flags)
    requires 8 <= base <= 16 && value < ULONG && !fl.hash && (fl.precision ==> !fl.zeropad)
    requires (!fl.precision ==> prec == 0)
    ensures IntText(value, negative, base, prec, width, fl) == Standard(value, negative, base, prec, width, fl) <==>
      Fits(Sign(negative, fl), DigitsOf(value, base, fl), prec, width, fl)
  {
    hide IntText, FormatText, Reverse, Arranged, Fits, DigitsOf, Sign, BufferOf;
    BufferIs(value, base, prec, fl);
    IntTextIs(value, negative, base, prec, width, fl);
    Agree(BufferOf(value, base, fl), negative, base, prec, width, fl);
  }
}
