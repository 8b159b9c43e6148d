/** The '#' flag: the prefix may take the place of digits, and exactly when the value is lost. */
module PrintfPrefix {
  import opened PrintfDigits
  import opened PrintfSpec
  import opened PrintfStandard

  lemma {:induction false} DenoteAppend(s: string, t: string, base: nat)
    ensures Denote(s + t, base) == Denote(s, base) + Pow(base, |s|) * Denote(t, base)
    decreases |s|
  {
    if s == [] {
      assert s + t == t;
    } else {
      var u := s[1..];
      assert (s + t)[1..] == u + t;
      DenoteAppend(u, t, base);
      NextDigit(s + t, u + t, base);
      NextDigit(s, u, base);
      PowNext(base, |s|);
      hide Denote, Pow;
      Horner(base, Denote(u, base), Pow(base, |u|), Denote(t, base));
    }
  }

  lemma PowNext(base: nat, n: nat)
    requires n > 0
    ensures Pow(base, n) == base * Pow(base, n - 1)
  {
  }

  lemma Horner(b: nat, x: nat, p: nat, d: nat)
    ensures b * (x + p * d) == b * x + (b * p) * d
  {
    assert b * (x + p * d) == b * x + b * (p * d);
  }

  lemma {:induction false} DenoteZeros(n: nat, base: nat)
    ensures Denote(Repeat('0', n), base) == 0
    decreases n
  {
    if n > 0 {
      assert Repeat('0', n)[1..] == Repeat('0', n - 1);
      DenoteZeros(n - 1, base);
    }
  }

  /** Digits that end in a digit other than zero do not denote zero. */
  lemma {:induction false} DenotePositive(s: string, base: nat)
    requires s != [] && base > 0 && DigitValue(s[|s| - 1]) > 0
    ensures Denote(s, base) > 0
    decreases |s|
  {
    if |s| > 1 {
      DenotePositive(s[1..], base);
      MulMono(base, 1, Denote(s[1..], base));
    } else {
      assert s[1..] == [];
    }
  }

  /** Cutting off the highest places keeps the value exactly if they hold no more than zeros. */
  lemma CutValue(digits: string, zeros: nat, k: nat, base: nat)
    requires base > 0 && digits != [] && DigitValue(digits[|digits| - 1]) > 0 && k <= |digits| + zeros
    ensures Denote((digits + Repeat('0', zeros))[..k], base) == Denote(digits, base) <==> k >= |digits|
  {
    DenoteZeros(zeros, base);
    if k >= |digits| {
      assert (digits + Repeat('0', zeros))[..k] == digits + Repeat('0', k - |digits|);
      DenoteZeros(k - |digits|, base);
      DenoteAppend(digits, Repeat('0', k - |digits|), base);
    } else {
      assert (digits + Repeat('0', zeros))[..k] == digits[..k] && digits == digits[..k] + digits[k..];
      DenoteAppend(digits[..k], digits[k..], base);
      DenotePositive(digits[k..], base);
      PowPositive(base, k);
      MulPositive(Pow(base, k), Denote(digits[k..], base));
    }
  }

  lemma MulPositive(a: nat, b: nat)
    requires a > 0 && b > 0
    ensures a * b > 0
  {
  }

  /** Without a precision, digits are given up if they fill the width exactly, or if they would after
      the zeros that '0' adds. n: number of digits; w: the width that is left for them. */
  predicate Loses(n: nat, base: nat, w: nat, fl: Flags)
  {
    && !fl.precision
    && if fl.zeropad && !fl.left then n <= w <= ROOM && w < n + (if base == 16 && w > 1 then 2 else 1) else w == n
  }

  /** The digits that _ntoa_format keeps under '#' denote the value unless they are given up. */
  lemma HashKeepsValue(value: nat, base: nat, prec: nat, w: nat, fl: Flags)
    requires 8 <= base <= 16 && 0 < value < ULONG && (fl.precision ==> !fl.zeropad) && (!fl.precision ==> prec == 0)
    ensures var digits := Digits(value, base, fl.upper, ROOM); var b := Padded(digits, prec, w, fl);
      Denote(b[..Kept(b, base, prec, w, fl)], base) == value <==> !Loses(|digits|, base, w, fl)
  {
    var digits := Digits(value, base, fl.upper, ROOM);
    WholeValue(value, base, fl.upper);
    hide Digits, Denote, DigitValue;
    var b := Padded(digits, prec, w, fl);
    PaddedIs(digits, prec, w, fl);
    KeptIs(digits, base, prec, w, fl);
    CutValue(digits, |b| - |digits|, Kept(b, base, prec, w, fl), base);
  }

  lemma WholeValue(value: nat, base: nat, upper: bool)
    requires 8 <= base <= 16 && 0 < value < ULONG
    ensures var digits := Digits(value, base, upper, ROOM);
      0 < |digits| <= 22 && Denote(digits, base) == value && DigitValue(digits[|digits| - 1]) > 0
  {
    var digits := Digits(value, base, upper, ROOM);
    BufferDigits(value, base, upper);
    BigPow8();
    PowGrows(8, 22, ROOM);
    PowMono(8, base, ROOM);
    DigitsDenote(value, base, upper, ROOM);
    TopDigit(value, base, upper, digits);
    hide Digits, Denote, DigitValue, Pow, Numeral;
    Small(value, Pow(base, ROOM));
    assert |Reverse(digits)| == |digits|;
  }

  lemma KeptIs(digits: string, base: nat, prec: nat, w: nat, fl: Flags)
    requires 0 < |digits| < ROOM && base > 0 && (fl.precision ==> !fl.zeropad) && (!fl.precision ==> prec == 0)
    ensures var b := Padded(digits, prec, w, fl);
      Kept(b, base, prec, w, fl) >= |digits| <==> !Loses(|digits|, base, w, fl)
  {
  }

  lemma PaddedIs(digits: string, prec: nat, w: nat, fl: Flags)
    requires |digits| <= ROOM
    ensures var b := Padded(digits, prec, w, fl); |b| >= |digits| && b == digits + Repeat('0', |b| - |digits|)
  {
  }

  lemma TopDigit(value: nat, base: nat, upper: bool, digits: string)
    requires 8 <= base <= 16 && 0 < value < ULONG && digits == Digits(value, base, upper, ROOM)
    ensures digits != [] && DigitValue(digits[|digits| - 1]) > 0
  {
    BufferDigits(value, base, upper);
    FirstValue(value, base, upper);
    var s := Reverse(digits);
    hide Digits, Numeral, DigitValue;
    assert s[0] == digits[|digits| - 1];
  }

  lemma {:induction false} FirstValue(value: nat, base: nat, upper: bool)
    requires 2 <= base <= 16 && value > 0
    ensures Numeral(value, base, upper) != [] && DigitValue(Numeral(value, base, upper)[0]) > 0
    decreases value
  {
    if value < base {
      Small(value, base);
      DigitRound(value, upper);
    } else {
      QuotientZero(value, base);
      FirstValue(value / base, base, upper);
    }
  }

  /** A width of two, which the digits of 0x12 fill. */
  lemma NoDigitKept()
    ensures IntText(0x12, false, 16, 0, 2, NO_FLAGS.(hash := true)) == "0x"
  {
    var fl := NO_FLAGS.(hash := true);
    assert Digits(0x12, 16, false, ROOM) == "21" by {
      DigitsHead(0x12, 1, 16, false, ROOM, Digits(1, 16, false, ROOM - 1));
      DigitsHead(1, 0, 16, false, ROOM - 1, Digits(0, 16, false, ROOM - 2));
    }
    hide Digits;
    assert Padded("21", 0, 2, fl) == "21" && Prefixed("21", 16, 0, 2, fl) == "x0";
    assert Reverse("x0") == "0x";
  }
}
