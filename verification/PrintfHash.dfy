/** The '#' flag of o, x and X against section 7.19.6.1 of C99: exactly which flags, widths and
    precisions are formatted as the standard says. */
module PrintfHash {
  import opened PrintfDigits
  import opened PrintfSpec
  import opened PrintfStandard

  /** What '#' puts before the digits of a value other than zero. */
  function Prefix(base: nat, fl: Flags): string
  {
    if base == 16 then if fl.upper then "0X" else "0x" else "0"
  }

  /** The standard's text under '#': "0x" stands where a sign would, except before zero, and in base 8 the
      precision grows, if it must, until the first digit is a zero. */
  function StandardHash(value: nat, base: nat, prec: nat, width: nat, fl: Flags): string
    requires 2 <= base <= 16
  {
    var digits := DigitsOf(value, base, fl);
    if base == 16 then Arranged(if value == 0 then "" else Prefix(base, fl), digits, prec, width, fl)
    else
      var enough := prec > |digits| || (digits != "" && digits[0] == '0');
      Arranged("", digits, if enough then prec else |digits| + 1, width, fl)
  }

  /** When the source agrees on a value other than zero, for n digits. Without a precision the digits must not
      fill the width exactly, or the zeros of '0' must leave room for the prefix and not for more than the
      buffer holds. With a precision, zeros for it must not be needed with '-', and otherwise fit the buffer;
      in base 8 they would bring the leading zero that the source then writes once more. */
  predicate HashFits(n: nat, base: nat, prec: nat, width: nat, fl: Flags)
  {
    var l := if base == 16 then 2 else 1;
    if !fl.precision then
      if fl.zeropad && !fl.left then width < n || n + l <= width <= ROOM else width != n
    else if fl.left then if base == 16 then prec <= n else prec <= n + 1
    else if base == 16 then prec <= ROOM - 2
    else prec <= n || prec == ROOM
  }

  /** When it agrees: '#' makes no difference for zero, except that "%#.0o" must not write nothing. */
  predicate HashFitsValue(value: nat, base: nat, prec: nat, width: nat, fl: Flags)
    requires 2 <= base <= 16
  {
    if value > 0 then HashFits(|Numeral(value, base, fl.upper)|, base, prec, width, fl)
    else (base == 8 && fl.precision ==> prec > 0) && Fits("", DigitsOf(0, base, fl), prec, width, fl)
  }

  // ----- the source's text

  /** The last k characters. */
  function Last(s: string, k: nat): (t: string)
    requires k <= |s|
    ensures |t| == k
  {
    s[|s| - k..]
  }

  lemma LastAll(s: string)
    ensures Last(s, |s|) == s
  {
  }

  /** The prefix after k digits, as far as the buffer goes. */
  function Written(k: nat, base: nat, fl: Flags): string
  {
    if base != 16 then if k < ROOM then "0" else ""
    else if k + 1 < ROOM then Prefix(base, fl)
    else if k < ROOM then [if fl.upper then 'X' else 'x']
    else ""
  }

  lemma ReverseOne(b: string, c: char)
    ensures Reverse(b + [c]) == [c] + Reverse(b)
  {
  }

  lemma ReverseTake(b: string, k: nat)
    requires k <= |b|
    ensures Reverse(b[..k]) == Last(Reverse(b), k)
  {
  }

  lemma HexWritten(c: string, fl: Flags)
    requires |c| <= ROOM
    ensures var x := if fl.upper then 'X' else 'x';
      Reverse(Append(Append(c, x), '0')) == Written(|c|, 16, fl) + Reverse(c)
  {
    var x := if fl.upper then 'X' else 'x';
    hide Reverse;
    ReverseOne(c, x);
    ReverseOne(c + [x], '0');
    if |c| + 1 < ROOM {
      assert ['0'] + ([x] + Reverse(c)) == Prefix(16, fl) + Reverse(c);
    } else if |c| == ROOM {
      assert "" + Reverse(c) == Reverse(c);
    }
  }

  lemma OctWritten(c: string, fl: Flags)
    requires |c| <= ROOM
    ensures Reverse(Append(c, '0')) == Written(|c|, 8, fl) + Reverse(c)
  {
    hide Reverse;
    ReverseOne(c, '0');
    if |c| == ROOM { assert "" + Reverse(c) == Reverse(c); }
  }

  lemma PrefixedIs(b: string, base: nat, prec: nat, width: nat, fl: Flags)
    requires |b| <= ROOM && (base == 8 || base == 16)
    ensures var k := Kept(b, base, prec, width, fl);
      Reverse(Prefixed(b, base, prec, width, fl)) == Written(k, base, fl) + Reverse(b[..k])
  {
    hide Kept, Reverse, Written, Append;
    var k := Kept(b, base, prec, width, fl);
    assert |b[..k]| == k;
    if base == 16 { HexWritten(b[..k], fl); } else { OctWritten(b[..k], fl); }
  }

  /** The text, from the digits and zeros that are kept. */
  lemma SourceHash(buf: string, base: nat, prec: nat, width: nat, fl: Flags)
    requires |buf| <= ROOM && (base == 8 || base == 16) && fl.hash && !fl.plus && !fl.space
    ensures var b := Padded(buf, prec, width, fl); var k := Kept(b, base, prec, width, fl);
      var body := Written(k, base, fl) + Reverse(b[..k]);
      |b| <= ROOM && FormatText(buf, false, base, prec, width, fl) ==
        (if !fl.left && !fl.zeropad then Repeat(' ', width - |body|) else "") + body
        + (if fl.left then Repeat(' ', width - |body|) else "")
  {
    var b := Padded(buf, prec, width, fl);
    PaddedRoom(buf, prec, width, fl);
    PrefixedIs(b, base, prec, width, fl);
    var h := Prefixed(b, base, prec, width, fl);
    assert WidthLeft(false, width, fl) == width && Signed(h, false, fl) == h;
    assert |Reverse(h)| == |h|;
    hide Padded, Prefixed, Kept, Reverse, Written, WidthLeft, Signed;
  }

  lemma PaddedRoom(buf: string, prec: nat, width: nat, fl: Flags)
    requires |buf| <= ROOM
    ensures |Padded(buf, prec, width, fl)| <= ROOM
  {
  }

  /** How far zeros fill the buffer. */
  function Filled(prec: nat, width: nat, fl: Flags): nat
  {
    if fl.left then 0 else if fl.zeropad then Min(width, ROOM) else Min(prec, ROOM)
  }

  /** The digits of the padded buffer, the highest first. */
  lemma PaddedReversed(buf: string, prec: nat, width: nat, fl: Flags)
    requires |buf| <= ROOM && (fl.precision ==> !fl.zeropad) && (!fl.precision ==> prec == 0)
    ensures Reverse(Padded(buf, prec, width, fl)) == Repeat('0', Filled(prec, width, fl) - |buf|) + Reverse(buf)
  {
    if !fl.left {
      var n := if fl.zeropad then Min(width, ROOM) else Min(prec, ROOM);
      if fl.zeropad { assert ZeroPad(buf, 0) == buf; }
      ReverseZeros(buf, n - |buf|);
    } else {
      assert Repeat('0', 0 - |buf|) == "";
    }
  }

  // ----- when the two texts agree

  /** StandardHash, in terms of the digits. */
  function Hashed(d: string, base: nat, prec: nat, width: nat, fl: Flags): string
  {
    if base == 16 then Arranged(Prefix(base, fl), d, prec, width, fl)
    else Arranged("", d, if prec > |d| then prec else |d| + 1, width, fl)
  }

  /** Prefix and digits, with padding on one of three sides. */
  function Laid(l: string, number: string, width: nat, fl: Flags): string
  {
    var gap := width - |l| - |number|;
    if fl.left then l + number + Repeat(' ', gap)
    else if fl.zeropad && !fl.precision then l + Repeat('0', gap) + number
    else Repeat(' ', gap) + l + number
  }

  lemma ZeroFirst(k: nat)
    ensures Repeat('0', k + 1) == "0" + Repeat('0', k) == Repeat('0', k) + "0"
  {
  }

  lemma HashedHex(d: string, prec: nat, width: nat, fl: Flags)
    ensures Hashed(d, 16, prec, width, fl) == Laid(Prefix(16, fl), Repeat('0', prec - |d|) + d, width, fl)
  {
  }

  lemma OctNumber(d: string, prec: nat)
    ensures Repeat('0', (if prec > |d| then prec else |d| + 1) - |d|) + d == "0" + (Repeat('0', prec - |d| - 1) + d)
  {
    var k := if prec > |d| then prec - |d| - 1 else 0;
    assert Repeat('0', prec - |d| - 1) == Repeat('0', k);
    ZeroFirst(k);
  }

  lemma HashedOct(d: string, prec: nat, width: nat, fl: Flags)
    requires !fl.precision ==> prec == 0
    ensures Hashed(d, 8, prec, width, fl) == Laid("0", Repeat('0', prec - |d| - 1) + d, width, fl)
  {
    OctNumber(d, prec);
    if fl.zeropad && !fl.precision && !fl.left {
      assert Repeat('0', prec - |d| - 1) + d == d;
      GapAcross(d, width - |d| - 1);
    }
  }

  lemma GapAcross(d: string, gap: int)
    ensures Repeat('0', gap) + ("0" + d) == "0" + Repeat('0', gap) + d
  {
    if gap > 0 { ZeroFirst(gap); }
  }

  lemma WrittenLength(k: nat, base: nat, fl: Flags)
    requires base == 8 || base == 16
    ensures |Written(k, base, fl)| <= |Prefix(base, fl)|
    ensures k <= ROOM - 2 ==> Written(k, base, fl) == Prefix(base, fl)
    ensures base == 8 && k <= ROOM - 1 ==> Written(k, base, fl) == Prefix(base, fl)
    ensures k == ROOM ==> Written(k, base, fl) == ""
  {
  }

  lemma LaidPlain(l: string, number: string, width: nat, fl: Flags)
    requires !fl.left && !fl.zeropad
    ensures Laid(l, number, width, fl) == Repeat(' ', width - |l + number|) + (l + number)
  {
  }

  lemma NoZeros(n: int, d: string)
    requires n <= |d|
    ensures Repeat('0', n - |d|) + d == d
  {
  }

  /** Different lengths show, even behind spaces. */
  lemma PadDiffer(x: string, y: string, width: nat)
    requires |x| < |y| && y[0] != ' '
    ensures Repeat(' ', width - |x|) + x != Repeat(' ', width - |y|) + y
  {
    var ours, theirs := Repeat(' ', width - |x|) + x, Repeat(' ', width - |y|) + y;
    if width >= |y| {
      assert ours[width - |y|] == ' ' && theirs[width - |y|] == y[0];
    } else {
      assert |theirs| == |y| && |ours| == if width > |x| then width else |x|;
    }
  }

  lemma PrefixLength(base: nat, fl: Flags)
    requires base == 8 || base == 16
    ensures |Prefix(base, fl)| == (if base == 16 then 2 else 1) && Prefix(base, fl)[0] == '0'
    ensures base == 8 ==> Prefix(base, fl) == "0"
  {
  }

  /** With '-': the zeros of a precision are missing. */
  lemma LeftDigits(l: string, zeros: int, d: string, width: nat)
    requires d != "" && d[0] != '0'
    ensures var ours := l + d + Repeat(' ', width - |l| - |d|);
      var theirs := l + (Repeat('0', zeros) + d) + Repeat(' ', width - |l| - |Repeat('0', zeros) + d|);
      ours == theirs <==> zeros <= 0
  {
    if zeros <= 0 {
      assert Repeat('0', zeros) + d == d;
    } else {
      var ours := l + d + Repeat(' ', width - |l| - |d|);
      var theirs := l + (Repeat('0', zeros) + d) + Repeat(' ', width - |l| - |Repeat('0', zeros) + d|);
      assert ours[|l|] == d[0] && theirs[|l|] == '0';
    }
  }

  /** ours is what SourceHash says, for digits d and the padding z before them, of which k places are kept. */
  lemma LeftHash(base: nat, prec: nat, width: nat, fl: Flags, d: string, k: nat, ours: string)
    requires 0 < |d| <= 22 && d[0] != '0' && (base == 8 || base == 16) && fl.left && (!fl.precision ==> prec == 0)
    requires k == if !fl.precision && width == |d| then if |d| > 1 && base == 16 then |d| - 2 else |d| - 1 else |d|
    requires var body := Written(k, base, fl) + Last(d, k); ours == body + Repeat(' ', width - |body|)
    ensures ours == Hashed(d, base, prec, width, fl) <==> HashFits(|d|, base, prec, width, fl)
  {
    PrefixLength(base, fl);
    if base == 16 { HashedHex(d, prec, width, fl); } else { HashedOct(d, prec, width, fl); }
    var l, zeros := Prefix(base, fl), prec - |d| - (if base == 8 then 1 else 0);
    hide Hashed, Prefix, Last;
    LastAll(d);
    if k < |d| {
      assert |ours| < |l| + |d|;
    } else {
      assert Written(k, base, fl) == l;
      LeftDigits(l, zeros, d, width);
    }
  }

  /** Without '-' and '0', and without a precision. */
  lemma PlainHash(base: nat, width: nat, fl: Flags, d: string, k: nat, ours: string)
    requires 0 < |d| <= 22 && (base == 8 || base == 16) && !fl.left && !fl.zeropad && !fl.precision
    requires k == if width == |d| then if |d| > 1 && base == 16 then |d| - 2 else |d| - 1 else |d|
    requires var body := Written(k, base, fl) + Last(d, k); ours == Repeat(' ', width - |body|) + body
    ensures ours == Hashed(d, base, 0, width, fl) <==> HashFits(|d|, base, 0, width, fl)
  {
    hide Hashed, Prefix, Last, Repeat, Written, Laid;
    PrefixLength(base, fl);
    WrittenLength(k, base, fl);
    NoZeros(0, d);
    NoZeros(-1, d);
    var l := Prefix(base, fl);
    if base == 16 { HashedHex(d, 0, width, fl); } else { HashedOct(d, 0, width, fl); }
    LaidPlain(l, d, width, fl);
    if k < |d| {
      PadDiffer(Written(k, base, fl) + Last(d, k), l + d, width);
    } else {
      LastAll(d);
    }
  }

  /** With a precision: ours has the zeros of it, as far as the buffer goes. */
  lemma PrecisionHash(base: nat, prec: nat, width: nat, fl: Flags, d: string, ours: string)
    requires 0 < |d| <= 22 && (base == 8 || base == 16) && !fl.left && !fl.zeropad && fl.precision
    requires var number := Repeat('0', Min(prec, ROOM) - |d|) + d;
      var body := Written(|number|, base, fl) + number; ours == Repeat(' ', width - |body|) + body
    ensures ours == Hashed(d, base, prec, width, fl) <==> HashFits(|d|, base, prec, width, fl)
  {
    PrefixLength(base, fl);
    var l, number := Prefix(base, fl), Repeat('0', Min(prec, ROOM) - |d|) + d;
    var body := Written(|number|, base, fl) + number;
    LaidPlain(l, Repeat('0', prec - |d|) + d, width, fl);
    LaidPlain(l, Repeat('0', prec - |d| - 1) + d, width, fl);
    hide Laid, Hashed;
    if base == 16 {
      HashedHex(d, prec, width, fl);
      HexPrecision(l, prec, width, d, body, Written(|number|, base, fl));
    } else {
      HashedOct(d, prec, width, fl);
      OctPrecision(prec, width, d, body);
    }
  }

  lemma HexPrecision(l: string, prec: nat, width: nat, d: string, body: string, w: string)
    requires 0 < |d| <= 22 && |l| == 2 && l[0] == '0'
    requires var number := Repeat('0', Min(prec, ROOM) - |d|) + d;
      body == w + number && (|number| <= 30 ==> w == l) && (|number| > 30 ==> |w| == ROOM - |number|)
    ensures var theirs := l + (Repeat('0', prec - |d|) + d);
      Repeat(' ', width - |body|) + body == Repeat(' ', width - |theirs|) + theirs <==> prec <= ROOM - 2
  {
    var theirs := l + (Repeat('0', prec - |d|) + d);
    if prec > ROOM - 2 {
      PadDiffer(body, theirs, width);
    }
  }

  lemma OctPrecision(prec: nat, width: nat, d: string, body: string)
    requires 0 < |d| <= 22
    requires var number := Repeat('0', Min(prec, ROOM) - |d|) + d;
      body == (if |number| < ROOM then "0" else "") + number
    ensures var theirs := "0" + (Repeat('0', prec - |d| - 1) + d);
      Repeat(' ', width - |body|) + body == Repeat(' ', width - |theirs|) + theirs <==> prec <= |d| || prec == ROOM
  {
    var theirs := "0" + (Repeat('0', prec - |d| - 1) + d);
    var number := Repeat('0', Min(prec, ROOM) - |d|) + d;
    if prec <= |d| {
      assert number == d && theirs == "0" + d;
    } else if prec == ROOM {
      ZeroFirst(ROOM - |d| - 1);
      assert body == number == theirs;
    } else if prec < ROOM {
      PadDiffer(theirs, body, width);
    } else {
      PadDiffer(body, theirs, width);
    }
  }

  lemma LaidZero(l: string, zeros: int, d: string, width: nat, fl: Flags)
    requires !fl.left && fl.zeropad && !fl.precision && zeros <= 0
    ensures Laid(l, Repeat('0', zeros) + d, width, fl) == l + Repeat('0', width - |l| - |d|) + d
  {
    assert Repeat('0', zeros) + d == d;
  }

  lemma HashedZero(base: nat, width: nat, fl: Flags, d: string)
    requires (base == 8 || base == 16) && !fl.left && fl.zeropad && !fl.precision
    ensures Hashed(d, base, 0, width, fl) == Prefix(base, fl) + Repeat('0', width - |Prefix(base, fl)| - |d|) + d
  {
    PrefixLength(base, fl);
    var l := Prefix(base, fl);
    hide Hashed, Prefix, Laid, Repeat;
    if base == 16 {
      HashedHex(d, 0, width, fl);
      LaidZero(l, 0 - |d|, d, width, fl);
    } else {
      HashedOct(d, 0, width, fl);
      LaidZero(l, 0 - |d| - 1, d, width, fl);
    }
  }

  /** No room for the prefix and the digits, or more than the buffer holds. */
  lemma ZeroTight(l: string, width: nat, d: string, w: string, x: string)
    requires 0 < |d| <= 22 && 0 < |l| <= 2 && |d| <= width && (width < |d| + |l| || width > ROOM)
    requires |w| + |x| < |d| + |l| || (width > ROOM && |w| + |x| == ROOM)
    ensures w + x != l + Repeat('0', width - |l| - |d|) + d
  {
    assert |w + x| == |w| + |x|;
  }

  /** Room for the prefix, which takes the place of as many zeros. */
  lemma ZeroRoom(l: string, width: nat, d: string, z: string, k: nat)
    requires |d| + |l| <= width && z == Repeat('0', width - |d|) + d && k == width - |l|
    ensures l + Last(z, k) == l + Repeat('0', width - |l| - |d|) + d
  {
    FewerZeros(width - |d|, |l|, d);
    assert l + (Repeat('0', width - |l| - |d|) + d) == l + Repeat('0', width - |l| - |d|) + d;
  }

  lemma ZeroNarrow(l: string, width: nat, d: string)
    requires width < |d|
    ensures l + d == l + Repeat('0', width - |l| - |d|) + d
  {
    NoRepeat(width - |l| - |d|);
    assert l + "" == l;
  }

  /** With '0': ours is cut to the width, or to the buffer. z: zeros and digits in the buffer. */
  lemma ZeroHash(base: nat, width: nat, fl: Flags, d: string, z: string, k: nat, ours: string)
    requires 0 < |d| <= 22 && (base == 8 || base == 16) && !fl.left && fl.zeropad && !fl.precision
    requires z == Repeat('0', Min(width, ROOM) - |d|) + d
    requires k == if width == |z| then if |z| > 1 && base == 16 then |z| - 2 else |z| - 1 else |z|
    requires ours == Written(k, base, fl) + Last(z, k)
    ensures ours == Hashed(d, base, 0, width, fl) <==> HashFits(|d|, base, 0, width, fl)
  {
    hide Hashed, Prefix, Last, Repeat, Written;
    PrefixLength(base, fl);
    WrittenLength(k, base, fl);
    HashedZero(base, width, fl, d);
    var l := Prefix(base, fl);
    if width < |d| {
      NoZeros(width, d);
      LastAll(z);
      ZeroNarrow(l, width, d);
    } else if |d| + |l| <= width <= ROOM {
      ZeroRoom(l, width, d, z, k);
    } else {
      ZeroTight(l, width, d, Written(k, base, fl), Last(z, k));
    }
  }

  lemma NoRepeat(n: int)
    requires n <= 0
    ensures Repeat('0', n) == ""
  {
  }

  lemma FewerZeros(n: nat, m: nat, d: string)
    requires m <= n
    ensures Last(Repeat('0', n) + d, n - m + |d|) == Repeat('0', n - m) + d
  {
  }

  lemma SameLength(buf: string)
    ensures |Reverse(buf)| == |buf|
  {
  }

  /** The digits that Prefixed keeps, the highest first. */
  lemma KeptDigits(buf: string, base: nat, prec: nat, width: nat, fl: Flags, d: string, z: string)
    requires 0 < |buf| <= 22 && (base == 8 || base == 16) && d == Reverse(buf)
    requires (fl.precision ==> !fl.zeropad) && (!fl.precision ==> prec == 0)
    requires z == Repeat('0', Filled(prec, width, fl) - |d|) + d
    ensures var b := Padded(buf, prec, width, fl); var k := Kept(b, base, prec, width, fl);
      && |b| == |z| && Reverse(b[..k]) == Last(z, k)
      && k == if !fl.precision && width == |z| then if |z| > 1 && base == 16 then |z| - 2 else |z| - 1 else |z|
  {
    hide Padded, Reverse, Last, Repeat, Kept;
    SameLength(buf);
    PaddedReversed(buf, prec, width, fl);
    var b := Padded(buf, prec, width, fl);
    SameLength(b);
    KeptCount(b, base, prec, width, fl);
    ReverseTake(b, Kept(b, base, prec, width, fl));
  }

  lemma KeptCount(b: string, base: nat, prec: nat, width: nat, fl: Flags)
    requires b != "" && (base == 8 || base == 16) && (!fl.precision ==> prec == 0)
    ensures Kept(b, base, prec, width, fl) ==
      if !fl.precision && width == |b| then if |b| > 1 && base == 16 then |b| - 2 else |b| - 1 else |b|
  {
  }

  lemma PaddedSides(body: string, width: nat, fl: Flags)
    ensures var ours := (if !fl.left && !fl.zeropad then Repeat(' ', width - |body|) else "") + body
        + (if fl.left then Repeat(' ', width - |body|) else "");
      if fl.left then ours == body + Repeat(' ', width - |body|)
      else if fl.zeropad then ours == body
      else ours == Repeat(' ', width - |body|) + body
  {
  }

  /** The text in terms of the zeros and digits z in the buffer, of which k are kept. */
  lemma HashForm(buf: string, base: nat, prec: nat, width: nat, fl: Flags, d: string) returns (z: string, k: nat)
    requires 0 < |buf| <= 22 && (base == 8 || base == 16) && fl.hash && !fl.plus && !fl.space && d == Reverse(buf)
    requires (fl.precision ==> !fl.zeropad) && (!fl.precision ==> prec == 0)
    ensures z == Repeat('0', Filled(prec, width, fl) - |d|) + d
    ensures k == if !fl.precision && width == |z| then if |z| > 1 && base == 16 then |z| - 2 else |z| - 1 else |z|
    ensures var ours, body := FormatText(buf, false, base, prec, width, fl), Written(k, base, fl) + Last(z, k);
      if fl.left then ours == body + Repeat(' ', width - |body|)
      else if fl.zeropad then ours == body
      else ours == Repeat(' ', width - |body|) + body
  {
    hide FormatText, Written, Padded, Reverse, Kept, Repeat, Last;
    z := Repeat('0', Filled(prec, width, fl) - |d|) + d;
    SourceHash(buf, base, prec, width, fl);
    KeptDigits(buf, base, prec, width, fl, d, z);
    k := Kept(Padded(buf, prec, width, fl), base, prec, width, fl);
    PaddedSides(Written(k, base, fl) + Last(z, k), width, fl);
  }

  lemma AgreesLeft(buf: string, base: nat, prec: nat, width: nat, fl: Flags, d: string)
    requires 0 < |buf| <= 22 && (base == 8 || base == 16) && fl.hash && !fl.plus && !fl.space && d == Reverse(buf)
    requires d[0] != '0'
    requires (fl.precision ==> !fl.zeropad) && (!fl.precision ==> prec == 0)
    requires fl.left
    ensures FormatText(buf, false, base, prec, width, fl) == Hashed(d, base, prec, width, fl) <==>
      HashFits(|d|, base, prec, width, fl)
  {
    hide FormatText, Hashed, HashFits, Written, Reverse, Repeat, Last;
    var z, k := HashForm(buf, base, prec, width, fl, d);
    var ours := FormatText(buf, false, base, prec, width, fl);
    SameLength(buf);
    NoZeros(0, d);
    LeftHash(base, prec, width, fl, d, k, ours);
  }

  lemma AgreesZero(buf: string, base: nat, prec: nat, width: nat, fl: Flags, d: string)
    requires 0 < |buf| <= 22 && (base == 8 || base == 16) && fl.hash && !fl.plus && !fl.space && d == Reverse(buf)
    requires d[0] != '0'
    requires (fl.precision ==> !fl.zeropad) && (!fl.precision ==> prec == 0)
    requires !fl.left && fl.zeropad
    ensures FormatText(buf, false, base, prec, width, fl) == Hashed(d, base, prec, width, fl) <==>
      HashFits(|d|, base, prec, width, fl)
  {
    hide FormatText, Hashed, HashFits, Written, Reverse, Repeat, Last;
    var z, k := HashForm(buf, base, prec, width, fl, d);
    var ours := FormatText(buf, false, base, prec, width, fl);
    SameLength(buf);
    ZeroHash(base, width, fl, d, z, k, ours);
  }

  lemma AgreesPrecise(buf: string, base: nat, prec: nat, width: nat, fl: Flags, d: string)
    requires 0 < |buf| <= 22 && (base == 8 || base == 16) && fl.hash && !fl.plus && !fl.space && d == Reverse(buf)
    requires d[0] != '0'
    requires (fl.precision ==> !fl.zeropad) && (!fl.precision ==> prec == 0)
    requires !fl.left && !fl.zeropad && fl.precision
    ensures FormatText(buf, false, base, prec, width, fl) == Hashed(d, base, prec, width, fl) <==>
      HashFits(|d|, base, prec, width, fl)
  {
    hide FormatText, Hashed, HashFits, Written, Reverse, Repeat, Last;
    var z, k := HashForm(buf, base, prec, width, fl, d);
    var ours := FormatText(buf, false, base, prec, width, fl);
    SameLength(buf);
    LastAll(z);
    PrecisionHash(base, prec, width, fl, d, ours);
  }

  lemma AgreesPlain(buf: string, base: nat, prec: nat, width: nat, fl: Flags, d: string)
    requires 0 < |buf| <= 22 && (base == 8 || base == 16) && fl.hash && !fl.plus && !fl.space && d == Reverse(buf)
    requires d[0] != '0'
    requires (fl.precision ==> !fl.zeropad) && (!fl.precision ==> prec == 0)
    requires !fl.left && !fl.zeropad && !fl.precision
    ensures FormatText(buf, false, base, prec, width, fl) == Hashed(d, base, prec, width, fl) <==>
      HashFits(|d|, base, prec, width, fl)
  {
    hide FormatText, Hashed, HashFits, Written, Reverse, Repeat, Last;
    var z, k := HashForm(buf, base, prec, width, fl, d);
    var ours := FormatText(buf, false, base, prec, width, fl);
    SameLength(buf);
    NoZeros(0, d);
    PlainHash(base, width, fl, d, k, ours);
  }

  lemma HashAgrees(buf: string, base: nat, prec: nat, width: nat, fl: Flags, d: string)
    requires 0 < |buf| <= 22 && (base == 8 || base == 16) && fl.hash && !fl.plus && !fl.space && d == Reverse(buf)
    requires d[0] != '0'
    requires (fl.precision ==> !fl.zeropad) && (!fl.precision ==> prec == 0)
    ensures FormatText(buf, false, base, prec, width, fl) == Hashed(d, base, prec, width, fl) <==>
      HashFits(|d|, base, prec, width, fl)
  {
    hide FormatText, Hashed, HashFits, Reverse;
    if fl.left {
      AgreesLeft(buf, base, prec, width, fl, d);
    } else if fl.zeropad {
      AgreesZero(buf, base, prec, width, fl, d);
    } else if fl.precision {
      AgreesPrecise(buf, base, prec, width, fl, d);
    } else {
      AgreesPlain(buf, base, prec, width, fl, d);
    }
  }

  lemma PositiveHash(value: nat, base: nat, prec: nat, width: nat, fl: Flags)
    requires (base == 8 || base == 16) && 0 < value < ULONG && fl.hash && !fl.plus && !fl.space
    requires (fl.precision ==> !fl.zeropad) && (!fl.precision ==> prec == 0)
    ensures IntText(value, false, base, prec, width, fl) == StandardHash(value, base, prec, width, fl) <==>
      HashFits(|Numeral(value, base, fl.upper)|, base, prec, width, fl)
  {
    BufferDigits(value, base, fl.upper);
    var buf, d := Digits(value, base, fl.upper, ROOM), Numeral(value, base, fl.upper);
    assert |Reverse(buf)| == |buf|;
    hide FormatText, Hashed, HashFits, Numeral, Digits, Reverse;
    HashAgrees(buf, base, prec, width, fl, d);
    HashedTextIs(value, base, prec, width, fl);
    HashedStandardIs(value, base, prec, width, fl);
  }

  lemma HashedTextIs(value: nat, base: nat, prec: nat, width: nat, fl: Flags)
    requires 2 <= base <= 16 && value > 0 && fl.hash
    ensures IntText(value, false, base, prec, width, fl) ==
      FormatText(Digits(value, base, fl.upper, ROOM), false, base, prec, width, fl)
  {
    hide FormatText, Digits;
    assert fl.(hash := true) == fl;
  }

  lemma HashedStandardIs(value: nat, base: nat, prec: nat, width: nat, fl: Flags)
    requires (base == 8 || base == 16) && value > 0
    ensures StandardHash(value, base, prec, width, fl) == Hashed(Numeral(value, base, fl.upper), base, prec, width, fl)
  {
    FirstDigit(value, base, fl.upper);
    hide Numeral, Arranged;
  }

  lemma HashOfZero(base: nat, prec: nat, width: nat, fl: Flags)
    requires 2 <= base <= 16
    ensures IntText(0, false, base, prec, width, fl) == IntText(0, false, base, prec, width, fl.(hash := false))
  {
    hide FormatText, Digits;
  }

  lemma NoSign(fl: Flags)
    requires !fl.plus && !fl.space
    ensures Sign(false, fl) == ""
  {
  }

  /** Without '#' the text of zero is the same. */
  lemma ZeroText(base: nat, prec: nat, width: nat, fl: Flags)
    requires (base == 8 || base == 16) && !fl.plus && !fl.space
    requires (fl.precision ==> !fl.zeropad) && (!fl.precision ==> prec == 0)
    ensures IntText(0, false, base, prec, width, fl) == Arranged("", DigitsOf(0, base, fl), prec, width, fl) <==>
      Fits("", DigitsOf(0, base, fl), prec, width, fl)
  {
    var gl := fl.(hash := false);
    HashOfZero(base, prec, width, fl);
    NoSign(fl);
    hide IntText, Arranged, Fits, DigitsOf, Sign;
    StandardText(0, false, base, prec, width, gl);
    SameStandard(0, false, base, prec, width, gl, fl);
  }

  /** Padding alone shows no digit. */
  lemma NothingWritten(width: nat, fl: Flags)
    requires fl.precision
    ensures Arranged("", "", 0, width, fl) != Arranged("", "", 1, width, fl)
  {
    var x, y := Arranged("", "", 0, width, fl), Arranged("", "", 1, width, fl);
    assert '0' !in x;
    if fl.left { assert y[0] == '0'; } else { assert y[|y| - 1] == '0'; }
  }

  lemma ZeroHashed(base: nat, prec: nat, width: nat, fl: Flags)
    requires base == 8 || base == 16
    ensures StandardHash(0, base, prec, width, fl) == Arranged("", DigitsOf(0, base, fl),
      if base == 8 && fl.precision && prec == 0 then 1 else prec, width, fl)
  {
    hide Arranged;
    assert Numeral(0, base, fl.upper) == "0";
  }

  /** o, x and X with '#' are formatted as the standard says exactly under the condition. */
  lemma HashText(value: nat, base: nat, prec: nat, width: nat, fl: Flags)
    requires (base == 8 || base == 16) && value < ULONG && fl.hash && !fl.plus && !fl.space
    requires (fl.precision ==> !fl.zeropad) && (!fl.precision ==> prec == 0)
    ensures IntText(value, false, base, prec, width, fl) == StandardHash(value, base, prec, width, fl) <==>
      HashFitsValue(value, base, prec, width, fl)
  {
    if value > 0 {
      hide IntText, StandardHash, HashFits, Numeral;
      PositiveHash(value, base, prec, width, fl);
    } else {
      NothingFits(width, fl);
      hide IntText, StandardHash, Arranged, Numeral, Fits;
      ZeroText(base, prec, width, fl);
      ZeroHashed(base, prec, width, fl);
      if fl.precision && prec == 0 { NothingWritten(width, fl); }
    }
  }

  lemma NothingFits(width: nat, fl: Flags)
    requires fl.precision ==> !fl.zeropad
    ensures fl.precision ==> Fits("", "", 0, width, fl)
  {
  }

  lemma UnsignedFlags(c: char, fl: Flags)
    requires c == 'o' || c == 'x' || c == 'X'
    ensures !IntFlags(c, fl).plus && !IntFlags(c, fl).space
  {
    hide WithCase;
    var a := WithCase(c, WithoutHash(c, fl));
    assert WithoutSigns(c, a) == a.(plus := false, space := false);
  }
}
