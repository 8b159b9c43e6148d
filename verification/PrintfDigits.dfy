/** Numbers as digits: what the conversion buffer holds, and what a run of digits denotes. */
module PrintfDigits {

  /** PRINTF_NTOA_BUFFER_SIZE. */
  const ROOM: nat := 32
  const UINT: nat := 0x1_0000_0000
  const ULONG: nat := 0x1_0000_0000_0000_0000

  function Pow(base: nat, n: nat): nat { if n == 0 then 1 else base * Pow(base, n - 1) }

  function DigitChar(d: nat, upper: bool): char
    requires d < 16
  {
    if d < 10 then '0' + d as char else (if upper then 'A' else 'a') + (d - 10) as char
  }

  predicate IsDigit(c: char) { '0' <= c <= '9' }

  function DigitValue(c: char): nat
  {
    if IsDigit(c) then c as nat - '0' as nat
    else if 'a' <= c <= 'f' then c as nat - 'a' as nat + 10
    else if 'A' <= c <= 'F' then c as nat - 'A' as nat + 10
    else 0
  }

  /** The digits of a value, the lowest first, as far as there is room; at least one. */
  function Digits(value: nat, base: nat, upper: bool, room: nat): (s: string)
    requires 2 <= base <= 16
    ensures |s| <= room && (room > 0 ==> s != [])
    decreases room
  {
    if room == 0 then []
    else
      var rest := value / base;
      [DigitChar(value % base, upper)] + if rest == 0 then [] else Digits(rest, base, upper, room - 1)
  }

  /** What digits denote, the lowest first. */
  function Denote(s: string, base: nat): nat
  {
    if s == [] then 0 else DigitValue(s[0]) + base * Denote(s[1..], base)
  }

  lemma PowPositive(base: nat, n: nat)
    requires base > 0
    ensures Pow(base, n) > 0
  {
    if n > 0 { PowPositive(base, n - 1); }
  }

  lemma DigitRound(d: nat, upper: bool)
    requires d < 16
    ensures DigitValue(DigitChar(d, upper)) == d && (d < 10 ==> IsDigit(DigitChar(d, upper)))
  {
  }

  /** (v / b) % m, shifted up by one digit, with the digit v % b, is v % (b * m). */
  lemma ModSplit(v: nat, b: nat, m: nat)
    requires b > 0 && m > 0
    ensures b * m > 0 && v % b + b * ((v / b) % m) == v % (b * m)
  {
    var q, r := v / b, v % b;
    var qq, qr := q / m, q % m;
    Product(b, m, q, qq, qr);
    MulMono(b, qr, m - 1);
    MulSub(b, m);
    ModUnique(v, b * m, qq, r + b * qr);
  }

  lemma Product(b: nat, m: nat, q: nat, qq: nat, qr: nat)
    requires q == m * qq + qr && b > 0 && m > 0
    ensures b * q == (b * m) * qq + b * qr && b * m > 0
  {
    assert b * q == b * (m * qq) + b * qr;
    assert b * (m * qq) == (b * m) * qq;
  }

  lemma MulSub(b: nat, m: nat)
    ensures b * (m - 1) == b * m - b
  {
  }

  lemma MulMono(a: nat, x: int, y: int)
    requires x <= y
    ensures a * x <= a * y
  {
  }

  lemma ModUnique(v: nat, n: nat, q: nat, r: nat)
    requires 0 <= r < n && v == n * q + r
    ensures v % n == r
  {
    var d := v / n - q;
    assert v == n * (v / n) + v % n;
    assert n * d == r - v % n by { assert n * (v / n) - n * q == n * d; }
    if d > 0 { MulMono(n, 1, d); assert false; }
    if d < 0 { MulMono(n, d, -1); assert false; }
  }

  /** The digits denote the value modulo what the buffer can hold; with no higher zero digit. */
  lemma {:induction false} DigitsDenote(value: nat, base: nat, upper: bool, room: nat)
    requires 2 <= base <= 16
    ensures Pow(base, room) > 0 && Denote(Digits(value, base, upper, room), base) == value % Pow(base, room)
    ensures |Digits(value, base, upper, room)| < room ==> value < Pow(base, room)
    decreases room
  {
    PowPositive(base, room);
    if room > 0 {
      var rest, m := value / base, Pow(base, room - 1);
      DigitsDenote(rest, base, upper, room - 1);
      DenoteStep(value, rest, base, upper, room, Digits(rest, base, upper, room - 1), m);
    }
  }

  lemma DenoteStep(value: nat, rest: nat, base: nat, upper: bool, room: nat, t: string, m: nat)
    requires 2 <= base <= 16 && room > 0 && m > 0 && rest == value / base && m == Pow(base, room - 1)
    requires t == Digits(rest, base, upper, room - 1) && Denote(t, base) == rest % m && (|t| < room - 1 ==> rest < m)
    requires Pow(base, room) > 0
    ensures Denote(Digits(value, base, upper, room), base) == value % Pow(base, room)
    ensures |Digits(value, base, upper, room)| < room ==> value < Pow(base, room)
  {
    var s, total := Digits(value, base, upper, room), Pow(base, room);
    DigitsHead(value, rest, base, upper, room, t);
    DigitRound(value % base, upper);
    assert total == base * m;
    hide *;
    ModSplit(value, base, m);
    if rest == 0 {
      LastDigit(s, base);
      SmallMod(m);
    } else {
      NextDigit(s, t, base);
    }
    if |s| < room && rest < m { Below(value, base, m, rest); }
  }

  lemma DigitsHead(value: nat, rest: nat, base: nat, upper: bool, room: nat, t: string)
    requires 2 <= base <= 16 && room > 0 && rest == value / base && t == Digits(rest, base, upper, room - 1)
    ensures var s := Digits(value, base, upper, room);
      s != [] && s[0] == DigitChar(value % base, upper) && s[1..] == if rest == 0 then [] else t
  {
  }

  lemma LastDigit(s: string, base: nat)
    requires |s| == 1
    ensures Denote(s, base) == DigitValue(s[0])
  {
    assert s[1..] == [];
  }

  lemma NextDigit(s: string, t: string, base: nat)
    requires s != [] && s[1..] == t
    ensures Denote(s, base) == DigitValue(s[0]) + base * Denote(t, base)
  {
  }

  lemma SmallMod(m: nat)
    requires m > 0
    ensures 0 % m == 0
  {
  }

  lemma Below(v: nat, b: nat, m: nat, q: nat)
    requires b > 0 && m > 0 && q == v / b && q < m
    ensures v < b * m
  {
    MulMono(b, q, m - 1);
    assert b * (m - 1) == b * m - b;
  }

  function Reverse<T>(s: seq<T>): (r: seq<T>)
    ensures |r| == |s| && forall i :: 0 <= i < |s| ==> r[i] == s[|s| - 1 - i]
  {
    seq(|s|, i requires 0 <= i < |s| => s[|s| - 1 - i])
  }

  /** _atoi of a run of digits, in unsigned arithmetic. */
  function Atoi(s: string): (v: nat)
    ensures v < UINT
  {
    if s == [] then 0 else (Atoi(s[..|s| - 1]) * 10 + DigitValue(s[|s| - 1])) % UINT
  }

  lemma ModStep(x: nat, d: nat, u: nat)
    requires u > 0
    ensures ((x % u) * 10 + d) % u == (x * 10 + d) % u
  {
    var q, r := x / u, x % u;
    var y := r * 10 + d;
    DivMod(x, u);
    DivMod(y, u);
    Distribute(u, q, y / u);
    ModUnique(x * 10 + d, u, q * 10 + y / u, y % u);
  }

  lemma DivMod(x: nat, u: nat)
    requires u > 0
    ensures x == u * (x / u) + x % u && 0 <= x % u < u && x / u >= 0
  {
  }

  lemma Distribute(u: nat, q: nat, a: nat)
    ensures u * (q * 10 + a) == (u * q) * 10 + u * a
  {
  }

  /** _atoi reads what the digits denote, modulo the width of unsigned int. */
  lemma {:induction false} AtoiDenotes(s: string)
    ensures Atoi(Reverse(s)) == Denote(s, 10) % UINT
    decreases |s|
  {
    if s != [] {
      var r := Reverse(s);
      assert r[..|r| - 1] == Reverse(s[1..]) && r[|r| - 1] == s[0];
      AtoiDenotes(s[1..]);
      ModStep(Denote(s[1..], 10), DigitValue(s[0]), UINT);
    }
  }

  /** Reading a printed number gives the number back exactly if it fits unsigned int. */
  lemma AtoiRoundTrip(value: nat, upper: bool)
    requires value < ULONG
    ensures Atoi(Reverse(Digits(value, 10, upper, ROOM))) == value % UINT
    ensures Atoi(Reverse(Digits(value, 10, upper, ROOM))) == value <==> value < UINT
  {
    var s := Digits(value, 10, upper, ROOM);
    AtoiDenotes(s);
    DigitsDenote(value, 10, upper, ROOM);
    BigPow();
    hide Pow, Digits, Denote, Atoi;
    Small(value, Pow(10, ROOM));
    Small2(value);
  }

  lemma BigPow()
    ensures Pow(10, ROOM) >= ULONG
  {
    assert Pow(10, 4) == 10000;
    PowAdd(10, 4, 4);
    PowAdd(10, 8, 8);
    PowAdd(10, 16, 16);
    assert Pow(10, 8) == 100000000;
    assert Pow(10, 16) == 10000000000000000;
  }

  lemma {:induction false} PowAdd(b: nat, m: nat, n: nat)
    ensures Pow(b, m + n) == Pow(b, m) * Pow(b, n)
    decreases m
  {
    if m > 0 {
      PowAdd(b, m - 1, n);
      assert b * (Pow(b, m - 1) * Pow(b, n)) == (b * Pow(b, m - 1)) * Pow(b, n);
    }
  }

  lemma Small(v: nat, m: nat)
    requires v < m
    ensures v % m == v
  {
  }

  lemma Small2(v: nat)
    ensures v % UINT == v <==> v < UINT
  {
  }
}
