/** The formatter itself: it writes character by character into a bounded buffer, through a conversion
    buffer that is filled backwards. */
module Printf {
  import opened PrintfDigits
  import opened PrintfSpec

  /** The first characters of `text` as far as the limit goes, and the rest of the buffer untouched. */
  predicate Holds(buffer: seq<char>, orig: seq<char>, maxlen: nat, text: string)
  {
    |buffer| == |orig| && maxlen <= |orig|
    && forall i :: 0 <= i < |orig| ==> buffer[i] == if i < |text| && i < maxlen then text[i] else orig[i]
  }

  lemma HoldsMore(b: seq<char>, b': seq<char>, orig: seq<char>, maxlen: nat, text: string, c: char)
    requires Holds(b, orig, maxlen, text)
    requires b' == if |text| < maxlen then b[|text| := c] else b
    ensures Holds(b', orig, maxlen, text + [c])
  {
  }

  /** The output function with its buffer, limit and index. Without a buffer nothing is written. */
  class Sink {
    const buffer: array?<char>
    const maxlen: nat
    var idx: nat
    ghost const orig: seq<char>
    ghost var text: string

    ghost predicate Valid()
      reads this, buffer
    {
      idx == |text| && (buffer != null ==> Holds(buffer[..], orig, maxlen, text))
    }

    constructor (buffer: array?<char>, maxlen: nat)
      requires buffer != null ==> maxlen <= buffer.Length
      ensures Valid() && text == "" && this.buffer == buffer && this.maxlen == maxlen
      ensures buffer != null ==> orig == buffer[..]
    {
      this.buffer, this.maxlen, idx, text := buffer, maxlen, 0, "";
      this.orig := if buffer == null then [] else buffer[..];
    }

    /** _out_buffer and _out_null, at the current index. */
    method Put(c: char)
      requires Valid()
      modifies this, buffer
      ensures Valid() && text == old(text) + [c]
    {
      if buffer != null {
        HoldsMore(buffer[..], if |text| < maxlen then buffer[..][|text| := c] else buffer[..], orig, maxlen, text, c);
        if idx < maxlen { buffer[idx] := c; }
      }
      idx := idx + 1;
      text := text + [c];
    }

    /** Spaces up to the width, after `used` characters. */
    method PutSpaces(used: nat, width: nat)
      requires Valid()
      modifies this, buffer
      ensures Valid() && text == old(text) + Repeat(' ', width - used)
    {
      var l := used;
      while l < width
        invariant used <= l && (l <= width || l == used)
        invariant Valid() && text == old(text) + Repeat(' ', l - used)
      {
        Put(' ');
        l := l + 1;
        assert Repeat(' ', l - used) == Repeat(' ', l - 1 - used) + [' '];
      }
    }

    /** _out_rev. */
    method OutRev(buf: array<char>, len: nat, width: nat, fl: Flags)
      requires Valid() && buf != buffer && len <= buf.Length
      modifies this, buffer
      ensures Valid() && text == old(text) + RevText(buf[..len], width, fl)
    {
      ghost var t0, b := text, buf[..len];
      if !fl.left && !fl.zeropad { PutSpaces(len, width); }
      ghost var t1 := text;
      assert t1 == t0 + (if !fl.left && !fl.zeropad then Repeat(' ', width - len) else "");
      var i := len;
      while i > 0
        invariant 0 <= i <= len && Valid() && buf[..len] == b && text == t1 + Reverse(b)[..len - i]
      {
        i := i - 1;
        Put(buf[i]);
        assert Reverse(b)[..len - i] == Reverse(b)[..len - i - 1] + [b[i]];
      }
      assert Reverse(b)[..len] == Reverse(b);
      if fl.left { PutSpaces(len, width); }
      RevParts(t0, b, width, fl, t1, text);
    }

    /** _ntoa_format. */
    method NtoaFormat(buf: array<char>, len0: nat, negative: bool, base: nat, prec: nat, width0: nat, fl: Flags)
      requires Valid() && buf != buffer && buf.Length == ROOM && len0 <= ROOM
      modifies this, buffer, buf
      ensures Valid() && text == old(text) + FormatText(old(buf[..len0]), negative, base, prec, width0, fl)
    {
      var len, width := len0, width0;
      ghost var b0 := buf[..len0];
      if !fl.left {
        if width > 0 && fl.zeropad && (negative || fl.plus || fl.space) { width := width - 1; }
        len := Zeros(buf, len, prec);
        if fl.zeropad { len := Zeros(buf, len, width); }
      }
      assert width == WidthLeft(negative, width0, fl) && buf[..len] == Padded(b0, prec, width, fl);
      if fl.hash { len := Prefix(buf, len, base, prec, width, fl); }
      if negative {
        len := PutIn(buf, len, '-');
      } else if fl.plus {
        len := PutIn(buf, len, '+');
      } else if fl.space {
        len := PutIn(buf, len, ' ');
      }
      hide RevText, Padded, Prefixed, Append, Reverse;
      OutRev(buf, len, width, fl);
    }

    /** One more character, if there is room. */
    method PutIn(buf: array<char>, len0: nat, c: char) returns (len: nat)
      requires buf.Length == ROOM && len0 <= ROOM
      modifies buf
      ensures len <= ROOM && buf[..len] == Append(old(buf[..len0]), c)
    {
      len := len0;
      if len < ROOM {
        buf[len] := c;
        len := len + 1;
      }
    }

    /** Leading zeros, as far as the buffer goes. */
    method Zeros(buf: array<char>, len0: nat, n: nat) returns (len: nat)
      requires buf.Length == ROOM && len0 <= ROOM
      modifies buf
      ensures len <= ROOM && buf[..len] == ZeroPad(old(buf[..len0]), n)
    {
      len := len0;
      ghost var b := buf[..len0];
      while len < n && len < ROOM
        invariant len0 <= len <= ROOM && (len <= n || len == len0) && buf[..len] == b + Repeat('0', len - len0)
      {
        buf[len] := '0';
        len := len + 1;
        assert buf[..len] == buf[..len - 1] + ['0'];
      }
    }

    /** The part of _ntoa_format for '#'. */
    method Prefix(buf: array<char>, len0: nat, base: nat, prec: nat, width: nat, fl: Flags) returns (len: nat)
      requires buf.Length == ROOM && len0 <= ROOM
      modifies buf
      ensures len <= ROOM && buf[..len] == Prefixed(old(buf[..len0]), base, prec, width, fl)
    {
      len := len0;
      ghost var b := buf[..len0];
      if !fl.precision && len > 0 && (len == prec || len == width) {
        len := len - 1;
        if len > 0 && base == 16 { len := len - 1; }
      }
      assert buf[..len] == b[..Kept(b, base, prec, width, fl)];
      hide Kept, Append;
      if base == 16 && !fl.upper {
        len := PutIn(buf, len, 'x');
      } else if base == 16 && fl.upper {
        len := PutIn(buf, len, 'X');
      } else if base == 2 {
        len := PutIn(buf, len, 'b');
      }
      len := PutIn(buf, len, '0');
    }

    /** _ntoa_long and _ntoa_long_long. */
    method Ntoa(value0: nat, negative: bool, base: nat, prec: nat, width: nat, fl0: Flags)
      requires Valid() && 2 <= base <= 16
      modifies this, buffer
      ensures Valid() && text == old(text) + IntText(value0, negative, base, prec, width, fl0)
    {
      var buf := new char[ROOM];
      var len, value := 0, value0;
      var fl := fl0.(hash := fl0.hash && value0 != 0);
      if !fl.precision || value != 0 { len := FillDigits(buf, value, base, fl.upper); }
      NtoaFormat(buf, len, negative, base, prec, width, fl);
    }

    /** The digit loop. */
    method FillDigits(buf: array<char>, value0: nat, base: nat, upper: bool) returns (len: nat)
      requires buf.Length == ROOM && 2 <= base <= 16
      modifies buf
      ensures len <= ROOM && buf[..len] == Digits(value0, base, upper, ROOM)
    {
      len := 0;
      var value: nat, more := value0, true;
      hide Digits, DigitChar;
      while more
        invariant len <= ROOM && (more ==> len < ROOM)
        invariant Digits(value0, base, upper, ROOM) ==
          buf[..len] + if more then Digits(value, base, upper, ROOM - len) else ""
        decreases ROOM - len, more
      {
        ghost var b, s := buf[..len], Digits(value, base, upper, ROOM - len);
        DivMod(value, base);
        DigitsHead(value, value / base, base, upper, ROOM - len, Digits(value / base, base, upper, ROOM - len - 1));
        buf[len] := DigitChar(value % base, upper);
        Shifted(b, s, buf[..len + 1]);
        len := len + 1;
        value := value / base;
        more := value != 0 && len < ROOM;
      }
    }

    /** The conversion of one directive. */
    method Convert(c: char, d: Directive, args: seq<Arg>, rt: RealText) returns (arg: nat)
      requires Valid()
      modifies this, buffer
      ensures Valid() && text == old(text) + Conversion(c, d, args, rt)
      ensures arg == if TakesArg(c) then d.arg + 1 else d.arg
    {
      hide IntText, RevText;
      arg := d.arg;
      if IsInt(c) {
        ConvertInt(c, d, IntArg(args, arg));
        arg := arg + 1;
      } else if IsReal(c) {
        PutText(rt(c, RealFlags(c, d.flags), d.precision, d.width, AnyArg(args, arg)));
        arg := arg + 1;
      } else if c == 'c' {
        if !d.flags.left { PutSpaces(1, d.width); }
        Put(Wrap(IntArg(args, arg), 256) as char);
        if d.flags.left { PutSpaces(1, d.width); }
        arg := arg + 1;
      } else if c == 's' {
        PutString(d, StrArg(args, arg));
        arg := arg + 1;
      } else if c == 'p' {
        Ntoa(Wrap(IntArg(args, arg), ULONG), false, 16, d.precision, 16, d.flags.(zeropad := true, upper := true));
        arg := arg + 1;
      } else {
        Put(c);
      }
    }

    method ConvertInt(c: char, d: Directive, n: int)
      requires Valid() && IsInt(c)
      modifies this, buffer
      ensures Valid() && text == old(text) + IntConversion(c, d, n)
    {
      hide IntText, IntFlags, BaseOf, WrapSigned, Wrap, SizeOf;
      var base, fl := BaseOf(c), IntFlags(c, d.flags);
      if c == 'i' || c == 'd' {
        var value := WrapSigned(n, SizeOf(fl));
        Ntoa(if value > 0 then value else 0 - value, value < 0, base, d.precision, d.width, fl);
      } else {
        Ntoa(Wrap(n, SizeOf(fl)), false, base, d.precision, d.width, fl);
      }
    }

    method PutText(s: string)
      requires Valid()
      modifies this, buffer
      ensures Valid() && text == old(text) + s
    {
      var k := 0;
      while k < |s|
        invariant 0 <= k <= |s| && Valid() && text == old(text) + s[..k]
      {
        Put(s[k]);
        k := k + 1;
        assert s[..k] == s[..k - 1] + [s[k - 1]];
      }
      assert s[..k] == s;
    }

    /** %s. */
    method PutString(d: Directive, s: string)
      requires Valid()
      modifies this, buffer
      ensures Valid() && text == old(text) + StrConversion(d, s)
    {
      var l := if d.flags.precision && d.precision < |s| then d.precision else |s|;
      ghost var body := if d.flags.precision then s[..Min(|s|, d.precision)] else s;
      if !d.flags.left { PutSpaces(l, d.width); }
      ghost var t := text;
      var k, left := 0, d.precision;
      while k < |s| && (!d.flags.precision || left > 0)
        invariant 0 <= k <= l && Valid() && text == t + s[..k] && (d.flags.precision ==> left == d.precision - k)
        decreases |s| - k
      {
        if d.flags.precision { left := left - 1; }
        Put(s[k]);
        k := k + 1;
        assert s[..k] == s[..k - 1] + [s[k - 1]];
      }
      assert s[..k] == body;
      if d.flags.left { PutSpaces(l, d.width); }
    }

    /** _vsnprintf. The terminating NUL goes after the text, or over the last character that fits. */
    method Vsnprintf(format: string, args: seq<Arg>, rt: RealText) returns (ret: int)
      requires Valid() && text == ""
      modifies this, buffer
      ensures text == Text(format, 0, args, 0, rt) && ret == WrapSigned(|text|, UINT)
      ensures buffer != null ==> buffer[..] == Terminated(orig, maxlen, text)
    {
      var i, j: nat := 0, 0;
      hide Text, Holds, Conversion, Parse;
      while At(format, i) != '\0'
        invariant 0 <= i && 0 <= j && Valid()
        invariant Text(format, 0, args, 0, rt) == text + Text(format, i, args, j, rt)
        decreases |format| - i
      {
        i, j := Next(format, i, args, j, rt);
      }
      TextEnds(format, i, args, j, rt);
      Terminate();
      return WrapSigned(idx, UINT);
    }

    /** One character of the format, or one directive. */
    method Next(format: string, i: nat, args: seq<Arg>, j: nat, rt: RealText) returns (i': nat, j': nat)
      requires Valid() && At(format, i) != '\0'
      modifies this, buffer
      ensures Valid() && i < i'
      ensures text + Text(format, i', args, j', rt) == old(text) + Text(format, i, args, j, rt)
    {
      hide Conversion, Parse, Holds;
      ghost var t := text;
      if At(format, i) != '%' {
        Put(At(format, i));
        i', j' := i + 1, j;
        Regroup(t, [At(format, i)], Text(format, i', args, j', rt));
      } else {
        var d := ParseDirective(format, i + 1, args, j);
        j' := Convert(At(format, d.at), d, args, rt);
        i' := d.at + 1;
        Regroup(t, Conversion(At(format, d.at), d, args, rt), Text(format, i', args, j', rt));
      }
    }

    /** The terminating NUL. */
    method Terminate()
      requires Valid()
      modifies buffer
      ensures buffer != null ==> buffer[..] == Terminated(orig, maxlen, text)
    {
      if buffer != null {
        HoldsEnd(buffer[..], orig, maxlen, text);
        if maxlen > 0 { buffer[if idx < maxlen then idx else maxlen - 1] := '\0'; }
      }
    }
  }

  lemma Regroup(a: string, b: string, c: string)
    ensures (a + b) + c == a + (b + c)
  {
  }

  lemma TextEnds(f: string, i: nat, args: seq<Arg>, j: nat, rt: RealText)
    requires At(f, i) == '\0'
    ensures Text(f, i, args, j, rt) == ""
  {
  }

  lemma HoldsEnd(b: seq<char>, orig: seq<char>, maxlen: nat, text: string)
    requires Holds(b, orig, maxlen, text)
    ensures |b| == |orig| && maxlen <= |orig|
    ensures if maxlen == 0 then b == Terminated(orig, maxlen, text)
      else b[(if |text| < maxlen then |text| else maxlen - 1) := '\0'] == Terminated(orig, maxlen, text)
  {
  }

  /** The buffer after a call: as much of the text as fits before a NUL, and nothing else touched. */
  function Terminated(orig: seq<char>, maxlen: nat, text: string): seq<char>
    requires maxlen <= |orig|
  {
    if maxlen == 0 then orig
    else
      var k := Min(|text|, maxlen - 1);
      text[..k] + ['\0'] + orig[k + 1..]
  }

  /** snprintf_ and vsnprintf_. */
  method Snprintf(buffer: array?<char>, count: nat, format: string, args: seq<Arg>, rt: RealText) returns (ret: int)
    requires buffer != null ==> count <= buffer.Length
    modifies buffer
    ensures ret == WrapSigned(|Text(format, 0, args, 0, rt)|, UINT)
    ensures buffer != null ==> buffer[..] == Terminated(old(buffer[..]), count, Text(format, 0, args, 0, rt))
  {
    var sink := new Sink(buffer, count);
    ret := sink.Vsnprintf(format, args, rt);
  }

  /** _atoi at a position of the format. */
  method AtoiAt(f: string, i: nat) returns (v: nat, e: nat)
    requires IsDigit(At(f, i))
    ensures v == NumberAt(f, i) && e == DigitsEnd(f, i)
  {
    v, e := 0, i;
    while IsDigit(At(f, e))
      invariant i <= e <= |f| && DigitsEnd(f, e) == DigitsEnd(f, i) && v == Atoi(f[i..e])
      decreases |f| - e
    {
      v := (v * 10 + DigitValue(f[e])) % UINT;
      e := e + 1;
      assert f[i..e][..e - 1 - i] == f[i..e - 1];
    }
  }

  method ScanFlags(f: string, i: nat) returns (fl: Flags, e: nat)
    ensures fl == FlagsAt(f, i, NO_FLAGS) && e == FlagsEnd(f, i)
  {
    fl, e := NO_FLAGS, i;
    var more := true;
    while more
      invariant e >= i && FlagsEnd(f, e) == FlagsEnd(f, i) && FlagsAt(f, e, fl) == FlagsAt(f, i, NO_FLAGS)
      invariant !more ==> !IsFlag(At(f, e))
      decreases |f| - e, more
    {
      var c := At(f, e);
      match c {
        case '0' => fl, e := fl.(zeropad := true), e + 1;
        case '-' => fl, e := fl.(left := true), e + 1;
        case '+' => fl, e := fl.(plus := true), e + 1;
        case ' ' => fl, e := fl.(space := true), e + 1;
        case '#' => fl, e := fl.(hash := true), e + 1;
        case _ => more := false;
      }
    }
  }

  /** Flags, width, precision and length of a directive. */
  method ParseDirective(f: string, i: nat, args: seq<Arg>, j: nat) returns (d: Directive)
    ensures d == Parse(f, i, args, j)
  {
    hide WithWidth, WithPrecision, WithLength;
    var fl, e := ScanFlags(f, i);
    d := Directive(fl, 0, 0, e, j);
    d := ScanWidth(f, args, d);
    d := ScanPrecision(f, args, d);
    d := ScanLength(f, d);
  }

  method ScanWidth(f: string, args: seq<Arg>, d0: Directive) returns (d: Directive)
    ensures d == WithWidth(f, args, d0)
  {
    d := d0;
    if IsDigit(At(f, d.at)) {
      var width, e := AtoiAt(f, d.at);
      d := d.(width := width, at := e);
    } else if At(f, d.at) == '*' {
      var w := WrapSigned(IntArg(args, d.arg), UINT);
      if w < 0 {
        d := d.(flags := d.flags.(left := true), width := -w);
      } else {
        d := d.(width := w);
      }
      d := d.(at := d.at + 1, arg := d.arg + 1);
    }
  }

  method ScanPrecision(f: string, args: seq<Arg>, d0: Directive) returns (d: Directive)
    ensures d == WithPrecision(f, args, d0)
  {
    d := d0;
    if At(f, d.at) == '.' {
      d := d.(flags := d.flags.(precision := true), at := d.at + 1);
      if IsDigit(At(f, d.at)) {
        var precision, e := AtoiAt(f, d.at);
        d := d.(precision := precision, at := e);
      } else if At(f, d.at) == '*' {
        var p := WrapSigned(IntArg(args, d.arg), UINT);
        d := d.(precision := if p > 0 then p else 0, at := d.at + 1, arg := d.arg + 1);
      }
    }
  }

  method ScanLength(f: string, d0: Directive) returns (d: Directive)
    ensures d == WithLength(f, d0)
  {
    d := d0;
    match At(f, d.at) {
      case 'l' =>
        d := d.(flags := d.flags.(longSize := true), at := d.at + 1);
        if At(f, d.at) == 'l' { d := d.(flags := d.flags.(longLong := true), at := d.at + 1); }
      case 'h' =>
        d := d.(flags := d.flags.(shortSize := true), at := d.at + 1);
        if At(f, d.at) == 'h' { d := d.(flags := d.flags.(charSize := true), at := d.at + 1); }
      case 't' => d := d.(flags := d.flags.(longSize := true), at := d.at + 1);
      case 'j' => d := d.(flags := d.flags.(longSize := true), at := d.at + 1);
      case 'z' => d := d.(flags := d.flags.(longSize := true), at := d.at + 1);
      case _ =>
    }
  }

  lemma Shifted(b: string, s: string, b': string)
    requires s != [] && |b'| == |b| + 1 && b'[..|b|] == b && b'[|b|] == s[0]
    ensures b + s == b' + s[1..]
  {
    assert s == [s[0]] + s[1..] && b' == b + [s[0]];
  }

  lemma RevParts(t0: string, b: string, width: nat, fl: Flags, t1: string, t: string)
    requires t1 == t0 + (if !fl.left && !fl.zeropad then Repeat(' ', width - |b|) else "")
    requires t == (t1 + Reverse(b)) + (if fl.left then Repeat(' ', width - |b|) else "")
    ensures t == t0 + RevText(b, width, fl)
  {
  }
}
