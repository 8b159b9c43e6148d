/** Bodies: what the two framings deliver. */
module HttpBody {
  import opened HttpTypes
  import opened HttpArms
  import opened HttpMachine
  import opened HttpSplit
  import opened HttpExecute
  import opened HttpHeaders

  const CRLF := "\r\n"

  // ----- chunk sizes

  predicate IsHex(ch: char) { '0' <= ch <= '9' || 'A' <= ch <= 'F' || 'a' <= ch <= 'f' }

  function HexDigit(ch: char): (d: nat)
    requires IsHex(ch)
    ensures d == Unhex(ch)
  {
    Unhex(ch)
  }

  predicate HexText(s: string) { s != "" && forall i :: 0 <= i < |s| ==> IsHex(s[i]) }

  /** The number written by hexadecimal digits. */
  function Hex(s: string): nat
    requires forall i :: 0 <= i < |s| ==> IsHex(s[i])
  {
    if s == "" then 0 else Hex(s[..|s| - 1]) * 16 + HexDigit(s[|s| - 1])
  }

  /** A chunk extension, or nothing. */
  predicate ExtText(s: string)
  {
    s != "" ==> (s[0] == ';' || s[0] == ' ') && forall i :: 0 <= i < |s| ==> s[i] != CR
  }

  /** A parser between chunks. */
  predicate Between(p: P) { p.state.ChunkSizeStart? && p.flags.chunked && p.nread == 0 }

  lemma SizeFirst(skip: bool, p: P, ch: char)
    requires Between(p) && IsHex(ch)
    ensures Step(skip, p, ch) == Outcome(Go, p.(state := ChunkSize, clen := Unhex(ch), nread := 1), [], [])
  {
  }

  lemma SizeNext(skip: bool, p: P, ch: char)
    requires p.state.ChunkSize? && p.flags.chunked && p.nread < MAX_HEADER_SIZE && IsHex(ch)
    ensures Step(skip, p, ch) ==
      Outcome(Go, p.(clen := (p.clen * 16 + HexDigit(ch)) % TWO_64, nread := p.nread + 1), [], [])
  {
  }

  /** Dropping the high bits at each digit is dropping them at the end. */
  lemma WrapDigit(n: nat, d: nat)
    ensures (n % TWO_64 * 16 + d) % TWO_64 == (n * 16 + d) % TWO_64
  {
    var q := n / TWO_64;
    assert n * 16 + d == TWO_64 * (q * 16) + (n % TWO_64 * 16 + d);
  }

  lemma {:induction false} SizeFeed(skip: bool, p: P, s: string)
    requires Between(p) && HexText(s) && |s| <= MAX_HEADER_SIZE
    ensures Feed(skip, p, s) == Trace(Go, |s|, p.(state := ChunkSize, clen := Hex(s) % TWO_64, nread := |s|), [], [])
  {
    hide Step, IsHex, Unhex;
    var n := |s| - 1;
    if n == 0 {
      assert s[..0] == "";
      SizeFirst(skip, p, s[0]);
    } else {
      SizeFeed(skip, p, s[..n]);
      SizeNext(skip, Feed(skip, p, s[..n]).p, s[n]);
      WrapDigit(Hex(s[..n]), HexDigit(s[n]));
    }
  }

  lemma ExtStep(skip: bool, p: P, ch: char)
    requires p.flags.chunked && p.nread < MAX_HEADER_SIZE && ch != CR
    requires (p.state.ChunkSize? && (ch == ';' || ch == ' ')) || p.state.ChunkParameters?
    ensures Step(skip, p, ch) == Outcome(Go, p.(state := ChunkParameters, nread := p.nread + 1), [], [])
  {
  }

  lemma {:induction false} ExtFeed(skip: bool, p: P, s: string)
    requires p.state.ChunkSize? && p.flags.chunked && ExtText(s) && p.nread + |s| <= MAX_HEADER_SIZE
    ensures Feed(skip, p, s) == Trace(Go, |s|,
      p.(state := if s == "" then ChunkSize else ChunkParameters, nread := p.nread + |s|), [], [])
  {
    hide Step;
    if s != "" {
      var n := |s| - 1;
      ExtFeed(skip, p, s[..n]);
      ExtStep(skip, Feed(skip, p, s[..n]).p, s[n]);
    }
  }

  lemma SizeCr(skip: bool, p: P)
    requires (p.state.ChunkSize? || p.state.ChunkParameters?) && p.flags.chunked && p.nread < MAX_HEADER_SIZE
    ensures Feed(skip, p, "\r") == Trace(Go, 1, p.(state := ChunkSizeAlmostDone, nread := p.nread + 1), [], [])
  {
    hide Unhex, Feed;
    FeedOne(skip, p, CR);
  }

  lemma SizeLf(skip: bool, p: P)
    requires p.state.ChunkSizeAlmostDone? && p.flags.chunked && p.nread < MAX_HEADER_SIZE
    ensures Feed(skip, p, "\n") == Trace(Go, 1,
      if p.clen == 0 then p.(state := HeaderFieldStart, nread := 0, flags := p.flags.(trailing := true))
      else p.(state := ChunkData, nread := 0), [], [])
  {
    hide Unhex, Feed;
    FeedOne(skip, p, LF);
  }

  /** The length becomes the size modulo 2^64. If that is zero, the body ends, whatever the size is. */
  lemma SizeLine(skip: bool, p: P, size: string, ext: string)
    requires Between(p) && HexText(size) && ExtText(ext) && |size| + |ext| + 2 <= MAX_HEADER_SIZE
    ensures var s, n := size + ext + CRLF, Hex(size) % TWO_64;
      Feed(skip, p, s) == Trace(Go, |s|,
        if n == 0 then p.(state := HeaderFieldStart, clen := 0, flags := p.flags.(trailing := true))
        else p.(state := ChunkData, clen := n), [], [])
  {
    hide Feed, Step, Hex, HexText, ExtText;
    SizeFeed(skip, p, size);
    var q := Feed(skip, p, size).p;
    ExtFeed(skip, q, ext);
    FeedAppend(skip, p, size, ext);
    var t := Feed(skip, q, ext).p;
    SizeCr(skip, t);
    SizeLf(skip, Feed(skip, t, "\r").p);
    FeedAppend(skip, t, "\r", "\n");
    assert "\r" + "\n" == CRLF;
    FeedAppend(skip, p, size + ext, CRLF);
  }

  lemma DataByte(skip: bool, p: P, ch: char)
    requires p.state.ChunkData? && p.flags.chunked
    ensures Step(skip, p, ch).v.Undefined? <==> p.clen >= TWO_63
  {
    hide Arm, Notes;
  }

  lemma TrailerByte(skip: bool, p: P, ch: char)
    requires p.state.HeaderFieldStart?
    ensures !Step(skip, p, ch).v.Undefined?
  {
    hide Token, FieldFirst, FieldNext, ValueFirst, ValueNext, Notes, SpansOf;
  }

  /** The byte after a size line is undefined exactly if bit 63 of the size is set: the length does not fit the
      signed type in which it is compared with the rest of the buffer. */
  lemma HugeSize(skip: bool, p: P, size: string, ext: string, ch: char)
    requires Between(p) && HexText(size) && ExtText(ext) && |size| + |ext| + 2 <= MAX_HEADER_SIZE
    ensures Feed(skip, p, size + ext + CRLF + [ch]).v.Undefined? <==> Hex(size) % TWO_64 >= TWO_63
  {
    hide Feed, Step, Hex, HexText, ExtText;
    var line := size + ext + CRLF;
    SizeLine(skip, p, size, ext);
    var q := Feed(skip, p, line).p;
    FeedAppend(skip, p, line, [ch]);
    FeedOne(skip, q, ch);
    if q.state.ChunkData? { DataByte(skip, q, ch); } else { TrailerByte(skip, q, ch); }
  }

  // ----- chunks

  datatype Chunk = Chunk(size: string, ext: string, data: string) {
    function Raw(): string { size + ext + CRLF + data + CRLF }

    ghost predicate Valid()
    {
      && HexText(size) && ExtText(ext) && |size| + |ext| + 2 <= MAX_HEADER_SIZE
      && 0 < Hex(size) == |data| < TWO_63
    }
  }

  lemma DataCr(skip: bool, p: P)
    requires p.state.ChunkDataAlmostDone? && p.flags.chunked
    ensures Feed(skip, p, "\r") == Trace(Go, 1, p.(state := ChunkDataDone), [], [])
  {
    hide Feed;
    FeedOne(skip, p, CR);
  }

  lemma DataLf(skip: bool, p: P)
    requires p.state.ChunkDataDone? && p.flags.chunked
    ensures Feed(skip, p, "\n") == Trace(Go, 1, p.(state := ChunkSizeStart), [], [])
  {
    hide Feed;
    FeedOne(skip, p, LF);
  }

  lemma DataEnd(skip: bool, p: P)
    requires p.state.ChunkDataAlmostDone? && p.flags.chunked
    ensures Feed(skip, p, CRLF) == Trace(Go, 2, p.(state := ChunkSizeStart), [], [])
  {
    hide Feed, Step;
    DataCr(skip, p);
    DataLf(skip, p.(state := ChunkDataDone));
    FeedAppend(skip, p, "\r", "\n");
    assert "\r" + "\n" == CRLF;
  }

  lemma ChunkFeed(skip: bool, p: P, c: Chunk)
    requires Between(p) && c.Valid()
    ensures Feed(skip, p, c.Raw()) == Trace(Go, |c.Raw()|, p.(clen := 0), [], Tag(Body, c.data))
  {
    hide Feed, Step, Hex, HexText, ExtText, Tag;
    var line := c.size + c.ext + CRLF;
    SizeLine(skip, p, c.size, c.ext);
    var q := Feed(skip, p, line).p;
    ChunkRun(skip, q, c.data);
    FeedAppend(skip, p, line, c.data);
    DataEnd(skip, Feed(skip, q, c.data).p);
    FeedAppend(skip, p, line + c.data, CRLF);
  }

  ghost predicate AllValid(cs: seq<Chunk>) { forall i :: 0 <= i < |cs| ==> cs[i].Valid() }

  function RawChunks(cs: seq<Chunk>): string
  {
    if cs == [] then "" else cs[0].Raw() + RawChunks(cs[1..])
  }

  /** The body that the chunks encode. */
  function DataOf(cs: seq<Chunk>): string
  {
    if cs == [] then "" else cs[0].data + DataOf(cs[1..])
  }

  lemma {:induction false} ChunksFeed(skip: bool, p: P, cs: seq<Chunk>)
    requires Between(p) && AllValid(cs)
    ensures Feed(skip, p, RawChunks(cs)) ==
      Trace(Go, |RawChunks(cs)|, if cs == [] then p else p.(clen := 0), [], Tag(Body, DataOf(cs)))
    decreases |cs|
  {
    hide Feed, Step;
    if cs == [] {
      FeedEmpty(skip, p);
    } else {
      ChunkFeed(skip, p, cs[0]);
      ChunksFeed(skip, p.(clen := 0), cs[1..]);
      FeedAppend(skip, p, cs[0].Raw(), RawChunks(cs[1..]));
      TagAppend(Body, cs[0].data, DataOf(cs[1..]));
    }
  }

  // ----- blocks of header lines

  ghost predicate ValidLines(ls: seq<Line>) { forall i :: 0 <= i < |ls| ==> ls[i].Valid() }

  function RawLines(ls: seq<Line>): string
  {
    if ls == [] then "" else ls[0].Raw() + RawLines(ls[1..])
  }

  /** What the lines deliver: names and values, in order. */
  function Shown(ls: seq<Line>): seq<Obs>
  {
    if ls == [] then [] else Tag(Field, ls[0].name) + Tag(Value, ls[0].value) + Shown(ls[1..])
  }

  function FlagsAfter(f: Flags, ls: seq<Line>): Flags
    decreases |ls|
  {
    if ls == [] then f else FlagsAfter(LineFlags(f, ls[0].name, ls[0].value), ls[1..])
  }

  function LengthAfter(n: nat, ls: seq<Line>): nat
    decreases |ls|
  {
    if ls == [] then n else LengthAfter(LineLength(n, ls[0].name, ls[0].value), ls[1..])
  }

  lemma {:induction false} LinesFeed(skip: bool, p: P, ls: seq<Line>)
    requires p.state.HeaderFieldStart? && ValidLines(ls) && p.nread + |RawLines(ls)| <= MAX_HEADER_SIZE
    ensures var r := Feed(skip, p, RawLines(ls));
      && r == Trace(Go, |RawLines(ls)|, r.p, [], Shown(ls))
      && r.p == p.(nread := p.nread + |RawLines(ls)|, hs := r.p.hs, index := r.p.index,
           flags := FlagsAfter(p.flags, ls), clen := LengthAfter(p.clen, ls))
    decreases |ls|
  {
    hide Feed, Step, LineFlags, LineLength, Tag;
    if ls == [] {
      FeedEmpty(skip, p);
    } else {
      HeaderLine(skip, p, ls[0]);
      LinesFeed(skip, Feed(skip, p, ls[0].Raw()).p, ls[1..]);
      FeedAppend(skip, p, ls[0].Raw(), RawLines(ls[1..]));
    }
  }

  lemma LineKeepsTrailing(f: Flags, l: Line)
    ensures LineFlags(f, l.name, l.value).trailing == f.trailing
    ensures LineFlags(f, l.name, l.value).skipBody == f.skipBody
  {
    hide NameClass;
  }

  lemma {:induction false} LinesKeepTrailing(f: Flags, ls: seq<Line>)
    ensures FlagsAfter(f, ls).trailing == f.trailing
    ensures FlagsAfter(f, ls).skipBody == f.skipBody
    decreases |ls|
  {
    hide LineFlags;
    if ls != [] {
      LineKeepsTrailing(f, ls[0]);
      LinesKeepTrailing(LineFlags(f, ls[0].name, ls[0].value), ls[1..]);
    }
  }

  // ----- a whole chunked body

  /** The chunks, the zero chunk that ends them, and the trailer lines. */
  datatype ChunkedBody = ChunkedBody(chunks: seq<Chunk>, zero: string, ext: string, trailers: seq<Line>) {
    function Raw(): string { RawChunks(chunks) + (zero + ext + CRLF) + RawLines(trailers) + CRLF }

    ghost predicate Valid()
    {
      && AllValid(chunks) && ValidLines(trailers)
      && HexText(zero) && Hex(zero) == 0 && ExtText(ext) && |zero| + |ext| + 2 <= MAX_HEADER_SIZE
      && |RawLines(trailers)| + 2 <= MAX_HEADER_SIZE
    }
  }

  /** The carriage return of the blank line that ends a block of header lines. */
  lemma BlankCr(skip: bool, p: P)
    requires p.state.HeaderFieldStart? && p.nread < MAX_HEADER_SIZE
    ensures Feed(skip, p, "\r") == Trace(Go, 1, p.(state := HeadersAlmostDone, nread := p.nread + 1), [], [])
  {
    hide Feed, Token, FieldNext, FieldFirst, ValueNext, ValueFirst, EndOfHeaders;
    FeedOne(skip, p, CR);
  }

  /** The line feed of that line, in terms of the arm it runs. */
  lemma BlankLf(skip: bool, p: P)
    requires p.state.HeadersAlmostDone? && p.nread < MAX_HEADER_SIZE
    ensures var o, s := EndOfHeaders(skip, Counted(p)), Feed(skip, p, "\n");
      && s.v == o.v && s.p == o.p
      && (SpansOf(o.p.state) == NoSpans || !o.v.Go? ==> s.url == Notes(o.acts) && s.other == Notes(o.acts))
  {
    hide Feed, Token, FieldNext, FieldFirst, ValueNext, ValueFirst, EndOfHeaders, EndOfLine, Notes;
    StepByte(skip, p, LF);
  }

  lemma TrailerEnd(skip: bool, p: P)
    requires p.state.HeaderFieldStart? && p.flags.trailing && p.nread + 2 <= MAX_HEADER_SIZE
    ensures Feed(skip, p, CRLF) ==
      Trace(Go, 2, p.(state := NewMessage(p), nread := p.nread + 2), [N(MessageComplete)], [N(MessageComplete)])
  {
    hide Feed, NewMessage, Arm, SpansOf;
    BlankCr(skip, p);
    var q := p.(state := HeadersAlmostDone, nread := p.nread + 1);
    BlankLf(skip, q);
    FeedAppend(skip, p, "\r", "\n");
    assert "\r" + "\n" == CRLF;
    NewMessageIgnoresCounts(p, Counted(q));
    NewMessageOpensNothing(Counted(q));
    assert |"\n"| == 1;
  }

  lemma NewMessageIgnoresCounts(p: P, q: P)
    requires q.typ == p.typ && q.flags == p.flags && q.major == p.major && q.minor == p.minor
    ensures NewMessage(q) == NewMessage(p)
  {
  }

  /** A chunked body is delivered as exactly the bytes its chunks encode, followed by its trailer
      lines and one message_complete. */
  lemma ChunkedRoundTrip(skip: bool, p: P, b: ChunkedBody)
    requires Between(p) && b.Valid()
    ensures var r := Feed(skip, p, b.Raw());
      && r == Trace(Go, |b.Raw()|, r.p, [N(MessageComplete)],
           Tag(Body, DataOf(b.chunks)) + Shown(b.trailers) + [N(MessageComplete)])
      && r.p.flags == FlagsAfter(p.flags.(trailing := true), b.trailers)
      && r.p.state == NewMessage(r.p) && r.p.meth == p.meth && r.p.typ == p.typ
      && r.p.major == p.major && r.p.minor == p.minor && r.p.status == p.status
      && r.p.nread == |RawLines(b.trailers)| + 2 && r.p.upgrade == p.upgrade
  {
    hide Feed, Step, Tag, Shown, RawLines, RawChunks, DataOf, Hex, HexText, ExtText, NewMessage, FlagsAfter;
    hide LengthAfter;
    var chunks, zero, lines := RawChunks(b.chunks), b.zero + b.ext + CRLF, RawLines(b.trailers);
    ChunksFeed(skip, p, b.chunks);
    var p1 := Feed(skip, p, chunks).p;
    SizeLine(skip, p1, b.zero, b.ext);
    FeedAppend(skip, p, chunks, zero);
    var p2 := Feed(skip, p1, zero).p;
    LinesFeed(skip, p2, b.trailers);
    LinesKeepTrailing(p2.flags, b.trailers);
    FeedAppend(skip, p, chunks + zero, lines);
    var p3 := Feed(skip, p2, lines).p;
    TrailerEnd(skip, p3);
    FeedAppend(skip, p, chunks + zero + lines, CRLF);
    var p4 := Feed(skip, p3, CRLF).p;
    NewMessageIgnoresCounts(p3, p4);
  }
}
