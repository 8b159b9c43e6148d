/** A request that asks for an upgrade in the buffer in which a chunked request ends: the parser cannot be
    used again unless the new request is chunked as well. */
module HttpUpgrade {
  import opened HttpTypes
  import opened HttpArms
  import opened HttpMachine
  import opened HttpSplit
  import opened HttpExecute
  import opened HttpHeaders
  import opened HttpBody
  import opened HttpMessage
  import opened HttpCalls

  /** The end of a chunked message without trailers: the rest of the last chunk and the zero chunk. */
  function LastOfBody(d: string): string { d + CRLF + ("0" + "" + CRLF) + CRLF }

  lemma ZeroLine(skip: bool, p: P)
    requires Between(p)
    ensures var s := "0" + "" + CRLF;
      Feed(skip, p, s) == Trace(Go, |s|, p.(state := HeaderFieldStart, clen := 0,
        flags := p.flags.(trailing := true)), [], [])
  {
    assert "0"[..0] == "" && HexText("0") && Hex("0") == 0 && ExtText("");
    hide Feed, Hex, HexText, ExtText;
    SizeLine(skip, p, "0", "");
  }

  lemma BodyEnds(skip: bool, p: P, d: string)
    requires p.state.ChunkData? && p.flags.chunked && 0 < |d| == p.clen < TWO_63 && p.nread == 0
    ensures var r := Feed(skip, p, LastOfBody(d)); var f := p.flags.(trailing := true);
      r.v.Go? && r.p == p.(state := NewMessage(p.(flags := f)), clen := 0, flags := f, nread := 2)
  {
    hide Feed, NewMessage, Tag;
    var zero := "0" + "" + CRLF;
    ChunkRun(skip, p, d);
    var p1 := Consumed(p, |d|, ChunkDataAlmostDone);
    DataEnd(skip, p1);
    FeedAppend(skip, p, d, CRLF);
    var p2 := p1.(state := ChunkSizeStart);
    ZeroLine(skip, p2);
    FeedAppend(skip, p, d + CRLF, zero);
    var p3 := p2.(state := HeaderFieldStart, clen := 0, flags := p.flags.(trailing := true));
    TrailerEnd(skip, p3);
    NewMessageIgnoresCounts(p3, p.(flags := p.flags.(trailing := true)));
    FeedAppend(skip, p, d + CRLF + zero, CRLF);
  }

  /** The blank line of a message for another protocol ends the call. */
  lemma BlankExits(skip: bool, p: P)
    requires p.state.HeaderFieldStart? && p.nread + 2 <= MAX_HEADER_SIZE && !p.flags.trailing
    requires p.flags.upgrade || p.meth == CONNECT
    ensures var r := Feed(skip, p, CRLF); r.v.Exit? && r.p.flags.chunked == p.flags.chunked
  {
    hide Feed, SpansOf, Notes;
    BlankCr(skip, p);
    BlankLf(skip, p.(state := HeadersAlmostDone, nread := p.nread + 1));
    FeedAppend(skip, p, "\r", "\n");
    assert "\r" + "\n" == CRLF;
  }

  lemma RequestUpgrades(skip: bool, p: P, l: RequestLine, ls: seq<Line>)
    requires AtRequest(p) && l.Valid() && ValidLines(ls) && (FlagsAfter(NoFlags, ls).upgrade || l.meth == CONNECT)
    requires p.nread + |l.Raw()| + |RawLines(ls)| + 2 <= MAX_HEADER_SIZE
    ensures var r := Feed(skip, p, l.Raw() + RawLines(ls) + CRLF);
      r.v.Exit? && r.p.flags.chunked == FlagsAfter(NoFlags, ls).chunked
  {
    hide Feed, Tag, RawLines, FlagsAfter, LengthAfter, Decimal, MethodString, HttpBody.Shown;
    RequestLineFeed(skip, p, l);
    var p1 := Feed(skip, p, l.Raw()).p;
    LinesFeed(skip, p1, ls);
    LinesKeepTrailing(p1.flags, ls);
    FeedAppend(skip, p, l.Raw(), RawLines(ls));
    BlankExits(skip, Feed(skip, p1, RawLines(ls)).p);
    FeedAppend(skip, p, l.Raw() + RawLines(ls), CRLF);
  }

  /** A buffer that starts inside a chunk and ends with a request for another protocol. */
  lemma UpgradeInChunk(skip: bool, p: P, d: string, l: RequestLine, ls: seq<Line>)
    requires p.state.ChunkData? && p.flags.chunked && 0 < |d| == p.clen < TWO_63 && p.nread == 0
    requires p.typ.Request? && KeepAlive(p) && l.Valid() && ValidLines(ls)
    requires FlagsAfter(NoFlags, ls).upgrade || l.meth == CONNECT
    requires |l.Raw()| + |RawLines(ls)| + 4 <= MAX_HEADER_SIZE
    ensures var r := Exec(skip, p, LastOfBody(d) + (l.Raw() + RawLines(ls) + CRLF));
      r.v.Exit? && r.p.state.ChunkData? && (Trapped(r.p) <==> !FlagsAfter(NoFlags, ls).chunked)
  {
    hide Feed, RawLines, FlagsAfter, RequestLine.Raw, LastOfBody;
    BodyEnds(skip, p, d);
    var q := Feed(skip, p, LastOfBody(d)).p;
    RequestUpgrades(skip, q, l, ls);
    FeedAppend(skip, p, LastOfBody(d), l.Raw() + RawLines(ls) + CRLF);
  }

  // ----- an input

  const ROOT: Target := Target(None, "/", None, None)
  const HTTP11: Version := Version("1", "1")
  const CHUNKS: Line := Line("transfer-encoding", 1, "chunked", true)
  const OTHER: Line := Line("upgrade", 1, "x", true)

  lemma NamesAre()
    ensures NameClass(CHUNKS.name) == TransferEncoding && NameClass(OTHER.name) == Upgrade
  {
    var s, t := CHUNKS.name, OTHER.name;
    assert FoldAll(s) == s && s[0] == 't' && FoldAll(t) == t && t[0] == 'u';
  }

  lemma LinesValid()
    ensures ValidLines([CHUNKS]) && ValidLines([OTHER])
  {
    NamesAre();
    hide NameClass;
    assert CHUNKS.Valid() && OTHER.Valid();
  }

  lemma OneLine(f: Flags, l: Line)
    ensures FlagsAfter(f, [l]) == LineFlags(f, l.name, l.value)
  {
    hide LineFlags;
    assert [l][1..] == [];
  }

  lemma LinesMean()
    ensures FlagsAfter(NoFlags, [CHUNKS]) == NoFlags.(chunked := true)
    ensures FlagsAfter(NoFlags, [OTHER]) == NoFlags.(upgrade := true)
  {
    NamesAre();
    OneLine(NoFlags, CHUNKS);
    OneLine(NoFlags, OTHER);
    hide NameClass, FlagsAfter;
    assert FoldAll(CHUNKS.value) == CHUNKED;
  }

  lemma RequestsRaw()
    ensures RequestLine(POST, ROOT, HTTP11).Raw() == "POST / HTTP/1.1\r\n"
    ensures RequestLine(GET, ROOT, HTTP11).Raw() == "GET / HTTP/1.1\r\n"
  {
    var t, v := ROOT.Raw(), HTTP11.Raw();
    assert t == "/" && v == "1.1" && MethodString(POST) == "POST" && MethodString(GET) == "GET";
    hide Target.Raw, Version.Raw, MethodString;
    assert "POST" + " " + t + " " + "HTTP/" + v + CRLF == "POST / HTTP/1.1\r\n";
    assert "GET" + " " + t + " " + "HTTP/" + v + CRLF == "GET / HTTP/1.1\r\n";
  }

  lemma OneRaw(l: Line)
    requires l.pad == 1 && l.crlf
    ensures RawLines([l]) == l.name + ": " + l.value + CRLF
  {
    assert [l][1..] == [] && Spaces(1) == " ";
    assert l.Raw() + "" == l.name + ": " + l.value + CRLF;
  }

  lemma LinesRaw()
    ensures RawLines([CHUNKS]) == "transfer-encoding: chunked\r\n" && RawLines([OTHER]) == "upgrade: x\r\n"
  {
    OneRaw(CHUNKS);
    OneRaw(OTHER);
    hide RawLines;
    assert CHUNKS.name + ": " + CHUNKS.value + CRLF == "transfer-encoding: chunked\r\n";
    assert OTHER.name + ": " + OTHER.value + CRLF == "upgrade: x\r\n";
  }

  lemma RawAre()
    ensures RequestLine(POST, ROOT, HTTP11).Raw() == "POST / HTTP/1.1\r\n"
    ensures RequestLine(GET, ROOT, HTTP11).Raw() == "GET / HTTP/1.1\r\n"
    ensures RawLines([CHUNKS]) == "transfer-encoding: chunked\r\n" && RawLines([OTHER]) == "upgrade: x\r\n"
  {
    RequestsRaw();
    LinesRaw();
    hide RawLines, RequestLine.Raw;
  }

  lemma VersionIs()
    ensures ROOT.Valid() && HTTP11.Valid() && Decimal("1") == 1
  {
    assert "1"[..0] == "" && "/"[1..] == "";
  }

  /** The record after the blank line of "POST / HTTP/1.1" with the line for chunks. */
  function InBody(p: P): P
  {
    p.(flags := NoFlags.(chunked := true), state := ChunkSizeStart, nread := 0, clen := TWO_64 - 1,
       major := 1, minor := 1, meth := POST)
  }

  lemma ChunksAnnounced()
    ensures ValidLines([CHUNKS]) && FlagsAfter(NoFlags, [CHUNKS]) == NoFlags.(chunked := true)
    ensures LengthAfter(TWO_64 - 1, [CHUNKS]) == TWO_64 - 1
    ensures Announces(NoFlags, TWO_64 - 1, [CHUNKS], Chunked(ChunkedBody([], "0", "", [])))
  {
    LinesValid();
    LinesMean();
    NamesAre();
    hide NameClass;
    assert "0"[..0] == "" && ChunkedBody([], "0", "", []).Valid();
    assert [CHUNKS][1..] == [];
  }

  lemma ChunkedHead(p: P)
    requires AtRequest(p) && !p.upgrade && p.nread < 256
    ensures var s := RequestLine(POST, ROOT, HTTP11).Raw() + RawLines([CHUNKS]) + CRLF;
      var r := Feed(false, p, s); r.v.Go? && r.p == InBody(p).(hs := r.p.hs, index := r.p.index)
  {
    var l, c := RequestLine(POST, ROOT, HTTP11), Chunked(ChunkedBody([], "0", "", []));
    RawAre();
    VersionIs();
    ChunksAnnounced();
    hide Feed, RawLines, FlagsAfter, LengthAfter, Decimal, Tag, HttpBody.Shown, RequestLine.Raw, Announces, ValidLines;
    hide Target.Valid, Version.Valid, NewMessage, MethodString;
    RequestLineFeed(false, p, l);
    var q := Feed(false, p, l.Raw()).p;
    HeadFeed(q, [CHUNKS], c);
    FeedAppend(false, p, l.Raw(), RawLines([CHUNKS]) + CRLF);
    assert l.Raw() + (RawLines([CHUNKS]) + CRLF) == l.Raw() + RawLines([CHUNKS]) + CRLF;
  }

  lemma FiveIs()
    ensures HexText("5") && Hex("5") % TWO_64 == 5 && ExtText("")
  {
    assert "5"[..0] == "" && Hex("5") == 5;
  }

  /** Three bytes of a chunk of five. */
  lemma PartOfChunk(p: P)
    requires Between(p)
    ensures var s := ("5" + "" + CRLF) + "hel"; var r := Feed(false, p, s);
      r.v.Go? && r.p == p.(state := ChunkData, clen := 2)
  {
    hide Feed, Hex, HexText, ExtText, Tag;
    FiveIs();
    var line := "5" + "" + CRLF;
    SizeLine(false, p, "5", "");
    ChunkRun(false, p.(state := ChunkData, clen := 5), "hel");
    FeedAppend(false, p, line, "hel");
  }

  lemma FirstText(a: string)
    requires a == "POST / HTTP/1.1\r\n" + "transfer-encoding: chunked\r\n" + "\r\n" + "5\r\nhel"
    ensures a == RequestLine(POST, ROOT, HTTP11).Raw() + RawLines([CHUNKS]) + CRLF + (("5" + "" + CRLF) + "hel")
  {
    RawAre();
    hide RawLines, RequestLine.Raw;
    assert ("5" + "" + CRLF) + "hel" == "5\r\nhel";
  }

  lemma FirstBuffer(a: string)
    requires a == "POST / HTTP/1.1\r\n" + "transfer-encoding: chunked\r\n" + "\r\n" + "5\r\nhel"
    ensures var r := Exec(false, Init(Request), a);
      r.v.Go? && r.p == InBody(Init(Request)).(hs := r.p.hs, index := r.p.index, state := ChunkData, clen := 2)
  {
    FirstText(a);
    hide Feed, RawLines, RequestLine.Raw;
    var p := Init(Request);
    var head, part := RequestLine(POST, ROOT, HTTP11).Raw() + RawLines([CHUNKS]) + CRLF, ("5" + "" + CRLF) + "hel";
    ChunkedHead(p);
    PartOfChunk(Feed(false, p, head).p);
    FeedAppend(false, p, head, part);
  }

  lemma SecondText(b: string)
    requires b == "lo\r\n0\r\n\r\n" + "GET / HTTP/1.1\r\n" + "upgrade: x\r\n" + "\r\n"
    ensures b == LastOfBody("lo") + (RequestLine(GET, ROOT, HTTP11).Raw() + RawLines([OTHER]) + CRLF)
    ensures |RequestLine(GET, ROOT, HTTP11).Raw() + RawLines([OTHER])| < 100
  {
    RawAre();
    assert LastOfBody("lo") == "lo\r\n0\r\n\r\n";
    hide RawLines, RequestLine.Raw, LastOfBody;
  }

  lemma SecondBuffer(p: P, b: string)
    requires p == InBody(Init(Request)).(hs := p.hs, index := p.index, state := ChunkData, clen := 2)
    requires b == "lo\r\n0\r\n\r\n" + "GET / HTTP/1.1\r\n" + "upgrade: x\r\n" + "\r\n"
    ensures Exec(false, p, b).v.Exit? && Trapped(Exec(false, p, b).p)
  {
    SecondText(b);
    VersionIs();
    LinesValid();
    LinesMean();
    hide Exec, RawLines, FlagsAfter, RequestLine.Raw, LastOfBody, Trapped, ValidLines;
    UpgradeInChunk(false, p, "lo", RequestLine(GET, ROOT, HTTP11), [OTHER]);
  }

  /** Three buffers for a fresh parser: a chunked request up to the middle of a chunk; the rest of it and a
      request that asks for another protocol; and one more byte, which makes an assertion fail. */
  lemma UpgradeFails(a: string, b: string)
    requires a == "POST / HTTP/1.1\r\n" + "transfer-encoding: chunked\r\n" + "\r\n" + "5\r\nhel"
    requires b == "lo\r\n0\r\n\r\n" + "GET / HTTP/1.1\r\n" + "upgrade: x\r\n" + "\r\n"
    ensures var cs := Calls(false, Init(Request), [a, b, "x"]);
      |cs| == 3 && cs[0].v.Go? && cs[1].v.Exit? && cs[2].v.AssertFails?
  {
    var p0 := Init(Request);
    FirstBuffer(a);
    var p1 := Exec(false, p0, a).p;
    SecondBuffer(p1, b);
    var p2 := Exec(false, p1, b).p;
    assert AtCall(p1) && AtCall(p0);
    hide Exec, Trapped, AtCall;
    OneCall(false, p0, a);
    OneCall(false, p1, b);
    OneCall(false, p2, "x");
    assert [a, b, "x"][1..] == [b, "x"] && [b, "x"][1..] == ["x"] && ["x"][1..] == [];
    assert Calls(false, p2, ["x"]) == [Exec(false, p2, "x")];
    assert Calls(false, p1, [b, "x"]) == [Exec(false, p1, b)] + [Exec(false, p2, "x")];
  }
}
