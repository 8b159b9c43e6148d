/** The specification of the parser: a machine that reads one byte, changes state, and at once
    emits the byte for every datum it belongs to. It knows nothing of buffers, marks or runs of
    body bytes; which datum a byte belongs to is decided by the states alone. */
module HttpMachine {
  import opened HttpTypes
  import opened HttpArms

  /** What an observer sees: notifications, and single bytes of a datum. */
  datatype Obs = N(note: Note) | D(kind: Kind, ch: char)

  /** The data a state is inside of. The URL overlaps its own parts; all other data exclude
      each other. */
  datatype Spans = Spans(url: bool, other: Option<Kind>)

  const NoSpans := Spans(false, None)

  function SpansOf(st: State): Spans
  {
    match st
    case ReqSchema | ReqSchemaSlash | ReqSchemaSlashSlash | ReqHost | ReqPort | ReqQueryStart | ReqFragmentStart =>
      Spans(true, None)
    case ReqPath => Spans(true, Some(Path))
    case ReqQuery => Spans(true, Some(Query))
    case ReqFragment => Spans(true, Some(Fragment))
    case HeaderField => Spans(false, Some(Field))
    case HeaderValue => Spans(false, Some(Value))
    case _ => NoSpans
  }

  function Notes(acts: Acts): seq<Obs>
  {
    match acts
    case Done => []
    case Do(Notify(n), rest) => [N(n)] + Notes(rest)
    case Do(_, rest) => Notes(rest)
  }

  /** One step: the verdict, the new record, and what the URL observer and the observer of
      everything else see. */
  datatype Outcome = Outcome(v: Verdict, p: P, url: seq<Obs>, other: seq<Obs>)

  function Counted(p: P): P { if ParsingHeader(p.state) then p.(nread := p.nread + 1) else p }

  /** One byte of a body of known length; `next` is the state after its last byte. */
  function BodyByte(p: P, ch: char, next: State, last: seq<Obs>): Outcome
    requires p.clen > 0
  {
    var q := p.(clen := p.clen - 1);
    if q.clen == 0 then Outcome(Go, q.(state := next), last, [D(Body, ch)] + last)
    else Outcome(Go, q, [], [D(Body, ch)])
  }

  function Step(skip: bool, p: P, ch: char): Outcome
  {
    var q := Counted(p);
    if ParsingHeader(p.state) && q.nread > MAX_HEADER_SIZE then Outcome(Fail, p, [], [])
    else if p.state.BodyIdentity? then
      if p.clen == 0 then Outcome(Go, p, [], []) else BodyByte(p, ch, NewMessage(p), [N(MessageComplete)])
    else if p.state.BodyIdentityEof? then Outcome(Go, p, [], [D(Body, ch)])
    else if p.state.ChunkData? then
      if !p.flags.chunked then Outcome(AssertFails, p, [], [])
      else if p.clen >= TWO_63 then Outcome(Undefined, p, [], [])
      else if p.clen == 0 then Outcome(Go, p.(state := ChunkDataAlmostDone), [], [])
      else BodyByte(p, ch, ChunkDataAlmostDone, [])
    else
      var o := Arm(skip, q, ch);
      var sp := if o.v.Go? then SpansOf(o.p.state) else NoSpans;
      Outcome(o.v, o.p,
              Notes(o.acts) + (if sp.url then [D(Url, ch)] else []),
              Notes(o.acts) + (if sp.other.Some? then [D(sp.other.value, ch)] else []))
  }

  /** A step through the switch, below the header limit. */
  lemma StepIs(skip: bool, p: P, ch: char, o: Out)
    requires !Bulk(p.state) && Counted(p).nread <= MAX_HEADER_SIZE && o == Arm(skip, Counted(p), ch)
    ensures o.v.Go? ==> Step(skip, p, ch) == Outcome(Go, o.p,
      Notes(o.acts) + (if SpansOf(o.p.state).url then [D(Url, ch)] else []),
      Notes(o.acts) + (if SpansOf(o.p.state).other.Some? then [D(SpansOf(o.p.state).other.value, ch)] else []))
  {
    hide Arm, Notes, SpansOf;
  }

  /** A run over some bytes: it stops at the first byte whose verdict is not Go. */
  datatype Trace = Trace(v: Verdict, used: nat, p: P, url: seq<Obs>, other: seq<Obs>)

  function Feed(skip: bool, p: P, data: string): (r: Trace)
    ensures r.used <= |data|
    ensures r.v.Go? ==> r.used == |data|
    ensures !r.v.Go? ==> r.used < |data|
  {
    if data == [] then Trace(Go, 0, p, [], [])
    else
      var n := |data| - 1;
      var r := Feed(skip, p, data[..n]);
      if !r.v.Go? then r
      else
        var o := Step(skip, r.p, data[n]);
        Trace(o.v, if o.v.Go? then n + 1 else n, o.p, r.url + o.url, r.other + o.other)
  }

  /** Continue a run with another one. */
  function Then(r: Trace, s: Trace): Trace
  {
    if r.v.Go? then Trace(s.v, r.used + s.used, s.p, r.url + s.url, r.other + s.other) else r
  }

  lemma ThenAgain(r: Trace, s: Trace, o: Outcome)
    requires r.v.Go? && s.v.Go?
    ensures Trace(o.v, r.used + s.used, o.p, (r.url + s.url) + o.url, (r.other + s.other) + o.other)
      == Trace(o.v, r.used + s.used, o.p, r.url + (s.url + o.url), r.other + (s.other + o.other))
  {
  }

  /** The last byte of a run. */
  lemma FeedLast(skip: bool, p: P, s: string, ch: char)
    ensures var r := Feed(skip, p, s);
      Feed(skip, p, s + [ch]) ==
        if !r.v.Go? then r
        else var o := Step(skip, r.p, ch);
          Trace(o.v, if o.v.Go? then |s| + 1 else |s|, o.p, r.url + o.url, r.other + o.other)
  {
    hide Step;
    assert (s + [ch])[..|s|] == s;
  }

  lemma {:induction false} FeedAppend(skip: bool, p: P, a: string, b: string)
    ensures Feed(skip, p, a + b) == Then(Feed(skip, p, a), Feed(skip, Feed(skip, p, a).p, b))
    decreases |b|
  {
    hide Step, Feed;
    FeedEmpty(skip, Feed(skip, p, a).p);
    if b == [] {
      assert a + b == a;
      ThenNothing(Feed(skip, p, a));
    } else {
      var n := |b| - 1;
      var c, ch := b[..n], b[n];
      var r := Feed(skip, p, a);
      var s := Feed(skip, r.p, c);
      FeedAppend(skip, p, a, c);
      assert b == c + [ch] && a + b == (a + c) + [ch];
      FeedLast(skip, p, a + c, ch);
      FeedLast(skip, r.p, c, ch);
      if r.v.Go? && s.v.Go? { ThenAgain(r, s, Step(skip, s.p, ch)); }
    }
  }

  lemma FeedEmpty(skip: bool, p: P)
    ensures Feed(skip, p, "") == Trace(Go, 0, p, [], [])
  {
  }

  lemma ThenNothing(r: Trace)
    ensures Then(r, Trace(Go, 0, r.p, [], [])) == r
  {
  }

  lemma FeedOne(skip: bool, p: P, ch: char)
    ensures var o := Step(skip, p, ch);
      Feed(skip, p, [ch]) == Trace(o.v, if o.v.Go? then 1 else 0, o.p, o.url, o.other)
  {
    hide Step;
    assert [ch][..0] == "";
  }

  function Tag(k: Kind, s: string): (r: seq<Obs>)
    ensures |r| == |s|
  {
    seq(|s|, i requires 0 <= i < |s| => D(k, s[i]))
  }

  lemma TagAppend(k: Kind, s: string, t: string)
    ensures Tag(k, s + t) == Tag(k, s) + Tag(k, t)
  {
  }

  // ----- data that are open

  /** The datum of an observer that a state is inside of. */
  function Open(url: bool, st: State): Option<Kind>
  {
    if url then if SpansOf(st).url then Some(Url) else None else SpansOf(st).other
  }

  /** How many of the last bytes of a buffer belong to a datum that is still open after it. */
  function OpenLen(url: bool, skip: bool, p: P, data: string): (n: nat)
    ensures n <= |data|
  {
    if data == [] then 0
    else
      var a, k := data[..|data| - 1], Open(url, Feed(skip, p, data).p.state);
      if k.None? then 0 else if Open(url, Feed(skip, p, a).p.state) == k then 1 + OpenLen(url, skip, p, a) else 1
  }

  /** What the observer would be shown of these bytes: a call that fails does not deliver them. */
  function KeptBack(url: bool, skip: bool, p: P, data: string): seq<Obs>
  {
    var k := Open(url, Feed(skip, p, data).p.state);
    if k.None? then [] else Tag(k.value, data[|data| - OpenLen(url, skip, p, data)..])
  }

  // ----- the invariant of reachable records

  predicate ValueHState(h: HState) { !h.Connection? && !h.TransferEncoding? }

  /** A bound for `index` while a header name or value is compared with a fixed word. */
  predicate IndexFits(p: P)
  {
    && (p.state.ReqMethod? ==> 1 <= p.index <= |MethodString(p.meth)| + 1)
    && p.index <= 255
    && ((p.state.HeaderField? || p.state.HeaderValue?) ==>
          match p.hs
          case C => p.index == 0
          case CO => p.index == 1
          case CON => p.index == 2
          case MatchConnection => 3 <= p.index < |CONNECTION| - 1
          case MatchProxyConnection => p.index < |PROXY_CONNECTION| - 1
          case MatchContentLength => 3 <= p.index < |CONTENT_LENGTH| - 1
          case MatchTransferEncoding => p.index < |TRANSFER_ENCODING| - 1
          case MatchUpgrade => p.index < |UPGRADE| - 1
          case MatchChunked => p.index < |CHUNKED| - 1
          case MatchKeepAlive => p.index < |KEEP_ALIVE| - 1
          case MatchClose => p.index < |CLOSE| - 1
          case _ => true)
  }

  predicate Good(p: P)
  {
    && IndexFits(p)
    && p.clen < TWO_64
    && (p.state.HeaderField? ==> FieldHState(p.hs))
    && (p.state.HeaderValueStart? ==> FieldHState(p.hs))
    && (p.state.HeaderValue? ==> ValueHState(p.hs))
    && (ChunkState(p.state) || p.state.ChunkData? ==> p.flags.chunked)
    && (!ParsingHeader(p.state) || p.state.ChunkSizeStart? ==> p.nread == 0)
    && (p.state.BodyIdentity? || p.state.ChunkData? ==> p.clen > 0)
    && !p.state.BodyIdentityEof?
  }

  lemma GoodStart(p: P, ch: char)
    requires Good(p) && p.state in {StartReqOrRes, ResOrRespH, StartRes, StartReq}
    ensures var o := ArmStart(p, ch); !o.v.AssertFails? && !o.v.Undefined? && (o.v.Go? ==> Good(o.p))
  {
  }

  lemma MethodLengths(m: Method)
    ensures 3 <= |MethodString(m)| <= 11 && (m.PROPPATCH? ==> |MethodString(m)| == 9)
  {
  }

  lemma GoodMethod(p: P, ch: char)
    requires Good(p) && p.state.ReqMethod?
    ensures var o := ArmMethod(p, ch); !o.v.AssertFails? && (o.v.Go? ==> Good(o.p))
    ensures ArmMethod(p, ch).v.Undefined? <==> ch != NUL && p.index == |MethodString(p.meth)| + 1
  {
    hide MethodString;
    MethodLengths(p.meth);
    MethodLengths(ArmMethod(p, ch).p.meth);
  }

  lemma GoodAuthority(p: P, ch: char)
    requires Good(p)
    requires p.state in {ReqSpacesBeforeUrl, ReqSchema, ReqSchemaSlash, ReqSchemaSlashSlash, ReqHost, ReqPort}
    ensures var o := ArmUrl(p, ch); !o.v.AssertFails? && !o.v.Undefined? && (o.v.Go? ==> Good(o.p))
  {
    hide IsAlpha, NormalUrlChar, IsDigit, MethodString;
  }

  lemma GoodPath(p: P, ch: char)
    requires Good(p) && p.state in {ReqPath, ReqQueryStart, ReqQuery, ReqFragmentStart, ReqFragment}
    ensures var o := ArmUrl(p, ch); !o.v.AssertFails? && !o.v.Undefined? && (o.v.Go? ==> Good(o.p))
  {
    hide IsAlpha, NormalUrlChar, IsDigit, MethodString;
  }

  lemma GoodUrl(p: P, ch: char)
    requires Good(p) && UrlState(p.state)
    ensures var o := ArmUrl(p, ch); !o.v.AssertFails? && !o.v.Undefined? && (o.v.Go? ==> Good(o.p))
  {
    hide ArmUrl, Good;
    if p.state in {ReqPath, ReqQueryStart, ReqQuery, ReqFragmentStart, ReqFragment} {
      GoodPath(p, ch);
    } else {
      GoodAuthority(p, ch);
    }
  }

  lemma GoodReqVersion(p: P, ch: char)
    requires Good(p) && ReqVersionState(p.state)
    ensures var o := ArmReqVersion(p, ch); !o.v.AssertFails? && !o.v.Undefined? && (o.v.Go? ==> Good(o.p))
  {
    hide IsDigit, Digit, MethodString;
  }

  lemma GoodRes(p: P, ch: char)
    requires Good(p) && ResState(p.state)
    ensures var o := ArmRes(p, ch); !o.v.AssertFails? && !o.v.Undefined? && (o.v.Go? ==> Good(o.p))
  {
    hide IsDigit, Digit, MethodString;
  }

  lemma GoodFieldNext(p: P, ch: char, c: char)
    requires Good(p) && p.state.HeaderField?
    ensures var (h, i) := FieldNext(p.hs, p.index, ch, c); Good(p.(hs := h, index := i))
  {
  }

  lemma GoodValueFirst(p: P, ch: char)
    requires Good(p) && p.state.HeaderValueStart?
    ensures var o := ValueFirst(p.(state := HeaderValue, index := 0), ch);
      !o.v.AssertFails? && !o.v.Undefined? && (o.v.Go? ==> Good(o.p))
  {
    hide Lower, MethodString;
  }

  lemma AdvanceFits(p: P, word: string, c: char, matching: HState, found: HState)
    requires Good(p) && p.state.HeaderValue? && p.index < |word| - 1 && |word| <= 200
    requires (matching, found, word) in
      {(MatchChunked, IsChunked, CHUNKED), (MatchKeepAlive, IsKeepAlive, KEEP_ALIVE), (MatchClose, IsClose, CLOSE)}
    ensures Good(p.(index := p.index + 1, hs := Advance(word, p.index + 1, c, matching, found)))
  {
    hide MethodString;
  }

  lemma GoodValueNext(p: P, ch: char)
    requires Good(p) && p.state.HeaderValue?
    ensures var o := ValueNext(p, ch); !o.v.AssertFails? && !o.v.Undefined? && (o.v.Go? ==> Good(o.p))
  {
    if p.hs.MatchChunked? {
      AdvanceFits(p, CHUNKED, Lower(ch), MatchChunked, IsChunked);
    } else if p.hs.MatchKeepAlive? {
      AdvanceFits(p, KEEP_ALIVE, Lower(ch), MatchKeepAlive, IsKeepAlive);
    } else if p.hs.MatchClose? {
      AdvanceFits(p, CLOSE, Lower(ch), MatchClose, IsClose);
    } else {
      hide Lower, MethodString, Advance;
    }
  }

  lemma GoodEndOfHeaders(skip: bool, p: P)
    requires Good(p) && p.state.HeadersAlmostDone?
    ensures var o := EndOfHeaders(skip, p); !o.v.AssertFails? && !o.v.Undefined? && (o.v.Go? ==> Good(o.p))
  {
  }

  lemma GoodHeader(skip: bool, p: P, ch: char)
    requires Good(p) && HeaderState(p.state)
    ensures var o := ArmHeader(skip, p, ch); !o.v.AssertFails? && !o.v.Undefined? && (o.v.Go? ==> Good(o.p))
  {
    hide Token, FieldNext, ValueFirst, ValueNext, EndOfHeaders, MethodString;
    match p.state {
      case HeaderFieldStart => if ch == LF { GoodEndOfHeaders(skip, p.(state := HeadersAlmostDone)); }
      case HeaderField => GoodFieldNext(p, ch, Token(ch));
      case HeaderValueStart => GoodValueFirst(p, ch);
      case HeaderValue => GoodValueNext(p, ch);
      case HeaderAlmostDone =>
      case HeadersAlmostDone => GoodEndOfHeaders(skip, p);
    }
  }

  lemma GoodChunk(p: P, ch: char)
    requires Good(p) && ChunkState(p.state)
    ensures var o := ArmChunk(Counted(p), ch); !o.v.AssertFails? && !o.v.Undefined? && (o.v.Go? ==> Good(o.p))
  {
    hide Unhex, MethodString;
  }

  lemma GoodArm(skip: bool, p: P, ch: char)
    requires Good(p) && !Bulk(p.state)
    ensures var o := Arm(skip, Counted(p), ch); !o.v.AssertFails? && (o.v.Go? ==> Good(o.p))
    ensures Arm(skip, Counted(p), ch).v.Undefined? ==> p.state.ReqMethod? && p.index == |MethodString(p.meth)| + 1
  {
    hide ArmStart, ArmMethod, ArmUrl, ArmReqVersion, ArmRes, ArmHeader, ArmChunk, Good, MethodString;
    var q := Counted(p);
    if p.state.Dead? {
    } else if ChunkState(p.state) { GoodChunk(p, ch);
    } else {
      GoodCounted(p);
      if p.state in {StartReqOrRes, ResOrRespH, StartRes, StartReq} { GoodStart(q, ch);
      } else if p.state.ReqMethod? { GoodMethod(q, ch);
      } else if UrlState(p.state) { GoodUrl(q, ch);
      } else if ReqVersionState(p.state) { GoodReqVersion(q, ch);
      } else if ResState(p.state) { GoodRes(q, ch);
      } else { GoodHeader(skip, q, ch); }
    }
  }

  lemma GoodCounted(p: P)
    requires Good(p) && !ChunkState(p.state)
    ensures Good(Counted(p))
  {
  }

  lemma GoodBulk(skip: bool, p: P, ch: char)
    requires Good(p) && Bulk(p.state)
    ensures var o := Step(skip, p, ch); !o.v.AssertFails? && (o.v.Go? ==> Good(o.p))
    ensures Step(skip, p, ch).v.Undefined? ==> p.state.ChunkData? && p.clen >= TWO_63
  {
    hide Arm, Notes;
  }

  lemma GoodStep(skip: bool, p: P, ch: char)
    requires Good(p)
    ensures var o := Step(skip, p, ch); !o.v.AssertFails? && (o.v.Go? ==> Good(o.p))
    ensures Step(skip, p, ch).v.Undefined? ==>
      || (p.state.ReqMethod? && p.index == |MethodString(p.meth)| + 1)
      || (p.state.ChunkData? && p.clen >= TWO_63)
  {
    hide Arm, Notes, Good, MethodString;
    if Bulk(p.state) { GoodBulk(skip, p, ch); } else { GoodArm(skip, p, ch); }
  }
}
