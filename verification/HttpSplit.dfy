/** One call of the parser as a function of the record and the buffer, and what cutting the
    input into buffers can change. */
module HttpSplit {
  import opened HttpTypes
  import opened HttpArms
  import opened HttpMachine

  /** What a call leaves in the record: the two counters are stored through an 8-bit cast, and
      a call that does not reach the end of the buffer does not store its locals at all. */
  function Stored(entry: P, r: Trace): P
  {
    match r.v
    case Go => r.p.(index := r.p.index % 256, nread := r.p.nread % 256)
    case Fail => r.p.(state := Dead, hs := entry.hs, index := entry.index, nread := entry.nread)
    case _ => r.p.(state := entry.state, hs := entry.hs, index := entry.index, nread := entry.nread)
  }

  /** One call of http_parser_execute. An empty buffer signals end of file. */
  function Exec(skip: bool, p: P, data: string): Trace
  {
    if data == [] then
      match p.state
      case BodyIdentityEof => Trace(Go, 0, p, [N(MessageComplete)], [N(MessageComplete)])
      case Dead | StartReqOrRes | StartRes | StartReq => Trace(Go, 0, p, [], [])
      case _ => Trace(Fail, 1, p, [], [])
    else
      var r := Feed(skip, p, data);
      r.(p := Stored(p, r))
  }

  /** Consecutive calls, as long as they succeed. */
  function ExecAll(skip: bool, p: P, pieces: seq<string>): Trace
    decreases |pieces|
  {
    if pieces == [] then Trace(Go, 0, p, [], [])
    else
      var r := Exec(skip, p, pieces[0]);
      Then(r, ExecAll(skip, r.p, pieces[1..]))
  }

  function Concat(pieces: seq<string>): string
  {
    if pieces == [] then "" else pieces[0] + Concat(pieces[1..])
  }

  // ----- assertions

  lemma {:induction false} GoodFeed(skip: bool, p: P, data: string)
    requires Good(p)
    ensures var r := Feed(skip, p, data); !r.v.AssertFails? && (r.v.Go? ==> Good(r.p))
  {
    hide Step, Good;
    if data != [] {
      var n := |data| - 1;
      GoodFeed(skip, p, data[..n]);
      var r := Feed(skip, p, data[..n]);
      if r.v.Go? { GoodStep(skip, r.p, data[n]); }
    }
  }

  lemma GoodStored(p: P)
    requires Good(p)
    ensures Good(p.(index := p.index % 256, nread := p.nread % 256))
  {
  }

  lemma GoodInit(t: Type)
    ensures Good(Init(t))
  {
  }

  /** Once dead, a parser rejects every further byte and stays dead. */
  lemma {:induction false} DeadStaysDead(skip: bool, p: P, data: string)
    requires p.state.Dead?
    ensures var r := Exec(skip, p, data);
      r.p == p && r.url == [] && r.other == [] && r.v == (if data == [] then Go else Fail) && r.used == 0
  {
    if data != [] {
      DeadFeed(skip, p, data);
    }
  }

  lemma {:induction false} DeadFeed(skip: bool, p: P, data: string)
    requires p.state.Dead? && data != []
    ensures Feed(skip, p, data) == Trace(Fail, 0, Feed(skip, p, data).p, [], [])
    ensures Feed(skip, p, data).p.(nread := p.nread) == p
  {
    if |data| > 1 {
      DeadFeed(skip, p, data[..|data| - 1]);
    } else {
      assert data[..0] == [];
    }
  }

  // ----- cutting the input

  /** The same parser, except that fewer header bytes have been counted. */
  predicate Near(p: P, q: P)
  {
    q == p.(nread := q.nread) && q.nread <= p.nread && Good(p) && Good(q)
  }

  predicate OverLimit(p: P) { ParsingHeader(p.state) && Counted(p).nread > MAX_HEADER_SIZE }

  /** The counter does not influence an arm, which keeps it or resets it. */
  ghost predicate SameButCount(o: Out, o': Out, n: nat, n': nat)
  {
    && o'.v == o.v && o'.acts == o.acts
    && ((o.p.nread == n && o'.p == o.p.(nread := n')) || (o.p.nread == 0 && o'.p == o.p))
  }

  lemma CountStart(p: P, n: nat, ch: char)
    requires p.state in {StartReqOrRes, ResOrRespH, StartRes, StartReq}
    ensures SameButCount(ArmStart(p, ch), ArmStart(p.(nread := n), ch), p.nread, n)
  {
  }

  lemma CountMethod(p: P, n: nat, ch: char)
    ensures SameButCount(ArmMethod(p, ch), ArmMethod(p.(nread := n), ch), p.nread, n)
  {
    hide MethodString, Redirect;
  }

  lemma CountUrl(p: P, n: nat, ch: char)
    requires UrlState(p.state)
    ensures SameButCount(ArmUrl(p, ch), ArmUrl(p.(nread := n), ch), p.nread, n)
  {
    hide IsAlpha, NormalUrlChar, IsDigit;
  }

  lemma CountVersion(p: P, n: nat, ch: char)
    requires ReqVersionState(p.state)
    ensures SameButCount(ArmReqVersion(p, ch), ArmReqVersion(p.(nread := n), ch), p.nread, n)
  {
    hide IsDigit, Digit;
  }

  lemma CountRes(p: P, n: nat, ch: char)
    requires ResState(p.state)
    ensures SameButCount(ArmRes(p, ch), ArmRes(p.(nread := n), ch), p.nread, n)
  {
    hide IsDigit, Digit;
  }

  lemma CountValueFirst(p: P, n: nat, ch: char)
    ensures SameButCount(ValueFirst(p, ch), ValueFirst(p.(nread := n), ch), p.nread, n)
  {
    hide IsDigit, Lower;
  }

  lemma CountValueNext(p: P, n: nat, ch: char)
    ensures SameButCount(ValueNext(p, ch), ValueNext(p.(nread := n), ch), p.nread, n)
  {
    hide IsDigit, Lower, Advance;
  }

  lemma CountEndOfHeaders(skip: bool, p: P, n: nat)
    ensures SameButCount(EndOfHeaders(skip, p), EndOfHeaders(skip, p.(nread := n)), p.nread, n)
  {
  }

  lemma CountHeader(skip: bool, p: P, n: nat, ch: char)
    requires HeaderState(p.state)
    ensures SameButCount(ArmHeader(skip, p, ch), ArmHeader(skip, p.(nread := n), ch), p.nread, n)
  {
    hide Token, FieldFirst, FieldNext, ValueFirst, ValueNext, EndOfHeaders;
    match p.state {
      case HeaderFieldStart => CountEndOfHeaders(skip, p.(state := HeadersAlmostDone), n);
      case HeaderField =>
      case HeaderValueStart => CountValueFirst(p.(state := HeaderValue, index := 0), n, ch);
      case HeaderValue => CountValueNext(p, n, ch);
      case HeaderAlmostDone =>
      case HeadersAlmostDone => CountEndOfHeaders(skip, p, n);
    }
  }

  lemma CountChunk(p: P, n: nat, ch: char)
    requires ChunkState(p.state) && (p.state.ChunkSizeStart? ==> n == p.nread)
    ensures SameButCount(ArmChunk(p, ch), ArmChunk(p.(nread := n), ch), p.nread, n)
  {
    hide Unhex;
  }

  lemma CountArm(skip: bool, p: P, n: nat, ch: char)
    requires !Bulk(p.state) && (p.state.ChunkSizeStart? ==> n == p.nread)
    ensures SameButCount(Arm(skip, p, ch), Arm(skip, p.(nread := n), ch), p.nread, n)
  {
    hide ArmStart, ArmMethod, ArmUrl, ArmReqVersion, ArmRes, ArmHeader, ArmChunk;
    if p.state.Dead? {
    } else if p.state in {StartReqOrRes, ResOrRespH, StartRes, StartReq} { CountStart(p, n, ch);
    } else if p.state.ReqMethod? { CountMethod(p, n, ch);
    } else if UrlState(p.state) { CountUrl(p, n, ch);
    } else if ReqVersionState(p.state) { CountVersion(p, n, ch);
    } else if ResState(p.state) { CountRes(p, n, ch);
    } else if HeaderState(p.state) { CountHeader(skip, p, n, ch);
    } else { CountChunk(p, n, ch); }
  }

  lemma NearStep(skip: bool, p: P, q: P, ch: char)
    requires Near(p, q)
    requires !OverLimit(p)
    ensures var o, o' := Step(skip, p, ch), Step(skip, q, ch);
      o'.v == o.v && o'.url == o.url && o'.other == o.other && (o.v.Go? ==> Near(o.p, o'.p))
  {
    hide Arm, Notes, SpansOf, Good;
    GoodStep(skip, p, ch);
    GoodStep(skip, q, ch);
    if !Bulk(p.state) {
      if p.state.ChunkSizeStart? { NearAtChunkStart(p, q); }
      CountArm(skip, Counted(p), Counted(q).nread, ch);
    }
  }

  lemma NearAtChunkStart(p: P, q: P)
    requires Near(p, q) && p.state.ChunkSizeStart?
    ensures p.nread == 0 && q.nread == 0
  {
  }

  lemma OverLimitStops(skip: bool, p: P, ch: char)
    requires OverLimit(p)
    ensures Step(skip, p, ch) == Outcome(Fail, p, [], [])
  {
  }

  /** The run is stopped by the header limit. */
  predicate LimitHit(skip: bool, p: P, s: string)
  {
    var r := Feed(skip, p, s);
    r.v.Fail? && OverLimit(Feed(skip, p, s[..r.used]).p)
  }

  /** The byte that stops the run would be rejected by its own arm as well, and without a callback. */
  predicate RejectedAnyway(skip: bool, p: P, s: string)
  {
    var r := Feed(skip, p, s);
    !r.v.Go? &&
    var o := Step(skip, Feed(skip, p, s[..r.used]).p.(nread := 0), s[r.used]);
    o.v.Fail? && o.url == [] && o.other == []
  }

  lemma LimitHere(skip: bool, p: P, a: string, b: string)
    requires !Feed(skip, p, a).v.Go?
    ensures LimitHit(skip, p, a + b) <==> LimitHit(skip, p, a)
  {
    hide Step;
    FeedAppend(skip, p, a, b);
    var k := Feed(skip, p, a).used;
    assert (a + b)[..k] == a[..k];
  }

  lemma LimitNeedsInput(skip: bool, p: P)
    ensures !LimitHit(skip, p, "")
  {
  }

  /** Two runs from nearly equal parsers agree, unless the one that counted more bytes is
      stopped by the header limit. */
  lemma {:induction false} NearFeed(skip: bool, p: P, q: P, data: string)
    requires Near(p, q)
    ensures var r, r' := Feed(skip, p, data), Feed(skip, q, data);
      || LimitHit(skip, p, data)
      || (r'.v == r.v && r'.used == r.used && r'.url == r.url && r'.other == r.other && (r.v.Go? ==> Near(r.p, r'.p)))
  {
    hide Step, Good;
    if data != [] {
      var n := |data| - 1;
      NearFeed(skip, p, q, data[..n]);
      var r, r' := Feed(skip, p, data[..n]), Feed(skip, q, data[..n]);
      if r.v.Go? {
        if OverLimit(r.p) {
          OverLimitStops(skip, r.p, data[n]);
        } else {
          NearStep(skip, r.p, r'.p, data[n]);
        }
      } else {
        assert data == data[..n] + [data[n]];
        LimitHere(skip, p, data[..n], [data[n]]);
      }
    }
  }

  ghost predicate NonEmpty(pieces: seq<string>) { forall i :: 0 <= i < |pieces| ==> pieces[i] != [] }

  /** The state that a split and an unsplit parse share: everything but the byte counter. */
  ghost predicate SameParse(r: Trace, s: Trace)
  {
    s.v == r.v && s.used == r.used && s.url == r.url && s.other == r.other
      && (r.v.Go? ==> s.p == r.p.(nread := s.p.nread))
  }

  lemma NearStored(p: P, q: P)
    requires Near(p, q)
    ensures Near(p, q.(index := q.index % 256, nread := q.nread % 256))
  {
  }

  /** The limit stops the rest of the input exactly if it stops all of it after a part that it lets pass. */
  lemma LimitAfter(skip: bool, p: P, a: string, b: string)
    requires Feed(skip, p, a).v.Go?
    ensures var x := Feed(skip, p, a).p;
      && Feed(skip, p, a + b).used == |a| + Feed(skip, x, b).used
      && (LimitHit(skip, p, a + b) <==> LimitHit(skip, x, b))
      && (RejectedAnyway(skip, p, a + b) <==> RejectedAnyway(skip, x, b))
  {
    hide Step, Feed;
    FeedAppend(skip, p, a, b);
    var x := Feed(skip, p, a).p;
    var k := Feed(skip, x, b).used;
    FeedAppend(skip, p, a, b[..k]);
    assert (a + b)[..|a| + k] == a + b[..k];
  }

  /** Feeding the pieces one call at a time, from a parser near p, is feeding their
      concatenation, or the header limit stops the latter. */
  lemma {:induction false} SplitFeed(skip: bool, p: P, q: P, pieces: seq<string>)
    requires Near(p, q) && NonEmpty(pieces)
    ensures var r, s := Feed(skip, p, Concat(pieces)), ExecAll(skip, q, pieces);
      LimitHit(skip, p, Concat(pieces)) || SameParse(r, s)
    decreases |pieces|
  {
    hide Good, Step, Feed, LimitHit, RejectedAnyway;
    if pieces != [] {
      var a, rest := pieces[0], pieces[1..];
      NearFeed(skip, p, q, a);
      FeedAppend(skip, p, a, Concat(rest));
      var r, s := Feed(skip, p, a), Feed(skip, q, a);
      if r.v.Go? {
        LimitAfter(skip, p, a, Concat(rest));
        if !LimitHit(skip, p, a) {
          NearStored(r.p, s.p);
          SplitFeed(skip, r.p, Stored(q, s), rest);
        } else {
          LimitFails(skip, p, a);
        }
      } else {
        LimitHere(skip, p, a, Concat(rest));
      }
    } else {
      FeedEmpty(skip, p);
    }
  }

  lemma LimitFails(skip: bool, p: P, a: string)
    requires LimitHit(skip, p, a)
    ensures Feed(skip, p, a).v.Fail?
  {
  }

  // ----- exactly when the cut makes a difference

  /** A run that does not end with Go stops in the step on the byte after the last one it has used. */
  lemma {:induction false} FeedStops(skip: bool, p: P, s: string)
    requires !Feed(skip, p, s).v.Go?
    ensures var r := Feed(skip, p, s);
      var a := Feed(skip, p, s[..r.used]);
      var o := Step(skip, a.p, s[r.used]);
      a.v.Go? && a.used == r.used && r.v == o.v && r.p == o.p && r.url == a.url + o.url && r.other == a.other + o.other
  {
    hide Step;
    var n := |s| - 1;
    var r := Feed(skip, p, s[..n]);
    if !r.v.Go? {
      FeedStops(skip, p, s[..n]);
      assert s[..n][..r.used] == s[..r.used];
    }
  }

  /** And the other way round. */
  lemma StepStops(skip: bool, p: P, s: string, k: nat)
    requires k < |s| && Feed(skip, p, s[..k]).v.Go?
    ensures var a, r := Feed(skip, p, s[..k]), Feed(skip, p, s);
      var o := Step(skip, a.p, s[k]);
      if o.v.Go? then r.used > k
      else r == Trace(o.v, k, o.p, a.url + o.url, a.other + o.other)
  {
    hide Step;
    FeedAppend(skip, p, s[..k + 1], s[k + 1..]);
    assert s[..k + 1] + s[k + 1..] == s;
    assert s[..k + 1][..k] == s[..k];
  }

  /** The position at which the piece with byte k starts. */
  function StartOf(pieces: seq<string>, k: nat): (b: nat)
    ensures b <= k
  {
    if pieces == [] || k < |pieces[0]| then 0 else |pieces[0]| + StartOf(pieces[1..], k - |pieces[0]|)
  }

  /** One step counts a header byte or starts counting anew, whatever has been counted before. */
  lemma CountStep(skip: bool, p: P, q: P, ch: char)
    requires Near(p, q) && !OverLimit(p) && Step(skip, p, ch).v.Go?
    ensures var n, n' := Step(skip, p, ch).p.nread, Step(skip, q, ch).p.nread;
      && (n' == n || (n == p.nread + 1 && n' == q.nread + 1)) && n' <= q.nread + 1
      && (p.nread <= MAX_HEADER_SIZE ==> n <= MAX_HEADER_SIZE)
  {
    hide Arm, Notes, SpansOf;
    if !Bulk(p.state) {
      if p.state.ChunkSizeStart? { NearAtChunkStart(p, q); }
      CountArm(skip, Counted(p), Counted(q).nread, ch);
    }
  }

  /** What has been lost of the counter stays lost as long as every byte is counted, and is forgotten
      when counting starts anew. */
  lemma {:induction false} CountFeed(skip: bool, p: P, q: P, s: string)
    requires Near(p, q) && Feed(skip, p, s).v.Go?
    ensures var r, r' := Feed(skip, p, s), Feed(skip, q, s);
      var n, n' := r.p.nread, r'.p.nread;
      && r' == r.(p := r'.p) && Near(r.p, r'.p)
      && (n' == n || (n == p.nread + |s| && n' == q.nread + |s|)) && n' <= q.nread + |s|
      && (p.nread <= MAX_HEADER_SIZE ==> n <= MAX_HEADER_SIZE)
  {
    hide Step, Good;
    if s != [] {
      var n := |s| - 1;
      CountFeed(skip, p, q, s[..n]);
      var a, a' := Feed(skip, p, s[..n]), Feed(skip, q, s[..n]);
      if OverLimit(a.p) {
        OverLimitStops(skip, a.p, s[n]);
      } else {
        NearStep(skip, a.p, a'.p, s[n]);
        CountStep(skip, a.p, a'.p, s[n]);
      }
    }
  }

  /** p has counted all header bytes; q has lost a multiple of 256 of them, and all but the last 255
      at the start of this buffer. */
  ghost predicate Behind(p: P, q: P)
  {
    Near(p, q) && (p.nread - q.nread) % 256 == 0 && q.nread < 256 && p.nread <= MAX_HEADER_SIZE
  }

  /** Within the piece where the limit stops the whole input. */
  lemma LimitInPiece(skip: bool, p: P, q: P, s: string)
    requires Behind(p, q) && LimitHit(skip, p, s)
    ensures var r, r' := Feed(skip, p, s), Feed(skip, q, s);
      && r.v.Fail? && (r'.v.Go? ==> r'.used != r.used)
      && (SameParse(r, r') <==> RejectedAnyway(skip, p, s) || r.used > MAX_HEADER_SIZE - 256)
  {
    hide Step, Good;
    FeedStops(skip, p, s);
    var k := Feed(skip, p, s).used;
    var a := s[..k];
    CountFeed(skip, p, q, a);
    var x, y := Feed(skip, p, a).p, Feed(skip, q, a).p;
    OverLimitStops(skip, x, s[k]);
    StepStops(skip, q, s, k);
    if OverLimit(y) {
      OverLimitStops(skip, y, s[k]);
    } else {
      GoodUncounted(y);
      NearStep(skip, y, x.(nread := 0), s[k]);
    }
  }

  lemma GoodUncounted(p: P)
    requires Good(p)
    ensures Near(p, p.(nread := 0))
  {
  }

  lemma ThenSame(a: Trace, a': Trace, r: Trace, s: Trace)
    requires a.v.Go? && a'.v.Go? && a.used == a'.used && a.url == a'.url && a.other == a'.other
    ensures SameParse(Then(a, r), Then(a', s)) <==> SameParse(r, s)
  {
    assert a.url + r.url == a.url + s.url <==> r.url == s.url by { Cancel(a.url, r.url, s.url); }
    assert a.other + r.other == a.other + s.other <==> r.other == s.other by { Cancel(a.other, r.other, s.other); }
  }

  lemma Cancel<T>(a: seq<T>, b: seq<T>, c: seq<T>)
    ensures a + b == a + c <==> b == c
  {
    if a + b == a + c {
      assert b == (a + b)[|a|..] && c == (a + c)[|a|..];
    }
  }

  lemma BehindStored(p: P, q: P)
    requires Near(p, q) && (p.nread - q.nread) % 256 == 0 && p.nread <= MAX_HEADER_SIZE
    ensures Behind(p, q.(index := q.index % 256, nread := q.nread % 256))
  {
    hide Good;
    NearStored(p, q);
  }

  lemma RejectedHere(skip: bool, p: P, a: string, b: string)
    requires !Feed(skip, p, a).v.Go?
    ensures RejectedAnyway(skip, p, a + b) <==> RejectedAnyway(skip, p, a)
  {
    hide Step;
    FeedAppend(skip, p, a, b);
    var k := Feed(skip, p, a).used;
    assert (a + b)[..k] == a[..k];
  }

  lemma LimitInFirst(skip: bool, p: P, q: P, pieces: seq<string>)
    requires Behind(p, q) && NonEmpty(pieces) && LimitHit(skip, p, Concat(pieces))
    requires pieces != [] && !Feed(skip, p, pieces[0]).v.Go?
    ensures var r, s := Feed(skip, p, Concat(pieces)), ExecAll(skip, q, pieces);
      SameParse(r, s) <==>
        RejectedAnyway(skip, p, Concat(pieces)) || r.used - StartOf(pieces, r.used) > MAX_HEADER_SIZE - 256
  {
    hide Good, Step, Feed, RejectedAnyway, LimitHit;
    var a, rest := pieces[0], pieces[1..];
    FeedAppend(skip, p, a, Concat(rest));
    LimitHere(skip, p, a, Concat(rest));
    RejectedHere(skip, p, a, Concat(rest));
    LimitInPiece(skip, p, q, a);
  }

  /** When the limit stops the whole input: the pieces give the same result exactly if that byte would
      have been rejected anyway, or if its piece starts so early that no counted byte has been lost. */
  lemma {:induction false} SplitLimit(skip: bool, p: P, q: P, pieces: seq<string>)
    requires Behind(p, q) && NonEmpty(pieces) && LimitHit(skip, p, Concat(pieces))
    ensures var r, s := Feed(skip, p, Concat(pieces)), ExecAll(skip, q, pieces);
      SameParse(r, s) <==>
        RejectedAnyway(skip, p, Concat(pieces)) || r.used - StartOf(pieces, r.used) > MAX_HEADER_SIZE - 256
    decreases |pieces|
  {
    hide Good, Step, Feed, RejectedAnyway, LimitHit;
    if pieces == [] {
      LimitNeedsInput(skip, p);
    } else {
      var a, rest := pieces[0], pieces[1..];
      FeedAppend(skip, p, a, Concat(rest));
      var r, s := Feed(skip, p, a), Feed(skip, q, a);
      if r.v.Go? {
        CountFeed(skip, p, q, a);
        LimitAfter(skip, p, a, Concat(rest));
        BehindStored(r.p, s.p);
        SplitLimit(skip, r.p, Stored(q, s), rest);
        ThenSame(r, s, Feed(skip, r.p, Concat(rest)), ExecAll(skip, Stored(q, s), rest));
      } else {
        LimitInFirst(skip, p, q, pieces);
      }
    }
  }

  /** Split invariance. Cut an input into non-empty pieces and parse them with one call each: this ends
      with the same verdict at the same byte, the same record (modulo the byte counter) and the same
      observations, in the same order, as parsing it in one call; exactly if that call stays within
      the header limit, or the byte that exceeds it would have been rejected anyway, or comes more than
      MAX_HEADER_SIZE - 256 bytes after the start of its piece, so that none of the header bytes before
      it were lost when the counter was stored. */
  lemma SplitInvariance(skip: bool, p: P, pieces: seq<string>)
    requires Good(p) && p.nread < 256 && NonEmpty(pieces) && pieces != []
    ensures var s := Concat(pieces);
      var r := Exec(skip, p, s);
      SameParse(r, ExecAll(skip, p, pieces)) <==>
        !LimitHit(skip, p, s) || RejectedAnyway(skip, p, s) || r.used - StartOf(pieces, r.used) > MAX_HEADER_SIZE - 256
  {
    hide Good, Step, Feed, LimitHit, RejectedAnyway;
    var s := Concat(pieces);
    assert s != [] by { assert pieces[0] != []; }
    GoodFeed(skip, p, s);
    if Feed(skip, p, s).v.Go? { GoodIndex(Feed(skip, p, s).p); }
    if LimitHit(skip, p, s) { SplitLimit(skip, p, p, pieces); } else { SplitFeed(skip, p, p, pieces); }
  }

  function Singles(s: string): (pieces: seq<string>)
    ensures |pieces| == |s| && forall i :: 0 <= i < |s| ==> pieces[i] == [s[i]]
  {
    seq(|s|, i requires 0 <= i < |s| => [s[i]])
  }

  lemma {:induction false} SinglesConcat(s: string)
    ensures Concat(Singles(s)) == s
    decreases |s|
  {
    if s != [] {
      assert Singles(s)[1..] == Singles(s[1..]);
      SinglesConcat(s[1..]);
    }
  }

  lemma {:induction false} SinglesStart(s: string, k: nat)
    requires k < |s|
    ensures StartOf(Singles(s), k) == k
    decreases k
  {
    if k > 0 {
      assert Singles(s)[1..] == Singles(s[1..]);
      SinglesStart(s[1..], k - 1);
    }
  }

  /** All ways to cut an input agree exactly if it stays within the limit, or the byte that exceeds it
      would have been rejected anyway. */
  lemma AllCutsAgree(skip: bool, p: P, s: string)
    requires Good(p) && p.nread < 256 && s != []
    ensures (forall pieces :: NonEmpty(pieces) && Concat(pieces) == s ==>
        SameParse(Exec(skip, p, s), ExecAll(skip, p, pieces))) <==>
      !LimitHit(skip, p, s) || RejectedAnyway(skip, p, s)
  {
    hide Good, Feed, LimitHit, RejectedAnyway, Exec, ExecAll, SameParse, Stored;
    forall pieces | NonEmpty(pieces) && Concat(pieces) == s
      ensures !LimitHit(skip, p, s) || RejectedAnyway(skip, p, s) ==>
        SameParse(Exec(skip, p, s), ExecAll(skip, p, pieces))
    {
      assert pieces != [];
      SplitInvariance(skip, p, pieces);
    }
    if LimitHit(skip, p, s) && !RejectedAnyway(skip, p, s) {
      SinglesConcat(s);
      SplitInvariance(skip, p, Singles(s));
      UsedInside(skip, p, s);
      SinglesStart(s, Exec(skip, p, s).used);
      assert NonEmpty(Singles(s));
    }
  }

  lemma UsedInside(skip: bool, p: P, s: string)
    requires LimitHit(skip, p, s)
    ensures s != [] && Exec(skip, p, s).used < |s|
  {
  }

  lemma GoodIndex(p: P)
    requires Good(p)
    ensures p.index % 256 == p.index
  {
  }
}
