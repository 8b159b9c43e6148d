/** Inputs of a fresh parser at which it does not do what it is for: the header limit and the data that are
    delivered depend on how the input is cut, and a method string is read past its end. */
module HttpFailures {
  import opened HttpTypes
  import opened HttpMachine
  import opened HttpSplit
  import opened HttpPieces
  import HttpMessage
  import HttpMethods

  /** The record after "GET " and a path of n bytes in a first buffer. */
  function InPath(n: nat): P
  {
    Init(Request).(state := ReqPath, meth := GET, index := 4, clen := TWO_64 - 1, nread := 4 + n)
  }

  lemma {:induction false} PathBytes(p: P, n: nat)
    requires p.state.ReqPath? && p.nread + n <= MAX_HEADER_SIZE
    ensures var r := Feed(false, p, seq(n, i => 'a')); r.v.Go? && r.p == p.(nread := p.nread + n)
  {
    hide Step;
    if n > 0 {
      PathBytes(p, n - 1);
      assert seq(n, i => 'a')[..n - 1] == seq(n - 1, i => 'a');
      HttpMessage.InnerStep(false, p.(nread := p.nread + n - 1), 'a');
    }
  }

  lemma StartsPath(first: string)
    requires first == "GET /"
    ensures Feed(false, Init(Request), first).v.Go? && Feed(false, Init(Request), first).p == InPath(1)
    ensures Feed(false, Init(Request), first).url == [N(MessageBegin), D(Url, '/')]
  {
    hide Feed, Step;
    var p := Init(Request);
    HttpMessage.MethodToken(false, p, GET);
    assert MethodString(GET) + " " == "GET ";
    var q := Feed(false, p, "GET ").p;
    HttpMessage.EnterPath(false, q, '/');
    FeedOne(false, q, '/');
    FeedAppend(false, p, "GET ", "/");
    assert "GET " + "/" == first;
  }

  /** The byte that exceeds the limit is a path byte, which would be accepted. */
  lemma LimitInPath(q: P, s: string, n: nat)
    requires q.state.ReqPath? && q.nread < MAX_HEADER_SIZE && s == seq(n, i => 'a') && n > MAX_HEADER_SIZE
    ensures Feed(false, q, s).v.Fail? && LimitHit(false, q, s) && !RejectedAnyway(false, q, s)
  {
    hide Step;
    var k := MAX_HEADER_SIZE - q.nread;
    var x := seq(k, i => 'a');
    PathBytes(q, k);
    assert s[..k] == x && s[k] == 'a';
    var r := Feed(false, q, x);
    OverLimitStops(false, r.p, 'a');
    HttpMessage.InnerStep(false, r.p.(nread := 0), 'a');
    StepStops(false, q, s, k);
  }

  /** A request with a path of 120001 bytes: too long for one call, but not for two, because the stored
      counter is cut to eight bits. */
  lemma LimitDependsOnSplit(a: string)
    requires a == seq(60000, i => 'a')
    ensures var p, s := Init(Request), "GET /" + a + a;
      && Exec(false, p, s).v.Fail? && LimitHit(false, p, s) && !RejectedAnyway(false, p, s)
      && ExecAll(false, p, ["GET /" + a, a]).v.Go?
  {
    var p, first := Init(Request), "GET /";
    hide Feed, Step, LimitHit, RejectedAnyway;
    StartsPath(first);
    var q := InPath(1);
    PathBytes(q, 60000);
    FeedAppend(false, p, first, a);
    assert a + a == seq(120000, i => 'a') && first + a + a == first + (a + a);
    LimitInPath(q, a + a, 120000);
    LimitAfter(false, p, first, a + a);
    FeedAppend(false, p, first, a + a);
    var q' := Exec(false, p, first + a).p;
    PathBytes(q', 60000);
    assert [first + a, a][1..] == [a] && [a][1..] == [];
    assert ExecAll(false, q', [a]).v.Go?;
  }

  lemma ControlFails(ctl: char)
    requires ctl == 1 as char
    ensures var p, s := Init(Request), "GET /" + [ctl];
      && Feed(false, p, s).v.Fail? && Feed(false, p, s).used == 5 && s[..5] == "GET /" && !LimitHit(false, p, s)
  {
    hide Step, Feed;
    var p, first := Init(Request), "GET /";
    StartsPath(first);
    var q := InPath(1);
    Control(q, ctl);
    FeedOne(false, q, ctl);
    FeedAppend(false, p, first, [ctl]);
    assert (first + [ctl])[..5] == first;
    NotTheLimit(p, first + [ctl]);
  }

  /** A control byte in a target: one call delivers nothing of the target, while two deliver what they
      have read of it. */
  lemma TargetIsKeptBack(ctl: char)
    requires ctl == 1 as char
    ensures var p, s := Init(Request), "GET /" + [ctl];
      && Exec(false, p, s).v.Fail? && SameParse(Exec(false, p, s), ExecAll(false, p, ["GET /", [ctl]]))
      && HeldBack(true, false, p, s) == [D(Url, '/')] && HeldBackAll(true, false, p, ["GET /", [ctl]]) == []
  {
    hide Step, Feed, OpenLen, KeptBack, LimitHit, Good;
    var p, first := Init(Request), "GET /";
    var pieces := [first, [ctl]];
    TwoPieces(first, [ctl]);
    BothNonEmpty(first, [ctl]);
    ControlFails(ctl);
    GoodInit(Request);
    SplitInvariance(false, p, pieces);
    HeldInPieces(true, false, p, p, pieces);
    OneOpen(p, first);
  }

  lemma TwoPieces(a: string, b: string)
    requires a != [] && b != []
    ensures Concat([a, b]) == a + b && StartOf([a, b], |a|) == |a|
  {
    var pieces := [a] + [b];
    assert pieces == [a, b];
    hide Concat, StartOf;
    OnePiece(b);
    MorePieces(a, [b]);
  }

  lemma BothNonEmpty(a: string, b: string)
    requires a != [] && b != []
    ensures NonEmpty([a, b])
  {
  }

  lemma MorePieces(a: string, rest: seq<string>)
    requires a != []
    ensures Concat([a] + rest) == a + Concat(rest) && StartOf([a] + rest, |a|) == |a| + StartOf(rest, 0)
  {
    assert ([a] + rest)[1..] == rest;
  }

  lemma OnePiece(b: string)
    requires b != []
    ensures Concat([b]) == b && StartOf([b], 0) == 0
  {
    assert [b][1..] == [];
  }

  lemma Control(q: P, ctl: char)
    requires q.state.ReqPath? && q.nread < 1000 && ctl == 1 as char
    ensures Step(false, q, ctl).v.Fail?
  {
  }

  lemma NotTheLimit(p: P, s: string)
    requires Feed(false, p, s).used < 1000 && Feed(false, p, s[..Feed(false, p, s).used]).p.nread < 1000
    ensures !LimitHit(false, p, s)
  {
  }

  /** Of "GET /" the last byte is open. */
  lemma OneOpen(p: P, first: string)
    requires p == Init(Request) && first == "GET /"
    ensures OpenLen(true, false, p, first) == 1 && KeptBack(true, false, p, first) == [D(Url, '/')]
  {
    hide Feed, Step;
    StartsPath(first);
    HttpMessage.MethodToken(false, p, GET);
    assert MethodString(GET) + " " == "GET " == first[..4];
    assert OpenLen(true, false, p, first) == 1;
    assert first[4..] == "/";
  }

  /** A method that the parser takes for CONNECT up to its end and beyond. */
  lemma MethodIsOverrun(skip: bool)
    ensures Feed(skip, Init(Request), "CONNECTxx").v.Undefined?
  {
    var s := "CONNECTxx";
    HttpMethods.LeadIs(s, 0);
    assert s[0..] == s && HttpMethods.Overruns(0, s);
    GoodInit(Request);
    hide Feed, HttpMethods.Overruns, HttpMethods.InToken, Good;
    HttpMethods.MethodOverrun(skip, Init(Request), s);
  }
}
