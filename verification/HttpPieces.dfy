/** The callbacks of an input that is cut into buffers. A call that reaches the end of its buffer
    delivers the data that are open there, and a call that fails does not: so what a caller is shown of
    an input that fails can depend on the cuts. Here is exactly when. */
module HttpPieces {
  import opened HttpTypes
  import opened HttpMachine
  import opened HttpSplit

  function Shown(url: bool, r: Trace): seq<Obs> { if url then r.url else r.other }

  /** What a call keeps back of the machine's observations. */
  function HeldBack(url: bool, skip: bool, p: P, data: string): seq<Obs>
  {
    var r := Feed(skip, p, data);
    if data != [] && r.v.Fail? then KeptBack(url, skip, p, data[..r.used]) else []
  }

  /** The same for consecutive calls, of which only the last one can fail. */
  function HeldBackAll(url: bool, skip: bool, p: P, pieces: seq<string>): seq<Obs>
    decreases |pieces|
  {
    if pieces == [] then []
    else
      var r := Exec(skip, p, pieces[0]);
      if r.v.Go? then HeldBackAll(url, skip, r.p, pieces[1..]) else HeldBack(url, skip, p, pieces[0])
  }

  lemma KeptLength(url: bool, skip: bool, p: P, data: string)
    ensures |KeptBack(url, skip, p, data)| == OpenLen(url, skip, p, data)
  {
    hide Feed;
  }

  function Min(a: nat, b: nat): nat { if a < b then a else b }

  /** A buffer that starts in the middle of the input sees an open datum only from its own start on. */
  lemma {:induction false} OpenInBuffer(url: bool, skip: bool, p: P, a: string, b: string)
    requires Feed(skip, p, a).v.Go?
    ensures OpenLen(url, skip, Feed(skip, p, a).p, b) == Min(OpenLen(url, skip, p, a + b), |b|)
    decreases |b|
  {
    hide Step, Feed;
    var x := Feed(skip, p, a).p;
    if b != [] {
      var n := |b| - 1;
      OpenInBuffer(url, skip, p, a, b[..n]);
      FeedAppend(skip, p, a, b);
      FeedAppend(skip, p, a, b[..n]);
      assert (a + b)[..|a + b| - 1] == a + b[..n];
    }
  }

  /** The header counter plays no part. */
  lemma {:induction false} OpenNear(url: bool, skip: bool, p: P, q: P, s: string)
    requires Near(p, q) && Feed(skip, p, s).v.Go?
    ensures OpenLen(url, skip, q, s) == OpenLen(url, skip, p, s)
    decreases |s|
  {
    hide Step, Good;
    CountFeed(skip, p, q, s);
    if s != [] {
      var a := s[..|s| - 1];
      CountFeed(skip, p, q, a);
      OpenNear(url, skip, p, q, a);
    }
  }

  lemma HeldInLast(url: bool, skip: bool, p: P, q: P, s: string)
    requires Near(p, q) && Feed(skip, p, s).v.Fail?
    requires Feed(skip, q, s).v.Fail? && Feed(skip, q, s).used == Feed(skip, p, s).used
    ensures |HeldBack(url, skip, q, s)| == OpenLen(url, skip, p, s[..Feed(skip, p, s).used])
  {
    hide Step, Good, KeptBack, OpenLen;
    FeedStops(skip, p, s);
    var k := Feed(skip, p, s).used;
    OpenNear(url, skip, p, q, s[..k]);
    KeptLength(url, skip, q, s[..k]);
  }

  /** What the pieces keep back: the part of the open datum that is in the failing piece. */
  lemma {:induction false} HeldInPieces(url: bool, skip: bool, p: P, q: P, pieces: seq<string>)
    requires Near(p, q) && NonEmpty(pieces) && Feed(skip, p, Concat(pieces)).v.Fail?
    requires SameParse(Feed(skip, p, Concat(pieces)), ExecAll(skip, q, pieces))
    ensures var k := Feed(skip, p, Concat(pieces)).used;
      |HeldBackAll(url, skip, q, pieces)| ==
        Min(OpenLen(url, skip, p, Concat(pieces)[..k]), k - StartOf(pieces, k))
    decreases |pieces|
  {
    hide Good, Step, Feed, OpenLen, KeptBack, HeldBack;
    if pieces == [] {
      FeedEmpty(skip, p);
    } else {
      var a, rest := pieces[0], pieces[1..];
      FeedAppend(skip, p, a, Concat(rest));
      var r, s := Feed(skip, p, a), Feed(skip, q, a);
      if r.v.Go? {
        CountFeed(skip, p, q, a);
        NearStored(r.p, s.p);
        ThenSame(r, s, Feed(skip, r.p, Concat(rest)), ExecAll(skip, Stored(q, s), rest));
        HeldInPieces(url, skip, r.p, Stored(q, s), rest);
        var k := Feed(skip, r.p, Concat(rest)).used;
        OpenInBuffer(url, skip, p, a, Concat(rest)[..k]);
        assert (a + Concat(rest))[..|a| + k] == a + Concat(rest)[..k];
      } else {
        HeldInLast(url, skip, p, q, a);
        assert (a + Concat(rest))[..r.used] == a[..r.used];
      }
    }
  }

  lemma {:induction false} HeldByNone(url: bool, skip: bool, p: P, pieces: seq<string>)
    requires !ExecAll(skip, p, pieces).v.Fail?
    ensures HeldBackAll(url, skip, p, pieces) == []
    decreases |pieces|
  {
    hide Feed, KeptBack;
    if pieces != [] {
      var r := Exec(skip, p, pieces[0]);
      if r.v.Go? { HeldByNone(url, skip, r.p, pieces[1..]); }
    }
  }

  lemma SameRest(x: seq<Obs>, y: seq<Obs>, a: seq<Obs>, b: seq<Obs>)
    requires x + a == y + b
    ensures x == y <==> |a| == |b|
  {
    if |a| == |b| {
      assert x == (x + a)[..|x|] && y == (y + b)[..|y|];
    }
  }

  /** An observer is shown x by one call, and y by calls with the pieces, which give the same parse.
      It is shown the same exactly if the input does not fail, or all of the datum that is open at the
      failing byte is in the same piece as that byte. */
  lemma SplitCallbacks(url: bool, skip: bool, p: P, pieces: seq<string>, x: seq<Obs>, y: seq<Obs>)
    requires Good(p) && NonEmpty(pieces) && pieces != []
    requires SameParse(Exec(skip, p, Concat(pieces)), ExecAll(skip, p, pieces))
    requires x + HeldBack(url, skip, p, Concat(pieces)) == Shown(url, Exec(skip, p, Concat(pieces)))
    requires y + HeldBackAll(url, skip, p, pieces) == Shown(url, ExecAll(skip, p, pieces))
    ensures var s := Concat(pieces);
      var r := Exec(skip, p, s);
      x == y <==>
        !r.v.Fail? || OpenLen(url, skip, p, s[..r.used]) <= r.used - StartOf(pieces, r.used)
  {
    hide Good, Feed, KeptBack, OpenLen;
    var s := Concat(pieces);
    assert s != [] by { assert pieces[0] != []; }
    var r := Feed(skip, p, s);
    SameRest(x, y, HeldBack(url, skip, p, s), HeldBackAll(url, skip, p, pieces));
    if r.v.Fail? {
      HeldInPieces(url, skip, p, p, pieces);
      KeptLength(url, skip, p, s[..r.used]);
    } else {
      HeldByNone(url, skip, p, pieces);
    }
  }

  /** An observer of the calls with these pieces is shown y. */
  ghost predicate ShownBy(url: bool, skip: bool, p: P, pieces: seq<string>, y: seq<Obs>)
  {
    y + HeldBackAll(url, skip, p, pieces) == Shown(url, ExecAll(skip, p, pieces))
  }

  lemma ShownByPieces(url: bool, skip: bool, p: P, s: string, x: seq<Obs>, pieces: seq<string>, y: seq<Obs>)
    requires Good(p) && p.nread < 256 && s != [] && (!LimitHit(skip, p, s) || RejectedAnyway(skip, p, s))
    requires x + HeldBack(url, skip, p, s) == Shown(url, Exec(skip, p, s))
    requires NonEmpty(pieces) && Concat(pieces) == s && ShownBy(url, skip, p, pieces, y)
    ensures var r := Exec(skip, p, s); x == y <==>
      !r.v.Fail? || OpenLen(url, skip, p, s[..r.used]) <= r.used - StartOf(pieces, r.used)
  {
    hide Good, Feed, Exec, LimitHit, RejectedAnyway, OpenLen, HeldBack, HeldBackAll, StartOf, ExecAll;
    NotEmpty(pieces);
    SplitInvariance(skip, p, pieces);
    SplitCallbacks(url, skip, p, pieces, x, y);
  }

  /** Single bytes: nothing is kept back. */
  lemma SinglesShow(url: bool, skip: bool, p: P, s: string)
    requires Good(p) && p.nread < 256 && s != [] && (!LimitHit(skip, p, s) || RejectedAnyway(skip, p, s))
    ensures NonEmpty(Singles(s)) && Concat(Singles(s)) == s
    ensures ShownBy(url, skip, p, Singles(s), Shown(url, ExecAll(skip, p, Singles(s))))
    ensures var r := Exec(skip, p, s); r.v.Fail? ==> r.used < |s| && StartOf(Singles(s), r.used) == r.used
  {
    hide Good, Feed, LimitHit, RejectedAnyway, OpenLen, HeldBackAll, StartOf, Concat, ExecAll;
    var r := Feed(skip, p, s);
    SinglesConcat(s);
    NotEmpty(Singles(s));
    SplitInvariance(skip, p, Singles(s));
    if r.v.Fail? {
      SinglesStart(s, r.used);
      HeldInPieces(url, skip, p, p, Singles(s));
    } else {
      HeldByNone(url, skip, p, Singles(s));
    }
  }

  /** Every way to cut the input shows what one call with all of it shows, exactly if the input does not fail
      or nothing is open at the failing byte. */
  lemma AllCutsShowTheSame(url: bool, skip: bool, p: P, s: string, x: seq<Obs>)
    requires Good(p) && p.nread < 256 && s != [] && (!LimitHit(skip, p, s) || RejectedAnyway(skip, p, s))
    requires x + HeldBack(url, skip, p, s) == Shown(url, Exec(skip, p, s))
    ensures (forall pieces, y ::
        NonEmpty(pieces) && Concat(pieces) == s && ShownBy(url, skip, p, pieces, y) ==> y == x) <==>
      var r := Exec(skip, p, s); !r.v.Fail? || OpenLen(url, skip, p, s[..r.used]) == 0
  {
    var r, y0 := Exec(skip, p, s), Shown(url, ExecAll(skip, p, Singles(s)));
    hide Good, Exec, LimitHit, RejectedAnyway, OpenLen, HeldBack, StartOf, Concat, ExecAll, ShownBy, NonEmpty;
    SinglesShow(url, skip, p, s);
    ShownByPieces(url, skip, p, s, x, Singles(s), y0);
    if !r.v.Fail? || OpenLen(url, skip, p, s[..r.used]) == 0 {
      forall pieces, y | NonEmpty(pieces) && Concat(pieces) == s && ShownBy(url, skip, p, pieces, y) ensures y == x {
        ShownByPieces(url, skip, p, s, x, pieces, y);
      }
    }
  }

  lemma NotEmpty(pieces: seq<string>)
    requires Concat(pieces) != []
    ensures pieces != []
  {
  }
}
