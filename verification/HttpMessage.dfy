/** Whole messages: parsing what a message is written as gives the message back. */
module HttpMessage {
  import opened HttpTypes
  import opened HttpArms
  import opened HttpMachine
  import opened HttpSplit
  import opened HttpExecute
  import opened HttpHeaders
  import opened HttpBody

  /** Two consecutive runs that both succeed. */
  lemma Join(skip: bool, p: P, a: string, b: string, r: Trace, s: Trace)
    requires Feed(skip, p, a) == r && r.v.Go? && Feed(skip, r.p, b) == s && s.v.Go?
    ensures Feed(skip, p, a + b) == Trace(Go, r.used + s.used, s.p, r.url + s.url, r.other + s.other)
  {
    hide Feed;
    FeedAppend(skip, p, a, b);
  }

  // ----- the method token

  /** The method that the parser has in mind after k letters of method m. */
  function Candidate(m: Method, k: nat): Method
  {
    match m
    case COPY => if k <= 2 then CONNECT else m
    case CHECKOUT => if k <= 1 then CONNECT else m
    case MOVE | MERGE | MSEARCH => if k <= 1 then MKCOL else m
    case MKACTIVITY => if k <= 2 then MKCOL else m
    case PUT | PROPFIND => if k <= 1 then POST else m
    case PROPPATCH => if k <= 1 then POST else if k <= 4 then PROPFIND else m
    case UNSUBSCRIBE => if k <= 2 then UNLOCK else m
    case _ => m
  }

  /** A parser about to read a request. */
  predicate AtRequest(p: P) { p.state.StartReq? && p.typ.Request? }

  lemma FirstLetter(q: P, m: Method)
    ensures var ch := MethodString(m)[0];
      && 'A' <= ch <= 'Z'
      && AssignMethod(q, ch) ==
           Out(Go, q.(state := ReqMethod, meth := Candidate(m, 1), index := 1), Do1(Notify(MessageBegin)))
  {
  }

  lemma MethodFirst(skip: bool, p: P, m: Method)
    requires AtRequest(p) && p.nread < MAX_HEADER_SIZE
    ensures var ch := MethodString(m)[0];
      Step(skip, p, ch) == Outcome(Go,
        Fresh(p).(state := ReqMethod, meth := Candidate(m, 1), index := 1, nread := p.nread + 1),
        [N(MessageBegin)], [N(MessageBegin)])
  {
    hide AssignMethod, MethodString, Candidate;
    FirstLetter(Fresh(Counted(p)), m);
  }

  /** Where the guess is not yet the method, its letter differs and redirects; otherwise it matches. */
  lemma NextGuess(m: Method, k: nat)
    requires 1 <= k < |MethodString(m)|
    ensures var c, ch := Candidate(m, k), MethodString(m)[k];
      && k <= |MethodString(c)| && ch != NUL && ch != ' '
      && if k < |MethodString(c)| && ch == MethodString(c)[k] then Candidate(m, k + 1) == c
         else Redirect(c, k, ch) == Some(Candidate(m, k + 1))
  {
  }

  lemma MethodLetter(p: P, m: Method)
    requires p.state.ReqMethod? && p.meth == Candidate(m, p.index) && 1 <= p.index < |MethodString(m)|
    ensures ArmMethod(p, MethodString(m)[p.index]) ==
      Out(Go, p.(meth := Candidate(m, p.index + 1), index := p.index + 1), Done)
  {
    hide MethodString, Candidate, Redirect;
    NextGuess(m, p.index);
  }

  lemma {:induction false} MethodFeed(skip: bool, p: P, m: Method, k: nat)
    requires AtRequest(p) && 1 <= k <= |MethodString(m)| && p.nread + k <= MAX_HEADER_SIZE
    ensures Feed(skip, p, MethodString(m)[..k]) == Trace(Go, k,
      Fresh(p).(state := ReqMethod, meth := Candidate(m, k), index := k, nread := p.nread + k),
      [N(MessageBegin)], [N(MessageBegin)])
  {
    hide Step, Candidate;
    var s := MethodString(m)[..k];
    MethodFirst(skip, p, m);
    if k == 1 {
      assert s[..0] == "";
    } else {
      MethodFeed(skip, p, m, k - 1);
      assert s[..k - 1] == MethodString(m)[..k - 1];
      var q := Feed(skip, p, s[..k - 1]).p;
      MethodLetter(Counted(q), m);
      StepInMethod(skip, q, s[k - 1]);
    }
  }

  lemma StepInMethod(skip: bool, p: P, ch: char)
    requires p.state.ReqMethod? && p.nread < MAX_HEADER_SIZE
    requires ArmMethod(Counted(p), ch).v.Go? && ArmMethod(Counted(p), ch).acts.Done?
    requires SpansOf(ArmMethod(Counted(p), ch).p.state) == NoSpans
    ensures Step(skip, p, ch) == Outcome(Go, ArmMethod(Counted(p), ch).p, [], [])
  {
    hide ArmMethod, SpansOf;
  }

  /** The method and the space after it. */
  lemma {:induction false} MethodToken(skip: bool, p: P, m: Method)
    requires AtRequest(p) && p.nread + |MethodString(m)| + 1 <= MAX_HEADER_SIZE
    ensures var s := MethodString(m) + " ";
      Feed(skip, p, s) == Trace(Go, |s|,
        Fresh(p).(state := ReqSpacesBeforeUrl, meth := m, index := |s|, nread := p.nread + |s|),
        [N(MessageBegin)], [N(MessageBegin)])
  {
    hide Feed, Step, ArmMethod, MethodString, Candidate;
    MethodLengths(m);
    WholeGuess(m);
    var s := MethodString(m);
    assert s[..|s|] == s;
    MethodFeed(skip, p, m, |s|);
    var q := Feed(skip, p, s).p;
    assert ArmMethod(Counted(q), ' ') ==
      Out(Go, Counted(q).(state := ReqSpacesBeforeUrl, index := q.index + 1), Done) by {
      MethodSpace(Counted(q), m);
    }
    StepInMethod(skip, q, ' ');
    FeedOne(skip, q, ' ');
    FeedAppend(skip, p, s, " ");
  }

  lemma WholeGuess(m: Method)
    ensures Candidate(m, |MethodString(m)|) == m
  {
  }

  lemma MethodSpace(p: P, m: Method)
    requires p.state.ReqMethod? && p.index == |MethodString(m)| && p.meth == Candidate(m, p.index)
    ensures ArmMethod(p, ' ') == Out(Go, p.(state := ReqSpacesBeforeUrl, index := p.index + 1), Done)
  {
  }

  // ----- the request target

  /** A step in the target: the byte belongs to the URL, and perhaps to one of its parts. */
  function InUrl(p: P, st: State, ch: char): Outcome
  {
    var sp := SpansOf(st);
    Outcome(Go, p.(state := st, nread := p.nread + 1), if sp.url then [D(Url, ch)] else [],
            if sp.other.Some? then [D(sp.other.value, ch)] else [])
  }

  lemma UrlStep(skip: bool, p: P, ch: char, st: State)
    requires UrlState(p.state) && p.nread < MAX_HEADER_SIZE
    requires var o := ArmUrl(Counted(p), ch); o.v.Go? && o.p == Counted(p).(state := st) && Notes(o.acts) == []
    ensures Step(skip, p, ch) == InUrl(p, st, ch)
  {
    hide ArmUrl, Notes, SpansOf;
  }

  /** The bytes that continue each component of a target. */
  predicate Inner(st: State, ch: char)
  {
    match st
    case ReqSchema => IsAlpha(ch)
    case ReqHost => IsAlpha(ch) || IsDigit(ch) || ch == '.' || ch == '-'
    case ReqPort => IsDigit(ch)
    case ReqPath => NormalUrlChar(ch)
    case ReqQuery => NormalUrlChar(ch) || ch == '?'
    case ReqFragment => NormalUrlChar(ch) || ch == '?' || ch == '#'
    case _ => false
  }

  predicate AllInner(st: State, s: string) { forall i :: 0 <= i < |s| ==> Inner(st, s[i]) }

  /** What the observer of everything but the URL sees of a component. */
  function Part(st: State, s: string): seq<Obs>
  {
    match SpansOf(st).other case Some(k) => Tag(k, s) case None => []
  }

  lemma InnerStep(skip: bool, p: P, ch: char)
    requires Inner(p.state, ch) && p.nread < MAX_HEADER_SIZE
    ensures Step(skip, p, ch) == InUrl(p, p.state, ch)
  {
    hide IsAlpha, IsDigit, NormalUrlChar, SpansOf, Step;
    UrlStep(skip, p, ch, p.state);
  }

  /** A component: the byte that leads into it, and the bytes that continue it. */
  lemma {:induction false} Segment(skip: bool, p: P, st: State, s: string)
    requires s != "" && p.nread + |s| <= MAX_HEADER_SIZE
    requires Step(skip, p, s[0]) == InUrl(p, st, s[0]) && SpansOf(st).url && AllInner(st, s[1..])
    ensures Feed(skip, p, s) == Trace(Go, |s|, p.(state := st, nread := p.nread + |s|), Tag(Url, s), Part(st, s))
  {
    hide Step, Inner, SpansOf;
    var n := |s| - 1;
    if n == 0 {
      assert s[..0] == "";
    } else {
      assert s == s[..n] + [s[n]];
      assert s[..n][1..] == s[1..][..n - 1];
      Segment(skip, p, st, s[..n]);
      assert s[n] == s[1..][n - 1];
      InnerStep(skip, Feed(skip, p, s[..n]).p, s[n]);
      TagAppend(Url, s[..n], [s[n]]);
    }
  }

  lemma EnterOne(skip: bool, p: P, ch: char, st: State)
    requires p.nread < MAX_HEADER_SIZE
    requires
      || (p.state.ReqSchema? && ch == ':' && st == ReqSchemaSlash)
      || (p.state.ReqSchemaSlash? && ch == '/' && st == ReqSchemaSlashSlash)
      || (p.state.ReqSchemaSlashSlash? && ch == '/' && st == ReqHost)
      || (p.state.ReqHost? && ch == ':' && st == ReqPort)
      || (p.state.ReqSpacesBeforeUrl? && IsAlpha(ch) && st == ReqSchema)
    ensures Step(skip, p, ch) == InUrl(p, st, ch)
  {
    hide Step, SpansOf;
    UrlStep(skip, p, ch, st);
  }

  lemma EnterPath(skip: bool, p: P, ch: char)
    requires p.nread < MAX_HEADER_SIZE
    requires
      || (p.state.ReqSpacesBeforeUrl? && (ch == '/' || ch == '*'))
      || ((p.state.ReqHost? || p.state.ReqPort?) && ch == '/')
    ensures Step(skip, p, ch) == InUrl(p, ReqPath, ch)
  {
    hide Step, SpansOf;
    UrlStep(skip, p, ch, ReqPath);
  }

  lemma EnterQuery(skip: bool, p: P, ch: char, st: State)
    requires p.nread < MAX_HEADER_SIZE
    requires
      || (p.state.ReqPath? && ch == '?' && st == ReqQueryStart)
      || (p.state.ReqQueryStart? && NormalUrlChar(ch) && st == ReqQuery)
      || ((p.state.ReqPath? || p.state.ReqQueryStart? || p.state.ReqQuery?) && ch == '#' && st == ReqFragmentStart)
      || (p.state.ReqFragmentStart? && (NormalUrlChar(ch) || ch == '?') && st == ReqFragment)
    ensures Step(skip, p, ch) == InUrl(p, st, ch)
  {
    hide Step, SpansOf;
    UrlStep(skip, p, ch, st);
  }

  datatype Authority = Authority(schema: string, host: string, port: Option<string>) {
    function Raw(): string { schema + "://" + host + match port case Some(d) => ":" + d case None => "" }

    predicate Valid()
    {
      && schema != "" && AllInner(ReqSchema, schema) && AllInner(ReqHost, host)
      && (port.Some? ==> AllInner(ReqPort, port.value))
    }
  }

  /** A request target; an authority makes it an absolute one. */
  datatype Target = Target(
    authority: Option<Authority>, path: string, query: Option<string>, fragment: Option<string>)
  {
    function Raw(): string
    {
      (match authority case Some(a) => a.Raw() case None => "") + path + Suffix()
    }

    function Suffix(): string
    {
      (match query case Some(q) => "?" + q case None => "") + (match fragment case Some(f) => "#" + f case None => "")
    }

    predicate Valid()
    {
      && (authority.Some? ==> authority.value.Valid())
      && path != "" && (path[0] == '/' || (path[0] == '*' && authority.None?)) && AllInner(ReqPath, path[1..])
      && (query.Some? && query.value != "" ==> NormalUrlChar(query.value[0]) && AllInner(ReqQuery, query.value))
      && (fragment.Some? && fragment.value != "" ==>
        Inner(ReqQuery, fragment.value[0]) && AllInner(ReqFragment, fragment.value))
    }

    /** What is delivered besides the URL itself. */
    function Parts(): seq<Obs>
    {
      Tag(Path, path) + (match query case Some(q) => Tag(Query, q) case None => [])
      + (match fragment case Some(f) => Tag(Fragment, f) case None => [])
    }
  }

  /** Two consecutive components of a target. */
  lemma JoinUrl(skip: bool, p: P, a: string, b: string, q: P, t: P, other: seq<Obs>, more: seq<Obs>)
    requires Feed(skip, p, a) == Trace(Go, |a|, q, Tag(Url, a), other)
    requires Feed(skip, q, b) == Trace(Go, |b|, t, Tag(Url, b), more)
    ensures Feed(skip, p, a + b) == Trace(Go, |a + b|, t, Tag(Url, a + b), other + more)
  {
    hide Feed, Tag;
    FeedAppend(skip, p, a, b);
    TagAppend(Url, a, b);
  }

  lemma SlashFeed(skip: bool, p: P)
    requires p.state.ReqSchema? && p.nread + 2 <= MAX_HEADER_SIZE
    ensures Feed(skip, p, ":/") == Trace(Go, 2, p.(state := ReqSchemaSlashSlash, nread := p.nread + 2),
      Tag(Url, ":/"), [])
  {
    hide Feed, Step, Inner, Tag;
    EnterOne(skip, p, ':', ReqSchemaSlash);
    Segment(skip, p, ReqSchemaSlash, ":");
    var p2 := p.(state := ReqSchemaSlash, nread := p.nread + 1);
    EnterOne(skip, p2, '/', ReqSchemaSlashSlash);
    Segment(skip, p2, ReqSchemaSlashSlash, "/");
    JoinUrl(skip, p, ":", "/", p2, p2.(state := ReqSchemaSlashSlash, nread := p2.nread + 1), [], []);
    assert ":" + "/" == ":/";
  }

  lemma SchemaFeed(skip: bool, p: P, s: string)
    requires p.state.ReqSpacesBeforeUrl? && s != "" && AllInner(ReqSchema, s) && p.nread + |s| + 2 <= MAX_HEADER_SIZE
    ensures Feed(skip, p, s + ":/") == Trace(Go, |s| + 2,
      p.(state := ReqSchemaSlashSlash, nread := p.nread + |s| + 2), Tag(Url, s + ":/"), [])
  {
    hide Feed, Step, Inner, IsAlpha, Tag;
    InnerAlpha(s[0]);
    EnterOne(skip, p, s[0], ReqSchema);
    Segment(skip, p, ReqSchema, s);
    var p1 := p.(state := ReqSchema, nread := p.nread + |s|);
    SlashFeed(skip, p1);
    JoinUrl(skip, p, s, ":/", p1, p1.(state := ReqSchemaSlashSlash, nread := p1.nread + 2), [], []);
  }

  lemma AuthorityFeed(skip: bool, p: P, a: Authority)
    requires p.state.ReqSpacesBeforeUrl? && a.Valid() && p.nread + |a.Raw()| <= MAX_HEADER_SIZE
    ensures Feed(skip, p, a.Raw()) == Trace(Go, |a.Raw()|,
      p.(state := if a.port.Some? then ReqPort else ReqHost, nread := p.nread + |a.Raw()|), Tag(Url, a.Raw()), [])
  {
    hide Feed, Step, Inner, Tag;
    var s, h := a.schema + ":/", "/" + a.host;
    SchemaFeed(skip, p, a.schema);
    var p3 := p.(state := ReqSchemaSlashSlash, nread := p.nread + |s|);
    EnterOne(skip, p3, '/', ReqHost);
    assert h[1..] == a.host;
    Segment(skip, p3, ReqHost, h);
    var p4 := p3.(state := ReqHost, nread := p3.nread + |h|);
    JoinUrl(skip, p, s, h, p3, p4, [], []);
    assert s + h == a.schema + "://" + a.host;
    if a.port.Some? {
      EnterOne(skip, p4, ':', ReqPort);
      var d := ":" + a.port.value;
      assert d[1..] == a.port.value;
      Segment(skip, p4, ReqPort, d);
      JoinUrl(skip, p, s + h, d, p4, p4.(state := ReqPort, nread := p4.nread + |d|), [], []);
    } else {
      assert a.Raw() == s + h;
    }
  }

  lemma InnerAlpha(ch: char)
    ensures Inner(ReqSchema, ch) == IsAlpha(ch)
  {
  }

  lemma QueryFeed(skip: bool, p: P, q: string)
    requires p.state.ReqPath? && p.nread + |q| + 1 <= MAX_HEADER_SIZE
    requires q != "" ==> NormalUrlChar(q[0]) && AllInner(ReqQuery, q)
    ensures Feed(skip, p, "?" + q) == Trace(Go, |q| + 1,
      p.(state := if q == "" then ReqQueryStart else ReqQuery, nread := p.nread + |q| + 1),
      Tag(Url, "?" + q), Tag(Query, q))
  {
    hide Feed, Step, Inner, NormalUrlChar;
    EnterQuery(skip, p, '?', ReqQueryStart);
    Segment(skip, p, ReqQueryStart, "?");
    if q == "" {
      assert "?" + q == "?";
    } else {
      var p1 := Feed(skip, p, "?").p;
      EnterQuery(skip, p1, q[0], ReqQuery);
      Segment(skip, p1, ReqQuery, q);
      Join(skip, p, "?", q, Feed(skip, p, "?"), Feed(skip, p1, q));
      TagAppend(Url, "?", q);
    }
  }

  lemma FragmentFeed(skip: bool, p: P, f: string)
    requires (p.state.ReqPath? || p.state.ReqQueryStart? || p.state.ReqQuery?) && p.nread + |f| + 1 <= MAX_HEADER_SIZE
    requires f != "" ==> Inner(ReqQuery, f[0]) && AllInner(ReqFragment, f)
    ensures Feed(skip, p, "#" + f) == Trace(Go, |f| + 1,
      p.(state := if f == "" then ReqFragmentStart else ReqFragment, nread := p.nread + |f| + 1),
      Tag(Url, "#" + f), Tag(Fragment, f))
  {
    hide Feed, Step, NormalUrlChar;
    EnterQuery(skip, p, '#', ReqFragmentStart);
    Segment(skip, p, ReqFragmentStart, "#");
    if f == "" {
      assert "#" + f == "#";
    } else {
      var p1 := Feed(skip, p, "#").p;
      EnterQuery(skip, p1, f[0], ReqFragment);
      Segment(skip, p1, ReqFragment, f);
      Join(skip, p, "#", f, Feed(skip, p, "#"), Feed(skip, p1, f));
      TagAppend(Url, "#", f);
    }
  }

  /** The part of a target before the query. */
  lemma PathFeed(skip: bool, p: P, t: Target)
    requires p.state.ReqSpacesBeforeUrl? && t.Valid() && p.nread + |t.Raw()| <= MAX_HEADER_SIZE
    ensures var s := (match t.authority case Some(a) => a.Raw() case None => "") + t.path;
      Feed(skip, p, s) == Trace(Go, |s|, p.(state := ReqPath, nread := p.nread + |s|), Tag(Url, s), Tag(Path, t.path))
  {
    hide Feed, Step, Inner, NormalUrlChar;
    if t.authority.Some? {
      AuthorityFeed(skip, p, t.authority.value);
      hide Tag;
      var a := t.authority.value.Raw();
      var p1 := Feed(skip, p, a).p;
      EnterPath(skip, p1, t.path[0]);
      Segment(skip, p1, ReqPath, t.path);
      JoinUrl(skip, p, a, t.path, p1, p1.(state := ReqPath, nread := p1.nread + |t.path|), [], Tag(Path, t.path));
    } else {
      EnterPath(skip, p, t.path[0]);
      Segment(skip, p, ReqPath, t.path);
      assert "" + t.path == t.path;
    }
  }

  lemma NothingShown(k: Kind)
    ensures Tag(k, "") == []
  {
  }

  /** The query and the fragment, where present. */
  lemma SuffixFeed(skip: bool, p: P, t: Target)
    requires p.state.ReqPath? && t.Valid() && p.nread + |t.Suffix()| <= MAX_HEADER_SIZE
    ensures var r := Feed(skip, p, t.Suffix());
      && r == Trace(Go, |t.Suffix()|, p.(state := r.p.state, nread := p.nread + |t.Suffix()|), Tag(Url, t.Suffix()),
           (match t.query case Some(q) => Tag(Query, q) case None => [])
           + (match t.fragment case Some(f) => Tag(Fragment, f) case None => []))
      && r.p.state in {ReqPath, ReqQueryStart, ReqQuery, ReqFragmentStart, ReqFragment}
  {
    hide Feed, Step, Inner, NormalUrlChar, Tag, AllInner;
    NothingShown(Url);
    var q := match t.query case Some(q) => "?" + q case None => "";
    if t.query.Some? { QueryFeed(skip, p, t.query.value); } else { FeedEmpty(skip, p); }
    var p1 := Feed(skip, p, q).p;
    var f := match t.fragment case Some(f) => "#" + f case None => "";
    if t.fragment.Some? { FragmentFeed(skip, p1, t.fragment.value); } else { FeedEmpty(skip, p1); }
    var other, more := Feed(skip, p, q).other, Feed(skip, p1, f).other;
    JoinUrl(skip, p, q, f, p1, Feed(skip, p1, f).p, other, more);
  }

  /** A target is delivered as one URL, and its path, query and fragment apart. */
  lemma TargetFeed(skip: bool, p: P, t: Target)
    requires p.state.ReqSpacesBeforeUrl? && t.Valid() && p.nread + |t.Raw()| <= MAX_HEADER_SIZE
    ensures var r := Feed(skip, p, t.Raw());
      && r == Trace(Go, |t.Raw()|, p.(state := r.p.state, nread := p.nread + |t.Raw()|), Tag(Url, t.Raw()), t.Parts())
      && r.p.state in {ReqPath, ReqQueryStart, ReqQuery, ReqFragmentStart, ReqFragment}
  {
    hide Feed, Step, Inner, NormalUrlChar, Tag, AllInner;
    PathFeed(skip, p, t);
    var s := (match t.authority case Some(a) => a.Raw() case None => "") + t.path;
    var p1 := Feed(skip, p, s).p;
    SuffixFeed(skip, p1, t);
    var more := Feed(skip, p1, t.Suffix()).other;
    JoinUrl(skip, p, s, t.Suffix(), p1, Feed(skip, p1, t.Suffix()).p, Tag(Path, t.path), more);
    assert t.Parts() == Tag(Path, t.path) + more;
  }

  lemma TargetEnd(skip: bool, p: P)
    requires p.state in {ReqPath, ReqQueryStart, ReqQuery, ReqFragmentStart, ReqFragment} && p.nread < MAX_HEADER_SIZE
    ensures Feed(skip, p, " ") == Trace(Go, 1, p.(state := ReqHttpStart, nread := p.nread + 1), [], [])
  {
    hide Feed, Step;
    UrlStep(skip, p, ' ', ReqHttpStart);
    FeedOne(skip, p, ' ');
  }

  // ----- versions

  /** Decimal digits whose number is at most 999. */
  predicate Number(s: string) { s != "" && (forall i :: 0 <= i < |s| ==> IsDigit(s[i])) && Decimal(s) <= 999 }

  datatype Version = Version(major: string, minor: string) {
    predicate Valid() { Number(major) && major[0] != '0' && Number(minor) }

    function Raw(): string { major + "." + minor }
  }

  predicate FirstDigitState(st: State, next: State)
  {
    || (st.ReqFirstMajor? && next.ReqMajor?) || (st.ResFirstMajor? && next.ResMajor?)
    || (st.ReqFirstMinor? && next.ReqMinor?) || (st.ResFirstMinor? && next.ResMinor?)
    || (st.ResFirstStatusCode? && next.ResStatusCode?)
  }

  /** The record after the digits of a number: which field they are written to is the state's. */
  function WithNumber(p: P, st: State, n: nat): P
  {
    var q := p.(state := st);
    match st
    case ReqMajor | ResMajor => q.(major := n)
    case ReqMinor | ResMinor => q.(minor := n)
    case _ => q.(status := n)
  }

  lemma NumberFirstReq(skip: bool, p: P, st: State, ch: char)
    requires (p.state.ReqFirstMajor? && st.ReqMajor? && ch != '0') || (p.state.ReqFirstMinor? && st.ReqMinor?)
    requires IsDigit(ch) && p.nread < MAX_HEADER_SIZE
    ensures Step(skip, p, ch) == Outcome(Go, WithNumber(p, st, Digit(ch)).(nread := p.nread + 1), [], [])
  {
    hide Step, ArmStart, ArmMethod, ArmUrl, ArmRes, ArmHeader, ArmChunk;
    StepIs(skip, p, ch, ArmReqVersion(Counted(p), ch));
  }

  lemma NumberFirstRes(skip: bool, p: P, st: State, ch: char)
    requires (p.state.ResFirstMajor? && st.ResMajor? && ch != '0') || (p.state.ResFirstMinor? && st.ResMinor?)
      || (p.state.ResFirstStatusCode? && st.ResStatusCode?)
    requires IsDigit(ch) && p.nread < MAX_HEADER_SIZE
    ensures Step(skip, p, ch) == Outcome(Go, WithNumber(p, st, Digit(ch)).(nread := p.nread + 1), [], [])
  {
    hide Step, ArmStart, ArmMethod, ArmUrl, ArmReqVersion, ArmHeader, ArmChunk;
    StepIs(skip, p, ch, ArmRes(Counted(p), ch));
  }

  lemma NumberFirst(skip: bool, p: P, st: State, ch: char)
    requires FirstDigitState(p.state, st) && IsDigit(ch) && p.nread < MAX_HEADER_SIZE
    requires p.state.ReqFirstMajor? || p.state.ResFirstMajor? ==> ch != '0'
    ensures Step(skip, p, ch) == Outcome(Go, WithNumber(p, st, Digit(ch)).(nread := p.nread + 1), [], [])
  {
    hide Step, IsDigit, Digit, WithNumber;
    if p.state.ReqFirstMajor? || p.state.ReqFirstMinor? { NumberFirstReq(skip, p, st, ch);
    } else { NumberFirstRes(skip, p, st, ch); }
  }

  lemma NumberNext(skip: bool, p: P, st: State, n: nat, ch: char)
    requires st in {ReqMajor, ResMajor, ReqMinor, ResMinor, ResStatusCode}
    requires IsDigit(ch) && p == WithNumber(p, st, n) && n * 10 + Digit(ch) <= 999 && p.nread < MAX_HEADER_SIZE
    ensures Step(skip, p, ch) == Outcome(Go, WithNumber(p, st, n * 10 + Digit(ch)).(nread := p.nread + 1), [], [])
  {
  }

  lemma {:induction false} NumberFeed(skip: bool, p: P, st: State, s: string)
    requires FirstDigitState(p.state, st) && Number(s) && p.nread + |s| <= MAX_HEADER_SIZE
    requires p.state.ReqFirstMajor? || p.state.ResFirstMajor? ==> s[0] != '0'
    ensures Feed(skip, p, s) == Trace(Go, |s|, WithNumber(p, st, Decimal(s)).(nread := p.nread + |s|), [], [])
  {
    hide Step, IsDigit, Digit, WithNumber, FirstDigitState;
    var n := |s| - 1;
    if n == 0 {
      assert s[..0] == "";
      NumberFirst(skip, p, st, s[0]);
    } else {
      var m := Decimal(s[..n]);
      NumberFeed(skip, p, st, s[..n]);
      NumberTwice(p, st, m, m * 10 + Digit(s[n]), p.nread + n);
      NumberNext(skip, Feed(skip, p, s[..n]).p, st, m, s[n]);
    }
  }

  lemma NumberTwice(p: P, st: State, m: nat, n: nat, nread: nat)
    requires FirstDigitState(p.state, st)
    ensures var q := WithNumber(p, st, m).(nread := nread);
      && q == WithNumber(q, st, m) && q.nread == nread
      && WithNumber(q, st, n).(nread := nread + 1) == WithNumber(p, st, n).(nread := nread + 1)
    ensures st in {ReqMajor, ResMajor, ReqMinor, ResMinor, ResStatusCode}
  {
  }

  lemma Dot(skip: bool, p: P)
    requires (p.state.ReqMajor? || p.state.ResMajor?) && p.nread < MAX_HEADER_SIZE
    ensures Feed(skip, p, ".") == Trace(Go, 1,
      p.(state := if p.state.ReqMajor? then ReqFirstMinor else ResFirstMinor, nread := p.nread + 1), [], [])
  {
    hide Feed;
    FeedOne(skip, p, '.');
  }

  lemma VersionFeed(skip: bool, p: P, v: Version)
    requires (p.state.ReqFirstMajor? || p.state.ResFirstMajor?) && v.Valid() && p.nread + |v.Raw()| <= MAX_HEADER_SIZE
    ensures Feed(skip, p, v.Raw()) == Trace(Go, |v.Raw()|,
      p.(state := if p.state.ReqFirstMajor? then ReqMinor else ResMinor,
         major := Decimal(v.major), minor := Decimal(v.minor),
         nread := p.nread + |v.Raw()|), [], [])
  {
    hide Feed, Step, Number, Decimal;
    NumberFeed(skip, p, if p.state.ReqFirstMajor? then ReqMajor else ResMajor, v.major);
    var p1 := Feed(skip, p, v.major).p;
    Dot(skip, p1);
    Join(skip, p, v.major, ".", Feed(skip, p, v.major), Feed(skip, p1, "."));
    var p2 := Feed(skip, p1, ".").p;
    NumberFeed(skip, p2, if p.state.ReqFirstMajor? then ReqMinor else ResMinor, v.minor);
    Join(skip, p, v.major + ".", v.minor, Feed(skip, p, v.major + "."), Feed(skip, p2, v.minor));
  }

  /** A byte that only moves the parser to another state. */
  lemma Silent(skip: bool, p: P, ch: char, st: State)
    requires Step(skip, p, ch) == Outcome(Go, At(p, st, 1), [], [])
    ensures Feed(skip, p, [ch]) == Trace(Go, 1, At(p, st, 1), [], [])
  {
    hide Step;
    FeedOne(skip, p, ch);
  }

  /** The fixed text before the version of a request. */
  lemma Letter(skip: bool, p: P, ch: char, st: State)
    requires p.nread < MAX_HEADER_SIZE
    requires
      || (p.state.ReqHttpStart? && ch == 'H' && st == ReqH) || (p.state.ReqH? && ch == 'T' && st == ReqHT)
      || (p.state.ReqHT? && ch == 'T' && st == ReqHTT) || (p.state.ReqHTT? && ch == 'P' && st == ReqHTTP)
      || (p.state.ReqHTTP? && ch == '/' && st == ReqFirstMajor)
    ensures Feed(skip, p, [ch]) == Trace(Go, 1, At(p, st, 1), [], [])
  {
    assert Step(skip, p, ch) == Outcome(Go, At(p, st, 1), [], []);
    Silent(skip, p, ch, st);
  }

  lemma LineEnd(skip: bool, p: P, ch: char, st: State)
    requires p.nread < MAX_HEADER_SIZE
    requires
      || (p.state.ReqMinor? && ch == CR && st == ReqLineAlmostDone)
      || (p.state.ReqLineAlmostDone? && ch == LF && st == HeaderFieldStart)
      || (p.state.ResStatus? && ch == CR && st == ResLineAlmostDone)
      || (p.state.ResLineAlmostDone? && ch == LF && st == HeaderFieldStart)
    ensures Feed(skip, p, [ch]) == Trace(Go, 1, At(p, st, 1), [], [])
  {
    assert Step(skip, p, ch) == Outcome(Go, At(p, st, 1), [], []) by { hide IsDigit, Digit; }
    Silent(skip, p, ch, st);
  }

  lemma LetterRes(skip: bool, p: P, ch: char, st: State)
    requires p.nread < MAX_HEADER_SIZE
    requires
      || (p.state.ResH? && ch == 'T' && st == ResHT) || (p.state.ResHT? && ch == 'T' && st == ResHTT)
      || (p.state.ResHTT? && ch == 'P' && st == ResHTTP) || (p.state.ResHTTP? && ch == '/' && st == ResFirstMajor)
      || (p.state.ResMinor? && ch == ' ' && st == ResFirstStatusCode)
    ensures Feed(skip, p, [ch]) == Trace(Go, 1, At(p, st, 1), [], [])
  {
    assert Step(skip, p, ch) == Outcome(Go, At(p, st, 1), [], []);
    Silent(skip, p, ch, st);
  }

  /** The reason phrase is ignored, whatever it says. */
  lemma ReasonStep(skip: bool, p: P, ch: char)
    requires (p.state.ResStatusCode? && ch == ' ') || (p.state.ResStatus? && ch != CR && ch != LF)
    requires p.nread < MAX_HEADER_SIZE
    ensures Step(skip, p, ch) == Outcome(Go, At(p, ResStatus, 1), [], [])
  {
  }

  /** Two texts that are read silently. */
  lemma JoinSilent(skip: bool, p: P, a: string, b: string, q: P, t: P)
    requires Feed(skip, p, a) == Trace(Go, |a|, q, [], [])
    requires Feed(skip, q, b) == Trace(Go, |b|, t, [], [])
    ensures Feed(skip, p, a + b) == Trace(Go, |a + b|, t, [], [])
  {
    hide Feed;
    FeedAppend(skip, p, a, b);
  }

  function At(p: P, st: State, n: nat): P { p.(state := st, nread := p.nread + n) }

  lemma HttpSlash(skip: bool, p: P)
    requires p.state.ReqHttpStart? && p.nread + 5 <= MAX_HEADER_SIZE
    ensures Feed(skip, p, "HTTP/") == Trace(Go, 5, At(p, ReqFirstMajor, 5), [], [])
  {
    hide Feed, Step;
    Letter(skip, p, 'H', ReqH);
    Letter(skip, At(p, ReqH, 1), 'T', ReqHT);
    JoinSilent(skip, p, "H", "T", At(p, ReqH, 1), At(p, ReqHT, 2));
    Letter(skip, At(p, ReqHT, 2), 'T', ReqHTT);
    JoinSilent(skip, p, "H" + "T", "T", At(p, ReqHT, 2), At(p, ReqHTT, 3));
    Letter(skip, At(p, ReqHTT, 3), 'P', ReqHTTP);
    JoinSilent(skip, p, "H" + "T" + "T", "P", At(p, ReqHTT, 3), At(p, ReqHTTP, 4));
    Letter(skip, At(p, ReqHTTP, 4), '/', ReqFirstMajor);
    JoinSilent(skip, p, "H" + "T" + "T" + "P", "/", At(p, ReqHTTP, 4), At(p, ReqFirstMajor, 5));
    assert "H" + "T" + "T" + "P" + "/" == "HTTP/";
  }

  // ----- request lines

  datatype RequestLine = RequestLine(meth: Method, target: Target, version: Version) {
    function Raw(): string { MethodString(meth) + " " + target.Raw() + " " + "HTTP/" + version.Raw() + CRLF }

    predicate Valid() { target.Valid() && version.Valid() }
  }

  lemma VersionLine(skip: bool, p: P, v: Version)
    requires p.state.ReqHttpStart? && v.Valid() && p.nread + 7 + |v.Raw()| <= MAX_HEADER_SIZE
    ensures var s := "HTTP/" + v.Raw() + CRLF;
      Feed(skip, p, s) == Trace(Go, |s|,
        At(p, HeaderFieldStart, |s|).(major := Decimal(v.major), minor := Decimal(v.minor)), [], [])
  {
    hide Feed, Step, Number, Decimal;
    HttpSlash(skip, p);
    var p1 := At(p, ReqFirstMajor, 5);
    VersionFeed(skip, p1, v);
    var p2 := Feed(skip, p1, v.Raw()).p;
    JoinSilent(skip, p, "HTTP/", v.Raw(), p1, p2);
    LineEnd(skip, p2, CR, ReqLineAlmostDone);
    LineEnd(skip, At(p2, ReqLineAlmostDone, 1), LF, HeaderFieldStart);
    JoinSilent(skip, p2, "\r", "\n", At(p2, ReqLineAlmostDone, 1), At(p2, HeaderFieldStart, 2));
    assert "\r" + "\n" == CRLF;
    JoinSilent(skip, p, "HTTP/" + v.Raw(), CRLF, p2, At(p2, HeaderFieldStart, 2));
  }

  /** A request line gives its method, target and version back. */
  lemma RequestLineFeed(skip: bool, p: P, l: RequestLine)
    requires AtRequest(p) && l.Valid() && p.nread + |l.Raw()| <= MAX_HEADER_SIZE
    ensures Feed(skip, p, l.Raw()) == Trace(Go, |l.Raw()|,
      At(Fresh(p), HeaderFieldStart, |l.Raw()|).(meth := l.meth, index := |MethodString(l.meth)| + 1,
        major := Decimal(l.version.major), minor := Decimal(l.version.minor)),
      [N(MessageBegin)] + Tag(Url, l.target.Raw()), [N(MessageBegin)] + l.target.Parts())
  {
    hide Feed, Step, Decimal, Number, Tag, MethodString;
    var m, t, v := MethodString(l.meth) + " ", l.target.Raw(), "HTTP/" + l.version.Raw() + CRLF;
    MethodToken(skip, p, l.meth);
    var p1 := Feed(skip, p, m).p;
    TargetFeed(skip, p1, l.target);
    Join(skip, p, m, t, Feed(skip, p, m), Feed(skip, p1, t));
    var p2 := Feed(skip, p1, t).p;
    TargetEnd(skip, p2);
    Join(skip, p, m + t, " ", Feed(skip, p, m + t), Feed(skip, p2, " "));
    var p3 := Feed(skip, p2, " ").p;
    VersionLine(skip, p3, l.version);
    Join(skip, p, m + t + " ", v, Feed(skip, p, m + t + " "), Feed(skip, p3, v));
    assert l.Raw() == m + t + " " + v;
  }

  // ----- status lines

  /** A parser about to read a response. */
  predicate AtResponse(p: P) { p.state.StartRes? }

  datatype StatusLine = StatusLine(version: Version, status: string, reason: string) {
    function Raw(): string { "HTTP/" + version.Raw() + " " + status + " " + reason + CRLF }

    predicate Valid()
    {
      version.Valid() && Number(status) && forall i :: 0 <= i < |reason| ==> reason[i] != CR && reason[i] != LF
    }
  }

  lemma FirstH(skip: bool, p: P)
    requires AtResponse(p) && p.nread < MAX_HEADER_SIZE
    ensures Feed(skip, p, "H") == Trace(Go, 1, At(Fresh(p), ResH, 1), [N(MessageBegin)], [N(MessageBegin)])
  {
    assert Step(skip, p, 'H') == Outcome(Go, At(Fresh(p), ResH, 1), [N(MessageBegin)], [N(MessageBegin)]);
    hide Step;
    FeedOne(skip, p, 'H');
  }

  lemma TtpSlash(skip: bool, p: P)
    requires p.state.ResH? && p.nread + 4 <= MAX_HEADER_SIZE
    ensures Feed(skip, p, "TTP/") == Trace(Go, 4, At(p, ResFirstMajor, 4), [], [])
  {
    hide Feed, Step;
    LetterRes(skip, p, 'T', ResHT);
    LetterRes(skip, At(p, ResHT, 1), 'T', ResHTT);
    JoinSilent(skip, p, "T", "T", At(p, ResHT, 1), At(p, ResHTT, 2));
    LetterRes(skip, At(p, ResHTT, 2), 'P', ResHTTP);
    JoinSilent(skip, p, "T" + "T", "P", At(p, ResHTT, 2), At(p, ResHTTP, 3));
    LetterRes(skip, At(p, ResHTTP, 3), '/', ResFirstMajor);
    JoinSilent(skip, p, "T" + "T" + "P", "/", At(p, ResHTTP, 3), At(p, ResFirstMajor, 4));
    assert "T" + "T" + "P" + "/" == "TTP/";
  }

  lemma {:induction false} ReasonFeed(skip: bool, p: P, s: string)
    requires p.state.ResStatusCode? && p.nread + |s| + 1 <= MAX_HEADER_SIZE
    requires forall i :: 0 <= i < |s| ==> s[i] != CR && s[i] != LF
    ensures Feed(skip, p, " " + s) == Trace(Go, |s| + 1, At(p, ResStatus, |s| + 1), [], [])
  {
    hide Step;
    var t := " " + s;
    if s == "" {
      ReasonStep(skip, p, ' ');
      Silent(skip, p, ' ', ResStatus);
      assert t == " ";
    } else {
      var n := |s| - 1;
      ReasonFeed(skip, p, s[..n]);
      assert t[..|t| - 1] == " " + s[..n];
      ReasonStep(skip, At(p, ResStatus, n + 1), s[n]);
    }
  }

  /** The version in a status line, after its first letter. */
  lemma StatusVersion(skip: bool, p: P, v: Version)
    requires p.state.ResH? && v.Valid() && p.nread + |v.Raw()| + 5 <= MAX_HEADER_SIZE
    ensures var a := "TTP/" + v.Raw() + " ";
      Feed(skip, p, a) == Trace(Go, |a|,
        At(p, ResFirstStatusCode, |a|).(major := Decimal(v.major), minor := Decimal(v.minor)), [], [])
  {
    hide Feed, Step, Decimal, Number;
    TtpSlash(skip, p);
    var p2 := At(p, ResFirstMajor, 4);
    VersionFeed(skip, p2, v);
    var p3 := Feed(skip, p2, v.Raw()).p;
    JoinSilent(skip, p, "TTP/", v.Raw(), p2, p3);
    LetterRes(skip, p3, ' ', ResFirstStatusCode);
    JoinSilent(skip, p, "TTP/" + v.Raw(), " ", p3, At(p3, ResFirstStatusCode, 1));
  }

  /** A status line gives its version and code back. */
  lemma StatusLineFeed(skip: bool, p: P, l: StatusLine)
    requires AtResponse(p) && l.Valid() && p.nread + |l.Raw()| <= MAX_HEADER_SIZE
    ensures Feed(skip, p, l.Raw()) == Trace(Go, |l.Raw()|,
      At(Fresh(p), HeaderFieldStart, |l.Raw()|).(major := Decimal(l.version.major), minor := Decimal(l.version.minor),
        status := Decimal(l.status)),
      [N(MessageBegin)], [N(MessageBegin)])
  {
    hide Feed, Step, Decimal, Number;
    FirstH(skip, p);
    var p1 := At(Fresh(p), ResH, 1);
    var a, e := "TTP/" + l.version.Raw() + " ", " " + l.reason + CRLF;
    assert l.Raw() == "H" + (a + l.status + e);
    StatusVersion(skip, p1, l.version);
    var p4 := Feed(skip, p1, a).p;
    NumberFeed(skip, p4, ResStatusCode, l.status);
    var p5 := Feed(skip, p4, l.status).p;
    JoinSilent(skip, p1, a, l.status, p4, p5);
    StatusEnd(skip, p5, l.reason);
    JoinSilent(skip, p1, a + l.status, e, p5, At(p5, HeaderFieldStart, |e|));
    FeedAppend(skip, p, "H", a + l.status + e);
  }

  lemma StatusEnd(skip: bool, p: P, reason: string)
    requires p.state.ResStatusCode? && p.nread + |reason| + 3 <= MAX_HEADER_SIZE
    requires forall i :: 0 <= i < |reason| ==> reason[i] != CR && reason[i] != LF
    ensures var e := " " + reason + CRLF; Feed(skip, p, e) == Trace(Go, |e|, At(p, HeaderFieldStart, |e|), [], [])
  {
    hide Feed, Step;
    ReasonFeed(skip, p, reason);
    var q := At(p, ResStatus, |reason| + 1);
    LineEnd(skip, q, CR, ResLineAlmostDone);
    LineEnd(skip, At(q, ResLineAlmostDone, 1), LF, HeaderFieldStart);
    JoinSilent(skip, q, "\r", "\n", At(q, ResLineAlmostDone, 1), At(q, HeaderFieldStart, 2));
    assert "\r" + "\n" == CRLF;
    JoinSilent(skip, p, " " + reason, CRLF, q, At(q, HeaderFieldStart, 2));
  }

  // ----- messages

  /** The ways a body is framed here: a Content-Length, or chunks. */
  datatype Content = Sized(data: string) | Chunked(body: ChunkedBody) {
    function Raw(): string { match this case Sized(data) => data case Chunked(body) => body.Raw() }

    /** What is seen from the blank line on. */
    function Shown(): seq<Obs>
    {
      [N(HeadersComplete)] + (match this
        case Sized(data) => Tag(Body, data)
        case Chunked(body) => Tag(Body, DataOf(body.chunks)) + HttpBody.Shown(body.trailers)) + [N(MessageComplete)]
    }
  }

  /** The header lines announce the content: they say "chunked", or else its length, and they do
      not ask for another protocol. */
  ghost predicate Announces(f: Flags, n: nat, ls: seq<Line>, c: Content)
  {
    var after := FlagsAfter(f, ls);
    && !after.upgrade
    && match c
       case Sized(data) => !after.chunked && LengthAfter(n, ls) == |data|
       case Chunked(body) => after.chunked && body.Valid()
  }

  /** The flags at the end of a message whose header lines left f: they decide, with the version,
      whether the connection goes on. */
  function EndFlags(f: Flags, c: Content): Flags
  {
    match c case Sized(_) => f case Chunked(body) => FlagsAfter(f.(trailing := true), body.trailers)
  }

  /** The header bytes that are counted when the message ends: those of its trailer. */
  function EndCount(c: Content): nat
  {
    match c case Sized(_) => 0 case Chunked(body) => |RawLines(body.trailers)| + 2
  }

  // ----- whether the connection goes on

  /** All header lines of a message, those of the trailer included. */
  function LinesOf(ls: seq<Line>, c: Content): seq<Line>
  {
    ls + match c case Sized(_) => [] case Chunked(body) => body.trailers
  }

  /** A Connection line with this value. */
  predicate IsConnection(l: Line, word: string)
  {
    && (Is("connection", FoldAll(l.name)) || Is("proxy-connection", FoldAll(l.name)))
    && Is(word, FoldAll(l.value))
  }

  predicate Says(ls: seq<Line>, word: string) { exists i :: 0 <= i < |ls| && IsConnection(ls[i], word) }

  /** From version 1.1 on the connection goes on unless a line says "close", and before only if one says
      "keep-alive". */
  predicate GoesOn(major: nat, minor: nat, ls: seq<Line>)
  {
    if major > 0 && minor > 0 then !Says(ls, "close") else Says(ls, "keep-alive")
  }

  lemma SaysFirst(l: Line, ls: seq<Line>, word: string)
    ensures Says([l] + ls, word) <==> IsConnection(l, word) || Says(ls, word)
  {
    hide IsConnection;
    var all := [l] + ls;
    assert forall i :: 0 <= i < |ls| ==> all[i + 1] == ls[i];
    assert all[0] == l;
  }

  lemma SaysAppend(ls: seq<Line>, ms: seq<Line>, word: string)
    ensures Says(ls + ms, word) <==> Says(ls, word) || Says(ms, word)
  {
    hide IsConnection;
    var all := ls + ms;
    assert forall i :: 0 <= i < |ms| ==> all[|ls| + i] == ms[i];
    assert forall i :: 0 <= i < |ls| ==> all[i] == ls[i];
  }

  lemma OneLineSays(f: Flags, l: Line)
    ensures var g := LineFlags(f, l.name, l.value);
      && (g.close <==> f.close || IsConnection(l, "close"))
      && (g.keepAlive <==> f.keepAlive || IsConnection(l, "keep-alive"))
  {
    hide Is, FoldAll;
  }

  lemma {:induction false} LinesSay(f: Flags, ls: seq<Line>)
    ensures var g := FlagsAfter(f, ls);
      && (g.close <==> f.close || Says(ls, "close")) && (g.keepAlive <==> f.keepAlive || Says(ls, "keep-alive"))
    decreases |ls|
  {
    hide LineFlags, IsConnection;
    if ls != [] {
      var l, rest := ls[0], ls[1..];
      OneLineSays(f, l);
      LinesSay(LineFlags(f, l.name, l.value), rest);
      assert ls == [l] + rest;
      SaysFirst(l, rest, "close");
      SaysFirst(l, rest, "keep-alive");
    }
  }

  lemma EndSays(ls: seq<Line>, c: Content)
    ensures var g := EndFlags(FlagsAfter(NoFlags, ls), c);
      && (g.close <==> Says(LinesOf(ls, c), "close")) && (g.keepAlive <==> Says(LinesOf(ls, c), "keep-alive"))
  {
    hide FlagsAfter, Says;
    LinesSay(NoFlags, ls);
    match c
    case Sized(_) => assert LinesOf(ls, c) == ls;
    case Chunked(body) =>
      LinesSay(FlagsAfter(NoFlags, ls).(trailing := true), body.trailers);
      SaysAppend(ls, body.trailers, "close");
      SaysAppend(ls, body.trailers, "keep-alive");
  }

  lemma EndState(p: P, ls: seq<Line>, c: Content)
    requires p.flags == EndFlags(FlagsAfter(NoFlags, ls), c)
    ensures NewMessage(p) ==
      if !GoesOn(p.major, p.minor, LinesOf(ls, c)) then Dead else if p.typ.Request? then StartReq else StartRes
  {
    hide FlagsAfter, Says, EndFlags, LinesOf;
    EndSays(ls, c);
  }

  // ----- contents

  /** The record after the blank line, when the message goes on. */
  function AfterBlank(p: P): P
  {
    p.(nread := 0,
       state := if p.flags.chunked then ChunkSizeStart else if p.clen == 0 then NewMessage(p) else BodyIdentity)
  }

  lemma BlankLine(p: P)
    requires p.state.HeaderFieldStart? && p.nread + 2 <= MAX_HEADER_SIZE
    requires p.flags == p.flags.(trailing := false, skipBody := false, upgrade := false) && !p.upgrade
    requires p.meth != CONNECT
    ensures Feed(false, p, CRLF) == Trace(Go, 2, AfterBlank(p),
      [N(HeadersComplete)] + (if AfterBlank(p).state == NewMessage(p) then [N(MessageComplete)] else []),
      [N(HeadersComplete)] + (if AfterBlank(p).state == NewMessage(p) then [N(MessageComplete)] else []))
  {
    hide Feed, NewMessage, SpansOf;
    BlankCr(false, p);
    var q := At(p, HeadersAlmostDone, 1);
    BlankLf(false, q);
    NewMessageIgnoresCounts(p, Counted(q).(nread := 0, upgrade := false));
    NewMessageOpensNothing(p);
    NewMessageState(p);
    SpansOfBodyStart();
    FeedAppend(false, p, "\r", "\n");
    assert "\r" + "\n" == CRLF && |"\n"| == 1;
    NotesOf(HeadersComplete, MessageComplete);
  }

  lemma NewMessageState(p: P)
    ensures NewMessage(p) in {Dead, StartReq, StartRes}
  {
  }

  lemma SpansOfBodyStart()
    ensures SpansOf(ChunkSizeStart) == NoSpans && SpansOf(BodyIdentity) == NoSpans
  {
  }

  lemma NotesOf(a: Note, b: Note)
    ensures Notes(Do2(Notify(a), Notify(b))) == [N(a)] + [N(b)] && Notes(Do1(Notify(a))) == [N(a)]
  {
  }

  /** Everything from the first header line to the end of the message. */
  function Tail(ls: seq<Line>, c: Content): string { RawLines(ls) + CRLF + c.Raw() }

  lemma ContentFeed(p: P, c: Content)
    requires !p.flags.trailing && p.nread == 0
    requires match c
      case Sized(data) => p.clen == |data| && p.state == (if p.clen == 0 then NewMessage(p) else BodyIdentity)
      case Chunked(body) => Between(p) && body.Valid()
    ensures var r, done := Feed(false, p, c.Raw()), [N(MessageComplete)];
      && r.v.Go? && r.used == |c.Raw()|
      && r.url == (if c.Sized? && c.data == "" then [] else done)
      && r.other + (if c.Sized? && c.data == "" then done else []) == c.Shown()[1..]
      && r.p.state == NewMessage(r.p) && r.p.meth == p.meth && r.p.major == p.major && r.p.minor == p.minor
      && r.p.status == p.status && r.p.typ == p.typ && r.p.flags == EndFlags(p.flags, c)
      && r.p.nread == EndCount(c) && r.p.upgrade == p.upgrade
  {
    hide Feed, Step, Tag, NewMessage, DataOf, HttpBody.Shown, RawLines;
    assert c.Shown()[1..] == (match c
      case Sized(data) => Tag(Body, data)
      case Chunked(body) => Tag(Body, DataOf(body.chunks)) + HttpBody.Shown(body.trailers)) + [N(MessageComplete)];
    match c
    case Sized(data) =>
      if data == "" {
        FeedEmpty(false, p);
        NothingShown(Body);
      } else {
        BodyRun(false, p, data);
        NewMessageIgnoresCounts(p, Feed(false, p, data).p);
      }
    case Chunked(body) =>
      ChunkedRoundTrip(false, p, body);
  }

  /** The header lines and the blank line. */
  lemma HeadFeed(p: P, ls: seq<Line>, c: Content)
    requires p.state.HeaderFieldStart? && p.flags == NoFlags && !p.upgrade && p.meth != CONNECT
    requires ValidLines(ls) && Announces(p.flags, p.clen, ls, c) && p.nread + |RawLines(ls)| + 2 <= MAX_HEADER_SIZE
    ensures var r := Feed(false, p, RawLines(ls) + CRLF);
      var q := p.(state := r.p.state, flags := FlagsAfter(p.flags, ls), hs := r.p.hs, index := r.p.index,
                  clen := LengthAfter(p.clen, ls), nread := 0);
      var done := if !q.flags.chunked && q.clen == 0 then [N(MessageComplete)] else [];
      && r == Trace(Go, |RawLines(ls)| + 2, q, [N(HeadersComplete)] + done, Shown(ls) + ([N(HeadersComplete)] + done))
      && q.state == (if q.flags.chunked then ChunkSizeStart else if q.clen == 0 then NewMessage(q) else BodyIdentity)
  {
    hide Feed, Step, Tag, NewMessage, RawLines, HttpBody.Shown, FlagsAfter, LengthAfter;
    LinesFeed(false, p, ls);
    LinesKeepTrailing(p.flags, ls);
    var p1 := Feed(false, p, RawLines(ls)).p;
    BlankLine(p1);
    Join(false, p, RawLines(ls), CRLF, Feed(false, p, RawLines(ls)), Feed(false, p1, CRLF));
    NewMessageState(p1);
    NewMessageIgnoresCounts(p1, Feed(false, p1, CRLF).p);
    assert [] + [N(HeadersComplete)] == [N(HeadersComplete)];
  }

  /** The two parts of what is seen from the blank line on. */
  lemma ShownParts(lines: seq<Obs>, head: seq<Obs>, rest: seq<Obs>, c: Content)
    requires var done := if c.Sized? && c.data == "" then [N(MessageComplete)] else [];
      head == lines + ([N(HeadersComplete)] + done) && rest + done == c.Shown()[1..]
    ensures head + rest == lines + c.Shown()
  {
    var all := c.Shown();
    assert all == [N(HeadersComplete)] + all[1..];
    if c.Sized? && c.data == "" {
      NothingShown(Body);
      assert rest == [];
    }
  }

  lemma Tails(p: P, ls: seq<Line>, c: Content)
    requires p.state.HeaderFieldStart? && p.flags == NoFlags && !p.upgrade && p.meth != CONNECT
    requires ValidLines(ls) && Announces(p.flags, p.clen, ls, c) && p.nread + |RawLines(ls)| + 2 <= MAX_HEADER_SIZE
    ensures var head := Feed(false, p, RawLines(ls) + CRLF);
      var rest := Feed(false, head.p, c.Raw());
      var q := rest.p;
      && head.v.Go? && rest.v.Go? && rest.used == |c.Raw()| && head.used == |RawLines(ls)| + 2
      && head.url + rest.url == [N(HeadersComplete), N(MessageComplete)]
      && head.other + rest.other == Shown(ls) + c.Shown()
      && q.state == NewMessage(q) && q.meth == p.meth && q.major == p.major && q.minor == p.minor
      && q.status == p.status && q.typ == p.typ && q.flags == EndFlags(FlagsAfter(NoFlags, ls), c)
      && q.nread == EndCount(c) && !q.upgrade
  {
    hide Feed, Step, Tag, NewMessage, RawLines, HttpBody.Shown, FlagsAfter, LengthAfter;
    LinesKeepTrailing(p.flags, ls);
    HeadFeed(p, ls, c);
    var head := Feed(false, p, RawLines(ls) + CRLF);
    ContentFeed(head.p, c);
    ShownParts(Shown(ls), head.other, Feed(false, head.p, c.Raw()).other, c);
  }

  lemma {:induction false} TailFeed(p: P, ls: seq<Line>, c: Content)
    requires p.state.HeaderFieldStart? && p.flags == NoFlags && !p.upgrade && p.meth != CONNECT
    requires ValidLines(ls) && Announces(p.flags, p.clen, ls, c) && p.nread + |RawLines(ls)| + 2 <= MAX_HEADER_SIZE
    ensures var r := Feed(false, p, Tail(ls, c));
      && r == Trace(Go, |Tail(ls, c)|, r.p, [N(HeadersComplete), N(MessageComplete)], Shown(ls) + c.Shown())
      && r.p.state == NewMessage(r.p) && r.p.meth == p.meth && r.p.major == p.major && r.p.minor == p.minor
      && r.p.status == p.status && r.p.typ == p.typ && r.p.flags == EndFlags(FlagsAfter(NoFlags, ls), c)
      && r.p.nread == EndCount(c) && !r.p.upgrade
  {
    Tails(p, ls, c);
    hide Feed, NewMessage, RawLines, HttpBody.Shown, FlagsAfter, LengthAfter, Announces, ValidLines, EndFlags, EndCount;
    var head := Feed(false, p, RawLines(ls) + CRLF);
    Join(false, p, RawLines(ls) + CRLF, c.Raw(), head, Feed(false, head.p, c.Raw()));
  }

  /** A request that can be written: its header lines announce its content, and do not ask for another
      protocol. */
  datatype RequestText = RequestText(line: RequestLine, lines: seq<Line>, content: Content) {
    function Raw(): string { line.Raw() + Tail(lines, content) }

    /** The header bytes that the parser counts before it forgets them. */
    function HeadSize(): nat { |line.Raw()| + |RawLines(lines)| + 2 }

    ghost predicate Valid()
    {
      line.Valid() && line.meth != CONNECT && ValidLines(lines) && Announces(NoFlags, TWO_64 - 1, lines, content)
    }

    predicate Persists()
    {
      GoesOn(Decimal(line.version.major), Decimal(line.version.minor), LinesOf(lines, content))
    }

    function UrlShown(): seq<Obs>
    {
      [N(MessageBegin)] + Tag(Url, line.target.Raw()) + [N(HeadersComplete), N(MessageComplete)]
    }

    function OtherShown(): seq<Obs>
    {
      [N(MessageBegin)] + line.target.Parts() + HttpBody.Shown(lines) + content.Shown()
    }
  }

  /** A request, written and parsed back: the method and version are in the record, the target, the
      header names and values and the body are delivered once each and in order, the message is begun, its
      headers completed and the whole completed exactly once, and the parser waits for the next message or is
      dead as version and Connection lines say. */
  lemma RequestRoundTrip(p: P, m: RequestText)
    requires AtRequest(p) && !p.upgrade && m.Valid() && p.nread + m.HeadSize() <= MAX_HEADER_SIZE
    ensures var r := Feed(false, p, m.Raw());
      && r.v.Go? && r.used == |m.Raw()| && r.url == m.UrlShown() && r.other == m.OtherShown()
      && r.p.meth == m.line.meth
      && r.p.major == Decimal(m.line.version.major) && r.p.minor == Decimal(m.line.version.minor)
      && r.p.state == (if m.Persists() then StartReq else Dead) && r.p.typ == p.typ
      && r.p.flags == EndFlags(FlagsAfter(NoFlags, m.lines), m.content)
      && r.p.nread == EndCount(m.content) && !r.p.upgrade
  {
    hide Feed, Step, Tag, NewMessage, RawLines, HttpBody.Shown, FlagsAfter, LengthAfter, Decimal, Number, MethodString;
    hide GoesOn, LinesOf, EndFlags, EndCount, Announces;
    var l, ls, c := m.line, m.lines, m.content;
    RequestLineFeed(false, p, l);
    var q := Feed(false, p, l.Raw()).p;
    TailFeed(q, ls, c);
    Join(false, p, l.Raw(), Tail(ls, c), Feed(false, p, l.Raw()), Feed(false, q, Tail(ls, c)));
    EndState(Feed(false, p, m.Raw()).p, ls, c);
  }

  /** The same however the bytes of the request arrive: one call for each of any non-empty pieces. */
  lemma RequestInPieces(p: P, m: RequestText, pieces: seq<string>)
    requires AtRequest(p) && Good(p) && !p.upgrade && m.Valid() && p.nread + m.HeadSize() <= MAX_HEADER_SIZE
    requires NonEmpty(pieces) && Concat(pieces) == m.Raw()
    ensures var r := ExecAll(false, p, pieces);
      && r.v.Go? && r.used == |m.Raw()| && r.url == m.UrlShown() && r.other == m.OtherShown()
      && r.p.meth == m.line.meth
      && r.p.major == Decimal(m.line.version.major) && r.p.minor == Decimal(m.line.version.minor)
      && r.p.state == (if m.Persists() then StartReq else Dead)
  {
    hide Feed, Step, Decimal, Good, ExecAll, RequestText.Raw, RequestText.Valid, RequestText.HeadSize;
    hide RequestText.Persists, RequestText.UrlShown, RequestText.OtherShown, EndFlags, EndCount, FlagsAfter;
    RequestRoundTrip(p, m);
    SplitFeed(false, p, p, pieces);
  }

  /** Two requests in one input: both are parsed back if the first one lets the connection go on. */
  lemma TwoRequests(p: P, m: RequestText, n: RequestText)
    requires AtRequest(p) && !p.upgrade && m.Valid() && p.nread + m.HeadSize() <= MAX_HEADER_SIZE && m.Persists()
    requires n.Valid() && EndCount(m.content) + n.HeadSize() <= MAX_HEADER_SIZE
    ensures var r := Feed(false, p, m.Raw() + n.Raw());
      && r.v.Go? && r.used == |m.Raw()| + |n.Raw()|
      && r.url == m.UrlShown() + n.UrlShown() && r.other == m.OtherShown() + n.OtherShown()
      && r.p.meth == n.line.meth && r.p.state == (if n.Persists() then StartReq else Dead)
  {
    hide Feed, Step, Decimal, RequestText.Raw, RequestText.Valid, RequestText.HeadSize;
    hide RequestText.Persists, RequestText.UrlShown, RequestText.OtherShown, EndFlags, EndCount, FlagsAfter;
    RequestRoundTrip(p, m);
    RequestRoundTrip(Feed(false, p, m.Raw()).p, n);
    FeedAppend(false, p, m.Raw(), n.Raw());
  }

  /** If it does not, the first byte after it is an error. */
  lemma ClosedAfter(p: P, m: RequestText, rest: string)
    requires AtRequest(p) && !p.upgrade && m.Valid() && p.nread + m.HeadSize() <= MAX_HEADER_SIZE && !m.Persists()
    requires rest != ""
    ensures var r := Feed(false, p, m.Raw() + rest);
      r.v.Fail? && r.used == |m.Raw()| && r.url == m.UrlShown() && r.other == m.OtherShown()
  {
    hide Feed, Step, Decimal, RequestText.Raw, RequestText.Valid, RequestText.HeadSize;
    hide RequestText.Persists, RequestText.UrlShown, RequestText.OtherShown, EndFlags, EndCount, FlagsAfter;
    RequestRoundTrip(p, m);
    DeadFeed(false, Feed(false, p, m.Raw()).p, rest);
    FeedAppend(false, p, m.Raw(), rest);
  }

  /** A response, written and parsed back. */
  lemma ResponseRoundTrip(p: P, l: StatusLine, ls: seq<Line>, c: Content)
    requires AtResponse(p) && !p.upgrade && p.meth != CONNECT && l.Valid() && ValidLines(ls)
    requires Announces(NoFlags, TWO_64 - 1, ls, c)
    requires p.nread + |l.Raw()| + |RawLines(ls)| + 2 <= MAX_HEADER_SIZE
    ensures var s := l.Raw() + Tail(ls, c);
      var r := Feed(false, p, s);
      && r.v.Go? && r.used == |s|
      && r.p.status == Decimal(l.status)
      && r.p.major == Decimal(l.version.major) && r.p.minor == Decimal(l.version.minor)
      && r.p.flags == EndFlags(FlagsAfter(NoFlags, ls), c)
      && r.p.state == (if !GoesOn(Decimal(l.version.major), Decimal(l.version.minor), LinesOf(ls, c)) then Dead
                       else if p.typ.Request? then StartReq else StartRes)
      && r.url == [N(MessageBegin), N(HeadersComplete), N(MessageComplete)]
      && r.other == [N(MessageBegin)] + Shown(ls) + c.Shown()
  {
    hide Feed, Step, Tag, NewMessage, RawLines, HttpBody.Shown, FlagsAfter, LengthAfter, Decimal, Number;
    hide GoesOn, LinesOf, EndFlags, EndCount, Announces;
    StatusLineFeed(false, p, l);
    var q := Feed(false, p, l.Raw()).p;
    TailFeed(q, ls, c);
    Join(false, p, l.Raw(), Tail(ls, c), Feed(false, p, l.Raw()), Feed(false, q, Tail(ls, c)));
    EndState(Feed(false, p, l.Raw() + Tail(ls, c)).p, ls, c);
  }

  /** When the blank line completes a message at once: only for a body length of exactly zero. The
      source means the absence of both framings to have the same effect, but the length is unsigned,
      so that its initial value counts as a length of 2^64 - 1 bytes. */
  lemma NoFramingIsABody(p: P, ls: seq<Line>)
    requires p.state.HeaderFieldStart? && p.flags == NoFlags && !p.upgrade && p.meth != CONNECT && p.clen == TWO_64 - 1
    requires ValidLines(ls) && !FlagsAfter(p.flags, ls).upgrade && !FlagsAfter(p.flags, ls).chunked
    requires p.nread + |RawLines(ls)| + 2 <= MAX_HEADER_SIZE
    ensures var r := Feed(false, p, RawLines(ls) + CRLF);
      && r.v.Go?
      && (N(MessageComplete) in r.url <==> LengthAfter(p.clen, ls) == 0)
      && (LengthAfter(p.clen, ls) == p.clen ==> r.p.state.BodyIdentity? && r.p.clen == TWO_64 - 1)
  {
    hide Feed, Step, Tag, NewMessage, RawLines, HttpBody.Shown, FlagsAfter, LengthAfter;
    LinesFeed(false, p, ls);
    LinesKeepTrailing(p.flags, ls);
    var p1 := Feed(false, p, RawLines(ls)).p;
    NewMessageState(p1);
    BlankLine(p1);
    Join(false, p, RawLines(ls), CRLF, Feed(false, p, RawLines(ls)), Feed(false, p1, CRLF));
  }
}
