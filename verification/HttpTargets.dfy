/** Exactly which request targets the parser accepts. A grammar of its own, and the proof that the states of the
    parser accept what the grammar describes, no more and no less. */
module HttpTargets {
  import opened HttpTypes
  import opened HttpArms
  import opened HttpMachine
  import opened HttpMessage
  import opened HttpTables

  // ----- the grammar

  predicate Figure(ch: char) { '0' <= ch <= '9' }

  /** All printable characters but space, '#' and '?'. */
  predicate UrlChar(ch: char)
  {
    IsLetter(ch) || Figure(ch) || ch in
      {'!', '"', '$', '%', '&', '\'', '(', ')', '*', '+', ',', '-', '.', '/', ':', ';', '<', '=', '>', '@', '[',
       '\\', ']', '^', '_', '`', '{', '|', '}', '~'}
  }

  predicate FragmentRest(s: string)
  {
    s == "" || ((UrlChar(s[0]) || s[0] == '?' || s[0] == '#') && FragmentRest(s[1..]))
  }

  predicate QueryRest(s: string)
  {
    s == "" || if s[0] == '#' then FragmentRest(s[1..]) else (UrlChar(s[0]) || s[0] == '?') && QueryRest(s[1..])
  }

  predicate PathRest(s: string)
  {
    s == "" ||
      if s[0] == '?' then QueryRest(s[1..])
      else if s[0] == '#' then FragmentRest(s[1..])
      else UrlChar(s[0]) && PathRest(s[1..])
  }

  predicate PortRest(s: string)
  {
    s == "" || if s[0] == '/' then PathRest(s[1..]) else Figure(s[0]) && PortRest(s[1..])
  }

  predicate HostRest(s: string)
  {
    s == "" ||
      if s[0] == '/' then PathRest(s[1..])
      else if s[0] == ':' then PortRest(s[1..])
      else (IsLetter(s[0]) || Figure(s[0]) || s[0] == '.' || s[0] == '-') && HostRest(s[1..])
  }

  /** After the first letters: "://" and a host, or a '.' or digit, with which they are a host themselves. */
  predicate SchemaRest(s: string)
  {
    s != "" &&
      if s[0] == ':' then |s| >= 3 && s[1] == '/' && s[2] == '/' && HostRest(s[3..])
      else if s[0] == '.' || Figure(s[0]) then HostRest(s[1..])
      else IsLetter(s[0]) && SchemaRest(s[1..])
  }

  /** A path, an absolute URL, or a host with a port. */
  predicate TargetText(s: string)
  {
    s != "" && if s[0] == '/' || s[0] == '*' then PathRest(s[1..]) else IsLetter(s[0]) && SchemaRest(s[1..])
  }

  /** What a rest of a target in each state is. */
  predicate RestOf(st: State, s: string)
  {
    match st
    case ReqSpacesBeforeUrl => TargetText(s)
    case ReqSchema => SchemaRest(s)
    case ReqSchemaSlash => |s| >= 2 && s[0] == '/' && s[1] == '/' && HostRest(s[2..])
    case ReqSchemaSlashSlash => |s| >= 1 && s[0] == '/' && HostRest(s[1..])
    case ReqHost => HostRest(s)
    case ReqPort => PortRest(s)
    case ReqPath => PathRest(s)
    case ReqQueryStart => QueryRest(s)
    case ReqQuery => QueryRest(s)
    case ReqFragmentStart => FragmentRest(s)
    case ReqFragment => FragmentRest(s)
    case _ => false
  }

  // ----- one byte

  predicate Ends(ch: char) { ch == ' ' || ch == CR || ch == LF }

  /** The bytes of a target. */
  predicate Inside(s: string) { forall i :: 0 <= i < |s| ==> !Ends(s[i]) && s[i] < 256 as char }

  /** The step on the first byte of a rest leads to the state for what is left, or nowhere. */
  predicate StepsOn(p: P, s: string)
    requires UrlState(p.state) && s != ""
  {
    var o := ArmUrl(p, s[0]);
    && (RestOf(p.state, s) <==> o.v.Go? && RestOf(o.p.state, s[1..]))
    && (o.v.Go? ==> o.p == p.(state := o.p.state) && Notes(o.acts) == [] && SpansOf(o.p.state).url)
  }

  lemma Tables(ch: char)
    requires ch < 256 as char
    ensures NormalUrlChar(ch) <==> UrlChar(ch)
    ensures IsAlpha(ch) <==> IsLetter(ch)
    ensures IsDigit(ch) <==> Figure(ch)
    ensures IsLetter(ch) || Figure(ch) || ch == '.' || ch == '-' ==> ch != '/' && ch != ':' && ch != '*'
  {
    UrlTable(ch);
    LetterTable(ch);
  }

  lemma PathSteps(p: P, s: string)
    requires s != "" && Inside(s) && p.state.ReqPath?
    ensures StepsOn(p, s)
  {
    Tables(s[0]);
    hide UrlChar, NormalUrlChar, IsAlpha, IsDigit, Figure, IsLetter, QueryRest, FragmentRest, HostRest, PortRest;
  }

  lemma QuerySteps(p: P, s: string)
    requires s != "" && Inside(s) && p.state in {ReqQueryStart, ReqQuery}
    ensures StepsOn(p, s)
  {
    Tables(s[0]);
    hide UrlChar, NormalUrlChar, IsAlpha, IsDigit, Figure, IsLetter, PathRest, FragmentRest, HostRest, PortRest;
  }

  lemma FragmentSteps(p: P, s: string)
    requires s != "" && Inside(s) && p.state in {ReqFragmentStart, ReqFragment}
    ensures StepsOn(p, s)
  {
    Tables(s[0]);
    hide UrlChar, NormalUrlChar, IsAlpha, IsDigit, Figure, IsLetter, PathRest, QueryRest, HostRest, PortRest;
  }

  lemma HostSteps(p: P, s: string)
    requires s != "" && Inside(s) && p.state in {ReqHost, ReqPort}
    ensures StepsOn(p, s)
  {
    Tables(s[0]);
    hide UrlChar, NormalUrlChar, IsAlpha, IsDigit, Figure, IsLetter, PathRest, QueryRest, FragmentRest;
  }

  lemma StartSteps(p: P, s: string)
    requires s != "" && Inside(s) && p.state.ReqSpacesBeforeUrl?
    ensures StepsOn(p, s)
  {
    Tables(s[0]);
    hide UrlChar, NormalUrlChar, IsAlpha, IsDigit, Figure, IsLetter, PathRest, HostRest, SchemaRest;
  }

  lemma SchemaSteps(p: P, s: string)
    requires s != "" && Inside(s) && p.state.ReqSchema?
    ensures StepsOn(p, s)
  {
    Tables(s[0]);
    hide UrlChar, NormalUrlChar, IsAlpha, IsDigit, Figure, IsLetter, PathRest, HostRest, PortRest;
    var t := s[1..];
    if |s| >= 3 { assert t[0] == s[1] && t[1] == s[2] && t[2..] == s[3..]; }
  }

  lemma SlashSteps(p: P, s: string)
    requires s != "" && Inside(s) && p.state in {ReqSchemaSlash, ReqSchemaSlashSlash}
    ensures StepsOn(p, s)
  {
    hide UrlChar, NormalUrlChar, IsAlpha, IsDigit, Figure, IsLetter, PathRest, HostRest, PortRest, SchemaRest;
    if |s| >= 2 { assert s[1..][1..] == s[2..]; }
  }

  lemma UrlSteps(p: P, s: string)
    requires s != "" && Inside(s) && UrlState(p.state)
    ensures StepsOn(p, s)
  {
    hide StepsOn;
    match p.state
    case ReqSpacesBeforeUrl => StartSteps(p, s);
    case ReqSchema => SchemaSteps(p, s);
    case ReqSchemaSlash => SlashSteps(p, s);
    case ReqSchemaSlashSlash => SlashSteps(p, s);
    case ReqPath => PathSteps(p, s);
    case ReqQueryStart => QuerySteps(p, s);
    case ReqQuery => QuerySteps(p, s);
    case ReqFragmentStart => FragmentSteps(p, s);
    case ReqFragment => FragmentSteps(p, s);
    case _ => HostSteps(p, s);
  }

  lemma TargetByte(skip: bool, p: P, s: string)
    requires s != "" && Inside(s) && UrlState(p.state) && p.nread < MAX_HEADER_SIZE
    ensures var o := Step(skip, p, s[0]);
      && (RestOf(p.state, s) <==> o.v.Go? && RestOf(o.p.state, s[1..]))
      && (o.v.Go? ==> o.p == At(p, o.p.state, 1) && UrlState(o.p.state) && o.url == [D(Url, s[0])])
  {
    hide ArmUrl, SpansOf, Notes, RestOf;
    UrlSteps(Counted(p), s);
    SpansInUrl(ArmUrl(Counted(p), s[0]).p.state);
  }

  lemma SpansInUrl(st: State)
    ensures SpansOf(st).url ==> UrlState(st)
  {
  }

  /** The space after a target. */
  lemma TargetSpace(skip: bool, p: P)
    requires UrlState(p.state) && p.nread < MAX_HEADER_SIZE
    ensures var r := Feed(skip, p, " ");
      && (r.v.Go? && r.p.state.ReqHttpStart? <==> RestOf(p.state, ""))
      && (RestOf(p.state, "") ==> r == Trace(Go, 1, At(p, ReqHttpStart, 1), [], []))
  {
    hide Feed;
    FeedOne(skip, p, ' ');
  }

  // ----- the language

  lemma FirstByte(skip: bool, p: P, c: char, t: string)
    ensures var o := Step(skip, p, c);
      Feed(skip, p, [c] + t) == Then(Trace(o.v, if o.v.Go? then 1 else 0, o.p, o.url, o.other), Feed(skip, o.p, t))
  {
    hide Step, Feed;
    FeedOne(skip, p, c);
    FeedAppend(skip, p, [c], t);
  }

  lemma TagOne(k: Kind, c: char)
    ensures Tag(k, [c]) == [D(k, c)]
  {
  }

  /** Reading the rest of a target and a space leads to the version exactly if the grammar allows it, and then all of
      it is delivered as URL. */
  lemma {:induction false} RestExact(skip: bool, p: P, s: string)
    requires UrlState(p.state) && Inside(s) && p.nread + |s| < MAX_HEADER_SIZE
    ensures var r := Feed(skip, p, s + " ");
      && (r.v.Go? && r.p.state.ReqHttpStart? <==> RestOf(p.state, s))
      && (RestOf(p.state, s) ==> r.p == At(p, ReqHttpStart, |s| + 1) && r.url == Tag(Url, s))
    decreases |s|
  {
    hide Step, Feed, RestOf, Tag, UrlState;
    if s == "" {
      TargetSpace(skip, p);
      NothingShown(Url);
      assert s + " " == " ";
    } else {
      var c, t := s[0], s[1..];
      assert s + " " == [c] + (t + " ") && s == [c] + t;
      TargetByte(skip, p, s);
      var o := Step(skip, p, c);
      FirstByte(skip, p, c, t + " ");
      TagAppend(Url, [c], t);
      TagOne(Url, c);
      if o.v.Go? { RestExact(skip, o.p, t); }
    }
  }

  /** After the space that ends the method: the text up to the next space is accepted exactly if it is a target. */
  lemma TargetExact(skip: bool, p: P, s: string)
    requires p.state.ReqSpacesBeforeUrl? && Inside(s) && p.nread + |s| < MAX_HEADER_SIZE
    ensures var r := Feed(skip, p, s + " ");
      && (r.v.Go? && r.p.state.ReqHttpStart? <==> TargetText(s))
      && (TargetText(s) ==> r.p == At(p, ReqHttpStart, |s| + 1) && r.url == Tag(Url, s))
  {
    hide Feed, TargetText;
    RestExact(skip, p, s);
  }
}
