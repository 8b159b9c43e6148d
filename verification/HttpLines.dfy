/** Exactly which first lines, header lines and size lines the parser accepts. */
module HttpLines {
  import opened HttpTypes
  import opened HttpArms
  import opened HttpMachine
  import opened HttpHeaders
  import opened HttpBody
  import opened HttpMessage
  import opened HttpTables
  import opened HttpTargets

  // ----- the grammar of versions and status lines

  function Worth(ch: char): (d: nat)
    requires Figure(ch)
    ensures d <= 9
  {
    ch as int - '0' as int
  }

  /** A number that stays below 1000, and what follows it. */
  predicate MajorFirst(s: string, response: bool)
  {
    s != "" && '1' <= s[0] <= '9' && MajorRest(s[1..], Worth(s[0]), response)
  }

  predicate MajorRest(s: string, n: nat, response: bool)
  {
    s != "" &&
      if s[0] == '.' then MinorFirst(s[1..], response)
      else Figure(s[0]) && n * 10 + Worth(s[0]) < 1000 && MajorRest(s[1..], n * 10 + Worth(s[0]), response)
  }

  predicate MinorFirst(s: string, response: bool)
  {
    s != "" && Figure(s[0]) && MinorRest(s[1..], Worth(s[0]), response)
  }

  /** The version ends a request line; in a status line a space and the code follow. */
  predicate MinorRest(s: string, n: nat, response: bool)
  {
    if s == "" then !response
    else if response && s[0] == ' ' then CodeFirst(s[1..])
    else Figure(s[0]) && n * 10 + Worth(s[0]) < 1000 && MinorRest(s[1..], n * 10 + Worth(s[0]), response)
  }

  predicate CodeFirst(s: string)
  {
    s != "" && if s[0] == ' ' then CodeFirst(s[1..]) else Figure(s[0]) && CodeRest(s[1..], Worth(s[0]))
  }

  /** After a code below 1000, nothing, or a space and any reason. */
  predicate CodeRest(s: string, n: nat)
  {
    s == "" || s[0] == ' ' ||
      (Figure(s[0]) && n * 10 + Worth(s[0]) < 1000 && CodeRest(s[1..], n * 10 + Worth(s[0])))
  }

  /** The word, and a version after it. */
  predicate Word(s: string, word: string, response: bool) { word <= s && MajorFirst(s[|word|..], response) }

  /** What comes after the space that ends a target. */
  predicate VersionText(s: string)
  {
    s != "" && if s[0] == ' ' then VersionText(s[1..]) else Word(s, "HTTP/", false)
  }

  predicate LineState(st: State) { ReqVersionState(st) || ResState(st) }

  /** What a rest of a first line in each state is; p holds the number that is being read. */
  predicate RestOfLine(p: P, s: string)
  {
    match p.state
    case ReqHttpStart => VersionText(s)
    case ReqH => Word(s, "TTP/", false)
    case ReqHT => Word(s, "TP/", false)
    case ReqHTT => Word(s, "P/", false)
    case ReqHTTP => Word(s, "/", false)
    case ReqFirstMajor => MajorFirst(s, false)
    case ReqMajor => MajorRest(s, p.major, false)
    case ReqFirstMinor => MinorFirst(s, false)
    case ReqMinor => MinorRest(s, p.minor, false)
    case ResH => Word(s, "TTP/", true)
    case ResHT => Word(s, "TP/", true)
    case ResHTT => Word(s, "P/", true)
    case ResHTTP => Word(s, "/", true)
    case ResFirstMajor => MajorFirst(s, true)
    case ResMajor => MajorRest(s, p.major, true)
    case ResFirstMinor => MinorFirst(s, true)
    case ResMinor => MinorRest(s, p.minor, true)
    case ResFirstStatusCode => CodeFirst(s)
    case ResStatusCode => CodeRest(s, p.status)
    case ResStatus => true
    case _ => false
  }

  /** Bytes that do not end the line. */
  predicate InLine(s: string) { forall i :: 0 <= i < |s| ==> s[i] != CR && s[i] != LF && s[i] < 256 as char }

  /** The arm of a first line. */
  function LineArm(p: P, c: char): Out
    requires LineState(p.state)
  {
    if ReqVersionState(p.state) then ArmReqVersion(p, c) else ArmRes(p, c)
  }

  /** The step on the first byte of a rest leads to a state for what is left, or nowhere. */
  predicate LineSteps(p: P, s: string)
    requires LineState(p.state) && s != ""
  {
    var o := LineArm(p, s[0]);
    && (RestOfLine(p, s) <==> o.v.Go? && RestOfLine(o.p, s[1..]))
    && (o.v.Go? ==> LineState(o.p.state) && o.p.nread == p.nread)
  }

  lemma Digits(ch: char)
    ensures IsDigit(ch) <==> Figure(ch)
    ensures Figure(ch) ==> Digit(ch) == Worth(ch)
  {
  }

  lemma WordCut(s: string, c: char, word: string, response: bool)
    requires s != ""
    ensures Word(s, [c] + word, response) <==> s[0] == c && Word(s[1..], word, response)
  {
    hide MajorFirst;
    var w := [c] + word;
    assert s == [s[0]] + s[1..];
    if w <= s {
      assert w[0] == c && s[..|w|] == w;
      assert s[1..][..|word|] == s[1..|w|] == w[1..] == word;
    }
    if s[0] == c && word <= s[1..] { assert s[..|w|] == [c] + s[1..][..|word|]; }
    if |s| >= |w| { assert s[1..][|word|..] == s[|w|..]; }
  }

  lemma NoWord(s: string, response: bool)
    ensures Word(s, "", response) <==> MajorFirst(s, response)
  {
    hide MajorFirst;
    assert s[0..] == s;
  }

  lemma LetterSteps(p: P, s: string)
    requires s != "" && InLine(s)
    requires p.state in {ReqHttpStart, ReqH, ReqHT, ReqHTT, ReqHTTP, ResH, ResHT, ResHTT, ResHTTP}
    ensures LineSteps(p, s)
  {
    var response := ResState(p.state);
    hide Word, MajorFirst, IsDigit;
    WordCut(s, 'H', "TTP/", response);
    WordCut(s, 'T', "TP/", response);
    WordCut(s, 'T', "P/", response);
    WordCut(s, 'P', "/", response);
    WordCut(s, '/', "", response);
    NoWord(s[1..], response);
    assert "HTTP/" == ['H'] + "TTP/" && "TTP/" == ['T'] + "TP/" && "TP/" == ['T'] + "P/" && "P/" == ['P'] + "/";
    assert "/" == ['/'] + "";
  }

  lemma ReqNumberSteps(p: P, s: string)
    requires s != "" && InLine(s) && p.state in {ReqFirstMajor, ReqMajor, ReqFirstMinor, ReqMinor}
    ensures LineSteps(p, s)
  {
    Digits(s[0]);
    hide Word;
  }

  lemma ResNumberSteps(p: P, s: string)
    requires s != "" && InLine(s) && p.state in {ResFirstMajor, ResMajor, ResFirstMinor, ResMinor}
    ensures LineSteps(p, s)
  {
    Digits(s[0]);
    hide Word;
  }

  lemma CodeSteps(p: P, s: string)
    requires s != "" && InLine(s) && p.state in {ResFirstStatusCode, ResStatusCode, ResStatus}
    ensures LineSteps(p, s)
  {
    Digits(s[0]);
    hide Word;
  }

  lemma AlmostSteps(p: P, s: string)
    requires s != "" && InLine(s) && p.state in {ReqLineAlmostDone, ResLineAlmostDone}
    ensures LineSteps(p, s)
  {
  }

  lemma StepOfLine(p: P, s: string)
    requires s != "" && InLine(s) && LineState(p.state)
    ensures LineSteps(p, s)
  {
    hide LineSteps;
    if p.state in {ReqHttpStart, ReqH, ReqHT, ReqHTT, ReqHTTP, ResH, ResHT, ResHTT, ResHTTP} {
      LetterSteps(p, s);
    } else if p.state in {ReqFirstMajor, ReqMajor, ReqFirstMinor, ReqMinor} {
      ReqNumberSteps(p, s);
    } else if p.state in {ResFirstMajor, ResMajor, ResFirstMinor, ResMinor} {
      ResNumberSteps(p, s);
    } else if p.state in {ResFirstStatusCode, ResStatusCode, ResStatus} {
      CodeSteps(p, s);
    } else {
      AlmostSteps(p, s);
    }
  }

  lemma SameRest(p: P, s: string)
    ensures RestOfLine(Counted(p), s) == RestOfLine(p, s)
  {
    hide Word, MajorFirst, MajorRest, MinorFirst, MinorRest, CodeFirst, CodeRest, VersionText;
  }

  lemma LineByte(skip: bool, p: P, s: string)
    requires s != "" && InLine(s) && LineState(p.state) && p.nread < MAX_HEADER_SIZE
    ensures var o := Step(skip, p, s[0]);
      && (RestOfLine(p, s) <==> o.v.Go? && RestOfLine(o.p, s[1..]))
      && (o.v.Go? ==> LineState(o.p.state) && o.p.nread == p.nread + 1)
  {
    hide LineArm, RestOfLine, Step;
    ArmStep(skip, p, s[0]);
    StepOfLine(Counted(p), s);
    SameRest(p, s);
  }

  /** The states in which a line may end. */
  predicate MayEnd(st: State) { st.ReqMinor? || st.ResStatusCode? || st.ResStatus? }

  lemma RestIsEmpty(p: P)
    requires LineState(p.state)
    ensures RestOfLine(p, "") <==> MayEnd(p.state)
  {
  }

  lemma ArmAtCr(p: P)
    requires LineState(p.state)
    ensures var o := LineArm(p, CR);
      && (o.v.Go? <==> MayEnd(p.state))
      && (o.v.Go? ==> o.p == p.(state := o.p.state) && o.p.state in {ReqLineAlmostDone, ResLineAlmostDone})
  {
  }

  lemma ArmAtLf(p: P)
    requires LineState(p.state)
    ensures var o := LineArm(p, LF);
      o.v.Go? && o.p.state.HeaderFieldStart? <==>
        MayEnd(p.state) || p.state.ReqLineAlmostDone? || p.state.ResLineAlmostDone?
  {
  }

  lemma ArmInside(p: P, c: char)
    requires LineState(p.state) && c != CR && c != LF
    ensures var o := LineArm(p, c); o.v.Go? ==> o.p.state !in {ReqLineAlmostDone, ResLineAlmostDone}
  {
    hide IsDigit;
  }

  lemma ArmStep(skip: bool, p: P, c: char)
    requires LineState(p.state) && p.nread < MAX_HEADER_SIZE
    ensures var o := LineArm(Counted(p), c); Step(skip, p, c).v == o.v && Step(skip, p, c).p == o.p
  {
    hide ArmReqVersion, ArmRes, Notes, SpansOf;
  }

  lemma EndByCr(skip: bool, p: P)
    requires LineState(p.state) && p.nread + 2 <= MAX_HEADER_SIZE
    ensures var o := Step(skip, p, CR);
      && (o.v.Go? <==> RestOfLine(p, ""))
      && (o.v.Go? ==> o.p == At(p, o.p.state, 1) && o.p.state in {ReqLineAlmostDone, ResLineAlmostDone})
  {
    hide Step, LineArm, RestOfLine;
    RestIsEmpty(p);
    ArmStep(skip, p, CR);
    ArmAtCr(Counted(p));
  }

  lemma EndByLf(skip: bool, p: P)
    requires LineState(p.state) && p.nread < MAX_HEADER_SIZE
    ensures var o := Step(skip, p, LF);
      (o.v.Go? && o.p.state.HeaderFieldStart? <==>
        RestOfLine(p, "") || p.state.ReqLineAlmostDone? || p.state.ResLineAlmostDone?)
  {
    hide Step, LineArm, RestOfLine;
    RestIsEmpty(p);
    ArmStep(skip, p, LF);
    ArmAtLf(Counted(p));
  }

  lemma LineEnds(skip: bool, p: P, crlf: bool)
    requires LineState(p.state) && p.nread + 2 <= MAX_HEADER_SIZE && p.state !in {ReqLineAlmostDone, ResLineAlmostDone}
    ensures var r := Feed(skip, p, Eol(crlf)); r.v.Go? && r.p.state.HeaderFieldStart? <==> RestOfLine(p, "")
  {
    hide Feed, Step, RestOfLine;
    EndByCr(skip, p);
    EndByLf(skip, p);
    FeedOne(skip, p, CR);
    FeedOne(skip, p, LF);
    FeedAppend(skip, p, "\r", "\n");
    assert "\r" + "\n" == "\r\n";
    var q := Step(skip, p, CR).p;
    FeedOne(skip, q, LF);
    if Step(skip, p, CR).v.Go? { EndByLf(skip, q); }
  }

  /** No byte inside a line leads to where a line feed is expected. */
  lemma StaysInLine(skip: bool, p: P, c: char)
    requires LineState(p.state) && c != CR && c != LF && p.nread < MAX_HEADER_SIZE
    ensures var o := Step(skip, p, c); o.v.Go? ==> o.p.state !in {ReqLineAlmostDone, ResLineAlmostDone}
  {
    hide Step, LineArm;
    ArmStep(skip, p, c);
    ArmInside(Counted(p), c);
  }

  /** The rest of a first line is accepted exactly if the grammar allows it. */
  lemma {:induction false} RestOfLineExact(skip: bool, p: P, s: string, crlf: bool)
    requires LineState(p.state) && p.state !in {ReqLineAlmostDone, ResLineAlmostDone}
    requires InLine(s) && p.nread + |s| + 2 <= MAX_HEADER_SIZE
    ensures var r := Feed(skip, p, s + Eol(crlf)); r.v.Go? && r.p.state.HeaderFieldStart? <==> RestOfLine(p, s)
    decreases |s|
  {
    hide Step, Feed, RestOfLine, Eol;
    if s == "" {
      LineEnds(skip, p, crlf);
      assert s + Eol(crlf) == Eol(crlf);
    } else {
      var c, t := s[0], s[1..];
      assert s + Eol(crlf) == [c] + (t + Eol(crlf));
      LineByte(skip, p, s);
      StaysInLine(skip, p, c);
      FirstByte(skip, p, c, t + Eol(crlf));
      if Step(skip, p, c).v.Go? { RestOfLineExact(skip, Step(skip, p, c).p, t, crlf); }
    }
  }

  /** After the space that ends a target: spaces, "HTTP/", and a version of two numbers below 1000, of which the first
      does not start with a zero. */
  lemma VersionExact(skip: bool, p: P, s: string, crlf: bool)
    requires p.state.ReqHttpStart? && InLine(s) && p.nread + |s| + 2 <= MAX_HEADER_SIZE
    ensures var r := Feed(skip, p, s + Eol(crlf)); r.v.Go? && r.p.state.HeaderFieldStart? <==> VersionText(s)
  {
    hide Feed, VersionText;
    RestOfLineExact(skip, p, s, crlf);
  }

  lemma ResponseFirst(skip: bool, p: P, c: char)
    requires AtResponse(p) && c != CR && c != LF && p.nread < MAX_HEADER_SIZE
    ensures var o := Step(skip, p, c);
      (o.v.Go? <==> c == 'H') && (o.v.Go? ==> o.p.state.ResH? && o.p.nread == p.nread + 1)
  {
  }

  /** A status line: "HTTP/", a version, spaces, a code below 1000, and perhaps a space and a reason. */
  lemma StatusExact(skip: bool, p: P, s: string, crlf: bool)
    requires AtResponse(p) && s != "" && InLine(s) && p.nread + |s| + 2 <= MAX_HEADER_SIZE
    ensures var r := Feed(skip, p, s + Eol(crlf)); r.v.Go? && r.p.state.HeaderFieldStart? <==> Word(s, "HTTP/", true)
  {
    hide Feed, Step, Word, Eol;
    var c, t := s[0], s[1..];
    WordCut(s, 'H', "TTP/", true);
    assert "HTTP/" == ['H'] + "TTP/" && s + Eol(crlf) == [c] + (t + Eol(crlf));
    ResponseFirst(skip, p, c);
    FirstByte(skip, p, c, t + Eol(crlf));
    if c == 'H' { RestOfLineExact(skip, Step(skip, p, c).p, t, crlf); }
  }

  // ----- header lines

  /** The end of the name. */
  function ColonAt(s: string): (k: nat)
    ensures k <= |s| && (k < |s| ==> s[k] == ':') && forall i :: 0 <= i < k ==> s[i] != ':'
  {
    if s == "" || s[0] == ':' then 0 else 1 + ColonAt(s[1..])
  }

  function Trimmed(s: string): (t: string)
    ensures |t| <= |s| && t == s[|s| - |t|..] && (t != "" ==> t[0] != ' ')
    ensures forall i :: 0 <= i < |s| - |t| ==> s[i] == ' '
  {
    if s == "" || s[0] != ' ' then s else Trimmed(s[1..])
  }

  /** A name, and if a colon follows, any value; but that of a Content-Length is empty, or a digit, and then digits and
      spaces. */
  predicate HeaderText(s: string)
  {
    var k := ColonAt(s);
    && k > 0 && (forall i :: 0 <= i < k ==> NameChar(s[i]))
    && (k < |s| ==>
         var v := Trimmed(s[k + 1..]);
         NameClass(s[..k]).ContentLength? && v != "" ==> LengthText(v))
  }

  lemma BadName(skip: bool, p: P, c: char)
    requires (p.state.HeaderFieldStart? || p.state.HeaderField?) && p.nread < MAX_HEADER_SIZE
    requires !NameChar(c) && c != CR && c != LF && (c == ':' ==> p.state.HeaderFieldStart?)
    ensures Step(skip, p, c).v.Fail?
  {
    TokenIs(c);
    hide Token, NameChar, FieldFirst, FieldNext, ValueFirst, ValueNext, EndOfHeaders;
  }

  /** A byte that no name may hold, before the colon. */
  lemma BadNameFails(skip: bool, p: P, s: string, i: nat)
    requires p.state.HeaderFieldStart? && p.nread + |s| <= MAX_HEADER_SIZE && InLine(s) && i < |s|
    requires !NameChar(s[i]) && (forall j :: 0 <= j < i ==> NameChar(s[j])) && (s[i] == ':' ==> i == 0)
    ensures Feed(skip, p, s).v.Fail?
  {
    hide Feed, Step, NameChar, NameRun;
    var good := s[..i];
    assert s == good + [s[i]] + s[i + 1..] && NameText(good);
    NameTextIs(good);
    if i == 0 { FeedEmpty(skip, p); } else { NameFeed(skip, p, good); }
    var q := Feed(skip, p, good).p;
    BadName(skip, q, s[i]);
    FeedOne(skip, q, s[i]);
    FeedAppend(skip, p, good, [s[i]]);
    FeedAppend(skip, p, good + [s[i]], s[i + 1..]);
  }

  lemma NameCr(skip: bool, p: P)
    requires p.state.HeaderField? && p.nread < MAX_HEADER_SIZE
    ensures Feed(skip, p, "\r") == Trace(Go, 1, At(p, HeaderAlmostDone, 1), [], [])
  {
    hide Token, FieldNext, FieldFirst, ValueFirst, ValueNext, EndOfHeaders, Feed;
    TokenSeparators();
    FeedOne(skip, p, CR);
  }

  lemma NameLf(skip: bool, p: P)
    requires (p.state.HeaderField? || p.state.HeaderAlmostDone?) && p.nread < MAX_HEADER_SIZE
    ensures var r := Feed(skip, p, "\n"); r.v.Go? && r.p.state.HeaderFieldStart?
  {
    hide Token, FieldNext, FieldFirst, ValueFirst, ValueNext, EndOfHeaders, Feed;
    TokenSeparators();
    FeedOne(skip, p, LF);
  }

  /** A name and nothing else is accepted as a line. */
  lemma NameAlone(skip: bool, p: P, crlf: bool)
    requires p.state.HeaderField? && p.nread + 2 <= MAX_HEADER_SIZE
    ensures var r := Feed(skip, p, Eol(crlf)); r.v.Go? && r.p.state.HeaderFieldStart?
  {
    hide Feed, Step;
    if crlf {
      NameCr(skip, p);
      NameLf(skip, At(p, HeaderAlmostDone, 1));
      FeedAppend(skip, p, "\r", "\n");
      assert "\r" + "\n" == "\r\n";
    } else {
      NameLf(skip, p);
    }
  }

  lemma SpacesBefore(s: string)
    ensures var v := Trimmed(s); s == Spaces(|s| - |v|) + v
  {
  }

  lemma Assemble(s: string, k: nat, pad: string, v: string, e: string)
    requires k < |s| && s[k] == ':' && s[k + 1..] == pad + v
    ensures s[..k] + ":" + pad + v + e == s + e
  {
    assert s == s[..k] + ":" + s[k + 1..];
  }

  lemma TrimmedText(s: string, k: nat)
    requires k < |s| && InLine(s)
    ensures Text(Trimmed(s[k + 1..]))
  {
    var r := s[k + 1..];
    var v := Trimmed(r);
    forall i | 0 <= i < |v| ensures v[i] != CR && v[i] != LF && v[i] < 256 as char {
      assert v[i] == r[|r| - |v| + i] == s[k + 1 + |r| - |v| + i];
    }
  }

  lemma LineIs(s: string, k: nat, crlf: bool) returns (l: Line)
    requires k < |s| && s[k] == ':' && InLine(s)
    ensures l.name == s[..k] && l.value == Trimmed(s[k + 1..]) && l.Raw() == s + Eol(crlf)
    ensures Text(l.value) && (l.value != "" ==> l.value[0] != ' ')
  {
    hide Text, InLine;
    var v := Trimmed(s[k + 1..]);
    TrimmedText(s, k);
    l := Line(s[..k], |s| - k - 1 - |v|, v, crlf);
    SpacesBefore(s[k + 1..]);
    Assemble(s, k, Spaces(l.pad), v, Eol(crlf));
  }

  /** A header line is accepted exactly if it is one of the grammar. */
  lemma HeaderExact(skip: bool, p: P, s: string, crlf: bool)
    requires p.state.HeaderFieldStart? && s != "" && InLine(s) && p.nread + |s| + 2 <= MAX_HEADER_SIZE
    ensures var r := Feed(skip, p, s + Eol(crlf)); r.v.Go? && r.p.state.HeaderFieldStart? <==> HeaderText(s)
  {
    hide Feed, Step, NameChar, NameRun, NameClass, Line.Raw, LengthText, Eol;
    var k := ColonAt(s);
    var i := FirstBadName(s, k);
    FeedAppend(skip, p, s, Eol(crlf));
    if i < |s| && (i < k || k == 0) {
      BadNameFails(skip, p, s, i);
    } else if k == |s| {
      assert NameText(s) && s[..k] == s;
      NameTextIs(s);
      NameFeed(skip, p, s);
      NameAlone(skip, Feed(skip, p, s).p, crlf);
    } else {
      HeaderValue(skip, p, s, k, crlf);
    }
  }

  lemma FirstBadName(s: string, k: nat) returns (i: nat)
    requires k <= |s| && (k < |s| ==> s[k] == ':') && (forall j :: 0 <= j < k ==> s[j] != ':')
    ensures i <= k && (forall j :: 0 <= j < i ==> NameChar(s[j])) && (i < k ==> !NameChar(s[i]))
    ensures k < |s| ==> !NameChar(s[k])
  {
    i := 0;
    while i < k && NameChar(s[i])
      invariant i <= k && forall j :: 0 <= j < i ==> NameChar(s[j])
    {
      i := i + 1;
    }
  }

  lemma ValueAllowed(s: string, l: Line)
    requires 0 < ColonAt(s) < |s| && (forall j :: 0 <= j < ColonAt(s) ==> NameChar(s[j]))
    requires l.name == s[..ColonAt(s)] && l.value == Trimmed(s[ColonAt(s) + 1..])
    requires Text(l.value) && (l.value != "" ==> l.value[0] != ' ')
    ensures HeaderText(s) <==> l.Valid()
    ensures !l.Valid() ==>
      l.(value := "").Valid() && NameClass(l.name).ContentLength? && !LengthText(l.value) && l.value != ""
  {
    hide NameChar, NameClass, LengthText, Text, ColonAt, Trimmed;
    assert NameText(l.name) by { assert forall j :: 0 <= j < |l.name| ==> l.name[j] == s[j]; }
    EmptyText();
  }

  lemma EmptyText()
    ensures Text("")
  {
  }

  lemma HeaderValue(skip: bool, p: P, s: string, k: nat, crlf: bool)
    requires p.state.HeaderFieldStart? && InLine(s) && p.nread + |s| + 2 <= MAX_HEADER_SIZE
    requires 0 < k == ColonAt(s) < |s| && forall j :: 0 <= j < k ==> NameChar(s[j])
    ensures var r := Feed(skip, p, s + Eol(crlf)); r.v.Go? && r.p.state.HeaderFieldStart? <==> HeaderText(s)
  {
    hide Feed, Step, NameChar, NameRun, NameClass, Line.Raw, LengthText, Text, ColonAt, InLine, Line.Valid, HeaderText;
    hide Trimmed, Eol, LineFlags, LineLength;
    var l := LineIs(s, k, crlf);
    ValueAllowed(s, l);
    LongEnough(s, crlf);
    if l.Valid() {
      HeaderLine(skip, p, l);
    } else {
      BadLength(skip, p, l);
    }
  }

  lemma LongEnough(s: string, crlf: bool)
    ensures |s + Eol(crlf)| <= |s| + 2
  {
  }

  // ----- chunks

  /** A digit of a size, as the parser takes it: bytes above 127 count as zero. */
  predicate SizeDigit(ch: char) { IsHex(ch) || ch >= 128 as char }

  predicate SizeRest(s: string)
  {
    s == "" || s[0] == ';' || s[0] == ' ' || (SizeDigit(s[0]) && SizeRest(s[1..]))
  }

  /** A size, and perhaps ';' or a space and anything else. */
  predicate SizeText(s: string) { s != "" && SizeDigit(s[0]) && SizeRest(s[1..]) }

  predicate NoCr(s: string) { forall i :: 0 <= i < |s| ==> s[i] != CR }

  lemma SizeByte(skip: bool, p: P, c: char)
    requires p.flags.chunked && p.nread < MAX_HEADER_SIZE && c != CR
    requires p.state.ChunkSize? || p.state.ChunkParameters?
    ensures var o := Step(skip, p, c);
      && (o.v.Go? <==> p.state.ChunkParameters? || SizeDigit(c) || c == ';' || c == ' ')
      && (o.v.Go? ==> o.p == p.(state := o.p.state, clen := o.p.clen, nread := p.nread + 1))
      && (o.v.Go? ==> o.p.state == if p.state.ChunkSize? && SizeDigit(c) then ChunkSize else ChunkParameters)
  {
  }

  lemma SizeStart(skip: bool, p: P, c: char)
    requires Between(p)
    ensures var o := Step(skip, p, c);
      && (o.v.Go? <==> SizeDigit(c))
      && (o.v.Go? ==> o.p == p.(state := ChunkSize, clen := o.p.clen, nread := 1))
  {
  }

  /** Where a size line leads. */
  predicate SizeDone(st: State) { st.ChunkData? || st.HeaderFieldStart? }

  lemma SizeEnds(skip: bool, p: P)
    requires p.flags.chunked && p.nread + 2 <= MAX_HEADER_SIZE && (p.state.ChunkSize? || p.state.ChunkParameters?)
    ensures var r := Feed(skip, p, CRLF); r.v.Go? && SizeDone(r.p.state)
  {
    hide Feed;
    SizeCr(skip, p);
    SizeLf(skip, Feed(skip, p, "\r").p);
    FeedAppend(skip, p, "\r", "\n");
    assert "\r" + "\n" == CRLF;
  }

  lemma {:induction false} SizeRestExact(skip: bool, p: P, s: string)
    requires p.flags.chunked && (p.state.ChunkSize? || p.state.ChunkParameters?) && NoCr(s)
    requires p.nread + |s| + 2 <= MAX_HEADER_SIZE
    ensures var r := Feed(skip, p, s + CRLF);
      r.v.Go? && SizeDone(r.p.state) <==> p.state.ChunkParameters? || SizeRest(s)
    decreases |s|
  {
    hide Feed, Step, SizeDigit;
    if s == "" {
      SizeEnds(skip, p);
      assert s + CRLF == CRLF;
    } else {
      var c, t := s[0], s[1..];
      assert s + CRLF == [c] + (t + CRLF);
      SizeByte(skip, p, c);
      FirstByte(skip, p, c, t + CRLF);
      NotBoth(c);
      if Step(skip, p, c).v.Go? { SizeRestExact(skip, Step(skip, p, c).p, t); }
    }
  }

  lemma NotBoth(c: char)
    ensures SizeDigit(c) ==> c != ';' && c != ' '
  {
  }

  /** A size line is accepted exactly if it starts with a digit, and only digits come before a ';' or a space. */
  lemma SizeExact(skip: bool, p: P, s: string)
    requires Between(p) && s != "" && NoCr(s) && |s| + 2 <= MAX_HEADER_SIZE
    ensures var r := Feed(skip, p, s + CRLF); r.v.Go? && SizeDone(r.p.state) <==> SizeText(s)
  {
    hide Feed, Step, SizeDigit, SizeRest;
    var c, t := s[0], s[1..];
    assert s + CRLF == [c] + (t + CRLF);
    SizeStart(skip, p, c);
    FirstByte(skip, p, c, t + CRLF);
    if Step(skip, p, c).v.Go? { SizeRestExact(skip, Step(skip, p, c).p, t); }
  }

  lemma DataEndByte(skip: bool, p: P, c: char)
    requires p.flags.chunked && (p.state.ChunkDataAlmostDone? || p.state.ChunkDataDone?)
    ensures var o := Step(skip, p, c);
      && (o.v.Go? <==> c == if p.state.ChunkDataDone? then LF else CR)
      && (o.v.Go? ==> o.p == p.(state := if p.state.ChunkDataDone? then ChunkSizeStart else ChunkDataDone))
  {
    hide Unhex;
  }

  /** The two bytes after the data of a chunk must be CR and LF. */
  lemma DataEndExact(skip: bool, p: P, a: char, b: char)
    requires p.state.ChunkDataAlmostDone? && p.flags.chunked
    ensures Feed(skip, p, [a, b]).v.Go? <==> a == CR && b == LF
  {
    hide Feed, Step;
    assert [a, b] == [a] + [b];
    DataEndByte(skip, p, a);
    FirstByte(skip, p, a, [b]);
    FeedOne(skip, Step(skip, p, a).p, b);
    if Step(skip, p, a).v.Go? { DataEndByte(skip, Step(skip, p, a).p, b); }
  }

  /** After a CR that ends a line only LF is accepted. */
  lemma OnlyLf(skip: bool, p: P, c: char)
    requires p.state in
      {ReqLineAlmostDone, ResLineAlmostDone, HeaderAlmostDone, HeadersAlmostDone, ChunkSizeAlmostDone}
    requires c != LF && (p.state.ChunkSizeAlmostDone? ==> p.flags.chunked)
    ensures Step(skip, p, c).v.Fail?
  {
    hide EndOfHeaders, EndOfLine;
  }
}
