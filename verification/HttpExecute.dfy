/** http_parser_execute as it is written: one loop over a buffer, with marks into the buffer, data
    callbacks for whole runs of bytes, jumps over body bytes, and a record in which only some of the
    loop's variables are stored. It is proved to show its observers what the one-byte machine
    shows them. */
module HttpExecute {
  import opened HttpTypes
  import opened HttpArms
  import opened HttpMachine
  import opened HttpSplit
  import opened HttpPieces

  datatype Callback = Notified(note: Note) | Delivered(kind: Kind, bytes: string)

  /** What a callback shows to the observer of the URL, or to the observer of everything else. */
  function Seen(url: bool, c: Callback): seq<Obs>
  {
    match c
    case Notified(n) => [N(n)]
    case Delivered(k, s) => if (k == Url) == url then Tag(k, s) else []
  }

  function SeenAll(url: bool, log: seq<Callback>): seq<Obs>
  {
    if log == [] then [] else SeenAll(url, log[..|log| - 1]) + Seen(url, log[|log| - 1])
  }

  lemma SeenOneMore(url: bool, log: seq<Callback>, c: Callback)
    ensures SeenAll(url, log + [c]) == SeenAll(url, log) + Seen(url, c)
  {
    assert (log + [c])[..|log + [c]| - 1] == log;
  }

  // ----- the discipline of marks

  type Marks = map<Kind, nat>

  /** What a macro does to the set of open data, if it is used soundly: nothing is marked twice,
      only the URL overlaps other data, and nothing is notified in the middle of a datum. */
  function After1(sp: Spans, act: Act): Option<Spans>
  {
    match act
    case Mark(k) =>
      if k == Body || (if k == Url then sp.url else sp.other.Some?) then None
      else Some(if k == Url then sp.(url := true) else sp.(other := Some(k)))
    case Call(k) =>
      Some(if k == Url then sp.(url := false) else if sp.other == Some(k) then sp.(other := None) else sp)
    case Notify(_) => if sp == NoSpans then Some(sp) else None
  }

  function After(sp: Spans, acts: Acts): Option<Spans>
    decreases acts
  {
    match acts
    case Done => Some(sp)
    case Do(act, rest) =>
      var sp1 := After1(sp, act);
      if sp1.None? then None else After(sp1.value, rest)
  }

  predicate IsOpen(sp: Spans, k: Kind) { if k == Url then sp.url else sp.other == Some(k) }

  /** No datum is marked that is open before. */
  predicate FreshMarks(sp: Spans, acts: Acts)
  {
    match acts
    case Done => true
    case Do(Mark(k), rest) => !IsOpen(sp, k) && FreshMarks(sp, rest)
    case Do(_, rest) => FreshMarks(sp, rest)
  }

  predicate NoCalls(acts: Acts)
  {
    match acts
    case Done => true
    case Do(act, rest) => !act.Call? && NoCalls(rest)
  }

  lemma NotesStep(seen: seq<Obs>, acts: Acts)
    requires acts.Do?
    ensures seen + Notes(acts) == seen + (if acts.act.Notify? then [N(acts.act.n)] else []) + Notes(acts.rest)
  {
  }

  ghost predicate Disciplined(st: State, o: Out)
  {
    var sp := After(SpansOf(st), o.acts);
    && sp.Some? && (o.v.Go? ==> sp.value == SpansOf(o.p.state)) && (o.v.Exit? ==> sp.value == NoSpans)
    && FreshMarks(SpansOf(st), o.acts) && (o.v.Fail? ==> NoCalls(o.acts))
  }

  lemma DisciplineStart(p: P, ch: char)
    requires p.state in {StartReqOrRes, ResOrRespH, StartRes, StartReq}
    ensures Disciplined(p.state, ArmStart(p, ch))
  {
  }

  lemma DisciplineAuthority(p: P, ch: char)
    requires p.state in {ReqSpacesBeforeUrl, ReqSchema, ReqSchemaSlash, ReqSchemaSlashSlash, ReqHost, ReqPort}
    ensures Disciplined(p.state, ArmUrl(p, ch))
  {
    hide IsAlpha, NormalUrlChar, IsDigit, EndOfUrl;
  }

  lemma DisciplinePath(p: P, ch: char)
    requires p.state in {ReqPath, ReqQuery, ReqFragment}
    ensures Disciplined(p.state, ArmUrl(p, ch))
  {
    hide IsAlpha, NormalUrlChar, IsDigit, Http09;
  }

  lemma DisciplineQuery(p: P, ch: char)
    requires p.state in {ReqQueryStart, ReqFragmentStart}
    ensures Disciplined(p.state, ArmUrl(p, ch))
  {
    hide IsAlpha, NormalUrlChar, IsDigit, Http09;
  }

  lemma DisciplineUrl(p: P, ch: char)
    requires UrlState(p.state)
    ensures Disciplined(p.state, ArmUrl(p, ch))
  {
    hide ArmUrl, Disciplined;
    if p.state in {ReqPath, ReqQuery, ReqFragment} { DisciplinePath(p, ch);
    } else if p.state in {ReqQueryStart, ReqFragmentStart} { DisciplineQuery(p, ch);
    } else { DisciplineAuthority(p, ch); }
  }

  lemma DisciplineLines(p: P, ch: char)
    requires p.state.ReqMethod? || ReqVersionState(p.state)
    ensures Disciplined(p.state, if p.state.ReqMethod? then ArmMethod(p, ch) else ArmReqVersion(p, ch))
  {
    hide IsDigit, Digit, MethodString;
  }

  lemma DisciplineRes(p: P, ch: char)
    requires ResState(p.state)
    ensures Disciplined(p.state, ArmRes(p, ch))
  {
    hide IsDigit, Digit;
  }

  lemma NewMessageOpensNothing(p: P)
    ensures SpansOf(NewMessage(p)) == NoSpans
  {
  }

  lemma DisciplineValueFirst(p: P, ch: char)
    ensures Disciplined(HeaderValueStart, ValueFirst(p.(state := HeaderValue, index := 0), ch))
  {
    hide IsDigit, Lower;
  }

  lemma DisciplineEnd(skip: bool, st: State, p: P)
    requires SpansOf(st) == NoSpans
    ensures Disciplined(st, EndOfHeaders(skip, p))
  {
    hide NewMessage;
    forall q { NewMessageOpensNothing(q); }
  }

  lemma DisciplineHeader(skip: bool, p: P, ch: char)
    requires HeaderState(p.state)
    ensures Disciplined(p.state, ArmHeader(skip, p, ch))
  {
    hide Token, FieldNext, FieldFirst, ValueFirst, EndOfHeaders;
    match p.state {
      case HeaderFieldStart => DisciplineEnd(skip, p.state, p.(state := HeadersAlmostDone));
      case HeaderField =>
      case HeaderValueStart => DisciplineValueFirst(p, ch);
      case HeaderValue => hide Lower, Advance, IsDigit;
      case HeaderAlmostDone =>
      case HeadersAlmostDone => DisciplineEnd(skip, p.state, p);
    }
  }

  lemma DisciplineChunk(p: P, ch: char)
    requires ChunkState(p.state)
    ensures Disciplined(p.state, ArmChunk(p, ch))
  {
    hide Unhex;
  }

  lemma Discipline(skip: bool, p: P, ch: char)
    requires !Bulk(p.state)
    ensures Disciplined(p.state, Arm(skip, p, ch))
  {
    hide ArmStart, ArmMethod, ArmUrl, ArmReqVersion, ArmRes, ArmHeader, ArmChunk;
    if p.state.Dead? {
    } else if p.state in {StartReqOrRes, ResOrRespH, StartRes, StartReq} { DisciplineStart(p, ch);
    } else if p.state.ReqMethod? || ReqVersionState(p.state) { DisciplineLines(p, ch);
    } else if UrlState(p.state) { DisciplineUrl(p, ch);
    } else if ResState(p.state) { DisciplineRes(p, ch);
    } else if HeaderState(p.state) { DisciplineHeader(skip, p, ch);
    } else { DisciplineChunk(p, ch); }
  }

  /** The mark pointers that are not null are those of the open data, and point into the buffer. */
  ghost predicate MarksFor(sp: Spans, marks: Marks, i: nat)
  {
    && (forall k <- marks.Keys :: marks[k] <= i)
    && sp.other != Some(Url) && sp.other != Some(Body)
    && (forall k: Kind :: k in marks <==> IsOpen(sp, k))
  }

  /** The bytes between the marks and position i: read, but not yet delivered. */
  ghost function Pending(url: bool, marks: Marks, sp: Spans, data: string, i: nat): seq<Obs>
    requires MarksFor(sp, marks, i) && i <= |data|
  {
    if url then if sp.url then Tag(Url, data[marks[Url]..i]) else []
    else if sp.other.Some? then Tag(sp.other.value, data[marks[sp.other.value]..i])
    else []
  }

  /** What an observer has seen, and will have seen once the open data are delivered up to i. */
  ghost function Watched(url: bool, log: seq<Callback>, marks: Marks, sp: Spans, data: string, i: nat): seq<Obs>
    requires MarksFor(sp, marks, i) && i <= |data|
  {
    SeenAll(url, log) + Pending(url, marks, sp, data, i)
  }

  lemma MarkKeeps(url: bool, k: Kind, marks: Marks, sp: Spans, log: seq<Callback>, data: string, i: nat)
    requires i <= |data| && MarksFor(sp, marks, i) && After1(sp, Mark(k)).Some?
    ensures var sp1 := After1(sp, Mark(k)).value;
      MarksFor(sp1, marks[k := i], i)
      && Watched(url, log, marks[k := i], sp1, data, i) == Watched(url, log, marks, sp, data, i)
  {
    assert data[i..i] == "";
  }

  /** The callbacks made by CALLBACK(k) at position i. */
  function CallbacksOf(k: Kind, marks: Marks, data: string, i: nat): seq<Callback>
    requires i <= |data| && (forall j <- marks.Keys :: marks[j] <= i)
  {
    if k in marks then [Delivered(k, data[marks[k]..i])] else []
  }

  lemma MarksInside(marks: Marks, sp: Spans, i: nat)
    requires MarksFor(sp, marks, i)
    ensures forall k <- marks.Keys :: marks[k] <= i
  {
  }

  lemma CallKeeps(url: bool, k: Kind, marks: Marks, sp: Spans, log: seq<Callback>, data: string, i: nat)
    requires i <= |data| && MarksFor(sp, marks, i)
    ensures var sp1 := After1(sp, Call(k)).value;
      MarksFor(sp1, marks - {k}, i)
      && Watched(url, log + CallbacksOf(k, marks, data, i), marks - {k}, sp1, data, i)
         == Watched(url, log, marks, sp, data, i)
  {
    hide SeenAll, Tag;
    if k in marks {
      SeenOneMore(url, log, Delivered(k, data[marks[k]..i]));
    } else {
      assert log + [] == log;
    }
  }

  lemma NotifyShows(url: bool, n: Note, marks: Marks, log: seq<Callback>, data: string, i: nat)
    requires i <= |data| && MarksFor(NoSpans, marks, i)
    ensures Watched(url, log + [Notified(n)], marks, NoSpans, data, i) ==
      Watched(url, log, marks, NoSpans, data, i) + [N(n)]
  {
    hide SeenAll;
    SeenOneMore(url, log, Notified(n));
  }

  lemma PendingGrows(url: bool, marks: Marks, sp: Spans, data: string, i: nat)
    requires MarksFor(sp, marks, i) && i < |data|
    ensures MarksFor(sp, marks, i + 1)
    ensures Pending(url, marks, sp, data, i + 1) == Pending(url, marks, sp, data, i) +
      (if url then if sp.url then [D(Url, data[i])] else []
       else if sp.other.Some? then [D(sp.other.value, data[i])] else [])
  {
    if url && sp.url {
      assert data[marks[Url]..i + 1] == data[marks[Url]..i] + [data[i]];
    }
    if !url && sp.other.Some? {
      var m := marks[sp.other.value];
      assert data[m..i + 1] == data[m..i] + [data[i]];
    }
  }

  /** The mark pointers after some macros at position i. */
  function MarksAfter1(act: Act, marks: Marks, i: nat): Marks
  {
    match act
    case Mark(k) => marks[k := i]
    case Call(k) => marks - {k}
    case Notify(_) => marks
  }

  function MarksAfter(acts: Acts, marks: Marks, i: nat): Marks
    decreases acts
  {
    match acts
    case Done => marks
    case Do(act, rest) => MarksAfter(rest, MarksAfter1(act, marks, i), i)
  }

  /** The marks of data that were open before stay where they are; others are new. */
  ghost predicate Moved(sp: Spans, marks0: Marks, marks: Marks, i: nat)
  {
    forall k <- marks.Keys :: if IsOpen(sp, k) then k in marks0 && marks[k] == marks0[k] else marks[k] == i
  }

  lemma {:induction false} MarksMoved(sp: Spans, acts: Acts, marks0: Marks, marks: Marks, i: nat)
    requires FreshMarks(sp, acts) && Moved(sp, marks0, marks, i)
    ensures Moved(sp, marks0, MarksAfter(acts, marks, i), i)
    ensures NoCalls(acts) ==> marks.Keys <= MarksAfter(acts, marks, i).Keys
    decreases acts
  {
    if acts.Do? { MarksMoved(sp, acts.rest, marks0, MarksAfter1(acts.act, marks, i), i); }
  }

  lemma MarksStart(sp: Spans, marks: Marks, i: nat)
    requires MarksFor(sp, marks, i)
    ensures Moved(sp, marks, marks, i)
  {
  }

  /** An arm that fails makes no data callback, so that what was pending still is. */
  lemma PendingStays(url: bool, sp0: Spans, acts: Acts, marks0: Marks, sp: Spans, marks: Marks, data: string, i: nat)
    requires i <= |data| && MarksFor(sp0, marks0, i) && MarksFor(sp, marks, i)
    requires Moved(sp0, marks0, marks, i) && marks0.Keys <= marks.Keys
    ensures Pending(url, marks, sp, data, i) == Pending(url, marks0, sp0, data, i)
  {
    assert data[i..i] == "";
    assert sp0.url ==> Url in marks0;
    if sp0.other.Some? {
      assert IsOpen(sp0, sp0.other.value);
      assert sp0.other.value in marks;
      assert IsOpen(sp, sp0.other.value);
    } else if sp.other.Some? {
      assert IsOpen(sp, sp.other.value) && !IsOpen(sp0, sp.other.value);
    }
  }

  // ----- runs of body bytes

  /** The record after n bytes of a body, and the notes that follow its last byte. */
  function Consumed(p: P, n: nat, next: State): P
    requires n <= p.clen
  {
    p.(clen := p.clen - n, state := if n == p.clen then next else p.state)
  }

  lemma NewMessageIgnores(p: P, st: State, n: nat)
    ensures NewMessage(p.(state := st, clen := n)) == NewMessage(p)
  {
  }

  lemma BodyStep(skip: bool, p: P, ch: char)
    requires p.state.BodyIdentity? && p.clen > 0
    ensures var last := if p.clen == 1 then [N(MessageComplete)] else [];
      Step(skip, p, ch) == Outcome(Go, Consumed(p, 1, NewMessage(p)), last, [D(Body, ch)] + last)
  {
    hide Arm, Notes, SpansOf, NewMessage;
  }

  lemma ConsumedTwice(p: P, n: nat, m: nat, next: State)
    requires n < n + m <= p.clen && m > 0
    ensures Consumed(Consumed(p, n, next), m, next) == Consumed(p, n + m, next)
  {
  }

  lemma TagLast(k: Kind, s: string, ch: char)
    ensures Tag(k, s + [ch]) == Tag(k, s) + [D(k, ch)]
  {
  }

  lemma {:induction false} BodyRun(skip: bool, p: P, s: string)
    requires p.state.BodyIdentity? && 0 < |s| <= p.clen
    ensures var last := if |s| == p.clen then [N(MessageComplete)] else [];
      Feed(skip, p, s) == Trace(Go, |s|, Consumed(p, |s|, NewMessage(p)), last, Tag(Body, s) + last)
  {
    hide Step, Feed, NewMessage, Tag;
    var n := |s| - 1;
    var a, ch := s[..n], s[n];
    var last := if |s| == p.clen then [N(MessageComplete)] else [];
    assert s == a + [ch];
    TagLast(Body, a, ch);
    FeedLast(skip, p, a, ch);
    if n > 0 {
      BodyRun(skip, p, a);
      NewMessageIgnores(p, p.state, p.clen - n);
      ConsumedTwice(p, n, 1, NewMessage(p));
      BodyStep(skip, Consumed(p, n, NewMessage(p)), ch);
      assert Tag(Body, a) + [] + ([D(Body, ch)] + last) == Tag(Body, s) + last;
    } else {
      FeedEmpty(skip, p);
      BodyStep(skip, p, ch);
      TagNothing(Body);
    }
  }

  lemma TagNothing(k: Kind)
    ensures Tag(k, "") == []
  {
  }

  lemma {:induction false} ChunkRun(skip: bool, p: P, s: string)
    requires p.state.ChunkData? && p.flags.chunked && 0 < |s| <= p.clen < TWO_63
    ensures Feed(skip, p, s) == Trace(Go, |s|, Consumed(p, |s|, ChunkDataAlmostDone), [], Tag(Body, s))
  {
    hide Arm, Notes, SpansOf, NewMessage;
    var n := |s| - 1;
    assert s == s[..n] + [s[n]];
    TagAppend(Body, s[..n], [s[n]]);
    if n > 0 {
      ChunkRun(skip, p, s[..n]);
    } else {
      assert s[..0] == "";
      assert Feed(skip, p, s[..0]) == Trace(Go, 0, p, [], []);
      assert Tag(Body, s[..0]) == [];
    }
  }

  lemma {:induction false} EofRun(skip: bool, p: P, s: string)
    requires p.state.BodyIdentityEof?
    ensures Feed(skip, p, s) == Trace(Go, |s|, p, [], Tag(Body, s))
  {
    hide Arm, Notes, SpansOf, NewMessage;
    if s != [] {
      var n := |s| - 1;
      assert s == s[..n] + [s[n]];
      TagAppend(Body, s[..n], [s[n]]);
      EofRun(skip, p, s[..n]);
    }
  }

  lemma FeedMore(skip: bool, p: P, data: string, i: nat, j: nat)
    requires i <= j <= |data|
    ensures Feed(skip, p, data[..j]) ==
      Then(Feed(skip, p, data[..i]), Feed(skip, Feed(skip, p, data[..i]).p, data[i..j]))
  {
    hide Feed;
    FeedAppend(skip, p, data[..i], data[i..j]);
    assert data[..i] + data[i..j] == data[..j];
  }

  /** Where a call starts: its settings and record, its buffer, and what was seen before it. */
  datatype Entry = Entry(skip: bool, p: P, data: string, log: seq<Callback>)

  /** The marks are as far back as the open data reach. */
  ghost predicate OpenAt(c: Entry, i: nat, st: State, marks: Marks)
    requires i <= |c.data| && MarksFor(SpansOf(st), marks, i)
  {
    && (SpansOf(st).url ==> marks[Url] == i - OpenLen(true, c.skip, c.p, c.data[..i]))
    && (SpansOf(st).other.Some? ==> marks[SpansOf(st).other.value] == i - OpenLen(false, c.skip, c.p, c.data[..i]))
  }

  /** The loop stands at byte i of the buffer: the record made of the parser's fields and of the
      loop's locals is that of the one-byte machine, and each observer will have seen what the
      machine shows once the bytes after the marks are delivered. */
  ghost predicate At(c: Entry, i: nat, p: P, marks: Marks, log: seq<Callback>)
  {
    && i <= |c.data|
    && var r := Feed(c.skip, c.p, c.data[..i]);
    && r.v.Go? && r.p == p
    && MarksFor(SpansOf(p.state), marks, i) && OpenAt(c, i, p.state, marks)
    && Watched(true, log, marks, SpansOf(p.state), c.data, i) == SeenAll(true, c.log) + r.url
    && Watched(false, log, marks, SpansOf(p.state), c.data, i) == SeenAll(false, c.log) + r.other
  }

  /** The marks re-established at the start of a buffer. */
  method Reopen(st: State) returns (marks: Marks)
    ensures MarksFor(SpansOf(st), marks, 0)
  {
    marks := map[];
    if st.HeaderField? { marks := marks[Field := 0]; }
    if st.HeaderValue? { marks := marks[Value := 0]; }
    if st.ReqFragment? { marks := marks[Fragment := 0]; }
    if st.ReqQuery? { marks := marks[Query := 0]; }
    if st.ReqPath? { marks := marks[Path := 0]; }
    if st.ReqPath? || st.ReqSchema? || st.ReqSchemaSlash? || st.ReqSchemaSlashSlash? || st.ReqPort?
       || st.ReqQueryStart? || st.ReqQuery? || st.ReqHost? || st.ReqFragmentStart? || st.ReqFragment? {
      marks := marks[Url := 0];
    }
  }

  lemma AtMarks(c: Entry, i: nat, p: P, marks: Marks, log: seq<Callback>)
    requires At(c, i, p, marks, log)
    ensures i <= |c.data| && MarksFor(SpansOf(p.state), marks, i)
  {
  }

  lemma AtEntry(c: Entry, marks: Marks)
    requires MarksFor(SpansOf(c.p.state), marks, 0)
    ensures At(c, 0, c.p, marks, c.log)
  {
    assert c.data[0..0] == "";
  }

  /** From one position of the loop to the next, over bytes whose run is known. */
  lemma AtNext(c: Entry, i: nat, p: P, marks: Marks, log: seq<Callback>, s: Trace, j: nat, marks': Marks,
               log': seq<Callback>)
    requires At(c, i, p, marks, log) && i <= j <= |c.data|
    requires Feed(c.skip, p, c.data[i..j]) == s && s.v.Go?
    requires MarksFor(SpansOf(s.p.state), marks', j) && OpenAt(c, j, s.p.state, marks')
    requires Watched(true, log', marks', SpansOf(s.p.state), c.data, j)
      == Watched(true, log, marks, SpansOf(p.state), c.data, i) + s.url
    requires Watched(false, log', marks', SpansOf(s.p.state), c.data, j)
      == Watched(false, log, marks, SpansOf(p.state), c.data, i) + s.other
    ensures At(c, j, s.p, marks', log')
  {
    hide Feed, Watched, MarksFor, SpansOf, OpenAt;
    FeedMore(c.skip, c.p, c.data, i, j);
  }

  /** One byte further. */
  lemma OpenNext(c: Entry, i: nat, p: P, marks0: Marks, log: seq<Callback>, q: P, marks: Marks)
    requires i < |c.data| && At(c, i, p, marks0, log)
    requires Feed(c.skip, p, [c.data[i]]).v.Go? && Feed(c.skip, p, [c.data[i]]).p == q
    requires MarksFor(SpansOf(q.state), marks, i + 1) && Moved(SpansOf(p.state), marks0, marks, i)
    ensures OpenAt(c, i + 1, q.state, marks)
  {
    hide Step, SpansOf, Watched;
    FeedOne(c.skip, p, c.data[i]);
    var d := c.data[..i + 1];
    assert d[..i] == c.data[..i] && d[i] == c.data[i];
    if SpansOf(q.state).url { assert IsOpen(SpansOf(q.state), Url); }
    if SpansOf(q.state).other.Some? { assert IsOpen(SpansOf(q.state), SpansOf(q.state).other.value); }
  }

  /** What is pending is what the machine says is kept back. */
  lemma PendingIs(url: bool, c: Entry, i: nat, p: P, marks: Marks, log: seq<Callback>)
    requires At(c, i, p, marks, log)
    ensures Pending(url, marks, SpansOf(p.state), c.data, i) == KeptBack(url, c.skip, c.p, c.data[..i])
  {
    hide Feed, SeenAll, SpansOf, Tag;
    var n := OpenLen(url, c.skip, c.p, c.data[..i]);
    assert c.data[..i][i - n..] == c.data[i - n..i];
  }

  /** The same over a run of body bytes, during which no datum is open. */
  lemma AtNextBulk(c: Entry, i: nat, p: P, marks: Marks, log: seq<Callback>, j: nat, log': seq<Callback>)
    requires At(c, i, p, marks, log) && i <= j <= |c.data| && SpansOf(p.state) == NoSpans
    requires var s := Feed(c.skip, p, c.data[i..j]);
      && s.v.Go? && SpansOf(s.p.state) == NoSpans
      && SeenAll(true, log') == SeenAll(true, log) + s.url
      && SeenAll(false, log') == SeenAll(false, log) + s.other
    ensures At(c, j, Feed(c.skip, p, c.data[i..j]).p, marks, log')
  {
    hide Feed, SeenAll, SpansOf;
    AtNext(c, i, p, marks, log, Feed(c.skip, p, c.data[i..j]), j, marks, log');
  }

  /** The whole buffer was read, and the record p stored. */
  ghost predicate Finished(c: Entry, p: P, log: seq<Callback>)
  {
    var r := Feed(c.skip, c.p, c.data);
    && r.v.Go? && p == Stored(c.p, r)
    && SeenAll(true, log) == SeenAll(true, c.log) + r.url
    && SeenAll(false, log) == SeenAll(false, c.log) + r.other
  }

  /** The loop was left at byte i before the end of the buffer, with the record p. */
  ghost predicate Left(c: Entry, i: nat, v: Verdict, p: P, log: seq<Callback>)
  {
    var r := Feed(c.skip, c.p, c.data);
    && !v.Go? && r.v == v && r.used == i
    && p == r.p.(state := c.p.state, hs := c.p.hs, index := c.p.index, nread := c.p.nread)
    && SeenAll(true, log) <= SeenAll(true, c.log) + r.url
    && SeenAll(false, log) <= SeenAll(false, c.log) + r.other
    && (v.Exit? ==>
         SeenAll(true, log) == SeenAll(true, c.log) + r.url && SeenAll(false, log) == SeenAll(false, c.log) + r.other)
    && (v.Fail? && i <= |c.data| ==>
         && SeenAll(true, log) + KeptBack(true, c.skip, c.p, c.data[..i]) == SeenAll(true, c.log) + r.url
         && SeenAll(false, log) + KeptBack(false, c.skip, c.p, c.data[..i]) == SeenAll(false, c.log) + r.other)
  }

  /** The loop is left at byte i, whose run is s. */
  lemma Leave(c: Entry, i: nat, p: P, marks: Marks, log: seq<Callback>, s: Trace)
    requires At(c, i, p, marks, log) && i < |c.data|
    requires Feed(c.skip, p, [c.data[i]]) == s && !s.v.Go?
    ensures var r := Feed(c.skip, c.p, c.data);
      && r.v == s.v && r.used == i && r.p == s.p
      && SeenAll(true, c.log) + r.url == Watched(true, log, marks, SpansOf(p.state), c.data, i) + s.url
      && SeenAll(false, c.log) + r.other == Watched(false, log, marks, SpansOf(p.state), c.data, i) + s.other
  {
    hide Feed, Watched, MarksFor, SpansOf;
    assert c.data[i..i + 1] == [c.data[i]];
    FeedMore(c.skip, c.p, c.data, i, i + 1);
    FeedMore(c.skip, c.p, c.data, i + 1, |c.data|);
    assert c.data[..|c.data|] == c.data;
  }

  lemma AtEnd(c: Entry, p: P, marks: Marks, log: seq<Callback>)
    requires At(c, |c.data|, p, marks, log)
    ensures MarksFor(SpansOf(p.state), marks, |c.data|)
    ensures var r := Feed(c.skip, c.p, c.data);
      && r.v.Go? && r.p == p
      && Watched(true, log, marks, SpansOf(p.state), c.data, |c.data|) == SeenAll(true, c.log) + r.url
      && Watched(false, log, marks, SpansOf(p.state), c.data, |c.data|) == SeenAll(false, c.log) + r.other
  {
    hide Feed, Watched, MarksFor;
    assert c.data[..|c.data|] == c.data;
  }

  /** What a one-byte step shows, in terms of its arm. */
  lemma StepByte(skip: bool, p: P, ch: char)
    requires !Bulk(p.state) && !OverLimit(p)
    ensures var o, s := Arm(skip, Counted(p), ch), Feed(skip, p, [ch]);
      && s.v == o.v && s.p == o.p
      && (o.v.Go? ==> s.url == Notes(o.acts) + (if SpansOf(o.p.state).url then [D(Url, ch)] else []))
      && (o.v.Go? ==> s.other == Notes(o.acts) +
                         (if SpansOf(o.p.state).other.Some? then [D(SpansOf(o.p.state).other.value, ch)] else []))
      && (!o.v.Go? ==> s.url == Notes(o.acts) && s.other == Notes(o.acts))
  {
    hide Arm, SpansOf, Notes, Feed;
    FeedOne(skip, p, ch);
  }

  /** A byte that is not reached because the header is too long. */
  lemma OverLimitFeed(skip: bool, p: P, ch: char)
    requires OverLimit(p)
    ensures Feed(skip, p, [ch]) == Trace(Fail, 0, p, [], [])
  {
    OverLimitStops(skip, p, ch);
    FeedOne(skip, p, ch);
  }

  lemma WatchedGrows(url: bool, log: seq<Callback>, marks: Marks, sp: Spans, data: string, i: nat, seen: seq<Obs>,
                     notes: seq<Obs>)
    requires MarksFor(sp, marks, i) && i < |data|
    requires Watched(url, log, marks, sp, data, i) == seen + notes
    ensures MarksFor(sp, marks, i + 1)
    ensures Watched(url, log, marks, sp, data, i + 1) == seen + (notes +
      (if url then if sp.url then [D(Url, data[i])] else []
       else if sp.other.Some? then [D(sp.other.value, data[i])] else []))
  {
    hide Pending, SeenAll;
    PendingGrows(url, marks, sp, data, i);
    var more: seq<Obs> := if url then if sp.url then [D(Url, data[i])] else []
      else if sp.other.Some? then [D(sp.other.value, data[i])] else [];
    assert seen + notes + more == seen + (notes + more);
  }

  lemma WatchedSeen(url: bool, log: seq<Callback>, marks: Marks, sp: Spans, data: string, i: nat)
    requires MarksFor(sp, marks, i) && i <= |data|
    ensures SeenAll(url, log) <= Watched(url, log, marks, sp, data, i)
    ensures sp == NoSpans ==> Watched(url, log, marks, sp, data, i) == SeenAll(url, log)
    ensures Watched(url, log, marks, sp, data, i) == SeenAll(url, log) + Pending(url, marks, sp, data, i)
  {
  }

  // ----- the parser

  class HttpParser {
    var typ: Type
    var flags: Flags
    var state: State
    var hs: HState
    var index: nat
    var nread: nat
    var clen: nat
    var major: nat
    var minor: nat
    var status: nat
    var meth: Method
    var upgrade: bool

    /** The callbacks made so far. */
    var log: seq<Callback>

    /** Whether on_headers_complete returns 1. The other callbacks return 0. */
    const skip: bool

    function View(): P
      reads this
    {
      P(typ, flags, state, hs, index, nread, clen, major, minor, status, meth, upgrade)
    }

    constructor Init(t: Type, skip: bool)
      ensures View() == HttpTypes.Init(t) && log == [] && this.skip == skip
    {
      typ, flags, hs, index, nread, clen := t, NoFlags, General, 0, 0, 0;
      state := match t case Request => StartReq case Response => StartRes case Both => StartReqOrRes;
      major, minor, status, meth, upgrade := 0, 0, 0, DELETE, false;
      log := [];
      this.skip := skip;
    }

    /** The fields that an arm writes directly, all but the four that the loop keeps in locals. */
    method Write(p: P)
      modifies this
      ensures View() == p.(state := old(state), hs := old(hs), index := old(index), nread := old(nread))
      ensures log == old(log)
    {
      typ, flags, clen, major, minor, status, meth, upgrade :=
        p.typ, p.flags, p.clen, p.major, p.minor, p.status, p.meth, p.upgrade;
    }

    method Emit(c: Callback)
      modifies this`log
      ensures log == old(log) + [c]
      ensures SeenAll(true, log) == old(SeenAll(true, log)) + Seen(true, c)
      ensures SeenAll(false, log) == old(SeenAll(false, log)) + Seen(false, c)
    {
      log := log + [c];
      SeenOneMore(true, old(log), c);
      SeenOneMore(false, old(log), c);
    }

    /** One macro, executed at position i. */
    method PerformOne(act: Act, marks0: Marks, data: string, i: nat, ghost sp: Spans)
      returns (marks: Marks)
      requires i <= |data| && MarksFor(sp, marks0, i) && After1(sp, act).Some?
      modifies this`log
      ensures MarksFor(After1(sp, act).value, marks, i) && marks == MarksAfter1(act, marks0, i)
      ensures Watched(true, log, marks, After1(sp, act).value, data, i)
        == Watched(true, old(log), marks0, sp, data, i) + (if act.Notify? then [N(act.n)] else [])
      ensures Watched(false, log, marks, After1(sp, act).value, data, i)
        == Watched(false, old(log), marks0, sp, data, i) + (if act.Notify? then [N(act.n)] else [])
    {
      hide Pending, MarksFor, Watched;
      marks := marks0;
      match act {
        case Mark(k) =>
          MarkKeeps(true, k, marks, sp, log, data, i);
          MarkKeeps(false, k, marks, sp, log, data, i);
          marks := marks[k := i];
        case Call(k) =>
          CallKeeps(true, k, marks, sp, log, data, i);
          CallKeeps(false, k, marks, sp, log, data, i);
          MarksInside(marks, sp, i);
          if k in marks { Emit(Delivered(k, data[marks[k]..i])); }
          assert log == old(log) + CallbacksOf(k, marks, data, i);
          marks := marks - {k};
        case Notify(n) =>
          NotifyShows(true, n, marks, log, data, i);
          NotifyShows(false, n, marks, log, data, i);
          Emit(Notified(n));
      }
    }

    /** The macros of one arm, executed at position i. */
    method Perform(acts: Acts, marks0: Marks, data: string, i: nat, ghost sp0: Spans)
      returns (marks: Marks)
      requires i <= |data| && MarksFor(sp0, marks0, i) && After(sp0, acts).Some?
      modifies this`log
      ensures MarksFor(After(sp0, acts).value, marks, i) && marks == MarksAfter(acts, marks0, i)
      ensures Watched(true, log, marks, After(sp0, acts).value, data, i)
        == Watched(true, old(log), marks0, sp0, data, i) + Notes(acts)
      ensures Watched(false, log, marks, After(sp0, acts).value, data, i)
        == Watched(false, old(log), marks0, sp0, data, i) + Notes(acts)
    {
      hide Pending, MarksFor, After1, Watched;
      marks := marks0;
      var todo := acts;
      ghost var sp := sp0;
      while todo.Do?
        invariant MarksFor(sp, marks, i) && After(sp, todo) == After(sp0, acts)
        invariant MarksAfter(todo, marks, i) == MarksAfter(acts, marks0, i)
        invariant Watched(true, log, marks, sp, data, i) + Notes(todo) ==
          Watched(true, old(log), marks0, sp0, data, i) + Notes(acts)
        invariant Watched(false, log, marks, sp, data, i) + Notes(todo) ==
          Watched(false, old(log), marks0, sp0, data, i) + Notes(acts)
        decreases todo
      {
        ghost var seen, seen' := Watched(true, log, marks, sp, data, i), Watched(false, log, marks, sp, data, i);
        marks := PerformOne(todo.act, marks, data, i, sp);
        NotesStep(seen, todo);
        NotesStep(seen', todo);
        sp := After1(sp, todo.act).value;
        todo := todo.rest;
      }
    }

    /** CALLBACK_NOCLEAR at the end of the buffer. */
    method Flush(k: Kind, marks: Marks, data: string)
      requires k in marks ==> marks[k] <= |data|
      modifies this`log
      ensures SeenAll(true, log) == old(SeenAll(true, log)) +
        (if k in marks then Seen(true, Delivered(k, data[marks[k]..|data|])) else [])
      ensures SeenAll(false, log) == old(SeenAll(false, log)) +
        (if k in marks then Seen(false, Delivered(k, data[marks[k]..|data|])) else [])
    {
      if k in marks { Emit(Delivered(k, data[marks[k]..|data|])); }
    }

    /** The callbacks for all open data at the end of the buffer. */
    method FlushAll(marks: Marks, data: string, ghost sp: Spans)
      requires MarksFor(sp, marks, |data|)
      modifies this`log
      ensures SeenAll(true, log) == Watched(true, old(log), marks, sp, data, |data|)
      ensures SeenAll(false, log) == Watched(false, old(log), marks, sp, data, |data|)
    {
      hide SeenAll, Tag;
      if sp.other.Some? { assert IsOpen(sp, sp.other.value); }
      Flush(Field, marks, data);
      Flush(Value, marks, data);
      Flush(Fragment, marks, data);
      Flush(Query, marks, data);
      Flush(Path, marks, data);
      Flush(Url, marks, data);
    }

    /** s_body_identity: the rest of the body, or of the buffer, in one callback. */
    method TakeIdentity(data: string, i: nat, st: State, ghost p: P) returns (j: nat, st1: State)
      requires i < |data| && st.BodyIdentity?
      requires p == View().(state := st, hs := p.hs, index := p.index, nread := p.nread)
      modifies this`log, this`clen
      ensures SpansOf(st) == NoSpans && i < j <= |data|
      ensures var s := Feed(skip, p, data[i..j]);
        && s.v.Go? && s.p == p.(state := st1, clen := clen) && SpansOf(st1) == NoSpans
        && SeenAll(true, log) == SeenAll(true, old(log)) + s.url
        && SeenAll(false, log) == SeenAll(false, old(log)) + s.other
    {
      hide Feed, SeenAll, Tag, Arm;
      j, st1 := i, st;
      var toRead := if |data| - i < clen then |data| - i else clen;
      if toRead > 0 {
        Emit(Delivered(Body, data[i..i + toRead]));
        j := j + (toRead - 1);
        clen := clen - toRead;
        if clen == 0 {
          Emit(Notified(MessageComplete));
          st1 := NewMessage(View());
        }
        BodyRun(skip, p, data[i..i + toRead]);
        NewMessageOpensNothing(p);
      } else {
        FeedOne(skip, p, data[i]);
        assert data[i..i + 1] == [data[i]];
      }
      j := j + 1;
    }

    /** s_body_identity_eof: the rest of the buffer. */
    method TakeRest(data: string, i: nat, ghost p: P) returns (j: nat)
      requires i < |data| && p.state.BodyIdentityEof?
      modifies this`log
      ensures j == |data| && SpansOf(p.state) == NoSpans
      ensures var s := Feed(skip, p, data[i..j]);
        && s.v.Go? && s.p == p
        && SeenAll(true, log) == SeenAll(true, old(log)) + s.url
        && SeenAll(false, log) == SeenAll(false, old(log)) + s.other
    {
      hide Feed, SeenAll, Tag;
      var toRead := |data| - i;
      j := i;
      if toRead > 0 {
        Emit(Delivered(Body, data[i..i + toRead]));
        j := j + (toRead - 1);
      }
      EofRun(skip, p, data[i..i + toRead]);
      j := j + 1;
    }

    /** s_chunk_data: the rest of the chunk, or of the buffer, in one callback. A length that does
        not fit a signed word makes the comparison with the rest of the buffer meaningless. */
    method TakeChunk(data: string, i: nat, st: State, ghost p: P) returns (v: Verdict, j: nat, st1: State)
      requires i < |data| && st.ChunkData? && p == View().(state := st, hs := p.hs, index := p.index, nread := p.nread)
      modifies this`log, this`clen
      ensures !v.Go? ==>
        j == i && log == old(log) && clen == old(clen) && Step(skip, p, data[i]) == Outcome(v, p, [], [])
      ensures SpansOf(st) == NoSpans
      ensures v.Go? ==> i < j <= |data|
      ensures v.Go? ==> var s := Feed(skip, p, data[i..j]);
        && s.v.Go? && s.p == p.(state := st1, clen := clen) && SpansOf(st1) == NoSpans
        && SeenAll(true, log) == SeenAll(true, old(log)) + s.url
        && SeenAll(false, log) == SeenAll(false, old(log)) + s.other
    {
      hide Feed, SeenAll, Tag, Arm;
      v, j, st1 := Go, i, st;
      if !flags.chunked { return AssertFails, i, st; }
      if clen >= TWO_63 { return Undefined, i, st; }
      var toRead := if |data| - i < clen then |data| - i else clen;
      if toRead > 0 {
        Emit(Delivered(Body, data[i..i + toRead]));
        j := j + (toRead - 1);
        ChunkRun(skip, p, data[i..i + toRead]);
      } else {
        FeedOne(skip, p, data[i]);
        assert data[i..i + 1] == [data[i]];
      }
      if toRead == clen { st1 := ChunkDataAlmostDone; }
      clen := clen - toRead;
      j := j + 1;
    }

    /** The arms that take one byte: q is the record made of the fields and the locals, its header
        bytes counted. */
    method TakeByte(data: string, i: nat, q: P, marks0: Marks, ghost p: P) returns (o: Out, marks: Marks)
      requires i < |data| && !Bulk(p.state) && q == Counted(p) && MarksFor(SpansOf(p.state), marks0, i)
      requires !OverLimit(p)
      modifies this
      ensures o == Arm(skip, q, data[i])
      ensures View() == o.p.(state := old(state), hs := old(hs), index := old(index), nread := old(nread))
      ensures var s := Feed(skip, p, [data[i]]);
        && s.v == o.v && s.p == o.p
        && (s.v.Go? ==>
             && MarksFor(SpansOf(o.p.state), marks, i + 1) && Moved(SpansOf(p.state), marks0, marks, i)
             && Watched(true, log, marks, SpansOf(o.p.state), data, i + 1)
                == Watched(true, old(log), marks0, SpansOf(p.state), data, i) + s.url
             && Watched(false, log, marks, SpansOf(o.p.state), data, i + 1)
                == Watched(false, old(log), marks0, SpansOf(p.state), data, i) + s.other)
        && (!s.v.Go? ==>
             && SeenAll(true, log) <= Watched(true, old(log), marks0, SpansOf(p.state), data, i) + s.url
             && SeenAll(false, log) <= Watched(false, old(log), marks0, SpansOf(p.state), data, i) + s.other)
        && (s.v.Exit? ==>
             && SeenAll(true, log) == Watched(true, old(log), marks0, SpansOf(p.state), data, i) + s.url
             && SeenAll(false, log) == Watched(false, old(log), marks0, SpansOf(p.state), data, i) + s.other)
        && (s.v.Fail? ==>
             && SeenAll(true, log) + Pending(true, marks0, SpansOf(p.state), data, i)
                == Watched(true, old(log), marks0, SpansOf(p.state), data, i) + s.url
             && SeenAll(false, log) + Pending(false, marks0, SpansOf(p.state), data, i)
                == Watched(false, old(log), marks0, SpansOf(p.state), data, i) + s.other)
    {
      hide Feed, Arm, MarksFor, MarksAfter, Moved, FreshMarks, NoCalls, After, Tag, SeenAll, SpansOf, Step, Notes;
      hide Pending, Watched;
      o := Arm(skip, q, data[i]);
      Discipline(skip, q, data[i]);
      StepByte(skip, p, data[i]);
      marks := Perform(o.acts, marks0, data, i, SpansOf(p.state));
      Write(o.p);
      WatchedSeen(true, log, marks, After(SpansOf(p.state), o.acts).value, data, i);
      WatchedSeen(false, log, marks, After(SpansOf(p.state), o.acts).value, data, i);
      MarksStart(SpansOf(p.state), marks0, i);
      MarksMoved(SpansOf(p.state), o.acts, marks0, marks0, i);
      if o.v.Fail? {
        PendingStays(true, SpansOf(p.state), o.acts, marks0, After(SpansOf(p.state), o.acts).value, marks, data, i);
        PendingStays(false, SpansOf(p.state), o.acts, marks0, After(SpansOf(p.state), o.acts).value, marks, data, i);
      }
      if o.v.Go? {
        var sp := SpansOf(o.p.state);
        WatchedGrows(true, log, marks, sp, data, i, Watched(true, old(log), marks0, SpansOf(p.state), data, i),
          Notes(o.acts));
        WatchedGrows(false, log, marks, sp, data, i, Watched(false, old(log), marks0, SpansOf(p.state), data, i),
          Notes(o.acts));
      }
    }

    /** One turn of the loop. The verdict is Go when the loop goes on. */
    method Turn(data: string, i: nat, marks: Marks, st: State, h: HState, ix: nat, nr: nat, ghost c: Entry)
      returns (v: Verdict, i1: nat, marks1: Marks, st1: State, h1: HState, ix1: nat, nr1: nat)
      requires c.skip == skip && c.data == data && i < |data|
      requires At(c, i, View().(state := st, hs := h, index := ix, nread := nr), marks, log)
      requires state == c.p.state && hs == c.p.hs && index == c.p.index && nread == c.p.nread
      modifies this
      ensures state == old(state) && hs == old(hs) && index == old(index) && nread == old(nread)
      ensures v.Go? ==> i < i1 && At(c, i1, View().(state := st1, hs := h1, index := ix1, nread := nr1), marks1, log)
      ensures !v.Go? ==> Left(c, i1, v, View(), log)
    {
      hide Feed, Arm, SeenAll, SpansOf, MarksFor, At, OpenAt, Moved, Pending, KeptBack, Watched, Tag, Step;
      ghost var p, log0 := View().(state := st, hs := h, index := ix, nread := nr), log;
      ghost var sp := SpansOf(st);
      AtMarks(c, i, p, marks, log);
      PendingIs(true, c, i, p, marks, log);
      PendingIs(false, c, i, p, marks, log);
      WatchedSeen(true, log, marks, sp, data, i);
      WatchedSeen(false, log, marks, sp, data, i);
      v, i1, marks1, st1, h1, ix1, nr1 := Go, i, marks, st, h, ix, nr;
      if ParsingHeader(st) {
        nr1 := nr + 1;
        if nr1 > MAX_HEADER_SIZE {
          OverLimitFeed(skip, p, data[i]);
          Leave(c, i, p, marks, log, Trace(Fail, 0, p, [], []));
          v := Fail;
          return;
        }
      }
      if st.BodyIdentity? {
        i1, st1 := TakeIdentity(data, i, st, p);
        AtNextBulk(c, i, p, marks, log0, i1, log);
      } else if st.BodyIdentityEof? {
        i1 := TakeRest(data, i, p);
        AtNextBulk(c, i, p, marks, log0, i1, log);
      } else if st.ChunkData? {
        v, i1, st1 := TakeChunk(data, i, st, p);
        if v.Go? {
          AtNextBulk(c, i, p, marks, log0, i1, log);
        } else {
          FeedOne(skip, p, data[i]);
          Leave(c, i, p, marks, log, Trace(v, 0, p, [], []));
        }
      } else {
        var o;
        o, marks1 := TakeByte(data, i, View().(state := st, hs := h, index := ix, nread := nr1), marks, p);
        v := o.v;
        if v.Go? {
          st1, h1, ix1, nr1 := o.p.state, o.p.hs, o.p.index, o.p.nread;
          i1 := i + 1;
          assert data[i..i1] == [data[i]];
          OpenNext(c, i, p, marks, log0, o.p, marks1);
          AtNext(c, i, p, marks, log0, Feed(skip, p, data[i..i1]), i1, marks1, log);
        } else {
          Leave(c, i, p, marks, log0, Feed(skip, p, [data[i]]));
        }
      }
    }

    /** The loop and what follows it, on a buffer that is not empty. */
    method Scan(data: string, ghost c: Entry) returns (consumed: nat, verdict: Verdict)
      requires data != [] && c == Entry(skip, View(), data, log)
      modifies this
      ensures verdict.Go? ==> consumed == |data| && Finished(c, View(), log)
      ensures !verdict.Go? ==> Left(c, consumed, verdict, View(), log)
    {
      hide Feed, Arm, SeenAll, SpansOf, MarksFor, At, Watched, Tag, Step, Left;
      var st, h, ix: nat, nr: nat := state, hs, index, nread;
      var marks := Reopen(st);
      var i := 0;
      AtEntry(c, marks);
      while i < |data|
        invariant i <= |data|
        invariant At(c, i, View().(state := st, hs := h, index := ix, nread := nr), marks, log)
        invariant state == c.p.state && hs == c.p.hs && index == c.p.index && nread == c.p.nread
      {
        verdict, i, marks, st, h, ix, nr := Turn(data, i, marks, st, h, ix, nr, c);
        if !verdict.Go? { return i, verdict; }
        AtMarks(c, i, View().(state := st, hs := h, index := ix, nread := nr), marks, log);
      }
      ghost var p := View().(state := st, hs := h, index := ix, nread := nr);
      AtEnd(c, p, marks, log);
      FlushAll(marks, data, SpansOf(p.state));
      state, hs, index, nread := st, h, ix % 256, nr % 256;
      return |data|, Go;
    }

    /** http_parser_execute. A call that fails does not deliver the data that are open. */
    method Execute(data: string) returns (consumed: nat, verdict: Verdict)
      modifies this
      ensures var r := Exec(skip, old(View()), data);
        && verdict == r.v && consumed == r.used && View() == r.p
        && SeenAll(true, log) <= SeenAll(true, old(log)) + r.url
        && SeenAll(false, log) <= SeenAll(false, old(log)) + r.other
        && (r.v.Go? || r.v.Exit? || r.v.Fail? ==>
             && SeenAll(true, log) + HeldBack(true, skip, old(View()), data) == SeenAll(true, old(log)) + r.url
             && SeenAll(false, log) + HeldBack(false, skip, old(View()), data) == SeenAll(false, old(log)) + r.other)
    {
      hide Feed, SeenAll, KeptBack;
      if data == [] {
        match state {
          case BodyIdentityEof => Emit(Notified(MessageComplete)); return 0, Go;
          case Dead | StartReqOrRes | StartRes | StartReq => return 0, Go;
          case _ => return 1, Fail;
        }
      }
      consumed, verdict := Scan(data, Entry(skip, View(), data, log));
      if verdict.Fail? { state := Dead; }
    }

    /** A caller that passes its buffers on as they arrive, until a call does not succeed. */
    method ExecutePieces(pieces: seq<string>) returns (consumed: nat, verdict: Verdict)
      modifies this
      ensures var r := ExecAll(skip, old(View()), pieces);
        && verdict == r.v && consumed == r.used && View() == r.p
        && (r.v.Go? || r.v.Exit? || r.v.Fail? ==>
             && SeenAll(true, log) + HeldBackAll(true, skip, old(View()), pieces) == SeenAll(true, old(log)) + r.url
             && SeenAll(false, log) + HeldBackAll(false, skip, old(View()), pieces) ==
               SeenAll(false, old(log)) + r.other)
      decreases |pieces|
    {
      hide Exec, SeenAll, HeldBack;
      if pieces == [] { return 0, Go; }
      ghost var p, log0 := View(), log;
      consumed, verdict := Execute(pieces[0]);
      if !verdict.Go? { return; }
      NothingHeld(true, skip, p, pieces[0]);
      NothingHeld(false, skip, p, pieces[0]);
      var more;
      more, verdict := ExecutePieces(pieces[1..]);
      consumed := consumed + more;
    }
  }

  lemma NothingHeld(url: bool, skip: bool, p: P, data: string)
    requires Exec(skip, p, data).v.Go?
    ensures HeldBack(url, skip, p, data) == []
  {
  }

  /** Two fresh parsers, one given an input in one buffer and the other in several: what their callers
      are shown is the same exactly under these conditions. */
  method BothWays(t: Type, skip: bool, pieces: seq<string>) returns (one: HttpParser, many: HttpParser)
    requires NonEmpty(pieces) && pieces != []
    ensures fresh(one) && fresh(many)
    ensures var p, s := HttpTypes.Init(t), Concat(pieces);
      var r := Exec(skip, p, s);
      SameParse(r, ExecAll(skip, p, pieces)) && (r.v.Go? || r.v.Exit? || r.v.Fail?) ==>
        && (SeenAll(true, many.log) == SeenAll(true, one.log) <==>
             !r.v.Fail? || OpenLen(true, skip, p, s[..r.used]) <= r.used - StartOf(pieces, r.used))
        && (SeenAll(false, many.log) == SeenAll(false, one.log) <==>
             !r.v.Fail? || OpenLen(false, skip, p, s[..r.used]) <= r.used - StartOf(pieces, r.used))
  {
    hide Exec, ExecAll, SeenAll, HeldBack, HeldBackAll, Good, Concat, StartOf, OpenLen, NonEmpty, SameParse;
    one := new HttpParser.Init(t, skip);
    many := new HttpParser.Init(t, skip);
    NothingSeen(true);
    NothingSeen(false);
    var consumed, verdict := one.Execute(Concat(pieces));
    consumed, verdict := many.ExecutePieces(pieces);
    ghost var p := HttpTypes.Init(t);
    ghost var r := Exec(skip, p, Concat(pieces));
    if SameParse(r, ExecAll(skip, p, pieces)) && (r.v.Go? || r.v.Exit? || r.v.Fail?) {
      GoodInit(t);
      SameVerdict(r, ExecAll(skip, p, pieces));
      SplitCallbacks(true, skip, p, pieces, SeenAll(true, one.log), SeenAll(true, many.log));
      SplitCallbacks(false, skip, p, pieces, SeenAll(false, one.log), SeenAll(false, many.log));
    }
  }

  lemma NothingSeen(url: bool)
    ensures forall s: seq<Obs> :: SeenAll(url, []) + s == s
  {
  }

  lemma SameVerdict(r: Trace, s: Trace)
    requires SameParse(r, s)
    ensures s.v == r.v
  {
  }
}
