/** The arms of the parser's switch. Each arm maps the parser's fields and the byte read to the
    new fields and to the macros it executes, in order. The three arms that consume body bytes
    in bulk are not here: they are part of the loop itself (HttpExecute). */
module HttpArms {
  import opened HttpTypes

  function To(p: P, st: State): Out { Out(Go, p.(state := st), Done) }

  function Stay(p: P): Out { Out(Go, p, Done) }

  function Error(p: P): Out { Out(Fail, p, Done) }

  function Do1(a: Act): Acts { Do(a, Done) }

  function Do2(a: Act, b: Act): Acts { Do(a, Do(b, Done)) }

  /** STRICT_CHECK(!ok) followed by an unconditional state change. */
  function Expect(p: P, ok: bool, st: State): Out { if ok then To(p, st) else Error(p) }

  function Fresh(p: P): P { p.(flags := NoFlags, clen := TWO_64 - 1) }

  // ----- start of a message

  function ArmStart(p: P, ch: char): Out
    requires p.state.StartReqOrRes? || p.state.ResOrRespH? || p.state.StartRes? || p.state.StartReq?
  {
    match p.state
    case StartReqOrRes =>
      if ch == CR || ch == LF then Stay(p)
      else if ch == 'H' then Out(Go, Fresh(p).(state := ResOrRespH), Do1(Notify(MessageBegin)))
      else AssignMethod(Fresh(p).(typ := Request), ch)
    case ResOrRespH =>
      if ch == 'T' then To(p.(typ := Response), ResHT)
      else if ch != 'E' then Error(p)
      else To(p.(typ := Request, meth := HEAD, index := 2), ReqMethod)
    case StartRes =>
      var q := Fresh(p);
      Out(if ch == 'H' || ch == CR || ch == LF then Go else Fail,
          if ch == 'H' then q.(state := ResH) else q, Do1(Notify(MessageBegin)))
    case StartReq =>
      if ch == CR || ch == LF then Stay(p)
      else if ch < 'A' || 'Z' < ch then Out(Fail, Fresh(p), Do1(Notify(MessageBegin)))
      else AssignMethod(Fresh(p), ch)
  }

  /** start_req_method_assign: the first letter proposes a method. */
  function AssignMethod(p: P, ch: char): Out
  {
    var q := p.(meth := DELETE, index := 1);
    var m := match ch
      case 'C' => Some(CONNECT) case 'D' => Some(DELETE) case 'G' => Some(GET) case 'H' => Some(HEAD)
      case 'L' => Some(LOCK) case 'M' => Some(MKCOL) case 'N' => Some(NOTIFY) case 'O' => Some(OPTIONS)
      case 'P' => Some(POST) case 'R' => Some(REPORT) case 'S' => Some(SUBSCRIBE) case 'T' => Some(TRACE)
      case 'U' => Some(UNLOCK) case _ => None;
    match m
    case None => Out(Fail, q, Do1(Notify(MessageBegin)))
    case Some(m) => Out(Go, q.(meth := m, state := ReqMethod), Do1(Notify(MessageBegin)))
  }

  /** The method after a letter at index i that is not the one of method m, or none. */
  function Redirect(m: Method, i: nat, ch: char): Option<Method>
  {
    match m
    case CONNECT => Some(if i == 1 && ch == 'H' then CHECKOUT else if i == 2 && ch == 'P' then COPY else CONNECT)
    case MKCOL =>
      Some(if i == 1 && ch == 'O' then MOVE
           else if i == 1 && ch == 'E' then MERGE
           else if i == 1 && ch == '-' then MSEARCH
           else if i == 2 && ch == 'A' then MKACTIVITY
           else MKCOL)
    case POST => if i == 1 && ch == 'R' then Some(PROPFIND) else if i == 1 && ch == 'U' then Some(PUT) else None
    case UNLOCK => if i == 2 && ch == 'S' then Some(UNSUBSCRIBE) else None
    case PROPFIND => if i == 4 && ch == 'P' then Some(PROPPATCH) else None
    case _ => None
  }

  /** s_req_method: later letters confirm the method or move to another one. */
  function ArmMethod(p: P, ch: char): Out
  {
    var s := MethodString(p.meth);
    var next := p.(index := p.index + 1);
    if ch == NUL then Error(p)
    else if p.index > |s| then Out(Undefined, p, Done)
    else if ch == ' ' && p.index == |s| then To(next, ReqSpacesBeforeUrl)
    else if p.index < |s| && ch == s[p.index] then Stay(next)
    else match Redirect(p.meth, p.index, ch)
      case None => Error(p)
      case Some(m) => Stay(next.(meth := m))
  }

  // ----- request target

  predicate UrlState(st: State)
  {
    st.ReqSpacesBeforeUrl? || st.ReqSchema? || st.ReqSchemaSlash? || st.ReqSchemaSlashSlash? || st.ReqHost?
    || st.ReqPort? || st.ReqPath? || st.ReqQueryStart? || st.ReqQuery? || st.ReqFragmentStart? || st.ReqFragment?
  }

  /** The request line ends right after the target: HTTP/0.9. */
  function Http09(p: P): P { p.(major := 0, minor := 9) }

  /** ' ', CR and LF end the target in all of its states. */
  function EndOfUrl(p: P, ch: char, acts: Acts): Out
    requires ch == ' ' || ch == CR || ch == LF
  {
    if ch == ' ' then Out(Go, p.(state := ReqHttpStart), acts)
    else if ch == CR then Out(Go, Http09(p).(state := ReqLineAlmostDone), acts)
    else Out(Go, Http09(p).(state := HeaderFieldStart), acts)
  }

  function ArmUrl(p: P, ch: char): Out
    requires UrlState(p.state)
  {
    var ends := ch == ' ' || ch == CR || ch == LF;
    match p.state
    case ReqSpacesBeforeUrl =>
      if ch == ' ' then Stay(p)
      else if ch == '/' || ch == '*' then Out(Go, p.(state := ReqPath), Do2(Mark(Url), Mark(Path)))
      else if IsAlpha(ch) then Out(Go, p.(state := ReqSchema), Do1(Mark(Url)))
      else Error(p)
    case ReqSchema =>
      if IsAlpha(ch) then Stay(p)
      else if ch == ':' then To(p, ReqSchemaSlash)
      else if ch == '.' || IsDigit(ch) then To(p, ReqHost)
      else Error(p)
    case ReqSchemaSlash => Expect(p, ch == '/', ReqSchemaSlashSlash)
    case ReqSchemaSlashSlash => Expect(p, ch == '/', ReqHost)
    case ReqHost =>
      if IsAlpha(ch) || IsDigit(ch) || ch == '.' || ch == '-' then Stay(p)
      else if ch == ':' then To(p, ReqPort)
      else if ch == '/' then Out(Go, p.(state := ReqPath), Do1(Mark(Path)))
      else if ch == ' ' then Out(Go, p.(state := ReqHttpStart), Do1(Call(Url)))
      else Error(p)
    case ReqPort =>
      if IsDigit(ch) then Stay(p)
      else if ch == '/' then Out(Go, p.(state := ReqPath), Do1(Mark(Path)))
      else if ch == ' ' then Out(Go, p.(state := ReqHttpStart), Do1(Call(Url)))
      else Error(p)
    case ReqPath =>
      if NormalUrlChar(ch) then Stay(p)
      else if ends then EndOfUrl(p, ch, Do2(Call(Url), Call(Path)))
      else if ch == '?' then Out(Go, p.(state := ReqQueryStart), Do1(Call(Path)))
      else if ch == '#' then Out(Go, p.(state := ReqFragmentStart), Do1(Call(Path)))
      else Error(p)
    case ReqQueryStart =>
      if NormalUrlChar(ch) then Out(Go, p.(state := ReqQuery), Do1(Mark(Query)))
      else if ch == '?' then Stay(p)
      else if ends then EndOfUrl(p, ch, Do1(Call(Url)))
      else if ch == '#' then To(p, ReqFragmentStart)
      else Error(p)
    case ReqQuery =>
      if NormalUrlChar(ch) || ch == '?' then Stay(p)
      else if ends then EndOfUrl(p, ch, Do2(Call(Url), Call(Query)))
      else if ch == '#' then Out(Go, p.(state := ReqFragmentStart), Do1(Call(Query)))
      else Error(p)
    case ReqFragmentStart =>
      if NormalUrlChar(ch) || ch == '?' then Out(Go, p.(state := ReqFragment), Do1(Mark(Fragment)))
      else if ends then EndOfUrl(p, ch, Do1(Call(Url)))
      else if ch == '#' then Stay(p)
      else Error(p)
    case ReqFragment =>
      if NormalUrlChar(ch) || ch == '?' || ch == '#' then Stay(p)
      else if ends then EndOfUrl(p, ch, Do2(Call(Url), Call(Fragment)))
      else Error(p)
  }

  // ----- versions and status line

  predicate ReqVersionState(st: State)
  {
    st.ReqHttpStart? || st.ReqH? || st.ReqHT? || st.ReqHTT? || st.ReqHTTP? || st.ReqFirstMajor? || st.ReqMajor?
    || st.ReqFirstMinor? || st.ReqMinor? || st.ReqLineAlmostDone?
  }

  /** The digits after the first one of a version number. */
  function MajorDigit(p: P, ch: char, dot: State): Out
  {
    if ch == '.' then To(p, dot)
    else if !IsDigit(ch) then Error(p)
    else
      var q := p.(major := p.major * 10 + Digit(ch));
      if q.major > 999 then Error(q) else Stay(q)
  }

  function MinorDigit(p: P, ch: char): Out
  {
    if !IsDigit(ch) then Error(p)
    else
      var q := p.(minor := p.minor * 10 + Digit(ch));
      if q.minor > 999 then Error(q) else Stay(q)
  }

  function FirstMajor(p: P, ch: char, st: State): Out
  {
    if ch < '1' || ch > '9' then Error(p) else To(p.(major := Digit(ch)), st)
  }

  function FirstMinor(p: P, ch: char, st: State): Out
  {
    if !IsDigit(ch) then Error(p) else To(p.(minor := Digit(ch)), st)
  }

  function ArmReqVersion(p: P, ch: char): Out
    requires ReqVersionState(p.state)
  {
    match p.state
    case ReqHttpStart => if ch == 'H' then To(p, ReqH) else if ch == ' ' then Stay(p) else Error(p)
    case ReqH => Expect(p, ch == 'T', ReqHT)
    case ReqHT => Expect(p, ch == 'T', ReqHTT)
    case ReqHTT => Expect(p, ch == 'P', ReqHTTP)
    case ReqHTTP => Expect(p, ch == '/', ReqFirstMajor)
    case ReqFirstMajor => FirstMajor(p, ch, ReqMajor)
    case ReqMajor => MajorDigit(p, ch, ReqFirstMinor)
    case ReqFirstMinor => FirstMinor(p, ch, ReqMinor)
    case ReqMinor =>
      if ch == CR then To(p, ReqLineAlmostDone)
      else if ch == LF then To(p, HeaderFieldStart)
      else MinorDigit(p, ch)
    case ReqLineAlmostDone => Expect(p, ch == LF, HeaderFieldStart)
  }

  predicate ResState(st: State)
  {
    st.ResH? || st.ResHT? || st.ResHTT? || st.ResHTTP? || st.ResFirstMajor? || st.ResMajor? || st.ResFirstMinor?
    || st.ResMinor? || st.ResFirstStatusCode? || st.ResStatusCode? || st.ResStatus? || st.ResLineAlmostDone?
  }

  function ArmRes(p: P, ch: char): Out
    requires ResState(p.state)
  {
    match p.state
    case ResH => Expect(p, ch == 'T', ResHT)
    case ResHT => Expect(p, ch == 'T', ResHTT)
    case ResHTT => Expect(p, ch == 'P', ResHTTP)
    case ResHTTP => Expect(p, ch == '/', ResFirstMajor)
    case ResFirstMajor => FirstMajor(p, ch, ResMajor)
    case ResMajor => MajorDigit(p, ch, ResFirstMinor)
    case ResFirstMinor => FirstMinor(p, ch, ResMinor)
    case ResMinor => if ch == ' ' then To(p, ResFirstStatusCode) else MinorDigit(p, ch)
    case ResFirstStatusCode =>
      if IsDigit(ch) then To(p.(status := Digit(ch)), ResStatusCode)
      else if ch == ' ' then Stay(p)
      else Error(p)
    case ResStatusCode =>
      if !IsDigit(ch) then
        if ch == ' ' then To(p, ResStatus)
        else if ch == CR then To(p, ResLineAlmostDone)
        else if ch == LF then To(p, HeaderFieldStart)
        else Error(p)
      else
        var q := p.(status := p.status * 10 + Digit(ch));
        if q.status > 999 then Error(q) else Stay(q)
    case ResStatus =>
      if ch == CR then To(p, ResLineAlmostDone) else if ch == LF then To(p, HeaderFieldStart) else Stay(p)
    case ResLineAlmostDone => Expect(p, ch == LF, HeaderFieldStart)
  }

  // ----- header lines

  const CONNECTION := "connection"
  const PROXY_CONNECTION := "proxy-connection"
  const CONTENT_LENGTH := "content-length"
  const TRANSFER_ENCODING := "transfer-encoding"
  const UPGRADE := "upgrade"
  const CHUNKED := "chunked"
  const KEEP_ALIVE := "keep-alive"
  const CLOSE := "close"

  /** Advance the comparison with `word`: `index` has already been incremented. */
  function Advance(word: string, index: nat, c: char, matching: HState, found: HState): HState
    requires |word| >= 2
  {
    if index >= |word| || c != word[index] then General
    else if index == |word| - 1 then found
    else matching
  }

  predicate FieldHState(h: HState)
  {
    h.General? || h.C? || h.CO? || h.CON? || h.MatchConnection? || h.MatchProxyConnection? || h.MatchContentLength?
    || h.MatchTransferEncoding? || h.MatchUpgrade? || h.Connection? || h.ContentLength? || h.TransferEncoding?
    || h.Upgrade?
  }

  /** The automaton over a header name, on its first token character. */
  function FieldFirst(c: char): HState
  {
    if c == 'c' then C
    else if c == 'p' then MatchProxyConnection
    else if c == 't' then MatchTransferEncoding
    else if c == 'u' then MatchUpgrade
    else General
  }

  /** The automaton over a header name, on a further token character `c` read as `ch`. */
  function FieldNext(h: HState, index: nat, ch: char, c: char): (r: (HState, nat))
    requires FieldHState(h)
  {
    var i := index + 1;
    match h
    case General => (General, index)
    case C => (if c == 'o' then CO else General, i)
    case CO => (if c == 'n' then CON else General, i)
    case CON => (if c == 'n' then MatchConnection else if c == 't' then MatchContentLength else General, i)
    case MatchConnection => (Advance(CONNECTION, i, c, h, Connection), i)
    case MatchProxyConnection => (Advance(PROXY_CONNECTION, i, c, h, Connection), i)
    case MatchContentLength => (Advance(CONTENT_LENGTH, i, c, h, ContentLength), i)
    case MatchTransferEncoding => (Advance(TRANSFER_ENCODING, i, c, h, TransferEncoding), i)
    case MatchUpgrade => (Advance(UPGRADE, i, c, h, Upgrade), i)
    case Connection | ContentLength | TransferEncoding | Upgrade => (if ch != ' ' then General else h, index)
  }

  predicate HeaderState(st: State)
  {
    st.HeaderFieldStart? || st.HeaderField? || st.HeaderValueStart? || st.HeaderValue? || st.HeaderAlmostDone?
    || st.HeadersAlmostDone?
  }

  function ArmHeader(skip: bool, p: P, ch: char): Out
    requires HeaderState(p.state)
  {
    match p.state
    case HeaderFieldStart =>
      if ch == CR then To(p, HeadersAlmostDone)
      else if ch == LF then EndOfHeaders(skip, p.(state := HeadersAlmostDone))
      else if Token(ch) == NUL then Error(p)
      else Out(Go, p.(index := 0, state := HeaderField, hs := FieldFirst(Token(ch))), Do1(Mark(Field)))
    case HeaderField =>
      if Token(ch) != NUL then
        if !FieldHState(p.hs) then Out(AssertFails, p, Done)
        else
          var (h, i) := FieldNext(p.hs, p.index, ch, Token(ch));
          Stay(p.(hs := h, index := i))
      else if ch == ':' then Out(Go, p.(state := HeaderValueStart), Do1(Call(Field)))
      else if ch == CR then Out(Go, p.(state := HeaderAlmostDone), Do1(Call(Field)))
      else if ch == LF then Out(Go, p.(state := HeaderFieldStart), Do1(Call(Field)))
      else Error(p)
    case HeaderValueStart =>
      if ch == ' ' then Stay(p) else ValueFirst(p.(state := HeaderValue, index := 0), ch)
    case HeaderValue =>
      if ch == CR then Out(Go, p.(state := HeaderAlmostDone), Do1(Call(Value)))
      else if ch == LF then EndOfLine(p, Do1(Call(Value)))
      else ValueNext(p, ch)
    case HeaderAlmostDone => if ch != LF then Error(p) else EndOfLine(p, Done)
    case HeadersAlmostDone => if ch != LF then Error(p) else EndOfHeaders(skip, p)
  }

  /** The automaton over a header value, on its first byte that is not a space. */
  function ValueFirst(p: P, ch: char): Out
  {
    var mark := Do1(Mark(Value));
    if ch == CR then Out(Go, p.(hs := General, state := HeaderAlmostDone), Do2(Mark(Value), Call(Value)))
    else if ch == LF then Out(Go, p.(state := HeaderFieldStart), Do2(Mark(Value), Call(Value)))
    else match p.hs
      case Upgrade => Out(Go, p.(flags := p.flags.(upgrade := true), hs := General), mark)
      case TransferEncoding => Out(Go, p.(hs := if Lower(ch) == 'c' then MatchChunked else General), mark)
      case ContentLength => if !IsDigit(ch) then Out(Fail, p, mark) else Out(Go, p.(clen := Digit(ch)), mark)
      case Connection =>
        Out(Go, p.(hs := if Lower(ch) == 'k' then MatchKeepAlive else if Lower(ch) == 'c' then MatchClose else General),
            mark)
      case _ => Out(Go, p.(hs := General), mark)
  }

  /** The automaton over a header value, on a further byte other than CR and LF. */
  function ValueNext(p: P, ch: char): Out
  {
    var c := Lower(ch);
    var i := p.index + 1;
    match p.hs
    case General => Stay(p)
    case Connection | TransferEncoding => Out(AssertFails, p, Done)
    case ContentLength =>
      if ch == ' ' then Stay(p)
      else if !IsDigit(ch) then Error(p)
      else Stay(p.(clen := (p.clen * 10 + Digit(ch)) % TWO_64))
    case MatchChunked => Stay(p.(index := i, hs := Advance(CHUNKED, i, c, p.hs, IsChunked)))
    case MatchKeepAlive => Stay(p.(index := i, hs := Advance(KEEP_ALIVE, i, c, p.hs, IsKeepAlive)))
    case MatchClose => Stay(p.(index := i, hs := Advance(CLOSE, i, c, p.hs, IsClose)))
    case IsChunked | IsKeepAlive | IsClose => if ch != ' ' then Stay(p.(hs := General)) else Stay(p)
    case _ => Stay(p.(hs := General))
  }

  /** header_almost_done: the line is complete, keep what its value said. */
  function EndOfLine(p: P, acts: Acts): Out
  {
    var f := match p.hs
      case IsKeepAlive => p.flags.(keepAlive := true)
      case IsClose => p.flags.(close := true)
      case IsChunked => p.flags.(chunked := true)
      case _ => p.flags;
    Out(Go, p.(state := HeaderFieldStart, flags := f), acts)
  }

  /** headers_almost_done: `skip` is whether on_headers_complete returns 1. */
  function EndOfHeaders(skip: bool, p: P): Out
  {
    if p.flags.trailing then Out(Go, p.(state := NewMessage(p)), Do1(Notify(MessageComplete)))
    else
      var q := p.(nread := 0,
                  upgrade := p.upgrade || p.flags.upgrade || p.meth.CONNECT?,
                  flags := if skip then p.flags.(skipBody := true) else p.flags);
      var complete := Do2(Notify(HeadersComplete), Notify(MessageComplete));
      if q.upgrade then Out(Exit, q, complete)
      else if q.flags.skipBody || (!q.flags.chunked && q.clen == 0) then Out(Go, q.(state := NewMessage(q)), complete)
      else
        // content_length is unsigned, so every non-zero value, the initial -1 included, is > 0
        Out(Go, q.(state := if q.flags.chunked then ChunkSizeStart else BodyIdentity), Do1(Notify(HeadersComplete)))
  }

  // ----- chunk framing

  predicate ChunkState(st: State)
  {
    st.ChunkSizeStart? || st.ChunkSize? || st.ChunkParameters? || st.ChunkSizeAlmostDone?
    || st.ChunkDataAlmostDone? || st.ChunkDataDone?
  }

  function ArmChunk(p: P, ch: char): Out
    requires ChunkState(p.state)
  {
    if !p.flags.chunked || (p.state.ChunkSizeStart? && p.nread != 1) then Out(AssertFails, p, Done)
    else match p.state
      case ChunkSizeStart =>
        if Unhex(ch) == -1 then Error(p) else To(p.(clen := Unhex(ch)), ChunkSize)
      case ChunkSize =>
        if ch == CR then To(p, ChunkSizeAlmostDone)
        else if Unhex(ch) == -1 then if ch == ';' || ch == ' ' then To(p, ChunkParameters) else Error(p)
        else Stay(p.(clen := (p.clen * 16 % TWO_64 + Unhex(ch)) % TWO_64))
      case ChunkParameters => if ch == CR then To(p, ChunkSizeAlmostDone) else Stay(p)
      case ChunkSizeAlmostDone =>
        if ch != LF then Error(p)
        else if p.clen == 0 then To(p.(nread := 0, flags := p.flags.(trailing := true)), HeaderFieldStart)
        else To(p.(nread := 0), ChunkData)
      case ChunkDataAlmostDone => Expect(p, ch == CR, ChunkDataDone)
      case ChunkDataDone => Expect(p, ch == LF, ChunkSizeStart)
  }

  /** The states whose arms take a run of body bytes at once. */
  predicate Bulk(st: State) { st.BodyIdentity? || st.BodyIdentityEof? || st.ChunkData? }

  /** The switch, for every state whose arm takes one byte. */
  function Arm(skip: bool, p: P, ch: char): Out
    requires !Bulk(p.state)
  {
    if p.state.Dead? then Error(p)
    else if p.state.StartReqOrRes? || p.state.ResOrRespH? || p.state.StartRes? || p.state.StartReq? then ArmStart(p, ch)
    else if p.state.ReqMethod? then ArmMethod(p, ch)
    else if UrlState(p.state) then ArmUrl(p, ch)
    else if ReqVersionState(p.state) then ArmReqVersion(p, ch)
    else if ResState(p.state) then ArmRes(p, ch)
    else if HeaderState(p.state) then ArmHeader(skip, p, ch)
    else ArmChunk(p, ch)
  }
}
