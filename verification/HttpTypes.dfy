/** Data model of the incremental HTTP parser: the states of its two automata, the parser
    record, its lookup tables and the macros that the arms of its switch execute. */
module HttpTypes {

  datatype Option<+T> = None | Some(value: T)

  datatype State =
    | Dead
    | StartReqOrRes | ResOrRespH
    | StartRes | ResH | ResHT | ResHTT | ResHTTP
    | ResFirstMajor | ResMajor | ResFirstMinor | ResMinor
    | ResFirstStatusCode | ResStatusCode | ResStatus | ResLineAlmostDone
    | StartReq | ReqMethod
    | ReqSpacesBeforeUrl | ReqSchema | ReqSchemaSlash | ReqSchemaSlashSlash | ReqHost | ReqPort
    | ReqPath | ReqQueryStart | ReqQuery | ReqFragmentStart | ReqFragment
    | ReqHttpStart | ReqH | ReqHT | ReqHTT | ReqHTTP
    | ReqFirstMajor | ReqMajor | ReqFirstMinor | ReqMinor | ReqLineAlmostDone
    | HeaderFieldStart | HeaderField | HeaderValueStart | HeaderValue | HeaderAlmostDone
    | ChunkSizeStart | ChunkSize | ChunkParameters | ChunkSizeAlmostDone
    | HeadersAlmostDone
    | ChunkData | ChunkDataAlmostDone | ChunkDataDone
    | BodyIdentity | BodyIdentityEof

  datatype HState =
    | General | C | CO | CON
    | MatchConnection | MatchProxyConnection | MatchContentLength | MatchTransferEncoding | MatchUpgrade
    | Connection | ContentLength | TransferEncoding | Upgrade
    | MatchChunked | MatchKeepAlive | MatchClose
    | IsChunked | IsKeepAlive | IsClose

  datatype Method =
    | DELETE | GET | HEAD | POST | PUT | CONNECT | OPTIONS | TRACE | COPY | LOCK | MKCOL | MOVE
    | PROPFIND | PROPPATCH | UNLOCK | REPORT | MKACTIVITY | CHECKOUT | MERGE | MSEARCH
    | NOTIFY | SUBSCRIBE | UNSUBSCRIBE

  datatype Type = Request | Response | Both

  /** The six bits of `parser->flags`. */
  datatype Flags = Flags(chunked: bool, keepAlive: bool, close: bool, trailing: bool, upgrade: bool, skipBody: bool)

  const NoFlags := Flags(false, false, false, false, false, false)

  /** The parser record. */
  datatype P = P(
    typ: Type, flags: Flags, state: State, hs: HState, index: nat, nread: nat, clen: nat,
    major: nat, minor: nat, status: nat, meth: Method, upgrade: bool)

  /** The data callbacks, named by what they deliver. */
  datatype Kind = Url | Path | Query | Fragment | Field | Value | Body

  /** The callbacks without data. */
  datatype Note = MessageBegin | HeadersComplete | MessageComplete

  /** The macros MARK, CALLBACK and CALLBACK2, in the order an arm executes them. */
  datatype Act = Mark(k: Kind) | Call(k: Kind) | Notify(n: Note)
  datatype Acts = Done | Do(act: Act, rest: Acts)

  /** How an arm is left: normally, by `goto error`, by the early return of an upgraded
      connection, by a failed assert, or by reading outside a string or with a length that
      does not fit its signed type (undefined in C). */
  datatype Verdict = Go | Fail | Exit | AssertFails | Undefined

  datatype Out = Out(v: Verdict, p: P, acts: Acts)

  const TWO_64: nat := 0x1_0000_0000_0000_0000
  const TWO_63: nat := 0x8000_0000_0000_0000
  const MAX_HEADER_SIZE: nat := 80 * 1024

  const CR: char := '\r'
  const LF: char := '\n'
  const NUL: char := '\0'

  predicate IsDigit(ch: char) { '0' <= ch <= '9' }

  function Digit(ch: char): (d: nat)
    requires IsDigit(ch)
    ensures d <= 9
  {
    ch as int - '0' as int
  }

  /** LOWER(c): the byte with bit 5 set. */
  function Lower(ch: char): char
  {
    var b := ch as int % 256;
    (if b / 32 % 2 == 0 then b + 32 else b) as char
  }

  predicate IsAlpha(ch: char) { 'a' <= Lower(ch) <= 'z' }

  /** TOKEN(c): the lower-cased byte, or NUL when it may not occur in a header name. The table
      lists the space as a token. */
  function Token(ch: char): char
  {
    if ' ' <= ch <= '\'' || ch == '*' || ch == '+' || '-' <= ch <= '9' || ch == '^' || ch == '_'
       || '`' <= ch <= 'z' || '|' <= ch <= '~' then ch
    else if 'A' <= ch <= 'Z' then (ch as int + 32) as char
    else NUL
  }

  predicate NormalUrlChar(ch: char)
  {
    '!' <= ch <= '~' && ch != '#' && ch != '?'
  }

  /** unhex[]: only the first 128 entries are written in the source, so the others are zero. */
  function Unhex(ch: char): (d: int)
    ensures -1 <= d <= 15
  {
    if '0' <= ch <= '9' then ch as int - '0' as int
    else if 'A' <= ch <= 'F' then ch as int - 'A' as int + 10
    else if 'a' <= ch <= 'f' then ch as int - 'a' as int + 10
    else if ch as int >= 128 then 0
    else -1
  }

  /** method_strings[]. */
  function MethodString(m: Method): string
  {
    match m
    case DELETE => "DELETE" case GET => "GET" case HEAD => "HEAD" case POST => "POST" case PUT => "PUT"
    case CONNECT => "CONNECT" case OPTIONS => "OPTIONS" case TRACE => "TRACE" case COPY => "COPY"
    case LOCK => "LOCK" case MKCOL => "MKCOL" case MOVE => "MOVE" case PROPFIND => "PROPFIND"
    case PROPPATCH => "PROPPATCH" case UNLOCK => "UNLOCK" case REPORT => "REPORT"
    case MKACTIVITY => "MKACTIVITY" case CHECKOUT => "CHECKOUT" case MERGE => "MERGE"
    case MSEARCH => "M-SEARCH" case NOTIFY => "NOTIFY" case SUBSCRIBE => "SUBSCRIBE"
    case UNSUBSCRIBE => "UNSUBSCRIBE"
  }

  /** PARSING_HEADER(state): everything up to s_headers_almost_done in the enumeration. */
  predicate ParsingHeader(st: State)
  {
    !(st.ChunkData? || st.ChunkDataAlmostDone? || st.ChunkDataDone? || st.BodyIdentity? || st.BodyIdentityEof?)
  }

  /** http_should_keep_alive. */
  predicate KeepAlive(p: P)
  {
    if p.major > 0 && p.minor > 0 then !p.flags.close else p.flags.keepAlive
  }

  /** NEW_MESSAGE() of a strict build. */
  function NewMessage(p: P): State
  {
    if !KeepAlive(p) then Dead else if p.typ.Request? then StartReq else StartRes
  }

  /** http_parser_init on a zeroed record. */
  function Init(t: Type): P
  {
    P(t, NoFlags, match t case Request => StartReq case Response => StartRes case Both => StartReqOrRes,
      General, 0, 0, 0, 0, 0, 0, DELETE, false)
  }
}
