/** The registers of an http_parser, its enumerations, and the events its callbacks see. */
module HttpTypes {
  import opened Bytes

  // The states of http_parser_execute, those of one part of a message grouped under that part.
  datatype State =
    | Dead
    | StartReqOrRes | ResOrRespH
    | StatusLine(res: StatusState)
    | StartReq | ReqMethod | ReqSpacesBeforeUrl
    | UrlPart(url: UrlState)
    | VersionPart(version: VersionState)
    | HeaderFieldStart | HeaderField
    | HeaderValueDiscardWs | HeaderValueDiscardWsAlmostDone | HeaderValueDiscardLws
    | HeaderValueStart | HeaderValue | HeaderValueLws | HeaderAlmostDone
    | ChunkPart(chunk: ChunkState)
    | HeadersAlmostDone | HeadersDone
    | BodyIdentity | BodyIdentityEof
    | MessageDone

  datatype StatusState =
    | StartRes | ResH | ResHT | ResHTT | ResHTTP
    | ResFirstHttpMajor | ResHttpMajor | ResFirstHttpMinor | ResHttpMinor
    | ResFirstStatusCode | ResStatusCode | ResStatusStart | ResStatus | ResLineAlmostDone

  datatype UrlState =
    | ReqSchema | ReqSchemaSlash | ReqSchemaSlashSlash | ReqServerStart | ReqServer | ReqServerWithAt
    | ReqPath | ReqQueryStringStart | ReqQueryString | ReqFragmentStart | ReqFragment

  datatype VersionState =
    | ReqHttpStart | ReqHttpH | ReqHttpHT | ReqHttpHTT | ReqHttpHTTP
    | ReqFirstHttpMajor | ReqHttpMajor | ReqFirstHttpMinor | ReqHttpMinor | ReqLineAlmostDone

  datatype ChunkState =
    | ChunkSizeStart | ChunkSize | ChunkParameters | ChunkSizeAlmostDone
    | ChunkData | ChunkDataAlmostDone | ChunkDataDone

  // Header states: those of a name being matched, those of a value, and the two that are both.
  datatype HeaderState =
    | General
    | HContentLength
    | Name(n: NameState)
    | Val(v: ValueState)

  datatype NameState =
    | C | CO | CON
    | MatchingConnection | MatchingProxyConnection | MatchingContentLength | MatchingTransferEncoding | MatchingUpgrade
    | HConnection | HTransferEncoding | HUpgrade

  datatype ValueState =
    | MatchingChunked | TokenStart | MatchingKeepAlive | MatchingClose | MatchingConnectionUpgrade | MatchingToken
    | HChunked | HKeepAlive | HClose | HConnectionUpgrade

  datatype Method =
    | DELETE | GET | HEAD | POST | PUT | CONNECT | OPTIONS | TRACE
    | COPY | LOCK | MKCOL | MOVE | PROPFIND | PROPPATCH | SEARCH | UNLOCK
    | REPORT | MKACTIVITY | CHECKOUT | MERGE
    | MSEARCH | NOTIFY | SUBSCRIBE | UNSUBSCRIBE
    | PATCH | PURGE | MKCALENDAR

  function MethodName(m: Method): string {
    match m
    case DELETE => "DELETE" case GET => "GET" case HEAD => "HEAD" case POST => "POST" case PUT => "PUT"
    case CONNECT => "CONNECT" case OPTIONS => "OPTIONS" case TRACE => "TRACE"
    case COPY => "COPY" case LOCK => "LOCK" case MKCOL => "MKCOL" case MOVE => "MOVE"
    case PROPFIND => "PROPFIND" case PROPPATCH => "PROPPATCH" case SEARCH => "SEARCH" case UNLOCK => "UNLOCK"
    case REPORT => "REPORT" case MKACTIVITY => "MKACTIVITY" case CHECKOUT => "CHECKOUT" case MERGE => "MERGE"
    case MSEARCH => "M-SEARCH" case NOTIFY => "NOTIFY" case SUBSCRIBE => "SUBSCRIBE" case UNSUBSCRIBE => "UNSUBSCRIBE"
    case PATCH => "PATCH" case PURGE => "PURGE" case MKCALENDAR => "MKCALENDAR"
  }

  datatype ParserType = Request | Response | Both

  datatype Flags = Flags(chunked: bool, keepAlive: bool, close: bool, connUpgrade: bool, trailing: bool, upgrade: bool,
                         skipBody: bool)

  const NO_FLAGS := Flags(false, false, false, false, false, false, false)

  datatype Errno =
    | Ok
    | CallbackFailed(ev: Event)
    | InvalidEofState | HeaderOverflow | ClosedConnection | InvalidVersion | InvalidStatus | InvalidMethod | InvalidUrl
    | LfExpected | InvalidHeaderToken | InvalidContentLength | InvalidChunkSize | InvalidConstant | Strict | Paused

  // The kinds of data callbacks.
  datatype Kind = Url | Status | Field | Value | Body

  datatype Event =
    | Data(kind: Kind, bytes: string)
    | Begin
    | HeadersComplete
    | Complete
    | ChunkHeader
    | ChunkComplete

  // The struct http_parser but for `nread` and `http_errno`, which the buffer loop alone handles.
  datatype Regs = Regs(
    kind: ParserType, flags: Flags, state: State, hstate: HeaderState, index: nat,
    length: nat, major: nat, minor: nat, status: nat, method_: Method, upgrade: bool)

  function InitRegs(t: ParserType): Regs {
    Regs(t, NO_FLAGS, if t == Request then StartReq else if t == Response then StatusLine(StartRes) else StartReqOrRes,
         General, 0, 0, 0, 0, 0, DELETE, false)
  }

  // States up to s_headers_done in the enumeration order: their bytes count as header bytes.
  predicate ParsingHeader(s: State) {
    match s
    case ChunkPart(c) => !(c.ChunkData? || c.ChunkDataAlmostDone? || c.ChunkDataDone?)
    case _ => !(s.BodyIdentity? || s.BodyIdentityEof? || s.MessageDone?)
  }

  /** Does the end of the message need an end of file? */
  predicate NeedsEof(r: Regs) {
    if r.kind == Request then false
    else if r.status / 100 == 1 || r.status == 204 || r.status == 304 || r.flags.skipBody then false
    else if r.flags.chunked || r.length != NO_LENGTH then false
    else true
  }

  predicate ShouldKeepAlive(r: Regs) {
    if r.major > 0 && r.minor > 0 then !r.flags.close && !NeedsEof(r)
    else r.flags.keepAlive && !NeedsEof(r)
  }

  function StartState(r: Regs): State {
    if r.kind == Request then StartReq else StatusLine(StartRes)
  }

  function NewMessage(r: Regs): State {
    if ShouldKeepAlive(r) then StartState(r) else Dead
  }
}
