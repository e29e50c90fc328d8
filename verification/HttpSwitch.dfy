/**
 The transition of http_parser_execute on one byte in one state: the body of its switch, with the
 inner loops of s_header_field, s_header_value, s_body_identity and s_chunk_data cut down to a
 single byte. The buffer loop around it, with marks, callbacks and fast paths, is in HttpParser.
 */
module HttpSwitch {
  import opened Bytes
  import opened HttpTypes

  datatype Option<T> = None | Some(value: T)

  // What a transition does besides changing registers: nothing, add the byte to a data run, end a
  // data run, report an empty run, or make a notification callback.
  datatype Effect = Quiet | Byte(k: Kind) | Flush(k: Kind) | Empty(k: Kind) | Note(ev: Event)

  // Consume the byte, look at it again in the new state, or consume it and return to the caller.
  datatype Go = Advance | Again | Leave

  // Fatal stands for a failed assert() or a read outside a matcher string.
  datatype Out = Move(r: Regs, eff: Effect, go: Go) | Fail(e: Errno) | Fatal

  // Bounds how often a byte is looked at again.
  function Rank(s: State): nat {
    match s
    case HeaderValueLws => 4
    case HeaderValueDiscardLws => 4
    case HeaderFieldStart => 3
    case HeadersAlmostDone => 2
    case HeaderValue => 1
    case StartReqOrRes => 1
    case BodyIdentity => 1
    case _ => 0
  }

  // Errors in the input, as opposed to those of the caller, the callbacks or the size limit.
  predicate IsParseError(e: Errno) {
    !(e.Ok? || e.Paused? || e.CallbackFailed? || e.HeaderOverflow? || e.InvalidEofState?)
  }

  // A byte is looked at again only in a lower state, the end of the headers is only reported on the
  // way to s_headers_done, chunk sizes start in two places only, the caller
  // gets control back early only at the end of a message, which alone can close the connection, and
  // only the two states that do not
  // know the message type set it.
  predicate Lawful(r: Regs, o: Out) {
    && (o.Fail? ==> IsParseError(o.e))
    && (o.Move? ==>
      && (o.go == Again ==> Rank(o.r.state) < Rank(r.state))
      && (o.go == Leave ==> o.eff == Note(Complete))
      && (o.eff == Note(Complete) ==> o.r.state == NewMessage(r))
      && (o.r.state == Dead ==> r.state == Dead || o.eff == Note(Complete))
      && (o.eff == Note(HeadersComplete) ==> o.r.state == HeadersDone)
      && (o.r.state == ChunkPart(ChunkSizeStart) ==> r.state == HeadersDone || r.state == ChunkPart(ChunkDataDone))
      && (r.state.StartReqOrRes? || r.state.ResOrRespH? || o.r.kind == r.kind))
  }

  // The kind of data a state is in the middle of.
  function LiveKind(s: State): Option<Kind> {
    match s
    case UrlPart(_) => Some(Url)
    case StatusLine(t) => if t.ResStatus? then Some(Status) else None
    case HeaderField => Some(Field)
    case HeaderValue => Some(Value)
    case ChunkPart(t) => if t.ChunkData? || t.ChunkDataAlmostDone? then Some(Body) else None
    case BodyIdentity => Some(Body)
    case BodyIdentityEof => Some(Body)
    case _ => None
  }

  // A data run starts with its first byte, goes on byte by byte, and is over at its flush; the last
  // byte of a body of known length is the one that leaves the run without a flush.
  predicate Tracked(r: Regs, o: Out) {
    o.Move? ==>
      var before, after := LiveKind(r.state), LiveKind(o.r.state);
      match o.eff
      case Byte(k) =>
        (before == None || before == Some(k)) && (r.state.BodyIdentity? || (after == Some(k) && o.go == Advance))
      case Flush(k) => before == Some(k) && after == None
      case Empty(_) => before == None && after == None && o.go == Again
      case Note(e) => !e.Data? && before == None && (after == None || after == Some(Body))
      case Quiet => before == None && (after == None || after == Some(Body))
  }

  function To(r: Regs, s: State): Out {
    Move(r.(state := s), Quiet, Advance)
  }

  function Expect(r: Regs, ok: bool, s: State, e: Errno): Out {
    if ok then To(r, s) else Fail(e)
  }

  // ++index, an 8-bit field
  function Bump(i: nat): nat {
    (i + 1) % 256
  }

  // Reading a C string at an index up to that of its terminator.
  function CharAt(s: string, i: nat): char
    requires i <= |s|
  {
    if i < |s| then s[i] else '\0'
  }

  // The URL state after `ch`, if there is one; `None` for s is s_req_spaces_before_url.
  function ParseUrlChar(s: Option<UrlState>, ch: char): Option<UrlState> {
    if ch == ' ' || ch == CR || ch == LF || ch == '\t' || ch == '\U{000C}' then None
    else match s
      case None =>
        if ch == '/' || ch == '*' then Some(ReqPath) else if IsAlpha(ch) then Some(ReqSchema) else None
      case Some(ReqSchema) => if IsAlpha(ch) then s else if ch == ':' then Some(ReqSchemaSlash) else None
      case Some(ReqSchemaSlash) => if ch == '/' then Some(ReqSchemaSlashSlash) else None
      case Some(ReqSchemaSlashSlash) => if ch == '/' then Some(ReqServerStart) else None
      case Some(ReqServerWithAt) => if ch == '@' then None else ServerChar(ch)
      case Some(ReqServerStart) => ServerChar(ch)
      case Some(ReqServer) => ServerChar(ch)
      case Some(ReqPath) =>
        if IsUrlChar(ch) then s
        else if ch == '?' then Some(ReqQueryStringStart)
        else if ch == '#' then Some(ReqFragmentStart)
        else None
      case Some(ReqQueryStringStart) => QueryChar(ch)
      case Some(ReqQueryString) => QueryChar(ch)
      case Some(ReqFragmentStart) =>
        if IsUrlChar(ch) || ch == '?' then Some(ReqFragment) else if ch == '#' then s else None
      case Some(ReqFragment) => if IsUrlChar(ch) || ch == '?' || ch == '#' then s else None
  }

  function ServerChar(ch: char): Option<UrlState> {
    if ch == '/' then Some(ReqPath)
    else if ch == '?' then Some(ReqQueryStringStart)
    else if ch == '@' then Some(ReqServerWithAt)
    else if IsUserinfoChar(ch) || ch == '[' || ch == ']' then Some(ReqServer)
    else None
  }

  function QueryChar(ch: char): Option<UrlState> {
    if IsUrlChar(ch) || ch == '?' then Some(ReqQueryString) else if ch == '#' then Some(ReqFragmentStart) else None
  }

  function Switch(r: Regs, ch: char): (o: Out)
    ensures Lawful(r, o) && Tracked(r, o)
  {
    match r.state
    case Dead => Expect(r, ch == CR || ch == LF, Dead, ClosedConnection)
    case StartReqOrRes => EitherSwitch(r, ch)
    case ResOrRespH => EitherSwitch(r, ch)
    case StatusLine(s) => StatusSwitch(r, s, ch)
    case StartReq => MethodStart(r, ch)
    case ReqMethod => MethodByte(r, ch)
    case ReqSpacesBeforeUrl =>
      if ch == ' ' then To(r, ReqSpacesBeforeUrl)
      else UrlByte(r, if r.method_ == CONNECT then Some(ReqServerStart) else None, ch)
    case UrlPart(u) => UrlSwitch(r, u, ch)
    case VersionPart(v) => VersionSwitch(r, v, ch)
    case HeaderFieldStart => FieldStart(r, ch)
    case HeaderField => FieldByte(r, ch)
    case ChunkPart(c) => ChunkSwitch(r, c, ch)
    case HeadersAlmostDone => BodySwitch(r, ch)
    case HeadersDone => BodySwitch(r, ch)
    case BodyIdentity => BodySwitch(r, ch)
    case BodyIdentityEof => BodySwitch(r, ch)
    case MessageDone => BodySwitch(r, ch)
    case _ => ValueSwitch(r, ch)
  }

  function EitherSwitch(r: Regs, ch: char): (o: Out)
    requires r.state.StartReqOrRes? || r.state.ResOrRespH?
    ensures Lawful(r, o) && Tracked(r, o)
  {
    if r.state.StartReqOrRes? then
      if ch == CR || ch == LF then To(r, StartReqOrRes)
      else
        var r := r.(flags := NO_FLAGS, length := NO_LENGTH);
        if ch == 'H' then Move(r.(state := ResOrRespH), Note(Begin), Advance)
        else Move(r.(kind := Request, state := StartReq), Quiet, Again)
    else if ch == 'T' then To(r.(kind := Response), StatusLine(ResHT))
    else if ch == 'E' then To(r.(kind := Request, method_ := HEAD, index := 2), ReqMethod)
    else Fail(InvalidConstant)
  }

  function StatusSwitch(r: Regs, s: StatusState, ch: char): (o: Out)
    requires r.state == StatusLine(s)
    ensures Lawful(r, o) && Tracked(r, o)
  {
    match s
    case StartRes =>
      var r := r.(flags := NO_FLAGS, length := NO_LENGTH);
      if ch == 'H' then Move(r.(state := StatusLine(ResH)), Note(Begin), Advance)
      else if ch == CR || ch == LF then Move(r, Note(Begin), Advance)
      else Fail(InvalidConstant)
    case ResH => Expect(r, ch == 'T', StatusLine(ResHT), Strict)
    case ResHT => Expect(r, ch == 'T', StatusLine(ResHTT), Strict)
    case ResHTT => Expect(r, ch == 'P', StatusLine(ResHTTP), Strict)
    case ResHTTP => Expect(r, ch == '/', StatusLine(ResFirstHttpMajor), Strict)
    case ResFirstHttpMajor =>
      if IsNum(ch) then To(r.(major := Digit(ch)), StatusLine(ResHttpMajor)) else Fail(InvalidVersion)
    case ResHttpMajor =>
      if ch == '.' then To(r, StatusLine(ResFirstHttpMinor))
      else if !IsNum(ch) || r.major * 10 + Digit(ch) > 999 then Fail(InvalidVersion)
      else To(r.(major := r.major * 10 + Digit(ch)), r.state)
    case ResFirstHttpMinor =>
      if IsNum(ch) then To(r.(minor := Digit(ch)), StatusLine(ResHttpMinor)) else Fail(InvalidVersion)
    case ResHttpMinor =>
      if ch == ' ' then To(r, StatusLine(ResFirstStatusCode))
      else if !IsNum(ch) || r.minor * 10 + Digit(ch) > 999 then Fail(InvalidVersion)
      else To(r.(minor := r.minor * 10 + Digit(ch)), r.state)
    case ResFirstStatusCode =>
      if IsNum(ch) then To(r.(status := Digit(ch)), StatusLine(ResStatusCode))
      else Expect(r, ch == ' ', r.state, InvalidStatus)
    case ResStatusCode =>
      if IsNum(ch) then
        var code := r.status * 10 + Digit(ch);
        if code > 999 then Fail(InvalidStatus) else To(r.(status := code), r.state)
      else if ch == ' ' then To(r, StatusLine(ResStatusStart))
      else if ch == CR then To(r, StatusLine(ResLineAlmostDone))
      else Expect(r, ch == LF, HeaderFieldStart, InvalidStatus)
    case ResStatusStart =>
      if ch == CR then To(r, StatusLine(ResLineAlmostDone))
      else if ch == LF then To(r, HeaderFieldStart)
      else Move(r.(state := StatusLine(ResStatus), index := 0), Byte(Status), Advance)
    case ResStatus =>
      if ch == CR then Move(r.(state := StatusLine(ResLineAlmostDone)), Flush(Status), Advance)
      else if ch == LF then Move(r.(state := HeaderFieldStart), Flush(Status), Advance)
      else Move(r, Byte(Status), Advance)
    case ResLineAlmostDone => Expect(r, ch == LF, HeaderFieldStart, Strict)
  }

  // The first guess from a method's first letter.
  function FirstMethod(ch: char): Method {
    if ch == 'C' then CONNECT
    else if ch == 'D' then DELETE
    else if ch == 'G' then GET
    else if ch == 'H' then HEAD
    else if ch == 'L' then LOCK
    else if ch == 'M' then MKCOL
    else if ch == 'N' then NOTIFY
    else if ch == 'O' then OPTIONS
    else if ch == 'P' then POST
    else if ch == 'R' then REPORT
    else if ch == 'S' then SUBSCRIBE
    else if ch == 'T' then TRACE
    else UNLOCK
  }

  predicate StartsMethod(ch: char) {
    ch == 'C' || ch == 'D' || ch == 'G' || ch == 'H' || ch == 'L' || ch == 'M' || ch == 'N' || ch == 'O' ||
    ch == 'P' || ch == 'R' || ch == 'S' || ch == 'T' || ch == 'U'
  }

  // The guess after a byte `ch` at position `i` that is not the one the current guess has there;
  // the current guess itself stands for "no such method".
  function Reguess(m: Method, i: nat, ch: char): Method {
    if m == CONNECT then
      if i == 1 && ch == 'H' then CHECKOUT else if i == 2 && ch == 'P' then COPY else m
    else if m == MKCOL then
      if i == 1 && ch == 'O' then MOVE
      else if i == 1 && ch == 'E' then MERGE
      else if i == 1 && ch == '-' then MSEARCH
      else if i == 2 && ch == 'A' then MKACTIVITY
      else if i == 3 && ch == 'A' then MKCALENDAR
      else m
    else if m == SUBSCRIBE then
      if i == 1 && ch == 'E' then SEARCH else m
    else if i == 1 && m == POST then
      if ch == 'R' then PROPFIND else if ch == 'U' then PUT else if ch == 'A' then PATCH else m
    else if i == 2 then
      if m == PUT && ch == 'R' then PURGE else if m == UNLOCK && ch == 'S' then UNSUBSCRIBE else m
    else if i == 4 && m == PROPFIND && ch == 'P' then PROPPATCH
    else m
  }

  function MethodStart(r: Regs, ch: char): (o: Out)
    requires r.state.StartReq?
    ensures Lawful(r, o) && Tracked(r, o)
  {
    if ch == CR || ch == LF then To(r, StartReq)
    else if !IsAlpha(ch) || !StartsMethod(ch) then Fail(InvalidMethod)
    else
      Move(r.(flags := NO_FLAGS, length := NO_LENGTH, method_ := FirstMethod(ch), index := 1, state := ReqMethod),
           Note(Begin), Advance)
  }

  function MethodByte(r: Regs, ch: char): (o: Out)
    requires r.state.ReqMethod?
    ensures Lawful(r, o) && Tracked(r, o)
  {
    if ch == '\0' then Fail(InvalidMethod)
    else if r.index > |MethodName(r.method_)| then Fatal
    else
      var expected := CharAt(MethodName(r.method_), r.index);
      var r' := r.(index := Bump(r.index));
      if ch == ' ' && expected == '\0' then To(r', ReqSpacesBeforeUrl)
      else if ch == expected then To(r', ReqMethod)
      else
        var m := Reguess(r.method_, r.index, ch);
        if m == r.method_ then Fail(InvalidMethod) else To(r'.(method_ := m), ReqMethod)
  }

  function UrlSwitch(r: Regs, u: UrlState, ch: char): (o: Out)
    requires r.state == UrlPart(u)
    ensures Lawful(r, o) && Tracked(r, o)
  {
    if u.ReqSchema? || u.ReqSchemaSlash? || u.ReqSchemaSlashSlash? || u.ReqServerStart? then
      UrlByte(r, Some(u), ch)
    else if ch == ' ' then Move(r.(state := VersionPart(ReqHttpStart)), Flush(Url), Advance)
    else if ch == CR then Move(r.(major := 0, minor := 9, state := VersionPart(ReqLineAlmostDone)), Flush(Url), Advance)
    else if ch == LF then Move(r.(major := 0, minor := 9, state := HeaderFieldStart), Flush(Url), Advance)
    else UrlByte(r, Some(u), ch)
  }

  function UrlByte(r: Regs, s: Option<UrlState>, ch: char): Out {
    match ParseUrlChar(s, ch)
    case None => Fail(InvalidUrl)
    case Some(next) => Move(r.(state := UrlPart(next)), Byte(Url), Advance)
  }

  function VersionSwitch(r: Regs, v: VersionState, ch: char): (o: Out)
    requires r.state == VersionPart(v)
    ensures Lawful(r, o) && Tracked(r, o)
  {
    match v
    case ReqHttpStart =>
      if ch == 'H' then To(r, VersionPart(ReqHttpH)) else Expect(r, ch == ' ', r.state, InvalidConstant)
    case ReqHttpH => Expect(r, ch == 'T', VersionPart(ReqHttpHT), Strict)
    case ReqHttpHT => Expect(r, ch == 'T', VersionPart(ReqHttpHTT), Strict)
    case ReqHttpHTT => Expect(r, ch == 'P', VersionPart(ReqHttpHTTP), Strict)
    case ReqHttpHTTP => Expect(r, ch == '/', VersionPart(ReqFirstHttpMajor), Strict)
    case ReqFirstHttpMajor =>
      if '1' <= ch <= '9' then To(r.(major := Digit(ch)), VersionPart(ReqHttpMajor)) else Fail(InvalidVersion)
    case ReqHttpMajor =>
      if ch == '.' then To(r, VersionPart(ReqFirstHttpMinor))
      else if !IsNum(ch) || r.major * 10 + Digit(ch) > 999 then Fail(InvalidVersion)
      else To(r.(major := r.major * 10 + Digit(ch)), r.state)
    case ReqFirstHttpMinor =>
      if IsNum(ch) then To(r.(minor := Digit(ch)), VersionPart(ReqHttpMinor)) else Fail(InvalidVersion)
    case ReqHttpMinor =>
      if ch == CR then To(r, VersionPart(ReqLineAlmostDone))
      else if ch == LF then To(r, HeaderFieldStart)
      else if !IsNum(ch) || r.minor * 10 + Digit(ch) > 999 then Fail(InvalidVersion)
      else To(r.(minor := r.minor * 10 + Digit(ch)), r.state)
    case ReqLineAlmostDone => Expect(r, ch == LF, HeaderFieldStart, LfExpected)
  }

  const CONNECTION := "connection"
  const PROXY_CONNECTION := "proxy-connection"
  const CONTENT_LENGTH := "content-length"
  const TRANSFER_ENCODING := "transfer-encoding"
  const UPGRADE := "upgrade"
  const CHUNKED := "chunked"
  const KEEP_ALIVE := "keep-alive"
  const CLOSE := "close"

  // One step of matching `word`; `i` is the index already moved on to the byte `c`.
  function MatchWord(word: string, i: nat, c: char, on: HeaderState, done: HeaderState, miss: HeaderState)
    : (h: HeaderState)
    ensures h == on || h == done || h == miss
  {
    if i > |word| || c != CharAt(word, i) then miss else if i == |word| - 1 then done else on
  }

  // The header state after the first token byte of a name, in lower case.
  function FirstFieldState(c: char): HeaderState {
    if c == 'c' then Name(C)
    else if c == 'p' then Name(MatchingProxyConnection)
    else if c == 't' then Name(MatchingTransferEncoding)
    else if c == 'u' then Name(MatchingUpgrade)
    else General
  }

  // One further byte `c` of a name, in lower case: the header state and the index.
  function NameStep(n: NameState, index: nat, c: char): (HeaderState, nat) {
    var i := Bump(index);
    var h := Name(n);
    match n
    case C => (if c == 'o' then Name(CO) else General, i)
    case CO => (if c == 'n' then Name(CON) else General, i)
    case CON =>
      (if c == 'n' then Name(MatchingConnection) else if c == 't' then Name(MatchingContentLength) else General, i)
    case MatchingConnection => (MatchWord(CONNECTION, i, c, h, Name(HConnection), General), i)
    case MatchingProxyConnection => (MatchWord(PROXY_CONNECTION, i, c, h, Name(HConnection), General), i)
    case MatchingContentLength => (MatchWord(CONTENT_LENGTH, i, c, h, HContentLength, General), i)
    case MatchingTransferEncoding => (MatchWord(TRANSFER_ENCODING, i, c, h, Name(HTransferEncoding), General), i)
    case MatchingUpgrade => (MatchWord(UPGRADE, i, c, h, Name(HUpgrade), General), i)
    case _ => (if c == ' ' then h else General, index)
  }

  // s_header_field_start
  function FieldStart(r: Regs, ch: char): (o: Out)
    requires r.state.HeaderFieldStart?
    ensures Lawful(r, o) && Tracked(r, o)
  {
    if ch == CR then To(r, HeadersAlmostDone)
    else if ch == LF then Move(r.(state := HeadersAlmostDone), Quiet, Again)
    else if !IsToken(ch) then Fail(InvalidHeaderToken)
    else Move(r.(index := 0, state := HeaderField, hstate := FirstFieldState(Token(ch))), Byte(Field), Advance)
  }

  // A token byte in s_header_field; a value's header state there fails an assert().
  function FieldToken(h: HeaderState, index: nat, c: char): Option<(HeaderState, nat)> {
    match h
    case General => Some((h, index))
    case HContentLength => Some((if c == ' ' then h else General, index))
    case Name(n) => Some(NameStep(n, index, c))
    case Val(_) => None
  }

  // s_header_field
  function FieldByte(r: Regs, ch: char): (o: Out)
    requires r.state.HeaderField?
    ensures Lawful(r, o) && Tracked(r, o)
  {
    if IsToken(ch) then
      match FieldToken(r.hstate, r.index, Token(ch))
      case None => Fatal
      case Some((h, i)) => Move(r.(hstate := h, index := i), Byte(Field), Advance)
    else if ch == ':' then Move(r.(state := HeaderValueDiscardWs), Flush(Field), Advance)
    else Fail(InvalidHeaderToken)
  }

  // The flags a finished header value sets.
  function ValueFlags(f: Flags, h: HeaderState): (f': Flags)
    ensures f'.trailing == f.trailing && (f.chunked ==> f'.chunked)
  {
    match h
    case Val(HKeepAlive) => f.(keepAlive := true)
    case Val(HClose) => f.(close := true)
    case Val(HChunked) => f.(chunked := true)
    case Val(HConnectionUpgrade) => f.(connUpgrade := true)
    case _ => f
  }

  function ConnectionToken(c: char, other: HeaderState): HeaderState {
    if c == 'k' then Val(MatchingKeepAlive)
    else if c == 'c' then Val(MatchingClose)
    else if c == 'u' then Val(MatchingConnectionUpgrade)
    else other
  }

  predicate StaysInValue(r: Regs, o: Out) {
    o.Move? ==> o.go == Advance && o.eff == Byte(Value) && o.r.state == HeaderValue && o.r.kind == r.kind &&
                o.r.flags.trailing == r.flags.trailing && o.r.flags.chunked == r.flags.chunked
  }

  // s_header_value_start
  function ValueStart(r: Regs, ch: char): (o: Out)
    ensures StaysInValue(r, o) && (o.Fail? ==> IsParseError(o.e))
  {
    var c := Lower(ch);
    var r := r.(state := HeaderValue, index := 0);
    match r.hstate
    case Name(HUpgrade) => Move(r.(flags := r.flags.(upgrade := true), hstate := General), Byte(Value), Advance)
    case Name(HTransferEncoding) =>
      Move(r.(hstate := if c == 'c' then Val(MatchingChunked) else General), Byte(Value), Advance)
    case HContentLength =>
      if IsNum(ch) then Move(r.(length := Digit(ch)), Byte(Value), Advance) else Fail(InvalidContentLength)
    case Name(HConnection) => Move(r.(hstate := ConnectionToken(c, Val(MatchingToken))), Byte(Value), Advance)
    case Val(TokenStart) => Move(r, Byte(Value), Advance)
    case _ => Move(r.(hstate := General), Byte(Value), Advance)
  }

  // A byte `ch` of a value other than CR and LF, in a header state of values.
  function ValStep(f: Flags, v: ValueState, index: nat, ch: char): (t: (Flags, HeaderState, nat))
    ensures t.0.trailing == f.trailing && t.0.chunked == f.chunked
  {
    var c := Lower(ch);
    var i := Bump(index);
    var h := Val(v);
    match v
    case MatchingChunked => (f, MatchWord(CHUNKED, i, c, h, Val(HChunked), General), i)
    case TokenStart =>
      var other := if IsToken(c) then Val(MatchingToken) else if c == ' ' || c == '\t' then h else General;
      (f, ConnectionToken(c, other), index)
    case MatchingKeepAlive => (f, MatchWord(KEEP_ALIVE, i, c, h, Val(HKeepAlive), Val(MatchingToken)), i)
    case MatchingClose => (f, MatchWord(CLOSE, i, c, h, Val(HClose), Val(MatchingToken)), i)
    case MatchingConnectionUpgrade => (f, MatchWord(UPGRADE, i, c, h, Val(HConnectionUpgrade), Val(MatchingToken)), i)
    case MatchingToken => if ch == ',' then (f, Val(TokenStart), 0) else (f, h, index)
    case HChunked => (f, if ch == ' ' then h else General, index)
    case _ =>
      if ch == ',' then (ValueFlags(f, h), Val(TokenStart), 0)
      else (f, if ch == ' ' then h else Val(MatchingToken), index)
  }

  // A byte of a value other than CR and LF.
  function ValueByte(r: Regs, ch: char): (o: Out)
    ensures r.state.HeaderValue? ==> StaysInValue(r, o)
    ensures o.Fail? ==> o.e == InvalidContentLength
  {
    match r.hstate
    case General => Move(r, Byte(Value), Advance)
    case HContentLength =>
      if ch == ' ' then Move(r, Byte(Value), Advance)
      else if !IsNum(ch) || (NO_LENGTH - 10) / 10 < r.length then Fail(InvalidContentLength)
      else Move(r.(length := (r.length * 10 + Digit(ch)) % TWO_TO_THE_64), Byte(Value), Advance)
    case Name(n) =>
      if n.HConnection? || n.HTransferEncoding? then Fatal else Move(r.(hstate := General), Byte(Value), Advance)
    case Val(v) =>
      var (f, h, i) := ValStep(r.flags, v, r.index, ch);
      Move(r.(flags := f, hstate := h, index := i), Byte(Value), Advance)
  }

  function ValueSwitch(r: Regs, ch: char): (o: Out)
    ensures Lawful(r, o) && Tracked(r, o)
  {
    match r.state
    case HeaderValueDiscardWs =>
      if ch == ' ' || ch == '\t' then To(r, HeaderValueDiscardWs)
      else if ch == CR then To(r, HeaderValueDiscardWsAlmostDone)
      else if ch == LF then To(r, HeaderValueDiscardLws)
      else ValueStart(r, ch)
    case HeaderValueStart => ValueStart(r, ch)
    case HeaderValue =>
      if ch == CR then Move(r.(state := HeaderAlmostDone), Flush(Value), Advance)
      else if ch == LF then Move(r.(state := HeaderAlmostDone), Flush(Value), Again)
      else ValueByte(r, ch)
    case HeaderAlmostDone => Expect(r, ch == LF, HeaderValueLws, Strict)
    case HeaderValueLws =>
      if ch == ' ' || ch == '\t' then Move(r.(state := HeaderValueStart), Quiet, Again)
      else Move(r.(state := HeaderFieldStart, flags := ValueFlags(r.flags, r.hstate)), Quiet, Again)
    case HeaderValueDiscardWsAlmostDone => Expect(r, ch == LF, HeaderValueDiscardLws, Strict)
    case HeaderValueDiscardLws =>
      if ch == ' ' || ch == '\t' then To(r, HeaderValueDiscardWs)
      else Move(r.(state := HeaderFieldStart, flags := ValueFlags(r.flags, r.hstate)), Empty(Value), Again)
    case _ => Fatal
  }

  predicate HasBody(r: Regs) {
    r.flags.chunked || (r.length > 0 && r.length != NO_LENGTH)
  }

  function BodySwitch(r: Regs, ch: char): (o: Out)
    ensures Lawful(r, o) && Tracked(r, o)
  {
    match r.state
    case HeadersAlmostDone =>
      if ch != LF then Fail(Strict)
      else if r.flags.trailing then Move(r.(state := MessageDone), Note(ChunkComplete), Again)
      else
        Move(r.(state := HeadersDone, upgrade := (r.flags.upgrade && r.flags.connUpgrade) || r.method_ == CONNECT),
             Note(HeadersComplete), Again)
    case HeadersDone =>
      var done := r.(state := NewMessage(r));
      if ch != LF then Fail(Strict)
      else if r.upgrade && (r.method_ == CONNECT || r.flags.skipBody || !HasBody(r)) then
        Move(done, Note(Complete), Leave)
      else if r.flags.skipBody then Move(done, Note(Complete), Advance)
      else if r.flags.chunked then To(r, ChunkPart(ChunkSizeStart))
      else if r.length == 0 then Move(done, Note(Complete), Advance)
      else if r.length != NO_LENGTH then To(r, BodyIdentity)
      else if !NeedsEof(r) then Move(done, Note(Complete), Advance)
      else To(r, BodyIdentityEof)
    case BodyIdentity =>
      if r.length == 0 || r.length == NO_LENGTH then Fatal
      else if r.length == 1 then Move(r.(length := 0, state := MessageDone), Byte(Body), Again)
      else Move(r.(length := r.length - 1), Byte(Body), Advance)
    case BodyIdentityEof => Move(r, Byte(Body), Advance)
    case MessageDone => Move(r.(state := NewMessage(r)), Note(Complete), if r.upgrade then Leave else Advance)
    case _ => Fatal
  }

  function ChunkSwitch(r: Regs, s: ChunkState, ch: char): (o: Out)
    requires r.state == ChunkPart(s)
    ensures Lawful(r, o) && Tracked(r, o)
  {
    if !r.flags.chunked then Fatal
    else match s
      case ChunkSizeStart =>
        if Unhex(ch) == -1 then Fail(InvalidChunkSize) else To(r.(length := Unhex(ch)), ChunkPart(ChunkSize))
      case ChunkSize =>
        if ch == CR then To(r, ChunkPart(ChunkSizeAlmostDone))
        else if Unhex(ch) == -1 then Expect(r, ch == ';' || ch == ' ', ChunkPart(ChunkParameters), InvalidChunkSize)
        else if (NO_LENGTH - 16) / 16 < r.length then Fail(InvalidContentLength)
        else To(r.(length := (r.length * 16 + Unhex(ch)) % TWO_TO_THE_64), r.state)
      case ChunkParameters => if ch == CR then To(r, ChunkPart(ChunkSizeAlmostDone)) else To(r, r.state)
      case ChunkSizeAlmostDone =>
        if ch != LF then Fail(Strict)
        else if r.length == 0 then
          Move(r.(flags := r.flags.(trailing := true), state := HeaderFieldStart), Note(ChunkHeader), Advance)
        else Move(r.(state := ChunkPart(ChunkData)), Note(ChunkHeader), Advance)
      case ChunkData =>
        if r.length == 0 || r.length == NO_LENGTH then Fatal
        else
          Move(r.(length := r.length - 1, state := if r.length == 1 then ChunkPart(ChunkDataAlmostDone) else r.state),
               Byte(Body), Advance)
      case ChunkDataAlmostDone =>
        if r.length != 0 then Fatal
        else if ch != CR then Fail(Strict)
        else Move(r.(state := ChunkPart(ChunkDataDone)), Flush(Body), Advance)
      case ChunkDataDone =>
        if ch != LF then Fail(Strict)
        else Move(r.(state := ChunkPart(ChunkSizeStart)), Note(ChunkComplete), Advance)
  }
}
