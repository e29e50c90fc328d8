/** Whole messages: requests and responses, in any writing the parser takes, with any body their head announces. */
module HttpMessages {
  import opened Bytes
  import opened HttpTypes
  import opened HttpSwitch
  import opened HttpRun
  import opened HttpHeaders
  import opened HttpLengths
  import opened HttpOptions
  import opened HttpLines
  import opened HttpFraming
  import opened HttpStart
  import opened HttpChunked

  // ---------- Heads ----------

  datatype Start = Asks(request: RequestStart) | Answers(response: ResponseStart)

  datatype MessageHead = MessageHead(start: Start, lines: seq<Line>, end: string)

  function StartText(s: Start): string {
    match s case Asks(q) => RequestText(q) case Answers(a) => ResponseText(a)
  }

  function StartLog(s: Start): seq<Event> {
    match s case Asks(q) => [Begin, Data(Url, q.target)] case Answers(a) => [Begin] + ReasonLog(a.reason)
  }

  // A first line without an error in it.
  predicate GoodStart(s: Start) {
    match s
    case Asks(q) => IsRequestStart(q) && IsTarget(q.m, q.target) && (q.version.Some? ==> Taken(true, q.version.value))
    case Answers(a) => IsResponseStart(a) && Small(a.version) && Decimal(0, a.code) <= MAX_NUMBER
  }

  predicate GoodHead(h: MessageHead) {
    GoodStart(h.start) && (forall l :: l in h.lines ==> Clean(l)) && IsLineEnd(h.end)
  }

  function HeadText(h: MessageHead): string {
    StartText(h.start) + (LinesText(h.lines) + h.end)
  }

  function HeadEvents(h: MessageHead): seq<Event> {
    StartLog(h.start) + HeaderLog(HeadersOf(h.lines)) + [HeadersComplete]
  }

  // What the text of a head says.
  function HeadFacts(h: MessageHead): Facts {
    var hs := HeadersOf(h.lines);
    var n, options := LengthAfter(NO_LENGTH, hs), HeaderOptions(hs);
    var length := if n == NO_LENGTH then None else Some(n);
    var switching := SaysUpgrade(hs) && Upgrading in options;
    match h.start
    case Asks(q) =>
      var (major, minor) := match q.version case None => (0, 9) case Some(v) => (Decimal(0, v.major), Decimal(0, v.minor));
      Facts(true, q.m == CONNECT, 0, major, minor, SaysChunked(hs), length, switching, Close in options, KeepAlive in options)
    case Answers(a) =>
      Facts(false, false, Decimal(0, a.code), Decimal(0, a.version.major), Decimal(0, a.version.minor), SaysChunked(hs),
            length, switching, Close in options, KeepAlive in options)
  }

  // A parser that waits for a message of this kind.
  predicate Awaits(c: Conf, s: Start) {
    && c.hdr <= c.peak
    && match s
       case Asks(_) => c.r.kind == Request && c.r.state == StartReq
       case Answers(_) => c.r.kind == Response && c.r.state == StatusLine(StartRes) && c.r.method_ != CONNECT
  }

  // What is known of the registers after a first line.
  predicate Started(r: Regs, r': Regs, s: Start) {
    && r'.state == HeaderFieldStart && r'.flags == NO_FLAGS && r'.length == NO_LENGTH && r'.kind == r.kind
    && match s
       case Asks(q) =>
         r'.method_ == q.m &&
         (match q.version
          case None => r'.major == 0 && r'.minor == 9
          case Some(v) => r'.major == Decimal(0, v.major) && r'.minor == Decimal(0, v.minor))
       case Answers(a) =>
         r'.method_ == r.method_ && r'.status == Decimal(0, a.code) &&
         r'.major == Decimal(0, a.version.major) && r'.minor == Decimal(0, a.version.minor)
  }

  lemma StartRun(skip: Skip, c: Conf, s: Start, rest: string) returns (c': Conf)
    requires Awaits(c, s) && GoodStart(s)
    ensures LeadsTo(skip, c, StartText(s) + rest, c', rest)
    ensures Started(c.r, c'.r, s) && AtHeader(c')
    ensures c' == Spent(c, c'.r, c.log + StartLog(s), |StartText(s)|)
  {
    hide Run, RequestText, ResponseText, Decimal, IsTarget, IsRequestStart, IsResponseStart, ReasonLog, EndsWith;
    NoFieldYet(c.log, s);
    match s
    case Asks(q) =>
      RequestStartRun(skip, c, q, rest);
      c' := Spent(c, Asked(c.r, q), c.log + [Begin, Data(Url, q.target)], |RequestText(q)|);
    case Answers(a) =>
      Regroup(c.log, [Begin], ReasonLog(a.reason));
      c' := ResponseStartRun(skip, c, a, rest);
  }

  lemma NoFieldYet(log: seq<Event>, s: Start)
    ensures !EndsWith(log + StartLog(s), Field)
  {
  }

  lemma FactsOfHead(r: Regs, r1: Regs, r2: Regs, h: MessageHead)
    requires Started(r, r1, h.start) && SameMessage(r1, r2, HeadersOf(h.lines))
    requires match h.start case Asks(_) => r.kind == Request case Answers(_) => r.kind == Response && r.method_ != CONNECT
    ensures FactsOf(r2) == HeadFacts(h) && !r2.flags.trailing && !r2.flags.skipBody
    ensures r2.flags == Told(NO_FLAGS, HeadersOf(h.lines)) && r2.length == LengthAfter(NO_LENGTH, HeadersOf(h.lines))
  {
    hide HeaderOptions, SaysChunked, SaysUpgrade, LengthAfter, Decimal;
  }

  lemma HeadParts(h: MessageHead, rest: string)
    ensures HeadText(h) + rest == StartText(h.start) + (LinesText(h.lines) + (h.end + rest))
    ensures |HeadText(h)| == |StartText(h.start)| + |LinesText(h.lines)| + |h.end|
  {
    hide StartText, LinesText;
  }

  lemma HeadLogs(log: seq<Event>, h: MessageHead)
    ensures log + StartLog(h.start) + HeaderLog(HeadersOf(h.lines)) + [HeadersComplete] == log + HeadEvents(h)
  {
    hide StartLog, HeaderLog, HeadersOf;
  }

  // What the registers hold of a head after it.
  predicate Holding(r: Regs, h: MessageHead, skipped: bool) {
    var hs := HeadersOf(h.lines);
    && r.flags == Told(NO_FLAGS, hs).(skipBody := skipped) && r.length == LengthAfter(NO_LENGTH, hs)
    && r.upgrade == (HeadFacts(h).switching || HeadFacts(h).connect)
    && r.major == HeadFacts(h).major && r.minor == HeadFacts(h).minor
    && match h.start
       case Asks(q) => r.kind == Request && r.method_ == q.m
       case Answers(a) => r.kind == Response && r.status == Decimal(0, a.code) && r.method_ != CONNECT
  }

  /**
   The head of any message: everything in it is reported, in order, and exactly the body follows that its text
   announces; without one the message is complete.
   */
  lemma HeadRun(skip: Skip, c: Conf, h: MessageHead, rest: string) returns (c': Conf)
    requires Awaits(c, h.start) && GoodHead(h)
    ensures var f, skipped := HeadFacts(h), skip(c.log + HeadEvents(h));
            var b := FramingOf(f, skipped);
            && Run(skip, c, HeadText(h) + rest) == (if b.NoBody? then Over(skip, c', rest) else Run(skip, c', rest))
            && c'.log == c.log + HeadEvents(h) + (if b.NoBody? then [Complete] else [])
            && c'.r.state == BodyState(b, NextState(f, skipped)) && Holding(c'.r, h, skipped)
            && c'.pos == c.pos + |HeadText(h)| && c'.hdr == 0 && c'.peak == Max(c.peak, c.hdr + |HeadText(h)|)
  {
    hide Run, GoodStart, Clean, HeadText, StartText, LinesText, HeadEvents, StartLog, HeaderLog, HeadersOf, EndsWith;
    hide FramingOf, NextState, HeadFacts, Started, Told, LengthAfter, IsLineEnd, Decimal, FactsOf, Over;
    HeadParts(h, rest);
    var c1 := StartRun(skip, c, h.start, LinesText(h.lines) + (h.end + rest));
    EndStarts(h.end, rest);
    var c2 := LinesRun(skip, c1, h.lines, h.end + rest);
    HeadLogs(c.log, h);
    FactsOfHead(c.r, c1.r, c2.r, h);
    HeadEndRun(skip, c2, h.end, rest);
    c' := HeadDone(skip, c2, |h.end|);
    HoldsHead(c.r, c1.r, c2.r, h, skip(c2.log + [HeadersComplete]));
  }

  lemma HoldsHead(r: Regs, r1: Regs, r2: Regs, h: MessageHead, skipped: bool)
    requires Started(r, r1, h.start) && SameMessage(r1, r2, HeadersOf(h.lines)) && FactsOf(r2) == HeadFacts(h)
    requires match h.start case Asks(_) => r.kind == Request case Answers(_) => r.kind == Response && r.method_ != CONNECT
    ensures Holding(Opened(r2, skipped), h, skipped)
  {
    hide HeaderOptions, SaysChunked, SaysUpgrade, LengthAfter, Decimal, FramingOf, NextState;
  }

  // ---------- Bodies ----------

  datatype Content = Whole(bytes: string) | InChunks(body: ChunkedBody)

  // A body as the head announces it.
  predicate Fitting(b: Framing, content: Content) {
    match b
    case NoBody => content == Whole("")
    case Sized(n) => content.Whole? && |content.bytes| == n
    case Chunks => content.InChunks? && GoodBody(content.body)
    case UntilEof => false
  }

  function ContentText(content: Content): string {
    match content case Whole(bytes) => bytes case InChunks(body) => BodyText(body)
  }

  function BodyLog(bytes: string): seq<Event> {
    if bytes == "" then [] else [Data(Body, bytes)]
  }

  function ContentLog(content: Content): seq<Event> {
    match content case Whole(bytes) => BodyLog(bytes) + [Complete] case InChunks(body) => BodyEvents(body)
  }

  // The bytes of the body.
  function ContentBytes(content: Content): string {
    match content case Whole(bytes) => bytes case InChunks(body) => Payload(body.chunks)
  }

  // What the trailer adds to the connection options.
  function WithTrailer(f: Facts, content: Content): Facts {
    match content
    case Whole(_) => f
    case InChunks(body) =>
      var options := HeaderOptions(HeadersOf(body.trailer));
      f.(close := f.close || Close in options, keepAlive := f.keepAlive || KeepAlive in options)
  }

  // The largest header count of a message that begins at the count `hdr`.
  function MessagePeak(peak: nat, hdr: nat, h: MessageHead, content: Content): nat {
    var head := Max(peak, hdr + |HeadText(h)|);
    match content
    case Whole(_) => head
    case InChunks(b) => Max(ChunksPeak(head, b.chunks), Max(|SizeLine(b.zero, b.params)|, |TrailerText(b)|))
  }

  lemma {:induction false} LengthBelow(n: nat, hs: Headers)
    requires forall h :: h in hs ==> CleanLength(h)
    ensures LengthAfter(n, hs) == n || LengthAfter(n, hs) <= MAX_DECIMAL < NO_LENGTH
    decreases |hs|
  {
    hide GivesLength;
    if hs != [] {
      assert CleanLength(hs[0]) && forall h :: h in hs[1..] ==> h in hs;
      LengthBelow(if GivesLength(hs[0]) then Decimal(0, hs[0].1) else n, hs[1..]);
    }
  }

  lemma {:induction false} CleanLengths(ls: seq<Line>)
    requires forall l :: l in ls ==> Clean(l)
    ensures forall h :: h in HeadersOf(ls) ==> CleanLength(h)
    decreases |ls|
  {
    hide HeaderOf, CleanLength, WellWritten;
    if ls != [] {
      assert Clean(ls[0]) && forall l :: l in ls[1..] ==> l in ls;
      CleanLengths(ls[1..]);
    }
  }

  lemma SizedBelow(h: MessageHead, skipped: bool)
    requires GoodHead(h) && FramingOf(HeadFacts(h), skipped).Sized?
    ensures 0 < FramingOf(HeadFacts(h), skipped).n == LengthAfter(NO_LENGTH, HeadersOf(h.lines)) < NO_LENGTH
  {
    hide GoodStart, HeaderOptions, SaysChunked, SaysUpgrade, Decimal, Clean;
    CleanLengths(h.lines);
    LengthBelow(NO_LENGTH, HeadersOf(h.lines));
  }

  lemma FactsHeld(r: Regs, h: MessageHead, skipped: bool)
    requires Holding(r, h, skipped)
    ensures FactsOf(r) == HeadFacts(h) && r.flags.skipBody == skipped
    ensures FramingOf(HeadFacts(h), skipped).Chunks? ==> r.flags.chunked
  {
    hide HeaderOptions, SaysChunked, SaysUpgrade, LengthAfter, Decimal;
  }

  // After a chunked body the connection is as head and trailer say.
  lemma FactsAfter(r: Regs, h: MessageHead, skipped: bool, b: ChunkedBody)
    requires Holding(r, h, skipped) && FramingOf(HeadFacts(h), skipped).Chunks?
    ensures AfterBody(r, HeadersOf(b.trailer)).state == NextState(WithTrailer(HeadFacts(h), InChunks(b)), skipped)
    ensures AfterBody(r, HeadersOf(b.trailer)).upgrade == r.upgrade
  {
    hide HeaderOptions, SaysChunked, SaysUpgrade, LengthAfter, Decimal;
  }

  // What is known of the registers after a message.
  predicate Parsed(r: Regs, h: MessageHead) {
    && r.upgrade == (HeadFacts(h).switching || HeadFacts(h).connect)
    && r.major == HeadFacts(h).major && r.minor == HeadFacts(h).minor
    && match h.start
       case Asks(q) => r.kind == Request && r.method_ == q.m
       case Answers(a) => r.kind == Response && r.status == Decimal(0, a.code) && r.method_ != CONNECT
  }

  lemma NoBodyYet(log: seq<Event>, h: MessageHead)
    ensures !EndsWith(log + HeadEvents(h), Body)
  {
    hide StartLog, HeaderLog;
  }

  // The body of a message, after its head.
  lemma ContentRun(skip: Skip, c: Conf, log: seq<Event>, h: MessageHead, skipped: bool, content: Content, rest: string)
    returns (c': Conf)
    requires GoodHead(h) && Holding(c.r, h, skipped) && c.log == log + HeadEvents(h) && c.hdr == 0
    requires var b := FramingOf(HeadFacts(h), skipped);
             !b.NoBody? && Fitting(b, content) && c.r.state == BodyState(b, NextState(HeadFacts(h), skipped))
    ensures Run(skip, c, ContentText(content) + rest) == Over(skip, c', rest)
    ensures c'.log == c.log + ContentLog(content) && Parsed(c'.r, h)
    ensures c'.r.state == NextState(WithTrailer(HeadFacts(h), content), skipped)
    ensures c'.pos == c.pos + |ContentText(content)| && c'.hdr <= c'.peak
    ensures content.Whole? ==> c'.hdr == 0
    ensures c'.peak == match content case Whole(_) => c.peak case InChunks(b) =>
              Max(ChunksPeak(c.peak, b.chunks), Max(|SizeLine(b.zero, b.params)|, |TrailerText(b)|))
  {
    hide Run, GoodHead, HeadEvents, EndsWith, FramingOf, NextState, HeadFacts, FactsOf, BodyText, BodyEvents, GoodBody;
    hide AfterBody, Told, LengthAfter, Decimal, SizeLine, TrailerText, HeadersOf;
    FactsHeld(c.r, h, skipped);
    NoBodyYet(log, h);
    match content
    case Whole(bytes) =>
      SizedBelow(h, skipped);
      SizedRun(skip, c, bytes, rest);
      c' := c.(r := c.r.(length := 0, state := NextState(FactsOf(c.r), c.r.flags.skipBody)),
               log := c.log + [Data(Body, bytes)] + [Complete], pos := c.pos + |bytes|);
    case InChunks(body) =>
      c' := ChunkedDecodes(skip, c, body, rest);
      FactsAfter(c.r, h, skipped, body);
      SameAfter(c.r, c'.r, HeadersOf(body.trailer));
  }

  lemma SameAfter(r: Regs, r': Regs, trailer: Headers)
    requires r' == AfterBody(r, trailer).(hstate := r'.hstate, index := r'.index)
    ensures r'.upgrade == r.upgrade && r'.major == r.major && r'.minor == r.minor && r'.kind == r.kind
    ensures r'.status == r.status && r'.method_ == r.method_ && r'.state == AfterBody(r, trailer).state
  {
    hide Told, LengthAfter, NextState;
  }

  /**
   A whole message with the body its head announces: head, body and trailer are reported in order, and it is complete,
   once. Then the next message follows if head and trailer let the connection stay open, nothing if they do not, and
   the caller gets what follows if the message switches protocols.
   */
  lemma MessageRun(skip: Skip, c: Conf, h: MessageHead, content: Content, rest: string) returns (c': Conf)
    requires Awaits(c, h.start) && GoodHead(h)
    requires Fitting(FramingOf(HeadFacts(h), skip(c.log + HeadEvents(h))), content)
    ensures Run(skip, c, HeadText(h) + ContentText(content) + rest) == Over(skip, c', rest)
    ensures c'.log == c.log + HeadEvents(h) + ContentLog(content)
    ensures c'.r.state == NextState(WithTrailer(HeadFacts(h), content), skip(c.log + HeadEvents(h))) && Parsed(c'.r, h)
    ensures c'.pos == c.pos + |HeadText(h) + ContentText(content)| && c'.hdr <= c'.peak
    ensures content.Whole? ==> c'.hdr == 0
    ensures c'.peak == MessagePeak(c.peak, c.hdr, h, content)
  {
    hide Run, GoodHead, HeadEvents, FramingOf, NextState, HeadFacts, HeadText, Over, Told, LengthAfter, Decimal, Awaits;
    hide BodyText, BodyEvents, GoodBody, SizeLine, TrailerText, HeadersOf, HeaderOptions;
    var skipped := skip(c.log + HeadEvents(h));
    Regroup(HeadText(h), ContentText(content), rest);
    var c1 := HeadRun(skip, c, h, ContentText(content) + rest);
    if FramingOf(HeadFacts(h), skipped).NoBody? {
      assert ContentText(content) + rest == rest;
      assert ContentLog(content) == [Complete];
      c' := c1;
    } else {
      assert c1.log == c.log + HeadEvents(h);
      c' := ContentRun(skip, c1, c.log, h, skipped, content, rest);
    }
  }

  /** A response without a length, not chunked: all that comes is its body, and there is no end in sight. */
  lemma OpenMessageRun(skip: Skip, c: Conf, h: MessageHead, body: string) returns (c': Conf)
    requires Awaits(c, h.start) && GoodHead(h)
    requires FramingOf(HeadFacts(h), skip(c.log + HeadEvents(h))).UntilEof?
    ensures Run(skip, c, HeadText(h) + body) == Live(c')
    ensures c'.log == c.log + HeadEvents(h) + BodyLog(body) && c'.r.state == BodyIdentityEof && Parsed(c'.r, h)
    ensures c'.peak == Max(c.peak, c.hdr + |HeadText(h)|) && c'.pos == c.pos + |HeadText(h) + body|
  {
    hide Run, GoodHead, HeadEvents, FramingOf, NextState, HeadFacts, HeadText, Told, LengthAfter, Decimal, Awaits, EndsWith;
    hide HeadersOf;
    var c1 := HeadRun(skip, c, h, body);
    assert c1.log == c.log + HeadEvents(h);
    NoBodyYet(c.log, h);
    OpenRun(skip, c1, body);
    c' := c1.(log := c1.log + (if body == "" then [] else [Data(Body, body)]), pos := c1.pos + |body|);
  }

  /**
   Which responses have a body, where the head says neither chunked nor upgrade and the application does not say that
   there is none: with a length exactly so many bytes; without, nothing if the status is 1xx, 204 or 304, and all that
   comes otherwise. The connection stays open in the first two cases, if its version and options say so.
   */
  lemma ResponseBodies(skip: Skip, c: Conf, h: MessageHead, body: string, rest: string) returns (c': Conf)
    requires Awaits(c, h.start) && GoodHead(h) && h.start.Answers? && !skip(c.log + HeadEvents(h))
    requires var f := HeadFacts(h); !f.chunked && !f.switching
    requires HeadFacts(h).length.Some? ==> |body| == HeadFacts(h).length.value
    ensures var f, code := HeadFacts(h), Decimal(0, h.start.response.code);
            var next := if Persistent(f) then StatusLine(StartRes) else Dead;
            var res := Run(skip, c, HeadText(h) + body + rest);
            && (f.length.Some? ==>
                  res == Run(skip, c', rest) && c'.r.state == next &&
                  c'.log == c.log + HeadEvents(h) + BodyLog(body) + [Complete])
            && (f.length.None? && (100 <= code < 200 || code == 204 || code == 304) ==>
                  res == Run(skip, c', body + rest) && c'.r.state == next &&
                  c'.log == c.log + HeadEvents(h) + [Complete])
            && (f.length.None? && !(100 <= code < 200 || code == 204 || code == 304) ==>
                  res == Live(c') && c'.r.state == BodyIdentityEof &&
                  c'.log == c.log + HeadEvents(h) + BodyLog(body + rest))
            && c'.r.status == code
  {
    hide Run, GoodHead, HeadEvents, HeadText, Told, LengthAfter, Decimal, Awaits, Persistent;
    hide HeadersOf, HeaderOptions, SaysChunked, SaysUpgrade;
    var f := HeadFacts(h);
    Regroup(HeadText(h), body, rest);
    Regroup(c.log + HeadEvents(h), BodyLog(body), [Complete]);
    if f.length.Some? {
      c' := MessageRun(skip, c, h, Whole(body), rest);
    } else if BodilessStatus(f.status) {
      assert HeadText(h) + "" + (body + rest) == HeadText(h) + (body + rest);
      c' := MessageRun(skip, c, h, Whole(""), body + rest);
      assert BodyLog("") + [Complete] == [Complete];
    } else {
      c' := OpenMessageRun(skip, c, h, body + rest);
    }
  }

  // ---------- Messages one after the other ----------

  datatype HttpMessage = HttpMessage(head: MessageHead, content: Content)

  // A message that stays in HTTP, with the body its head announces.
  predicate GoodMessage(kind: ParserType, m: HttpMessage) {
    && GoodHead(m.head) && kind == (if m.head.start.Asks? then Request else Response)
    && !HeadFacts(m.head).switching && !HeadFacts(m.head).connect
    && Fitting(FramingOf(HeadFacts(m.head), false), m.content)
  }

  function AfterMessage(m: HttpMessage): State {
    NextState(WithTrailer(HeadFacts(m.head), m.content), false)
  }

  function FirstState(kind: ParserType): State {
    if kind == Request then StartReq else StatusLine(StartRes)
  }

  // Messages of which only the last may close the connection.
  predicate InARow(kind: ParserType, ms: seq<HttpMessage>) {
    forall i :: 0 <= i < |ms| ==> GoodMessage(kind, ms[i]) && (i < |ms| - 1 ==> AfterMessage(ms[i]) == FirstState(kind))
  }

  function MessageText(m: HttpMessage): string {
    HeadText(m.head) + ContentText(m.content)
  }

  function MessageLog(m: HttpMessage): seq<Event> {
    HeadEvents(m.head) + ContentLog(m.content)
  }

  function MessagesText(ms: seq<HttpMessage>): string {
    if ms == [] then "" else MessagesText(ms[..|ms| - 1]) + MessageText(ms[|ms| - 1])
  }

  function MessagesLog(ms: seq<HttpMessage>): seq<Event> {
    if ms == [] then [] else MessagesLog(ms[..|ms| - 1]) + MessageLog(ms[|ms| - 1])
  }

  function AfterMessages(kind: ParserType, ms: seq<HttpMessage>): State {
    if ms == [] then FirstState(kind) else AfterMessage(ms[|ms| - 1])
  }

  lemma FrontInARow(kind: ParserType, ms: seq<HttpMessage>)
    requires ms != [] && InARow(kind, ms)
    ensures var front, last := ms[..|ms| - 1], ms[|ms| - 1];
            InARow(kind, front) && AfterMessages(kind, front) == FirstState(kind) && GoodMessage(kind, last)
  {
    hide GoodMessage, AfterMessage;
  }

  lemma NotSkipped(skip: Skip, log: seq<Event>, h: MessageHead)
    requires forall before :: !skip(before + [HeadersComplete])
    ensures !skip(log + HeadEvents(h))
  {
    hide StartLog, HeaderLog, HeadersOf;
    var before := log + (StartLog(h.start) + HeaderLog(HeadersOf(h.lines)));
    assert log + HeadEvents(h) == before + [HeadersComplete];
  }

  // One more of them.
  lemma NextMessageRun(skip: Skip, c: Conf, kind: ParserType, m: HttpMessage, rest: string) returns (c': Conf)
    requires c.r.kind == kind && c.r.state == FirstState(kind) && c.r.method_ != CONNECT && c.hdr <= c.peak
    requires GoodMessage(kind, m) && forall before :: !skip(before + [HeadersComplete])
    ensures LeadsTo(skip, c, MessageText(m) + rest, c', rest)
    ensures c'.log == c.log + MessageLog(m) && c'.r.state == AfterMessage(m) && c'.r.kind == kind
    ensures c'.r.method_ != CONNECT && c'.pos == c.pos + |MessageText(m)| && c'.hdr <= c'.peak
  {
    hide Run, GoodHead, HeadEvents, FramingOf, NextState, HeadText, Fitting, ContentText, ContentLog, Decimal, MessagePeak;
    hide HeadersOf, HeaderOptions, SaysChunked, SaysUpgrade, LengthAfter;
    NotSkipped(skip, c.log, m.head);
    c' := MessageRun(skip, c, m.head, m.content, rest);
    Regroup(c.log, HeadEvents(m.head), ContentLog(m.content));
  }

  /** Messages of a kind in a row are parsed one after the other, as long as none but the last closes the connection. */
  lemma {:induction false} MessagesRun(skip: Skip, c: Conf, kind: ParserType, ms: seq<HttpMessage>, rest: string)
    returns (c': Conf)
    requires c.r.kind == kind && c.r.state == FirstState(kind) && c.r.method_ != CONNECT && c.hdr <= c.peak
    requires InARow(kind, ms) && forall before :: !skip(before + [HeadersComplete])
    ensures LeadsTo(skip, c, MessagesText(ms) + rest, c', rest)
    ensures c'.log == c.log + MessagesLog(ms) && c'.r.state == AfterMessages(kind, ms) && c'.r.kind == kind
    ensures c'.r.method_ != CONNECT && c'.pos == c.pos + |MessagesText(ms)| && c'.hdr <= c'.peak
    decreases |ms|
  {
    hide Run, GoodMessage, MessageText, MessageLog, AfterMessage;
    if ms == [] {
      assert MessagesText(ms) + rest == rest && c.log + MessagesLog(ms) == c.log;
      c' := c;
    } else {
      var front, last := ms[..|ms| - 1], ms[|ms| - 1];
      FrontInARow(kind, ms);
      Regroup(MessagesText(front), MessageText(last), rest);
      var c1 := MessagesRun(skip, c, kind, front, MessageText(last) + rest);
      c' := NextMessageRun(skip, c1, kind, last, rest);
      Regroup(c.log, MessagesLog(front), MessageLog(last));
    }
  }
}
