/** Requests as the client prints them: a printed request is parsed back to exactly what was printed. */
module HttpRequests {
  import opened Bytes
  import opened HttpTypes
  import opened HttpSwitch
  import opened HttpRun
  import opened HttpHeaders
  import opened HttpLengths
  import opened HttpOptions
  import opened HttpLines
  import opened HttpFraming
  import opened HttpStart
  import opened HttpMessages

  // ---------- Targets ----------

  predicate Printable(ch: char) {
    '!' <= ch <= '~'
  }

  predicate IsPath(path: string) {
    path != "" && path[0] == '/' && forall i :: 0 <= i < |path| ==> Printable(path[i])
  }

  predicate InPath(u: UrlState) {
    u.ReqPath? || u.ReqQueryStringStart? || u.ReqQueryString? || u.ReqFragmentStart? || u.ReqFragment?
  }

  lemma PathByte(u: UrlState, ch: char)
    requires InPath(u) && Printable(ch)
    ensures ParseUrlChar(Some(u), ch).Some? && InPath(ParseUrlChar(Some(u), ch).value)
  {
  }

  lemma {:induction false} PathFold(u: UrlState, w: string)
    requires InPath(u) && forall i :: 0 <= i < |w| ==> Printable(w[i])
    ensures UrlFold(Some(u), w).Some? && InPath(UrlFold(Some(u), w).value)
    decreases |w|
  {
    hide ParseUrlChar, Printable;
    if w != "" {
      PathByte(u, w[0]);
      PathFold(ParseUrlChar(Some(u), w[0]).value, w[1..]);
    }
  }

  /** A path of printable characters is a target of every request but CONNECT. */
  lemma PathIsTarget(m: Method, path: string)
    requires m != CONNECT && IsPath(path)
    ensures IsTarget(m, path) && NoSpaceOrEnd(path)
  {
    assert ParseUrlChar(None, '/') == Some(ReqPath);
    hide ParseUrlChar;
    assert forall i :: 0 <= i < |path| ==> Printable(path[i]);
    PathFold(ReqPath, path[1..]);
  }

  // ---------- Requests ----------

  datatype HttpRequest = HttpRequest(m: Method, path: string, headers: Headers, body: string)

  // As http_client.js and http_outgoing.js print it.
  function RequestLine(q: HttpRequest): string {
    MethodName(q.m) + " " + (q.path + ([' '] + ("HTTP/" + ("1.1" + CRLF))))
  }

  function Head(q: HttpRequest): string {
    RequestLine(q) + PrintHeaders(q.headers) + CRLF
  }

  function Print(q: HttpRequest): string {
    Head(q) + q.body
  }

  function StartLine(q: HttpRequest): RequestStart {
    RequestStart(q.m, "", q.path, "", Some(Version("1", "1")), CRLF)
  }

  function HeadOf(q: HttpRequest): MessageHead {
    MessageHead(Asks(StartLine(q)), WrittenLines(q.headers), CRLF)
  }

  // A request the client can send and have read back: its headers have values and announce its body, and it does not
  // leave HTTP.
  predicate Sendable(q: HttpRequest) {
    && IsTarget(q.m, q.path) && NoSpaceOrEnd(q.path)
    && (forall h :: h in q.headers ==> CleanHeader(h) && h.1 != "")
    && q.m != CONNECT && !(SaysUpgrade(q.headers) && Upgrading in HeaderOptions(q.headers))
    && Announced(q)
  }

  predicate Announced(q: HttpRequest) {
    var n := LengthAfter(NO_LENGTH, q.headers);
    !SaysChunked(q.headers) && if q.body == "" then n == 0 || n == NO_LENGTH else n == |q.body| && n < NO_LENGTH
  }

  function HeadLog(q: HttpRequest): seq<Event> {
    [Begin, Data(Url, q.path)] + HeaderLog(q.headers) + [HeadersComplete]
  }

  function RequestLog(q: HttpRequest): seq<Event> {
    [Begin, Data(Url, q.path)] + HeaderLog(q.headers) + [HeadersComplete] + BodyLog(q.body) + [Complete]
  }

  lemma RequestLineText(q: HttpRequest)
    ensures RequestText(StartLine(q)) == RequestLine(q)
    ensures |RequestLine(q)| == |MethodName(q.m)| + 1 + (|q.path| + 1) + 5 + 5
  {
    hide MethodName;
    var s := StartLine(q);
    assert VersionText(s.version.value) == "1.1";
    assert "" + ("HTTP/" + ("1.1" + CRLF)) == "HTTP/" + ("1.1" + CRLF);
    assert "" + (s.target + AskedText(s)) == s.target + AskedText(s);
    assert " " == [' '];
  }

  lemma OneOne()
    ensures IsVersion(Version("1", "1")) && Taken(true, Version("1", "1")) && Decimal(0, "1") == 1
  {
    assert "1"[1..] == "" && Decimal(0, "1") == Decimal(1, "");
  }

  lemma StartIsGood(q: HttpRequest)
    requires IsTarget(q.m, q.path) && NoSpaceOrEnd(q.path)
    ensures GoodStart(Asks(StartLine(q)))
  {
    hide IsTarget, NoSpaceOrEnd;
    OneOne();
    NotEmpty(q);
  }

  lemma NotEmpty(q: HttpRequest)
    requires IsTarget(q.m, q.path)
    ensures q.path != ""
  {
  }

  /** What the client prints is a head in the sense of the parser. */
  lemma PrintedHead(q: HttpRequest)
    requires Sendable(q)
    ensures HeadText(HeadOf(q)) == Head(q) && GoodHead(HeadOf(q)) && HeadEvents(HeadOf(q)) == HeadLog(q)
    ensures HeadersOf(HeadOf(q).lines) == q.headers
  {
    hide IsTarget, NoSpaceOrEnd, RequestText, RequestLine, CleanHeader, LineText, Clean, HeaderOf, HeaderLog, HeaderLine;
    hide GoodStart, PrintHeaders, LinesText, HeadersOf, WrittenLines, Announced, SaysUpgrade, HeaderOptions;
    StartIsGood(q);
    RequestLineText(q);
    WrittenHeaders(q.headers);
    Regroup(RequestLine(q), PrintHeaders(q.headers), CRLF);
  }

  // What a printed head says.
  lemma PrintedFacts(q: HttpRequest)
    requires Sendable(q)
    ensures var f, n := HeadFacts(HeadOf(q)), LengthAfter(NO_LENGTH, q.headers);
            && FramingOf(f, false) == (if q.body == "" then NoBody else Sized(|q.body|))
            && NextState(f, false) == AfterRequest(q) && !f.switching && !f.connect && f.major == 1 && f.minor == 1
  {
    hide IsTarget, NoSpaceOrEnd, CleanHeader, SaysChunked, SaysUpgrade, HeaderOptions, LengthAfter, WrittenLines;
    PrintedHead(q);
    OneOne();
  }

  // Where the parser is after a request: ready for another one, unless this one closes the connection.
  function AfterRequest(q: HttpRequest): State {
    if Close in HeaderOptions(q.headers) then Dead else StartReq
  }

  lemma PrintedHeadRun(skip: Skip, c: Conf, q: HttpRequest, rest: string) returns (c': Conf)
    requires c.r.state == StartReq && c.r.kind == Request && c.hdr <= c.peak && Sendable(q)
    requires !skip(c.log + HeadLog(q))
    ensures LeadsTo(skip, c, Head(q) + rest, c', rest)
    ensures c'.log == c.log + HeadLog(q) + (if q.body == "" then [Complete] else [])
    ensures c'.r.method_ == q.m && c'.r.major == 1 && c'.r.minor == 1 && !c'.r.upgrade && c'.r.kind == Request
    ensures if q.body == "" then c'.r.state == AfterRequest(q) else c'.r.state == BodyIdentity && c'.r.length == |q.body|
    ensures c'.pos == c.pos + |Head(q)| && c'.hdr == 0 && c'.peak == Max(c.peak, c.hdr + |Head(q)|)
    ensures q.body != "" ==> |q.body| < NO_LENGTH
  {
    hide Run, Sendable, Head, HeadLog, HeadText, GoodHead, HeadEvents, HeadFacts, FramingOf, NextState, AfterRequest, Told;
    hide LengthAfter;
    PrintedHead(q);
    PrintedFacts(q);
    if q.body != "" { SizedBelow(HeadOf(q), false); }
    c' := HeadRun(skip, c, HeadOf(q), rest);
    if q.body != "" { LengthIs(q); }
  }

  lemma LengthIs(q: HttpRequest)
    requires Sendable(q) && q.body != ""
    ensures LengthAfter(NO_LENGTH, q.headers) == |q.body|
  {
    hide IsTarget, NoSpaceOrEnd, CleanHeader, SaysChunked, SaysUpgrade, HeaderOptions, LengthAfter;
  }

  /**
   Printing and then parsing is the identity: the callbacks see exactly the path, the headers in order
   and the body, with one Begin and one Complete, and the parser is ready for the next request, unless a
   Connection header of this one says close.
   */
  lemma RequestRun(skip: Skip, c: Conf, q: HttpRequest, rest: string) returns (c': Conf)
    requires c.r.state == StartReq && c.r.kind == Request && c.hdr <= c.peak && Sendable(q)
    requires !skip(c.log + HeadLog(q))
    ensures LeadsTo(skip, c, Print(q) + rest, c', rest)
    ensures c'.log == c.log + RequestLog(q) && c'.r.method_ == q.m && c'.r.major == 1 && c'.r.minor == 1
    ensures c'.r.state == AfterRequest(q) && !c'.r.upgrade && c'.r.kind == Request
    ensures c'.pos == c.pos + |Print(q)| && c'.hdr == 0 && c'.peak == Max(c.peak, c.hdr + |Head(q)|)
  {
    hide Run, Sendable, Head, HeadText, GoodHead, HeadEvents, HeadFacts, FramingOf, NextState, AfterRequest, HeaderLog;
    PrintedHead(q);
    PrintedFacts(q);
    c' := MessageRun(skip, c, HeadOf(q), Whole(q.body), rest);
    assert c.log + HeadLog(q) + ContentLog(Whole(q.body)) == c.log + RequestLog(q);
  }

  // ---------- Requests one after the other ----------

  function PrintAll(qs: seq<HttpRequest>): string {
    if qs == [] then "" else PrintAll(qs[..|qs| - 1]) + Print(qs[|qs| - 1])
  }

  function LogAll(qs: seq<HttpRequest>): seq<Event> {
    if qs == [] then [] else LogAll(qs[..|qs| - 1]) + RequestLog(qs[|qs| - 1])
  }

  function LongestHead(qs: seq<HttpRequest>): nat {
    if qs == [] then 0 else Max(LongestHead(qs[..|qs| - 1]), |Head(qs[|qs| - 1])|)
  }

  // Requests of which only the last may close the connection.
  predicate Pipelined(qs: seq<HttpRequest>) {
    forall i :: 0 <= i < |qs| ==> Sendable(qs[i]) && (i < |qs| - 1 ==> AfterRequest(qs[i]) == StartReq)
  }

  function AfterAll(qs: seq<HttpRequest>): State {
    if qs == [] then StartReq else AfterRequest(qs[|qs| - 1])
  }

  /** Requests in a row are parsed one after the other, as long as none but the last closes the connection. */
  lemma {:induction false} PipelineRun(skip: Skip, c: Conf, qs: seq<HttpRequest>, rest: string) returns (c': Conf)
    requires c.r.state == StartReq && c.r.kind == Request && c.hdr == 0 && Pipelined(qs)
    requires forall log :: !skip(log + [HeadersComplete])
    ensures LeadsTo(skip, c, PrintAll(qs) + rest, c', rest)
    ensures c'.log == c.log + LogAll(qs) && c'.r.state == AfterAll(qs) && c'.r.kind == Request
    ensures c'.pos == c.pos + |PrintAll(qs)| && c'.hdr == 0 && c'.peak == Max(c.peak, LongestHead(qs))
    decreases |qs|
  {
    hide Run, Sendable, Print, Head, RequestLog, NewMessage, AfterRequest;
    if qs == [] {
      assert PrintAll(qs) + rest == rest && c.log + LogAll(qs) == c.log;
      c' := c;
    } else {
      var front, last := qs[..|qs| - 1], qs[|qs| - 1];
      FrontPipelined(qs);
      Regroup(PrintAll(front), Print(last), rest);
      var c1 := PipelineRun(skip, c, front, Print(last) + rest);
      NotSkipped(skip, c1.log, last);
      c' := RequestRun(skip, c1, last, rest);
      Regroup(c.log, LogAll(front), RequestLog(last));
    }
  }

  lemma NotSkipped(skip: Skip, log: seq<Event>, q: HttpRequest)
    requires forall before :: !skip(before + [HeadersComplete])
    ensures !skip(log + HeadLog(q))
  {
    hide HeaderLog;
    var before := log + ([Begin, Data(Url, q.path)] + HeaderLog(q.headers));
    assert log + HeadLog(q) == before + [HeadersComplete];
  }

  lemma FrontPipelined(qs: seq<HttpRequest>)
    requires qs != [] && Pipelined(qs)
    ensures Pipelined(qs[..|qs| - 1]) && AfterAll(qs[..|qs| - 1]) == StartReq && Sendable(qs[|qs| - 1])
  {
    hide Sendable, AfterRequest;
  }

  /** After a request that closes the connection, anything but line ends is an error. */
  lemma ClosedAfter(skip: Skip, c: Conf, q: HttpRequest, rest: string)
    requires c.r.state == StartReq && c.r.kind == Request && c.hdr <= c.peak && Sendable(q)
    requires forall log :: !skip(log + [HeadersComplete])
    requires Close in HeaderOptions(q.headers) && rest != "" && rest[0] != CR && rest[0] != LF
    ensures var res := Run(skip, c, Print(q) + rest);
            res.Failed? && res.e == ClosedConnection && res.pos == c.pos + |Print(q)|
  {
    hide Run, Sendable, Print, Head, RequestLog, NewMessage, HeaderOptions;
    NotSkipped(skip, c.log, q);
    var c' := RequestRun(skip, c, q, rest);
    assert Switch(c'.r, rest[0]) == Fail(ClosedConnection);
    FailStep(skip, c', rest, ClosedConnection);
  }
}
