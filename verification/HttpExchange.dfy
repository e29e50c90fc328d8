/** The client's printer and the server's parser and handlers, end to end. */
module HttpExchange {
  import opened Bytes
  import opened HttpTypes
  import opened HttpSwitch
  import opened HttpRun
  import opened HttpGrammar
  import opened HttpInvariant
  import opened HttpSafety
  import opened HttpHeaders
  import opened HttpOptions
  import opened HttpLines
  import opened HttpRequests
  import opened HttpParser
  import opened HttpSessions
  import opened HttpCounting
  import opened HttpOutgoing
  import opened HeaderDigest
  import opened HeaderBatch

  // Callbacks as the server has them: they never fail or pause, and never say that there is no body.
  ghost predicate Serving(env: Env) {
    Steady(env) && forall log :: !env.skip(log)
  }

  // What the handlers make of its callbacks.
  method Handle(q: HttpRequest, trace: seq<Event>) returns (w: Wrapper)
    requires Coalesce(trace) == RequestLog(q) && PhaseOf(Request, RequestLog(q)) != Bad
    ensures w.messages == [Incoming(q.path, Flat(q.headers), Object(q.headers), q.body, 1)]
  {
    hide RequestLog, PhaseOf, Coalesce, DigestOf, Flat, Object, Pairs;
    w := new Wrapper(Request);
    w.Replay(trace);
    assert [] + RequestLog(q) == RequestLog(q);
    Nothing();
    RequestDigest([], q);
    assert [] + q.headers == q.headers && "" + q.path == q.path;
  }

  lemma Nothing()
    ensures DigestOf([]) == NOTHING
  {
  }

  /**
   A request in one buffer: it is parsed whole, up to the last byte, exactly if its head has no more than
   80 KiB, and the only error there is otherwise is the header-size error.
   */
  method ServeOne(env: Env, q: HttpRequest) returns (p: Parser, n: nat)
    requires Serving(env) && Sendable(q) && |Print(q)| < MAX_BUFFER
    ensures p.errno == if |Head(q)| <= MAX_HEADER then Ok else HeaderOverflow
    ensures |Head(q)| <= MAX_HEADER ==>
              n == |Print(q)| && p.r.method_ == q.m && Coalesce(p.trace) == RequestLog(q)
  {
    hide Run, Sendable, Print, Head, RequestLog, AfterRequest, PhaseOf, Coalesce, ConfInv;
    p := new Parser(Request);
    ghost var c := PrintedRun(env.skip, q);
    NotNothing(q);
    n := p.Execute(env, Print(q));
    StateAfterRequest(q);
  }

  // The next piece of a printed request: its bytes are counted once more than the machine counts them for each
  // byte counted twice before.
  method ServePiece(env: Env, ghost q: HttpRequest, p: Parser, ghost n: nat, piece: string, ghost d: nat)
    requires Serving(env) && Sendable(q) && 0 < |piece| < MAX_BUFFER && n + |piece| <= |Print(q)|
    requires piece == Print(q)[n..n + |piece|] && Run(env.skip, InitConf(Request), Print(q)[..n]).Live?
    requires p.Valid() && p.errno == Ok && p.slack == 0 && p.lost == 0 && p.Abs() == At(env.skip, q, n, d)
    modifies p
    ensures p.errno == Ok || p.errno == HeaderOverflow
    ensures var m := n + |piece|;
            && Run(env.skip, InitConf(Request), Print(q)[..m]).Live?
            && var d' := d + One(Doubled(env.skip, InitConf(Request), Print(q)[..m]));
            && (p.errno == Ok ==> p.Valid() && p.slack == 0 && p.lost == 0 && p.Abs() == At(env.skip, q, m, d'))
            && (p.errno == HeaderOverflow ==> |Head(q)| + d' > MAX_HEADER)
  {
    hide Run, Sendable, Print, Head, ConfInv, Coalesce, Doubled, Obeyed, Parser.CutShort, At;
    ghost var m, trace := n + |piece|, p.trace;
    StretchAt(env.skip, q, n, m, d);
    DoubledAt(env.skip, q, n, m, d);
    Reached(env.skip, q, m);
    var read := p.Execute(env, piece);
    StoppedBy(env, trace, p.trace, p.errno);
    AtParts(env.skip, q, m, d);
    if p.errno == Ok {
      p.Settle();
      AtSettled(env.skip, q, m, d);
    }
  }

  lemma AtParts(skip: Skip, q: HttpRequest, n: nat, d: nat)
    requires n <= |Print(q)| && Run(skip, InitConf(Request), Print(q)[..n]).Live?
    ensures var c := Run(skip, InitConf(Request), Print(q)[..n]).c;
            At(skip, q, n, d).peak == PeakAt(q, n, d) && At(skip, q, n, d).r == c.r && At(skip, q, n, d).log == c.log
  {
    hide Run, Print, Head;
  }

  // Settling a byte counted twice.
  lemma AtSettled(skip: Skip, q: HttpRequest, n: nat, d: nat)
    requires n <= |Print(q)| && Run(skip, InitConf(Request), Print(q)[..n]).Live?
    ensures var c := At(skip, q, n, d);
            && (n < |Head(q)| ==> c.(hdr := c.hdr + 1, peak := Max(c.peak, c.hdr + 1)) == At(skip, q, n, d + 1))
            && c.(hdr := c.hdr + 0, peak := Max(c.peak, c.hdr + 0)) == c
  {
    hide Run, Print, Head;
  }

  /**
   A printed request, however it is cut: it is parsed whole, up to the last byte, and reaches the server's handler
   as it was given to the client, if and only if its head and the bytes that are counted twice are no more than
   80 KiB; the only error there is otherwise is the header-size error.
   */
  method Serve(env: Env, q: HttpRequest, pieces: seq<string>) returns (p: Parser, w: Wrapper)
    requires Serving(env) && Sendable(q) && Feedable(pieces) && Concat(pieces) == Print(q)
    ensures var counted := |Head(q)| + Doubles(env.skip, InitConf(Request), pieces);
            p.errno == if counted <= MAX_HEADER then Ok else HeaderOverflow
    ensures p.errno == Ok ==>
              && p.r.method_ == q.m && Coalesce(p.trace) == RequestLog(q)
              && w.messages == [Incoming(q.path, Flat(q.headers), Object(q.headers), q.body, 1)]
  {
    hide Run, Sendable, Print, Head, RequestLog, AfterRequest, PhaseOf, Coalesce, ConfInv, Concat, Flat, Object, Doubles;
    hide At, Doubled, HdrAt, PeakAt;
    ghost var init, n: nat, d: nat := InitConf(Request), 0, 0;
    p := new Parser(Request);
    w := new Wrapper(Request);
    Beginning(env.skip, q, pieces);
    for i := 0 to |pieces|
      invariant p.Valid() && p.errno == Ok && p.slack == 0 && p.lost == 0 && fresh(p)
      invariant n <= |Print(q)| && Print(q)[..n] == Concat(pieces[..i]) && Run(env.skip, init, Print(q)[..n]).Live?
      invariant d == Doubles(env.skip, init, pieces[..i]) && p.Abs() == At(env.skip, q, n, d)
    {
      PieceOf(q, pieces, i, n);
      DoublesNext(env.skip, init, pieces, i);
      ServePiece(env, q, p, n, pieces[i], d);
      n := n + |pieces[i]|;
      d := d + One(Doubled(env.skip, init, Print(q)[..n]));
      if p.errno != Ok {
        DoublesGrow(env.skip, init, pieces, i + 1);
        return;
      }
    }
    assert pieces[..|pieces|] == pieces && Print(q)[..n] == Print(q);
    ghost var c := PrintedRun(env.skip, q);
    AtParts(env.skip, q, n, d);
    WholePeak(env.skip, q, d);
    assert p.Counted(0);
    w := Handle(q, p.trace);
  }

  lemma Beginning(skip: Skip, q: HttpRequest, pieces: seq<string>)
    ensures Print(q)[..0] == Concat(pieces[..0]) == "" && Run(skip, InitConf(Request), Print(q)[..0]).Live?
    ensures Doubles(skip, InitConf(Request), pieces[..0]) == 0 && At(skip, q, 0, 0) == InitConf(Request)
  {
    HeadLength(q);
    hide Print, Head;
  }

  // The place of a piece in the text.
  lemma PieceOf(q: HttpRequest, pieces: seq<string>, i: nat, n: nat)
    requires i < |pieces| && Concat(pieces) == Print(q) && n <= |Print(q)| && Print(q)[..n] == Concat(pieces[..i])
    ensures n + |pieces[i]| <= |Print(q)| && pieces[i] == Print(q)[n..n + |pieces[i]|]
    ensures Print(q)[..n + |pieces[i]|] == Concat(pieces[..i + 1])
  {
    hide Print, Concat;
    ConcatNext(pieces, i);
    ConcatPrefix(pieces, i + 1);
    var rest :| Concat(pieces) == Concat(pieces[..i + 1]) + rest;
    assert Print(q) == Print(q)[..n] + pieces[i] + rest;
  }

  lemma WholePeak(skip: Skip, q: HttpRequest, d: nat)
    ensures PeakAt(q, |Print(q)|, d) == |Head(q)| + d
  {
    HeadLength(q);
    hide Print, Head;
  }

  /** Bytes are counted twice only for pieces that end before the end of the head. */
  lemma {:induction false} CutsInHead(skip: Skip, q: HttpRequest, pieces: seq<string>, rest: string)
    requires Sendable(q) && (forall log :: !skip(log)) && Concat(pieces) + rest == Print(q)
    ensures Doubles(skip, InitConf(Request), pieces) <= EndingBefore(pieces, |Head(q)|)
    decreases |pieces|
  {
    hide Run, Sendable, Print, Head, Doubled;
    if pieces != [] {
      var all, n := pieces[..|pieces| - 1], |Concat(pieces)|;
      Regroup(Concat(all), pieces[|pieces| - 1], rest);
      CutsInHead(skip, q, all, pieces[|pieces| - 1] + rest);
      if |Head(q)| <= n {
        assert Print(q)[..n] == Concat(pieces);
        PastHeadOnce(skip, q, n);
      }
    }
  }

  lemma PastHeadOnce(skip: Skip, q: HttpRequest, n: nat)
    requires Sendable(q) && (forall log :: !skip(log)) && |Head(q)| <= n <= |Print(q)|
    ensures !Doubled(skip, InitConf(Request), Print(q)[..n])
  {
    hide Run, Sendable, Print, Head;
    var c := PastHead(skip, q, n);
  }

  /** A head of at most 40 KiB cannot overflow the counter, whatever the pieces. */
  lemma ShortHead(skip: Skip, q: HttpRequest, pieces: seq<string>)
    requires Sendable(q) && (forall log :: !skip(log)) && Feedable(pieces) && Concat(pieces) == Print(q)
    requires 2 * |Head(q)| <= MAX_HEADER
    ensures |Head(q)| + Doubles(skip, InitConf(Request), pieces) <= MAX_HEADER
  {
    hide Run, Sendable, RequestLine, PrintHeaders, Concat, Doubles, EndingBefore;
    assert Concat(pieces) + "" == Print(q);
    CutsInHead(skip, q, pieces, "");
    FewBefore(pieces, |Head(q)|);
  }

  // What the byte-at-a-time machine makes of several requests.
  lemma PipelinedRun(skip: Skip, qs: seq<HttpRequest>) returns (c: Conf)
    requires Pipelined(qs) && forall log :: !skip(log)
    ensures Run(skip, InitConf(Request), PrintAll(qs)) == Live(c)
    ensures c.log == LogAll(qs) && c.r.state == AfterAll(qs) && c.pos == |PrintAll(qs)| && c.peak == LongestHead(qs)
    ensures PhaseOf(Request, c.log) != Bad
  {
    hide Run, Pipelined, PrintAll, LogAll, LongestHead, PhaseOf, AfterAll, RegInv;
    c := PipelineRun(skip, InitConf(Request), qs, "");
    assert PrintAll(qs) + "" == PrintAll(qs) && [] + LogAll(qs) == LogAll(qs);
    RunNothing(skip, c);
    EveryRun(skip, Request, PrintAll(qs));
  }

  /**
   Requests in a row, however they are cut: the handlers get all of them, each with its own headers and body, and
   with the targets that have piled up.
   */
  method ServeAll(env: Env, qs: seq<HttpRequest>, pieces: seq<string>) returns (p: Parser, w: Wrapper, n: nat)
    requires Serving(env) && Pipelined(qs) && Feedable(pieces) && Concat(pieces) == PrintAll(qs)
    requires LongestHead(qs) + HeaderCuts(env.skip, InitConf(Request), pieces) <= MAX_HEADER
    ensures p.errno == Ok && n == |PrintAll(qs)| && Coalesce(p.trace) == LogAll(qs) && p.r.state == AfterAll(qs)
    ensures w.messages == seq(|qs|, i requires 0 <= i < |qs| => Delivered(MessageOf(qs, i)))
  {
    hide Run, Pipelined, PrintAll, LogAll, LongestHead, PhaseOf, AfterAll, Coalesce, ConfInv, Concat, HeaderCuts;
    hide DigestOf, MessageOf, Delivered, Flat, Pairs, Lists;
    p := new Parser(Request);
    ghost var c := PipelinedRun(env.skip, qs);
    ghost var pauses;
    n, pauses := Feed(p, env, pieces);
    assert env.verdict(p.trace) == Proceed;
    w := new Wrapper(Request);
    w.Replay(p.trace);
    PipelineDigest(qs);
  }

  /** The second of two requests gets both targets exactly if the first has ten headers or more. */
  method ServeTwo(env: Env, q1: HttpRequest, q2: HttpRequest, pieces: seq<string>)
    returns (p: Parser, w: Wrapper, n: nat)
    requires Serving(env) && Sendable(q1) && Sendable(q2) && ConnectionOption.Close !in HeaderOptions(q1.headers)
    requires Feedable(pieces) && Concat(pieces) == Print(q1) + Print(q2)
    requires Max(|Head(q1)|, |Head(q2)|) + HeaderCuts(env.skip, InitConf(Request), pieces) <= MAX_HEADER
    ensures p.errno == Ok && Coalesce(p.trace) == RequestLog(q1) + RequestLog(q2)
    ensures |w.messages| == 2 && w.messages[0].url == q1.path
    ensures w.messages[1].url == if |q1.headers| >= HEADER_MAX then q1.path + q2.path else q2.path
  {
    hide Run, Sendable, Print, Head, RequestLog, HeaderOptions, Coalesce, Concat, HeaderCuts;
    TwoOf(q1, q2);
    p, w, n := ServeAll(env, [q1, q2], pieces);
  }

  lemma TwoOf(q1: HttpRequest, q2: HttpRequest)
    requires Sendable(q1) && Sendable(q2) && ConnectionOption.Close !in HeaderOptions(q1.headers)
    ensures var qs := [q1, q2];
            && Pipelined(qs) && PrintAll(qs) == Print(q1) + Print(q2) && LogAll(qs) == RequestLog(q1) + RequestLog(q2)
            && LongestHead(qs) == Max(|Head(q1)|, |Head(q2)|)
            && Delivered(MessageOf(qs, 0)).url == q1.path
            && Delivered(MessageOf(qs, 1)).url == if |q1.headers| >= HEADER_MAX then q1.path + q2.path else q2.path
  {
    hide Sendable, Print, Head, RequestLog, HeaderOptions, Flat, Object;
    var qs := [q1, q2];
    assert qs[..1] == [q1] && [q1][..0] == [] && qs[..0] == [];
    assert "" + Print(q1) == Print(q1) && [] + RequestLog(q1) == RequestLog(q1);
    assert PrintAll([]) == "" && LogAll([]) == [] && LongestHead([]) == 0;
    assert PrintAll([q1]) == Print(q1) && LogAll([q1]) == RequestLog(q1) && LongestHead([q1]) == |Head(q1)|;
    assert Flushes([q1]) <==> |q1.headers| >= HEADER_MAX by { assert [q1][0] == q1; }
    assert "" + q1.path == q1.path && "" + q2.path == q2.path;
  }

  // An object with exactly these names and values.
  ghost predicate Same(headers: map<string, string>, hs: Headers) {
    && (forall name :: name in headers <==> Names(hs, name))
    && (forall h :: h in hs ==> h.0 in headers && headers[h.0] == h.1)
  }

  lemma SameObject(hs: Headers)
    requires IsObject(hs)
    ensures Same(Object(hs), hs)
  {
    hide Object;
    ObjectExact(hs);
    forall h | h in hs ensures h.0 in Object(hs) && Object(hs)[h.0] == h.1 {
      var i: nat :| i < |hs| && hs[i] == h;
      assert LastNamed(hs, i);
    }
  }

  /**
   The round trip: what is given to a ClientRequest and written in any chunks is what the handler of the
   server gets, in whatever pieces the bytes arrive, if and only if they fit into the header-size limit.
   */
  method RoundTrip(env: Env, q: HttpRequest, chunks: seq<string>, pieces: seq<string>)
    returns (req: OutgoingMessage, p: Parser, w: Wrapper)
    requires Serving(env) && Sendable(q) && IsObject(q.headers) && Concat(chunks) == q.body
    requires Feedable(pieces) && Concat(pieces) == Print(q)
    ensures req.sent == Print(q)
    ensures var counted := |Head(q)| + Doubles(env.skip, InitConf(Request), pieces);
            p.errno == if counted <= MAX_HEADER then Ok else HeaderOverflow
    ensures p.errno == Ok ==>
              && p.r.method_ == q.m
              && w.messages == [Incoming(q.path, Flat(q.headers), Object(q.headers), q.body, 1)]
              && Same(w.messages[0].headers, q.headers)
  {
    hide Run, Sendable, Print, Head, MethodName, Concat, HeaderLine, Doubles, Object, Same;
    SameObject(q.headers);
    var created := NewRequest(MethodName(q.m), q.path, q.headers);
    SendableParts(q);
    req := created.value;
    ConcatNothing(chunks);
    for i := 0 to |chunks|
      invariant req.Valid() && req.hasBody && !req.finished && req.body == Concat(chunks[..i])
      invariant req.header == Some(FirstLine(MethodName(q.m), q.path) + PrintHeaders(q.headers)) && fresh(req)
    {
      ConcatNext(chunks, i);
      req.Write(chunks[i]);
    }
    assert chunks[..|chunks|] == chunks;
    var ok := req.End("");
    assert q.body + "" == q.body;
    PrintParts(q);
    p, w := Serve(env, q, pieces);
  }

  lemma SendableParts(q: HttpRequest)
    requires Sendable(q)
    ensures MethodName(q.m) != "" && q.path != "" && forall h :: h in q.headers ==> h.1 != ""
  {
  }

  lemma PrintParts(q: HttpRequest)
    ensures Print(q) == FirstLine(MethodName(q.m), q.path) + PrintHeaders(q.headers) + CRLF + q.body
  {
    hide MethodName, PrintHeaders;
    assert RequestLine(q) == FirstLine(MethodName(q.m), q.path);
  }
}
