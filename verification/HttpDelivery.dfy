/** Any message, request or response, from its bytes in pieces through the parser to the handlers. */
module HttpDelivery {
  import opened HttpTypes
  import opened HttpRun
  import opened HttpGrammar
  import opened HttpInvariant
  import opened HttpSafety
  import opened HttpLengths
  import opened HttpLines
  import opened HttpFraming
  import opened HttpChunked
  import opened HttpMessages
  import opened HttpParser
  import opened HttpSessions
  import opened HeaderDigest
  import opened HeaderBatch
  import opened HttpCounting
  import opened HttpExchange

  function KindOf(h: MessageHead): ParserType {
    if h.start.Asks? then Request else Response
  }

  // What the handler gets of a message.
  function Received(h: MessageHead, bytes: string, ends: nat): Incoming {
    Incoming(TargetOf(h.start), Flat(HeadersOf(h.lines)), Object(HeadersOf(h.lines)), bytes, ends)
  }

  lemma FirstAwaits(h: MessageHead)
    ensures Awaits(InitConf(KindOf(h)), h.start)
  {
  }

  // What the byte-at-a-time machine makes of one message that stays in HTTP.
  lemma OneMessage(skip: Skip, h: MessageHead, content: Content) returns (c: Conf)
    requires GoodHead(h) && !HeadFacts(h).switching && !HeadFacts(h).connect && !skip(HeadEvents(h))
    requires Fitting(FramingOf(HeadFacts(h), false), content)
    ensures Run(skip, InitConf(KindOf(h)), HeadText(h) + ContentText(content)) == Live(c)
    ensures c.log == HeadEvents(h) + ContentLog(content) && Parsed(c.r, h)
    ensures c.r.state == NextState(WithTrailer(HeadFacts(h), content), false)
    ensures c.peak == MessagePeak(0, 0, h, content) && PhaseOf(KindOf(h), c.log) != Bad
  {
    hide Run, GoodHead, HeadEvents, FramingOf, NextState, HeadFacts, HeadText, PhaseOf, RegInv, MessagePeak, Decimal;
    hide ContentText, ContentLog, Fitting;
    var init, text := InitConf(KindOf(h)), HeadText(h) + ContentText(content);
    FirstAwaits(h);
    assert [] + HeadEvents(h) == HeadEvents(h) && text + "" == text;
    c := MessageRun(skip, init, h, content, "");
    RunNothing(skip, c);
    EveryRun(skip, KindOf(h), text);
  }

  // What the handlers make of its callbacks.
  method HandleMessage(h: MessageHead, content: Content, trace: seq<Event>) returns (w: Wrapper)
    requires Coalesce(trace) == HeadEvents(h) + ContentLog(content) && PhaseOf(KindOf(h), Coalesce(trace)) != Bad
    ensures w.messages == [Received(h, ContentBytes(content), 1)]
  {
    hide HeadEvents, PhaseOf, Coalesce, DigestOf, ContentLog, ContentBytes, Flat, Object, HeadersOf, Pairs;
    w := new Wrapper(KindOf(h));
    w.Replay(trace);
    Nothing();
    MessageDigest([], h, content);
    assert [] + HeadEvents(h) == HeadEvents(h) && [] + HeadersOf(h.lines) == HeadersOf(h.lines);
    assert "" + TargetOf(h.start) == TargetOf(h.start);
  }

  /**
   A message in any pieces: the parser has its version, and its method or status, and the handler gets its target, its
   headers, and the bytes of its body, be they announced by a length or chunked.
   */
  method Deliver(env: Env, h: MessageHead, content: Content, pieces: seq<string>) returns (p: Parser, w: Wrapper)
    requires Serving(env) && GoodHead(h) && !HeadFacts(h).switching && !HeadFacts(h).connect
    requires Fitting(FramingOf(HeadFacts(h), false), content)
    requires Feedable(pieces) && Concat(pieces) == HeadText(h) + ContentText(content)
    requires MessagePeak(0, 0, h, content) + HeaderCuts(env.skip, InitConf(KindOf(h)), pieces) <= MAX_HEADER
    ensures p.errno == Ok && Coalesce(p.trace) == HeadEvents(h) + ContentLog(content) && Parsed(p.r, h)
    ensures p.r.state == NextState(WithTrailer(HeadFacts(h), content), false)
    ensures w.messages == [Received(h, ContentBytes(content), 1)]
  {
    hide Run, GoodHead, HeadEvents, FramingOf, NextState, HeadFacts, HeadText, PhaseOf, MessagePeak, HeaderCuts, Concat;
    hide ConfInv, Coalesce, ContentLog, ContentBytes, HeadersOf, Fitting, Decimal, Received;
    p := new Parser(KindOf(h));
    ghost var c := OneMessage(env.skip, h, content);
    ghost var n, pauses;
    n, pauses := Feed(p, env, pieces);
    assert env.verdict(p.trace) == Proceed;
    w := HandleMessage(h, content, p.trace);
  }

  // All of it, and the end of the stream.
  method FeedOpen(env: Env, h: MessageHead, body: string, pieces: seq<string>) returns (p: Parser)
    requires Serving(env) && GoodHead(h) && FramingOf(HeadFacts(h), false).UntilEof?
    requires Feedable(pieces) && Concat(pieces) == HeadText(h) + body
    requires |HeadText(h)| + HeaderCuts(env.skip, InitConf(KindOf(h)), pieces) <= MAX_HEADER
    ensures p.errno == Ok && Coalesce(p.trace) == HeadEvents(h) + BodyLog(body) + [Complete] && Parsed(p.r, h)
    ensures PhaseOf(KindOf(h), Coalesce(p.trace)) != Bad
  {
    hide Run, GoodHead, HeadEvents, FramingOf, NextState, HeadFacts, HeadText, PhaseOf, HeaderCuts, Concat;
    hide ConfInv, Coalesce, HeadersOf, Decimal;
    p := new Parser(KindOf(h));
    FirstAwaits(h);
    assert [] + HeadEvents(h) == HeadEvents(h);
    ghost var c := OpenMessageRun(env.skip, InitConf(KindOf(h)), h, body);
    ghost var n, pauses;
    n, pauses := Feed(p, env, pieces);
    assert env.verdict(p.trace) == Proceed;
    EofCompletes(p.Abs());
    ghost var trace := p.trace;
    var end := p.Finish(env);
    assert env.verdict(p.trace) == Proceed;
    CoalesceSnoc(trace, Complete);
  }

  /** A response until the end of the stream, which completes it: the handler gets all that has come. */
  method DeliverOpen(env: Env, h: MessageHead, body: string, pieces: seq<string>) returns (p: Parser, w: Wrapper)
    requires Serving(env) && GoodHead(h) && FramingOf(HeadFacts(h), false).UntilEof?
    requires Feedable(pieces) && Concat(pieces) == HeadText(h) + body
    requires |HeadText(h)| + HeaderCuts(env.skip, InitConf(KindOf(h)), pieces) <= MAX_HEADER
    ensures p.errno == Ok && Coalesce(p.trace) == HeadEvents(h) + BodyLog(body) + [Complete] && Parsed(p.r, h)
    ensures w.messages == [Received(h, body, 1)]
  {
    hide GoodHead, HeadEvents, FramingOf, HeadFacts, HeadText, PhaseOf, HeaderCuts, Concat, Coalesce, Received, Decimal;
    p := FeedOpen(env, h, body, pieces);
    Regroup(HeadEvents(h), BodyLog(body), [Complete]);
    w := HandleMessage(h, Whole(body), p.trace);
  }

  /**
   A message that switches protocols, and more in the same buffer: the parser takes the message, says that it is
   complete and that it upgrades, and returns the number of its bytes; what follows is left to the caller.
   */
  method SwitchOver(env: Env, h: MessageHead, content: Content, rest: string) returns (p: Parser, n: nat)
    requires Serving(env) && GoodHead(h) && (HeadFacts(h).switching || HeadFacts(h).connect)
    requires Fitting(FramingOf(HeadFacts(h), false), content)
    requires |HeadText(h) + ContentText(content) + rest| < MAX_BUFFER && MessagePeak(0, 0, h, content) <= MAX_HEADER
    ensures p.errno == Ok && p.r.upgrade && n == |HeadText(h) + ContentText(content)|
    ensures Coalesce(p.trace) == HeadEvents(h) + ContentLog(content) && Parsed(p.r, h)
  {
    hide Run, GoodHead, HeadEvents, FramingOf, NextState, HeadFacts, HeadText, MessagePeak, ContentText;
    hide ConfInv, Coalesce, ContentLog, Fitting, Decimal, Obeyed, Parser.CutShort, Doubled;
    p := new Parser(KindOf(h));
    var data := HeadText(h) + ContentText(content) + rest;
    FirstAwaits(h);
    assert [] + HeadEvents(h) == HeadEvents(h);
    ghost var c := MessageRun(env.skip, InitConf(KindOf(h)), h, content, rest);
    NotEmptyHead(h);
    ghost var trace := p.trace;
    n := p.Execute(env, data);
    StoppedBy(env, trace, p.trace, p.errno);
  }

  lemma NotEmptyHead(h: MessageHead)
    requires GoodHead(h)
    ensures HeadText(h) != ""
  {
    hide GoodStart, StartText, LinesText;
    EndLength(h.end);
  }
}
