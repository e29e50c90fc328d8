/**
 The end of a message's head, and of the message: which body follows, read off the head as the documentation of
 http_parser_execute and section 3.3.3 of RFC 7230 have it, and in which state the next message finds the parser.
 */
module HttpFraming {
  import opened Bytes
  import opened HttpTypes
  import opened HttpSwitch
  import opened HttpRun
  import opened HttpBulk
  import opened HttpHeaders

  // What a head says about the message; the status is that of a response.
  datatype Facts = Facts(request: bool, connect: bool, status: nat, major: nat, minor: nat, chunked: bool,
                         length: Option<nat>, switching: bool, close: bool, keepAlive: bool)

  function FactsOf(r: Regs): Facts {
    Facts(r.kind == Request, r.method_ == CONNECT, if r.kind == Request then 0 else r.status, r.major, r.minor, r.flags.chunked,
          if r.length == NO_LENGTH then None else Some(r.length), r.flags.upgrade && r.flags.connUpgrade,
          r.flags.close, r.flags.keepAlive)
  }

  datatype Framing = NoBody | Sized(n: nat) | Chunks | UntilEof

  predicate BodilessStatus(status: nat) {
    100 <= status <= 199 || status == 204 || status == 304
  }

  // A response with nothing to tell where it ends.
  predicate OpenEnded(f: Facts, skipped: bool) {
    !f.request && !BodilessStatus(f.status) && !f.chunked && f.length.None? && !skipped
  }

  // The body that follows; `skipped` says that on_headers_complete has answered that there is none.
  function FramingOf(f: Facts, skipped: bool): Framing {
    if f.connect || skipped then NoBody
    else if f.chunked then Chunks
    else
      match f.length
      case Some(n) => if n == 0 then NoBody else Sized(n)
      case None => if OpenEnded(f, skipped) && !f.switching then UntilEof else NoBody
  }

  // The connection stays open: by default from HTTP/1.1 on, and on request before.
  predicate Persistent(f: Facts) {
    if f.major >= 1 && f.minor >= 1 then !f.close else f.keepAlive
  }

  // The state in which the parser waits for what comes after the message.
  function NextState(f: Facts, skipped: bool): State {
    if !Persistent(f) || OpenEnded(f, skipped) then Dead
    else if f.request then StartReq
    else StatusLine(StartRes)
  }

  // The parser at its body.
  function BodyState(b: Framing, next: State): State {
    match b
    case NoBody => next
    case Sized(_) => BodyIdentity
    case Chunks => ChunkPart(ChunkSizeStart)
    case UntilEof => BodyIdentityEof
  }

  // The registers after the head.
  function Opened(r: Regs, skipped: bool): Regs {
    var f := FactsOf(r);
    r.(upgrade := f.switching || f.connect, flags := r.flags.(skipBody := skipped),
       state := BodyState(FramingOf(f, skipped), NextState(f, skipped)))
  }

  lemma NextExact(r: Regs)
    ensures NewMessage(r) == NextState(FactsOf(r), r.flags.skipBody)
  {
  }

  // ---------- The blank line ----------

  lemma BlankSwitch(r: Regs)
    requires r.state == HeaderFieldStart
    ensures Switch(r, CR) == Move(r.(state := HeadersAlmostDone), Quiet, Advance)
    ensures Switch(r, LF) == Move(r.(state := HeadersAlmostDone), Quiet, Again)
  {
    hide Lawful, Tracked;
  }

  // The blank line, up to its line feed.
  lemma BlankRun(skip: Skip, c: Conf, end: string, rest: string)
    requires c.r.state == HeaderFieldStart && IsLineEnd(end) && c.hdr <= c.peak
    ensures Run(skip, c, end + rest) ==
            Run(skip, Spent(c, c.r.(state := HeadersAlmostDone), c.log, |end| - 1), [LF] + rest)
  {
    hide Run, Switch, Lawful, Tracked;
    var r := c.r.(state := HeadersAlmostDone);
    BlankSwitch(c.r);
    LineEnd(rest);
    if end == CRLF {
      HeaderStep(skip, c, CRLF + rest, r, Quiet);
    } else {
      HeaderAgain(skip, c, [LF] + rest, r);
    }
  }

  lemma HeadersCompleteSwitch(r: Regs)
    requires r.state == HeadersAlmostDone && !r.flags.trailing
    ensures Switch(r, LF) ==
            Move(r.(state := HeadersDone, upgrade := FactsOf(r).switching || FactsOf(r).connect), Note(HeadersComplete), Again)
  {
    hide Lawful, Tracked;
  }

  // The registers while the end of the head is reported.
  function Reporting(r: Regs, skipped: bool): Regs {
    r.(state := HeadersDone, upgrade := FactsOf(r).switching || FactsOf(r).connect, flags := r.flags.(skipBody := skipped))
  }

  lemma HeadersCompleteRun(skip: Skip, c: Conf, rest: string)
    requires c.r.state == HeadersAlmostDone && !c.r.flags.trailing && !c.r.flags.skipBody && c.hdr <= c.peak
    ensures var log := c.log + [HeadersComplete];
            Run(skip, c, [LF] + rest) == Run(skip, c.(r := Reporting(c.r, skip(log)), log := log), [LF] + rest)
  {
    hide Run, Switch, Lawful, Tracked;
    LineEnd(rest);
    HeadersCompleteSwitch(c.r);
    RunStep(skip, c, [LF] + rest, Switch(c.r, LF));
    assert !skip(c.log + [HeadersComplete]) ==> c.r.flags.(skipBody := false) == c.r.flags;
  }

  lemma HeadersDoneSwitch(r: Regs, skipped: bool)
    requires !r.flags.trailing && !r.flags.skipBody
    ensures var f, r' := FactsOf(r), Opened(r, skipped);
            Switch(Reporting(r, skipped), LF) ==
            if FramingOf(f, skipped).NoBody? then Move(r', Note(Complete), if r'.upgrade then Leave else Advance)
            else Move(r', Quiet, Advance)
  {
    hide Lawful, Tracked, NewMessage;
    NextExact(Reporting(r, skipped));
  }

  // The configuration after the blank line.
  function HeadDone(skip: Skip, c: Conf, n: nat): Conf {
    var log := c.log + [HeadersComplete];
    var b := FramingOf(FactsOf(c.r), skip(log));
    Conf(Opened(c.r, skip(log)), log + (if b.NoBody? then [Complete] else []), c.pos + n, 0, Max(c.peak, c.hdr + n))
  }

  lemma HeadersDoneRun(skip: Skip, c: Conf, r: Regs, skipped: bool, rest: string)
    requires c.r == Reporting(r, skipped) && !r.flags.trailing && !r.flags.skipBody
    ensures var b := FramingOf(FactsOf(r), skipped);
            var c' := Conf(Opened(r, skipped), c.log + (if b.NoBody? then [Complete] else []), c.pos + 1, 0,
                           Max(c.peak, c.hdr + 1));
            Run(skip, c, [LF] + rest) == if b.NoBody? then Over(skip, c', rest) else Run(skip, c', rest)
  {
    hide Run, Switch, Lawful, Tracked, FramingOf, Opened;
    LineEnd(rest);
    HeadersDoneSwitch(r, skipped);
    assert c.log + [] == c.log;
    RunStep(skip, c, [LF] + rest, Switch(c.r, LF));
  }

  /**
   The blank line after the headers: exactly the body follows that the head announces; without one the message is
   complete, and the parser waits for the next one, is closed, or leaves the rest to the caller.
   */
  lemma HeadEndRun(skip: Skip, c: Conf, end: string, rest: string)
    requires c.r.state == HeaderFieldStart && !c.r.flags.trailing && !c.r.flags.skipBody && IsLineEnd(end)
    requires c.hdr <= c.peak
    ensures var skipped := skip(c.log + [HeadersComplete]);
            var c' := HeadDone(skip, c, |end|);
            Run(skip, c, end + rest) ==
            if FramingOf(FactsOf(c.r), skipped).NoBody? then Over(skip, c', rest) else Run(skip, c', rest)
  {
    hide Run, FramingOf, Over;
    BlankRun(skip, c, end, rest);
    var r1, skipped := c.r.(state := HeadersAlmostDone), skip(c.log + [HeadersComplete]);
    var c1 := Spent(c, r1, c.log, |end| - 1);
    HeadersCompleteRun(skip, c1, rest);
    SameFacts(c.r, r1, skipped);
    var c2 := c1.(r := Reporting(r1, skipped), log := c.log + [HeadersComplete]);
    HeadersDoneRun(skip, c2, r1, skipped, rest);
  }

  lemma SameFacts(r: Regs, r': Regs, skipped: bool)
    requires r' == r.(state := r'.state)
    ensures FactsOf(r') == FactsOf(r) && Opened(r', skipped) == Opened(r, skipped)
  {
  }

  // ---------- Bodies ----------

  lemma DoneSwitch(r: Regs, ch: char)
    requires r.state == MessageDone
    ensures Switch(r, ch) ==
            Move(r.(state := NextState(FactsOf(r), r.flags.skipBody)), Note(Complete), if r.upgrade then Leave else Advance)
  {
    hide NewMessage, Lawful, Tracked;
    NextExact(r);
  }

  // s_message_done, on the last byte of the message.
  lemma DoneRun(skip: Skip, c: Conf, input: string)
    requires c.r.state == MessageDone && input != "" && c.hdr <= c.peak
    ensures Run(skip, c, input) ==
            Over(skip, Conf(c.r.(state := NextState(FactsOf(c.r), c.r.flags.skipBody)), c.log + [Complete], c.pos + 1,
                            c.hdr, c.peak), input[1..])
  {
    hide Run, Switch, Lawful, Tracked, NextState, FactsOf;
    DoneSwitch(c.r, input[0]);
    RunStep(skip, c, input, Switch(c.r, input[0]));
  }

  /** A body of the announced length: exactly so many bytes. */
  lemma SizedRun(skip: Skip, c: Conf, body: string, rest: string)
    requires c.r.state == BodyIdentity && |body| == c.r.length && 0 < c.r.length < NO_LENGTH
    requires c.hdr <= c.peak && !EndsWith(c.log, Body)
    ensures var r := c.r.(length := 0, state := NextState(FactsOf(c.r), c.r.flags.skipBody));
            Run(skip, c, body + rest) ==
            Over(skip, c.(r := r, log := c.log + [Data(Body, body)] + [Complete], pos := c.pos + |body|), rest)
  {
    hide Run, Switch, Lawful, Tracked, Merge, EndsWith, NextState;
    var n := |body| - 1;
    var last := body[n..] + rest;
    assert body + rest == body[..n] + last && last[0] == body[n] && body[..n] + [body[n]] == body && last[1..] == rest;
    BodyEnd(skip, c, body[..n], last);
    var c1 := BodyDone(c, body);
    MergeNew(c.log, Body, body);
    DoneRun(skip, c1, last);
    LengthGone(c.r, c1.r);
  }

  lemma LengthGone(r: Regs, r': Regs)
    requires r.length != NO_LENGTH && r' == r.(length := 0, state := r'.state)
    ensures NextState(FactsOf(r'), r'.flags.skipBody) == NextState(FactsOf(r), r.flags.skipBody)
  {
  }

  /** A body until the end of the stream: every byte that comes. */
  lemma OpenRun(skip: Skip, c: Conf, body: string)
    requires c.r.state == BodyIdentityEof && c.hdr <= c.peak && !EndsWith(c.log, Body)
    ensures Run(skip, c, body) ==
            Live(c.(log := c.log + (if body == "" then [] else [Data(Body, body)]), pos := c.pos + |body|))
  {
    hide Run, Merge, EndsWith;
    if body == "" {
      RunNothing(skip, c);
      assert c.log + [] == c.log;
    } else {
      assert body + "" == body;
      BodyRun(skip, c, body, "");
      MergeNew(c.log, Body, body);
      RunNothing(skip, TakeBodyBytes(c, body));
    }
  }
}
