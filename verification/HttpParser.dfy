/**
 http_parser_execute: the buffer-at-a-time loop with its marks, callbacks, pauses, re-execution of
 a byte, header-size counter and fast paths, proved to refine the byte-at-a-time machine of HttpRun.
 */
module HttpParser {
  import opened Bytes
  import opened HttpTypes
  import opened HttpSwitch
  import opened HttpRun
  import opened HttpInvariant
  import opened HttpGrammar
  import opened HttpSafety
  import opened HttpBulk

  // HTTP_MAX_HEADER_SIZE
  const MAX_HEADER: nat := 80 * 1024

  // Callers pass buffers shorter than this.
  const MAX_BUFFER: nat := 0x8000_0000

  // What a callback does: return 0, fail, or pause the parser and return 0.
  datatype Verdict = Proceed | Abort | Pause

  // The callbacks. `skip` is the answer 1 of on_headers_complete, which depends on the message only;
  // the rest of what callbacks do may depend on every single call so far.
  datatype Env = Env(skip: Skip, verdict: seq<Event> -> Verdict)

  // The callback an event is for.
  function Label(e: Event): Event {
    if e.Data? then Data(e.kind, "") else e
  }

  function Outcome(env: Env, trace: seq<Event>, e: Event): Errno {
    match env.verdict(trace)
    case Proceed => Ok
    case Abort => CallbackFailed(Label(e))
    case Pause => Paused
  }

  // What a call back can leave in `errno`, the last of the calls being that of `trace`.
  predicate LeftBy(env: Env, trace: seq<Event>, errno: Errno) {
    match errno
    case Ok => true
    case Paused => env.verdict(trace) == Pause
    case CallbackFailed(_) => env.verdict(trace) == Abort
    case _ => false
  }

  // A callback did not return 0, or paused the parser.
  predicate Stopped(errno: Errno) {
    errno.Paused? || errno.CallbackFailed?
  }

  // From the calls `before` to the calls `trace` the parser obeyed its callbacks: it went on after each that
  // let it, and stopped at the first that did not.
  ghost predicate Obeyed(env: Env, before: seq<Event>, trace: seq<Event>, errno: Errno) {
    && before <= trace
    && (forall k :: |before| < k < |trace| ==> env.verdict(trace[..k]) == Proceed)
    && (Stopped(errno) <==> |before| < |trace| && env.verdict(trace) != Proceed)
  }

  lemma NotObeyed(env: Env, trace: seq<Event>, errno: Errno)
    requires !Stopped(errno)
    ensures Obeyed(env, trace, trace, errno)
  {
  }

  lemma ObeyedOnce(env: Env, before: seq<Event>, e: Event)
    ensures Obeyed(env, before, before + [e], Outcome(env, before + [e], e))
  {
  }

  lemma ObeyedTwice(env: Env, a: seq<Event>, b: seq<Event>, c: seq<Event>, errno: Errno)
    requires Obeyed(env, a, b, Ok) && Obeyed(env, b, c, errno)
    ensures Obeyed(env, a, c, errno)
  {
    forall k | |a| < k < |c| ensures env.verdict(c[..k]) == Proceed {
      if k <= |b| { assert c[..k] == b[..k] && b[..|b|] == b; }
    }
    assert c[..|b|] == b && (|c| == |b| ==> c == b);
  }

  // ---------- Marks ----------

  // The mark pointers that are set, as offsets into the buffer.
  type Marks = map<Kind, nat>

  predicate MarksOk(s: State, marks: Marks, p: nat) {
    match LiveKind(s)
    case None => marks == map[]
    case Some(k) => marks.Keys <= {k} && (k in marks ==> marks[k] <= p) && (k != Body ==> k in marks)
  }

  // The log once the bytes from the mark up to `p` are delivered.
  function Pending(log: seq<Event>, s: State, marks: Marks, data: string, p: nat): seq<Event>
    requires MarksOk(s, marks, p) && p <= |data|
  {
    match LiveKind(s)
    case None => log
    case Some(k) => if k in marks then Merge(log, Data(k, data[marks[k]..p])) else log
  }

  function Mark(marks: Marks, k: Kind, p: nat): Marks {
    if k in marks then marks else marks[k := p]
  }

  lemma PendingBytes(log: seq<Event>, s: State, t: State, marks: Marks, k: Kind, data: string, p: nat, q: nat)
    requires MarksOk(s, marks, p) && p <= q <= |data| && (k in marks || p < q)
    requires LiveKind(s) == None || LiveKind(s) == Some(k)
    requires LiveKind(t) == Some(k)
    ensures MarksOk(t, Mark(marks, k, p), q)
    ensures Pending(log, t, Mark(marks, k, p), data, q) == Merge(Pending(log, s, marks, data, p), Data(k, data[p..q]))
  {
    if k in marks {
      MergeTwice(log, k, data[marks[k]..p], data[p..q]);
      assert data[marks[k]..p] + data[p..q] == data[marks[k]..q];
    }
  }

  lemma PendingMarked(log: seq<Event>, s: State, marks: Marks, k: Kind, data: string, p: nat)
    requires MarksOk(s, marks, p) && p <= |data| && k in marks
    ensures Pending(log, s, marks, data, p) == Merge(log, Data(k, data[marks[k]..p]))
  {
  }

  lemma PendingNothing(log: seq<Event>, s: State, data: string, p: nat)
    requires MarksOk(s, map[], p) && p <= |data|
    ensures Pending(log, s, map[], data, p) == log
  {
  }

  lemma AtMostOneMark(s: State, marks: Marks, p: nat)
    requires MarksOk(s, marks, p)
    ensures |marks| <= 1
  {
    match LiveKind(s)
    case None =>
    case Some(k) =>
      if k in marks {
        assert marks.Keys == {k};
        assert |marks| == |marks.Keys|;
      } else {
        assert marks == map[];
      }
  }

  function InitialMarks(s: State): Marks {
    match LiveKind(s)
    case None => map[]
    case Some(k) => if k == Body then map[] else map[k := 0]
  }

  function Consumed(p: nat, go: Go): nat {
    if go == Again then p else p + 1
  }

  lemma FieldTokenSwitch(r: Regs, ch: char)
    requires r.state.HeaderField? && IsToken(ch)
    ensures var t := FieldToken(r.hstate, r.index, Token(ch));
            Switch(r, ch) ==
            if t.None? then Fatal else Move(r.(hstate := t.value.0, index := t.value.1), Byte(Field), Advance)
  {
    hide FieldToken, IsToken, Token, Lawful, Tracked;
  }

  // The loops over names and values count their first byte twice when the buffer ends inside.
  predicate InHeader(s: State) {
    s.HeaderField? || s.HeaderValue?
  }

  // After a data run, with a byte to look at that is not the first of a name or value.
  predicate AfterData(s: State) {
    s.HeaderAlmostDone? || s.MessageDone?
  }

  // Names and values are entered with their first byte, values are left at a line end, and
  // s_header_almost_done comes after them only.
  predicate ValueEdges(r: Regs, o: Out) {
    && (o.Fail? ==> IsParseError(o.e))
    && (o.Move? ==>
      && (o.r.state == HeaderAlmostDone ==> r.state == HeaderValue && o.eff == Flush(Value))
      && (InHeader(o.r.state) && o.r.state != r.state ==> !AfterData(r.state) && o.go == Advance)
      && (o.r.state == HeaderValue && r.state != HeaderValue ==> o.eff == Byte(Value))
      && (o.go == Again ==> !InHeader(o.r.state) && !AfterData(r.state) && Rank(o.r.state) < Rank(r.state)))
  }

  lemma ValueEntry(r: Regs, ch: char)
    ensures ValueEdges(r, Switch(r, ch))
    ensures r.state == HeaderValue && ch == LF ==>
              Switch(r, ch) == Move(r.(state := HeaderAlmostDone), Flush(Value), Again)
    ensures r.state == HeaderField && !IsToken(ch) && Switch(r, ch).Move? ==>
              Switch(r, ch).r.state == HeaderValueDiscardWs
  {
    AlmostDoneFrom(r, ch);
    FieldFrom(r, ch);
    hide Switch, IsToken;
  }

  lemma AlmostDoneFrom(r: Regs, ch: char)
    ensures var o := Switch(r, ch);
            && (o.Move? && o.r.state == HeaderAlmostDone ==> r.state == HeaderValue && o.eff == Flush(Value))
            && (r.state == HeaderAlmostDone && o.Move? ==> o.go == Advance && o.r.state == HeaderValueLws)
            && (r.state.BodyIdentity? && o.Move? ==> !InHeader(o.r.state))
            && (r.state == HeaderValue && ch == LF ==> o == Move(r.(state := HeaderAlmostDone), Flush(Value), Again))
  {
    hide Lawful, Tracked, MethodName, ParseUrlChar, ValueByte, ValueStart, FieldToken, IsToken, Token, ShouldKeepAlive;
  }

  lemma FieldFrom(r: Regs, ch: char)
    ensures var o := Switch(r, ch);
            && (r.state.MessageDone? && o.Move? ==> o.go != Again && !InHeader(o.r.state))
            && (o.Move? && o.r.state == HeaderField && r.state != HeaderField ==>
                  r.state.HeaderFieldStart? && o.go == Advance)
            && (o.Move? && o.go == Again ==> o.r.state != HeaderField)
            && (r.state == HeaderField && o.Move? && !IsToken(ch) ==> o.r.state == HeaderValueDiscardWs)
  {
    if r.state.MessageDone? || r.state == HeaderField || r.state.HeaderFieldStart? { InField(r, ch); }
    IntoField(r, ch);
    hide Switch, IsToken;
  }

  lemma InField(r: Regs, ch: char)
    requires r.state.MessageDone? || r.state == HeaderField || r.state.HeaderFieldStart?
    ensures var o := Switch(r, ch);
            && (r.state.MessageDone? && o.Move? ==> o.go != Again && !InHeader(o.r.state))
            && (r.state.HeaderFieldStart? && o.Move? && o.r.state == HeaderField ==> o.go == Advance)
            && (r.state == HeaderField && o.Move? ==>
                  o.go == Advance && (!IsToken(ch) ==> o.r.state == HeaderValueDiscardWs))
  {
    hide Lawful, Tracked, MethodName, ParseUrlChar, ValueByte, ValueStart, FieldToken, IsToken, Token, ShouldKeepAlive;
  }

  lemma IntoField(r: Regs, ch: char)
    ensures var o := Switch(r, ch);
            o.Move? && o.r.state == HeaderField ==> r.state == HeaderField || r.state.HeaderFieldStart?
  {
    hide Lawful, Tracked, MethodName, ParseUrlChar, ValueByte, ValueStart, FieldToken, IsToken, Token, ShouldKeepAlive;
  }

  // What a dispatch of one transition tells the loop.
  function FlowOf(o: Out, p: nat, errno: Errno): Flow
    requires o.Move?
  {
    if errno != Ok || o.go == Leave then Return(Consumed(p, o.go))
    else if o.go == Again then Redo(p)
    else Next(p + 1)
  }

  // A value is marked at its first byte.
  lemma MarkedFirst(r: Regs, o: Out, marks: Marks, p: nat)
    requires MarksOk(r.state, marks, p) && Tracked(r, o) && !r.state.BodyIdentity?
    requires o.Move? && o.eff == Byte(Value) && r.state != HeaderValue
    ensures Mark(marks, Value, p) == map[Value := p]
  {
  }

  // A token byte of a header name.
  lemma FieldTokenStep(skip: Skip, c: Conf, input: string)
    requires ConfInv(c) && input != "" && c.r.state.HeaderField? && IsToken(input[0])
    ensures var t := FieldToken(c.r.hstate, c.r.index, Token(input[0]));
            && t.Some?
            && var c' := c.(r := c.r.(hstate := t.value.0, index := t.value.1),
                            log := Merge(c.log, Data(Field, [input[0]])),
                            pos := c.pos + 1, hdr := c.hdr + 1, peak := Max(c.peak, c.hdr + 1));
               ConfInv(c') && Run(skip, c, input) == Run(skip, c', input[1..])
  {
    hide Run, Switch, ConfInv, FieldToken, IsToken, Token, Merge, EndsWith;
    AfterKeeps(skip, c, input[0]);
    FieldTokenSwitch(c.r, input[0]);
    RunStep(skip, c, input, Switch(c.r, input[0]));
  }

  lemma ValueCRSwitch(r: Regs)
    requires r.state.HeaderValue?
    ensures Switch(r, CR) == Move(r.(state := HeaderAlmostDone), Flush(Value), Advance)
  {
  }

  lemma ValueMarked(marks: Marks, p: nat)
    requires MarksOk(HeaderValue, marks, p)
    ensures Value in marks && marks[Value] <= p
  {
  }

  lemma ValueByteSwitch(r: Regs, ch: char)
    requires r.state.HeaderValue? && ch != CR && ch != LF
    ensures Switch(r, ch) == ValueByte(r, ch)
  {
    hide ValueByte, Lawful, Tracked;
  }

  // A byte of a header value.
  lemma ValueByteStep(skip: Skip, c: Conf, input: string)
    requires ConfInv(c) && input != "" && c.r.state.HeaderValue? && input[0] != CR && input[0] != LF
    ensures var o := ValueByte(c.r, input[0]);
            && !o.Fatal?
            && (o.Fail? ==> Run(skip, c, input) == Failed(o.e, c.pos, c.peak))
            && (o.Move? ==>
                  var c' := c.(r := o.r, log := Merge(c.log, Data(Value, [input[0]])),
                               pos := c.pos + 1, hdr := c.hdr + 1, peak := Max(c.peak, c.hdr + 1));
                  ConfInv(c') && Run(skip, c, input) == Run(skip, c', input[1..]))
  {
    hide Run, Switch, ConfInv, ValueByte, Merge, EndsWith;
    AfterKeeps(skip, c, input[0]);
    ValueByteSwitch(c.r, input[0]);
    var o := ValueByte(c.r, input[0]);
    match o
    case Fail(e) => FailStep(skip, c, input, e);
    case Move(_, _, _) => RunStep(skip, c, input, o);
  }

  /** The log of a parser in the middle of a name, value, URL or status ends in that. */
  lemma MarkEnds(c: Conf, k: Kind)
    requires ConfInv(c) && LiveKind(c.r.state) == Some(k) && k != Body
    ensures EndsWith(c.log, k)
  {
    hide RegInv, PhaseOf, EndsWith;
    PhaseEnds(c.r.kind, c.log, k);
    LiveKindRequest(c.r);
  }

  lemma LiveKindRequest(r: Regs)
    requires RegInv(r)
    ensures r.state.UrlPart? ==> r.kind == Request
    ensures r.state.StatusLine? ==> r.kind == Response
  {
    hide MethodName;
  }

  lemma TakeHeaderKeeps(c: Conf, k: Kind, bytes: string)
    requires ConfInv(c) && LiveKind(c.r.state) == Some(k) && k != Body
    ensures ConfInv(TakeHeader(c, k, bytes))
  {
    MarkEnds(c, k);
    NotBad(c.r, PhaseOf(c.r.kind, c.log));
    hide RegInv, PhaseInv, PhaseOf;
    PhaseEnds(c.r.kind, c.log, k);
    PhaseMerge(c.r.kind, c.log, k, bytes);
  }

  // Without a line end in the next 80 KiB there is no valid header.
  lemma EndlessValue(skip: Skip, c: Conf, input: string)
    requires ConfInv(c) && c.r.state.HeaderValue? && c.r.hstate == General
    requires |input| > MAX_HEADER && NoLineEnd(input[..MAX_HEADER])
    ensures TooLong(Run(skip, c, input))
  {
    hide ConfInv, Run, Merge, EndsWith;
    MarkEnds(c, Value);
    HdrBelowPeak(c);
    RunKeeps(skip, c, input);
    assert input == input[..MAX_HEADER] + input[MAX_HEADER..];
    GeneralValueRun(skip, c, input[..MAX_HEADER], input[MAX_HEADER..]);
    CountsFirst(skip, TakeHeader(c, Value, input[..MAX_HEADER]), input[MAX_HEADER..]);
  }

  // memchr
  method MemChr(data: string, from: nat, limit: nat, ch: char) returns (i: Option<nat>)
    requires from + limit <= |data|
    ensures i.Some? ==> from <= i.value < from + limit && data[i.value] == ch && ch !in data[from..i.value]
    ensures i.None? ==> ch !in data[from..from + limit]
  {
    var p := from;
    while p < from + limit
      invariant from <= p <= from + limit && ch !in data[from..p]
    {
      if data[p] == ch { return Some(p); }
      p := p + 1;
    }
    return None;
  }

  // The jump over a general header value: to the first line end within 80 KiB, or to the end of the buffer.
  method SkipGeneral(data: string, p: nat) returns (q: nat)
    requires p < |data|
    ensures p <= q <= |data|
    ensures NoLineEnd(data[p..q]) || (q == |data| && |data| - p > MAX_HEADER && NoLineEnd(data[p..p + MAX_HEADER]))
    ensures q < |data| ==> data[q] == CR || data[q] == LF
  {
    var limit := if |data| - p < MAX_HEADER then |data| - p else MAX_HEADER;
    var cr := MemChr(data, p, limit, CR);
    var lf := MemChr(data, p, limit, LF);
    q := if cr.Some? then (if lf.Some? && cr.value >= lf.value then lf.value else cr.value)
         else if lf.Some? then lf.value
         else |data|;
    var r := if cr.None? && lf.None? then p + limit else q;
    forall i | 0 <= i < r - p ensures data[p..r][i] != CR && data[p..r][i] != LF {
      assert data[p + i] == data[p..r][i];
      if cr.Some? { assert p + i < cr.value; assert data[p..cr.value][i] == data[p + i]; }
      else { assert data[p..p + limit][i] == data[p + i]; }
      if lf.Some? { assert p + i < lf.value; assert data[p..lf.value][i] == data[p + i]; }
      else { assert data[p..p + limit][i] == data[p + i]; }
    }
  }

  /** Taking a stretch of the body keeps the invariant. */
  lemma TakeBodyKeeps(c: Conf, bytes: string)
    requires ConfInv(c) && bytes != "" && BodyRoom(c.r, |bytes|)
    ensures ConfInv(TakeBodyBytes(c, bytes))
  {
    var ph := PhaseOf(c.r.kind, c.log);
    NotBad(c.r, ph);
    PhaseMerge(c.r.kind, c.log, Body, bytes);
    hide PhaseOf, MethodName, Merge, EndsWith;
    OneByteMore(c.r.kind, ph, bytes);
  }

  lemma OneByteMore(kind: ParserType, ph: Phase, bytes: string)
    requires bytes != ""
    ensures Advanced(kind, ph, Data(Body, bytes)) == Advanced(kind, ph, Data(Body, "x"))
  {
  }

  lemma MessageDoneKeeps(c: Conf, bytes: string)
    requires ConfInv(c) && bytes != "" && c.r.state == BodyIdentity
    ensures ConfInv(BodyDone(c, bytes))
  {
    var ph := PhaseOf(c.r.kind, c.log);
    NotBad(c.r, ph);
    PhaseMerge(c.r.kind, c.log, Body, bytes);
    hide PhaseOf, MethodName, Merge, EndsWith;
    OneByteMore(c.r.kind, ph, bytes);
  }

  lemma FinishRun(skip: Skip, c: Conf, data: string, start: nat, p: nat)
    requires ConfInv(c) && start <= p < |data| && c.r.state == BodyIdentity && p + 1 - start == c.r.length < NO_LENGTH
    ensures var c' := BodyDone(c, data[start..p + 1]);
            ConfInv(c') && Run(skip, c, data[start..]) == Run(skip, c', data[p..])
  {
    hide Switch, Merge, Run, EndsWith, ConfInv;
    assert data[start..p] + [data[p..][0]] == data[start..p + 1] && data[start..] == data[start..p] + data[p..];
    HdrBelowPeak(c);
    BodyEnd(skip, c, data[start..p], data[p..]);
    MessageDoneKeeps(c, data[start..p + 1]);
  }

  lemma BodyLength(c: Conf)
    requires ConfInv(c)
    ensures c.r.state.BodyIdentity? ==> 0 < c.r.length < NO_LENGTH
    ensures c.r.state == ChunkPart(ChunkData) ==> c.r.flags.chunked && 0 < c.r.length < NO_LENGTH
  {
    hide MethodName, PhaseInv;
  }

  // At the start of a call the marks of an unfinished data run are at the start of the buffer.
  lemma InitialLog(c: Conf, data: string)
    requires ConfInv(c)
    ensures MarksOk(c.r.state, InitialMarks(c.r.state), 0)
    ensures Pending(c.log, c.r.state, InitialMarks(c.r.state), data, 0) == c.log
  {
    hide ConfInv, Merge, EndsWith;
    match LiveKind(c.r.state)
    case None =>
    case Some(k) =>
      if k != Body {
        MarkEnds(c, k);
        MergeNothing(c.log, k);
        assert data[0..0] == "";
      }
  }

  lemma MarksAlone(s: State, marks: Marks, k: Kind, p: nat)
    requires MarksOk(s, marks, p) && k in marks
    ensures LiveKind(s) == Some(k) && marks - {k} == map[]
  {
  }

  lemma NoLineEndJoin(data: string, a: nat, b: nat, c: nat)
    requires a <= b <= c <= |data| && NoLineEnd(data[a..b]) && NoLineEnd(data[b..c])
    ensures NoLineEnd(data[a..c])
  {
    assert data[a..b] + data[b..c] == data[a..c];
  }

  lemma MoreSlack(res: Result, slack: nat, more: nat)
    requires OverflowJustified(res, slack) && slack <= more
    ensures OverflowJustified(res, more)
  {
  }

  lemma TooLongJustified(res: Result, slack: nat)
    requires TooLong(res)
    ensures OverflowJustified(res, slack)
  {
  }

  // The counter after a transition, and what holds of it: with `missed` bytes it should have counted
  // but did not, `slack` bytes counted twice, and `lost` bytes missed in all.
  function CountAfter(s: State, n: nat): nat {
    if ResetsCount(s) then 0 else n
  }

  datatype Tally = Tally(nread: nat, slack: nat, missed: nat, lost: nat)

  function TallyAfter(s: State, t: Tally): Tally {
    if ResetsCount(s) then Tally(0, 0, 0, t.lost) else t
  }

  predicate CountInv(c: Conf, arrived: nat, t: Tally) {
    && t.nread + t.missed == c.hdr + arrived + t.slack
    && t.nread <= MAX_HEADER && t.missed <= t.lost && c.peak <= MAX_HEADER + t.lost
    && (c.r.state == ChunkPart(ChunkSizeStart) ==> t.nread == arrived)
  }

  function Arrived(s: State): nat {
    if ParsingHeader(s) then 1 else 0
  }

  lemma CountKeeps(skip: Skip, c: Conf, ch: char, t: Tally)
    requires CountInv(c, Arrived(c.r.state), t) && Switch(c.r, ch).Move?
    ensures var o := Switch(c.r, ch);
            && (o.go == Again ==> o.r.state != ChunkPart(ChunkSizeStart))
            && CountInv(After(skip, c, o, ch), if o.go == Again then Arrived(o.r.state) else 0,
                        TallyAfter(c.r.state, t))
  {
    hide Switch, Apply, Answer;
    StateAfter(skip, c, Switch(c.r, ch), ch);
    AgainCounts(c.r, ch);
  }

  // A byte that will be looked at again by the next call is counted once more then.
  lemma Recount(c: Conf, r: Regs, log: seq<Event>, arrived: nat, t: Tally)
    requires CountInv(c, arrived, t) && r.state == c.r.state
    ensures CountInv(c.(r := r, log := log), arrived, t)
    ensures r.state != ChunkPart(ChunkSizeStart) ==>
              CountInv(c.(r := r, log := log), 0, t.(slack := t.slack + arrived))
  {
  }

  lemma HdrBelowPeak(c: Conf)
    requires ConfInv(c)
    ensures c.hdr <= c.peak
  {
  }

  lemma MergeNote(log: seq<Event>, e: Event)
    requires !e.Data?
    ensures Merge(log, e) == log + [e]
  {
  }

  // What the dispatch of one state does with the loop: go on at `p`, dispatch again on the byte at `p`,
  // or return `p` to the caller.
  datatype Flow = Next(p: nat) | Redo(p: nat) | Return(p: nat)

  // ---------- The parser ----------

  // The header-size error is raised only for a header that is too long, give or take the bytes counted twice.
  predicate TooLong(res: Result) {
    res.Failed? || Peak(res) > MAX_HEADER
  }

  predicate FailsWith(res: Result, e: Errno, at: nat) {
    res.Failed? && res.e == e && res.pos == at
  }

  predicate OverflowJustified(res: Result, slack: nat) {
    || res.Failed?
    || Peak(res) + slack > MAX_HEADER
    || (res.Live? && (res.c.r.state.HeaderField? || res.c.r.state.HeaderValue?) && Peak(res) + slack == MAX_HEADER)
  }

  // The input ends inside the name or the value of a header.
  predicate EndsInHeader(res: Result) {
    res.Live? && InHeader(res.c.r.state)
  }

  // The last byte of the input is inside a name or value, and not its first: it is counted twice.
  predicate Doubled(skip: Skip, c: Conf, s: string) {
    s != "" && EndsInHeader(Run(skip, c, s)) && EndsInHeader(Run(skip, c, s[..|s| - 1]))
  }

  lemma NotDoubled(skip: Skip, c: Conf, s: string)
    ensures Run(skip, c, s).Left? ==> !Doubled(skip, c, s)
  {
    hide Run;
  }

  // The first line end at or after `start` is at `e`.
  predicate EndsAt(data: string, start: nat, e: nat) {
    start <= e < |data| && NoLineEnd(data[start..e]) && (data[e] == CR || data[e] == LF)
  }

  lemma OneEnd(data: string, start: nat, p: nat, e: nat)
    requires start <= p <= |data| && NoLineEnd(data[start..p]) && (p < |data| ==> data[p] == CR || data[p] == LF)
    requires EndsAt(data, start, e)
    ensures p == e
  {
    assert forall i :: start <= i < e ==> data[i] == data[start..e][i - start];
    assert forall i :: start <= i < p ==> data[i] == data[start..p][i - start];
  }

  // The jump to the next line end went beyond what it looked at.
  predicate Overshot(data: string, start: nat) {
    start + MAX_HEADER < |data| && NoLineEnd(data[start..start + MAX_HEADER])
  }

  lemma OvershotFrom(data: string, start: nat, p: nat)
    requires start <= p <= |data| && NoLineEnd(data[start..p]) && Overshot(data, p)
    ensures Overshot(data, start)
  {
    NoLineEndJoin(data, start, p, p + MAX_HEADER);
    assert data[start..start + MAX_HEADER] == data[start..p + MAX_HEADER][..MAX_HEADER];
  }

  lemma NoEndYet(data: string, start: nat, e: nat)
    requires Overshot(data, start) && start <= e && e - start < MAX_HEADER
    ensures data[e] != CR && data[e] != LF
  {
    assert data[start..start + MAX_HEADER][e - start] == data[e];
  }

  // A value that ends with a CR at `e` in this buffer, within 80 KiB, and whose callback stops the parser.
  ghost predicate Cuts(env: Env, trace: seq<Event>, data: string, mark: nat, start: nat, e: nat) {
    && mark <= start && EndsAt(data, start, e) && data[e] == CR && e - start < MAX_HEADER
    && env.verdict(trace + [Data(Value, data[mark..e])]) != Proceed
  }

  // A stretch of a general value.
  lemma GeneralStretch(skip: Skip, c: Conf, w: string)
    requires ConfInv(c) && c.r.state == HeaderValue && c.r.hstate == General && NoLineEnd(w) && w != ""
    ensures Run(skip, c, w) == Live(TakeHeader(c, Value, w)) && EndsInHeader(Run(skip, c, w[..|w| - 1]))
  {
    hide Run, Merge, EndsWith, ConfInv;
    MarkEnds(c, Value);
    HdrBelowPeak(c);
    assert w + "" == w && w[..|w| - 1] + "" == w[..|w| - 1];
    GeneralValueRun(skip, c, w, "");
    GeneralValueRun(skip, c, w[..|w| - 1], "");
    RunNothing(skip, TakeHeader(c, Value, w));
    RunNothing(skip, TakeHeader(c, Value, w[..|w| - 1]));
  }

  lemma AtItsStart(skip: Skip, before: Conf, data: string, start: nat)
    requires start <= |data|
    ensures Run(skip, before, data[start..start]) == Live(before)
  {
    assert data[start..start] == "";
  }

  // A stretch inside a name or value, lengthened by the bytes from `p` to `q`.
  lemma Lengthened(skip: Skip, before: Conf, now: Conf, later: Conf, data: string, start: nat, p: nat, q: nat)
    requires start <= p < q <= |data| && Run(skip, before, data[start..p]) == Live(now)
    requires Run(skip, now, data[p..q]) == Live(later) && EndsInHeader(Run(skip, now, data[p..q - 1]))
    ensures Run(skip, before, data[start..q]) == Live(later) && EndsInHeader(Run(skip, before, data[start..q - 1]))
  {
    hide Run;
    assert data[start..p] + data[p..q] == data[start..q] && data[start..p] + data[p..q - 1] == data[start..q - 1];
    RunAppend(skip, before, data[start..p], data[p..q]);
    RunAppend(skip, before, data[start..p], data[p..q - 1]);
  }

  // By one byte.
  lemma LengthenedByOne(skip: Skip, before: Conf, now: Conf, later: Conf, data: string, start: nat, p: nat)
    requires start <= p < |data| && Run(skip, before, data[start..p]) == Live(now) && InHeader(now.r.state)
    requires Run(skip, now, [data[p]]) == Run(skip, later, "")
    ensures Run(skip, before, data[start..p + 1]) == Live(later) && EndsInHeader(Run(skip, before, data[start..p]))
  {
    hide Run;
    RunNothing(skip, later);
    RunNothing(skip, now);
    assert data[p..p + 1] == [data[p]] && data[p..p] == "";
    Lengthened(skip, before, now, later, data, start, p, p + 1);
  }

  // A parser in error is of no further use.
  predicate Broken(e: Errno) {
    !e.Ok? && !e.Paused?
  }

  // The counter overflows only when the header bytes do.
  lemma OverflowOk(skip: Skip, c: Conf, input: string, nread: nat, slack: nat)
    requires ConfInv(c) && MAX_HEADER < nread <= c.hdr + slack + 1
    requires nread <= c.hdr + slack || ParsingHeader(c.r.state)
    requires nread <= c.hdr + slack || input != "" || c.r.state.HeaderField? || c.r.state.HeaderValue?
    ensures OverflowJustified(Run(skip, c, input), slack)
  {
    hide Run, RegInv, PhaseInv;
    if input == "" {
      RunNothing(skip, c);
    } else {
      RunKeeps(skip, c, input);
      RunPosition(skip, c, input);
      if ParsingHeader(c.r.state) { CountsFirst(skip, c, input); }
    }
  }

  // What the contracts of the dispatch below relate to: counters, calls and state before it.
  datatype Books = Books(nread: nat, slack: nat, lost: nat, trace: seq<Event>, state: State)

  // The books in the middle of a call that began with `b0`, before the byte at `p`.
  ghost predicate Midway(env: Env, b0: Books, b: Books, data: string, p: nat, marks: Marks) {
    && p <= |data| && (p == 0 ==> b.state == b0.state && b.trace == b0.trace)
    && (b.slack <= b0.slack || (b.slack == b0.slack + 1 && p == |data| && InHeader(b.state)))
    && (b0.slack == 0 && p < |data| ==> b.slack == 0)
    && b.lost == b0.lost && b.nread <= b0.nread + 2 * p && Obeyed(env, b0.trace, b.trace, Ok)
    && (p < |data| && b.state == HeaderValue ==> Value in marks && marks[Value] + (if p == 0 then 0 else 1) == p)
    && (0 < p < |data| && b0.state == HeaderValue ==>
          !NoLineEnd(data[..p]) && (b.state == HeaderValue ==> !NoLineEnd(data[..p - 1])))
  }

  // The value that is open before the last byte of `data[..n]` goes back to before the buffer.
  predicate Continued(before: State, data: string, n: nat) {
    before == HeaderValue && 0 < n <= |data| && NoLineEnd(data[..n - 1])
  }

  lemma StillEnded(data: string, a: nat, b: nat)
    requires a <= b <= |data| && !NoLineEnd(data[..a])
    ensures !NoLineEnd(data[..b])
  {
    var i :| 0 <= i < a && (data[..a][i] == CR || data[..a][i] == LF);
    assert data[..b][i] == data[..a][i];
  }

  lemma EndedWithin(data: string, a: nat, b: nat)
    requires a <= b <= |data| && !NoLineEnd(data[a..b])
    ensures !NoLineEnd(data[..b])
  {
    var i :| 0 <= i < b - a && (data[a..b][i] == CR || data[a..b][i] == LF);
    assert data[..b][a + i] == data[a..b][i];
  }

  class Parser {
    var r: Regs
    var nread: nat
    var errno: Errno
    var trace: seq<Event>   // the callbacks made so far

    // Position, header bytes since the last reset, the largest such count; since the last reset, header
    // bytes counted twice and header bytes not counted; and header bytes ever not counted.
    ghost var pos: nat
    ghost var hdr: nat
    ghost var peak: nat
    ghost var slack: nat
    ghost var missed: nat
    ghost var lost: nat

    // Between two calls: the configuration of the byte-at-a-time machine.
    ghost function Abs(): Conf
      reads this
    {
      Conf(r, Coalesce(trace), pos, hdr, peak)
    }

    // Inside a call, with the bytes of `data` up to `p` spent.
    ghost function Now(data: string, p: nat, marks: Marks): Conf
      requires MarksOk(r.state, marks, p) && p <= |data|
      reads this`r, this`trace, this`pos, this`hdr, this`peak
    {
      Conf(r, Pending(Coalesce(trace), r.state, marks, data, p), pos, hdr, peak)
    }

    ghost function Tallied(): Tally
      reads this
    {
      Tally(nread, slack, missed, lost)
    }

    // The counter is at least the number of header bytes; `arrived` is 1 when a byte is counted but not spent.
    ghost predicate Counted(arrived: nat)
      reads this
    {
      CountInv(Conf(r, [], pos, hdr, peak), arrived, Tallied())
    }

    ghost predicate Valid()
      reads this
    {
      Broken(errno) || (ConfInv(Abs()) && Counted(0))
    }

    constructor (t: ParserType)
      ensures Valid() && errno == Ok && trace == [] && Tallied() == Tally(0, 0, 0, 0)
      ensures Abs() == InitConf(t)
    {
      r, nread, errno, trace := InitRegs(t), 0, Ok, [];
      pos, hdr, peak, slack, missed, lost := 0, 0, 0, 0, 0, 0;
      new;
      assert RegInv(r) by { NameLengths(DELETE); }
    }

    method Callback(env: Env, e: Event)
      requires errno == Ok
      modifies this`trace, this`errno
      ensures trace == old(trace) + [e] && errno == Outcome(env, trace, e)
      ensures Coalesce(trace) == Merge(Coalesce(old(trace)), e)
    {
      CoalesceSnoc(trace, e);
      trace := trace + [e];
      errno := Outcome(env, trace, e);
    }

    method CountHeaderSize(v: nat)
      requires errno == Ok && nread <= MAX_HEADER && v < MAX_BUFFER
      modifies this`nread, this`errno
      ensures nread == old(nread) + v && errno == if nread > MAX_HEADER then HeaderOverflow else Ok
    {
      nread := (nread + v) % TWO_TO_THE_32;
      if nread > MAX_HEADER { errno := HeaderOverflow; }
    }

    // What a return to the caller promises: `res` is the run over the rest of the buffer, `rest` is
    // what is left unread and `at` the position reached.
    ghost predicate Reported(env: Env, res: Result, rest: string, at: nat)
      reads this
    {
      match errno
      case Ok => pos == at && ((rest == "" && res == Live(Abs())) || res == Left(Abs()))
      case Paused =>
        pos == at && LeftBy(env, trace, errno) && (Run(env.skip, Abs(), rest) == res || res == Left(Abs()))
      case CallbackFailed(e) =>
        pos == at && LeftBy(env, trace, errno) &&
        (e == HeadersComplete || Run(env.skip, Abs(), rest) == res || res == Left(Abs()))
      case HeaderOverflow => OverflowJustified(res, slack)
      case e => res.Failed? && res.e == e && res.pos == at
    }

    // A byte is counted twice only when the buffer ends inside a name or a value, or by a callback that
    // stops the parser at a byte that is looked at again.
    ghost predicate SlackOk(before: nat, end: nat, flow: Flow)
      reads this
    {
      slack <= before ||
      (slack == before + 1 && if flow.Return? then Stopped(errno) else flow == Next(end) && InHeader(r.state))
    }

    // From no bytes counted twice: the last byte of the buffer is if it is in the same name or value as the byte
    // the dispatch began with.
    ghost predicate Doubling(b: Books, end: nat, flow: Flow)
      reads this
    {
      b.slack == 0 ==>
        && (flow.Redo? ==> slack == 0)
        && (flow.Next? ==> slack == if flow.p == end && InHeader(b.state) && InHeader(r.state) then 1 else 0)
    }

    // Stopped by the callback of a value, at the CR just consumed.
    ghost predicate AtCR(data: string, n: nat)
      reads this`errno, this`r
    {
      Stopped(errno) && r.state == HeaderAlmostDone && 0 < n <= |data| && data[n - 1] == CR
    }

    // The bytes of a value that go uncounted: those before a CR whose callback stops the parser.
    ghost function LostBy(data: string, start: nat, flow: Flow): nat
      reads this`errno, this`r
    {
      if flow.Return? && AtCR(data, flow.p) && start < flow.p then flow.p - 1 - start else 0
    }

    // The callback at such a CR was that of the value since its mark.
    ghost predicate ToldCut(data: string, start: nat, flow: Flow, marks: Marks, b: Books)
      requires start <= flow.p
      reads this`errno, this`r, this`trace
    {
      flow.Return? && AtCR(data, flow.p) ==>
        var end := if start < flow.p then flow.p - 1 else start;
        && b.state == HeaderValue && Value in marks && marks[Value] <= start
        && trace == b.trace + [Data(Value, data[marks[Value]..end])] && NoLineEnd(data[start..end])
    }

    // A value is entered at its second byte, the mark being at its first, and it is left at a line end.
    ghost predicate EnteredAfter(data: string, start: nat, flow: Flow, marks: Marks, before: State)
      requires start <= flow.p <= |data|
      reads this`r
    {
      match flow
      case Return(_) => true
      case Redo(q) =>
        && !InHeader(r.state) && !AfterData(before)
        && (InHeader(before) ==> before == HeaderValue)
        && (before == HeaderValue ==> r.state == HeaderAlmostDone && q < |data| && data[q] == LF)
      case Next(q) =>
        && (AfterData(before) ==> !InHeader(r.state))
        && (r.state == HeaderValue && q < |data| ==>
              before != HeaderValue && Value in marks && marks[Value] + 1 == q)
        && (before == HeaderValue && q < |data| ==> !NoLineEnd(data[start..q]))
    }

    ghost function Entries(): Books
      reads this
    {
      Books(nread, slack, lost, trace, r.state)
    }

    // The books after a dispatch at `p`: every byte is counted at most once more, exactly the bytes of a
    // value cut at its CR go uncounted, and callbacks are obeyed.
    ghost predicate Booked(env: Env, b: Books, data: string, p: nat, marks: Marks, flow: Flow, marks': Marks)
      reads this
    {
      && p <= flow.p <= |data| && SlackOk(b.slack, |data|, flow) && Doubling(b, |data|, flow)
      && EnteredAfter(data, p, flow, marks', b.state)
      && nread <= b.nread + flow.p - p && (errno == HeaderOverflow ==> nread > MAX_HEADER)
      && lost == b.lost + LostBy(data, p, flow) && ToldCut(data, p, flow, marks, b)
      && Obeyed(env, b.trace, trace, errno)
    }

    // The books of a dispatch that ends in an error.
    lemma FailedBooks(env: Env, b: Books, data: string, p: nat, q: nat, marks: Marks)
      requires p <= q <= |data| && slack == b.slack && lost == b.lost && trace == b.trace && !Stopped(errno)
      requires nread <= b.nread + q - p && (errno == HeaderOverflow ==> nread > MAX_HEADER)
      ensures Booked(env, b, data, p, marks, Return(q), marks)
    {
    }

    // The books of an inner loop that reached the end of the buffer.
    lemma ScannedBooks(env: Env, b: Books, data: string, p: nat, marks: Marks)
      requires p <= |data| && errno == Ok && trace == b.trace && nread <= b.nread + |data| - p && lost == b.lost
      requires slack == b.slack + 1 && InHeader(r.state) && b.state == r.state
      ensures Booked(env, b, data, p, marks, Next(|data|), marks)
    {
    }

    // The books when the byte at `q` is to be looked at again, and when that is done.
    ghost predicate Redone(env: Env, b: Books, b': Books, data: string, p: nat, q: nat) {
      && b'.slack <= b.slack && b'.nread <= b.nread + q - p && b'.lost == b.lost
      && (b.slack == 0 ==> b'.slack == 0)
      && Obeyed(env, b.trace, b'.trace, Ok) && !InHeader(b'.state) && !AfterData(b.state)
      && (InHeader(b.state) ==> b.state == HeaderValue)
      && (b.state == HeaderValue ==> b'.state == HeaderAlmostDone && q < |data| && data[q] == LF)
    }

    lemma BeforeRedo(env: Env, b: Books, data: string, p: nat, marks: Marks, flow: Flow, marks': Marks)
      requires flow.Redo? && errno == Ok && flow.p < |data| && Booked(env, b, data, p, marks, flow, marks')
      ensures Redone(env, b, Entries(), data, p, flow.p)
    {
      hide Obeyed;
    }

    lemma AfterRedo(env: Env, b: Books, b': Books, data: string, p: nat, q: nat, marks: Marks, marks1: Marks,
                    flow: Flow, marks': Marks)
      requires p <= q < |data| && Redone(env, b, b', data, p, q)
      requires Booked(env, b', data, q, marks1, flow, marks')
      requires flow.Next? ==> q < flow.p
      ensures Booked(env, b, data, p, marks, flow, marks')
    {
      ObeyedTwice(env, b.trace, b'.trace, trace, errno);
      hide Obeyed;
      if flow.Next? { assert data[p..flow.p][q - p] == data[q]; }
    }

    // The bytes that a call which stopped after `n` bytes did not count: those of a value cut at its CR, but
    // for a first byte in this buffer, which is counted on the way into the value.
    ghost function CutBytes(before: State, data: string, n: nat): int
      reads this`errno, this`r, this`trace
    {
      if AtCR(data, n) && EndsWith(trace, Value) then
        |trace[|trace| - 1].bytes| - (if Continued(before, data, n) then 0 else 1)
      else 0
    }

    // The books at the end of the loop over the buffer.
    ghost predicate Closed(env: Env, b0: Books, data: string, flow: Flow)
      reads this
    {
      && Obeyed(env, b0.trace, trace, errno)
      && nread <= b0.nread + 2 * |data| && (errno == HeaderOverflow ==> nread > MAX_HEADER)
      && (slack <= b0.slack || (slack == b0.slack + 1 && if flow.Return? then Stopped(errno) else InHeader(r.state)))
      && lost == b0.lost + (if flow.Return? then CutBytes(b0.state, data, flow.p) else 0)
      && (flow.Return? && AtCR(data, flow.p) ==>
            EndsWith(trace, Value) &&
            (Continued(b0.state, data, flow.p) ==> trace == b0.trace + [Data(Value, data[0..flow.p - 1])]))
    }

    // One more byte.
    lemma NextBooks(env: Env, b0: Books, b: Books, c: nat, data: string, p: nat, marks: Marks, flow: Flow,
                    marks': Marks)
      requires p < |data| && c <= 1 && Midway(env, b0, b, data, p, marks)
      requires Booked(env, b.(nread := b.nread + c), data, p, marks, flow, marks')
      requires flow.Next? && errno == Ok && p < flow.p
      ensures Midway(env, b0, Entries(), data, flow.p, marks')
    {
      ObeyedTwice(env, b0.trace, b.trace, trace, errno);
      hide Obeyed;
      if b0.state == HeaderValue && flow.p < |data| {
        if p == 0 { EndedWithin(data, p, flow.p); }
        else {
          StillEnded(data, p, flow.p);
          StillEnded(data, p, flow.p - 1);
        }
      }
    }

    // The last byte of the buffer, counted once or twice.
    lemma DoubledBooks(env: Env, b0: Books, b: Books, c: nat, data: string, p: nat, marks: Marks, flow: Flow,
                       marks': Marks)
      requires p < |data| && Midway(env, b0, b, data, p, marks) && flow == Next(|data|) && b0.slack == 0
      requires Booked(env, b.(nread := b.nread + c), data, p, marks, flow, marks')
      ensures slack == if InHeader(b.state) && InHeader(r.state) then 1 else 0
    {
      hide Obeyed;
    }

    // In terms of the run over the whole buffer.
    lemma WasDoubled(skip: Skip, before: Conf, now: Conf, data: string, p: nat, marks': Marks)
      requires p < |data| && Run(skip, before, data[..p]) == Live(now)
      requires Traced(skip, now, data, p, Next(|data|), marks')
      ensures Run(skip, before, data[..|data|]) == Live(Now(data, |data|, marks'))
      ensures Doubled(skip, before, data) <==> InHeader(now.r.state) && InHeader(r.state)
    {
      hide Run, Pending, Coalesce;
      assert data[..p] + data[p..|data|] == data && data[..|data|] == data;
      JoinNext(skip, before, data[..p], now, data[p..|data|], Now(data, |data|, marks'));
      if p + 1 < |data| {
        assert data[..p] + data[p..|data| - 1] == data[..|data| - 1];
        RunAppend(skip, before, data[..p], data[p..|data| - 1]);
      } else {
        assert data[..|data| - 1] == data[..p];
      }
    }

    lemma TracedNext(skip: Skip, before: Conf, now: Conf, data: string, p: nat, q: nat, marks': Marks)
      requires p < q <= |data| && Run(skip, before, data[..p]) == Live(now) && Traced(skip, now, data, p, Next(q), marks')
      ensures MarksOk(r.state, marks', q) && Run(skip, before, data[..q]) == Live(Now(data, q, marks'))
    {
      hide Run, Pending, Coalesce;
      assert data[..p] + data[p..q] == data[..q];
      JoinNext(skip, before, data[..p], now, data[p..q], Now(data, q, marks'));
    }

    // The last byte of the call.
    lemma LastBooks(env: Env, b0: Books, b: Books, c: nat, data: string, p: nat, marks: Marks, flow: Flow,
                    marks': Marks)
      requires p < |data| && c <= 1 && Midway(env, b0, b, data, p, marks)
      requires Booked(env, b.(nread := b.nread + c), data, p, marks, flow, marks') && flow.Return?
      ensures Closed(env, b0, data, flow)
    {
      ObeyedTwice(env, b0.trace, b.trace, trace, errno);
      hide Obeyed;
      if AtCR(data, flow.p) && b0.state == HeaderValue {
        if 0 < p {
          StillEnded(data, if flow.p == p then p - 1 else p, flow.p - 1);
        }
      }
    }

    lemma FirstBooks(env: Env, b0: Books, data: string, marks: Marks)
      requires marks == InitialMarks(b0.state)
      ensures Midway(env, b0, b0, data, 0, marks)
    {
    }

    // The books of a call that runs into the limit on the header at `p`.
    lemma StoppedBooks(env: Env, b0: Books, b: Books, data: string, p: nat, marks: Marks)
      requires p < |data| && Midway(env, b0, b, data, p, marks) && Entries() == b.(nread := b.nread + 1)
      requires errno == HeaderOverflow && nread > MAX_HEADER
      ensures Closed(env, b0, data, Return(p))
    {
    }

    // The books of a call that comes to the end of the buffer.
    lemma WholeBooks(env: Env, b0: Books, data: string, marks: Marks)
      requires Midway(env, b0, Entries(), data, |data|, marks) && errno == Ok
      ensures Closed(env, b0, data, Next(|data|))
    {
    }

    // A call that goes on cuts no value.
    lemma GoneOn(env: Env, b0: Books, data: string, flow: Flow)
      requires CutShort(env, b0.trace, b0.nread + 1, b0.lost, data, 0, 0, flow) && flow.Next? && errno == Ok
      ensures forall e :: !Cuts(env, b0.trace, data, 0, 0, e)
    {
    }

    lemma Uncut(env: Env, b0: Books, data: string, flow: Flow, guarded: bool)
      requires guarded ==> forall e :: !Cuts(env, b0.trace, data, 0, 0, e)
      ensures guarded ==> CutShort(env, b0.trace, b0.nread + 1, b0.lost, data, 0, 0, flow)
    {
    }

    // A byte after a value is looked at again in s_header_almost_done; one after a name is not.
    lemma RedoAfterValue(env: Env, b: Books, data: string, p: nat, marks: Marks, flow: Flow, marks': Marks)
      requires Booked(env, b, data, p, marks, flow, marks') && flow.Redo? && InHeader(b.state)
      ensures r.state == HeaderAlmostDone
    {
      hide Obeyed;
    }

    // The books of body bytes, which are not counted.
    lemma BodyBooks(env: Env, b: Books, data: string, p: nat, marks: Marks, flow: Flow, marks': Marks)
      requires p <= flow.p <= |data| && !InHeader(b.state) && !AfterData(b.state)
      requires !InHeader(r.state) && r.state != HeaderAlmostDone
      requires nread == b.nread && slack == b.slack && lost == b.lost && errno != HeaderOverflow
      requires Obeyed(env, b.trace, trace, errno)
      ensures Booked(env, b, data, p, marks, flow, marks')
    {
      hide Obeyed;
    }

    // The books of a value that ends with the CR at `p`.
    lemma CutBooks(env: Env, b: Books, data: string, start: nat, p: nat, marks: Marks, flow: Flow, marks': Marks)
      requires start <= p < |data| && data[p] == CR && NoLineEnd(data[start..p])
      requires b.state == HeaderValue && r.state == HeaderAlmostDone && Value in marks && marks[Value] <= start
      requires var e := Data(Value, data[marks[Value]..p]);
        && trace == b.trace + [e]
        && Outcome(env, trace, e) == if errno == HeaderOverflow then Ok else errno
      requires Stopped(errno) ==> nread == b.nread && lost == b.lost + (p - start)
      requires !Stopped(errno) ==>
                 nread == b.nread + (p - start) && lost == b.lost && (errno == Ok <==> nread <= MAX_HEADER)
      requires slack == b.slack
      requires flow == if errno == HeaderOverflow then Return(p) else if errno == Ok then Next(p + 1) else Return(p + 1)
      ensures Booked(env, b, data, start, marks, flow, marks')
      ensures CutShort(env, b.trace, b.nread, b.lost, data, marks[Value], start, flow)
    {
      ghost var e := Data(Value, data[marks[Value]..p]);
      ObeyedOnce(env, b.trace, e);
      assert data[start..p + 1][p - start] == CR;
      forall i | Cuts(env, b.trace, data, marks[Value], start, i) ensures i == p { OneEnd(data, start, p, i); }
    }

    // The books of a single transition.
    lemma SteppedBooks(env: Env, b: Books, before: Regs, o: Out, data: string, p: nat, marks: Marks, flow: Flow,
                       marks': Marks)
      requires p < |data| && MarksOk(before.state, marks, p) && b.state == before.state && !before.state.BodyIdentity?
      requires o == Switch(before, data[p]) && o.Move? && r.state == o.r.state && flow == FlowOf(o, p, errno)
      requires (before.state == HeaderValue ==> data[p] == LF) && (before.state == HeaderField ==> !IsToken(data[p]))
      requires nread <= b.nread && lost == b.lost
      requires Obeyed(env, b.trace, trace, errno) && (errno == Ok || Stopped(errno))
      requires slack <= b.slack || (slack == b.slack + 1 && Stopped(errno) && flow.Return?)
      requires o.eff == Byte(Value) ==> marks' == Mark(marks, Value, p)
      requires o.eff == Flush(Value) && Value in marks && errno != Ok ==>
                 trace == b.trace + [Data(Value, data[marks[Value]..p])]
      ensures Booked(env, b, data, p, marks, flow, marks')
    {
      ValueEntry(before, data[p]);
      hide Switch, Obeyed, IsToken;
      if r.state == HeaderValue && before.state != HeaderValue {
        MarkedFirst(before, o, marks, p);
      }
      if before.state == HeaderValue { ValueMarked(marks, p); }
    }

    // The books of a dispatch whose inner loop took the bytes from `start` to `p`.
    lemma Rebooked(env: Env, b: Books, data: string, start: nat, p: nat, marks: Marks, flow: Flow, marks': Marks)
      requires start <= p && Booked(env, b.(nread := b.nread + (p - start)), data, p, marks, flow, marks')
      requires b.state == HeaderValue ==>
                 && Value in marks && marks[Value] <= start && NoLineEnd(data[start..p])
                 && p < |data| && data[p] == LF && flow.p <= p + 1
      ensures Booked(env, b, data, start, marks, flow, marks')
    {
      hide Obeyed, EndsWith;
      if flow.p == p && start < p { assert data[p - 1] == data[start..p][p - 1 - start]; }
      if flow.Next? && !NoLineEnd(data[p..flow.p]) {
        var i :| 0 <= i < flow.p - p && (data[p..flow.p][i] == CR || data[p..flow.p][i] == LF);
        assert data[start..flow.p][p - start + i] == data[p..flow.p][i];
      }
    }

    // A value whose callback stops the parser at a CR: the call is over there, the value is uncounted.
    ghost predicate CutShort(env: Env, before: seq<Event>, nread0: nat, lost0: nat, data: string, mark: nat, start: nat,
                             flow: Flow)
      reads this
    {
      forall e: nat :: Cuts(env, before, data, mark, start, e) && errno != InvalidContentLength ==>
        && flow == Return(e + 1) && trace == before + [Data(Value, data[mark..e])]
        && errno == Outcome(env, trace, Data(Value, "")) && nread == nread0 && lost == lost0 + (e - start)
    }

    // What the dispatch of one state ensures, from the configuration `before` with the byte at `p` next.
    ghost predicate Dispatched(env: Env, before: Conf, data: string, p: nat, flow: Flow, marks: Marks)
      requires p <= |data|
      reads this
    {
      var res := Run(env.skip, before, data[p..]);
      && p <= flow.p <= |data|
      && match flow
         case Return(q) =>
           && Valid() && Reported(env, res, data[q..], before.pos + (q - p))
           && (errno == Paused ==> p < q || Rank(r.state) < Rank(before.r.state)) && (errno == Ok ==> res.Left?)
         case Next(q) =>
           && p < q && errno == Ok && MarksOk(r.state, marks, q) && Counted(0) && pos == before.pos + (q - p)
           && ConfInv(Now(data, q, marks)) && Run(env.skip, Now(data, q, marks), data[q..]) == res
         case Redo(q) =>
           && q < |data| && errno == Ok && MarksOk(r.state, marks, q) && Counted(Arrived(r.state))
           && pos == before.pos + (q - p) && (p < q || Rank(r.state) < Rank(before.r.state))
           && ConfInv(Now(data, q, marks)) && Run(env.skip, Now(data, q, marks), data[q..]) == res
    }

    // Where the run stands after a dispatch at `p`; and a stretch of several bytes that ends inside a name or value
    // is all of it.
    ghost predicate Traced(skip: Skip, before: Conf, data: string, p: nat, flow: Flow, marks: Marks)
      reads this`r, this`trace, this`pos, this`hdr, this`peak
    {
      match flow
      case Return(_) => true
      case Redo(q) =>
        && p <= q < |data| && MarksOk(r.state, marks, q)
        && Onward(skip, before, data[p..q], Now(data, q, marks), data[q]) && (p < q ==> AfterData(r.state))
      case Next(q) =>
        && p < q <= |data| && MarksOk(r.state, marks, q)
        && Run(skip, before, data[p..q]) == Live(Now(data, q, marks))
        && (p + 1 < q && InHeader(r.state) ==>
              InHeader(before.r.state) && EndsInHeader(Run(skip, before, data[p..q - 1])))
    }

    // All of the bytes from `start` to `p` are in one name or value.
    ghost predicate Through(skip: Skip, before: Conf, data: string, start: nat, p: nat, marks: Marks)
      requires start <= p <= |data| && MarksOk(r.state, marks, p)
      reads this`r, this`trace, this`pos, this`hdr, this`peak
    {
      && Run(skip, before, data[start..p]) == Live(Now(data, p, marks))
      && (start < p ==> EndsInHeader(Run(skip, before, data[start..p - 1])))
    }

    lemma ThroughAt(skip: Skip, before: Conf, data: string, start: nat, p: nat, marks: Marks)
      requires start <= p <= |data| && MarksOk(r.state, marks, p) && Through(skip, before, data, start, p, marks)
      ensures Run(skip, before, data[start..p]) == Live(Now(data, p, marks))
    {
    }

    // At the end of the buffer.
    lemma ThroughEnds(skip: Skip, before: Conf, data: string, start: nat, marks: Marks)
      requires start < |data| && MarksOk(r.state, marks, |data|) && Through(skip, before, data, start, |data|, marks)
      requires InHeader(before.r.state)
      ensures Traced(skip, before, data, start, Next(|data|), marks)
    {
      hide Run, Pending, Coalesce, MarksOk;
    }

    lemma ReturnTraced(skip: Skip, before: Conf, data: string, start: nat, flow: Flow, marks: Marks)
      requires flow.Return?
      ensures Traced(skip, before, data, start, flow, marks)
    {
    }

    // A dispatch at `p`, after such bytes.
    lemma TracedFrom(skip: Skip, before: Conf, now: Conf, data: string, start: nat, p: nat, flow: Flow, marks': Marks)
      requires start <= p < |data| && Run(skip, before, data[start..p]) == Live(now)
      requires InHeader(before.r.state) && InHeader(now.r.state)
      requires Traced(skip, now, data, p, flow, marks')
      requires match flow case Return(_) => true case Redo(q) => q == p && AfterData(r.state) case Next(q) => q == p + 1
      ensures Traced(skip, before, data, start, flow, marks')
    {
      hide Run, Pending, Coalesce;
      match flow
      case Return(_) =>
      case Redo(q) =>
        assert data[start..p] + data[p..q] == data[start..q];
        JoinOnward(skip, before, data[start..p], now, data[p..q], Now(data, q, marks'), data[q]);
      case Next(q) =>
        assert data[start..p] + data[p..q] == data[start..q];
        JoinNext(skip, before, data[start..p], now, data[p..q], Now(data, q, marks'));
    }

    // Another dispatch, after the byte at `p` was to be looked at again.
    lemma TracedOn(skip: Skip, before: Conf, now: Conf, data: string, start: nat, p: nat, flow: Flow, marks': Marks)
      requires start <= p < |data| && Onward(skip, before, data[start..p], now, data[p])
      requires !InHeader(now.r.state) && (start < p ==> AfterData(now.r.state))
      requires Traced(skip, now, data, p, flow, marks') && p <= flow.p <= |data|
      requires AfterData(now.r.state) ==> !flow.Redo? && (flow.Next? ==> !InHeader(r.state))
      ensures Traced(skip, before, data, start, flow, marks')
    {
      hide Run, Pending, Coalesce;
      match flow
      case Return(_) =>
      case Redo(q) =>
        assert data[start..p] + data[p..q] == data[start..q];
        assert p < q ==> data[p..q][0] == data[p];
        OnwardTwice(skip, before, data[start..p], now, data[p..q], Now(data, q, marks'), data[q]);
      case Next(q) =>
        assert data[start..p] + data[p..q] == data[start..q] && data[p..q][0] == data[p];
        OnwardNext(skip, before, data[start..p], now, data[p..q], Now(data, q, marks'));
    }

    // The callback for `e` was made, and its outcome is in `errno`.
    ghost predicate Called(env: Env, before: seq<Event>, e: Event)
      reads this`trace, this`errno
    {
      trace == before + [e] && errno == Outcome(env, trace, e)
    }

    // What a transition out of state `s` does besides setting the registers: marks and callbacks.
    method Act(env: Env, data: string, p: nat, marks: Marks, s: State, o: Out, ghost before: Regs)
      returns (marks': Marks)
      requires errno == Ok && p < |data| && MarksOk(s, marks, p) && !s.BodyIdentity?
      requires o.Move? && r == o.r && Tracked(before, o) && before.state == s
      modifies this`trace, this`errno, this`r
      ensures LeftBy(env, trace, errno)
      ensures errno != Ok || o.eff.Note? ==> marks' == map[]
      ensures errno != Ok && o.eff.Flush? ==> EndsWith(trace, o.eff.k)
      ensures o.eff.Flush? && o.eff.k in marks ==> Called(env, old(trace), Data(o.eff.k, data[marks[o.eff.k]..p]))
      ensures Obeyed(env, old(trace), trace, errno) && (o.eff == Byte(Value) ==> marks' == Mark(marks, Value, p))
      ensures r.state == o.r.state && MarksOk(r.state, marks', Consumed(p, o.go))
      ensures var log := Apply(Pending(Coalesce(old(trace)), s, marks, data, p), o.eff, data[p]);
              && Pending(Coalesce(trace), r.state, marks', data, Consumed(p, o.go)) == log
              && (errno != Ok || o.eff.Note? ==> Coalesce(trace) == log)
              && (r == Answer(env.skip, o.r, o.eff, log) || (errno.CallbackFailed? && errno.ev == HeadersComplete))
    {
      hide Merge, Obeyed, Coalesce, ParsingHeader;
      NotObeyed(env, trace, Ok);
      marks' := marks;
      match o.eff {
        case Quiet =>
        case Byte(k) =>
          PendingBytes(Coalesce(trace), s, r.state, marks, k, data, p, p + 1);
          assert data[p..p + 1] == [data[p]];
          marks' := Mark(marks, k, p);
        case Flush(k) =>
          if k in marks {
            Callback(env, Data(k, data[marks[k]..p]));
            ObeyedOnce(env, old(trace), Data(k, data[marks[k]..p]));
            marks' := marks - {k};
          }
        case Empty(k) =>
          marks' := Mark(marks, k, p);
          assert data[marks'[k]..p] == "";
          Callback(env, Data(k, data[marks'[k]..p]));
          ObeyedOnce(env, old(trace), Data(k, data[marks'[k]..p]));
          marks' := marks' - {k};
        case Note(e) =>
          Callback(env, e);
          ObeyedOnce(env, old(trace), e);
          MergeNote(Coalesce(old(trace)), e);
          if e == HeadersComplete && !errno.CallbackFailed? && env.skip(Coalesce(trace)) {
            r := r.(flags := r.flags.(skipBody := true));
          }
      }
    }

    // One transition of the switch, but for the bookkeeping of the header-size counter.
    method Spend(env: Env, data: string, p: nat, marks: Marks, s: State, o: Out, ghost before: Conf, ghost after: Conf)
      returns (marks': Marks)
      requires errno == Ok && p < |data| < MAX_BUFFER && MarksOk(r.state, marks, p) && !r.state.BodyIdentity?
      requires before == Now(data, p, marks) && s == r.state
      requires o == Switch(r, data[p]) && o.Move? && after == After(env.skip, before, o, data[p])
      modifies this
      ensures LeftBy(env, trace, errno) && (errno == Ok || Stopped(errno))
      ensures r.state == o.r.state && MarksOk(r.state, marks', Consumed(p, o.go))
      ensures errno.CallbackFailed? || Now(data, Consumed(p, o.go), marks') == after
      ensures (errno == Paused || o.go == Leave) && !errno.CallbackFailed? ==> Abs() == after
      ensures errno.CallbackFailed? ==> Abs() == after || errno.ev == HeadersComplete
      ensures errno != Ok && o.eff.Flush? ==> EndsWith(trace, o.eff.k)
      ensures o.eff.Flush? && o.eff.k in marks ==> Called(env, old(trace), Data(o.eff.k, data[marks[o.eff.k]..p]))
      ensures Obeyed(env, old(trace), trace, errno) && (o.eff == Byte(Value) ==> marks' == Mark(marks, Value, p))
      ensures (pos, hdr, peak) == (after.pos, after.hdr, after.peak) && Tallied() == TallyAfter(s, old(Tallied()))
      ensures Run(env.skip, before, data[p..]) ==
              if o.go == Leave then Left(after) else Run(env.skip, after, data[Consumed(p, o.go)..])
    {
      hide Switch, Merge, EndsWith, Run, Apply, Answer, CountsByte, Pending, Tracked, MarksOk, ResetsCount, Called;
      hide Coalesce, NewMessage, Obeyed;
      assert data[p..][0] == data[p] && data[p..][1..] == data[p + 1..];
      RunStep(env.skip, before, data[p..], o);
      StateAfter(env.skip, before, o, data[p]);
      r := o.r;
      if ResetsCount(s) { nread := 0; }
      pos, hdr, peak := after.pos, after.hdr, after.peak;
      slack, missed := CountAfter(s, slack), CountAfter(s, missed);
      marks' := Act(env, data, p, marks, s, o, before.r);
    }

    // What is promised when the input is in error at `q`.
    lemma FailedRight(env: Env, before: Conf, data: string, p: nat, q: nat, marks': Marks)
      requires p <= q <= |data| && IsParseError(errno)
      requires FailsWith(Run(env.skip, before, data[p..]), errno, before.pos + (q - p))
      ensures Dispatched(env, before, data, p, Return(q), marks')
    {
      hide Run, ConfInv, CountInv;
    }

    // What a single transition that did its work promises.
    lemma SteppedRight(env: Env, before: Conf, o: Out, data: string, p: nat, flow: Flow, marks': Marks)
      requires p < |data| && o == Switch(before.r, data[p]) && o.Move? && flow == FlowOf(o, p, errno)
      requires LeftBy(env, trace, errno) && r.state == o.r.state && MarksOk(r.state, marks', Consumed(p, o.go))
      requires var after := After(env.skip, before, o, data[p]);
        && ConfInv(after) && pos == after.pos
        && (errno.CallbackFailed? || Now(data, Consumed(p, o.go), marks') == after)
        && ((errno == Paused || o.go == Leave) && !errno.CallbackFailed? ==> Abs() == after)
        && (errno.CallbackFailed? ==> Abs() == after || errno.ev == HeadersComplete)
        && Run(env.skip, before, data[p..]) ==
           if o.go == Leave then Left(after) else Run(env.skip, after, data[Consumed(p, o.go)..])
      requires errno.CallbackFailed? || Counted(if errno == Ok && o.go == Again then Arrived(r.state) else 0)
      ensures Dispatched(env, before, data, p, flow, marks')
    {
      ValueEntry(before.r, data[p]);
      StateAfter(env.skip, before, o, data[p]);
      hide Switch, Run, ConfInv, After, Lawful, MarksOk, Pending, CountInv, OverflowJustified, Rank;
    }

    // A single transition in the run.
    lemma SteppedTraced(skip: Skip, before: Conf, o: Out, data: string, p: nat, flow: Flow, marks': Marks)
      requires p < |data| && o == Switch(before.r, data[p]) && o.Move? && flow == FlowOf(o, p, errno)
      requires MarksOk(r.state, marks', Consumed(p, o.go))
      requires errno == Ok ==> Now(data, Consumed(p, o.go), marks') == After(skip, before, o, data[p])
      ensures Traced(skip, before, data, p, flow, marks')
      ensures match flow case Return(q) => q <= p + 1 case Redo(q) => q == p case Next(q) => q == p + 1
    {
      hide Switch, Run, After, Pending, Coalesce;
      ghost var after := After(skip, before, o, data[p]);
      if flow.Next? {
        RunStep(skip, before, [data[p]], o);
        assert data[p..p + 1] == [data[p]] && [data[p]][1..] == "";
        RunNothing(skip, after);
      }
      if flow.Redo? {
        forall t: string | t != "" && t[0] == data[p] ensures Run(skip, before, data[p..p] + t) == Run(skip, after, t) {
          assert data[p..p] + t == t;
          RunStep(skip, before, t, o);
        }
      }
    }

    // A transition with its callbacks, and the flow it leads to.
    method Step(env: Env, data: string, p: nat, marks: Marks, o: Out, ghost before: Conf)
      returns (flow: Flow, marks': Marks)
      requires errno == Ok && p < |data| < MAX_BUFFER && !r.state.BodyIdentity? && MarksOk(r.state, marks, p)
      requires before == Now(data, p, marks) && ConfInv(before) && Counted(Arrived(r.state))
      requires (r.state == HeaderValue ==> data[p] == LF) && (r.state == HeaderField ==> !IsToken(data[p]))
      requires o == Switch(r, data[p]) && o.Move?
      modifies this
      ensures Dispatched(env, before, data, p, flow, marks') && Traced(env.skip, before, data, p, flow, marks')
      ensures match flow case Return(q) => q <= p + 1 case Redo(q) => q == p case Next(q) => q == p + 1
      ensures Booked(env, old(Entries()), data, p, marks, flow, marks')
    {
      hide Switch, Merge, EndsWith, Run, ConfInv, Apply, Answer, CountsByte, Tracked, ResetsCount, Pending, MarksOk;
      hide Obeyed, Booked, OverflowJustified, Label, Lawful, Dispatched, Rank, Valid, LeftBy, CountInv, Traced;
      ghost var books, after := Entries(), After(env.skip, before, o, data[p]);
      AfterKeeps(env.skip, before, data[p]);
      Recount(before.(log := []), r, before.log, Arrived(r.state), Tallied());
      CountKeeps(env.skip, before, data[p], Tallied());
      StateAfter(env.skip, before, o, data[p]);
      marks' := Spend(env, data, p, marks, r.state, o, before, after);
      flow := FlowOf(o, p, errno);
      Recount(after, r, [], if o.go == Again then Arrived(r.state) else 0, Tallied());
      if errno != Ok && o.go == Again { slack := slack + Arrived(r.state); }
      SteppedBooks(env, books, before.r, o, data, p, marks, flow, marks');
      SteppedRight(env, before, o, data, p, flow, marks');
      SteppedTraced(env.skip, before, o, data, p, flow, marks');
    }

    // The switch on a byte that no inner loop takes.
    method Transition(env: Env, data: string, p: nat, marks: Marks, ghost before: Conf)
      returns (flow: Flow, marks': Marks)
      requires errno == Ok && p < |data| < MAX_BUFFER && !r.state.BodyIdentity? && MarksOk(r.state, marks, p)
      requires before == Now(data, p, marks) && ConfInv(before) && Counted(Arrived(r.state))
      requires (r.state == HeaderValue ==> data[p] == LF) && (r.state == HeaderField ==> !IsToken(data[p]))
      modifies this
      ensures Dispatched(env, before, data, p, flow, marks') && Traced(env.skip, before, data, p, flow, marks')
      ensures match flow case Return(q) => q <= p + 1 case Redo(q) => q == p case Next(q) => q == p + 1
      ensures Booked(env, old(Entries()), data, p, marks, flow, marks')
    {
      hide Switch, Merge, EndsWith, Run, ConfInv, Tracked, Pending, MarksOk, Booked, Dispatched, Counted, Lawful;
      var o := Switch(r, data[p]);
      ValueEntry(r, data[p]);
      AfterKeeps(env.skip, before, data[p]);
      match o
      case Fail(e) =>
        ghost var books := Entries();
        FailStep(env.skip, before, data[p..], e);
        errno := e;
        FailedBooks(env, books, data, p, p, marks);
        FailedRight(env, before, data, p, p, marks);
        return Return(p), marks;
      case Fatal =>
        assert false;
      case Move(_, _, _) =>
        flow, marks' := Step(env, data, p, marks, o, before);
    }

    // A stretch of bytes of kind `k` is spent, and nothing but registers and the mark show it.
    ghost predicate Scanned(skip: Skip, before: Conf, data: string, start: nat, p: nat, marks: Marks)
      requires start <= p <= |data| && MarksOk(r.state, marks, p)
      reads this
    {
      && ConfInv(Now(data, p, marks))
      && Run(skip, Now(data, p, marks), data[p..]) == Run(skip, before, data[start..])
      && pos == before.pos + (p - start) && hdr == before.hdr + (p - start) && peak == Max(before.peak, hdr)
    }

    // COUNT_HEADER_SIZE(p - start) after an inner loop that stopped at `p`, with everything up to `q` spent.
    method CountScan(env: Env, data: string, start: nat, p: nat, q: nat, marks: Marks, ghost before: Conf,
                     ghost overshot: bool)
      requires errno == Ok && start <= p <= q <= p + 1 && q <= |data| < MAX_BUFFER && ParsingHeader(before.r.state)
      requires MarksOk(r.state, marks, q) && (!before.r.state.ChunkPart? && !r.state.ChunkPart?)
      requires CountInv(before, 1, Tallied())
      requires if overshot then |data| - start > MAX_HEADER && p == |data| && TooLong(Run(env.skip, before, data[start..]))
               else Scanned(env.skip, before, data, start, q, marks) &&
                    (p == q ==> if p == |data| then r.state.HeaderField? || r.state.HeaderValue?
                                else ParsingHeader(r.state))
      modifies this`nread, this`errno
      ensures nread == old(nread) + (p - start) && (errno == Ok || (errno == HeaderOverflow && nread > MAX_HEADER))
      ensures errno == HeaderOverflow ==> OverflowJustified(Run(env.skip, before, data[start..]), slack)
      ensures errno == Ok ==> !overshot && CountInv(Conf(r, [], pos, hdr, peak), p + 1 - q, Tallied())
    {
      hide Run, ConfInv, Pending;
      CountHeaderSize(p - start);
      if errno != Ok {
        if overshot { TooLongJustified(Run(env.skip, before, data[start..]), slack); }
        else { OverflowOk(env.skip, Now(data, q, marks), data[q..], nread, slack); }
      }
    }

    // The inner loop of s_header_field over the bytes of a name.
    method ScanField(env: Env, data: string, start: nat, marks: Marks, ghost before: Conf) returns (p: nat)
      requires start < |data| && r.state.HeaderField? && MarksOk(r.state, marks, start)
      requires before == Now(data, start, marks) && ConfInv(before) && before.hdr <= before.peak
      modifies this`r, this`pos, this`hdr, this`peak
      ensures start <= p <= |data| && (p < |data| ==> !IsToken(data[p]))
      ensures r.state.HeaderField? && MarksOk(r.state, marks, p)
      ensures Scanned(env.skip, before, data, start, p, marks) && Through(env.skip, before, data, start, p, marks)
    {
      hide Switch, Merge, EndsWith, Run, FieldToken, ConfInv, IsToken, Token, Pending, Onward;
      p := start;
      AtItsStart(env.skip, before, data, start);
      while p < |data| && IsToken(data[p])
        invariant start <= p <= |data| && r.state.HeaderField? && MarksOk(r.state, marks, p)
        invariant Scanned(env.skip, before, data, start, p, marks) && Through(env.skip, before, data, start, p, marks)
      {
        ghost var now := Now(data, p, marks);
        FieldTokenStep(env.skip, now, data[p..]);
        FieldTokenStep(env.skip, now, [data[p]]);
        match FieldToken(r.hstate, r.index, Token(data[p])) {
          case None => assert false;
          case Some((h, i)) => r := r.(hstate := h, index := i);
        }
        PendingBytes(Coalesce(trace), now.r.state, r.state, marks, Field, data, p, p + 1);
        pos, hdr, peak := pos + 1, hdr + 1, Max(peak, hdr + 1);
        assert data[p..p + 1] == [data[p]] && data[p..][1..] == data[p + 1..] && [data[p]][1..] == "";
        LengthenedByOne(env.skip, before, now, Now(data, p + 1, marks), data, start, p);
        p := p + 1;
      }
    }

    // The scan of a name stopped at a byte that is no token byte, or at the end of the buffer.
    method FieldStop(env: Env, data: string, start: nat, p: nat, marks: Marks, ghost before: Conf)
      returns (flow: Flow, marks': Marks)
      requires errno == Ok && start <= p <= |data| && start < |data| < MAX_BUFFER
      requires r.state.HeaderField? && before.r.state == HeaderField && MarksOk(r.state, marks, p)
      requires ConfInv(before) && CountInv(before, 1, Tallied()) && Scanned(env.skip, before, data, start, p, marks)
      requires Through(env.skip, before, data, start, p, marks) && (p < |data| ==> !IsToken(data[p]))
      modifies this
      ensures Dispatched(env, before, data, start, flow, marks') && Traced(env.skip, before, data, start, flow, marks')
      ensures Booked(env, old(Entries()), data, start, marks, flow, marks')
    {
      hide Switch, Merge, EndsWith, Run, ConfInv, OverflowJustified, Pending, Booked, MarksOk, Coalesce, TooLong;
      hide Called, Lawful, Tracked, Traced, Through, IsToken;
      ghost var books := Entries();
      marks' := marks;
      CountScan(env, data, start, p, p, marks, before, false);
      if errno != Ok {
        flow := Return(p);
        FailedBooks(env, books, data, start, p, marks);
      } else if p == |data| {
        slack := slack + 1;
        flow := Next(p);
        ScannedBooks(env, books, data, start, marks);
        ThroughEnds(env.skip, before, data, start, marks);
      } else {
        ghost var now := Now(data, p, marks);
        ThroughAt(env.skip, before, data, start, p, marks);
        flow, marks' := Transition(env, data, p, marks, now);
        Rebooked(env, books, data, start, p, marks, flow, marks');
        if flow.Redo? { RedoAfterValue(env, books, data, start, marks, flow, marks'); }
        TracedFrom(env.skip, before, now, data, start, p, flow, marks');
      }
      if flow.Return? { ReturnTraced(env.skip, before, data, start, flow, marks'); }
    }

    // s_header_field
    method FieldLoop(env: Env, data: string, start: nat, marks: Marks, ghost before: Conf)
      returns (flow: Flow, marks': Marks)
      requires errno == Ok && start < |data| < MAX_BUFFER && r.state.HeaderField? && MarksOk(r.state, marks, start)
      requires before == Now(data, start, marks) && ConfInv(before) && Counted(1)
      modifies this
      ensures Dispatched(env, before, data, start, flow, marks') && Traced(env.skip, before, data, start, flow, marks')
      ensures Booked(env, old(Entries()), data, start, marks, flow, marks')
    {
      hide Switch, Merge, EndsWith, Run, ConfInv, OverflowJustified, Pending, Booked, MarksOk, Coalesce, TooLong;
      hide Dispatched, Scanned, Through, Traced;
      HdrBelowPeak(before);
      var p := ScanField(env, data, start, marks, before);
      flow, marks' := FieldStop(env, data, start, p, marks, before);
    }

    // The fast path of s_header_value.
    method TakeGeneral(env: Env, data: string, start: nat, p: nat, marks: Marks, ghost before: Conf)
      returns (q: nat, ghost overshot: bool)
      requires start <= p < |data| && r.state.HeaderValue? && r.hstate == General && MarksOk(r.state, marks, p)
      requires data[p] != CR && data[p] != LF && Scanned(env.skip, before, data, start, p, marks)
      requires Through(env.skip, before, data, start, p, marks)
      modifies this`pos, this`hdr, this`peak
      ensures p < q <= |data| && MarksOk(r.state, marks, q)
      ensures if overshot then q == |data| && Overshot(data, p) && TooLong(Run(env.skip, before, data[start..]))
              else Scanned(env.skip, before, data, start, q, marks) && NoLineEnd(data[p..q]) &&
                   Through(env.skip, before, data, start, q, marks)
    {
      hide Switch, Merge, EndsWith, Run, ConfInv, Pending, RegInv;
      q := SkipGeneral(data, p);
      ghost var now := Now(data, p, marks);
      HdrBelowPeak(now);
      overshot := !NoLineEnd(data[p..q]);
      if overshot {
        assert data[p..][..MAX_HEADER] == data[p..p + MAX_HEADER];
        EndlessValue(env.skip, now, data[p..]);
      } else {
        MarkEnds(now, Value);
        assert data[p..] == data[p..q] + data[q..];
        GeneralValueRun(env.skip, now, data[p..q], data[q..]);
        TakeHeaderKeeps(now, Value, data[p..q]);
        PendingBytes(Coalesce(trace), r.state, r.state, marks, Value, data, p, q);
        pos, hdr, peak := pos + (q - p), hdr + (q - p), Max(peak, hdr + (q - p));
        GeneralStretch(env.skip, now, data[p..q]);
        assert data[p..q][..q - p - 1] == data[p..q - 1];
        Lengthened(env.skip, before, now, Now(data, q, marks), data, start, p, q);
      }
    }

    // One byte of a value that the parser looks at; `bad` if it is no digit of a Content-Length.
    method ScanByte(env: Env, data: string, start: nat, p: nat, marks: Marks, ghost before: Conf) returns (bad: bool)
      requires start <= p < |data| && r.state.HeaderValue? && MarksOk(r.state, marks, p)
      requires data[p] != CR && data[p] != LF && Scanned(env.skip, before, data, start, p, marks)
      requires Through(env.skip, before, data, start, p, marks)
      modifies this`r, this`pos, this`hdr, this`peak
      ensures r.state.HeaderValue? && MarksOk(r.state, marks, p + 1)
      ensures bad ==> pos == before.pos + (p - start) &&
                      FailsWith(Run(env.skip, before, data[start..]), InvalidContentLength, pos)
      ensures !bad ==> Scanned(env.skip, before, data, start, p + 1, marks) && NoLineEnd(data[p..p + 1]) &&
                       Through(env.skip, before, data, start, p + 1, marks)
    {
      hide Switch, Merge, EndsWith, Run, ValueByte, ConfInv, Pending, RegInv;
      ghost var now := Now(data, p, marks);
      assert data[p..p + 1] == [data[p]] && data[p..][1..] == data[p + 1..] && [data[p]][1..] == "";
      ValueByteStep(env.skip, now, data[p..]);
      ValueByteStep(env.skip, now, [data[p]]);
      var o := ValueByte(r, data[p]);
      match o {
        case Fail(e) => return true;
        case Fatal => assert false;
        case Move(next, _, _) => r := next;
      }
      PendingBytes(Coalesce(trace), now.r.state, r.state, marks, Value, data, p, p + 1);
      pos, hdr, peak := pos + 1, hdr + 1, Max(peak, hdr + 1);
      LengthenedByOne(env.skip, before, now, Now(data, p + 1, marks), data, start, p);
      bad := false;
    }

    // The inner loop of s_header_value up to a line end; `bad` is a byte that is no digit of a Content-Length.
    method ScanValue(env: Env, data: string, start: nat, marks: Marks, ghost before: Conf)
      returns (p: nat, bad: bool, ghost overshot: bool)
      requires start < |data| && r.state.HeaderValue? && MarksOk(r.state, marks, start)
      requires before == Now(data, start, marks) && ConfInv(before) && before.hdr <= before.peak
      modifies this`r, this`pos, this`hdr, this`peak
      ensures start <= p <= |data| && r.state.HeaderValue? && MarksOk(r.state, marks, p)
      ensures var res := Run(env.skip, before, data[start..]);
              if overshot then !bad && p == |data| && Overshot(data, start) && TooLong(res)
              else if bad then p < |data| && pos == before.pos + (p - start) && FailsWith(res, InvalidContentLength, pos)
              else Scanned(env.skip, before, data, start, p, marks) && NoLineEnd(data[start..p]) &&
                   Through(env.skip, before, data, start, p, marks) && (p < |data| ==> data[p] == CR || data[p] == LF)
    {
      hide Switch, Merge, EndsWith, Run, ValueByte, ConfInv, Pending, RegInv, TooLong;
      p, bad, overshot := start, false, false;
      AtItsStart(env.skip, before, data, start);
      while p < |data| && data[p] != CR && data[p] != LF
        invariant start <= p <= |data| && r.state.HeaderValue? && MarksOk(r.state, marks, p)
        invariant if overshot then p == |data| && Overshot(data, start) && TooLong(Run(env.skip, before, data[start..]))
                  else Scanned(env.skip, before, data, start, p, marks) && NoLineEnd(data[start..p]) &&
                       Through(env.skip, before, data, start, p, marks)
      {
        ghost var from := p;
        if r.hstate == General {
          p, overshot := TakeGeneral(env, data, start, p, marks, before);
        } else {
          bad := ScanByte(env, data, start, p, marks, before);
          if bad { return; }
          p := p + 1;
        }
        if overshot { OvershotFrom(data, start, from); } else { NoLineEndJoin(data, start, from, p); }
      }
    }

    // A CR after a value: a callback that does not return 0 makes the bytes of the value go uncounted.
    method ValueCR(env: Env, data: string, start: nat, p: nat, marks: Marks, ghost before: Conf) returns (marks': Marks)
      requires errno == Ok && start <= p < |data| < MAX_BUFFER && r.state.HeaderValue? && MarksOk(r.state, marks, p)
      requires data[p] == CR && Scanned(env.skip, before, data, start, p, marks)
      requires CountInv(before, 1, Tallied()) && before.r.state == HeaderValue && Value in marks && marks[Value] <= p
      requires Through(env.skip, before, data, start, p, marks)
      modifies this
      ensures MarksOk(r.state, marks', p + 1) && nread == old(nread) && slack == old(slack)
      ensures pos == before.pos + (p + 1 - start) && hdr == before.hdr + (p + 1 - start) && peak == Max(before.peak, hdr)
      ensures r.state == HeaderAlmostDone && LeftBy(env, trace, errno)
      ensures Called(env, old(trace), Data(Value, data[marks[Value]..p]))
      ensures errno == Ok ==> Scanned(env.skip, before, data, start, p + 1, marks') && missed == old(missed)
      ensures errno == Ok ==> Traced(env.skip, before, data, start, Next(p + 1), marks')
      ensures errno != Ok ==> Valid() && Reported(env, Run(env.skip, before, data[start..]), data[p + 1..], pos)
      ensures if errno == Ok then lost == old(lost) else lost == old(lost) + (p - start) && EndsWith(trace, Value)
      ensures Obeyed(env, old(trace), trace, errno) && (errno == Ok || Stopped(errno))
    {
      hide Switch, Merge, Run, ConfInv, Pending, Apply, Answer, EndsWith, MarksOk, Coalesce, LiveKind, Called, Traced;
      ghost var now := Now(data, p, marks);
      var o := Switch(r, CR);
      ValueCRSwitch(r);
      AfterKeeps(env.skip, now, CR);
      ghost var after := After(env.skip, now, o, CR);
      marks' := Spend(env, data, p, marks, r.state, o, now, after);
      if errno != Ok { missed, lost := missed + (p - start), lost + (p - start); }
      else {
        SteppedTraced(env.skip, now, o, data, p, Next(p + 1), marks');
        TracedFrom(env.skip, before, now, data, start, p, Next(p + 1), marks');
      }
    }

    method ValueLineEnd(env: Env, data: string, start: nat, p: nat, marks: Marks, ghost before: Conf)
      returns (flow: Flow, marks': Marks)
      requires errno == Ok && start <= p < |data| < MAX_BUFFER && r.state.HeaderValue? && MarksOk(r.state, marks, p)
      requires data[p] == CR && Scanned(env.skip, before, data, start, p, marks)
      requires CountInv(before, 1, Tallied()) && before.r.state == HeaderValue
      requires NoLineEnd(data[start..p]) && Value in marks && marks[Value] <= start
      requires Through(env.skip, before, data, start, p, marks)
      modifies this
      ensures Dispatched(env, before, data, start, flow, marks') && Traced(env.skip, before, data, start, flow, marks')
      ensures Booked(env, old(Entries()), data, start, marks, flow, marks')
      ensures CutShort(env, old(trace), old(nread), old(lost), data, marks[Value], start, flow)
    {
      hide Switch, Merge, Run, ConfInv, OverflowJustified, Pending, EndsWith, MarksOk, Coalesce, TooLong;
      hide Booked, CutShort, Traced, Through;
      ghost var books := Entries();
      marks' := ValueCR(env, data, start, p, marks, before);
      if errno != Ok {
        flow := Return(p + 1);
        CutBooks(env, books, data, start, p, marks, flow, marks');
        ReturnTraced(env.skip, before, data, start, flow, marks');
        return;
      }
      CountScan(env, data, start, p, p + 1, marks', before, false);
      flow := if errno == Ok then Next(p + 1) else Return(p);
      CutBooks(env, books, data, start, p, marks, flow, marks');
      if flow.Return? { ReturnTraced(env.skip, before, data, start, flow, marks'); }
    }

    // A value that does not end with a CR in this buffer is not cut.
    lemma NotCut(env: Env, b: Books, data: string, mark: nat, start: nat, p: nat, flow: Flow)
      requires start <= p <= |data|
      requires Overshot(data, start) || (NoLineEnd(data[start..p]) && (p < |data| ==> data[p] == LF))
      ensures CutShort(env, b.trace, b.nread, b.lost, data, mark, start, flow)
    {
      forall e: nat | Cuts(env, b.trace, data, mark, start, e) ensures false {
        if Overshot(data, start) {
          NoEndYet(data, start, e);
        } else {
          OneEnd(data, start, p, e);
        }
      }
    }

    // The scan of a value stopped at a LF or at the end of the buffer.
    method ValueStop(env: Env, data: string, start: nat, p: nat, marks: Marks, ghost before: Conf, ghost overshot: bool)
      returns (flow: Flow, marks': Marks)
      requires errno == Ok && start <= p <= |data| && start < |data| < MAX_BUFFER
      requires r.state.HeaderValue? && before.r.state == HeaderValue && MarksOk(r.state, marks, p)
      requires Value in marks && marks[Value] <= start
      requires ConfInv(before) && CountInv(before, 1, Tallied()) && (p < |data| ==> data[p] == LF)
      requires if overshot then Overshot(data, start) && p == |data| && TooLong(Run(env.skip, before, data[start..]))
               else Scanned(env.skip, before, data, start, p, marks) && NoLineEnd(data[start..p]) &&
                    Through(env.skip, before, data, start, p, marks)
      modifies this
      ensures Dispatched(env, before, data, start, flow, marks') && Traced(env.skip, before, data, start, flow, marks')
      ensures Booked(env, old(Entries()), data, start, marks, flow, marks')
      ensures CutShort(env, old(trace), old(nread), old(lost), data, marks[Value], start, flow)
    {
      hide Switch, Merge, Run, ConfInv, OverflowJustified, Pending, EndsWith, MarksOk, Coalesce, TooLong;
      hide Called, Lawful, Tracked, Booked, CutShort, Traced, Through;
      ghost var books := Entries();
      marks' := marks;
      CountScan(env, data, start, p, p, marks, before, overshot);
      if errno != Ok {
        flow := Return(p);
        FailedBooks(env, books, data, start, p, marks);
      } else if p == |data| {
        slack := slack + 1;
        flow := Next(p);
        ScannedBooks(env, books, data, start, marks);
        ThroughEnds(env.skip, before, data, start, marks);
      } else {
        ghost var now := Now(data, p, marks);
        ThroughAt(env.skip, before, data, start, p, marks);
        flow, marks' := Transition(env, data, p, marks, now);
        Rebooked(env, books, data, start, p, marks, flow, marks');
        if flow.Redo? { RedoAfterValue(env, books, data, start, marks, flow, marks'); }
        TracedFrom(env.skip, before, now, data, start, p, flow, marks');
      }
      if flow.Return? { ReturnTraced(env.skip, before, data, start, flow, marks'); }
      NotCut(env, books, data, marks[Value], start, p, flow);
    }

    // s_header_value: on a CR the callback comes before the count, on a LF and at the end of the buffer after it.
    method ValueLoop(env: Env, data: string, start: nat, marks: Marks, ghost before: Conf)
      returns (flow: Flow, marks': Marks)
      requires errno == Ok && start < |data| < MAX_BUFFER && r.state.HeaderValue? && MarksOk(r.state, marks, start)
      requires before == Now(data, start, marks) && ConfInv(before) && Counted(1)
      modifies this
      ensures Dispatched(env, before, data, start, flow, marks') && Traced(env.skip, before, data, start, flow, marks')
      ensures Booked(env, old(Entries()), data, start, marks, flow, marks')
      ensures Value in marks && CutShort(env, old(trace), old(nread), old(lost), data, marks[Value], start, flow)
    {
      hide Switch, Merge, Run, ConfInv, OverflowJustified, Pending, EndsWith, MarksOk, Coalesce, TooLong;
      hide Called, Lawful, Tracked, Booked, Traced, Through;
      HdrBelowPeak(before);
      ValueMarked(marks, start);
      ghost var books := Entries();
      var p, bad, overshot := ScanValue(env, data, start, marks, before);
      marks' := marks;
      if bad {
        errno := InvalidContentLength;
        FailedBooks(env, books, data, start, p, marks);
        ReturnTraced(env.skip, before, data, start, Return(p), marks);
        return Return(p), marks;
      }
      if p < |data| && data[p] == CR {
        flow, marks' := ValueLineEnd(env, data, start, p, marks, before);
        return;
      }
      flow, marks' := ValueStop(env, data, start, p, marks, before, overshot);
    }

    // s_body_identity, s_chunk_data and s_body_identity_eof, when the body goes on past what is read here.
    method TakeSomeBody(env: Env, data: string, start: nat, n: nat, marks: Marks, ghost before: Conf)
      returns (marks': Marks)
      requires 0 < n <= |data| - start && BodyRoom(r, n) && MarksOk(r.state, marks, start)
      requires before == Now(data, start, marks) && ConfInv(before)
      modifies this`r, this`pos
      ensures MarksOk(r.state, marks', start + n) && r == TakeBody(old(r), n) && pos == before.pos + n
      ensures ConfInv(Now(data, start + n, marks'))
      ensures Run(env.skip, Now(data, start + n, marks'), data[start + n..]) == Run(env.skip, before, data[start..])
      ensures Traced(env.skip, before, data, start, Next(start + n), marks')
    {
      hide Switch, Merge, Run, ConfInv, Pending, EndsWith;
      ghost var bytes := data[start..start + n];
      HdrBelowPeak(before);
      assert data[start..] == bytes + data[start + n..];
      BodyRun(env.skip, before, bytes, data[start + n..]);
      TakeBodyKeeps(before, bytes);
      PendingBytes(Coalesce(trace), r.state, TakeBody(r, n).state, marks, Body, data, start, start + n);
      marks' := Mark(marks, Body, start);
      r := TakeBody(r, n);
      pos := pos + n;
      assert bytes + "" == bytes;
      BodyRun(env.skip, before, bytes, "");
      RunNothing(env.skip, Now(data, start + n, marks'));
    }

    // A stretch of a body that goes on, or of a chunk.
    method ReadBody(env: Env, data: string, p: nat, n: nat, marks: Marks, ghost before: Conf)
      returns (flow: Flow, marks': Marks)
      requires errno == Ok && 0 < n <= |data| - p && BodyRoom(r, n) && MarksOk(r.state, marks, p)
      requires before == Now(data, p, marks) && ConfInv(before) && Counted(0)
      modifies this`r, this`pos
      ensures Dispatched(env, before, data, p, flow, marks') && Traced(env.skip, before, data, p, flow, marks')
      ensures Booked(env, old(Entries()), data, p, marks, flow, marks')
    {
      hide Switch, Merge, Run, Pending, EndsWith, ConfInv, Coalesce, MarksOk, Booked, Obeyed, Traced;
      ghost var books := Entries();
      marks' := TakeSomeBody(env, data, p, n, marks, before);
      flow := Next(p + n);
      NotObeyed(env, trace, errno);
      BodyBooks(env, books, data, p, marks, flow, marks');
    }

    // The rest of a body of known length: its last byte is left to s_message_done.
    method FinishBody(env: Env, data: string, start: nat, p: nat, marks: Marks, ghost before: Conf)
      requires errno == Ok && start <= p < |data| && MarksOk(r.state, marks, start) && r.state.BodyIdentity?
      requires before == Now(data, start, marks)
      modifies this`r, this`pos, this`trace, this`errno
      ensures LeftBy(env, trace, errno) && (errno == Ok || Stopped(errno)) && Obeyed(env, old(trace), trace, errno)
      ensures Abs() == BodyDone(before, data[start..p + 1])
    {
      hide Merge, Pending, EndsWith, Coalesce;
      var marks' := Mark(marks, Body, start);
      PendingBytes(Coalesce(trace), r.state, r.state, marks, Body, data, start, p + 1);
      PendingMarked(Coalesce(trace), r.state, marks', Body, data, p + 1);
      r := r.(length := 0, state := MessageDone);
      pos := pos + (p - start);
      Callback(env, Data(Body, data[marks'[Body]..p + 1]));
      ObeyedOnce(env, old(trace), Data(Body, data[marks'[Body]..p + 1]));
    }

    // The callback for the rest of a body, and the second look at its last byte.
    method EndBody(env: Env, data: string, start: nat, p: nat, marks: Marks, ghost before: Conf)
      returns (flow: Flow, marks': Marks)
      requires errno == Ok && start <= p < |data| && r.state.BodyIdentity? && MarksOk(r.state, marks, start)
      requires before == Now(data, start, marks) && ConfInv(before) && Counted(0) && p + 1 - start == r.length < NO_LENGTH
      modifies this
      ensures Dispatched(env, before, data, start, flow, marks') && Traced(env.skip, before, data, start, flow, marks')
      ensures Booked(env, old(Entries()), data, start, marks, flow, marks')
    {
      hide Switch, Merge, Run, Pending, EndsWith, ConfInv, Coalesce, Booked, Obeyed, OverflowJustified, Label, MarksOk;
      hide Traced;
      ghost var books := Entries();
      FinishRun(env.skip, before, data, start, p);
      FinishBody(env, data, start, p, marks, before);
      marks' := map[];
      AtEnd(data, p);
      flow := if errno == Ok then Redo(p) else Return(p);
      BodyBooks(env, books, data, start, marks, flow, marks');
      EndTraced(env.skip, before, data, start, p, flow);
    }

    // The end of a body in the run.
    lemma EndTraced(skip: Skip, before: Conf, data: string, start: nat, p: nat, flow: Flow)
      requires ConfInv(before) && start <= p < |data| && before.r.state == BodyIdentity
      requires p + 1 - start == before.r.length < NO_LENGTH && Abs() == BodyDone(before, data[start..p + 1])
      requires flow == Redo(p) || flow == Return(p)
      ensures Traced(skip, before, data, start, flow, map[])
    {
      hide Switch, Merge, Run, EndsWith, ConfInv, Pending, Coalesce;
      AtEnd(data, p);
      HdrBelowPeak(before);
      forall t: string | t != "" && t[0] == data[p]
        ensures Run(skip, before, data[start..p] + t) == Run(skip, Now(data, p, map[]), t)
      {
        assert data[start..p] + [t[0]] == data[start..p + 1];
        BodyEnd(skip, before, data[start..p], t);
      }
    }

    // Without a mark there is nothing pending.
    lemma AtEnd(data: string, p: nat)
      requires r.state == MessageDone && p <= |data|
      ensures MarksOk(r.state, map[], p) && Now(data, p, map[]) == Abs()
    {
      hide Merge, EndsWith, Coalesce;
      PendingNothing(Coalesce(trace), MessageDone, data, p);
    }

    // s_body_identity
    method BodyLoop(env: Env, data: string, start: nat, marks: Marks, ghost before: Conf)
      returns (flow: Flow, marks': Marks)
      requires errno == Ok && start < |data| < MAX_BUFFER && r.state.BodyIdentity? && MarksOk(r.state, marks, start)
      requires before == Now(data, start, marks) && ConfInv(before) && Counted(0)
      modifies this
      ensures Dispatched(env, before, data, start, flow, marks') && Traced(env.skip, before, data, start, flow, marks')
      ensures Booked(env, old(Entries()), data, start, marks, flow, marks')
    {
      hide Switch, Merge, Run, Pending, EndsWith, ConfInv, Coalesce, Booked, Obeyed, Dispatched, MarksOk, Traced;
      BodyLength(before);
      assert r.length != 0 && r.length != NO_LENGTH;
      var toRead := if r.length < |data| - start then r.length else |data| - start;
      if toRead < r.length {
        flow, marks' := ReadBody(env, data, start, toRead, marks, before);
      } else {
        flow, marks' := EndBody(env, data, start, start + toRead - 1, marks, before);
      }
    }

    // One evaluation of the switch on the state.
    method Dispatch(env: Env, data: string, p: nat, marks: Marks, ghost before: Conf)
      returns (flow: Flow, marks': Marks)
      requires errno == Ok && p < |data| < MAX_BUFFER && MarksOk(r.state, marks, p)
      requires before == Now(data, p, marks) && ConfInv(before) && Counted(Arrived(r.state))
      modifies this
      ensures Dispatched(env, before, data, p, flow, marks') && Traced(env.skip, before, data, p, flow, marks')
      ensures Booked(env, old(Entries()), data, p, marks, flow, marks')
      ensures old(r.state) == HeaderValue ==>
                Value in marks && CutShort(env, old(trace), old(nread), old(lost), data, marks[Value], p, flow)
    {
      hide Switch, Merge, Run, Pending, EndsWith, ConfInv, Coalesce, MarksOk, Booked, CutShort, Dispatched, Traced, IsToken;
      match r.state
      case HeaderField => flow, marks' := FieldLoop(env, data, p, marks, before);
      case HeaderValue => flow, marks' := ValueLoop(env, data, p, marks, before);
      case BodyIdentity => flow, marks' := BodyLoop(env, data, p, marks, before);
      case BodyIdentityEof => flow, marks' := ReadBody(env, data, p, |data| - p, marks, before);
      case ChunkPart(s) =>
        if s == ChunkData {
          BodyLength(before);
          assert r.flags.chunked && r.length != 0 && r.length != NO_LENGTH;
          var n := if r.length < |data| - p then r.length else |data| - p;
          flow, marks' := ReadBody(env, data, p, n, marks, before);
        } else {
          assert s == ChunkSizeStart ==> nread == 1;
          flow, marks' := Transition(env, data, p, marks, before);
        }
      case _ => flow, marks' := Transition(env, data, p, marks, before);
    }

    // Everything the loop does with the byte at `p`, however often it is looked at.
    method OneByte(env: Env, data: string, p: nat, marks: Marks, ghost before: Conf)
      returns (flow: Flow, marks': Marks)
      requires errno == Ok && p < |data| < MAX_BUFFER && MarksOk(r.state, marks, p)
      requires before == Now(data, p, marks) && ConfInv(before) && Counted(Arrived(r.state))
      modifies this
      ensures Dispatched(env, before, data, p, flow, marks') && !flow.Redo?
      ensures Traced(env.skip, before, data, p, flow, marks')
      ensures Booked(env, old(Entries()), data, p, marks, flow, marks')
      ensures old(r.state) == HeaderValue ==>
                Value in marks && CutShort(env, old(trace), old(nread), old(lost), data, marks[Value], p, flow)
    {
      hide Switch, Merge, Run, Pending, EndsWith, ConfInv, Coalesce, MarksOk, Booked, Traced, CutShort, Cuts;
      ghost var books := Entries();
      flow, marks' := Dispatch(env, data, p, marks, before);
      while flow.Redo?
        invariant Dispatched(env, before, data, p, flow, marks') && Booked(env, books, data, p, marks, flow, marks')
        invariant Traced(env.skip, before, data, p, flow, marks')
        invariant books.state == HeaderValue ==>
                    Value in marks && CutShort(env, books.trace, books.nread, books.lost, data, marks[Value], p, flow)
        decreases flow.Redo?, |data| - flow.p, Rank(r.state)
      {
        ghost var books', q, marks1, now := Entries(), flow.p, marks', Now(data, flow.p, marks');
        BeforeRedo(env, books, data, p, marks, flow, marks');
        RedoTraced(env.skip, before, data, p, flow, marks');
        if books.state == HeaderValue { NotCutYet(env, books, data, marks[Value], p, flow); }
        flow, marks' := Dispatch(env, data, flow.p, marks', now);
        NoRedoAfterData(env, books', data, q, marks1, flow, marks');
        AfterRedo(env, books, books', data, p, q, marks, marks1, flow, marks');
        TracedOn(env.skip, before, now, data, p, q, flow, marks');
        if books.state == HeaderValue { StillNotCut(env, books, data, marks[Value], p, flow); }
      }
    }

    lemma RedoTraced(skip: Skip, before: Conf, data: string, p: nat, flow: Flow, marks': Marks)
      requires flow.Redo? && Traced(skip, before, data, p, flow, marks')
      ensures p <= flow.p < |data| && MarksOk(r.state, marks', flow.p) && (p < flow.p ==> AfterData(r.state))
      ensures Onward(skip, before, data[p..flow.p], Now(data, flow.p, marks'), data[flow.p])
    {
      hide Onward, Pending, Coalesce;
    }

    lemma NoRedoAfterData(env: Env, b: Books, data: string, p: nat, marks: Marks, flow: Flow, marks': Marks)
      requires Booked(env, b, data, p, marks, flow, marks')
      ensures AfterData(b.state) ==> !flow.Redo? && (flow.Next? ==> !InHeader(r.state))
    {
      hide Obeyed;
    }

    // A value that is not cut before a byte is looked at again is not cut.
    lemma NotCutYet(env: Env, b: Books, data: string, mark: nat, start: nat, flow: Flow)
      requires CutShort(env, b.trace, b.nread, b.lost, data, mark, start, flow) && flow.Redo? && errno == Ok
      ensures forall e :: !Cuts(env, b.trace, data, mark, start, e)
    {
      hide Cuts;
    }

    lemma StillNotCut(env: Env, b: Books, data: string, mark: nat, start: nat, flow: Flow)
      requires forall e :: !Cuts(env, b.trace, data, mark, start, e)
      ensures CutShort(env, b.trace, b.nread, b.lost, data, mark, start, flow)
    {
      hide Cuts;
    }

    // One turn of the loop over the buffer.
    method Turn(env: Env, data: string, p: nat, marks: Marks, ghost now: Conf, ghost b0: Books)
      returns (flow: Flow, marks': Marks)
      requires errno == Ok && p < |data| < MAX_BUFFER && MarksOk(r.state, marks, p) && now == Now(data, p, marks)
      requires ConfInv(now) && Counted(0) && Midway(env, b0, Entries(), data, p, marks)
      modifies this
      ensures Dispatched(env, now, data, p, flow, marks') && !flow.Redo?
      ensures Traced(env.skip, now, data, p, flow, marks')
      ensures flow.Next? ==> Midway(env, b0, Entries(), data, flow.p, marks')
      ensures flow == Next(|data|) && b0.slack == 0 ==> slack == if InHeader(now.r.state) && InHeader(r.state) then 1 else 0
      ensures flow.Return? ==> Closed(env, b0, data, flow)
      ensures old(r.state) == HeaderValue && old(nread) < MAX_HEADER ==>
                Value in marks && CutShort(env, old(trace), old(nread) + 1, old(lost), data, marks[Value], p, flow)
    {
      hide Switch, Merge, Run, Pending, EndsWith, ConfInv, Coalesce, MarksOk, Midway, Closed, Booked, CutShort, Cuts;
      hide Traced;
      ghost var b, c: nat := Entries(), Arrived(r.state);
      if ParsingHeader(r.state) {
        CountHeaderSize(1);
        if errno != Ok {
          OverflowOk(env.skip, now, data[p..], nread, slack);
          StoppedBooks(env, b0, b, data, p, marks);
          ReturnTraced(env.skip, now, data, p, Return(p), marks);
          return Return(p), marks;
        }
      }
      flow, marks' := OneByte(env, data, p, marks, now);
      if flow.Return? { LastBooks(env, b0, b, c, data, p, marks, flow, marks'); }
      else { NextBooks(env, b0, b, c, data, p, marks, flow, marks'); }
      if flow == Next(|data|) && b0.slack == 0 { DoubledBooks(env, b0, b, c, data, p, marks, flow, marks'); }
    }

    // The loop over the buffer.
    method Loop(env: Env, data: string) returns (flow: Flow, marks: Marks)
      requires errno == Ok && Valid() && 0 < |data| < MAX_BUFFER
      modifies this
      ensures Dispatched(env, old(Abs()), data, 0, flow, marks)
      ensures flow.Return? || flow == Next(|data|)
      ensures Closed(env, old(Entries()), data, flow)
      ensures flow.Next? && old(slack) == 0 ==> slack == if Doubled(env.skip, old(Abs()), data) then 1 else 0
      ensures old(r.state) == HeaderValue && old(nread) < MAX_HEADER ==>
                CutShort(env, old(trace), old(nread) + 1, old(lost), data, 0, 0, flow)
    {
      hide Switch, Merge, Run, Pending, EndsWith, ConfInv, Coalesce, MarksOk, Midway, Closed, CutShort, Cuts, Counted;
      hide Traced, Doubled;
      ghost var before, b0 := Abs(), Entries();
      ghost var guarded := b0.state == HeaderValue && b0.nread < MAX_HEADER;
      marks := InitialMarks(r.state);
      InitialLog(before, data);
      FirstBooks(env, b0, data, marks);
      assert data[0..] == data && data[..0] == "";
      RunNothing(env.skip, before);
      var p := 0;
      while p < |data|
        invariant p <= |data| && errno == Ok && MarksOk(r.state, marks, p)
        invariant ConfInv(Now(data, p, marks)) && Counted(0) && pos == before.pos + p
        invariant Run(env.skip, Now(data, p, marks), data[p..]) == Run(env.skip, before, data[0..])
        invariant Midway(env, b0, Entries(), data, p, marks)
        invariant Run(env.skip, before, data[..p]) == Live(Now(data, p, marks))
        invariant p == |data| && b0.slack == 0 ==> slack == if Doubled(env.skip, before, data) then 1 else 0
        invariant if p == 0 then marks == InitialMarks(b0.state) && Entries() == b0 && Now(data, p, marks) == before
                  else guarded ==> forall e :: !Cuts(env, b0.trace, data, 0, 0, e)
      {
        ghost var now := Now(data, p, marks);
        flow, marks := Turn(env, data, p, marks, now, b0);
        if flow.Return? {
          if 0 < p { Uncut(env, b0, data, flow, guarded); }
          return;
        }
        if p == 0 && guarded { GoneOn(env, b0, data, flow); }
        TracedNext(env.skip, before, now, data, p, flow.p, marks);
        if flow.p == |data| { WasDoubled(env.skip, before, now, data, p, marks); }
        p := flow.p;
      }
      flow := Next(p);
      WholeBooks(env, b0, data, marks);
      Uncut(env, b0, data, flow, guarded);
    }

    // The callbacks for the data run that the end of the buffer cuts.
    method FlushMarks(env: Env, data: string, marks: Marks, ghost before: Conf)
      requires errno == Ok && MarksOk(r.state, marks, |data|) && before == Now(data, |data|, marks)
      modifies this`trace, this`errno
      ensures LeftBy(env, trace, errno) && Obeyed(env, old(trace), trace, errno)
      ensures Abs() == before && (errno == Ok || (Stopped(errno) && LiveKind(r.state) != None))
    {
      hide Merge, EndsWith, Obeyed;
      NotObeyed(env, trace, Ok);
      AtMostOneMark(r.state, marks, |data|);
      assert |marks| <= 1;
      var rest, end := marks, |data|;
      var kinds := [Field, Value, Url, Body, Status];
      for i := 0 to |kinds|
        invariant errno == Ok && rest.Keys <= marks.Keys && forall k | k in rest :: rest[k] == marks[k]
        invariant forall j | 0 <= j < i :: kinds[j] !in rest
        invariant MarksOk(old(r.state), marks, end) && r == old(r) && (rest == marks || rest == map[])
        invariant Coalesce(trace) == if rest == marks then Coalesce(old(trace)) else before.log
        invariant Obeyed(env, old(trace), trace, Ok) && (rest == marks ==> trace == old(trace))
      {
        var k := kinds[i];
        if k in rest {
          MarksAlone(r.state, rest, k, end);
          ObeyedOnce(env, old(trace), Data(k, data[rest[k]..end]));
          Callback(env, Data(k, data[rest[k]..end]));
          if errno != Ok { return; }
          rest := rest - {k};
        }
      }
      assert rest == map[] by {
        forall k ensures k !in rest { assert k == kinds[0] || k == kinds[1] || k == kinds[2] || k == kinds[3] || k == kinds[4]; }
      }
      if marks == map[] { PendingNothing(Coalesce(trace), r.state, data, end); }
    }

    // What a call that began with the books `b0` and returned `n` has done besides parsing: callbacks are obeyed;
    // exactly the bytes of a value cut at its CR go uncounted; a value that goes back to before the buffer is cut
    // exactly if its callback, known before the call, stops the parser, the limit and bad lengths apart; and one
    // byte at most is counted twice.
    ghost predicate Accounted(env: Env, b0: Books, data: string, n: nat)
      reads this
    {
      && Obeyed(env, b0.trace, trace, errno)
      && lost == b0.lost + CutBytes(b0.state, data, n)
      && (AtCR(data, n) ==> EndsWith(trace, Value))
      && (AtCR(data, n) && Continued(b0.state, data, n) ==> trace == b0.trace + [Data(Value, data[0..n - 1])])
      && (b0.state == HeaderValue && b0.nread < MAX_HEADER ==>
            CutShort(env, b0.trace, b0.nread + 1, b0.lost, data, 0, 0, Return(n)))
      && (slack <= b0.slack || (slack == b0.slack + 1 && (errno == Ok ==> InHeader(r.state))))
      && nread <= b0.nread + 2 * |data| && (errno == HeaderOverflow ==> nread > MAX_HEADER)
    }

    // When the loop has returned early.
    lemma ReturnAccounted(env: Env, b0: Books, data: string, n: nat)
      requires n <= |data| && Closed(env, b0, data, Return(n))
      requires b0.state == HeaderValue && b0.nread < MAX_HEADER ==>
                 CutShort(env, b0.trace, b0.nread + 1, b0.lost, data, 0, 0, Return(n))
      ensures Accounted(env, b0, data, n)
    {
      hide Obeyed, EndsWith, CutShort;
    }

    // The end of the buffer, when the loop has come to it.
    method EndBuffer(env: Env, data: string, marks: Marks, ghost before: Conf, ghost b0: Books)
      requires errno == Ok && 0 < |data| && Dispatched(env, before, data, 0, Next(|data|), marks)
      requires Closed(env, b0, data, Next(|data|))
      requires b0.state == HeaderValue && b0.nread < MAX_HEADER ==>
                 CutShort(env, b0.trace, b0.nread + 1, b0.lost, data, 0, 0, Next(|data|))
      modifies this`trace, this`errno
      ensures Valid() && Reported(env, Run(env.skip, before, data), "", before.pos + |data|)
      ensures Accounted(env, b0, data, |data|) && (errno == Ok || Stopped(errno))
    {
      hide Switch, Merge, Run, Pending, EndsWith, ConfInv, Coalesce, MarksOk, Obeyed, OverflowJustified, CutShort;
      assert data[0..] == data && data[|data|..] == "";
      ghost var b := Entries();
      if b0.state == HeaderValue && b0.nread < MAX_HEADER { GoneOn(env, b0, data, Next(|data|)); }
      FlushMarks(env, data, marks, Now(data, |data|, marks));
      ObeyedTwice(env, b0.trace, b.trace, trace, errno);
      Uncut(env, b0, data, Return(|data|), b0.state == HeaderValue && b0.nread < MAX_HEADER);
      RunNothing(env.skip, Abs());
    }

    // http_parser_execute on a nonempty buffer.
    method Execute(env: Env, data: string) returns (n: nat)
      requires Valid() && 0 < |data| < MAX_BUFFER
      modifies this
      ensures n <= |data| && Valid()
      ensures old(errno) != Ok ==>
                n == 0 && errno == old(errno) && Abs() == old(Abs()) && Entries() == old(Entries())
      ensures old(errno) == Ok ==> Reported(env, Run(env.skip, old(Abs()), data), data[n..], old(pos) + n)
      ensures old(errno) == Ok && errno == HeaderOverflow ==>
                OverflowJustified(Run(env.skip, old(Abs()), data), old(slack))
      ensures old(errno) == Ok && errno == Paused ==> n > 0 || Rank(r.state) < Rank(old(r.state))
      ensures old(errno) == Ok ==> Accounted(env, old(Entries()), data, n)
      ensures old(errno) == Ok && errno == Ok && old(slack) == 0 ==>
                slack == if Doubled(env.skip, old(Abs()), data) then 1 else 0
    {
      hide Switch, Merge, Run, Pending, EndsWith, ConfInv, Coalesce, MarksOk, Cuts, Obeyed, CutShort, Doubled;
      hide OverflowJustified, TooLong, CountInv, Label, LeftBy, Rank, Traced, Midway, Accounted;
      if errno != Ok { return 0; }
      ghost var b0, before := Entries(), Abs();
      var flow, marks := Loop(env, data);
      assert data[0..] == data && data[|data|..] == "";
      if flow.Return? {
        NotDoubled(env.skip, before, data);
        if errno == HeaderOverflow { MoreSlack(Run(env.skip, before, data), slack, b0.slack); }
        ReturnAccounted(env, b0, data, flow.p);
        return flow.p;
      }
      EndBuffer(env, data, marks, before, b0);
      n := |data|;
    }

    // Bookkeeping between two calls: the bytes counted twice so far go into the count of header bytes.
    ghost method Settle()
      requires Valid() && errno == Ok
      modifies this`hdr, this`peak, this`slack
      ensures Valid() && slack == 0
      ensures Abs() == old(Abs().(hdr := hdr + slack, peak := Max(peak, hdr + slack)))
    {
      hide RegInv, PhaseInv, PhaseOf, Coalesce;
      hdr, slack := hdr + slack, 0;
      peak := Max(peak, hdr);
    }

    // http_parser_execute on an empty buffer, which stands for the end of the stream.
    method Finish(env: Env) returns (n: nat)
      modifies this`trace, this`errno
      ensures old(errno) != Ok || AtRest(r.state) ==> n == 0 && errno == old(errno) && trace == old(trace)
      ensures old(errno) == Ok && r.state.BodyIdentityEof? ==>
                n == 0 && trace == old(trace) + [Complete] && errno == Outcome(env, trace, Complete)
      ensures old(errno) == Ok && !AtRest(r.state) && !r.state.BodyIdentityEof? ==>
                n == 1 && errno == InvalidEofState && trace == old(trace)
    {
      if errno != Ok { return 0; }
      match r.state
      case BodyIdentityEof =>
        Callback(env, Complete);
        return 0;
      case Dead => return 0;
      case StartReqOrRes => return 0;
      case StatusLine(StartRes) => return 0;
      case StartReq => return 0;
      case _ =>
        errno := InvalidEofState;
        return 1;
    }

    // http_parser_pause on a parser that is not in error.
    method SetPaused(paused: bool)
      requires Valid() && !Broken(errno)
      modifies this`errno
      ensures Valid() && errno == if paused then Paused else Ok
    {
      errno := if paused then Paused else Ok;
    }
  }
}
