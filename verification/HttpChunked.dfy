/** Chunked decoding inverts chunked encoding. */
module HttpChunked {
  import opened Bytes
  import opened HttpTypes
  import opened HttpSwitch
  import opened HttpRun
  import opened HttpBulk
  import opened HttpHeaders
  import opened HttpLengths
  import opened HttpLines
  import opened HttpFraming

  // A chunk, any spelling of its size, and its extensions.
  datatype Chunk = Chunk(size: string, params: string, data: string)

  predicate GoodSize(size: string, n: nat) {
    size != "" && AllHex(size) && Hexadecimal(0, size) == n <= MAX_HEXADECIMAL
  }

  // Extensions, which the parser passes over: anything from a semicolon or space up to the line end.
  predicate IsParams(params: string) {
    params == "" || ((params[0] == ';' || params[0] == ' ') && forall i :: 0 <= i < |params| ==> params[i] != CR)
  }

  predicate GoodChunk(ch: Chunk) {
    ch.data != "" && GoodSize(ch.size, |ch.data|) && IsParams(ch.params)
  }

  function SizeLine(size: string, params: string): string {
    size + (params + CRLF)
  }

  function EncodeChunk(ch: Chunk): string {
    SizeLine(ch.size, ch.params) + (ch.data + CRLF)
  }

  // The largest header count over the size lines of chunks, each counted for itself.
  function ChunksPeak(peak: nat, chunks: seq<Chunk>): nat
    decreases |chunks|
  {
    if chunks == [] then peak else ChunksPeak(Max(peak, |SizeLine(chunks[0].size, chunks[0].params)|), chunks[1..])
  }

  function EncodeChunks(chunks: seq<Chunk>): string {
    if chunks == [] then "" else EncodeChunk(chunks[0]) + EncodeChunks(chunks[1..])
  }

  function Payload(chunks: seq<Chunk>): string {
    if chunks == [] then "" else chunks[0].data + Payload(chunks[1..])
  }

  // What the callbacks see of the chunks.
  function ChunkLog(chunks: seq<Chunk>): seq<Event> {
    if chunks == [] then [] else [ChunkHeader, Data(Body, chunks[0].data), ChunkComplete] + ChunkLog(chunks[1..])
  }

  // The bytes of the body in a stretch of a log.
  function BodyBytes(log: seq<Event>): string {
    if log == [] then ""
    else (if log[0].Data? && log[0].kind == Body then log[0].bytes else "") + BodyBytes(log[1..])
  }

  lemma {:induction false} ChunkLogBody(chunks: seq<Chunk>)
    ensures BodyBytes(ChunkLog(chunks)) == Payload(chunks)
  {
    if chunks != [] {
      ChunkLogBody(chunks[1..]);
      var log, tail := ChunkLog(chunks), ChunkLog(chunks[1..]);
      var data, end := [Data(Body, chunks[0].data), ChunkComplete] + tail, [ChunkComplete] + tail;
      assert log[1..] == data && data[1..] == end && end[1..] == tail;
      assert BodyBytes(end) == BodyBytes(tail);
      assert BodyBytes(data) == chunks[0].data + BodyBytes(end);
    }
  }

  // At the start of a chunk, `n` bytes further on, with these events more.
  function NextChunk(c: Conf, length: nat, log: seq<Event>, n: nat, peak: nat): Conf {
    Conf(c.r.(length := length, state := ChunkPart(ChunkSizeStart)), c.log + log, c.pos + n, 0, peak)
  }

  predicate AtChunk(c: Conf) {
    c.r.state == ChunkPart(ChunkSizeStart) && c.r.flags.chunked && c.hdr == 0
  }

  lemma SizeEndSwitch(r: Regs, ch: char)
    requires r.flags.chunked
    ensures r.state == ChunkPart(ChunkSize) || r.state == ChunkPart(ChunkParameters) ==>
              Switch(r, CR) == Move(r.(state := ChunkPart(ChunkSizeAlmostDone)), Quiet, Advance)
    ensures r.state == ChunkPart(ChunkSize) && (ch == ';' || ch == ' ') ==>
              Switch(r, ch) == Move(r.(state := ChunkPart(ChunkParameters)), Quiet, Advance)
    ensures r.state == ChunkPart(ChunkParameters) && ch != CR ==> Switch(r, ch) == Move(r, Quiet, Advance)
    ensures r.state == ChunkPart(ChunkSizeAlmostDone) ==>
              Switch(r, LF) == Move(SizeRegs(r), Note(ChunkHeader), Advance)
  {
    hide Lawful, Tracked;
  }

  // The registers after the size line: at the data, or at the trailer of the last chunk.
  function SizeRegs(r: Regs): Regs {
    if r.length == 0 then r.(flags := r.flags.(trailing := true), state := HeaderFieldStart)
    else r.(state := ChunkPart(ChunkData))
  }

  lemma DataEndSwitch(r: Regs)
    requires r.flags.chunked
    ensures r.state == ChunkPart(ChunkDataAlmostDone) && r.length == 0 ==>
              Switch(r, CR) == Move(r.(state := ChunkPart(ChunkDataDone)), Flush(Body), Advance)
    ensures r.state == ChunkPart(ChunkDataDone) ==>
              Switch(r, LF) == Move(r.(state := ChunkPart(ChunkSizeStart)), Note(ChunkComplete), Advance)
  {
    hide Lawful, Tracked;
  }

  lemma {:induction false} ParamsTailRun(skip: Skip, c: Conf, w: string, rest: string)
    requires c.r.state == ChunkPart(ChunkParameters) && c.r.flags.chunked && c.hdr <= c.peak
    requires forall i :: 0 <= i < |w| ==> w[i] != CR
    ensures Run(skip, c, w + rest) == Run(skip, Spent(c, c.r, c.log, |w|), rest)
    decreases |w|
  {
    hide Run, Switch, Lawful, Tracked;
    if w == "" {
      assert w + rest == rest;
    } else {
      assert (w + rest)[0] == w[0] && (w + rest)[1..] == w[1..] + rest;
      SizeEndSwitch(c.r, w[0]);
      HeaderStep(skip, c, w + rest, c.r, Quiet);
      ParamsTailRun(skip, Spent(c, c.r, c.log, 1), w[1..], rest);
    }
  }

  lemma ParamsRun(skip: Skip, c: Conf, w: string, rest: string) returns (c': Conf)
    requires c.r.state == ChunkPart(ChunkSize) && c.r.flags.chunked && c.hdr <= c.peak && IsParams(w)
    ensures LeadsTo(skip, c, w + rest, c', rest)
    ensures c' == Spent(c, c.r.(state := c'.r.state), c.log, |w|)
    ensures c'.r.state == ChunkPart(ChunkSize) || c'.r.state == ChunkPart(ChunkParameters)
  {
    hide Run, Switch, Lawful, Tracked;
    c' := c;
    if w == "" {
      assert w + rest == rest;
    } else {
      assert (w + rest)[0] == w[0] && (w + rest)[1..] == w[1..] + rest;
      SizeEndSwitch(c.r, w[0]);
      var r := c.r.(state := ChunkPart(ChunkParameters));
      HeaderStep(skip, c, w + rest, r, Quiet);
      ParamsTailRun(skip, Spent(c, r, c.log, 1), w[1..], rest);
      c' := Spent(c, r, c.log, |w|);
    }
  }

  lemma SameSizeRegs(r: Regs, s: State)
    ensures SizeRegs(r.(state := s)) == SizeRegs(r)
  {
  }

  // CR LF after a chunk size and its extensions.
  lemma SizeEndRun(skip: Skip, c: Conf, rest: string)
    requires (c.r.state == ChunkPart(ChunkSize) || c.r.state == ChunkPart(ChunkParameters)) && c.r.flags.chunked
    ensures Run(skip, c, CRLF + rest) ==
            Run(skip, Conf(SizeRegs(c.r), c.log + [ChunkHeader], c.pos + 2, 0, Max(c.peak, c.hdr + 2)), rest)
  {
    hide Run, Switch, Lawful, Tracked, SizeRegs;
    LineEnd(rest);
    var r := c.r.(state := ChunkPart(ChunkSizeAlmostDone));
    SizeEndSwitch(c.r, CR);
    SameSizeRegs(c.r, r.state);
    HeaderStep(skip, c, CRLF + rest, r, Quiet);
    SizeEndSwitch(r, LF);
    RunStep(skip, Spent(c, r, c.log, 1), [LF] + rest, Switch(r, LF));
  }

  /** A size line. */
  lemma SizeLineRun(skip: Skip, c: Conf, size: string, n: nat, params: string, rest: string)
    requires AtChunk(c) && GoodSize(size, n) && IsParams(params) && c.hdr <= c.peak
    ensures var len := |SizeLine(size, params)|;
            Run(skip, c, SizeLine(size, params) + rest) ==
            Run(skip, Conf(SizeRegs(c.r.(length := n)), c.log + [ChunkHeader], c.pos + len, 0, Max(c.peak, len)), rest)
  {
    hide Run, AllHex, Hexadecimal, IsParams, SizeRegs;
    Regroup(size, params + CRLF, rest);
    Regroup(params, CRLF, rest);
    ChunkSizeExact(skip, c, size, params + (CRLF + rest));
    var c1 := ParamsRun(skip, SizeRead(c, 0, size), params, CRLF + rest);
    SizeEndRun(skip, c1, rest);
    SameSizeRegs(c.r.(length := n), c1.r.state);
  }

  // CR LF after the data of a chunk.
  lemma DataEndRun(skip: Skip, c: Conf, rest: string)
    requires c.r.state == ChunkPart(ChunkDataAlmostDone) && c.r.flags.chunked && c.r.length == 0 && c.hdr <= c.peak
    ensures Run(skip, c, CRLF + rest) ==
            Run(skip, Conf(c.r.(state := ChunkPart(ChunkSizeStart)), c.log + [ChunkComplete], c.pos + 2, 0, c.peak), rest)
  {
    hide Run, Switch, Lawful, Tracked;
    LineEnd(rest);
    var r := c.r.(state := ChunkPart(ChunkDataDone));
    DataEndSwitch(c.r);
    RunStep(skip, c, CRLF + rest, Switch(c.r, CR));
    DataEndSwitch(r);
    RunStep(skip, c.(r := r, pos := c.pos + 1), [LF] + rest, Switch(r, LF));
  }

  /** One chunk: its header, its data and its end. */
  lemma ChunkRun(skip: Skip, c: Conf, ch: Chunk, rest: string)
    requires AtChunk(c) && GoodChunk(ch) && c.hdr <= c.peak
    ensures Run(skip, c, EncodeChunk(ch) + rest) ==
            Run(skip, NextChunk(c, 0, [ChunkHeader, Data(Body, ch.data), ChunkComplete], |EncodeChunk(ch)|,
                                Max(c.peak, |SizeLine(ch.size, ch.params)|)), rest)
  {
    hide Run, AllHex, Hexadecimal, Merge, EndsWith, SizeLine, IsParams;
    var line, n := SizeLine(ch.size, ch.params), |ch.data|;
    Regroup(line, ch.data + CRLF, rest);
    Regroup(ch.data, CRLF, rest);
    SizeLineRun(skip, c, ch.size, n, ch.params, ch.data + (CRLF + rest));
    var c2 := Conf(c.r.(length := n, state := ChunkPart(ChunkData)), c.log + [ChunkHeader], c.pos + |line|, 0,
                   Max(c.peak, |line|));
    BodyRun(skip, c2, ch.data, CRLF + rest);
    var c3 := TakeBodyBytes(c2, ch.data);
    DataEndRun(skip, c3, rest);
    AppendBody(c.log, ch.data);
    var next := NextChunk(c, 0, [ChunkHeader, Data(Body, ch.data), ChunkComplete], |EncodeChunk(ch)|, c2.peak);
    assert Conf(c3.r.(state := ChunkPart(ChunkSizeStart)), c3.log + [ChunkComplete], c3.pos + 2, 0, c3.peak) == next;
  }

  lemma AppendBody(log: seq<Event>, data: string)
    ensures Merge(log + [ChunkHeader], Data(Body, data)) + [ChunkComplete] ==
            log + [ChunkHeader, Data(Body, data), ChunkComplete]
  {
  }

  lemma NoChunks(c: Conf, rest: string)
    requires AtChunk(c)
    ensures EncodeChunks([]) + rest == rest && NextChunk(c, c.r.length, ChunkLog([]), |EncodeChunks([])|, c.peak) == c
  {
    assert c.log + ChunkLog([]) == c.log;
  }

  lemma MoreChunks(c: Conf, chunks: seq<Chunk>, rest: string, length: nat, peak1: nat, peak: nat)
    requires chunks != []
    ensures EncodeChunks(chunks) + rest == EncodeChunk(chunks[0]) + (EncodeChunks(chunks[1..]) + rest)
    ensures var c1 := NextChunk(c, 0, [ChunkHeader, Data(Body, chunks[0].data), ChunkComplete], |EncodeChunk(chunks[0])|, peak1);
            NextChunk(c1, length, ChunkLog(chunks[1..]), |EncodeChunks(chunks[1..])|, peak) ==
            NextChunk(c, length, ChunkLog(chunks), |EncodeChunks(chunks)|, peak)
  {
    hide EncodeChunk;
    Regroup(EncodeChunk(chunks[0]), EncodeChunks(chunks[1..]), rest);
    Regroup(c.log, [ChunkHeader, Data(Body, chunks[0].data), ChunkComplete], ChunkLog(chunks[1..]));
  }

  // The length in the registers after chunks: nothing is left of the last one.
  function LengthLeft(length: nat, chunks: seq<Chunk>): nat {
    if chunks == [] then length else 0
  }

  lemma {:induction false} ChunksRun(skip: Skip, c: Conf, chunks: seq<Chunk>, rest: string)
    requires AtChunk(c) && c.hdr <= c.peak && forall ch :: ch in chunks ==> GoodChunk(ch)
    ensures Run(skip, c, EncodeChunks(chunks) + rest) ==
            Run(skip, NextChunk(c, LengthLeft(c.r.length, chunks), ChunkLog(chunks), |EncodeChunks(chunks)|,
                                ChunksPeak(c.peak, chunks)), rest)
    decreases |chunks|
  {
    hide Run, GoodChunk, EncodeChunk, EncodeChunks, ChunkLog, SizeLine;
    if chunks == [] {
      NoChunks(c, rest);
    } else {
      var ch, more := chunks[0], chunks[1..];
      assert ch in chunks && forall x :: x in more ==> x in chunks;
      ChunkRun(skip, c, ch, EncodeChunks(more) + rest);
      var peak1 := Max(c.peak, |SizeLine(ch.size, ch.params)|);
      var c1 := NextChunk(c, 0, [ChunkHeader, Data(Body, ch.data), ChunkComplete], |EncodeChunk(ch)|, peak1);
      ChunksRun(skip, c1, more, rest);
      MoreChunks(c, chunks, rest, 0, peak1, ChunksPeak(peak1, more));
    }
  }

  // ---------- The last chunk, the trailer and the end ----------

  lemma TrailerSwitch(r: Regs)
    requires r.state == HeadersAlmostDone && r.flags.trailing
    ensures Switch(r, LF) == Move(r.(state := MessageDone), Note(ChunkComplete), Again)
  {
    hide Lawful, Tracked;
  }

  // The end of the trailer, on a line feed that s_message_done gets to see.
  lemma TrailerEndRun(skip: Skip, c: Conf, rest: string)
    requires c.r.state == HeadersAlmostDone && c.r.flags.trailing
    ensures Run(skip, c, [LF] + rest) ==
            Run(skip, Conf(c.r.(state := MessageDone), c.log + [ChunkComplete], c.pos, c.hdr + 1, Max(c.peak, c.hdr + 1)),
                [LF] + rest)
  {
    hide Run, Switch, Lawful, Tracked;
    LineEnd(rest);
    TrailerSwitch(c.r);
    RunStep(skip, c, [LF] + rest, Switch(c.r, LF));
  }

  lemma FactsKept(r: Regs, r': Regs)
    requires r' == r.(state := r'.state)
    ensures NextState(FactsOf(r'), r'.flags.skipBody) == NextState(FactsOf(r), r.flags.skipBody)
  {
  }

  // The blank line that ends a message with a trailer.
  lemma LastLineRun(skip: Skip, c: Conf, end: string, rest: string)
    requires c.r.state == HeaderFieldStart && c.r.flags.trailing && IsLineEnd(end) && c.hdr <= c.peak
    ensures var r := c.r.(state := NextState(FactsOf(c.r), c.r.flags.skipBody));
            Run(skip, c, end + rest) ==
            Over(skip, Spent(c, r, c.log + [ChunkComplete] + [Complete], |end|), rest)
  {
    hide Run, NextState, FactsOf, IsLineEnd;
    BlankRun(skip, c, end, rest);
    assert |end| >= 1 by { EndLength(end); }
    var c1 := Spent(c, c.r.(state := HeadersAlmostDone), c.log, |end| - 1);
    TrailerEndRun(skip, c1, rest);
    var c2 := Conf(c.r.(state := MessageDone), c.log + [ChunkComplete], c1.pos, c1.hdr + 1, Max(c1.peak, c1.hdr + 1));
    FactsKept(c.r, c2.r);
    LineEnd(rest);
    DoneRun(skip, c2, [LF] + rest);
  }

  lemma EndLength(end: string)
    requires IsLineEnd(end)
    ensures |end| >= 1
  {
  }

  // A chunked body: chunks, the last one of size zero, the trailer, and the closing line end.
  datatype ChunkedBody = ChunkedBody(chunks: seq<Chunk>, zero: string, params: string, trailer: seq<Line>, end: string)

  predicate GoodBody(b: ChunkedBody) {
    && (forall ch :: ch in b.chunks ==> GoodChunk(ch)) && GoodSize(b.zero, 0) && IsParams(b.params)
    && (forall l :: l in b.trailer ==> Clean(l)) && IsLineEnd(b.end)
  }

  function TrailerText(b: ChunkedBody): string {
    LinesText(b.trailer) + b.end
  }

  function BodyText(b: ChunkedBody): string {
    EncodeChunks(b.chunks) + (SizeLine(b.zero, b.params) + TrailerText(b))
  }

  function BodyEvents(b: ChunkedBody): seq<Event> {
    ChunkLog(b.chunks) + [ChunkHeader] + HeaderLog(HeadersOf(b.trailer)) + [ChunkComplete, Complete]
  }

  // The registers after the body: what the trailer says counts.
  function AfterBody(r: Regs, trailer: Headers): Regs {
    var r := r.(flags := Told(r.flags.(trailing := true), trailer), length := LengthAfter(0, trailer));
    r.(state := NextState(FactsOf(r), r.flags.skipBody))
  }

  // From the size of the last chunk on.
  lemma ZeroChunkRun(skip: Skip, c: Conf, b: ChunkedBody, rest: string) returns (c': Conf)
    requires AtChunk(c) && GoodBody(b) && c.hdr <= c.peak
    ensures Run(skip, c, SizeLine(b.zero, b.params) + (TrailerText(b) + rest)) == Over(skip, c', rest)
    ensures c'.log == c.log + ([ChunkHeader] + HeaderLog(HeadersOf(b.trailer)) + [ChunkComplete, Complete])
    ensures c'.r == AfterBody(c.r, HeadersOf(b.trailer)).(hstate := c'.r.hstate, index := c'.r.index)
    ensures c'.pos == c.pos + |SizeLine(b.zero, b.params)| + |TrailerText(b)| && c'.hdr == |TrailerText(b)|
    ensures c'.peak == Max(c.peak, Max(|SizeLine(b.zero, b.params)|, |TrailerText(b)|))
  {
    hide Run, GoodSize, NewMessage, Clean, SizeLine, IsParams, NextState, FactsOf, Told, EndsWith, IsLineEnd;
    SizeLineRun(skip, c, b.zero, 0, b.params, TrailerText(b) + rest);
    var line := |SizeLine(b.zero, b.params)|;
    var c1 := Conf(SizeRegs(c.r.(length := 0)), c.log + [ChunkHeader], c.pos + line, 0, Max(c.peak, line));
    Regroup(LinesText(b.trailer), b.end, rest);
    NoField(c.log);
    EndStarts(b.end, rest);
    var c2 := LinesRun(skip, c1, b.trailer, b.end + rest);
    ToldKeeps(c1.r.flags, HeadersOf(b.trailer));
    LastLineRun(skip, c2, b.end, rest);
    c' := Spent(c2, c2.r.(state := NextState(FactsOf(c2.r), c2.r.flags.skipBody)), c2.log + [ChunkComplete] + [Complete], |b.end|);
    assert c'.log == c.log + ([ChunkHeader] + HeaderLog(HeadersOf(b.trailer)) + [ChunkComplete, Complete]);
    AfterTrailer(c.r, c2.r, HeadersOf(b.trailer));
  }

  lemma EndStarts(end: string, rest: string)
    requires IsLineEnd(end)
    ensures end + rest != "" && !IsBlank((end + rest)[0])
  {
  }

  lemma NoField(log: seq<Event>)
    ensures !EndsWith(log + [ChunkHeader], Field)
  {
  }

  lemma AfterTrailer(r: Regs, r2: Regs, trailer: Headers)
    requires SameMessage(SizeRegs(r.(length := 0)), r2, trailer)
    ensures var r' := r2.(state := NextState(FactsOf(r2), r2.flags.skipBody));
            r' == AfterBody(r, trailer).(hstate := r'.hstate, index := r'.index)
  {
    hide Told, LengthAfter, Persistent;
  }

  /**
   Decoding inverts encoding: from the start of a chunked body any list of nonempty chunks with any extensions, the last
   chunk, the trailer and the closing line report exactly the chunks and the trailer, and the message is complete, once;
   then the next message follows, or nothing if the head or the trailer close, or the caller gets the rest.
   */
  lemma ChunkedDecodes(skip: Skip, c: Conf, b: ChunkedBody, rest: string) returns (c': Conf)
    requires AtChunk(c) && GoodBody(b) && c.hdr <= c.peak
    ensures Run(skip, c, BodyText(b) + rest) == Over(skip, c', rest)
    ensures c'.log == c.log + BodyEvents(b)
    ensures c'.r == AfterBody(c.r, HeadersOf(b.trailer)).(hstate := c'.r.hstate, index := c'.r.index)
    ensures c'.pos == c.pos + |BodyText(b)| && c'.hdr == |TrailerText(b)|
    ensures c'.peak == Max(ChunksPeak(c.peak, b.chunks), Max(|SizeLine(b.zero, b.params)|, |TrailerText(b)|))
  {
    hide Run, GoodSize, GoodChunk, SizeLine, TrailerText, IsParams, Clean, IsLineEnd, AfterBody;
    var tail := SizeLine(b.zero, b.params) + (TrailerText(b) + rest);
    assert BodyText(b) + rest == EncodeChunks(b.chunks) + tail;
    ChunksRun(skip, c, b.chunks, tail);
    var length, peak := LengthLeft(c.r.length, b.chunks), ChunksPeak(c.peak, b.chunks);
    var c1 := NextChunk(c, length, ChunkLog(b.chunks), |EncodeChunks(b.chunks)|, peak);
    PeakGrows(c.peak, b.chunks);
    c' := ZeroChunkRun(skip, c1, b, rest);
    SameAfterBody(c.r, length, HeadersOf(b.trailer));
    Regroup(c.log, ChunkLog(b.chunks), [ChunkHeader] + HeaderLog(HeadersOf(b.trailer)) + [ChunkComplete, Complete]);
    EventsIn(b);
  }

  lemma EventsIn(b: ChunkedBody)
    ensures ChunkLog(b.chunks) + ([ChunkHeader] + HeaderLog(HeadersOf(b.trailer)) + [ChunkComplete, Complete]) == BodyEvents(b)
  {
  }

  lemma {:induction false} PeakGrows(peak: nat, chunks: seq<Chunk>)
    ensures ChunksPeak(peak, chunks) >= peak
    decreases |chunks|
  {
    hide SizeLine;
    if chunks != [] { PeakGrows(Max(peak, |SizeLine(chunks[0].size, chunks[0].params)|), chunks[1..]); }
  }

  lemma SameAfterBody(r: Regs, length: nat, trailer: Headers)
    ensures AfterBody(r.(length := length, state := ChunkPart(ChunkSizeStart)), trailer) == AfterBody(r, trailer)
  {
    hide Told, LengthAfter, NextState;
  }
}
