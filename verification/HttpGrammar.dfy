/** The grammar of the callbacks: every run's log is a prefix of well-formed messages. */
module HttpGrammar {
  import opened Bytes
  import opened HttpTypes
  import opened HttpSwitch
  import opened HttpRun
  import opened HttpInvariant

  // Where in a message a log stops.
  datatype Phase =
    | Idle                                 // between messages
    | Begun                                // Begin
    | Line                                 // Url or Status
    | Named | Valued                       // Field, Value
    | Headed                               // HeadersComplete
    | Bodied                               // Body
    | Chunk | ChunkBody | Between          // ChunkHeader, Body, ChunkComplete
    | TrailerNamed | TrailerValued         // Field, Value after the last ChunkHeader
    | Closing                              // ChunkComplete of the last chunk
    | Bad

  function Advanced(kind: ParserType, ph: Phase, e: Event): Phase {
    match ph
    case Idle => if e == Begin then Begun else Bad
    case Begun =>
      if kind == Request then (if e.Data? && e.kind == Url && e.bytes != "" then Line else Bad)
      else if kind == Both then Bad
      else if e == Begin then Begun
      else if e.Data? && e.kind == Status && e.bytes != "" then Line
      else HeaderEvent(e)
    case Line => HeaderEvent(e)
    case Named => if e.Data? && e.kind == Value then Valued else Bad
    case Valued => HeaderEvent(e)
    case Headed =>
      if e.Data? && e.kind == Body && e.bytes != "" then Bodied
      else if e == ChunkHeader then Chunk
      else if e == Complete then Idle
      else Bad
    case Bodied => if e == Complete then Idle else Bad
    case Chunk => if e.Data? && e.kind == Body && e.bytes != "" then ChunkBody else TrailerEvent(e)
    case ChunkBody => if e == ChunkComplete then Between else Bad
    case Between => if e == ChunkHeader then Chunk else Bad
    case TrailerNamed => if e.Data? && e.kind == Value then TrailerValued else Bad
    case TrailerValued => TrailerEvent(e)
    case Closing => if e == Complete then Idle else Bad
    case Bad => Bad
  }

  function HeaderEvent(e: Event): Phase {
    if e.Data? && e.kind == Field && e.bytes != "" then Named else if e == HeadersComplete then Headed else Bad
  }

  function TrailerEvent(e: Event): Phase {
    if e.Data? && e.kind == Field && e.bytes != "" then TrailerNamed else if e == ChunkComplete then Closing else Bad
  }

  function PhaseOf(kind: ParserType, log: seq<Event>): Phase {
    if log == [] then Idle else Advanced(kind, PhaseOf(kind, log[..|log| - 1]), log[|log| - 1])
  }

  lemma PhaseSnoc(kind: ParserType, log: seq<Event>, e: Event)
    ensures PhaseOf(kind, log + [e]) == Advanced(kind, PhaseOf(kind, log), e)
  {
    assert (log + [e])[..|log|] == log;
  }

  // The kind of data event a phase ends in.
  predicate Ends(kind: ParserType, ph: Phase, k: Kind) {
    match ph
    case Line => if kind == Request then k == Url else k == Status
    case Named => k == Field
    case Valued => k == Value
    case Bodied => k == Body
    case ChunkBody => k == Body
    case TrailerNamed => k == Field
    case TrailerValued => k == Value
    case _ => false
  }

  lemma PhaseEnds(kind: ParserType, log: seq<Event>, k: Kind)
    requires PhaseOf(kind, log) != Bad
    ensures EndsWith(log, k) <==> Ends(kind, PhaseOf(kind, log), k)
  {
  }

  // The phase after an effect, on a nonempty run of bytes.
  function NextPhase(kind: ParserType, ph: Phase, eff: Effect): Phase {
    match eff
    case Quiet => ph
    case Flush(_) => ph
    case Byte(k) => if Ends(kind, ph, k) then ph else Advanced(kind, ph, Data(k, "x"))
    case Empty(k) => if Ends(kind, ph, k) then ph else Advanced(kind, ph, Data(k, ""))
    case Note(e) => Advanced(kind, ph, e)
  }

  lemma PhaseApply(kind: ParserType, log: seq<Event>, eff: Effect, ch: char)
    requires PhaseOf(kind, log) != Bad
    ensures PhaseOf(kind, Apply(log, eff, ch)) == NextPhase(kind, PhaseOf(kind, log), eff)
  {
    hide Advanced;
    match eff
    case Note(e) => PhaseSnoc(kind, log, e);
    case Byte(k) =>
      PhaseMerge(kind, log, k, [ch]);
      OneByte(kind, PhaseOf(kind, log), k, ch);
    case Empty(k) => PhaseMerge(kind, log, k, "");
    case _ =>
  }

  lemma LongerRun(kind: ParserType, ph: Phase, k: Kind, a: string, b: string)
    requires Advanced(kind, ph, Data(k, a)) != Bad
    ensures Advanced(kind, ph, Data(k, a + b)) == Advanced(kind, ph, Data(k, a))
  {
  }

  lemma OneByte(kind: ParserType, ph: Phase, k: Kind, ch: char)
    ensures Advanced(kind, ph, Data(k, [ch])) == Advanced(kind, ph, Data(k, "x"))
  {
  }

  lemma PhaseMerge(kind: ParserType, log: seq<Event>, k: Kind, b: string)
    requires PhaseOf(kind, log) != Bad
    ensures PhaseOf(kind, Merge(log, Data(k, b))) ==
            if Ends(kind, PhaseOf(kind, log), k) then PhaseOf(kind, log)
            else Advanced(kind, PhaseOf(kind, log), Data(k, b))
  {
    PhaseEnds(kind, log, k);
    hide Advanced, Ends;
    if EndsWith(log, k) {
      LongerRun(kind, PhaseOf(kind, log[..|log| - 1]), k, log[|log| - 1].bytes, b);
      PhaseSnoc(kind, log[..|log| - 1], Data(k, log[|log| - 1].bytes + b));
    } else {
      PhaseSnoc(kind, log, Data(k, b));
    }
  }

  // The phases a state can be in.
  predicate PhaseInv(r: Regs, ph: Phase) {
    match r.state
    case Dead => ph == Idle
    case StartReqOrRes => ph == Idle
    case ResOrRespH => ph == Begun
    case StatusLine(s) =>
      if s.StartRes? then ph == Idle || ph == Begun
      else if s.ResStatus? then ph == Line
      else if s.ResLineAlmostDone? then ph == Line || ph == Begun
      else ph == Begun
    case StartReq => ph == Idle
    case ReqMethod => ph == Begun
    case ReqSpacesBeforeUrl => ph == Begun
    case UrlPart(_) => ph == Line
    case VersionPart(_) => ph == Line
    case HeaderFieldStart => OpenPhase(r, ph)
    case HeadersAlmostDone => OpenPhase(r, ph)
    case HeaderField => if r.flags.trailing then ph == TrailerNamed else ph == Named
    case HeaderValueDiscardWs => if r.flags.trailing then ph == TrailerNamed else ph == Named
    case HeaderValueDiscardWsAlmostDone => if r.flags.trailing then ph == TrailerNamed else ph == Named
    case HeaderValueDiscardLws => if r.flags.trailing then ph == TrailerNamed else ph == Named
    case HeadersDone => ph == Headed
    case ChunkPart(s) =>
      if s.ChunkData? then ph == Chunk || ph == ChunkBody
      else if s.ChunkDataAlmostDone? || s.ChunkDataDone? then ph == ChunkBody
      else ph == Headed || ph == Between
    case BodyIdentity => ph == Headed || ph == Bodied
    case BodyIdentityEof => ph == Headed || ph == Bodied
    case MessageDone => if r.flags.trailing then ph == Closing else ph == Bodied
    case _ => if r.flags.trailing then ph == TrailerValued else ph == Valued
  }

  // Where a header line, or the end of the headers, can follow.
  predicate OpenPhase(r: Regs, ph: Phase) {
    if r.flags.trailing then ph == Chunk || ph == TrailerValued
    else ph == Line || ph == Valued || (ph == Begun && r.kind == Response)
  }

  predicate Follows(o: Out, ph: Phase) {
    o.Move? ==> PhaseInv(o.r, NextPhase(o.r.kind, ph, o.eff))
  }

  lemma EitherFollows(r: Regs, ph: Phase, ch: char)
    requires RegInv(r) && PhaseInv(r, ph) && (r.state.StartReqOrRes? || r.state.ResOrRespH?)
    ensures Follows(EitherSwitch(r, ch), ph)
  {
    hide Lawful, Tracked, MethodName;
  }

  lemma StatusFollows(r: Regs, s: StatusState, ph: Phase, ch: char)
    requires RegInv(r) && PhaseInv(r, ph) && r.state == StatusLine(s)
    ensures Follows(StatusSwitch(r, s, ch), ph)
  {
    hide Lawful, Tracked, MethodName;
  }

  lemma RequestFollows(r: Regs, ph: Phase, ch: char)
    requires RegInv(r) && PhaseInv(r, ph)
    ensures r.state.StartReq? ==> Follows(MethodStart(r, ch), ph)
    ensures r.state.ReqMethod? ==> Follows(MethodByte(r, ch), ph)
  {
    hide Lawful, Tracked, MethodName;
  }

  lemma UrlFollows(r: Regs, u: UrlState, ph: Phase, ch: char)
    requires RegInv(r) && PhaseInv(r, ph) && r.state == UrlPart(u)
    ensures Follows(UrlSwitch(r, u, ch), ph)
  {
    hide Lawful, Tracked, MethodName, ParseUrlChar;
  }

  lemma VersionFollows(r: Regs, v: VersionState, ph: Phase, ch: char)
    requires RegInv(r) && PhaseInv(r, ph) && r.state == VersionPart(v)
    ensures Follows(VersionSwitch(r, v, ch), ph)
  {
    hide Lawful, Tracked, MethodName;
  }

  lemma FieldFollows(r: Regs, ph: Phase, ch: char)
    requires RegInv(r) && PhaseInv(r, ph)
    ensures r.state.HeaderFieldStart? ==> Follows(FieldStart(r, ch), ph)
    ensures r.state.HeaderField? ==> Follows(FieldByte(r, ch), ph)
  {
    if r.state.HeaderFieldStart? { FieldStartFollows(r, ph, ch); }
    if r.state.HeaderField? { FieldByteFollows(r, ph, ch); }
  }

  lemma FieldStartFollows(r: Regs, ph: Phase, ch: char)
    requires RegInv(r) && PhaseInv(r, ph) && r.state.HeaderFieldStart?
    ensures Follows(FieldStart(r, ch), ph)
  {
    hide Lawful, Tracked, MethodName, NameStep, IsToken, Token, FirstFieldState;
  }

  lemma FieldByteFollows(r: Regs, ph: Phase, ch: char)
    requires RegInv(r) && PhaseInv(r, ph) && r.state.HeaderField?
    ensures Follows(FieldByte(r, ch), ph)
  {
    hide Lawful, Tracked, MethodName, NameStep, IsToken, Token;
  }

  lemma ValueFollows(r: Regs, ph: Phase, ch: char)
    requires RegInv(r) && PhaseInv(r, ph)
    requires r.state.HeaderValueDiscardWs? || r.state.HeaderValueDiscardWsAlmostDone? ||
             r.state.HeaderValueDiscardLws? || r.state.HeaderValueStart? || r.state.HeaderValue? ||
             r.state.HeaderAlmostDone? || r.state.HeaderValueLws?
    ensures Follows(ValueSwitch(r, ch), ph)
  {
    hide Lawful, Tracked, MethodName, ValueStart, ValueByte;
  }

  lemma ChunkFollows(r: Regs, s: ChunkState, ph: Phase, ch: char)
    requires RegInv(r) && PhaseInv(r, ph) && r.state == ChunkPart(s)
    ensures Follows(ChunkSwitch(r, s, ch), ph)
  {
    hide Lawful, Tracked, MethodName;
  }

  lemma BodyFollows(r: Regs, ph: Phase, ch: char)
    requires RegInv(r) && PhaseInv(r, ph)
    requires r.state.HeadersAlmostDone? || r.state.HeadersDone? || r.state.BodyIdentity? || r.state.BodyIdentityEof? ||
             r.state.MessageDone?
    ensures Follows(BodySwitch(r, ch), ph)
  {
    hide Lawful, Tracked, MethodName, ShouldKeepAlive;
  }

  lemma SwitchFollows(r: Regs, ph: Phase, ch: char)
    requires RegInv(r) && PhaseInv(r, ph)
    ensures Follows(Switch(r, ch), ph)
  {
    hide EitherSwitch, StatusSwitch, MethodStart, MethodByte, UrlSwitch, VersionSwitch, FieldStart, FieldByte;
    hide ValueSwitch, ChunkSwitch, BodySwitch, MethodName, ParseUrlChar;
    match r.state
    case Dead =>
    case StartReqOrRes => EitherFollows(r, ph, ch);
    case ResOrRespH => EitherFollows(r, ph, ch);
    case StatusLine(s) => StatusFollows(r, s, ph, ch);
    case StartReq => RequestFollows(r, ph, ch);
    case ReqMethod => RequestFollows(r, ph, ch);
    case ReqSpacesBeforeUrl =>
    case UrlPart(u) => UrlFollows(r, u, ph, ch);
    case VersionPart(v) => VersionFollows(r, v, ph, ch);
    case HeaderFieldStart => FieldFollows(r, ph, ch);
    case HeaderField => FieldFollows(r, ph, ch);
    case ChunkPart(s) => ChunkFollows(r, s, ph, ch);
    case HeadersAlmostDone => BodyFollows(r, ph, ch);
    case HeadersDone => BodyFollows(r, ph, ch);
    case BodyIdentity => BodyFollows(r, ph, ch);
    case BodyIdentityEof => BodyFollows(r, ph, ch);
    case MessageDone => BodyFollows(r, ph, ch);
    case _ => ValueFollows(r, ph, ch);
  }
}
