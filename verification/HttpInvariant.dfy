/**
 What every transition keeps: no assert() of the parser can fail, no matcher string is read out of
 bounds, the 8-bit index never wraps, and no kept length has wrapped around or equals the sentinel.
 */
module HttpInvariant {
  import opened Bytes
  import opened HttpTypes
  import opened HttpSwitch

  const MAX_INDEX: nat := 16

  // The index at which a matching header state expects the last byte of its word.
  function LastIndex(h: HeaderState): nat {
    match h
    case General => MAX_INDEX + 1
    case HContentLength => MAX_INDEX + 1
    case Name(n) => (
      match n
      case C => 1
      case CO => 2
      case CON => 3
      case MatchingConnection => 9
      case MatchingProxyConnection => 15
      case MatchingContentLength => 13
      case MatchingTransferEncoding => 16
      case MatchingUpgrade => 6
      case _ => MAX_INDEX + 1)
    case Val(v) => (
      match v
      case MatchingChunked => 6
      case TokenStart => 1
      case MatchingKeepAlive => 9
      case MatchingClose => 4
      case MatchingConnectionUpgrade => 6
      case _ => MAX_INDEX + 1)
  }

  predicate ChunkInv(r: Regs, s: ChunkState) {
    && r.flags.chunked && !r.flags.trailing
    && (!s.ChunkSizeStart? ==> r.length < NO_LENGTH)
    && (s.ChunkData? ==> r.length > 0)
    && (s.ChunkDataAlmostDone? ==> r.length == 0)
  }

  predicate ValueInv(r: Regs) {
    !r.hstate.Name? && (r.hstate == HContentLength ==> r.length < NO_LENGTH)
  }

  // What holds of the registers in each state.
  predicate StateInv(r: Regs) {
    match r.state
    case StartReqOrRes => r.kind == Both
    case ResOrRespH => r.kind == Both && !r.flags.trailing
    case StatusLine(s) => r.kind == Response && (r.flags.trailing ==> s.StartRes?)
    case StartReq => r.kind == Request
    case ReqMethod => r.kind == Request && !r.flags.trailing && 1 <= r.index <= |MethodName(r.method_)|
    case ReqSpacesBeforeUrl => r.kind == Request && !r.flags.trailing
    case UrlPart(_) => r.kind == Request && !r.flags.trailing
    case VersionPart(_) => r.kind == Request && !r.flags.trailing
    case HeaderField => r.kind != Both && !r.hstate.Val? && r.index < LastIndex(r.hstate)
    case HeaderValueDiscardWs => r.kind != Both && !r.hstate.Val?
    case HeaderValueDiscardWsAlmostDone => r.kind != Both && !r.hstate.Val?
    case HeaderValueDiscardLws => r.kind != Both && !r.hstate.Val?
    case HeaderValueStart => r.kind != Both && ValueInv(r)
    case HeaderValue => r.kind != Both && ValueInv(r) && r.index < LastIndex(r.hstate)
    case HeaderAlmostDone => r.kind != Both && ValueInv(r)
    case HeaderValueLws => r.kind != Both && ValueInv(r)
    case ChunkPart(s) => r.kind != Both && ChunkInv(r, s)
    case HeadersDone => r.kind != Both && !r.flags.trailing
    case BodyIdentity => r.kind != Both && !r.flags.trailing && 0 < r.length < NO_LENGTH
    case BodyIdentityEof => r.kind == Response && NeedsEof(r)
    case _ => r.kind != Both
  }

  predicate RegInv(r: Regs) {
    && r.major <= 999 && r.minor <= 999 && r.status <= 999 && r.index <= MAX_INDEX
    && r.length <= NO_LENGTH
    && (r.flags.trailing ==> r.flags.chunked)
    && StateInv(r)
  }

  predicate Keeps(o: Out) {
    !o.Fatal? && (o.Move? ==> RegInv(o.r))
  }

  lemma NameLengths(m: Method)
    ensures 3 <= |MethodName(m)| <= 11
    ensures |MethodName(PROPPATCH)| >= 5 && |MethodName(MKCALENDAR)| >= 4
  {
  }

  lemma EitherKeeps(r: Regs, ch: char)
    requires RegInv(r) && (r.state.StartReqOrRes? || r.state.ResOrRespH?)
    ensures Keeps(EitherSwitch(r, ch))
  {
    NameLengths(HEAD);
    hide Lawful, Tracked, MethodName;
  }

  lemma StatusKeeps(r: Regs, s: StatusState, ch: char)
    requires RegInv(r) && r.state == StatusLine(s)
    ensures Keeps(StatusSwitch(r, s, ch))
  {
    hide Lawful, Tracked, MethodName;
  }

  lemma MethodStartKeeps(r: Regs, ch: char)
    requires RegInv(r) && r.state.StartReq?
    ensures Keeps(MethodStart(r, ch))
  {
    NameLengths(FirstMethod(ch));
    hide Lawful, Tracked, MethodName;
  }

  lemma MethodByteKeeps(r: Regs, ch: char)
    requires RegInv(r) && r.state.ReqMethod?
    ensures Keeps(MethodByte(r, ch))
  {
    NameLengths(r.method_);
    NameLengths(Reguess(r.method_, r.index, ch));
    hide Lawful, Tracked, MethodName;
  }

  lemma UrlKeeps(r: Regs, u: UrlState, ch: char)
    requires RegInv(r) && r.state == UrlPart(u)
    ensures Keeps(UrlSwitch(r, u, ch))
  {
    hide Lawful, Tracked, MethodName, ParseUrlChar;
  }

  lemma VersionKeeps(r: Regs, v: VersionState, ch: char)
    requires RegInv(r) && r.state == VersionPart(v)
    ensures Keeps(VersionSwitch(r, v, ch))
  {
    hide Lawful, Tracked, MethodName;
  }

  lemma FieldKeeps(r: Regs, ch: char)
    requires RegInv(r) && (r.state.HeaderFieldStart? || r.state.HeaderField?)
    ensures r.state.HeaderFieldStart? ==> Keeps(FieldStart(r, ch))
    ensures r.state.HeaderField? ==> Keeps(FieldByte(r, ch))
  {
    hide Lawful, Tracked, MethodName, NameStep;
    if r.hstate.Name? && r.state.HeaderField? { NameStepKeeps(r.hstate.n, r.index, Token(ch)); }
  }

  lemma MatchWordRange(word: string, i: nat, c: char, on: HeaderState, done: HeaderState, miss: HeaderState)
    requires i < |word|
    ensures var h := MatchWord(word, i, c, on, done, miss); h == miss || h == done || (h == on && i < |word| - 1)
  {
  }

  lemma NameStepKeeps(n: NameState, i: nat, c: char)
    requires i <= MAX_INDEX && i < LastIndex(Name(n))
    ensures !NameStep(n, i, c).0.Val? && NameStep(n, i, c).1 < LastIndex(NameStep(n, i, c).0)
    ensures NameStep(n, i, c).1 <= MAX_INDEX
  {
  }

  lemma ValStepKeeps(f: Flags, v: ValueState, i: nat, ch: char)
    requires i <= MAX_INDEX && i < LastIndex(Val(v))
    ensures var (f', h', i') := ValStep(f, v, i, ch);
            f'.trailing == f.trailing && f'.chunked == f.chunked && !h'.Name? && !h'.HContentLength? &&
            i' < LastIndex(h') && i' <= MAX_INDEX
  {
    hide Lower, IsToken, MatchWord;
    var c, j := Lower(ch), Bump(i);
    match v
    case MatchingChunked => MatchWordRange(CHUNKED, j, c, Val(v), Val(HChunked), General);
    case MatchingKeepAlive => MatchWordRange(KEEP_ALIVE, j, c, Val(v), Val(HKeepAlive), Val(MatchingToken));
    case MatchingClose => MatchWordRange(CLOSE, j, c, Val(v), Val(HClose), Val(MatchingToken));
    case MatchingConnectionUpgrade => MatchWordRange(UPGRADE, j, c, Val(v), Val(HConnectionUpgrade), Val(MatchingToken));
    case _ =>
  }

  lemma ValueStartKeeps(r: Regs, ch: char)
    requires RegInv(r) && (r.state.HeaderValueDiscardWs? || r.state.HeaderValueStart?)
    ensures Keeps(ValueStart(r, ch))
  {
    hide Lawful, Tracked, MethodName, Lower;
  }

  lemma ValueByteKeeps(r: Regs, ch: char)
    requires RegInv(r) && r.state.HeaderValue?
    ensures Keeps(ValueByte(r, ch))
  {
    hide Lawful, Tracked, MethodName, ValStep;
    if r.hstate.Val? { ValStepKeeps(r.flags, r.hstate.v, r.index, ch); }
  }

  lemma ValueKeeps(r: Regs, ch: char)
    requires RegInv(r)
    requires r.state.HeaderValueDiscardWs? || r.state.HeaderValueDiscardWsAlmostDone? ||
             r.state.HeaderValueDiscardLws? || r.state.HeaderValueStart? || r.state.HeaderValue? ||
             r.state.HeaderAlmostDone? || r.state.HeaderValueLws?
    ensures Keeps(ValueSwitch(r, ch))
  {
    hide Lawful, Tracked, MethodName, ValueByte, ValueStart, ValueFlags, LastIndex;
    if r.state.HeaderValueDiscardWs? || r.state.HeaderValueStart? { ValueStartKeeps(r, ch); }
    if r.state.HeaderValue? { ValueByteKeeps(r, ch); }
  }

  lemma ChunkKeeps(r: Regs, s: ChunkState, ch: char)
    requires RegInv(r) && r.state == ChunkPart(s)
    ensures Keeps(ChunkSwitch(r, s, ch))
  {
    hide Lawful, Tracked, MethodName;
  }

  lemma BodyKeeps(r: Regs, ch: char)
    requires RegInv(r)
    requires r.state.HeadersAlmostDone? || r.state.HeadersDone? || r.state.BodyIdentity? || r.state.BodyIdentityEof? ||
             r.state.MessageDone?
    ensures Keeps(BodySwitch(r, ch))
  {
    hide Lawful, Tracked, MethodName, ShouldKeepAlive;
  }

  /** No transition from a good state fails an assert() or reads a matcher out of bounds. */
  lemma SwitchKeeps(r: Regs, ch: char)
    requires RegInv(r)
    ensures Keeps(Switch(r, ch))
  {
    hide EitherSwitch, StatusSwitch, MethodStart, MethodByte, UrlSwitch, VersionSwitch, FieldStart, FieldByte;
    hide ValueSwitch, ChunkSwitch, BodySwitch, MethodName, ParseUrlChar;
    match r.state
    case Dead =>
    case StartReqOrRes => EitherKeeps(r, ch);
    case ResOrRespH => EitherKeeps(r, ch);
    case StatusLine(s) => StatusKeeps(r, s, ch);
    case StartReq => MethodStartKeeps(r, ch);
    case ReqMethod => MethodByteKeeps(r, ch);
    case ReqSpacesBeforeUrl =>
    case UrlPart(u) => UrlKeeps(r, u, ch);
    case VersionPart(v) => VersionKeeps(r, v, ch);
    case HeaderFieldStart => FieldKeeps(r, ch);
    case HeaderField => FieldKeeps(r, ch);
    case ChunkPart(s) => ChunkKeeps(r, s, ch);
    case HeadersAlmostDone => BodyKeeps(r, ch);
    case HeadersDone => BodyKeeps(r, ch);
    case BodyIdentity => BodyKeeps(r, ch);
    case BodyIdentityEof => BodyKeeps(r, ch);
    case MessageDone => BodyKeeps(r, ch);
    case _ => ValueKeeps(r, ch);
  }
}
