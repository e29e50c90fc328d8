/**
 Malformed input: which bytes each place in a message takes, what is said about any other, and that a run stops at
 the first such byte.
 */
module HttpErrors {
  import opened Bytes
  import opened HttpTypes
  import opened HttpSwitch
  import opened HttpRun

  predicate IsEnd(ch: char) {
    ch == CR || ch == LF
  }

  // A further digit of a number up to 999.
  predicate DigitAfter(n: nat, ch: char) {
    IsNum(ch) && n * 10 + Digit(ch) <= 999
  }

  // The error at a place where a byte is not taken.
  function ErrorAt(s: State): Errno {
    match s
    case Dead => ClosedConnection
    case ResOrRespH => InvalidConstant
    case StatusLine(t) => (
      match t
      case StartRes => InvalidConstant
      case ResFirstHttpMajor => InvalidVersion
      case ResHttpMajor => InvalidVersion
      case ResFirstHttpMinor => InvalidVersion
      case ResHttpMinor => InvalidVersion
      case ResFirstStatusCode => InvalidStatus
      case ResStatusCode => InvalidStatus
      case _ => Strict)
    case StartReq => InvalidMethod
    case ReqMethod => InvalidMethod
    case ReqSpacesBeforeUrl => InvalidUrl
    case UrlPart(_) => InvalidUrl
    case VersionPart(v) => (
      match v
      case ReqHttpStart => InvalidConstant
      case ReqLineAlmostDone => LfExpected
      case ReqFirstHttpMajor => InvalidVersion
      case ReqHttpMajor => InvalidVersion
      case ReqFirstHttpMinor => InvalidVersion
      case ReqHttpMinor => InvalidVersion
      case _ => Strict)
    case HeaderFieldStart => InvalidHeaderToken
    case HeaderField => InvalidHeaderToken
    case HeaderValueDiscardWs => InvalidContentLength
    case HeaderValueStart => InvalidContentLength
    case HeaderValue => InvalidContentLength
    case ChunkPart(t) => if t.ChunkSizeStart? then InvalidChunkSize else Strict
    case _ => Strict
  }

  // The byte is one of those that may stand there. The parser takes methods letter by letter, for which see
  // HttpMethods; of lengths and chunk sizes it takes no further digit that could overflow.
  predicate Takes(r: Regs, ch: char) {
    match r.state
    case Dead => IsEnd(ch)
    case StartReqOrRes => true
    case ResOrRespH => ch == 'T' || ch == 'E'
    case StatusLine(t) => TakesStatus(r, t, ch)
    case VersionPart(v) => TakesVersion(r, v, ch)
    case HeaderFieldStart => IsEnd(ch) || IsToken(ch)
    case HeaderField => ch == ':' || IsToken(ch)
    case HeaderValueDiscardWs => r.hstate == HContentLength ==> IsNum(ch) || IsEnd(ch) || ch == ' ' || ch == '\t'
    case HeaderValueStart => r.hstate == HContentLength ==> IsNum(ch)
    case HeaderValue =>
      r.hstate == HContentLength ==> IsEnd(ch) || ch == ' ' || (IsNum(ch) && r.length <= (NO_LENGTH - 10) / 10)
    case HeaderAlmostDone => ch == LF
    case HeaderValueDiscardWsAlmostDone => ch == LF
    case HeadersAlmostDone => ch == LF
    case HeadersDone => ch == LF
    case ChunkPart(t) => TakesChunk(r, t, ch)
    case _ => true
  }

  predicate TakesStatus(r: Regs, t: StatusState, ch: char) {
    match t
    case StartRes => ch == 'H' || IsEnd(ch)
    case ResH => ch == 'T'
    case ResHT => ch == 'T'
    case ResHTT => ch == 'P'
    case ResHTTP => ch == '/'
    case ResFirstHttpMajor => IsNum(ch)
    case ResHttpMajor => ch == '.' || DigitAfter(r.major, ch)
    case ResFirstHttpMinor => IsNum(ch)
    case ResHttpMinor => ch == ' ' || DigitAfter(r.minor, ch)
    case ResFirstStatusCode => IsNum(ch) || ch == ' '
    case ResStatusCode => ch == ' ' || IsEnd(ch) || DigitAfter(r.status, ch)
    case ResLineAlmostDone => ch == LF
    case _ => true
  }

  predicate TakesVersion(r: Regs, v: VersionState, ch: char) {
    match v
    case ReqHttpStart => ch == 'H' || ch == ' '
    case ReqHttpH => ch == 'T'
    case ReqHttpHT => ch == 'T'
    case ReqHttpHTT => ch == 'P'
    case ReqHttpHTTP => ch == '/'
    case ReqFirstHttpMajor => IsNum(ch) && ch != '0'
    case ReqHttpMajor => ch == '.' || DigitAfter(r.major, ch)
    case ReqFirstHttpMinor => IsNum(ch)
    case ReqHttpMinor => IsEnd(ch) || DigitAfter(r.minor, ch)
    case ReqLineAlmostDone => ch == LF
  }

  predicate TakesChunk(r: Regs, t: ChunkState, ch: char) {
    match t
    case ChunkSizeStart => Unhex(ch) != -1
    case ChunkSize => ch == CR || ch == ';' || ch == ' ' || (Unhex(ch) != -1 && r.length <= (NO_LENGTH - 16) / 16)
    case ChunkSizeAlmostDone => ch == LF
    case ChunkDataAlmostDone => ch == CR
    case ChunkDataDone => ch == LF
    case _ => true
  }

  // The error in the size of a chunk: one too large, or no digit.
  function ErrorOf(r: Regs, ch: char): Errno {
    if r.state == ChunkPart(ChunkSize) then (if Unhex(ch) == -1 then InvalidChunkSize else InvalidContentLength)
    else ErrorAt(r.state)
  }

  // Methods and targets have theorems of their own.
  predicate ByLetter(s: State) {
    s.StartReq? || s.ReqMethod? || s.ReqSpacesBeforeUrl? || s.UrlPart?
  }

  lemma ErrorIs(r: Regs, ch: char)
    ensures Switch(r, ch).Fail? ==> Switch(r, ch).e == ErrorOf(r, ch)
  {
    hide Lawful, Tracked, NewMessage, ShouldKeepAlive, Token, IsToken, FieldToken, ValStep, ParseUrlChar, Reguess, StartsMethod;
    hide MethodName;
  }

  lemma TakenInLine(r: Regs, ch: char)
    requires r.state.StatusLine? || r.state.VersionPart? || r.state.ChunkPart?
    requires !Switch(r, ch).Fatal?
    ensures Switch(r, ch).Move? <==> Takes(r, ch)
  {
    hide Lawful, Tracked;
  }

  lemma TakenInHeader(r: Regs, ch: char)
    requires !r.state.StatusLine? && !r.state.VersionPart? && !r.state.ChunkPart? && !ByLetter(r.state)
    requires !Switch(r, ch).Fatal?
    ensures Switch(r, ch).Move? <==> Takes(r, ch)
  {
    hide Lawful, Tracked, NewMessage, ShouldKeepAlive, Token, IsToken, FieldToken, ValStep, StatusSwitch, VersionSwitch;
    hide ChunkSwitch, UrlSwitch, UrlByte, MethodStart, MethodByte, TakesStatus, TakesVersion, TakesChunk, Lower, MethodName;
  }

  /** A byte is refused exactly where it may not stand, with the error of that place. */
  lemma RefusedExact(r: Regs, ch: char)
    requires !Switch(r, ch).Fatal?
    ensures Switch(r, ch).Fail? ==> Switch(r, ch).e == ErrorOf(r, ch)
    ensures !ByLetter(r.state) ==> (Switch(r, ch).Move? <==> Takes(r, ch))
  {
    hide Switch, Takes, ErrorOf;
    ErrorIs(r, ch);
    if r.state.StatusLine? || r.state.VersionPart? || r.state.ChunkPart? {
      TakenInLine(r, ch);
    } else if !ByLetter(r.state) {
      TakenInHeader(r, ch);
    }
  }

  /** A run that fails does so on the first byte that may not stand where it comes, with the error of that place. */
  lemma {:induction false} FirstRefused(skip: Skip, c: Conf, input: string) returns (c': Conf, i: nat)
    requires Run(skip, c, input).Failed?
    ensures i < |input| && Run(skip, c, input) == Run(skip, c', input[i..])
    ensures var res := Run(skip, c, input);
            && res.pos == c'.pos == c.pos + i && res.e == ErrorOf(c'.r, input[i])
            && (!ByLetter(c'.r.state) ==> !Takes(c'.r, input[i]))
    decreases |input|, Rank(c.r.state)
  {
    hide Switch, Run, Takes, ErrorOf, After;
    RunNothing(skip, c);
    var o := Switch(c.r, input[0]);
    match o
    case Fatal => CrashStep(skip, c, input);
    case Fail(e) =>
      FailStep(skip, c, input, e);
      RefusedExact(c.r, input[0]);
      assert input[0..] == input;
      c', i := c, 0;
    case Move(_, _, go) =>
      RunStep(skip, c, input, o);
      StateAfter(skip, c, o, input[0]);
      var c1 := After(skip, c, o, input[0]);
      if go == Again {
        c', i := FirstRefused(skip, c1, input);
      } else {
        c', i := FirstRefused(skip, c1, input[1..]);
        assert input[1..][i..] == input[i + 1..];
        i := i + 1;
      }
  }

  lemma CrashStep(skip: Skip, c: Conf, input: string)
    requires input != "" && Switch(c.r, input[0]).Fatal?
    ensures Run(skip, c, input) == Crashed
  {
  }
}
