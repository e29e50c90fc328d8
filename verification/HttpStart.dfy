/** The first line of a message: request lines and status lines in all the ways the parser takes them. */
module HttpStart {
  import opened Bytes
  import opened HttpTypes
  import opened HttpSwitch
  import opened HttpRun
  import opened HttpMethods
  import opened HttpHeaders
  import opened HttpLengths

  // ---------- Numbers ----------

  // The numbers in first lines, each below 1000.
  datatype Number = AskedMajor | AskedMinor | Major | Minor | Code

  const MAX_NUMBER: nat := 999

  // The state before a number, and the state in it.
  function BeforeNumber(k: Number): State {
    match k
    case AskedMajor => VersionPart(VersionState.ReqFirstHttpMajor)
    case AskedMinor => VersionPart(VersionState.ReqFirstHttpMinor)
    case Major => StatusLine(ResFirstHttpMajor)
    case Minor => StatusLine(ResFirstHttpMinor)
    case Code => StatusLine(ResFirstStatusCode)
  }

  function InNumber(r: Regs, k: Number, n: nat): Regs {
    match k
    case AskedMajor => r.(major := n, state := VersionPart(VersionState.ReqHttpMajor))
    case AskedMinor => r.(minor := n, state := VersionPart(VersionState.ReqHttpMinor))
    case Major => r.(major := n, state := StatusLine(ResHttpMajor))
    case Minor => r.(minor := n, state := StatusLine(ResHttpMinor))
    case Code => r.(status := n, state := StatusLine(ResStatusCode))
  }

  function NumberError(k: Number): Errno {
    if k.Code? then InvalidStatus else InvalidVersion
  }

  predicate Digits(w: string) {
    forall i :: 0 <= i < |w| ==> IsNum(w[i])
  }

  predicate IsNumber(w: string) {
    w != "" && Digits(w)
  }

  lemma FirstDigit(r: Regs, k: Number, ch: char)
    requires r.state == BeforeNumber(k) && IsNum(ch)
    ensures Switch(r, ch) ==
            if k.AskedMajor? && ch == '0' then Fail(InvalidVersion) else Move(InNumber(r, k, Digit(ch)), Quiet, Advance)
  {
    hide Lawful, Tracked;
  }

  lemma NextDigit(r: Regs, k: Number, n: nat, ch: char)
    requires r == InNumber(r, k, n) && IsNum(ch)
    ensures var next := n * 10 + Digit(ch);
            Switch(r, ch) == if next > MAX_NUMBER then Fail(NumberError(k)) else Move(InNumber(r, k, next), Quiet, Advance)
  {
    hide Lawful, Tracked;
  }

  lemma InNumberTwice(r: Regs, k: Number, n: nat, m: nat)
    ensures InNumber(InNumber(r, k, n), k, m) == InNumber(r, k, m)
    ensures ParsingHeader(BeforeNumber(k)) && !ResetsCount(BeforeNumber(k))
    ensures ParsingHeader(InNumber(r, k, n).state) && !ResetsCount(InNumber(r, k, n).state)
  {
  }

  lemma {:induction false} DigitsRun(skip: Skip, c: Conf, k: Number, n: nat, w: string, rest: string)
    requires c.r == InNumber(c.r, k, n) && Digits(w) && n <= MAX_NUMBER && c.hdr <= c.peak
    ensures var res := Run(skip, c, w + rest);
            if Decimal(n, w) <= MAX_NUMBER then
              res == Run(skip, Spent(c, InNumber(c.r, k, Decimal(n, w)), c.log, |w|), rest)
            else res.Failed? && res.e == NumberError(k)
    decreases |w|
  {
    hide Run, Switch, Lawful, Tracked, InNumber, NumberError;
    if w == "" {
      assert w + rest == rest;
      SpentNothing(c);
    } else {
      var input, next := w + rest, n * 10 + Digit(w[0]);
      assert input[0] == w[0] && input[1..] == w[1..] + rest && Digits(w[1..]);
      NextDigit(c.r, k, n, w[0]);
      InNumberTwice(c.r, k, n, next);
      InNumberTwice(c.r, k, next, Decimal(n, w));
      InNumberTwice(c.r, k, next, next);
      DecimalGrows(next, w[1..]);
      if next > MAX_NUMBER {
        FailStep(skip, c, input, NumberError(k));
      } else {
        HeaderStep(skip, c, input, InNumber(c.r, k, next), Quiet);
        DigitsRun(skip, Spent(c, InNumber(c.r, k, next), c.log, 1), k, next, w[1..], rest);
      }
    }
  }

  /** A number is kept as its decimal value, or is an error, exactly above 999; a request's major version has no zero in front. */
  lemma NumberRun(skip: Skip, c: Conf, k: Number, w: string, rest: string)
    requires c.r.state == BeforeNumber(k) && IsNumber(w) && c.hdr <= c.peak
    ensures var res := Run(skip, c, w + rest);
            if Decimal(0, w) <= MAX_NUMBER && (k.AskedMajor? ==> w[0] != '0') then
              res == Run(skip, Spent(c, InNumber(c.r, k, Decimal(0, w)), c.log, |w|), rest)
            else res.Failed? && res.e == NumberError(k)
  {
    hide Run, Switch, Lawful, Tracked, InNumber, BeforeNumber, NumberError;
    var input, d := w + rest, Digit(w[0]);
    assert input[0] == w[0] && input[1..] == w[1..] + rest && Digits(w[1..]);
    FirstDigit(c.r, k, w[0]);
    InNumberTwice(c.r, k, d, d);
    InNumberTwice(c.r, k, d, Decimal(0, w));
    if k.AskedMajor? && w[0] == '0' {
      NoZero(k);
      FailStep(skip, c, input, InvalidVersion);
    } else {
      HeaderStep(skip, c, input, InNumber(c.r, k, d), Quiet);
      DigitsRun(skip, Spent(c, InNumber(c.r, k, d), c.log, 1), k, d, w[1..], rest);
    }
  }

  lemma NoZero(k: Number)
    requires k.AskedMajor?
    ensures NumberError(k) == InvalidVersion
  {
  }

  // ---------- Spaces ----------

  predicate Spaces(w: string) {
    forall i :: 0 <= i < |w| ==> w[i] == ' '
  }

  predicate SkipsSpaces(s: State) {
    s == ReqSpacesBeforeUrl || s == VersionPart(ReqHttpStart) || s == StatusLine(ResFirstStatusCode)
  }

  lemma {:induction false} SpacesRun(skip: Skip, c: Conf, w: string, rest: string)
    requires SkipsSpaces(c.r.state) && Spaces(w) && c.hdr <= c.peak
    ensures Run(skip, c, w + rest) == Run(skip, Spent(c, c.r, c.log, |w|), rest)
    decreases |w|
  {
    hide Run, Lawful, Tracked;
    if w == "" {
      assert w + rest == rest;
    } else {
      assert w + rest == [' '] + (w[1..] + rest) && (w + rest)[1..] == w[1..] + rest;
      assert Switch(c.r, ' ') == Move(c.r, Quiet, Advance);
      hide Switch;
      HeaderStep(skip, c, w + rest, c.r, Quiet);
      SpacesRun(skip, Spent(c, c.r, c.log, 1), w[1..], rest);
    }
  }

  // ---------- "HTTP/" ----------

  function LettersFrom(s: State): seq<State> {
    if s.VersionPart? then
      [VersionPart(ReqHttpStart), VersionPart(ReqHttpH), VersionPart(ReqHttpHT), VersionPart(ReqHttpHTT),
       VersionPart(ReqHttpHTTP), VersionPart(VersionState.ReqFirstHttpMajor)]
    else
      [StatusLine(StartRes), StatusLine(ResH), StatusLine(ResHT), StatusLine(ResHTT), StatusLine(ResHTTP),
       StatusLine(ResFirstHttpMajor)]
  }

  // From the 'H' on, which a status line has reported already.
  lemma LettersSwitch(r: Regs, i: nat)
    requires (r.state.VersionPart? || r.state.StatusLine?) && i < 5 && r.state == LettersFrom(r.state)[i]
    requires r.state.StatusLine? ==> 0 < i
    ensures Switch(r, "HTTP/"[i]) == Move(r.(state := LettersFrom(r.state)[i + 1]), Quiet, Advance)
  {
    hide Lawful, Tracked;
  }

  // The rest of the letters, of which `i` have been read.
  lemma {:induction false} LettersRun(skip: Skip, c: Conf, i: nat, rest: string)
    requires c.r.state.VersionPart? || c.r.state.StatusLine?
    requires i < 5 && c.r.state == LettersFrom(c.r.state)[i] && (c.r.state.StatusLine? ==> 0 < i)
    ensures Run(skip, c, "HTTP/"[i..] + rest) ==
            Run(skip, Spent(c, c.r.(state := LettersFrom(c.r.state)[5]), c.log, 5 - i), rest)
    decreases 5 - i
  {
    hide Run, Switch, Lawful, Tracked;
    var input, r := "HTTP/"[i..] + rest, c.r.(state := LettersFrom(c.r.state)[i + 1]);
    assert input[0] == "HTTP/"[i] && input[1..] == "HTTP/"[i + 1..] + rest;
    LettersSwitch(c.r, i);
    HeaderStep(skip, c, input, r, Quiet);
    if i < 4 {
      LettersRun(skip, Spent(c, r, c.log, 1), i + 1, rest);
    } else {
      assert "HTTP/"[5..] + rest == rest;
    }
  }

  // ---------- Versions ----------

  datatype Version = Version(major: string, minor: string)

  predicate IsVersion(v: Version) {
    IsNumber(v.major) && IsNumber(v.minor)
  }

  predicate Small(v: Version) {
    Decimal(0, v.major) <= MAX_NUMBER && Decimal(0, v.minor) <= MAX_NUMBER
  }

  function VersionText(v: Version): string {
    v.major + ("." + v.minor)
  }

  lemma DotSwitch(r: Regs, k: Number, n: nat)
    requires (k.AskedMajor? || k.Major?) && r == InNumber(r, k, n)
    ensures Switch(r, '.') == Move(r.(state := BeforeNumber(if k.Major? then Minor else AskedMinor)), Quiet, Advance)
  {
    hide Lawful, Tracked;
  }

  // The registers after a version.
  function WithVersion(r: Regs, asked: bool, v: Version): Regs {
    InNumber(r.(major := Decimal(0, v.major)), if asked then AskedMinor else Minor, Decimal(0, v.minor))
  }

  // A version the parser takes.
  predicate Taken(asked: bool, v: Version)
    requires IsVersion(v)
  {
    Small(v) && (asked ==> v.major[0] != '0')
  }

  lemma MinorRegs(r: Regs, asked: bool, n: nat, m: nat)
    ensures var k, k' := if asked then AskedMajor else Major, if asked then AskedMinor else Minor;
            InNumber(InNumber(r, k, n).(state := BeforeNumber(k')), k', m) == InNumber(r.(major := n), k', m)
  {
  }

  // From the dot on.
  lemma MinorRun(skip: Skip, c: Conf, r: Regs, asked: bool, n: nat, w: string, rest: string)
    requires c.r == InNumber(r, if asked then AskedMajor else Major, n) && IsNumber(w) && c.hdr <= c.peak
    ensures var res, k := Run(skip, c, "." + (w + rest)), if asked then AskedMinor else Minor;
            if Decimal(0, w) <= MAX_NUMBER then
              res == Run(skip, Spent(c, InNumber(r.(major := n), k, Decimal(0, w)), c.log, 1 + |w|), rest)
            else res.Failed? && res.e == InvalidVersion
  {
    hide Run, Switch, Lawful, Tracked, IsNumber, Decimal, InNumber, BeforeNumber;
    var k, k' := if asked then AskedMajor else Major, if asked then AskedMinor else Minor;
    var tail, r2 := "." + (w + rest), c.r.(state := BeforeNumber(k'));
    assert tail[0] == '.' && tail[1..] == w + rest;
    InNumberTwice(r, k, n, n);
    DotSwitch(c.r, k, n);
    HeaderStep(skip, c, tail, r2, Quiet);
    NumberRun(skip, Spent(c, r2, c.log, 1), k', w, rest);
    MinorRegs(r, asked, n, Decimal(0, w));
  }

  /** The version of a request or response: two numbers, each with its error. */
  lemma VersionRun(skip: Skip, c: Conf, asked: bool, v: Version, rest: string)
    requires c.r.state == BeforeNumber(if asked then AskedMajor else Major) && IsVersion(v) && c.hdr <= c.peak
    ensures var res := Run(skip, c, VersionText(v) + rest);
            if Taken(asked, v) then
              res == Run(skip, Spent(c, WithVersion(c.r, asked, v), c.log, |VersionText(v)|), rest)
            else res.Failed? && res.e == InvalidVersion
  {
    hide Run, Digits, Decimal, InNumber, BeforeNumber;
    var k, tail := if asked then AskedMajor else Major, "." + (v.minor + rest);
    assert VersionText(v) + rest == v.major + tail;
    NumberRun(skip, c, k, v.major, tail);
    var n := Decimal(0, v.major);
    if n <= MAX_NUMBER && (asked ==> v.major[0] != '0') {
      MinorRun(skip, Spent(c, InNumber(c.r, k, n), c.log, |v.major|), c.r, asked, n, v.minor, rest);
    }
  }

  // ---------- Line ends ----------

  predicate EndsLine(s: State) {
    s == VersionPart(VersionState.ReqHttpMinor) || s == StatusLine(ResStatusCode) || s == StatusLine(ResStatusStart)
  }

  lemma EndSwitch(r: Regs)
    requires EndsLine(r.state)
    ensures Switch(r, LF) == Move(r.(state := HeaderFieldStart), Quiet, Advance)
    ensures var r1 := r.(state := if r.state.VersionPart? then VersionPart(VersionState.ReqLineAlmostDone)
                                  else StatusLine(ResLineAlmostDone));
            && Switch(r, CR) == Move(r1, Quiet, Advance)
            && Switch(r1, LF) == Move(r.(state := HeaderFieldStart), Quiet, Advance)
  {
    hide Lawful, Tracked;
  }

  lemma LineEndRun(skip: Skip, c: Conf, end: string, rest: string)
    requires EndsLine(c.r.state) && IsLineEnd(end) && c.hdr <= c.peak
    ensures Run(skip, c, end + rest) == Run(skip, Spent(c, c.r.(state := HeaderFieldStart), c.log, |end|), rest)
  {
    hide Run, Switch, Lawful, Tracked, Spent;
    SpentNothing(c);
    EndSwitch(c.r);
    var r1 := c.r.(state := if c.r.state.VersionPart? then VersionPart(VersionState.ReqLineAlmostDone)
                            else StatusLine(ResLineAlmostDone));
    var r2 := c.r.(state := HeaderFieldStart);
    if end == CRLF {
      assert CRLF + rest == [CR] + ([LF] + rest);
      QuietStep(skip, c, c.r, 0, CR, r1, [LF] + rest);
      QuietStep(skip, c, r1, 1, LF, r2, rest);
    } else {
      QuietStep(skip, c, c.r, 0, LF, r2, rest);
    }
  }

  // ---------- Status lines ----------

  // The text after the code, if there is a space for it.
  datatype ResponseStart = ResponseStart(version: Version, gap: string, code: string, reason: Option<string>, end: string)

  predicate IsResponseStart(s: ResponseStart) {
    && IsVersion(s.version) && Spaces(s.gap) && IsNumber(s.code) && IsLineEnd(s.end)
    && (s.reason.Some? ==> NoLineEnd(s.reason.value))
  }

  function ReasonText(reason: Option<string>): string {
    match reason case None => "" case Some(text) => " " + text
  }

  // The part of a status line from the space before the code on.
  function CodeText(s: ResponseStart): string {
    " " + (s.gap + (s.code + (ReasonText(s.reason) + s.end)))
  }

  function ResponseText(s: ResponseStart): string {
    "HTTP/" + (VersionText(s.version) + CodeText(s))
  }

  function ReasonLog(reason: Option<string>): seq<Event> {
    if reason.Some? && reason.value != "" then [Data(Status, reason.value)] else []
  }

  lemma ReasonSwitch(r: Regs, ch: char)
    ensures r.state == StatusLine(ResStatusCode) ==> Switch(r, ' ') == Move(r.(state := StatusLine(ResStatusStart)), Quiet, Advance)
    ensures r.state == StatusLine(ResStatusStart) && ch != CR && ch != LF ==>
              Switch(r, ch) == Move(r.(state := StatusLine(ResStatus), index := 0), Byte(Status), Advance)
    ensures r.state == StatusLine(ResStatus) ==>
              && (ch != CR && ch != LF ==> Switch(r, ch) == Move(r, Byte(Status), Advance))
              && Switch(r, CR) == Move(r.(state := StatusLine(ResLineAlmostDone)), Flush(Status), Advance)
              && Switch(r, LF) == Move(r.(state := HeaderFieldStart), Flush(Status), Advance)
    ensures r.state == StatusLine(ResLineAlmostDone) ==> Switch(r, LF) == Move(r.(state := HeaderFieldStart), Quiet, Advance)
  {
    hide Lawful, Tracked;
  }

  lemma {:induction false} StatusTailRun(skip: Skip, c: Conf, w: string, rest: string)
    requires c.r.state == StatusLine(ResStatus) && NoLineEnd(w) && EndsWith(c.log, Status) && c.hdr <= c.peak
    ensures Run(skip, c, w + rest) == Run(skip, Spent(c, c.r, Merge(c.log, Data(Status, w)), |w|), rest)
    decreases |w|
  {
    hide Run, Switch, Lawful, Tracked, Merge, EndsWith;
    if w == "" {
      assert w + rest == rest;
      MergeNothing(c.log, Status);
    } else {
      var input := w + rest;
      assert input[0] == w[0] && input[1..] == w[1..] + rest && [w[0]] + w[1..] == w && NoLineEnd(w[1..]);
      ReasonSwitch(c.r, w[0]);
      HeaderStep(skip, c, input, c.r, Byte(Status));
      MergeTwice(c.log, Status, [w[0]], w[1..]);
      StatusTailRun(skip, Spent(c, c.r, Merge(c.log, Data(Status, [w[0]])), 1), w[1..], rest);
    }
  }

  lemma WholeStatusRun(skip: Skip, c: Conf, text: string, rest: string)
    requires c.r.state == StatusLine(ResStatusStart) && text != "" && NoLineEnd(text) && !EndsWith(c.log, Status)
    requires c.hdr <= c.peak
    ensures Run(skip, c, text + rest) ==
            Run(skip, Spent(c, c.r.(state := StatusLine(ResStatus), index := 0), c.log + [Data(Status, text)], |text|), rest)
  {
    hide Run, Switch, Lawful, Tracked, Merge, EndsWith;
    var input := text + rest;
    assert input[0] == text[0] && input[1..] == text[1..] + rest && [text[0]] + text[1..] == text && NoLineEnd(text[1..]);
    var r1 := c.r.(state := StatusLine(ResStatus), index := 0);
    ReasonSwitch(c.r, text[0]);
    HeaderStep(skip, c, input, r1, Byte(Status));
    MergeTwice(c.log, Status, [text[0]], text[1..]);
    MergeNew(c.log, Status, text);
    StatusTailRun(skip, Spent(c, r1, Merge(c.log, Data(Status, [text[0]])), 1), text[1..], rest);
  }

  // A status text and the line end after it.
  lemma StatusTextRun(skip: Skip, c: Conf, text: string, end: string, rest: string)
    requires c.r.state == StatusLine(ResStatusStart) && text != "" && NoLineEnd(text) && IsLineEnd(end)
    requires !EndsWith(c.log, Status) && c.hdr <= c.peak
    ensures Run(skip, c, text + (end + rest)) ==
            Run(skip, Spent(c, c.r.(state := HeaderFieldStart, index := 0), c.log + [Data(Status, text)], |text| + |end|), rest)
  {
    hide Run, EndsWith, NoLineEnd, IsLineEnd;
    WholeStatusRun(skip, c, text, end + rest);
    var c1 := Spent(c, c.r.(state := StatusLine(ResStatus), index := 0), c.log + [Data(Status, text)], |text|);
    StatusEndRun(skip, c1, end, rest);
  }

  lemma StatusEndRun(skip: Skip, c: Conf, end: string, rest: string)
    requires c.r.state == StatusLine(ResStatus) && IsLineEnd(end)
    ensures Run(skip, c, end + rest) == Run(skip, Spent(c, c.r.(state := HeaderFieldStart), c.log, |end|), rest)
  {
    hide Run, Switch, Lawful, Tracked;
    LineEnd(rest);
    var r1, r2 := c.r.(state := StatusLine(ResLineAlmostDone)), c.r.(state := HeaderFieldStart);
    ReasonSwitch(c.r, CR);
    ReasonSwitch(r1, CR);
    if end == CRLF {
      HeaderStep(skip, c, CRLF + rest, r1, Flush(Status));
      HeaderStep(skip, Spent(c, r1, c.log, 1), [LF] + rest, r2, Quiet);
    } else {
      HeaderStep(skip, c, [LF] + rest, r2, Flush(Status));
    }
  }

  // The end of a status line, after the code.
  lemma ReasonRun(skip: Skip, c: Conf, reason: Option<string>, end: string, rest: string) returns (c': Conf)
    requires c.r.state == StatusLine(ResStatusCode) && IsLineEnd(end) && (reason.Some? ==> NoLineEnd(reason.value))
    requires !EndsWith(c.log, Status) && c.hdr <= c.peak
    ensures LeadsTo(skip, c, ReasonText(reason) + end + rest, c', rest)
    ensures c' == Spent(c, c.r.(state := HeaderFieldStart, index := c'.r.index), c.log + ReasonLog(reason),
                        |ReasonText(reason) + end|)
  {
    hide Run, Switch, Lawful, Tracked, EndsWith, IsLineEnd;
    match reason
    case None =>
      assert ReasonText(reason) + end + rest == end + rest && c.log + ReasonLog(reason) == c.log;
      LineEndRun(skip, c, end, rest);
      c' := Spent(c, c.r.(state := HeaderFieldStart), c.log, |end|);
    case Some(text) =>
      var input := " " + (text + (end + rest));
      assert ReasonText(reason) + end + rest == input && input[0] == ' ' && input[1..] == text + (end + rest);
      ReasonSwitch(c.r, ' ');
      var c1 := Spent(c, c.r.(state := StatusLine(ResStatusStart)), c.log, 1);
      HeaderStep(skip, c, input, c1.r, Quiet);
      if text == "" {
        assert text + (end + rest) == end + rest && c.log + ReasonLog(reason) == c.log;
        LineEndRun(skip, c1, end, rest);
        c' := Spent(c1, c.r.(state := HeaderFieldStart), c.log, |end|);
      } else {
        StatusTextRun(skip, c1, text, end, rest);
        c' := Spent(c1, c.r.(state := HeaderFieldStart, index := 0), c.log + [Data(Status, text)], |text| + |end|);
      }
  }

  lemma CodeSwitch(r: Regs, n: nat)
    requires r == InNumber(r, Minor, n)
    ensures Switch(r, ' ') == Move(r.(state := BeforeNumber(Code)), Quiet, Advance)
  {
    hide Lawful, Tracked;
  }

  lemma CodeParts(s: ResponseStart, rest: string)
    ensures var tail := s.gap + (s.code + (ReasonText(s.reason) + s.end + rest));
            CodeText(s) + rest == " " + tail && (" " + tail)[1..] == tail
    ensures |CodeText(s)| == 1 + |s.gap| + |s.code| + |ReasonText(s.reason) + s.end|
  {
    hide ReasonText;
  }

  // The spaces before the code.
  lemma CodeGapRun(skip: Skip, c: Conf, n: nat, gap: string, rest: string)
    requires c.r == InNumber(c.r, Minor, n) && Spaces(gap) && c.hdr <= c.peak
    ensures Run(skip, c, " " + (gap + rest)) ==
            Run(skip, Spent(c, c.r.(state := BeforeNumber(Code)), c.log, 1 + |gap|), rest)
  {
    hide Run, Switch, Lawful, Tracked, Spaces;
    assert (" " + (gap + rest))[1..] == gap + rest;
    CodeSwitch(c.r, n);
    var c1 := Spent(c, c.r.(state := BeforeNumber(Code)), c.log, 1);
    HeaderStep(skip, c, " " + (gap + rest), c1.r, Quiet);
    SpacesRun(skip, c1, gap, rest);
  }

  lemma CodeRun(skip: Skip, c: Conf, n: nat, s: ResponseStart, rest: string) returns (c': Conf)
    requires c.r == InNumber(c.r, Minor, n) && IsResponseStart(s) && !EndsWith(c.log, Status) && c.hdr <= c.peak
    ensures var code := Decimal(0, s.code);
            if code <= MAX_NUMBER then
              && LeadsTo(skip, c, CodeText(s) + rest, c', rest)
              && c' == Spent(c, c.r.(status := code, state := HeaderFieldStart, index := c'.r.index),
                             c.log + ReasonLog(s.reason), |CodeText(s)|)
            else Run(skip, c, CodeText(s) + rest).Failed? && Run(skip, c, CodeText(s) + rest).e == InvalidStatus
  {
    hide Run, EndsWith, IsLineEnd, Decimal, ReasonText, ReasonLog, IsNumber, NoLineEnd, Spaces, CodeText;
    var tail := ReasonText(s.reason) + s.end + rest;
    CodeParts(s, rest);
    CodeGapRun(skip, c, n, s.gap, s.code + tail);
    var c2 := Spent(c, c.r.(state := BeforeNumber(Code)), c.log, 1 + |s.gap|);
    NumberRun(skip, c2, Code, s.code, tail);
    var code := Decimal(0, s.code);
    c' := c;
    if code <= MAX_NUMBER {
      c' := ReasonRun(skip, Spent(c2, InNumber(c2.r, Code, code), c.log, |s.code|), s.reason, s.end, rest);
    }
  }

  // The registers after a status line.
  function Answered(r: Regs, s: ResponseStart, index: nat): Regs {
    r.(flags := NO_FLAGS, length := NO_LENGTH, major := Decimal(0, s.version.major), minor := Decimal(0, s.version.minor),
       status := Decimal(0, s.code), index := index, state := HeaderFieldStart)
  }

  lemma ResponseFirst(r: Regs)
    requires r.state == StatusLine(StartRes)
    ensures Switch(r, 'H') ==
            Move(r.(flags := NO_FLAGS, length := NO_LENGTH, state := StatusLine(ResH)), Note(Begin), Advance)
  {
    hide Lawful, Tracked;
  }

  // "HTTP/" at the start of a response.
  lemma ResponseLettersRun(skip: Skip, c: Conf, rest: string)
    requires c.r.state == StatusLine(StartRes)
    ensures var r := c.r.(flags := NO_FLAGS, length := NO_LENGTH, state := StatusLine(ResFirstHttpMajor));
            Run(skip, c, "HTTP/" + rest) == Run(skip, Spent(c, r, c.log + [Begin], 5), rest)
  {
    hide Run, Switch, Lawful, Tracked;
    ResponseFirst(c.r);
    var r1 := c.r.(flags := NO_FLAGS, length := NO_LENGTH, state := StatusLine(ResH));
    assert ("HTTP/" + rest)[1..] == "HTTP/"[1..] + rest;
    HeaderStep(skip, c, "HTTP/" + rest, r1, Note(Begin));
    LettersRun(skip, Spent(c, r1, c.log + [Begin], 1), 1, rest);
  }

  /**
   A status line: the version and the code are kept as their decimal values, the text is reported, and each number above
   999 has its error.
   */
  lemma ResponseStartRun(skip: Skip, c: Conf, s: ResponseStart, rest: string) returns (c': Conf)
    requires c.r.state == StatusLine(StartRes) && IsResponseStart(s) && c.hdr <= c.peak
    ensures var res := Run(skip, c, ResponseText(s) + rest);
            if !Small(s.version) then res.Failed? && res.e == InvalidVersion
            else if Decimal(0, s.code) > MAX_NUMBER then res.Failed? && res.e == InvalidStatus
            else
              && LeadsTo(skip, c, ResponseText(s) + rest, c', rest)
              && c' == Spent(c, Answered(c.r, s, c'.r.index), c.log + [Begin] + ReasonLog(s.reason), |ResponseText(s)|)
  {
    hide Run, EndsWith, IsLineEnd, Decimal, ReasonText, ReasonLog, IsNumber, NoLineEnd, Spaces, VersionText, CodeText;
    var code := CodeText(s);
    var tail := VersionText(s.version) + (code + rest);
    assert ResponseText(s) + rest == "HTTP/" + tail;
    assert |ResponseText(s)| == 5 + |VersionText(s.version)| + |code|;
    ResponseLettersRun(skip, c, tail);
    var r1 := c.r.(flags := NO_FLAGS, length := NO_LENGTH, state := StatusLine(ResFirstHttpMajor));
    var c1 := Spent(c, r1, c.log + [Begin], 5);
    VersionRun(skip, c1, false, s.version, code + rest);
    c' := c;
    if Small(s.version) {
      NoStatusYet(c.log);
      c' := CodeRun(skip, Spent(c1, WithVersion(r1, false, s.version), c1.log, |VersionText(s.version)|),
                    Decimal(0, s.version.minor), s, rest);
    }
  }

  lemma NoStatusYet(log: seq<Event>)
    ensures !EndsWith(log + [Begin], Status)
  {
  }

  // ---------- Targets ----------

  // The state of the target after the bytes `w`, or none if one is refused.
  function UrlFold(s: Option<UrlState>, w: string): Option<UrlState>
    decreases |w|
  {
    if w == "" then s
    else
      match ParseUrlChar(s, w[0])
      case Some(u) => UrlFold(Some(u), w[1..])
      case None => None
  }

  // Where the target of a method begins.
  function TargetStart(m: Method): Option<UrlState> {
    if m == CONNECT then Some(ReqServerStart) else None
  }

  // The states that may be the last of a target.
  predicate MayEnd(u: UrlState) {
    !u.ReqSchema? && !u.ReqSchemaSlash? && !u.ReqSchemaSlashSlash? && !u.ReqServerStart?
  }

  predicate IsTarget(m: Method, w: string) {
    w != "" && UrlFold(TargetStart(m), w).Some? && MayEnd(UrlFold(TargetStart(m), w).value)
  }

  predicate NoSpaceOrEnd(w: string) {
    forall i :: 0 <= i < |w| ==> w[i] != ' ' && w[i] != CR && w[i] != LF
  }

  lemma UrlStep(r: Regs, ch: char)
    requires ch != ' ' && ch != CR && ch != LF
    ensures r.state.UrlPart? ==> Switch(r, ch) == UrlByte(r, Some(r.state.url), ch)
    ensures r.state == ReqSpacesBeforeUrl ==> Switch(r, ch) == UrlByte(r, TargetStart(r.method_), ch)
  {
    hide ParseUrlChar, Lawful, Tracked;
  }

  // One byte of a target.
  lemma UrlByteRun(skip: Skip, c: Conf, s: Option<UrlState>, ch: char, rest: string)
    requires Switch(c.r, ch) == UrlByte(c.r, s, ch) && (c.r.state.UrlPart? || c.r.state == ReqSpacesBeforeUrl)
    ensures match ParseUrlChar(s, ch)
            case Some(u) =>
              Run(skip, c, [ch] + rest) ==
              Run(skip, Spent(c, c.r.(state := UrlPart(u)), Merge(c.log, Data(Url, [ch])), 1), rest)
            case None => Run(skip, c, [ch] + rest) == Failed(InvalidUrl, c.pos, c.peak)
  {
    hide Run, Switch, ParseUrlChar, Merge, Lawful, Tracked;
    assert ([ch] + rest)[1..] == rest;
    match ParseUrlChar(s, ch)
    case Some(u) => HeaderStep(skip, c, [ch] + rest, c.r.(state := UrlPart(u)), Byte(Url));
    case None => FailStep(skip, c, [ch] + rest, InvalidUrl);
  }

  lemma {:induction false} UrlTailRun(skip: Skip, c: Conf, w: string, rest: string)
    requires c.r.state.UrlPart? && NoSpaceOrEnd(w) && EndsWith(c.log, Url) && c.hdr <= c.peak
    ensures match UrlFold(Some(c.r.state.url), w)
            case Some(u) =>
              Run(skip, c, w + rest) == Run(skip, Spent(c, c.r.(state := UrlPart(u)), Merge(c.log, Data(Url, w)), |w|), rest)
            case None => Run(skip, c, w + rest).Failed? && Run(skip, c, w + rest).e == InvalidUrl
    decreases |w|
  {
    hide Run, Switch, ParseUrlChar, Merge, EndsWith, Lawful, Tracked;
    if w == "" {
      assert w + rest == rest;
      MergeNothing(c.log, Url);
    } else {
      assert w + rest == [w[0]] + (w[1..] + rest) && [w[0]] + w[1..] == w && NoSpaceOrEnd(w[1..]);
      UrlStep(c.r, w[0]);
      UrlByteRun(skip, c, Some(c.r.state.url), w[0], w[1..] + rest);
      match ParseUrlChar(Some(c.r.state.url), w[0])
      case None =>
      case Some(u) =>
        MergeTwice(c.log, Url, [w[0]], w[1..]);
        UrlTailRun(skip, Spent(c, c.r.(state := UrlPart(u)), Merge(c.log, Data(Url, [w[0]])), 1), w[1..], rest);
    }
  }

  // A target, up to what follows it.
  lemma TargetRun(skip: Skip, c: Conf, w: string, rest: string)
    requires c.r.state == ReqSpacesBeforeUrl && w != "" && NoSpaceOrEnd(w) && !EndsWith(c.log, Url) && c.hdr <= c.peak
    ensures match UrlFold(TargetStart(c.r.method_), w)
            case Some(u) =>
              Run(skip, c, w + rest) == Run(skip, Spent(c, c.r.(state := UrlPart(u)), c.log + [Data(Url, w)], |w|), rest)
            case None => Run(skip, c, w + rest).Failed? && Run(skip, c, w + rest).e == InvalidUrl
  {
    hide Run, Switch, ParseUrlChar, Merge, EndsWith, Lawful, Tracked, TargetStart;
    var s := TargetStart(c.r.method_);
    assert w + rest == [w[0]] + (w[1..] + rest) && [w[0]] + w[1..] == w && NoSpaceOrEnd(w[1..]);
    UrlStep(c.r, w[0]);
    UrlByteRun(skip, c, s, w[0], w[1..] + rest);
    match ParseUrlChar(s, w[0])
    case None =>
    case Some(u) =>
      MergeTwice(c.log, Url, [w[0]], w[1..]);
      MergeNew(c.log, Url, w);
      UrlTailRun(skip, Spent(c, c.r.(state := UrlPart(u)), Merge(c.log, Data(Url, [w[0]])), 1), w[1..], rest);
  }

  lemma TargetEndSwitch(r: Regs, ch: char)
    requires r.state.UrlPart? && (ch == ' ' || ch == CR || ch == LF)
    ensures !MayEnd(r.state.url) ==> Switch(r, ch) == Fail(InvalidUrl)
    ensures MayEnd(r.state.url) ==>
              Switch(r, ch) ==
              if ch == ' ' then Move(r.(state := VersionPart(ReqHttpStart)), Flush(Url), Advance)
              else Move(r.(major := 0, minor := 9, state := if ch == CR then VersionPart(VersionState.ReqLineAlmostDone)
                                                           else HeaderFieldStart), Flush(Url), Advance)
  {
    hide Lawful, Tracked;
  }

  /** The target of a request: reported whole if it is one, and an error otherwise. */
  lemma TargetExact(skip: Skip, c: Conf, w: string, rest: string)
    requires c.r.state == ReqSpacesBeforeUrl && w != "" && NoSpaceOrEnd(w) && !EndsWith(c.log, Url) && c.hdr <= c.peak
    ensures var res := Run(skip, c, w + (" " + rest));
            if IsTarget(c.r.method_, w) then
              res == Run(skip, Spent(c, c.r.(state := VersionPart(ReqHttpStart)), c.log + [Data(Url, w)], |w| + 1), rest)
            else res.Failed? && res.e == InvalidUrl
  {
    hide Run, Switch, ParseUrlChar, EndsWith, Lawful, Tracked, TargetStart, UrlFold, MayEnd;
    TargetRun(skip, c, w, " " + rest);
    match UrlFold(TargetStart(c.r.method_), w)
    case None =>
    case Some(u) =>
      var c1 := Spent(c, c.r.(state := UrlPart(u)), c.log + [Data(Url, w)], |w|);
      assert (" " + rest)[1..] == rest;
      TargetEndSwitch(c1.r, ' ');
      if MayEnd(u) {
        HeaderStep(skip, c1, " " + rest, c.r.(state := VersionPart(ReqHttpStart)), Flush(Url));
      } else {
        FailStep(skip, c1, " " + rest, InvalidUrl);
      }
  }

  lemma LineFeedSwitch(r: Regs)
    requires r.state == VersionPart(VersionState.ReqLineAlmostDone)
    ensures Switch(r, LF) == Move(r.(state := HeaderFieldStart), Quiet, Advance)
  {
    hide Lawful, Tracked;
  }

  /** A request line without a version is one of HTTP/0.9. */
  lemma OldRun(skip: Skip, c: Conf, w: string, end: string, rest: string)
    requires c.r.state == ReqSpacesBeforeUrl && w != "" && NoSpaceOrEnd(w) && !EndsWith(c.log, Url) && c.hdr <= c.peak
    requires IsTarget(c.r.method_, w) && IsLineEnd(end)
    ensures Run(skip, c, w + (end + rest)) ==
            Run(skip, Spent(c, c.r.(major := 0, minor := 9, state := HeaderFieldStart), c.log + [Data(Url, w)], |w| + |end|), rest)
  {
    hide Run, EndsWith, TargetStart, UrlFold, NoSpaceOrEnd, IsLineEnd, MayEnd;
    TargetRun(skip, c, w, end + rest);
    var u := UrlFold(TargetStart(c.r.method_), w).value;
    var c1 := Spent(c, c.r.(state := UrlPart(u)), c.log + [Data(Url, w)], |w|);
    OldEndRun(skip, c1, end, rest);
  }

  // The line end after a target.
  lemma OldEndRun(skip: Skip, c1: Conf, end: string, rest: string)
    requires c1.r.state.UrlPart? && MayEnd(c1.r.state.url) && IsLineEnd(end)
    ensures Run(skip, c1, end + rest) ==
            Run(skip, Spent(c1, c1.r.(major := 0, minor := 9, state := HeaderFieldStart), c1.log, |end|), rest)
  {
    hide Run, Switch, Lawful, Tracked, MayEnd;
    var c := c1;
    var r1 := c.r.(major := 0, minor := 9, state := VersionPart(VersionState.ReqLineAlmostDone));
    LineEnd(rest);
    if end == CRLF {
      TargetEndSwitch(c1.r, CR);
      HeaderStep(skip, c1, CRLF + rest, r1, Flush(Url));
      LineFeedSwitch(r1);
      HeaderStep(skip, Spent(c1, r1, c1.log, 1), [LF] + rest, r1.(state := HeaderFieldStart), Quiet);
    } else {
      TargetEndSwitch(c1.r, LF);
      HeaderStep(skip, c1, [LF] + rest, r1.(state := HeaderFieldStart), Flush(Url));
    }
  }

  // ---------- Request lines ----------

  // Without a version, a request of HTTP/0.9.
  datatype RequestStart = RequestStart(m: Method, gap: string, target: string, space: string, version: Option<Version>,
                                       end: string)

  predicate IsRequestStart(s: RequestStart) {
    && Spaces(s.gap) && s.target != "" && NoSpaceOrEnd(s.target) && Spaces(s.space) && IsLineEnd(s.end)
    && (s.version.Some? ==> IsVersion(s.version.value))
  }

  // What follows the space after the target.
  function VersionTail(space: string, v: Version, end: string): string {
    space + ("HTTP/" + (VersionText(v) + end))
  }

  // What follows the target.
  function AskedText(s: RequestStart): string {
    match s.version
    case None => s.end
    case Some(v) => " " + VersionTail(s.space, v, s.end)
  }

  function RequestText(s: RequestStart): string {
    MethodName(s.m) + " " + (s.gap + (s.target + AskedText(s)))
  }

  // The registers after a request line.
  function Asked(r: Regs, s: RequestStart): Regs {
    r.(flags := NO_FLAGS, length := NO_LENGTH, method_ := s.m, index := |MethodName(s.m)| + 1,
       major := (match s.version case None => 0 case Some(v) => Decimal(0, v.major)),
       minor := (match s.version case None => 9 case Some(v) => Decimal(0, v.minor)),
       state := HeaderFieldStart)
  }

  // The registers with a version, and the line over.
  function Versioned(r: Regs, v: Version): Regs {
    r.(major := Decimal(0, v.major), minor := Decimal(0, v.minor), state := HeaderFieldStart)
  }

  lemma VersionedIs(r: Regs, v: Version)
    ensures EndsLine(WithVersion(r, true, v).state)
    ensures WithVersion(r, true, v).(state := HeaderFieldStart) == Versioned(r, v)
  {
    hide Decimal;
  }

  lemma AskedVersionRun(skip: Skip, c: Conf, v: Version, end: string, rest: string)
    requires c.r.state == BeforeNumber(AskedMajor) && IsVersion(v) && IsLineEnd(end) && c.hdr <= c.peak
    ensures var text := VersionText(v) + end;
            if Taken(true, v) then Run(skip, c, text + rest) == Run(skip, Spent(c, Versioned(c.r, v), c.log, |text|), rest)
            else Run(skip, c, text + rest).Failed? && Run(skip, c, text + rest).e == InvalidVersion
  {
    hide Run, WithVersion, IsVersion, IsLineEnd, VersionText, Taken, EndsLine, Versioned;
    Regroup(VersionText(v), end, rest);
    VersionRun(skip, c, true, v, end + rest);
    VersionedIs(c.r, v);
    if Taken(true, v) {
      LineEndRun(skip, Spent(c, WithVersion(c.r, true, v), c.log, |VersionText(v)|), end, rest);
    }
  }

  // "HTTP/" in a request line.
  lemma ProtocolRun(skip: Skip, c: Conf, rest: string)
    requires c.r.state == VersionPart(ReqHttpStart)
    ensures Run(skip, c, "HTTP/" + rest) ==
            Run(skip, Spent(c, c.r.(state := VersionPart(VersionState.ReqFirstHttpMajor)), c.log, 5), rest)
  {
    hide Run;
    assert "HTTP/"[0..] == "HTTP/";
    LettersRun(skip, c, 0, rest);
  }

  lemma TailParts(space: string, v: Version, end: string, rest: string)
    ensures var tail := VersionText(v) + end;
            && VersionTail(space, v, end) + rest == space + ("HTTP/" + (tail + rest))
            && |VersionTail(space, v, end)| == |space| + 5 + |tail|
  {
    hide VersionText;
    var tail := VersionText(v) + end;
    Regroup(space, "HTTP/" + tail, rest);
    Regroup("HTTP/", tail, rest);
  }

  // The part of a request line after the target and a space.
  lemma AskedRun(skip: Skip, c: Conf, space: string, v: Version, end: string, rest: string)
    requires c.r.state == VersionPart(ReqHttpStart) && Spaces(space) && IsVersion(v) && IsLineEnd(end) && c.hdr <= c.peak
    ensures var text := VersionTail(space, v, end);
            if Taken(true, v) then Run(skip, c, text + rest) == Run(skip, Spent(c, Versioned(c.r, v), c.log, |text|), rest)
            else Run(skip, c, text + rest).Failed? && Run(skip, c, text + rest).e == InvalidVersion
  {
    hide Run, IsVersion, IsLineEnd, Spaces, VersionText, VersionTail, Taken, Versioned;
    var tail := VersionText(v) + end;
    TailParts(space, v, end, rest);
    SpacesRun(skip, c, space, "HTTP/" + (tail + rest));
    var c1 := Spent(c, c.r, c.log, |space|);
    ProtocolRun(skip, c1, tail + rest);
    VersionedAgain(c.r, v);
    AskedVersionRun(skip, Spent(c1, c.r.(state := VersionPart(VersionState.ReqFirstHttpMajor)), c.log, 5), v, end, rest);
  }

  // The target and the rest of the line.
  lemma TargetLineRun(skip: Skip, c: Conf, target: string, space: string, v: Version, end: string, rest: string)
    requires c.r.state == ReqSpacesBeforeUrl && target != "" && NoSpaceOrEnd(target) && !EndsWith(c.log, Url)
    requires Spaces(space) && IsVersion(v) && IsLineEnd(end) && c.hdr <= c.peak
    ensures var tail := VersionTail(space, v, end);
            var res := Run(skip, c, target + (" " + (tail + rest)));
            if !IsTarget(c.r.method_, target) then res.Failed? && res.e == InvalidUrl
            else if !Taken(true, v) then res.Failed? && res.e == InvalidVersion
            else res == Run(skip, Spent(c, Versioned(c.r, v), c.log + [Data(Url, target)], |target| + 1 + |tail|), rest)
  {
    hide Run, IsVersion, IsLineEnd, Spaces, Taken, IsTarget, NoSpaceOrEnd, EndsWith, Versioned, VersionTail;
    var tail := VersionTail(space, v, end);
    TargetExact(skip, c, target, tail + rest);
    if IsTarget(c.r.method_, target) {
      var c3 := Spent(c, c.r.(state := VersionPart(ReqHttpStart)), c.log + [Data(Url, target)], |target| + 1);
      VersionedAgain(c.r, v);
      AskedRun(skip, c3, space, v, end, rest);
    }
  }

  // The method, and the spaces after it.
  lemma AskedMethodRun(skip: Skip, c: Conf, m: Method, gap: string, rest: string)
    requires c.r.state == StartReq && Spaces(gap) && c.hdr <= c.peak
    ensures var n := |MethodName(m)| + 1;
            Run(skip, c, MethodName(m) + " " + (gap + rest)) ==
            Run(skip, Spent(c, Reading(c.r, m, n).(state := ReqSpacesBeforeUrl), c.log + [Begin], n + |gap|), rest)
  {
    hide Run, Spaces, MethodName;
    MethodRun(skip, c, m, gap + rest);
    var c1 := AfterMethod(c, m);
    SpacesRun(skip, c1, gap, rest);
  }

  lemma AskedIs(r: Regs, s: RequestStart)
    ensures var r1 := Reading(r, s.m, |MethodName(s.m)| + 1);
            && (s.version.Some? ==> Versioned(r1, s.version.value) == Asked(r, s))
            && (s.version.None? ==> r1.(major := 0, minor := 9, state := HeaderFieldStart) == Asked(r, s))
  {
    hide Decimal, MethodName;
  }

  /**
   A request line: the method and the version are kept, the target is reported, and a bad target or version is an
   error.
   */
  lemma RequestStartRun(skip: Skip, c: Conf, s: RequestStart, rest: string)
    requires c.r.state == StartReq && IsRequestStart(s) && c.hdr <= c.peak
    ensures var res := Run(skip, c, RequestText(s) + rest);
            if IsTarget(s.m, s.target) then
              if s.version.None? || Taken(true, s.version.value) then
                res == Run(skip, Spent(c, Asked(c.r, s), c.log + [Begin, Data(Url, s.target)], |RequestText(s)|), rest)
              else res.Failed? && res.e == InvalidVersion
            else s.version.Some? ==> res.Failed? && res.e == InvalidUrl
  {
    hide Run, Decimal, IsVersion, IsLineEnd, Spaces, VersionText, Taken, IsTarget, NoSpaceOrEnd, MethodName, EndsWith;
    hide AskedText, RequestText, Asked, Versioned, VersionTail;
    RequestParts(s, rest);
    AskedMethodRun(skip, c, s.m, s.gap, s.target + (AskedText(s) + rest));
    var n := |MethodName(s.m)| + 1;
    var c2 := Spent(c, Reading(c.r, s.m, n).(state := ReqSpacesBeforeUrl), c.log + [Begin], n + |s.gap|);
    NoUrlYet(c.log);
    assert c.log + [Begin] + [Data(Url, s.target)] == c.log + [Begin, Data(Url, s.target)];
    AskedIs(c.r, s);
    match s.version
    case None =>
      if IsTarget(s.m, s.target) { OldRun(skip, c2, s.target, s.end, rest); }
    case Some(v) =>
      TargetLineRun(skip, c2, s.target, s.space, v, s.end, rest);
      VersionedAgain(Reading(c.r, s.m, n), v);
  }

  lemma VersionedAgain(r: Regs, v: Version)
    ensures forall s :: Versioned(r.(state := s), v) == Versioned(r, v)
  {
    hide Decimal;
  }

  lemma NoUrlYet(log: seq<Event>)
    ensures !EndsWith(log + [Begin], Url)
  {
  }

  lemma RequestParts(s: RequestStart, rest: string)
    ensures RequestText(s) + rest == MethodName(s.m) + " " + (s.gap + (s.target + (AskedText(s) + rest)))
    ensures |RequestText(s)| == |MethodName(s.m)| + 1 + |s.gap| + |s.target| + |AskedText(s)|
    ensures s.version.None? ==> AskedText(s) + rest == s.end + rest && |AskedText(s)| == |s.end|
    ensures s.version.Some? ==>
              var tail := VersionTail(s.space, s.version.value, s.end);
              AskedText(s) + rest == " " + (tail + rest) && |AskedText(s)| == 1 + |tail|
  {
    hide MethodName, VersionTail;
  }

  // ---------- Before the first line, and parsers that take both kinds ----------

  predicate LineEnds(w: string) {
    forall i :: 0 <= i < |w| ==> w[i] == CR || w[i] == LF
  }

  function Begins(n: nat): seq<Event> {
    if n == 0 then [] else [Begin] + Begins(n - 1)
  }

  lemma LeadingSwitch(r: Regs, ch: char)
    requires ch == CR || ch == LF
    ensures r.state == StartReq ==> Switch(r, ch) == Move(r, Quiet, Advance)
    ensures r.state == StatusLine(StartRes) ==>
              Switch(r, ch) == Move(r.(flags := NO_FLAGS, length := NO_LENGTH), Note(Begin), Advance)
  {
    hide Lawful, Tracked;
  }

  /** Line ends before a message are passed over; before a response each of them begins a message. */
  lemma {:induction false} LeadingRun(skip: Skip, c: Conf, w: string, rest: string)
    requires (c.r.state == StartReq || c.r.state == StatusLine(StartRes)) && LineEnds(w) && c.hdr <= c.peak
    ensures var response := w != "" && c.r.state == StatusLine(StartRes);
            Run(skip, c, w + rest) ==
            Run(skip, Spent(c, if response then c.r.(flags := NO_FLAGS, length := NO_LENGTH) else c.r,
                            c.log + (if response then Begins(|w|) else []), |w|), rest)
    decreases |w|
  {
    hide Run, Switch, Lawful, Tracked;
    if w == "" {
      assert w + rest == rest && c.log + [] == c.log;
    } else {
      assert (w + rest)[1..] == w[1..] + rest && (w + rest)[0] == w[0];
      LeadingSwitch(c.r, w[0]);
      assert c.log + [] == c.log;
      if c.r.state == StartReq {
        HeaderStep(skip, c, w + rest, c.r, Quiet);
        LeadingRun(skip, Spent(c, c.r, c.log, 1), w[1..], rest);
      } else {
        var c1 := Spent(c, c.r.(flags := NO_FLAGS, length := NO_LENGTH), c.log + [Begin], 1);
        HeaderStep(skip, c, w + rest, c1.r, Note(Begin));
        LeadingRun(skip, c1, w[1..], rest);
        Regroup(c.log, [Begin], Begins(|w| - 1));
        assert w[1..] == "" ==> c.log + [Begin] + [] == c.log + [Begin];
      }
    }
  }

  lemma EitherFirst(r: Regs, ch: char)
    requires r.state == StartReqOrRes
    ensures var r' := r.(flags := NO_FLAGS, length := NO_LENGTH);
            Switch(r, ch) ==
            if ch == CR || ch == LF then Move(r, Quiet, Advance)
            else if ch == 'H' then Move(r'.(state := ResOrRespH), Note(Begin), Advance)
            else Move(r'.(kind := Request, state := StartReq), Quiet, Again)
  {
    hide Lawful, Tracked;
  }

  lemma EitherSecond(r: Regs, ch: char)
    requires r.state == ResOrRespH
    ensures Switch(r, ch) ==
            if ch == 'T' then Move(r.(kind := Response, state := StatusLine(ResHT)), Quiet, Advance)
            else if ch == 'E' then Move(r.(kind := Request, method_ := HEAD, index := 2, state := ReqMethod), Quiet, Advance)
            else Fail(InvalidConstant)
  {
    hide Lawful, Tracked;
  }

  lemma HeadFirst(r: Regs)
    requires r.state == StartReq
    ensures var r1 := Reading(r, HEAD, 1);
            && Switch(r, 'H') == Move(r1, Note(Begin), Advance)
            && Switch(r1, 'E') == Move(r1.(index := 2), Quiet, Advance)
  {
    hide Lawful, Tracked;
    assert CharAt(MethodName(HEAD), 1) == 'E';
  }

  lemma ResponseSecond(r: Regs)
    requires r.state == StatusLine(ResH)
    ensures Switch(r, 'T') == Move(r.(state := StatusLine(ResHT)), Quiet, Advance)
  {
    hide Lawful, Tracked;
  }

  // The start of a message of the kind.
  function StartOf(c: Conf, kind: ParserType): Conf {
    c.(r := c.r.(kind := kind, flags := NO_FLAGS, length := NO_LENGTH,
                 state := if kind == Request then StartReq else StatusLine(StartRes)))
  }

  // Two bytes spent from `c`.
  lemma TwoSteps(skip: Skip, c: Conf, a: char, b: char, rest: string, r1: Regs, eff: Effect, r2: Regs)
    requires Switch(c.r, a) == Move(r1, eff, Advance) && eff == Note(Begin) && Switch(r1, b) == Move(r2, Quiet, Advance)
    requires ParsingHeader(c.r.state) && !ResetsCount(c.r.state) && ParsingHeader(r1.state) && !ResetsCount(r1.state)
    ensures Run(skip, c, [a, b] + rest) == Run(skip, Spent(c, r2, c.log + [Begin], 2), rest)
  {
    hide Run, Switch, Lawful, Tracked;
    assert ([a, b] + rest)[1..] == [b] + rest && ([b] + rest)[1..] == rest;
    HeaderStep(skip, c, [a, b] + rest, r1, eff);
    HeaderStep(skip, Spent(c, r1, c.log + [Begin], 1), [b] + rest, r2, Quiet);
  }

  /**
   A parser that takes both kinds settles for one by the first two bytes, and goes on as a parser of that kind
   would have from the start.
   */
  lemma EitherExact(skip: Skip, c: Conf, a: char, b: char, rest: string)
    requires c.r.state == StartReqOrRes && c.hdr <= c.peak
    ensures var res := Run(skip, c, [a, b] + rest);
            if a == CR || a == LF then res == Run(skip, Spent(c, c.r, c.log, 1), [b] + rest)
            else if a != 'H' || b == 'E' then res == Run(skip, StartOf(c, Request), [a, b] + rest)
            else if b == 'T' then res == Run(skip, StartOf(c, Response), [a, b] + rest)
            else res.Failed? && res.e == InvalidConstant
  {
    hide Run, Switch, Lawful, Tracked;
    var input, r1 := [a, b] + rest, c.r.(flags := NO_FLAGS, length := NO_LENGTH, state := ResOrRespH);
    assert input[1..] == [b] + rest;
    EitherFirst(c.r, a);
    EitherSecond(r1, b);
    if a == CR || a == LF {
      HeaderStep(skip, c, input, c.r, Quiet);
    } else if a != 'H' {
      HeaderAgain(skip, c, input, StartOf(c, Request).r);
    } else if b == 'E' {
      HeadFirst(StartOf(c, Request).r);
      TwoSteps(skip, c, a, b, rest, r1, Note(Begin), Reading(StartOf(c, Request).r, HEAD, 1).(index := 2));
      TwoSteps(skip, StartOf(c, Request), a, b, rest, Reading(StartOf(c, Request).r, HEAD, 1), Note(Begin),
               Reading(StartOf(c, Request).r, HEAD, 1).(index := 2));
    } else if b == 'T' {
      var r := StartOf(c, Response).r;
      ResponseFirst(r);
      ResponseSecond(r.(state := StatusLine(ResH)));
      TwoSteps(skip, c, a, b, rest, r1, Note(Begin), r.(state := StatusLine(ResHT)));
      TwoSteps(skip, StartOf(c, Response), a, b, rest, r.(state := StatusLine(ResH)), Note(Begin),
               r.(state := StatusLine(ResHT)));
    } else {
      HeaderStep(skip, c, input, r1, Note(Begin));
      FailStep(skip, Spent(c, r1, c.log + [Begin], 1), [b] + rest, InvalidConstant);
    }
  }
}
