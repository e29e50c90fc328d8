/** Header lines: exact recognition of the names the parser acts on, and what a whole line does. */
module HttpHeaders {
  import opened Bytes
  import opened HttpTypes
  import opened HttpSwitch
  import opened HttpRun

  // The headers whose value the parser looks at.
  datatype Header = Plain | Connection | ContentLength | TransferEncoding | Upgrade

  // By name, in lower case.
  function Classify(name: string): Header {
    if name == CONNECTION || name == PROXY_CONNECTION then Connection
    else if name == CONTENT_LENGTH then ContentLength
    else if name == TRANSFER_ENCODING then TransferEncoding
    else if name == UPGRADE then Upgrade
    else Plain
  }

  // By the header state at the end of the name.
  function HeaderClass(h: HeaderState): Header {
    match h
    case General => Plain
    case HContentLength => ContentLength
    case Name(n) => (
      match n
      case HConnection => Connection
      case HTransferEncoding => TransferEncoding
      case HUpgrade => Upgrade
      case _ => Plain)
    case Val(_) => Plain
  }

  predicate AllTokens(name: string) {
    forall i :: 0 <= i < |name| ==> IsToken(name[i])
  }

  /** The token table has exactly the bytes of a token (section 3.2.6 of RFC 7230). */
  lemma TokenExact(c: char)
    ensures IsToken(c) <==> '0' <= c <= '9' || 'a' <= c <= 'z' || 'A' <= c <= 'Z' || c in "!#$%&'*+-.^_`|~"
  {
    var symbols := "!#$%&'*+-.^_`|~";
    assert symbols[0] == '!' && symbols[1] == '#' && symbols[2] == '$' && symbols[3] == '%' && symbols[4] == '&';
    assert symbols[5] == '\'' && symbols[6] == '*' && symbols[7] == '+' && symbols[8] == '-' && symbols[9] == '.';
    assert symbols[10] == '^' && symbols[11] == '_' && symbols[12] == '`' && symbols[13] == '|' && symbols[14] == '~';
  }

  // The header state and index after the bytes `w` of a name.
  function FieldFold(h: HeaderState, i: nat, w: string): (HeaderState, nat)
    decreases |w|
  {
    if w == "" then (h, i)
    else
      match FieldToken(h, i, Token(w[0]))
      case None => (h, i)
      case Some((h', i')) => FieldFold(h', i', w[1..])
  }

  // ---------- What the header state knows of the name read so far ----------

  predicate Prefix(u: string, word: string) {
    |u| <= |word| && forall i :: 0 <= i < |u| ==> u[i] == word[i]
  }

  predicate NoTarget(u: string) {
    !Prefix(u, CONNECTION) && !Prefix(u, PROXY_CONNECTION) && !Prefix(u, CONTENT_LENGTH) &&
    !Prefix(u, TRANSFER_ENCODING) && !Prefix(u, UPGRADE)
  }

  predicate Matches(u: string, word: string, least: nat, i: nat) {
    least <= |u| < |word| && Prefix(u, word) && i == |u| - 1
  }

  predicate Knows(u: string, h: HeaderState, i: nat) {
    match h
    case General => NoTarget(u)
    case HContentLength => u == CONTENT_LENGTH
    case Val(_) => false
    case Name(n) =>
      match n
      case C => u == "c" && i == 0
      case CO => u == "co" && i == 1
      case CON => u == "con" && i == 2
      case MatchingConnection => Matches(u, CONNECTION, 4, i)
      case MatchingProxyConnection => Matches(u, PROXY_CONNECTION, 1, i)
      case MatchingContentLength => Matches(u, CONTENT_LENGTH, 4, i)
      case MatchingTransferEncoding => Matches(u, TRANSFER_ENCODING, 1, i)
      case MatchingUpgrade => Matches(u, UPGRADE, 1, i)
      case HConnection => u == CONNECTION || u == PROXY_CONNECTION
      case HTransferEncoding => u == TRANSFER_ENCODING
      case HUpgrade => u == UPGRADE
  }

  // A word and a name that differ somewhere.
  lemma Apart(u: string, word: string, k: nat)
    requires k < |u| && (k >= |word| || u[k] != word[k])
    ensures !Prefix(u, word)
  {
  }

  lemma KnowsFirst(c: char)
    ensures Knows([c], FirstFieldState(c), 0)
  {
    var u := [c];
    if c != 'c' { Apart(u, CONNECTION, 0); Apart(u, CONTENT_LENGTH, 0); }
    if c != 'p' { Apart(u, PROXY_CONNECTION, 0); }
    if c != 't' { Apart(u, TRANSFER_ENCODING, 0); }
    if c != 'u' { Apart(u, UPGRADE, 0); }
  }

  // A miss against the only word left.
  lemma MissOne(u: string, c: char, word: string, least: nat)
    requires least <= |u| <= |word| && Prefix(u, word) && (|u| == |word| || c != word[|u|])
    requires (word == CONNECTION && least == 4) || (word == CONTENT_LENGTH && least == 4) ||
             (least == 1 && (word == PROXY_CONNECTION || word == TRANSFER_ENCODING || word == UPGRADE))
    ensures NoTarget(u + [c])
  {
    var v := u + [c];
    assert v[0] == word[0] && v[|u|] == c;
    if least == 4 { assert v[3] == word[3]; }
    Apart(v, word, |u|);
    if word != CONNECTION { Apart(v, CONNECTION, if word == CONTENT_LENGTH then 3 else 0); }
    if word != CONTENT_LENGTH { Apart(v, CONTENT_LENGTH, if word == CONNECTION then 3 else 0); }
    if word != PROXY_CONNECTION { Apart(v, PROXY_CONNECTION, 0); }
    if word != TRANSFER_ENCODING { Apart(v, TRANSFER_ENCODING, 0); }
    if word != UPGRADE { Apart(v, UPGRADE, 0); }
  }

  // A miss within "con", which two words share.
  lemma MissShared(u: string, c: char)
    requires (u == "c" && c != 'o') || (u == "co" && c != 'n') || (u == "con" && c != 'n' && c != 't')
    ensures NoTarget(u + [c])
  {
    var v := u + [c];
    assert v[0] == 'c' && v[|u|] == c;
    Apart(v, CONNECTION, |u|);
    Apart(v, CONTENT_LENGTH, |u|);
    Apart(v, PROXY_CONNECTION, 0);
    Apart(v, TRANSFER_ENCODING, 0);
    Apart(v, UPGRADE, 0);
  }

  lemma NoTargetOn(u: string, c: char)
    requires NoTarget(u)
    ensures NoTarget(u + [c])
  {
    NotPrefixOn(u, c, CONNECTION);
    NotPrefixOn(u, c, PROXY_CONNECTION);
    NotPrefixOn(u, c, CONTENT_LENGTH);
    NotPrefixOn(u, c, TRANSFER_ENCODING);
    NotPrefixOn(u, c, UPGRADE);
  }

  lemma NotPrefixOn(u: string, c: char, word: string)
    requires !Prefix(u, word)
    ensures !Prefix(u + [c], word)
  {
    if |u| <= |word| {
      var i :| 0 <= i < |u| && u[i] != word[i];
      Apart(u + [c], word, i);
    }
  }

  lemma HitOne(u: string, c: char, word: string)
    requires |u| < |word| && Prefix(u, word) && c == word[|u|]
    ensures Prefix(u + [c], word) && (|u| + 1 == |word| ==> u + [c] == word)
  {
  }

  // One step of matching one word.
  lemma WordKnows(u: string, c: char, word: string, least: nat, i: nat, on: HeaderState, done: HeaderState)
    requires Matches(u, word, least, i) && |word| <= 17
    requires (word == CONNECTION && least == 4) || (word == CONTENT_LENGTH && least == 4) ||
             (least == 1 && (word == PROXY_CONNECTION || word == TRANSFER_ENCODING || word == UPGRADE))
    ensures var h := MatchWord(word, Bump(i), c, on, done, General);
            && Bump(i) == |u|
            && (h == General ==> on == General || done == General || NoTarget(u + [c]))
            && (h == done ==> on == done || done == General || u + [c] == word)
            && (h == on ==> on == done || on == General || Matches(u + [c], word, least, |u|))
            && (h == General || h == done || h == on)
  {
    hide NoTarget;
    if c == word[|u|] { HitOne(u, c, word); } else { MissOne(u, c, word, least); }
  }

  lemma NameKnows(u: string, n: NameState, i: nat, c: char)
    requires Knows(u, Name(n), i) && c != ' '
    ensures Knows(u + [c], NameStep(n, i, c).0, NameStep(n, i, c).1)
  {
    hide MatchWord, Matches, NoTarget, Prefix;
    match n
    case MatchingConnection => WordKnows(u, c, CONNECTION, 4, i, Name(n), Name(HConnection));
    case MatchingProxyConnection => WordKnows(u, c, PROXY_CONNECTION, 1, i, Name(n), Name(HConnection));
    case MatchingContentLength => WordKnows(u, c, CONTENT_LENGTH, 4, i, Name(n), HContentLength);
    case MatchingTransferEncoding => WordKnows(u, c, TRANSFER_ENCODING, 1, i, Name(n), Name(HTransferEncoding));
    case MatchingUpgrade => WordKnows(u, c, UPGRADE, 1, i, Name(n), Name(HUpgrade));
    case HConnection => WholeMiss(u, c);
    case HTransferEncoding => WholeMiss(u, c);
    case HUpgrade => WholeMiss(u, c);
    case _ => SharedKnows(u, n, i, c);
  }

  lemma SharedKnows(u: string, n: NameState, i: nat, c: char)
    requires Knows(u, Name(n), i) && (n.C? || n.CO? || n.CON?)
    ensures Knows(u + [c], NameStep(n, i, c).0, NameStep(n, i, c).1)
  {
    hide NoTarget;
    if (n.C? && c != 'o') || (n.CO? && c != 'n') || (n.CON? && c != 'n' && c != 't') { MissShared(u, c); }
  }

  lemma WholeMiss(u: string, c: char)
    requires u == CONNECTION || u == PROXY_CONNECTION || u == CONTENT_LENGTH || u == TRANSFER_ENCODING || u == UPGRADE
    ensures NoTarget(u + [c])
  {
    MissOne(u, c, u, if u == CONNECTION || u == CONTENT_LENGTH then 4 else 1);
  }

  // A token byte keeps the header state's knowledge of the name.
  lemma TokenKnows(u: string, h: HeaderState, i: nat, ch: char)
    requires Knows(u, h, i) && IsToken(ch)
    ensures var t := FieldToken(h, i, Token(ch)); t.Some? && Knows(u + [Token(ch)], t.value.0, t.value.1)
  {
    var c := Token(ch);
    assert c != ' ';
    hide Token, NoTarget, NameStep;
    match h
    case General => NoTargetOn(u, c);
    case HContentLength => WholeMiss(u, c);
    case Name(n) => NameKnows(u, n, i, c);
  }

  lemma {:induction false} FoldKnows(u: string, h: HeaderState, i: nat, w: string)
    requires Knows(u, h, i) && AllTokens(w)
    ensures Knows(u + LowerToken(w), FieldFold(h, i, w).0, FieldFold(h, i, w).1)
    decreases |w|
  {
    hide Knows, FieldToken, Token, IsToken;
    if w == "" {
      assert u + LowerToken(w) == u;
    } else {
      TokenKnows(u, h, i, w[0]);
      var t := FieldToken(h, i, Token(w[0]));
      assert AllTokens(w[1..]);
      FoldKnows(u + [Token(w[0])], t.value.0, t.value.1, w[1..]);
      assert u + [Token(w[0])] + LowerToken(w[1..]) == u + LowerToken(w);
    }
  }

  // The header state at the end of a name.
  function NameEnd(name: string): (HeaderState, nat)
    requires name != ""
  {
    FieldFold(FirstFieldState(Token(name[0])), 0, name[1..])
  }

  /** Exactly the names connection, proxy-connection, content-length, transfer-encoding and upgrade are recognised. */
  lemma NameExact(name: string)
    requires name != "" && AllTokens(name)
    ensures HeaderClass(NameEnd(name).0) == Classify(LowerToken(name))
    ensures !NameEnd(name).0.Val?
  {
    hide Token, IsToken, FieldFold;
    var c := Token(name[0]);
    KnowsFirst(c);
    assert AllTokens(name[1..]);
    FoldKnows([c], FirstFieldState(c), 0, name[1..]);
    assert [c] + LowerToken(name[1..]) == LowerToken(name);
    KnowsClass(LowerToken(name), NameEnd(name).0, NameEnd(name).1);
  }

  lemma KnowsClass(u: string, h: HeaderState, i: nat)
    requires Knows(u, h, i)
    ensures HeaderClass(h) == Classify(u)
  {
    assert Prefix(CONNECTION, CONNECTION) && Prefix(PROXY_CONNECTION, PROXY_CONNECTION) && Prefix(UPGRADE, UPGRADE);
    assert Prefix(CONTENT_LENGTH, CONTENT_LENGTH) && Prefix(TRANSFER_ENCODING, TRANSFER_ENCODING);
    if u == CONNECTION { assert u[0] == 'c' && u[3] == 'n'; }
    else if u == CONTENT_LENGTH { assert u[0] == 'c' && u[3] == 't'; }
    else if u == PROXY_CONNECTION { assert u[0] == 'p'; }
    else if u == TRANSFER_ENCODING { assert u[0] == 't'; }
    else if u == UPGRADE { assert u[0] == 'u'; }
  }

  // ---------- Runs over names ----------

  lemma FieldTokenRun(skip: Skip, c: Conf, input: string)
    requires c.r.state == HeaderField && input != "" && IsToken(input[0])
    requires FieldToken(c.r.hstate, c.r.index, Token(input[0])).Some?
    ensures var t := FieldToken(c.r.hstate, c.r.index, Token(input[0])).value;
            Run(skip, c, input) ==
            Run(skip, Spent(c, c.r.(hstate := t.0, index := t.1), Merge(c.log, Data(Field, [input[0]])), 1), input[1..])
  {
    hide Run, FieldToken, IsToken, Token, Merge;
    var t := FieldToken(c.r.hstate, c.r.index, Token(input[0])).value;
    var r := c.r.(hstate := t.0, index := t.1);
    assert Switch(c.r, input[0]) == Move(r, Byte(Field), Advance);
    HeaderStep(skip, c, input, r, Byte(Field));
  }

  lemma FieldColonRun(skip: Skip, c: Conf, input: string)
    requires c.r.state == HeaderField && input != "" && input[0] == ':'
    ensures Run(skip, c, input) == Run(skip, Spent(c, c.r.(state := HeaderValueDiscardWs), c.log, 1), input[1..])
  {
    hide Run;
    assert Switch(c.r, ':') == Move(c.r.(state := HeaderValueDiscardWs), Flush(Field), Advance);
    HeaderStep(skip, c, input, c.r.(state := HeaderValueDiscardWs), Flush(Field));
  }

  // The rest of a name.
  lemma {:induction false} FieldTailRun(skip: Skip, c: Conf, u: string, w: string, rest: string)
    requires c.r.state == HeaderField && AllTokens(w) && EndsWith(c.log, Field) && c.hdr <= c.peak
    requires Knows(u, c.r.hstate, c.r.index)
    ensures var t := FieldFold(c.r.hstate, c.r.index, w);
            Run(skip, c, w + rest) ==
            Run(skip, Spent(c, c.r.(hstate := t.0, index := t.1), Merge(c.log, Data(Field, w)), |w|), rest)
    decreases |w|
  {
    hide Run, FieldToken, IsToken, Token, Merge, EndsWith, Knows;
    var input := w + rest;
    if w == "" {
      assert input == rest;
      MergeNothing(c.log, Field);
    } else {
      assert input[0] == w[0] && input[1..] == w[1..] + rest && AllTokens(w[1..]);
      TokenKnows(u, c.r.hstate, c.r.index, w[0]);
      FieldTokenRun(skip, c, input);
      var t := FieldToken(c.r.hstate, c.r.index, Token(w[0])).value;
      MergeTwice(c.log, Field, [w[0]], w[1..]);
      assert [w[0]] + w[1..] == w;
      FieldTailRun(skip, Spent(c, c.r.(hstate := t.0, index := t.1), Merge(c.log, Data(Field, [w[0]])), 1),
                   u + [Token(w[0])], w[1..], rest);
    }
  }

  lemma FieldFirstRun(skip: Skip, c: Conf, input: string)
    requires c.r.state == HeaderFieldStart && input != "" && IsToken(input[0])
    ensures var r := c.r.(index := 0, state := HeaderField, hstate := FirstFieldState(Token(input[0])));
            Run(skip, c, input) == Run(skip, Spent(c, r, Merge(c.log, Data(Field, [input[0]])), 1), input[1..])
  {
    hide Run, IsToken, Token, Merge, FirstFieldState;
    TokenNotLineEnd(input[0]);
    var r := c.r.(index := 0, state := HeaderField, hstate := FirstFieldState(Token(input[0])));
    assert Switch(c.r, input[0]) == Move(r, Byte(Field), Advance);
    HeaderStep(skip, c, input, r, Byte(Field));
  }

  // The configuration after a header name.
  function InField(c: Conf, name: string): Conf
    requires name != ""
  {
    var t := NameEnd(name);
    Spent(c, c.r.(hstate := t.0, index := t.1, state := HeaderField), Merge(c.log, Data(Field, name)), |name|)
  }

  lemma NameRun(skip: Skip, c: Conf, name: string, rest: string)
    requires c.r.state == HeaderFieldStart && name != "" && AllTokens(name)
    ensures Run(skip, c, name + rest) == Run(skip, InField(c, name), rest)
  {
    hide Run, FieldFold, IsToken, Token, Merge, EndsWith, Knows, FirstFieldState;
    var input := name + rest;
    var ch := name[0];
    assert input[0] == ch && input[1..] == name[1..] + rest && AllTokens(name[1..]) && [ch] + name[1..] == name;
    FieldFirstRun(skip, c, input);
    MergeTwice(c.log, Field, [ch], name[1..]);
    KnowsFirst(Token(ch));
    var r := c.r.(index := 0, state := HeaderField, hstate := FirstFieldState(Token(ch)));
    FieldTailRun(skip, Spent(c, r, Merge(c.log, Data(Field, [ch])), 1), [Token(ch)], name[1..], rest);
  }

  // The configuration after a header name and its colon.
  function AfterField(c: Conf, name: string): Conf
    requires name != ""
  {
    var t := NameEnd(name);
    Spent(c, c.r.(hstate := t.0, index := t.1, state := HeaderValueDiscardWs), Merge(c.log, Data(Field, name)), |name| + 1)
  }

  /** A header name and its colon. */
  lemma FieldRun(skip: Skip, c: Conf, name: string, rest: string)
    requires c.r.state == HeaderFieldStart && name != "" && AllTokens(name)
    ensures Run(skip, c, name + ":" + rest) == Run(skip, AfterField(c, name), rest)
  {
    hide Run, Merge, NameEnd;
    assert name + ":" + rest == name + (":" + rest) && (":" + rest)[1..] == rest;
    NameRun(skip, c, name, ":" + rest);
    FieldColonRun(skip, InField(c, name), ":" + rest);
  }

  /** A header name ends with a colon; any other byte that is no token byte, a blank among them, is an error. */
  lemma BadName(skip: Skip, c: Conf, name: string, ch: char, rest: string)
    requires c.r.state == HeaderFieldStart && AllTokens(name) && !IsToken(ch)
    requires if name == "" then ch != CR && ch != LF else ch != ':'
    ensures var res := Run(skip, c, name + [ch] + rest);
            res.Failed? && res.e == InvalidHeaderToken && res.pos == c.pos + |name|
  {
    hide Run, Merge, NameEnd, Token;
    assert name + [ch] + rest == name + ([ch] + rest) && ([ch] + rest)[0] == ch;
    var c1 := c;
    if name == "" {
      assert name + ([ch] + rest) == [ch] + rest;
    } else {
      NameRun(skip, c, name, [ch] + rest);
      c1 := InField(c, name);
    }
    assert Switch(c1.r, ch) == Fail(InvalidHeaderToken);
    FailStep(skip, c1, [ch] + rest, InvalidHeaderToken);
  }

  lemma TokenNotLineEnd(ch: char)
    requires IsToken(ch)
    ensures ch != CR && ch != LF && ch != ' ' && ch != '\t' && ch != ':'
  {
  }

  // ---------- Values ----------

  // The registers after the bytes `w` of a value, or none if one of them is an error.
  function ValueFold(r: Regs, w: string): Option<Regs>
    decreases |w|
  {
    if w == "" then Some(r)
    else
      var o := ValueByte(r, w[0]);
      if o.Move? then ValueFold(o.r, w[1..]) else None
  }

  predicate ReadsValue(r: Regs) {
    r.state == HeaderValue && !r.hstate.Name?
  }

  lemma ValueByteReads(r: Regs, ch: char)
    requires ReadsValue(r)
    ensures var o := ValueByte(r, ch); !o.Fatal? && (o.Move? ==> ReadsValue(o.r))
  {
    hide MatchWord, Lower, IsToken;
    if r.hstate.Val? { ValStepReads(r.flags, r.hstate.v, r.index, ch); }
    hide ValStep;
  }

  lemma ValStepReads(f: Flags, v: ValueState, i: nat, ch: char)
    ensures ValStep(f, v, i, ch).1.Val? || ValStep(f, v, i, ch).1.General?
  {
    hide Lower, IsToken;
  }

  lemma ValueByteRun(skip: Skip, c: Conf, input: string)
    requires c.r.state == HeaderValue && input != "" && input[0] != CR && input[0] != LF
    ensures var o := ValueByte(c.r, input[0]);
            && (o.Move? ==> Run(skip, c, input) == Run(skip, Spent(c, o.r, Merge(c.log, Data(Value, [input[0]])), 1), input[1..]))
            && (o.Fail? ==> Run(skip, c, input) == Failed(o.e, c.pos, c.peak))
  {
    hide Run, ValueByte, Merge;
    var o := ValueByte(c.r, input[0]);
    assert Switch(c.r, input[0]) == o;
    match o
    case Move(r, _, _) => HeaderStep(skip, c, input, r, Byte(Value));
    case Fail(e) => FailStep(skip, c, input, e);
    case Fatal =>
  }

  /** A stretch of a value. */
  lemma {:induction false} ValueRun(skip: Skip, c: Conf, w: string, rest: string)
    requires ReadsValue(c.r) && NoLineEnd(w) && EndsWith(c.log, Value) && c.hdr <= c.peak
    ensures match ValueFold(c.r, w)
            case Some(r) => Run(skip, c, w + rest) == Run(skip, Spent(c, r, Merge(c.log, Data(Value, w)), |w|), rest)
            case None => Run(skip, c, w + rest).Failed? && Run(skip, c, w + rest).e == InvalidContentLength
    ensures ValueFold(c.r, w).Some? ==> ReadsValue(ValueFold(c.r, w).value)
    decreases |w|
  {
    hide Run, ValueByte, Merge, EndsWith;
    if w == "" {
      assert w + rest == rest;
      MergeNothing(c.log, Value);
    } else {
      var input := w + rest;
      assert input[0] == w[0] && input[1..] == w[1..] + rest && NoLineEnd(w[1..]);
      ValueByteReads(c.r, w[0]);
      ValueByteRun(skip, c, input);
      var o := ValueByte(c.r, w[0]);
      if o.Move? {
        MergeTwice(c.log, Value, [w[0]], w[1..]);
        assert [w[0]] + w[1..] == w;
        ValueRun(skip, Spent(c, o.r, Merge(c.log, Data(Value, [w[0]])), 1), w[1..], rest);
      }
    }
  }

  // ---------- Whole header lines ----------

  // What a value of no interest to the parser does: nothing.
  lemma {:induction false} PlainFold(r: Regs, w: string)
    requires r.state == HeaderValue && r.hstate == General
    ensures ValueFold(r, w) == Some(r)
    decreases |w|
  {
    if w != "" { PlainFold(r, w[1..]); }
  }

  // The registers a header line other than Transfer-Encoding, Upgrade and Content-Length leaves alone.
  predicate OnlyConnection(r: Regs, r': Regs) {
    r' == r.(hstate := r'.hstate, index := r'.index, state := r'.state,
             flags := r.flags.(keepAlive := r'.flags.keepAlive, close := r'.flags.close, connUpgrade := r'.flags.connUpgrade))
  }

  predicate InConnection(h: HeaderState) {
    h.General? || (h.Val? && !h.v.MatchingChunked? && !h.v.HChunked?)
  }

  lemma ConnectionByte(r: Regs, ch: char)
    requires r.state == HeaderValue && InConnection(r.hstate)
    ensures var o := ValueByte(r, ch); o.Move? && o.r.state == HeaderValue && InConnection(o.r.hstate) && OnlyConnection(r, o.r)
  {
    hide Lower, IsToken, MatchWord, ValStep;
    if r.hstate.Val? { ConnectionStep(r.flags, r.hstate.v, r.index, ch); }
  }

  lemma ConnectionStep(f: Flags, v: ValueState, i: nat, ch: char)
    requires InConnection(Val(v))
    ensures var (f', h, i') := ValStep(f, v, i, ch);
            InConnection(h) && f' == f.(keepAlive := f'.keepAlive, close := f'.close, connUpgrade := f'.connUpgrade)
  {
    hide Lower, IsToken, MatchWord;
  }

  lemma {:induction false} ConnectionFold(r: Regs, w: string)
    requires r.state == HeaderValue && InConnection(r.hstate)
    ensures ValueFold(r, w).Some?
    ensures var r' := ValueFold(r, w).value; r'.state == HeaderValue && InConnection(r'.hstate) && OnlyConnection(r, r')
    decreases |w|
  {
    hide ValueByte;
    if w != "" {
      ConnectionByte(r, w[0]);
      ConnectionFold(ValueByte(r, w[0]).r, w[1..]);
    }
  }

  // ---------- Whole lines ----------

  predicate IsBlank(ch: char) {
    ch == ' ' || ch == '\t'
  }

  predicate IsLineEnd(s: string) {
    s == CRLF || s == [LF]
  }

  // Blanks before a value, and line ends among them that a blank follows.
  predicate IsGap(s: string) {
    || s == ""
    || (IsBlank(s[0]) && IsGap(s[1..]))
    || (|s| >= 2 && s[0] == LF && IsBlank(s[1]) && IsGap(s[2..]))
    || (|s| >= 3 && s[0] == CR && s[1] == LF && IsBlank(s[2]) && IsGap(s[3..]))
  }

  // A value goes on in a line that begins with a blank.
  datatype Fold = Fold(end: string, text: string)

  // A header line as it is written.
  datatype Line = Line(name: string, gap: string, value: string, folds: seq<Fold>, end: string)

  function FoldsText(folds: seq<Fold>): string {
    if folds == [] then "" else folds[0].end + folds[0].text + FoldsText(folds[1..])
  }

  function LineText(l: Line): string {
    l.name + ":" + (l.gap + l.value + FoldsText(l.folds) + l.end)
  }

  // What is reported of folds: everything but the line ends.
  function Unfolded(folds: seq<Fold>): string {
    if folds == [] then "" else folds[0].text + Unfolded(folds[1..])
  }

  // The name and the value of a line.
  function HeaderOf(l: Line): (string, string) {
    (l.name, l.value + Unfolded(l.folds))
  }

  predicate GoodFold(f: Fold) {
    IsLineEnd(f.end) && f.text != "" && IsBlank(f.text[0]) && NoLineEnd(f.text)
  }

  predicate CleanLine(name: string, value: string) {
    name != "" && AllTokens(name) && NoLineEnd(value) && (value == "" || !IsBlank(value[0]))
  }

  predicate WellWritten(l: Line) {
    && CleanLine(l.name, l.value) && IsGap(l.gap) && IsLineEnd(l.end)
    && (forall f :: f in l.folds ==> GoodFold(f)) && (l.value == "" ==> l.folds == [])
  }

  // As the printers of this repository write it.
  function Written(name: string, value: string): Line {
    Line(name, " ", value, [], CRLF)
  }

  function HeaderLine(name: string, value: string): string {
    name + ":" + ([' '] + value + CRLF)
  }

  lemma WrittenText(name: string, value: string)
    ensures LineText(Written(name, value)) == HeaderLine(name, value) && HeaderOf(Written(name, value)) == (name, value)
    ensures CleanLine(name, value) ==> WellWritten(Written(name, value))
  {
    assert value + Unfolded([]) == value && value + FoldsText([]) == value;
    assert " "[1..] == "";
  }

  // ---------- The blanks before a value ----------

  lemma GapSwitch(r: Regs, ch: char)
    ensures r.state == HeaderValueDiscardWs ==>
              && (IsBlank(ch) ==> Switch(r, ch) == Move(r, Quiet, Advance))
              && Switch(r, CR) == Move(r.(state := HeaderValueDiscardWsAlmostDone), Quiet, Advance)
              && Switch(r, LF) == Move(r.(state := HeaderValueDiscardLws), Quiet, Advance)
    ensures r.state == HeaderValueDiscardWsAlmostDone ==>
              Switch(r, LF) == Move(r.(state := HeaderValueDiscardLws), Quiet, Advance)
    ensures r.state == HeaderValueDiscardLws ==>
              Switch(r, ch) == if IsBlank(ch) then Move(r.(state := HeaderValueDiscardWs), Quiet, Advance)
                               else Move(r.(state := HeaderFieldStart, flags := ValueFlags(r.flags, r.hstate)), Empty(Value), Again)
  {
    hide ValueStart, ValueByte, ValueFlags, Lawful, Tracked;
  }

  // A line end before the value.
  lemma EmptyLineEnd(skip: Skip, c: Conf, end: string, rest: string)
    requires c.r.state == HeaderValueDiscardWs && IsLineEnd(end) && c.hdr <= c.peak
    ensures Run(skip, c, end + rest) == Run(skip, Spent(c, c.r.(state := HeaderValueDiscardLws), c.log, |end|), rest)
  {
    hide Run, Switch, Lawful, Tracked, Spent;
    SpentNothing(c);
    var r1, r2 := c.r.(state := HeaderValueDiscardWsAlmostDone), c.r.(state := HeaderValueDiscardLws);
    GapSwitch(c.r, LF);
    GapSwitch(r1, LF);
    if end == CRLF {
      assert CRLF + rest == [CR] + ([LF] + rest);
      QuietStep(skip, c, c.r, 0, CR, r1, [LF] + rest);
      QuietStep(skip, c, r1, 1, LF, r2, rest);
    } else {
      QuietStep(skip, c, c.r, 0, LF, r2, rest);
    }
  }

  lemma {:induction false} GapRun(skip: Skip, c: Conf, gap: string, rest: string)
    requires c.r.state == HeaderValueDiscardWs && IsGap(gap) && c.hdr <= c.peak
    ensures Run(skip, c, gap + rest) == Run(skip, Spent(c, c.r, c.log, |gap|), rest)
    decreases |gap|
  {
    hide Run, Switch, Lawful, Tracked;
    if gap == "" {
      assert gap + rest == rest;
    } else {
      var n, at := if IsBlank(gap[0]) then 0 else if gap[0] == LF then 1 else 2, c.r;
      var more := gap[n + 1..];
      if n > 0 {
        assert gap + rest == gap[..n] + ([gap[n]] + (more + rest)) && IsLineEnd(gap[..n]);
        EmptyLineEnd(skip, c, gap[..n], [gap[n]] + (more + rest));
        at := c.r.(state := HeaderValueDiscardLws);
      } else {
        assert gap + rest == [gap[n]] + (more + rest);
      }
      GapSwitch(at, gap[n]);
      QuietStep(skip, c, at, n, gap[n], c.r, more + rest);
      GapRun(skip, Spent(c, c.r, c.log, n + 1), more, rest);
    }
  }

  // ---------- Values and line ends ----------

  // The first byte of a value.
  lemma ValueFirstRun(skip: Skip, c: Conf, input: string)
    requires c.r.state == HeaderValueDiscardWs && input != ""
    requires !IsBlank(input[0]) && input[0] != CR && input[0] != LF
    ensures var o := ValueStart(c.r, input[0]);
            && (o.Move? ==> Run(skip, c, input) == Run(skip, Spent(c, o.r, Merge(c.log, Data(Value, [input[0]])), 1), input[1..]))
            && (o.Fail? ==> Run(skip, c, input) == Failed(o.e, c.pos, c.peak))
  {
    hide Run, ValueStart, Merge;
    var o := ValueStart(c.r, input[0]);
    assert Switch(c.r, input[0]) == o;
    match o
    case Move(r, _, _) => HeaderStep(skip, c, input, r, Byte(Value));
    case Fail(e) => FailStep(skip, c, input, e);
    case Fatal =>
  }

  lemma ValueEndSwitch(r: Regs)
    requires r.state == HeaderValue
    ensures Switch(r, CR) == Move(r.(state := HeaderAlmostDone), Flush(Value), Advance)
    ensures Switch(r, LF) == Move(r.(state := HeaderAlmostDone), Flush(Value), Again)
    ensures Switch(r.(state := HeaderAlmostDone), LF) == Move(r.(state := HeaderValueLws), Quiet, Advance)
  {
    hide ValueStart, ValueByte, ValueFlags, Lawful, Tracked;
  }

  // After the line end: a blank begins a continuation line.
  lemma LineStartSwitch(r: Regs, ch: char)
    requires r.state == HeaderValueLws
    ensures IsBlank(ch) ==>
              && Switch(r, ch) == Move(r.(state := HeaderValueStart), Quiet, Again)
              && Switch(r.(state := HeaderValueStart), ch) == ValueStart(r, ch)
    ensures !IsBlank(ch) ==>
              Switch(r, ch) == Move(r.(state := HeaderFieldStart, flags := ValueFlags(r.flags, r.hstate)), Quiet, Again)
  {
    hide ValueByte, ValueFlags, Lawful, Tracked, Lower;
  }

  // A line feed ends a value like a carriage return and a line feed do.
  lemma LineFeedRun(skip: Skip, c: Conf, rest: string)
    requires c.r.state == HeaderValue && c.hdr <= c.peak
    ensures Run(skip, c, [LF] + rest) == Run(skip, c.(r := c.r.(state := HeaderAlmostDone)), [LF] + rest)
  {
    hide Run, Switch, Lawful, Tracked, ValueFlags;
    ValueEndSwitch(c.r);
    RunStep(skip, c, [LF] + rest, Switch(c.r, LF));
  }

  lemma ReturnFeedRun(skip: Skip, c: Conf, rest: string)
    requires c.r.state == HeaderValue
    ensures Run(skip, c, CRLF + rest) == Run(skip, Spent(c, c.r.(state := HeaderValueLws), c.log, 2), rest)
  {
    hide Run, Switch, Lawful, Tracked;
    LineEnd(rest);
    var r1, r2 := c.r.(state := HeaderAlmostDone), c.r.(state := HeaderValueLws);
    ValueEndSwitch(c.r);
    HeaderStep(skip, c, CRLF + rest, r1, Flush(Value));
    HeaderStep(skip, Spent(c, r1, c.log, 1), [LF] + rest, r2, Quiet);
  }

  lemma ValueLineEndRun(skip: Skip, c: Conf, end: string, rest: string)
    requires c.r.state == HeaderValue && IsLineEnd(end) && c.hdr <= c.peak
    ensures Run(skip, c, end + rest) == Run(skip, Spent(c, c.r.(state := HeaderValueLws), c.log, |end|), rest)
  {
    hide Run, Switch, Lawful, Tracked;
    if end == CRLF {
      ReturnFeedRun(skip, c, rest);
    } else {
      LineFeedRun(skip, c, rest);
      LineEnd(rest);
      ValueEndSwitch(c.r);
      HeaderStep(skip, c.(r := c.r.(state := HeaderAlmostDone)), [LF] + rest, c.r.(state := HeaderValueLws), Quiet);
    }
  }

  // The line end after a value, and the look at the byte that shows there is no continuation line.
  lemma ValueEndRun(skip: Skip, c: Conf, end: string, rest: string)
    requires c.r.state == HeaderValue && IsLineEnd(end) && rest != "" && !IsBlank(rest[0]) && c.hdr <= c.peak
    ensures var r := c.r.(state := HeaderFieldStart, flags := ValueFlags(c.r.flags, c.r.hstate));
            Run(skip, c, end + rest) == Run(skip, Spent(c, r, c.log, |end|), rest)
  {
    hide Run, Switch, Lawful, Tracked, ValueFlags;
    ValueLineEndRun(skip, c, end, rest);
    var r := c.r.(state := HeaderValueLws);
    LineStartSwitch(r, rest[0]);
    HeaderAgain(skip, Spent(c, r, c.log, |end|), rest,
                c.r.(state := HeaderFieldStart, flags := ValueFlags(c.r.flags, c.r.hstate)));
  }

  // The registers at the blank before a value, after a name.
  function AfterName(r: Regs, name: string): Regs
    requires name != ""
  {
    r.(hstate := NameEnd(name).0, index := NameEnd(name).1, state := HeaderValueDiscardWs)
  }

  // The registers after a value, as the parser has them before the line end.
  function WholeValue(r: Regs, value: string): Option<Regs>
    requires value != ""
  {
    var o := ValueStart(r, value[0]);
    if o.Move? then ValueFold(o.r, value[1..]) else None
  }

  lemma ValueStartReads(r: Regs, ch: char)
    requires ValueStart(r, ch).Move?
    ensures ReadsValue(ValueStart(r, ch).r)
  {
    hide Lower;
  }

  lemma ValueStartNoCrash(r: Regs, ch: char)
    ensures var o := ValueStart(r, ch); o == Fail(InvalidContentLength) || (o.Move? && o == Move(o.r, Byte(Value), Advance))
  {
    hide Lower;
  }

  // A value whose first byte has been taken; a bad length is an error.
  lemma ValueTailRun(skip: Skip, c: Conf, log: seq<Event>, o: Out, value: string, rest: string)
    requires o.Move? && ReadsValue(o.r) && value != "" && NoLineEnd(value) && c.hdr <= c.peak
    ensures var c1 := Spent(c, o.r, Merge(log, Data(Value, [value[0]])), 1);
            match ValueFold(o.r, value[1..])
            case Some(r) =>
              && ReadsValue(r)
              && Run(skip, c1, value[1..] + rest) == Run(skip, Spent(c, r, Merge(log, Data(Value, value)), |value|), rest)
            case None => Run(skip, c1, value[1..] + rest).Failed? && Run(skip, c1, value[1..] + rest).e == InvalidContentLength
  {
    hide Run, ValueFold, Merge, EndsWith;
    MergeTwice(log, Value, [value[0]], value[1..]);
    assert [value[0]] + value[1..] == value && NoLineEnd(value[1..]);
    ValueRun(skip, Spent(c, o.r, Merge(log, Data(Value, [value[0]])), 1), value[1..], rest);
  }

  // A whole value.
  lemma WholeValueRun(skip: Skip, c: Conf, value: string, rest: string)
    requires c.r.state == HeaderValueDiscardWs && value != "" && NoLineEnd(value) && !IsBlank(value[0]) && c.hdr <= c.peak
    ensures match WholeValue(c.r, value)
            case Some(r) =>
              && ReadsValue(r)
              && Run(skip, c, value + rest) == Run(skip, Spent(c, r, Merge(c.log, Data(Value, value)), |value|), rest)
            case None => Run(skip, c, value + rest).Failed? && Run(skip, c, value + rest).e == InvalidContentLength
  {
    hide Run, ValueFold, Merge, EndsWith, ValueStart;
    var input := value + rest;
    assert input[0] == value[0] && input[1..] == value[1..] + rest;
    ValueFirstRun(skip, c, input);
    var o := ValueStart(c.r, value[0]);
    ValueStartNoCrash(c.r, value[0]);
    if o.Move? {
      ValueStartReads(c.r, value[0]);
      ValueTailRun(skip, c, c.log, o, value, rest);
    }
  }

  // ---------- Continuation lines ----------

  lemma StartAgain(r: Regs, ch: char)
    ensures ValueStart(r.(state := HeaderValueLws), ch) == ValueStart(r, ch)
  {
    hide Lower;
  }

  lemma FoldStartRun(skip: Skip, c: Conf, end: string, input: string)
    requires c.r.state == HeaderValue && IsLineEnd(end) && input != "" && IsBlank(input[0]) && c.hdr <= c.peak
    ensures var r := c.r.(state := HeaderValueStart);
            && Run(skip, c, end + input) == Run(skip, Spent(c, r, c.log, |end|), input)
            && Switch(r, input[0]) == ValueStart(c.r, input[0])
  {
    hide Run, Switch, Lawful, Tracked, ValueFlags, ValueStart, IsLineEnd;
    var r1, r2 := c.r.(state := HeaderValueLws), c.r.(state := HeaderValueStart);
    ValueLineEndRun(skip, c, end, input);
    LineStartSwitch(r1, input[0]);
    HeaderAgain(skip, Spent(c, r1, c.log, |end|), input, r2);
    StartAgain(c.r, input[0]);
  }

  // A byte that begins a value.
  lemma BeginRun(skip: Skip, c: Conf, input: string, o: Out)
    requires input != "" && Switch(c.r, input[0]) == o && c.r.state == HeaderValueStart
    requires o == Fail(InvalidContentLength) || (o.Move? && o == Move(o.r, Byte(Value), Advance))
    ensures o.Move? ==>
              Run(skip, c, input) == Run(skip, Spent(c, o.r, Merge(c.log, Data(Value, [input[0]])), 1), input[1..])
    ensures o.Fail? ==> Run(skip, c, input) == Failed(o.e, c.pos, c.peak)
  {
    hide Run, Switch, Lawful, Tracked, Merge;
    match o
    case Move(r, _, _) => HeaderStep(skip, c, input, r, Byte(Value));
    case Fail(e) => FailStep(skip, c, input, e);
  }

  // The blank that begins a continuation line is the first byte of a value again.
  lemma FoldFirstRun(skip: Skip, c: Conf, end: string, input: string)
    requires c.r.state == HeaderValue && IsLineEnd(end) && input != "" && IsBlank(input[0]) && c.hdr <= c.peak
    ensures var o, c1 := ValueStart(c.r, input[0]), Spent(c, c.r, c.log, |end|);
            && (o.Move? ==>
                  Run(skip, c, end + input) == Run(skip, Spent(c1, o.r, Merge(c.log, Data(Value, [input[0]])), 1), input[1..]))
            && (o.Fail? ==> Run(skip, c, end + input) == Failed(o.e, c1.pos, c1.peak))
  {
    hide Run, Switch, Lawful, Tracked, Merge, ValueFlags, ValueStart, IsLineEnd;
    FoldStartRun(skip, c, end, input);
    ValueStartNoCrash(c.r, input[0]);
    BeginRun(skip, Spent(c, c.r.(state := HeaderValueStart), c.log, |end|), input, ValueStart(c.r, input[0]));
  }

  /** A continuation line: its bytes, the blank included, go on with the value as if that began anew. */
  lemma FoldRun(skip: Skip, c: Conf, f: Fold, rest: string)
    requires c.r.state == HeaderValue && GoodFold(f) && c.hdr <= c.peak
    ensures match WholeValue(c.r, f.text)
            case Some(r) =>
              && ReadsValue(r)
              && Run(skip, c, f.end + f.text + rest) ==
                 Run(skip, Spent(c, r, Merge(c.log, Data(Value, f.text)), |f.end + f.text|), rest)
            case None =>
              Run(skip, c, f.end + f.text + rest).Failed? && Run(skip, c, f.end + f.text + rest).e == InvalidContentLength
  {
    hide Run, ValueFold, Merge, EndsWith, ValueStart;
    var input := f.text + rest;
    assert f.end + f.text + rest == f.end + input && input[0] == f.text[0] && input[1..] == f.text[1..] + rest;
    FoldFirstRun(skip, c, f.end, input);
    var o := ValueStart(c.r, f.text[0]);
    ValueStartNoCrash(c.r, f.text[0]);
    if o.Move? {
      ValueStartReads(c.r, f.text[0]);
      ValueTailRun(skip, Spent(c, c.r, c.log, |f.end|), c.log, o, f.text, rest);
    }
  }

  // The registers after the continuation lines, or none if a byte is an error.
  function FoldsOutcome(r: Regs, folds: seq<Fold>): Option<Regs>
    requires forall f :: f in folds ==> GoodFold(f)
    decreases |folds|
  {
    if folds == [] then Some(r)
    else
      assert GoodFold(folds[0]);
      match WholeValue(r, folds[0].text)
      case Some(r') => FoldsOutcome(r', folds[1..])
      case None => None
  }

  lemma {:induction false} FoldsRun(skip: Skip, c: Conf, folds: seq<Fold>, rest: string)
    requires ReadsValue(c.r) && (forall f :: f in folds ==> GoodFold(f)) && EndsWith(c.log, Value) && c.hdr <= c.peak
    ensures match FoldsOutcome(c.r, folds)
            case Some(r) =>
              && ReadsValue(r)
              && Run(skip, c, FoldsText(folds) + rest) ==
                 Run(skip, Spent(c, r, Merge(c.log, Data(Value, Unfolded(folds))), |FoldsText(folds)|), rest)
            case None =>
              var res := Run(skip, c, FoldsText(folds) + rest); res.Failed? && res.e == InvalidContentLength
    decreases |folds|
  {
    hide Run, WholeValue, Merge, EndsWith, GoodFold, FoldsText, Unfolded;
    NoFolds(folds, rest);
    if folds == [] {
      MergeNothing(c.log, Value);
    } else {
      var f, more := folds[0], folds[1..];
      assert GoodFold(f);
      FoldParts(f);
      FoldRun(skip, c, f, FoldsText(more) + rest);
      match WholeValue(c.r, f.text)
      case None =>
      case Some(r) =>
        MergeTwice(c.log, Value, f.text, Unfolded(more));
        FoldsRun(skip, Spent(c, r, Merge(c.log, Data(Value, f.text)), |f.end + f.text|), more, rest);
    }
  }

  lemma FoldParts(f: Fold)
    requires GoodFold(f)
    ensures f.text != ""
  {
  }

  lemma NoFolds(folds: seq<Fold>, rest: string)
    ensures folds == [] ==> FoldsText(folds) + rest == rest && Unfolded(folds) == "" && FoldsText(folds) == ""
    ensures folds != [] ==>
              var f := folds[0];
              && FoldsText(folds) + rest == f.end + f.text + (FoldsText(folds[1..]) + rest)
              && Unfolded(folds) == f.text + Unfolded(folds[1..])
              && |FoldsText(folds)| == |f.end + f.text| + |FoldsText(folds[1..])|
  {
  }

  // The registers at the end of what follows the blanks.
  function ValueOutcome(r: Regs, l: Line): Option<Regs>
    requires WellWritten(l)
  {
    if l.value == "" then Some(r)
    else
      match WholeValue(r, l.value)
      case Some(r') => FoldsOutcome(r', l.folds)
      case None => None
  }

  // The registers before the line end that closes the header.
  function LineOutcome(r: Regs, l: Line): Option<Regs>
    requires WellWritten(l)
  {
    ValueOutcome(AfterName(r, l.name), l)
  }

  // A header is over.
  function Closed(r: Regs): Regs {
    r.(state := HeaderFieldStart, flags := ValueFlags(r.flags, r.hstate))
  }

  lemma LineLog(log: seq<Event>, name: string, value: string)
    requires !EndsWith(log, Field)
    ensures Merge(Merge(log, Data(Field, name)), Data(Value, value)) == log + [Data(Field, name), Data(Value, value)]
    ensures EndsWith(Merge(Merge(log, Data(Field, name)), Data(Value, value)), Value)
  {
    assert Merge(log, Data(Field, name)) == log + [Data(Field, name)];
  }

  // A header without a value: on the byte after its line end.
  lemma EmptyValueRun(skip: Skip, c: Conf, end: string, rest: string)
    requires c.r.state == HeaderValueDiscardWs && IsLineEnd(end) && rest != "" && !IsBlank(rest[0]) && c.hdr <= c.peak
    ensures Run(skip, c, end + rest) == Run(skip, Spent(c, Closed(c.r), Merge(c.log, Data(Value, "")), |end|), rest)
  {
    hide Run, Switch, Lawful, Tracked, ValueFlags, IsLineEnd, Merge;
    EmptyLineEnd(skip, c, end, rest);
    var c1 := Spent(c, c.r.(state := HeaderValueDiscardLws), c.log, |end|);
    GapSwitch(c1.r, rest[0]);
    RunStep(skip, c1, rest, Switch(c1.r, rest[0]));
  }

  // The value of a header and its line end, after the name and the blanks.
  lemma ValuesRun(skip: Skip, c: Conf, l: Line, rest: string)
    requires WellWritten(l) && c.r.state == HeaderValueDiscardWs && rest != "" && !IsBlank(rest[0]) && c.hdr <= c.peak
    requires l.value != ""
    ensures var text := l.value + FoldsText(l.folds) + l.end;
            match WholeValue(c.r, l.value)
            case None => Run(skip, c, text + rest).Failed? && Run(skip, c, text + rest).e == InvalidContentLength
            case Some(r1) =>
              match FoldsOutcome(r1, l.folds)
              case Some(r) =>
                Run(skip, c, text + rest) ==
                Run(skip, Spent(c, Closed(r), Merge(c.log, Data(Value, HeaderOf(l).1)), |text|), rest)
              case None => Run(skip, c, text + rest).Failed? && Run(skip, c, text + rest).e == InvalidContentLength
  {
    hide Run, WholeValue, Merge, EndsWith, FoldsText, Unfolded, ValueFlags, GoodFold, IsLineEnd, IsGap, FoldsOutcome;
    var tail := l.end + rest;
    assert l.value + FoldsText(l.folds) + l.end + rest == l.value + (FoldsText(l.folds) + tail);
    WholeValueRun(skip, c, l.value, FoldsText(l.folds) + tail);
    match WholeValue(c.r, l.value)
    case None =>
    case Some(r1) =>
      MergeTwice(c.log, Value, l.value, Unfolded(l.folds));
      MergeEnds(c.log, l.value);
      var c1 := Spent(c, r1, Merge(c.log, Data(Value, l.value)), |l.value|);
      FoldsRun(skip, c1, l.folds, tail);
      match FoldsOutcome(r1, l.folds)
      case None =>
      case Some(r) =>
        var c2 := Spent(c, r, Merge(c.log, Data(Value, HeaderOf(l).1)), |l.value| + |FoldsText(l.folds)|);
        ValueEndRun(skip, c2, l.end, rest);
  }

  lemma MergeEnds(log: seq<Event>, value: string)
    ensures EndsWith(Merge(log, Data(Value, value)), Value)
  {
    MergeTwice(log, Value, value, "");
  }

  // What follows the blanks before a value.
  function ValueText(l: Line): string {
    l.value + FoldsText(l.folds) + l.end
  }

  lemma LineParts(l: Line, rest: string)
    ensures LineText(l) + rest == l.name + ":" + (l.gap + (ValueText(l) + rest))
    ensures |LineText(l)| == |l.name| + 1 + |l.gap| + |ValueText(l)|
  {
    hide FoldsText;
  }

  // With or without a value.
  lemma AfterGapRun(skip: Skip, c: Conf, l: Line, rest: string)
    requires WellWritten(l) && c.r.state == HeaderValueDiscardWs && rest != "" && !IsBlank(rest[0]) && c.hdr <= c.peak
    ensures match ValueOutcome(c.r, l)
            case Some(r) =>
              Run(skip, c, ValueText(l) + rest) ==
              Run(skip, Spent(c, Closed(r), Merge(c.log, Data(Value, HeaderOf(l).1)), |ValueText(l)|), rest)
            case None =>
              Run(skip, c, ValueText(l) + rest).Failed? && Run(skip, c, ValueText(l) + rest).e == InvalidContentLength
  {
    hide Run, WholeValue, Merge, EndsWith, AllTokens, ValueFlags, FoldsText, Unfolded, IsGap, IsLineEnd, GoodFold;
    hide FoldsOutcome, Closed;
    if l.value == "" {
      NoFolds(l.folds, "");
      assert ValueText(l) == l.end && HeaderOf(l).1 == "";
      EmptyValueRun(skip, c, l.end, rest);
    } else {
      ValuesRun(skip, c, l, rest);
    }
  }

  /**
   A whole header line, written in any of the ways the parser takes: one name and one value are reported, the value
   without the blanks before it and without the line ends inside it.
   */
  lemma LineRun(skip: Skip, c: Conf, l: Line, rest: string)
    requires c.r.state == HeaderFieldStart && WellWritten(l) && !EndsWith(c.log, Field) && c.hdr <= c.peak
    requires rest != "" && !IsBlank(rest[0])
    ensures match LineOutcome(c.r, l)
            case Some(r) =>
              Run(skip, c, LineText(l) + rest) ==
              Run(skip, Spent(c, Closed(r), c.log + [Data(Field, l.name), Data(Value, HeaderOf(l).1)], |LineText(l)|), rest)
            case None =>
              Run(skip, c, LineText(l) + rest).Failed? && Run(skip, c, LineText(l) + rest).e == InvalidContentLength
  {
    hide Run, WholeValue, NameEnd, Merge, EndsWith, AllTokens, ValueFlags, FoldsText, Unfolded, IsGap, IsLineEnd, GoodFold;
    hide FoldsOutcome, LineText, Closed;
    LineParts(l, rest);
    var text := ValueText(l);
    FieldRun(skip, c, l.name, l.gap + (text + rest));
    var c1 := AfterField(c, l.name);
    GapRun(skip, c1, l.gap, text + rest);
    LineLog(c.log, l.name, HeaderOf(l).1);
    AfterGapRun(skip, Spent(c1, c1.r, c1.log, |l.gap|), l, rest);
  }
}
