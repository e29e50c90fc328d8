/** The fast paths: what the machine does on a whole run of value or body bytes at once. */
module HttpBulk {
  import opened Bytes
  import opened HttpTypes
  import opened HttpSwitch
  import opened HttpRun

  // `bytes` taken as header bytes of kind `k`
  function TakeHeader(c: Conf, k: Kind, bytes: string): Conf {
    c.(log := Merge(c.log, Data(k, bytes)), pos := c.pos + |bytes|, hdr := c.hdr + |bytes|,
       peak := Max(c.peak, c.hdr + |bytes|))
  }

  lemma TakeHeaderTwice(c: Conf, k: Kind, a: string, b: string)
    ensures TakeHeader(TakeHeader(c, k, a), k, b) == TakeHeader(c, k, a + b)
  {
    MergeTwice(c.log, k, a, b);
  }

  lemma GeneralValueByte(skip: Skip, c: Conf, input: string)
    requires c.r.state == HeaderValue && c.r.hstate == General && input != "" && input[0] != CR && input[0] != LF
    ensures Run(skip, c, input) == Run(skip, TakeHeader(c, Value, [input[0]]), input[1..])
  {
    hide Run, Merge, EndsWith;
    assert Switch(c.r, input[0]) == Move(c.r, Byte(Value), Advance);
    RunStep(skip, c, input, Switch(c.r, input[0]));
  }

  /** The memchr skip over a general header value agrees with a byte-by-byte scan. */
  lemma {:induction false} GeneralValueRun(skip: Skip, c: Conf, a: string, b: string)
    requires c.r.state == HeaderValue && c.r.hstate == General && c.hdr <= c.peak && EndsWith(c.log, Value)
    requires NoLineEnd(a)
    ensures Run(skip, c, a + b) == Run(skip, TakeHeader(c, Value, a), b)
    decreases |a|
  {
    hide Run, Merge, EndsWith;
    if a == "" {
      assert a + b == b;
      MergeNothing(c.log, Value);
    } else {
      assert (a + b)[1..] == a[1..] + b && a == [a[0]] + a[1..];
      GeneralValueByte(skip, c, a + b);
      MergeTwice(c.log, Value, [a[0]], "");
      GeneralValueRun(skip, TakeHeader(c, Value, [a[0]]), a[1..], b);
      TakeHeaderTwice(c, Value, [a[0]], a[1..]);
    }
  }

  // The registers after `n` body bytes, short of the end of a body of known length.
  function TakeBody(r: Regs, n: nat): Regs
    requires r.state.BodyIdentityEof? || n <= r.length
  {
    match r.state
    case BodyIdentityEof => r
    case ChunkPart(_) =>
      r.(length := r.length - n, state := if r.length == n then ChunkPart(ChunkDataAlmostDone) else r.state)
    case _ => r.(length := r.length - n)
  }

  predicate BodyRoom(r: Regs, n: nat) {
    match r.state
    case BodyIdentityEof => true
    case BodyIdentity => n < r.length < NO_LENGTH
    case ChunkPart(s) => s.ChunkData? && r.flags.chunked && n <= r.length < NO_LENGTH
    case _ => false
  }

  function TakeBodyBytes(c: Conf, bytes: string): Conf
    requires BodyRoom(c.r, |bytes|)
  {
    c.(r := TakeBody(c.r, |bytes|), log := Merge(c.log, Data(Body, bytes)), pos := c.pos + |bytes|)
  }

  lemma BodyByte(skip: Skip, c: Conf, input: string)
    requires input != "" && BodyRoom(c.r, 1) && c.hdr <= c.peak
    ensures Run(skip, c, input) == Run(skip, TakeBodyBytes(c, [input[0]]), input[1..])
  {
    hide Run, Switch, Merge, EndsWith;
    BodySwitchStep(c.r, input[0]);
    RunStep(skip, c, input, Switch(c.r, input[0]));
  }

  lemma BodySwitchStep(r: Regs, ch: char)
    ensures BodyRoom(r, 1) ==> Switch(r, ch) == Move(TakeBody(r, 1), Byte(Body), Advance)
    ensures r.state == BodyIdentity && r.length == 1 ==>
              Switch(r, ch) == Move(r.(length := 0, state := MessageDone), Byte(Body), Again)
  {
    hide Lawful, Tracked, EitherSwitch, StatusSwitch, MethodStart, MethodByte, UrlSwitch, VersionSwitch, FieldStart, FieldByte;
    hide ValueSwitch, ParseUrlChar, NewMessage, NeedsEof, MethodName;
  }

  lemma TakeBodyTwice(c: Conf, a: string, b: string)
    requires BodyRoom(c.r, |a|) && b != "" && BodyRoom(c.r, |a + b|)
    ensures BodyRoom(TakeBodyBytes(c, a).r, |b|)
    ensures TakeBodyBytes(TakeBodyBytes(c, a), b) == TakeBodyBytes(c, a + b)
  {
    MergeTwice(c.log, Body, a, b);
  }

  lemma LastBodyByte(skip: Skip, c: Conf, input: string)
    requires input != "" && c.r.state == BodyIdentity && c.r.length == 1 && c.hdr <= c.peak
    ensures Run(skip, c, input) ==
            Run(skip, c.(r := c.r.(length := 0, state := MessageDone), log := Merge(c.log, Data(Body, [input[0]]))), input)
  {
    hide Run, Switch, Merge, EndsWith;
    BodySwitchStep(c.r, input[0]);
    RunStep(skip, c, input, Switch(c.r, input[0]));
  }

  /** Reading a stretch of the body at once agrees with reading it byte by byte. */
  lemma {:induction false} BodyRun(skip: Skip, c: Conf, a: string, b: string)
    requires a != "" && BodyRoom(c.r, |a|) && c.hdr <= c.peak
    ensures Run(skip, c, a + b) == Run(skip, TakeBodyBytes(c, a), b)
    decreases |a|
  {
    assert (a + b)[1..] == a[1..] + b && a == [a[0]] + a[1..];
    BodyByte(skip, c, a + b);
    if |a| == 1 {
      assert a[1..] + b == b && a == [a[0]];
    } else {
      TakeBodyTwice(c, [a[0]], a[1..]);
      hide Switch, TakeBodyBytes, Run;
      BodyRun(skip, TakeBodyBytes(c, [a[0]]), a[1..], b);
    }
  }

  // The rest of a body of known length, its last byte still to be spent.
  function BodyDone(c: Conf, bytes: string): Conf
    requires bytes != ""
  {
    c.(r := c.r.(length := 0, state := MessageDone), log := Merge(c.log, Data(Body, bytes)), pos := c.pos + |bytes| - 1)
  }

  /** The whole rest of a body of known length: its last byte is looked at again by s_message_done. */
  lemma BodyEnd(skip: Skip, c: Conf, a: string, last: string)
    requires last != "" && c.r.state == BodyIdentity && |a| + 1 == c.r.length < NO_LENGTH && c.hdr <= c.peak
    ensures Run(skip, c, a + last) ==
            Run(skip, BodyDone(c, a + [last[0]]), last)
  {
    hide Switch, Run, Merge, EndsWith;
    if a == "" {
      assert a + last == last && a + [last[0]] == [last[0]];
      LastBodyByte(skip, c, last);
    } else {
      BodyRun(skip, c, a, last);
      LastBodyByte(skip, TakeBodyBytes(c, a), last);
      MergeTwice(c.log, Body, a, [last[0]]);
    }
  }

  /** A byte that is counted on arrival does reach the count, unless the run fails on it. */
  lemma {:induction false} CountsFirst(skip: Skip, c: Conf, input: string)
    requires ParsingHeader(c.r.state) && input != ""
    ensures var res := Run(skip, c, input); res.Failed? || res.Crashed? || Peak(res) >= c.hdr + 1
    decreases Rank(c.r.state)
  {
    var o := Switch(c.r, input[0]);
    if o.Move? {
      var c' := After(skip, c, o, input[0]);
      StateAfter(skip, c, o, input[0]);
      AgainCounts(c.r, input[0]);
      hide Switch;
      if o.go == Again {
        if ParsingHeader(c'.r.state) { CountsFirst(skip, c', input); } else { RunPosition(skip, c', input); }
      } else if o.go == Advance {
        RunPosition(skip, c', input[1..]);
      }
    }
  }

  lemma AgainCounts(r: Regs, ch: char)
    ensures var o := Switch(r, ch);
            o.Move? && o.go == Again ==>
              && !ResetsCount(r.state)
              && (ParsingHeader(o.r.state) == ParsingHeader(r.state) || (r.state.HeadersAlmostDone? && o.r.state.MessageDone?))
  {
    hide StatusSwitch, MethodStart, MethodByte, UrlSwitch, VersionSwitch, MethodName, ParseUrlChar, ValueStart, ValueByte, FieldToken;
    StatusAdvances(r, ch);
  }

  lemma StatusAdvances(r: Regs, ch: char)
    ensures r.state.StatusLine? ==> Switch(r, ch).Move? ==> Switch(r, ch).go == Advance
    ensures r.state.VersionPart? ==> Switch(r, ch).Move? ==> Switch(r, ch).go == Advance
    ensures r.state.UrlPart? ==> Switch(r, ch).Move? ==> Switch(r, ch).go == Advance
    ensures r.state.StartReq? || r.state.ReqMethod? ==> Switch(r, ch).Move? ==> Switch(r, ch).go == Advance
    ensures r.state.ChunkPart? ==> Switch(r, ch).Move? ==> Switch(r, ch).go == Advance
  {
  }
}
