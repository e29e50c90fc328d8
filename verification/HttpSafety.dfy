/** What holds of every configuration a run can reach. */
module HttpSafety {
  import opened Bytes
  import opened HttpTypes
  import opened HttpSwitch
  import opened HttpRun
  import opened HttpInvariant
  import opened HttpFraming
  import opened HttpGrammar

  predicate ConfInv(c: Conf) {
    RegInv(c.r) && PhaseInv(c.r, PhaseOf(c.r.kind, c.log)) && c.hdr <= c.peak
  }

  lemma NotBad(r: Regs, ph: Phase)
    requires PhaseInv(r, ph)
    ensures ph != Bad
  {
  }

  // A parser for either type of message picks one before it logs more than a Begin.
  lemma {:induction false} BothPhases(log: seq<Event>)
    ensures |log| == 1 ==> PhaseOf(Both, log) == if log[0] == Begin then Begun else Bad
    ensures |log| > 1 ==> PhaseOf(Both, log) == Bad
  {
    if |log| > 1 { BothPhases(log[..|log| - 1]); }
  }

  lemma KindPicked(kind: ParserType, log: seq<Event>)
    requires PhaseOf(Both, log) == Idle || PhaseOf(Both, log) == Begun
    ensures PhaseOf(kind, log) == PhaseOf(Both, log)
  {
    BothPhases(log);
  }

  lemma PhaseAnswer(skip: Skip, r: Regs, eff: Effect, log: seq<Event>, ph: Phase)
    requires RegInv(r) && PhaseInv(r, ph)
    requires eff == Note(HeadersComplete) ==> r.state == HeadersDone
    ensures RegInv(Answer(skip, r, eff, log)) && PhaseInv(Answer(skip, r, eff, log), ph)
  {
    hide Lawful, Tracked, MethodName;
  }

  /** One transition keeps the invariant. */
  lemma AfterKeeps(skip: Skip, c: Conf, ch: char)
    requires ConfInv(c)
    ensures !Switch(c.r, ch).Fatal?
    ensures Switch(c.r, ch).Move? ==> ConfInv(After(skip, c, Switch(c.r, ch), ch))
  {
    var ph := PhaseOf(c.r.kind, c.log);
    var o := Switch(c.r, ch);
    SwitchKeeps(c.r, ch);
    SwitchFollows(c.r, ph, ch);
    NotBad(c.r, ph);
    if o.Move? {
      if c.r.kind == Both { KindPicked(o.r.kind, c.log); }
      hide Switch, RegInv, PhaseInv, NextPhase, Advanced;
      PhaseApply(o.r.kind, c.log, o.eff, ch);
      PhaseAnswer(skip, o.r, o.eff, Apply(c.log, o.eff, ch), NextPhase(o.r.kind, ph, o.eff));
    }
  }

  /** No run crashes, and every run ends in a good configuration. */
  lemma {:induction false} RunKeeps(skip: Skip, c: Conf, input: string)
    requires ConfInv(c)
    ensures var res := Run(skip, c, input);
            !res.Crashed? && (res.Live? || res.Left? ==> ConfInv(res.c))
    decreases |input|, Rank(c.r.state)
  {
    if input != "" {
      var o := Switch(c.r, input[0]);
      AfterKeeps(skip, c, input[0]);
      hide Switch, After, ConfInv;
      if o.Move? {
        var c' := After(skip, c, o, input[0]);
        StateAfter(skip, c, o, input[0]);
        if o.go == Again { RunKeeps(skip, c', input); }
        else if o.go == Advance { RunKeeps(skip, c', input[1..]); }
      }
    }
  }

  lemma InitGood(t: ParserType)
    ensures ConfInv(InitConf(t))
  {
    NameLengths(DELETE);
  }

  /** Every run of a new parser: no assert fails, no matcher leaves its string, and the log follows the grammar. */
  lemma EveryRun(skip: Skip, t: ParserType, input: string)
    ensures var res := Run(skip, InitConf(t), input);
            && !res.Crashed?
            && (res.Live? || res.Left? ==> RegInv(res.c.r) && PhaseOf(res.c.r.kind, res.c.log) != Bad)
  {
    hide Run, RegInv, PhaseOf;
    InitGood(t);
    RunKeeps(skip, InitConf(t), input);
    var res := Run(skip, InitConf(t), input);
    if res.Live? || res.Left? { NotBad(res.c.r, PhaseOf(res.c.r.kind, res.c.log)); }
  }

  // Between messages: an end of the stream here is no error.
  predicate AtRest(s: State) {
    s.Dead? || s.StartReqOrRes? || s == StatusLine(StartRes) || s.StartReq?
  }

  /** The end of the stream completes a body read until then, and is an error only in the middle of a message. */
  lemma EofCompletes(c: Conf)
    requires ConfInv(c)
    ensures c.r.state.BodyIdentityEof? ==> PhaseOf(c.r.kind, c.log + [Complete]) == Idle
    ensures PhaseOf(c.r.kind, c.log) == Idle ==> AtRest(c.r.state)
    ensures AtRest(c.r.state) ==> PhaseOf(c.r.kind, c.log) == Idle || c.r.state == StatusLine(StartRes)
  {
    hide RegInv, PhaseOf;
    PhaseSnoc(c.r.kind, c.log, Complete);
    EofPhases(c.r, PhaseOf(c.r.kind, c.log));
  }

  lemma EofPhases(r: Regs, ph: Phase)
    requires PhaseInv(r, ph)
    ensures r.state.BodyIdentityEof? ==> Advanced(r.kind, ph, Complete) == Idle
    ensures ph == Idle ==> AtRest(r.state)
    ensures AtRest(r.state) ==> ph == Idle || r.state == StatusLine(StartRes)
  {
  }

  /** After a message that does not keep the connection alive, nothing but line ends is accepted and nothing is logged. */
  lemma {:induction false} DeadForever(skip: Skip, c: Conf, input: string)
    requires c.r.state == Dead
    ensures var res := Run(skip, c, input);
            if forall i :: 0 <= i < |input| ==> input[i] == CR || input[i] == LF
            then res.Live? && res.c.r == c.r && res.c.log == c.log
            else res.Failed? && res.e == ClosedConnection
    decreases |input|
  {
    if input != "" {
      var o := Switch(c.r, input[0]);
      DeadSwitch(c.r, input[0]);
      hide Switch;
      if o.Move? {
        RunStep(skip, c, input, o);
        DeadForever(skip, After(skip, c, o, input[0]), input[1..]);
        assert forall i :: 0 < i < |input| ==> input[i] == input[1..][i - 1];
      }
    }
  }

  lemma DeadSwitch(r: Regs, ch: char)
    requires r.state == Dead
    ensures Switch(r, ch) == if ch == CR || ch == LF then Move(r, Quiet, Advance) else Fail(ClosedConnection)
  {
  }

  /**
   A completed message is followed by the next one exactly if its version and options keep the connection open and it
   is no response without an end; nothing else closes it.
   */
  lemma CompleteStartsNext(r: Regs, ch: char)
    requires RegInv(r) && Switch(r, ch).Move?
    ensures var o, next := Switch(r, ch), NextState(FactsOf(r), r.flags.skipBody);
            && (o.eff == Note(Complete) ==> o.r.state == next)
            && (o.r.state == Dead ==> r.state == Dead || (o.eff == Note(Complete) && next == Dead))
  {
    hide Switch, RegInv, NextState, FactsOf, NewMessage;
    NextExact(r);
  }
}
