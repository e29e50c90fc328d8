/**
 The parser as a machine that takes its input one byte at a time: the specification that the
 buffer-at-a-time loop of HttpParser refines. It knows no buffers, marks or pauses.
 */
module HttpRun {
  import opened Bytes
  import opened HttpTypes
  import opened HttpSwitch

  // ---------- Logs: event sequences in which adjacent data events of one kind are one event ----------

  predicate EndsWith(log: seq<Event>, k: Kind) {
    log != [] && log[|log| - 1].Data? && log[|log| - 1].kind == k
  }

  function Merge(log: seq<Event>, e: Event): seq<Event> {
    if e.Data? && EndsWith(log, e.kind) then
      log[..|log| - 1] + [Data(e.kind, log[|log| - 1].bytes + e.bytes)]
    else log + [e]
  }

  // The log of the events the callbacks saw.
  function Coalesce(trace: seq<Event>): seq<Event> {
    if trace == [] then [] else Merge(Coalesce(trace[..|trace| - 1]), trace[|trace| - 1])
  }

  lemma CoalesceSnoc(trace: seq<Event>, e: Event)
    ensures Coalesce(trace + [e]) == Merge(Coalesce(trace), e)
  {
    assert (trace + [e])[..|trace|] == trace;
  }

  lemma MergeTwice(log: seq<Event>, k: Kind, a: string, b: string)
    ensures Merge(Merge(log, Data(k, a)), Data(k, b)) == Merge(log, Data(k, a + b))
    ensures EndsWith(Merge(log, Data(k, a)), k)
  {
    var one := Merge(log, Data(k, a));
    if EndsWith(log, k) {
      assert one[..|one| - 1] == log[..|log| - 1];
      assert log[|log| - 1].bytes + a + b == log[|log| - 1].bytes + (a + b);
    } else {
      assert one[..|one| - 1] == log;
    }
  }

  lemma MergeNothing(log: seq<Event>, k: Kind)
    requires EndsWith(log, k)
    ensures Merge(log, Data(k, "")) == log
  {
    assert log[|log| - 1].bytes + "" == log[|log| - 1].bytes;
  }

  lemma MergeNew(log: seq<Event>, k: Kind, bytes: string)
    requires !EndsWith(log, k)
    ensures Merge(log, Data(k, bytes)) == log + [Data(k, bytes)]
  {
  }

  // ---------- The machine ----------

  // Whether on_headers_complete answers 1 ("no body"), given the log it closes.
  type Skip = seq<Event> -> bool

  // `hdr` counts the header bytes since the last reset of the header-size counter, `peak` is the
  // largest value it has had.
  datatype Conf = Conf(r: Regs, log: seq<Event>, pos: nat, hdr: nat, peak: nat)

  function InitConf(t: ParserType): Conf {
    Conf(InitRegs(t), [], 0, 0, 0)
  }

  datatype Result =
    | Live(c: Conf)                        // the input is used up
    | Left(c: Conf)                        // returned early for another protocol
    | Failed(e: Errno, pos: nat, peak: nat)
    | Crashed                              // a failed assert()

  function Max(a: nat, b: nat): nat {
    if a < b then b else a
  }

  predicate ResetsCount(s: State) {
    s.HeadersDone? || s == ChunkPart(ChunkSizeAlmostDone) || s == ChunkPart(ChunkDataDone)
  }

  // The byte `ch` is spent in state `s`; a trailer's last line feed is spent on the way out of the header.
  predicate CountsByte(s: State, next: State, go: Go) {
    ParsingHeader(s) && (go != Again || (s.HeadersAlmostDone? && next.MessageDone?))
  }

  function Apply(log: seq<Event>, eff: Effect, ch: char): seq<Event> {
    match eff
    case Quiet => log
    case Byte(k) => Merge(log, Data(k, [ch]))
    case Flush(_) => log
    case Empty(k) => Merge(log, Data(k, ""))
    case Note(e) => log + [e]
  }

  // The answer of on_headers_complete goes into the flags.
  function Answer(skip: Skip, r: Regs, eff: Effect, log: seq<Event>): Regs {
    if eff == Note(HeadersComplete) && skip(log) then r.(flags := r.flags.(skipBody := true)) else r
  }

  // The configuration after a transition `o` on the byte `ch`.
  function After(skip: Skip, c: Conf, o: Out, ch: char): Conf
    requires o.Move?
  {
    var log := Apply(c.log, o.eff, ch);
    var count := if CountsByte(c.r.state, o.r.state, o.go) then c.hdr + 1 else c.hdr;
    Conf(Answer(skip, o.r, o.eff, log), log, if o.go == Again then c.pos else c.pos + 1,
         if ResetsCount(c.r.state) then 0 else count, Max(c.peak, count))
  }

  function Run(skip: Skip, c: Conf, input: string): Result
    decreases |input|, Rank(c.r.state)
  {
    if input == "" then Live(c)
    else
      var o := Switch(c.r, input[0]);
      match o
      case Fail(e) => Failed(e, c.pos, c.peak)
      case Fatal => Crashed
      case Move(r, eff, go) =>
        var c' := After(skip, c, o, input[0]);
        if go == Leave then Left(c')
        else if go == Again then Run(skip, c', input)
        else Run(skip, c', input[1..])
  }

  // `n` bytes spent in states that count header bytes.
  function Spent(c: Conf, r: Regs, log: seq<Event>, n: nat): Conf {
    Conf(r, log, c.pos + n, c.hdr + n, Max(c.peak, c.hdr + n))
  }

  lemma SpentNothing(c: Conf)
    requires c.hdr <= c.peak
    ensures Spent(c, c.r, c.log, 0) == c
  {
  }

  lemma SpentTwice(c: Conf, r: Regs, log: seq<Event>, n: nat, r': Regs, log': seq<Event>, n': nat)
    ensures Spent(Spent(c, r, log, n), r', log', n') == Spent(c, r', log', n + n')
  {
  }

  // A message is over: the caller gets control back if it upgrades the connection.
  function Over(skip: Skip, c: Conf, rest: string): Result {
    if c.r.upgrade then Left(c) else Run(skip, c, rest)
  }

  // A run over `input` comes by `c'`, with `rest` to go.
  predicate LeadsTo(skip: Skip, c: Conf, input: string, c': Conf, rest: string) {
    Run(skip, c, input) == Run(skip, c', rest)
  }

  // One transition of a run.
  lemma RunStep(skip: Skip, c: Conf, input: string, o: Out)
    requires input != "" && o == Switch(c.r, input[0]) && o.Move?
    ensures var c' := After(skip, c, o, input[0]);
            Run(skip, c, input) ==
            if o.go == Leave then Left(c') else Run(skip, c', if o.go == Again then input else input[1..])
  {
    hide Switch, After;
  }

  lemma FailStep(skip: Skip, c: Conf, input: string, e: Errno)
    requires input != "" && Switch(c.r, input[0]) == Fail(e)
    ensures Run(skip, c, input) == Failed(e, c.pos, c.peak)
  {
  }

  lemma RunNothing(skip: Skip, c: Conf)
    ensures Run(skip, c, "") == Live(c)
  {
  }

  // A transition that spends a byte in a state that counts header bytes, and does not reset the count.
  lemma HeaderStep(skip: Skip, c: Conf, input: string, r: Regs, eff: Effect)
    requires input != "" && Switch(c.r, input[0]) == Move(r, eff, Advance) && eff != Note(HeadersComplete)
    requires ParsingHeader(c.r.state) && !ResetsCount(c.r.state)
    ensures Run(skip, c, input) == Run(skip, Spent(c, r, Apply(c.log, eff, input[0]), 1), input[1..])
  {
    hide Switch, Apply, Run;
    RunStep(skip, c, input, Switch(c.r, input[0]));
  }

  // One such byte, `n` bytes after `c`.
  lemma QuietStep(skip: Skip, c: Conf, r: Regs, n: nat, ch: char, r': Regs, rest: string)
    requires Switch(r, ch) == Move(r', Quiet, Advance) && ParsingHeader(r.state) && !ResetsCount(r.state)
    ensures Run(skip, Spent(c, r, c.log, n), [ch] + rest) == Run(skip, Spent(c, r', c.log, n + 1), rest)
  {
    hide Run, Switch, Lawful, Tracked;
    assert ([ch] + rest)[1..] == rest;
    HeaderStep(skip, Spent(c, r, c.log, n), [ch] + rest, r', Quiet);
  }

  // A second look at a byte that is still to be spent.
  lemma HeaderAgain(skip: Skip, c: Conf, input: string, r: Regs)
    requires input != "" && Switch(c.r, input[0]) == Move(r, Quiet, Again) && c.hdr <= c.peak
    requires !ResetsCount(c.r.state) && !c.r.state.HeadersAlmostDone?
    ensures Run(skip, c, input) == Run(skip, c.(r := r), input)
  {
    hide Switch, Run;
    RunStep(skip, c, input, Switch(c.r, input[0]));
  }

  lemma Regroup<T>(a: seq<T>, b: seq<T>, c: seq<T>)
    ensures a + b + c == a + (b + c)
  {
  }

  lemma LineEnd(rest: string)
    ensures (CRLF + rest)[0] == CR && (CRLF + rest)[1..] == [LF] + rest
    ensures ([LF] + rest)[0] == LF && ([LF] + rest)[1..] == rest
  {
  }

  /** Running on a concatenation is running on the parts in turn. */
  lemma {:induction false} RunAppend(skip: Skip, c: Conf, a: string, b: string)
    ensures Run(skip, c, a + b) ==
            match Run(skip, c, a) { case Live(c') => Run(skip, c', b) case other => other }
    decreases |a|, Rank(c.r.state)
  {
    hide Switch, After;
    if a == "" {
      assert a + b == b;
    } else {
      assert (a + b)[1..] == a[1..] + b;
      var o := Switch(c.r, a[0]);
      if o.Move? {
        var c' := After(skip, c, o, a[0]);
        assert c'.r.state == o.r.state by { StateAfter(skip, c, o, a[0]); }
        if o.go == Again { RunAppend(skip, c', a, b); }
        else if o.go == Advance { RunAppend(skip, c', a[1..], b); }
      }
    }
  }

  // With `ch` next, the run from `c` goes on after `s` as it does from `c'`, which looks at `ch` again.
  ghost predicate Onward(skip: Skip, c: Conf, s: string, c': Conf, ch: char) {
    forall t: string :: t != "" && t[0] == ch ==> Run(skip, c, s + t) == Run(skip, c', t)
  }

  lemma JoinNext(skip: Skip, c: Conf, a: string, c1: Conf, b: string, c2: Conf)
    requires Run(skip, c, a) == Live(c1) && Run(skip, c1, b) == Live(c2)
    ensures Run(skip, c, a + b) == Live(c2)
  {
    hide Run;
    RunAppend(skip, c, a, b);
  }

  lemma JoinOnward(skip: Skip, c: Conf, a: string, c1: Conf, b: string, c2: Conf, ch: char)
    requires Run(skip, c, a) == Live(c1) && Onward(skip, c1, b, c2, ch)
    ensures Onward(skip, c, a + b, c2, ch)
  {
    hide Run;
    forall t: string | t != "" && t[0] == ch ensures Run(skip, c, a + b + t) == Run(skip, c2, t) {
      Regroup(a, b, t);
      RunAppend(skip, c, a, b + t);
    }
  }

  lemma OnwardNext(skip: Skip, c: Conf, a: string, c1: Conf, b: string, c2: Conf)
    requires b != "" && Onward(skip, c, a, c1, b[0]) && Run(skip, c1, b) == Live(c2)
    ensures Run(skip, c, a + b) == Live(c2)
  {
    hide Run;
  }

  lemma OnwardTwice(skip: Skip, c: Conf, a: string, c1: Conf, b: string, c2: Conf, ch: char)
    requires Onward(skip, c, a, c1, if b == "" then ch else b[0]) && Onward(skip, c1, b, c2, ch)
    ensures Onward(skip, c, a + b, c2, ch)
  {
    hide Run;
    forall t: string | t != "" && t[0] == ch ensures Run(skip, c, a + b + t) == Run(skip, c2, t) {
      Regroup(a, b, t);
      assert (b + t)[0] == if b == "" then ch else b[0];
    }
  }

  lemma StateAfter(skip: Skip, c: Conf, o: Out, ch: char)
    requires o.Move?
    ensures var c' := After(skip, c, o, ch);
            c'.r.state == o.r.state && c'.pos == (if o.go == Again then c.pos else c.pos + 1) && c.peak <= c'.peak
  {
  }

  function Peak(res: Result): nat {
    match res
    case Live(c) => c.peak
    case Left(c) => c.peak
    case Failed(_, _, peak) => peak
    case Crashed => 0
  }

  /** The position counts the bytes spent, and the largest header count only grows. */
  lemma {:induction false} RunPosition(skip: Skip, c: Conf, input: string)
    ensures var res := Run(skip, c, input);
            && (res.Live? ==> res.c.pos == c.pos + |input|)
            && (res.Left? ==> c.pos < res.c.pos <= c.pos + |input|)
            && (res.Failed? ==> c.pos <= res.pos < c.pos + |input|)
            && (!res.Crashed? ==> c.peak <= Peak(res))
    decreases |input|, Rank(c.r.state)
  {
    hide Switch, After;
    if input != "" {
      var o := Switch(c.r, input[0]);
      if o.Move? {
        var c' := After(skip, c, o, input[0]);
        StateAfter(skip, c, o, input[0]);
        if o.go == Again { RunPosition(skip, c', input); }
        else if o.go == Advance { RunPosition(skip, c', input[1..]); }
      }
    }
  }
}
