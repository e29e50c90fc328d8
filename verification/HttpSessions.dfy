/** Whole sessions: cutting the input into buffers and pausing in callbacks make no difference. */
module HttpSessions {
  import opened HttpTypes
  import opened HttpSwitch
  import opened HttpRun
  import opened HttpSafety
  import opened HttpParser

  function Concat(pieces: seq<string>): string {
    if pieces == [] then "" else Concat(pieces[..|pieces| - 1]) + pieces[|pieces| - 1]
  }

  lemma ConcatNext(pieces: seq<string>, i: nat)
    requires i < |pieces|
    ensures Concat(pieces[..i + 1]) == Concat(pieces[..i]) + pieces[i]
  {
    assert pieces[..i + 1][..i] == pieces[..i];
  }

  lemma {:induction false} ConcatPrefix(pieces: seq<string>, i: nat)
    requires i <= |pieces|
    ensures exists rest :: Concat(pieces) == Concat(pieces[..i]) + rest
    decreases |pieces| - i
  {
    if i == |pieces| {
      assert pieces[..i] == pieces;
      assert Concat(pieces) == Concat(pieces[..i]) + "";
    } else {
      ConcatPrefix(pieces, i + 1);
      var rest :| Concat(pieces) == Concat(pieces[..i + 1]) + rest;
      ConcatNext(pieces, i);
      assert Concat(pieces) == Concat(pieces[..i]) + (pieces[i] + rest);
    }
  }

  predicate Feedable(pieces: seq<string>) {
    forall i :: 0 <= i < |pieces| ==> 0 < |pieces[i]| < MAX_BUFFER
  }

  // How a session stands when the parser answers `errno` after `n` bytes in all.
  ghost predicate Faithful(res: Result, errno: Errno, c: Conf, at: nat) {
    && (errno == Ok ==> res == Live(c))
    && (!errno.Ok? && !errno.CallbackFailed? && !errno.HeaderOverflow? ==>
          res.Failed? && res.e == errno && res.pos == at)
    && errno != Paused
  }

  // Callbacks that never pause or fail at a piece of a header value.
  ghost predicate PassesValues(env: Env) {
    forall trace :: EndsWith(trace, Value) ==> env.verdict(trace) == Proceed
  }

  // Callbacks that always return 0 and never pause.
  ghost predicate Steady(env: Env) {
    forall trace :: env.verdict(trace) == Proceed
  }

  // The number of pieces that end inside the name or the value of a header.
  function HeaderCuts(skip: Skip, c: Conf, pieces: seq<string>): nat {
    if pieces == [] then 0
    else HeaderCuts(skip, c, pieces[..|pieces| - 1]) + if EndsInHeader(Run(skip, c, Concat(pieces))) then 1 else 0
  }

  lemma CutsNext(skip: Skip, c: Conf, pieces: seq<string>, i: nat)
    requires i < |pieces|
    ensures HeaderCuts(skip, c, pieces[..i + 1]) ==
            HeaderCuts(skip, c, pieces[..i]) + if EndsInHeader(Run(skip, c, Concat(pieces[..i + 1]))) then 1 else 0
  {
    hide Run, Concat;
    assert pieces[..i + 1][..i] == pieces[..i];
  }

  lemma {:induction false} CutsGrow(skip: Skip, c: Conf, pieces: seq<string>, i: nat)
    requires i <= |pieces|
    ensures HeaderCuts(skip, c, pieces[..i]) <= HeaderCuts(skip, c, pieces)
    decreases |pieces| - i
  {
    hide Run, Concat, HeaderCuts;
    if i == |pieces| {
      assert pieces[..i] == pieces;
    } else {
      CutsNext(skip, c, pieces, i);
      CutsGrow(skip, c, pieces, i + 1);
    }
  }

  // A header-size error is due to a head that is too long by itself, or with the bytes counted twice.
  predicate Overflowed(res: Result, twice: nat) {
    res.Failed? || Peak(res) + twice > MAX_HEADER
  }

  // The bytes counted twice, with those of the pauses so far in `before`.
  ghost predicate OneSlack(p: Parser, res: Result, before: nat)
    reads p
  {
    var cut := if EndsInHeader(res) then 1 else 0;
    && (p.errno == HeaderOverflow ==> Overflowed(res, before + cut))
    && (p.errno == Ok ==> p.slack <= before + cut)
  }

  lemma StoppedBy(env: Env, before: seq<Event>, trace: seq<Event>, errno: Errno)
    requires Obeyed(env, before, trace, errno)
    ensures Stopped(errno) ==> env.verdict(trace) != Proceed
  {
  }

  // One call, and the resumption if a callback paused it.
  method Call(p: Parser, env: Env, rest: string) returns (m: nat, ghost paused: bool)
    requires p.Valid() && p.errno == Ok && 0 < |rest| < MAX_BUFFER && !Run(env.skip, p.Abs(), rest).Left?
    modifies p
    ensures p.Valid() && m <= |rest| && p.errno != Paused && (Steady(env) ==> !paused)
    ensures p.errno == Ok ==>
              p.pos == old(p.pos) + m && Run(env.skip, p.Abs(), rest[m..]) == Run(env.skip, old(p.Abs()), rest)
    ensures if paused
            then p.errno == Ok && (m > 0 || Rank(p.r.state) < Rank(old(p.r.state))) && p.slack <= old(p.slack) + 1
            else OneSlack(p, Run(env.skip, old(p.Abs()), rest), old(p.slack)) && (p.errno == Ok ==> m == |rest|)
    ensures p.errno != Ok ==> Faithful(Run(env.skip, old(p.Abs()), rest), p.errno, p.Abs(), old(p.pos) + m)
    ensures p.errno == Ok && PassesValues(env) ==> p.lost == old(p.lost)
    ensures p.errno.CallbackFailed? ==> LeftBy(env, p.trace, p.errno)
  {
    hide Run, Switch, ConfInv, Coalesce, Obeyed, EndsWith, Parser.CutShort;
    ghost var before := p.trace;
    m := p.Execute(env, rest);
    StoppedBy(env, before, p.trace, p.errno);
    paused := p.errno == Paused;
    if p.errno == Paused {
      p.SetPaused(false);
    } else if p.errno == Ok {
      assert rest[m..] == "";
      RunNothing(env.skip, p.Abs());
    }
  }

  // One buffer, resumed after every pause on the bytes not consumed.
  method FeedOne(p: Parser, env: Env, piece: string) returns (n: nat, ghost pauses: nat)
    requires p.Valid() && p.errno == Ok && 0 < |piece| < MAX_BUFFER
    requires !Run(env.skip, p.Abs(), piece).Left?
    modifies p
    ensures p.Valid() && n <= |piece| && (p.errno == Ok ==> n == |piece|)
    ensures Faithful(Run(env.skip, old(p.Abs()), piece), p.errno, p.Abs(), old(p.pos) + n)
    ensures OneSlack(p, Run(env.skip, old(p.Abs()), piece), old(p.slack) + pauses)
    ensures Steady(env) ==> pauses == 0
    ensures p.errno == Ok && PassesValues(env) ==> p.lost == old(p.lost)
    ensures p.errno.CallbackFailed? ==> LeftBy(env, p.trace, p.errno)
  {
    hide Run, Switch, ConfInv, Coalesce, PassesValues, Steady, LeftBy, Parser.Valid;
    n, pauses := 0, 0;
    assert piece[0..] == piece;
    while n < |piece| && p.errno == Ok
      invariant n <= |piece| && p.Valid() && p.errno != Paused
      invariant p.errno == Ok ==> Run(env.skip, p.Abs(), piece[n..]) == Run(env.skip, old(p.Abs()), piece)
      invariant p.errno == Ok ==> p.pos == old(p.pos) + n
      invariant p.errno != Ok ==> Faithful(Run(env.skip, old(p.Abs()), piece), p.errno, p.Abs(), old(p.pos) + n)
      invariant OneSlack(p, Run(env.skip, old(p.Abs()), piece), old(p.slack) + pauses)
      invariant n < |piece| && p.errno == Ok ==> p.slack <= old(p.slack) + pauses
      invariant p.errno.CallbackFailed? ==> LeftBy(env, p.trace, p.errno)
      invariant Steady(env) ==> pauses == 0
      invariant p.errno == Ok && PassesValues(env) ==> p.lost == old(p.lost)
      decreases p.errno == Ok, |piece| - n, Rank(p.r.state)
    {
      ghost var paused: bool;
      var m;
      m, paused := Call(p, env, piece[n..]);
      assert piece[n..][m..] == piece[n + m..];
      n := n + m;
      if paused { pauses := pauses + 1; }
    }
    assert piece[|piece|..] == "";
    RunNothing(env.skip, p.Abs());
  }

  /** Any nonempty pieces, with any pauses, are parsed as their concatenation. */
  method Feed(p: Parser, env: Env, pieces: seq<string>) returns (n: nat, ghost pauses: nat)
    requires p.Valid() && p.errno == Ok && Feedable(pieces)
    requires !Run(env.skip, p.Abs(), Concat(pieces)).Left?
    modifies p
    ensures p.Valid() && n <= |Concat(pieces)| && (p.errno == Ok ==> n == |Concat(pieces)|)
    ensures Faithful(Run(env.skip, old(p.Abs()), Concat(pieces)), p.errno, p.Abs(), old(p.pos) + n)
    ensures p.errno == HeaderOverflow ==>
              Overflowed(Run(env.skip, old(p.Abs()), Concat(pieces)),
                         old(p.slack) + HeaderCuts(env.skip, old(p.Abs()), pieces) + pauses)
    ensures Steady(env) ==> pauses == 0
    ensures p.errno == Ok && PassesValues(env) ==> p.lost == old(p.lost) && p.peak <= MAX_HEADER + old(p.lost)
    ensures p.errno.CallbackFailed? ==> LeftBy(env, p.trace, p.errno)
  {
    hide Run, Switch, ConfInv, Coalesce, Concat, HeaderCuts, EndsWith;
    ghost var before := p.Abs();
    ConcatNothing(pieces);
    RunNothing(env.skip, before);
    NoCuts(env.skip, before, pieces);
    n, pauses := 0, 0;
    for i := 0 to |pieces|
      invariant p.Valid() && p.errno == Ok && n == |Concat(pieces[..i])| && p.pos == before.pos + n
      invariant Run(env.skip, before, Concat(pieces[..i])) == Live(p.Abs())
      invariant p.slack <= old(p.slack) + HeaderCuts(env.skip, before, pieces[..i]) + pauses
      invariant Steady(env) ==> pauses == 0
      invariant PassesValues(env) ==> p.lost == old(p.lost)
    {
      ghost var now := p.Abs();
      ghost var done, piece := Concat(pieces[..i]), pieces[i];
      ConcatNext(pieces, i);
      ConcatPrefix(pieces, i + 1);
      CutsNext(env.skip, before, pieces, i);
      ghost var rest :| Concat(pieces) == Concat(pieces[..i + 1]) + rest;
      RunAppend(env.skip, before, done, piece);
      RunAppend(env.skip, before, done + piece, rest);
      ghost var more: nat;
      var m;
      m, more := FeedOne(p, env, pieces[i]);
      n, pauses := n + m, pauses + more;
      if p.errno != Ok {
        if p.errno == HeaderOverflow {
          CutsGrow(env.skip, before, pieces, i + 1);
          StillOverflowed(env.skip, before, done + piece, rest,
                          old(p.slack) + HeaderCuts(env.skip, before, pieces[..i + 1]) + pauses);
        }
        return;
      }
      RunPosition(env.skip, now, piece);
    }
    assert pieces[..|pieces|] == pieces;
    assert p.Counted(0);
  }

  lemma NoCuts(skip: Skip, c: Conf, pieces: seq<string>)
    ensures HeaderCuts(skip, c, pieces[..0]) == 0
  {
  }

  lemma StillOverflowed(skip: Skip, c: Conf, a: string, b: string, slack: nat)
    requires ConfInv(c) && Overflowed(Run(skip, c, a), slack)
    ensures Overflowed(Run(skip, c, a + b), slack)
  {
    hide Run, ConfInv;
    RunAppend(skip, c, a, b);
    RunKeeps(skip, c, a + b);
    if Run(skip, c, a).Live? { RunPosition(skip, Run(skip, c, a).c, b); }
  }

  lemma ConcatNothing(pieces: seq<string>)
    ensures Concat(pieces[..0]) == ""
  {
  }

  /**
   Two parsers of one type, fed the same bytes in different pieces by callbacks that pause at
   different times but answer the same, agree on every register and every event, or on the error.
   */
  method TwoWays(t: ParserType, env1: Env, pieces1: seq<string>, env2: Env, pieces2: seq<string>)
    returns (p1: Parser, n1: nat, p2: Parser, n2: nat)
    requires Feedable(pieces1) && Feedable(pieces2) && Concat(pieces1) == Concat(pieces2) && env1.skip == env2.skip
    requires !Run(env1.skip, InitConf(t), Concat(pieces1)).Left?
    ensures p1.errno == Ok && p2.errno == Ok ==> p1.r == p2.r && Coalesce(p1.trace) == Coalesce(p2.trace) && n1 == n2
    ensures IsParseError(p1.errno) && IsParseError(p2.errno) ==> p1.errno == p2.errno && n1 == n2
    ensures IsParseError(p1.errno) ==> p2.errno != Ok
  {
    hide Run, Concat, Coalesce;
    p1 := new Parser(t);
    p2 := new Parser(t);
    ghost var pauses1, pauses2;
    n1, pauses1 := Feed(p1, env1, pieces1);
    n2, pauses2 := Feed(p2, env2, pieces2);
  }
}
