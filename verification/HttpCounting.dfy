/**
 The header-size counter over a printed request that arrives in pieces: exactly how high it gets. A run is the
 same whatever its counts are; only the counts differ.
 */
module HttpCounting {
  import opened Bytes
  import opened HttpTypes
  import opened HttpSwitch
  import opened HttpRun
  import opened HttpBulk
  import opened HttpGrammar
  import opened HttpInvariant
  import opened HttpSafety
  import opened HttpLines
  import opened HttpRequests
  import opened HttpParser
  import opened HttpSessions

  // ---------- Runs with other counts ----------

  function WithCounts(c: Conf, hdr: nat, peak: nat): Conf {
    c.(hdr := hdr, peak := peak)
  }

  function One(b: bool): nat {
    if b then 1 else 0
  }

  // What one transition does to the counts does not depend on them.
  lemma CountsAfter(skip: Skip, c: Conf, o: Out, ch: char, hdr: nat, peak: nat)
    requires o.Move?
    ensures var e, reset := One(CountsByte(c.r.state, o.r.state, o.go)), ResetsCount(c.r.state);
            && After(skip, c, o, ch).peak == Max(c.peak, c.hdr + e)
            && After(skip, c, o, ch).hdr == (if reset then 0 else c.hdr + e)
            && After(skip, WithCounts(c, hdr, peak), o, ch) ==
               WithCounts(After(skip, c, o, ch), if reset then 0 else hdr + e, Max(peak, hdr + e))
  {
    hide Apply, Answer;
  }

  // A trailer's end, which is counted on the way to s_message_done, is not counted there.
  lemma CountedOnce(r: Regs, ch: char)
    ensures var o := Switch(r, ch);
            && (o.Move? && o.go == Again ==> !ResetsCount(r.state))
            && (o.Move? && o.go == Again && CountsByte(r.state, o.r.state, o.go) ==> o.r.state.MessageDone?)
            && (r.state.MessageDone? && o.Move? ==>
                  o.go != Again && !CountsByte(r.state, o.r.state, o.go) && !ResetsCount(r.state))
  {
    AgainCounts(r, ch);
    FieldFrom(r, ch);
    hide Switch;
  }

  lemma LiveMoves(skip: Skip, c: Conf, ch: char)
    requires Run(skip, c, [ch]).Live?
    ensures Switch(c.r, ch).Move? && Switch(c.r, ch).go != Leave
  {
    hide Switch, After;
  }

  /** One byte is counted at most once, and the run over it is the same with other counts. */
  lemma {:induction false} ByteCounts(skip: Skip, c: Conf, ch: char, hdr: nat, peak: nat) returns (e: nat, reset: bool)
    requires Run(skip, c, [ch]).Live?
    ensures e <= 1 && (c.r.state.MessageDone? ==> e == 0 && !reset)
    ensures var c' := Run(skip, c, [ch]).c;
            && c'.peak == Max(c.peak, c.hdr + e) && c'.hdr == (if reset then 0 else c.hdr + e)
            && Run(skip, WithCounts(c, hdr, peak), [ch]) ==
               Live(WithCounts(c', if reset then 0 else hdr + e, Max(peak, hdr + e)))
    decreases Rank(c.r.state)
  {
    hide Run, Switch, After, CountsByte, ResetsCount;
    var o := Switch(c.r, ch);
    assert [ch][0] == ch && [ch][1..] == "";
    LiveMoves(skip, c, ch);
    var c1 := After(skip, c, o, ch);
    RunStep(skip, c, [ch], o);
    RunStep(skip, WithCounts(c, hdr, peak), [ch], o);
    CountsAfter(skip, c, o, ch, hdr, peak);
    CountedOnce(c.r, ch);
    StateAfter(skip, c, o, ch);
    e, reset := One(CountsByte(c.r.state, o.r.state, o.go)), ResetsCount(c.r.state);
    if o.go == Again {
      var hdr', peak' := hdr + e, Max(peak, hdr + e);
      var more;
      more, reset := ByteCounts(skip, c1, ch, hdr', peak');
      e := e + more;
    } else {
      RunNothing(skip, c1);
      RunNothing(skip, WithCounts(c1, if reset then 0 else hdr + e, Max(peak, hdr + e)));
    }
  }

  /** No more bytes are counted than arrive. */
  lemma {:induction false} Growth(skip: Skip, c: Conf, s: string)
    requires Run(skip, c, s).Live?
    ensures var c' := Run(skip, c, s).c; c'.hdr <= c.hdr + |s| && c'.peak <= Max(c.peak, c.hdr + |s|)
    decreases |s|
  {
    hide Run;
    if s == "" {
      RunNothing(skip, c);
    } else {
      assert s == [s[0]] + s[1..];
      RunAppend(skip, c, [s[0]], s[1..]);
      var e, reset := ByteCounts(skip, c, s[0], c.hdr, c.peak);
      Growth(skip, Run(skip, c, [s[0]]).c, s[1..]);
    }
  }

  // ---------- A printed request ----------

  // What the byte-at-a-time machine makes of a printed request.
  lemma PrintedRun(skip: Skip, q: HttpRequest) returns (c: Conf)
    requires Sendable(q) && forall log :: !skip(log)
    ensures Run(skip, InitConf(Request), Print(q)) == Live(c)
    ensures c.log == RequestLog(q) && c.r.method_ == q.m && c.r.kind == Request && c.pos == |Print(q)|
    ensures c.peak == |Head(q)| && c.r.state == AfterRequest(q) && PhaseOf(Request, c.log) != Bad
  {
    hide Run, Sendable, Print, Head, RequestLog, HeadLog, AfterRequest, PhaseOf, RegInv;
    c := RequestRun(skip, InitConf(Request), q, "");
    assert Print(q) + "" == Print(q) && [] + RequestLog(q) == RequestLog(q);
    RunNothing(skip, c);
    EveryRun(skip, Request, Print(q));
  }

  lemma NotNothing(q: HttpRequest)
    ensures Print(q) != ""
  {
    assert Head(q)[|Head(q)| - 1] == LF;
  }

  lemma StateAfterRequest(q: HttpRequest)
    ensures !InHeader(AfterRequest(q))
  {
  }

  // The pieces that end before byte `n`.
  function EndingBefore(pieces: seq<string>, n: nat): nat {
    if pieces == [] then 0
    else EndingBefore(pieces[..|pieces| - 1], n) + if |Concat(pieces)| < n then 1 else 0
  }

  lemma {:induction false} FewBefore(pieces: seq<string>, n: nat)
    requires Feedable(pieces) && 0 < n
    ensures EndingBefore(pieces, n) <= |Concat(pieces)| && EndingBefore(pieces, n) < n
    decreases |pieces|
  {
    if pieces != [] {
      assert forall i :: 0 <= i < |pieces| - 1 ==> pieces[..|pieces| - 1][i] == pieces[i];
      FewBefore(pieces[..|pieces| - 1], n);
    }
  }

  lemma BodyFits(q: HttpRequest)
    requires Sendable(q) && q.body != ""
    ensures |q.body| < NO_LENGTH
  {
  }

  // Where the machine is after `n` bytes, and its counts there.
  lemma InHead(skip: Skip, q: HttpRequest, n: nat) returns (c: Conf)
    requires Sendable(q) && (forall log :: !skip(log)) && n < |Head(q)|
    ensures n <= |Print(q)| && Run(skip, InitConf(Request), Print(q)[..n]) == Live(c) && c.hdr == n && c.peak == n
  {
    hide Run, Sendable, RequestLine, PrintHeaders, AfterRequest, HeadLog, ConfInv, HeaderOptions;
    var init, a, b := InitConf(Request), Head(q)[..n], Head(q)[n..];
    assert Head(q) + "" == Head(q) && a + b == Head(q) && Print(q)[..n] == a;
    var whole := PrintedHeadRun(skip, init, q, "");
    RunNothing(skip, whole);
    RunAppend(skip, init, a, b);
    c := Run(skip, init, a).c;
    Growth(skip, init, a);
    Growth(skip, c, b);
    StartsWell();
    RunKeeps(skip, init, a);
    HdrBelowPeak(c);
  }

  lemma StartsWell()
    ensures ConfInv(InitConf(Request))
  {
    NameLengths(DELETE);
  }

  // From its head on, nothing is counted, and no name or value is open.
  lemma PastHead(skip: Skip, q: HttpRequest, n: nat) returns (c: Conf)
    requires Sendable(q) && (forall log :: !skip(log)) && |Head(q)| <= n <= |Print(q)|
    ensures Run(skip, InitConf(Request), Print(q)[..n]) == Live(c) && !InHeader(c.r.state)
    ensures c.hdr == 0 && c.peak == |Head(q)|
  {
    hide Run, Sendable, Head, AfterRequest, EndsWith, RequestLog, HeadLog, HeaderOptions;
    var part := q.body[..n - |Head(q)|];
    assert Print(q)[..n] == Head(q) + part;
    if n == |Print(q)| {
      assert Print(q) + "" == Print(q) && Print(q)[..n] == Print(q);
      c := RequestRun(skip, InitConf(Request), q, "");
      RunNothing(skip, c);
      StateAfterRequest(q);
    } else {
      c := PrintedHeadRun(skip, InitConf(Request), q, part);
      if part == "" {
        RunNothing(skip, c);
      } else {
        assert part + "" == part;
        BodyFits(q);
        BodyRun(skip, c, part, "");
        c := TakeBodyBytes(c, part);
        RunNothing(skip, c);
      }
    }
  }

  lemma HeadLength(q: HttpRequest)
    ensures 2 <= |Head(q)| <= |Print(q)|
  {
    hide RequestLine, PrintHeaders;
  }

  // The counts after `n` bytes of which `d` were counted twice.
  function HdrAt(q: HttpRequest, n: nat, d: nat): nat {
    if n < |Head(q)| then n + d else 0
  }

  function PeakAt(q: HttpRequest, n: nat, d: nat): nat {
    if n < |Head(q)| then n + d else |Head(q)| + d
  }

  // The machine after `n` bytes, with `d` of them counted twice.
  function At(skip: Skip, q: HttpRequest, n: nat, d: nat): Conf
    requires n <= |Print(q)| && Run(skip, InitConf(Request), Print(q)[..n]).Live?
  {
    WithCounts(Run(skip, InitConf(Request), Print(q)[..n]).c, HdrAt(q, n, d), PeakAt(q, n, d))
  }

  lemma Reached(skip: Skip, q: HttpRequest, n: nat)
    requires Sendable(q) && (forall log :: !skip(log)) && n <= |Print(q)|
    ensures Run(skip, InitConf(Request), Print(q)[..n]).Live?
    ensures var c := Run(skip, InitConf(Request), Print(q)[..n]).c;
            c.hdr == HdrAt(q, n, 0) && c.peak == PeakAt(q, n, 0) && (|Head(q)| <= n ==> !InHeader(c.r.state))
  {
    hide Run, Sendable, Print, Head;
    if n < |Head(q)| { var c := InHead(skip, q, n); } else { var c := PastHead(skip, q, n); }
  }

  // One byte more.
  lemma NextAt(skip: Skip, q: HttpRequest, n: nat, d: nat)
    requires Sendable(q) && (forall log :: !skip(log)) && n < |Print(q)|
    requires Run(skip, InitConf(Request), Print(q)[..n]).Live? && Run(skip, InitConf(Request), Print(q)[..n + 1]).Live?
    ensures Run(skip, At(skip, q, n, d), [Print(q)[n]]) == Live(At(skip, q, n + 1, d))
  {
    hide Run, Sendable, Print, Head;
    Reached(skip, q, n);
    Reached(skip, q, n + 1);
    HeadLength(q);
    var init, text := InitConf(Request), Print(q);
    assert text[..n] + [text[n]] == text[..n + 1];
    RunAppend(skip, init, text[..n], [text[n]]);
    var e, reset := ByteCounts(skip, Run(skip, init, text[..n]).c, text[n], HdrAt(q, n, d), PeakAt(q, n, d));
  }

  /** The run over any stretch of a printed request, with any number of bytes counted twice before it. */
  lemma {:induction false} StretchAt(skip: Skip, q: HttpRequest, n: nat, m: nat, d: nat)
    requires Sendable(q) && (forall log :: !skip(log)) && n <= m <= |Print(q)|
    ensures Run(skip, InitConf(Request), Print(q)[..n]).Live? && Run(skip, InitConf(Request), Print(q)[..m]).Live?
    ensures Run(skip, At(skip, q, n, d), Print(q)[n..m]) == Live(At(skip, q, m, d))
    decreases m
  {
    hide Run, Sendable, Print, Head, At;
    Reached(skip, q, n);
    Reached(skip, q, m);
    var text := Print(q);
    if n == m {
      assert text[n..m] == "";
      RunNothing(skip, At(skip, q, n, d));
    } else {
      StretchAt(skip, q, n, m - 1, d);
      NextAt(skip, q, m - 1, d);
      assert text[n..m - 1] + [text[m - 1]] == text[n..m];
      RunAppend(skip, At(skip, q, n, d), text[n..m - 1], [text[m - 1]]);
    }
  }

  // ---------- Pieces ----------

  // The number of pieces whose last byte is inside the name or value of a header, and not its first.
  function Doubles(skip: Skip, c: Conf, pieces: seq<string>): nat {
    if pieces == [] then 0
    else Doubles(skip, c, pieces[..|pieces| - 1]) + One(Doubled(skip, c, Concat(pieces)))
  }

  lemma DoublesNext(skip: Skip, c: Conf, pieces: seq<string>, i: nat)
    requires i < |pieces|
    ensures Doubles(skip, c, pieces[..i + 1]) ==
            Doubles(skip, c, pieces[..i]) + One(Doubled(skip, c, Concat(pieces[..i + 1])))
  {
    hide Run, Concat, Doubled;
    assert pieces[..i + 1][..i] == pieces[..i];
  }

  lemma {:induction false} DoublesGrow(skip: Skip, c: Conf, pieces: seq<string>, i: nat)
    requires i <= |pieces|
    ensures Doubles(skip, c, pieces[..i]) <= Doubles(skip, c, pieces)
    decreases |pieces| - i
  {
    hide Run, Concat, Doubles;
    if i == |pieces| {
      assert pieces[..i] == pieces;
    } else {
      DoublesNext(skip, c, pieces, i);
      DoublesGrow(skip, c, pieces, i + 1);
    }
  }

  // A piece is doubled in the session exactly if the text up to its end is.
  lemma DoubledAt(skip: Skip, q: HttpRequest, n: nat, m: nat, d: nat)
    requires Sendable(q) && (forall log :: !skip(log)) && n < m <= |Print(q)|
    requires Run(skip, InitConf(Request), Print(q)[..n]).Live?
    ensures Doubled(skip, At(skip, q, n, d), Print(q)[n..m]) <==> Doubled(skip, InitConf(Request), Print(q)[..m])
    ensures Doubled(skip, InitConf(Request), Print(q)[..m]) ==> m < |Head(q)|
  {
    hide Run, Sendable, Print, Head;
    StretchAt(skip, q, n, m, d);
    StretchAt(skip, q, n, m - 1, d);
    Reached(skip, q, m);
    var text := Print(q);
    assert text[n..m][..m - n - 1] == text[n..m - 1] && text[..m][..m - 1] == text[..m - 1];
  }
}
