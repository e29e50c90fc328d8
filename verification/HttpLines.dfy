/** Header sections: what is reported of a list of header lines, and what the parser takes from them. */
module HttpLines {
  import opened Bytes
  import opened HttpTypes
  import opened HttpSwitch
  import opened HttpRun
  import opened HttpHeaders
  import opened HttpLengths
  import opened HttpOptions

  type Headers = seq<(string, string)>

  function LinesText(ls: seq<Line>): string {
    if ls == [] then "" else LineText(ls[0]) + LinesText(ls[1..])
  }

  function HeadersOf(ls: seq<Line>): Headers {
    if ls == [] then [] else [HeaderOf(ls[0])] + HeadersOf(ls[1..])
  }

  function HeaderLog(hs: Headers): seq<Event> {
    if hs == [] then [] else [Data(Field, hs[0].0), Data(Value, hs[0].1)] + HeaderLog(hs[1..])
  }

  // ---------- What headers say ----------

  function ClassOf(h: (string, string)): Header {
    Classify(LowerToken(h.0))
  }

  /** The headers the parser acts on, by the names they have in the standard. */
  lemma NamesMeant(v: string)
    ensures ClassOf(("Content-Length", v)).ContentLength? && ClassOf(("Transfer-Encoding", v)).TransferEncoding?
    ensures ClassOf(("Connection", v)).Connection? && ClassOf(("Proxy-Connection", v)).Connection?
    ensures ClassOf(("Upgrade", v)).Upgrade? && ClassOf(("Host", v)).Plain?
    ensures WordOf(KeepAlive) == "keep-alive" && WordOf(Close) == "close" && WordOf(Upgrading) == "upgrade"
    ensures CHUNKED == "chunked"
  {
    LongNames();
    ShortNames();
    hide LowerToken;
  }

  lemma LongNames()
    ensures LowerToken("Content-Length") == "content-length" && LowerToken("Transfer-Encoding") == "transfer-encoding"
  {
  }

  lemma ShortNames()
    ensures LowerToken("Connection") == "connection" && LowerToken("Proxy-Connection") == "proxy-connection"
    ensures LowerToken("Upgrade") == "upgrade" && LowerToken("Host") == "host"
  {
  }

  // A length, which an empty Content-Length is not.
  predicate GivesLength(h: (string, string)) {
    ClassOf(h).ContentLength? && h.1 != ""
  }

  // The length in force after the headers: that of the last Content-Length.
  function LengthAfter(n: nat, hs: Headers): nat
    decreases |hs|
  {
    if hs == [] then n else LengthAfter(if GivesLength(hs[0]) then Decimal(0, hs[0].1) else n, hs[1..])
  }

  // The connection options a header sets, and those of a list of headers.
  function LineOptions(h: (string, string)): set<ConnectionOption> {
    if ClassOf(h).Connection? && h.1 != "" then Item(h.1) else {}
  }

  function HeaderOptions(hs: Headers): set<ConnectionOption> {
    if hs == [] then {} else LineOptions(hs[0]) + HeaderOptions(hs[1..])
  }

  predicate GivesChunked(h: (string, string)) {
    ClassOf(h).TransferEncoding? && h.1 != "" && IsChunked(h.1)
  }

  predicate GivesUpgrade(h: (string, string)) {
    ClassOf(h).Upgrade? && h.1 != ""
  }

  predicate SaysChunked(hs: Headers) {
    exists h :: h in hs && GivesChunked(h)
  }

  predicate SaysUpgrade(hs: Headers) {
    exists h :: h in hs && GivesUpgrade(h)
  }

  // The flags after the headers.
  function Told(f: Flags, hs: Headers): Flags {
    Set(f, HeaderOptions(hs)).(chunked := f.chunked || SaysChunked(hs), upgrade := f.upgrade || SaysUpgrade(hs))
  }

  // What headers change, and what they do not.
  predicate SameMessage(r: Regs, r': Regs, hs: Headers) {
    && r'.kind == r.kind && r'.state == r.state && r'.major == r.major && r'.minor == r.minor && r'.status == r.status
    && r'.method_ == r.method_ && r'.upgrade == r.upgrade && r'.flags == Told(r.flags, hs)
    && r'.length == LengthAfter(r.length, hs)
  }

  lemma ToldKeeps(f: Flags, hs: Headers)
    ensures var g := Told(f, hs); g.trailing == f.trailing && g.skipBody == f.skipBody && (f.chunked ==> g.chunked)
  {
    hide HeaderOptions, SaysChunked, SaysUpgrade;
  }

  lemma SaysMore(h: (string, string), more: Headers)
    ensures SaysChunked([h] + more) <==> GivesChunked(h) || SaysChunked(more)
    ensures SaysUpgrade([h] + more) <==> GivesUpgrade(h) || SaysUpgrade(more)
  {
    hide GivesChunked, GivesUpgrade;
    var hs := [h] + more;
    assert h in hs && forall x :: x in more ==> x in hs;
    assert forall x :: x in hs ==> x == h || x in more;
  }

  lemma SetOthers(f: Flags, a: set<ConnectionOption>, b: set<ConnectionOption>, g: Flags)
    requires g == Set(f, a).(chunked := g.chunked, upgrade := g.upgrade)
    ensures Set(g, b) == Set(Set(f, a), b).(chunked := g.chunked, upgrade := g.upgrade)
  {
  }

  lemma ToldNothing(r: Regs)
    ensures SameMessage(r, r, [])
  {
    SetTwice(r.flags, {}, {});
  }

  // ---------- One line ----------

  // A length is a number below the limit.
  predicate CleanLength(h: (string, string)) {
    GivesLength(h) ==> IsLength(h.1, Decimal(0, h.1))
  }

  predicate CleanHeader(h: (string, string)) {
    CleanLine(h.0, h.1) && CleanLength(h)
  }

  // A line with a good length, if any; the parser forgets what it has made of a value that goes on in a further
  // line, so that is for headers it makes nothing of.
  predicate Clean(l: Line) {
    WellWritten(l) && CleanLength(HeaderOf(l)) && (l.folds != [] ==> ClassOf(HeaderOf(l)).Plain?)
  }

  // What the registers at the end of a value mean for the message.
  predicate Leaves(r: Regs, o: Option<Regs>, h: (string, string)) {
    o.Some? && SameMessage(r.(state := HeaderFieldStart), Closed(o.value), [h])
  }

  lemma OneHeader(h: (string, string), n: nat, f: Flags)
    ensures LengthAfter(n, [h]) == if GivesLength(h) then Decimal(0, h.1) else n
    ensures Told(f, [h]) ==
            Set(f, LineOptions(h)).(chunked := f.chunked || GivesChunked(h), upgrade := f.upgrade || GivesUpgrade(h))
  {
    hide GivesChunked, GivesUpgrade, GivesLength, LineOptions, Decimal, Set;
    SaysMore(h, []);
    assert [h] + [] == [h] && [h][1..] == [];
    assert HeaderOptions([h]) == LineOptions(h) + {} == LineOptions(h);
    assert !SaysChunked([]) && !SaysUpgrade([]);
  }

  lemma ToldTwice(r: Regs, r1: Regs, r2: Regs, h: (string, string), more: Headers)
    requires SameMessage(r, r1, [h]) && SameMessage(r1, r2, more)
    ensures SameMessage(r, r2, [h] + more)
  {
    hide GivesChunked, GivesUpgrade, GivesLength, LineOptions, Decimal, Set, SaysChunked, SaysUpgrade;
    var hs := [h] + more;
    assert hs[1..] == more;
    OneHeader(h, r.length, r.flags);
    SaysMore(h, more);
    SetTwice(r.flags, LineOptions(h), HeaderOptions(more));
    assert LineOptions(h) + HeaderOptions(more) == HeaderOptions(hs);
    SetOthers(r.flags, LineOptions(h), HeaderOptions(more), r1.flags);
  }

  lemma LengthLeaves(r: Regs, h: (string, string))
    requires h.1 != "" && r.hstate == HContentLength && ClassOf(h).ContentLength? && CleanLength(h)
    ensures Leaves(r, WholeValue(r, h.1), h)
  {
    hide IsLength, Lower, ValueStart, ValueFold, Set, WholeValue, ClassOf;
    OneHeader(h, r.length, r.flags);
    SetTwice(r.flags, {}, {});
    LengthOnly(r, h.1);
  }

  // A length value changes the length only.
  lemma LengthOnly(r: Regs, v: string)
    requires v != "" && r.hstate == HContentLength && IsLength(v, Decimal(0, v))
    ensures WholeValue(r, v) == Some(r.(state := HeaderValue, index := 0, length := Decimal(0, v)))
  {
    var r' := r.(state := HeaderValue, index := 0, length := Digit(v[0]));
    assert forall i :: 0 < i < |v| ==> v[i] == v[1..][i - 1];
    ContentLengthFold(r', v[1..]);
  }

  lemma ConnectionLeaves(r: Regs, h: (string, string))
    requires h.1 != "" && r.hstate == Name(HConnection) && ClassOf(h).Connection?
    ensures Leaves(r, WholeValue(r, h.1), h)
  {
    hide ValueFlags, Item, WholeValue, ClassOf;
    OneHeader(h, r.length, r.flags);
    ConnectionExact(r, h.1);
    SetKeeps(r.flags, Item(h.1));
  }

  lemma SetKeeps(f: Flags, options: set<ConnectionOption>)
    ensures Set(f, options) == Set(f, options).(chunked := f.chunked, upgrade := f.upgrade)
  {
  }

  lemma EncodingLeaves(r: Regs, h: (string, string))
    requires h.1 != "" && r.hstate == Name(HTransferEncoding) && ClassOf(h).TransferEncoding?
    ensures Leaves(r, WholeValue(r, h.1), h)
  {
    hide ValueFlags, Set, WholeValue, ClassOf, IsChunked;
    OneHeader(h, r.length, r.flags);
    SetTwice(r.flags, {}, {});
    ChunkedExact(r, h.1);
  }

  lemma UpgradeLeaves(r: Regs, h: (string, string))
    requires h.1 != "" && r.hstate == Name(HUpgrade) && ClassOf(h).Upgrade?
    ensures Leaves(r, WholeValue(r, h.1), h)
  {
    hide ClassOf, Set, ValueFold, Lower;
    OneHeader(h, r.length, r.flags);
    SetTwice(r.flags, {}, {});
    PlainFold(ValueStart(r, h.1[0]).r, h.1[1..]);
  }

  lemma PlainValue(r: Regs, value: string)
    requires value != "" && (r.hstate == General || (HeaderClass(r.hstate).Plain? && !r.hstate.Val?))
    ensures WholeValue(r, value) == Some(r.(state := HeaderValue, index := 0, hstate := General))
  {
    hide Lower, ValueFold;
    PlainFold(ValueStart(r, value[0]).r, value[1..]);
  }

  // A value that goes on, of a header the parser makes nothing of.
  lemma {:induction false} PlainFolds(r: Regs, folds: seq<Fold>)
    requires r.state == HeaderValue && r.hstate == General && r.index == 0 && forall f :: f in folds ==> GoodFold(f)
    ensures FoldsOutcome(r, folds) == Some(r)
    decreases |folds|
  {
    hide WholeValue, GoodFold;
    if folds != [] {
      assert GoodFold(folds[0]);
      FoldParts(folds[0]);
      PlainValue(r, folds[0].text);
      PlainFolds(r, folds[1..]);
    }
  }

  lemma PlainLeaves(r: Regs, l: Line)
    requires WellWritten(l) && l.value != "" && HeaderClass(NameEnd(l.name).0).Plain? && ClassOf(HeaderOf(l)).Plain?
    ensures Leaves(r, LineOutcome(r, l), HeaderOf(l))
  {
    hide ClassOf, Set, WholeValue, GoodFold, NameEnd, FoldsOutcome;
    OneHeader(HeaderOf(l), r.length, r.flags);
    SetTwice(r.flags, {}, {});
    NameExact(l.name);
    PlainValue(AfterName(r, l.name), l.value);
    PlainFolds(AfterName(r, l.name).(state := HeaderValue, index := 0, hstate := General), l.folds);
  }

  lemma EmptyLeaves(r: Regs, l: Line)
    requires WellWritten(l) && l.value == ""
    ensures Leaves(r, LineOutcome(r, l), HeaderOf(l))
  {
    hide ClassOf, NameEnd, Set;
    NoFolds(l.folds, "");
    assert HeaderOf(l).1 == "";
    OneHeader(HeaderOf(l), r.length, r.flags);
    SetTwice(r.flags, {}, {});
    NameExact(l.name);
  }

  lemma UnfoldedLine(l: Line)
    requires WellWritten(l) && l.folds == []
    ensures HeaderOf(l) == (l.name, l.value)
    ensures forall r :: l.value != "" ==> LineOutcome(r, l) == WholeValue(AfterName(r, l.name), l.value)
  {
    hide WholeValue, NameEnd;
    NoFolds(l.folds, "");
    assert l.value + "" == l.value;
  }

  // What a clean line does to the message.
  lemma LineEffect(r: Regs, l: Line)
    requires r.state == HeaderFieldStart && Clean(l)
    ensures Leaves(r, LineOutcome(r, l), HeaderOf(l))
  {
    hide NameEnd, AllTokens, Classify, Leaves, WholeValue, LineOutcome, CleanLength, FoldsOutcome, HeaderClass;
    var h, start := HeaderOf(l), AfterName(r, l.name);
    NameExact(l.name);
    if l.value == "" {
      EmptyLeaves(r, l);
    } else if ClassOf(h).Plain? {
      PlainLeaves(r, l);
    } else {
      UnfoldedLine(l);
      SpecialEffect(r, l);
    }
  }

  lemma SpecialEffect(r: Regs, l: Line)
    requires r.state == HeaderFieldStart && Clean(l) && l.value != "" && l.folds == [] && HeaderOf(l) == (l.name, l.value)
    requires !ClassOf(HeaderOf(l)).Plain?
    ensures Leaves(r, WholeValue(AfterName(r, l.name), l.value), HeaderOf(l))
  {
    hide NameEnd, AllTokens, Classify, WholeValue, CleanLength, Told;
    var h, start := HeaderOf(l), AfterName(r, l.name);
    NameExact(l.name);
    match HeaderClass(start.hstate)
    case ContentLength => LengthLeaves(start, h);
    case Connection => ConnectionLeaves(start, h);
    case TransferEncoding => EncodingLeaves(start, h);
    case Upgrade => UpgradeLeaves(start, h);
  }

  predicate AtHeader(c: Conf) {
    c.r.state == HeaderFieldStart && !EndsWith(c.log, Field) && c.hdr <= c.peak
  }

  // One clean header line.
  lemma CleanRun(skip: Skip, c: Conf, l: Line, rest: string) returns (c': Conf)
    requires AtHeader(c) && Clean(l) && rest != "" && !IsBlank(rest[0])
    ensures Run(skip, c, LineText(l) + rest) == Run(skip, c', rest)
    ensures SameMessage(c.r, c'.r, [HeaderOf(l)])
    ensures c' == Spent(c, c'.r, c.log + [Data(Field, HeaderOf(l).0), Data(Value, HeaderOf(l).1)], |LineText(l)|)
    ensures AtHeader(c')
  {
    hide Run, LineOutcome, LineText, EndsWith, Told, LengthAfter, ValueFlags, WellWritten, CleanLength;
    LineEffect(c.r, l);
    LineRun(skip, c, l, rest);
    var r := LineOutcome(c.r, l).value;
    assert c.r.(state := HeaderFieldStart) == c.r;
    c' := Spent(c, Closed(r), c.log + [Data(Field, HeaderOf(l).0), Data(Value, HeaderOf(l).1)], |LineText(l)|);
    LogEnd(c.log, HeaderOf(l));
  }

  lemma LogEnd(log: seq<Event>, h: (string, string))
    ensures !EndsWith(log + [Data(Field, h.0), Data(Value, h.1)], Field)
  {
  }

  // ---------- Lists of lines ----------

  /**
   A header section, in any writing: the headers are reported in order, the last Content-Length gives the length, and
   exactly what the values say is kept.
   */
  lemma {:induction false} LinesRun(skip: Skip, c: Conf, ls: seq<Line>, rest: string) returns (c': Conf)
    requires AtHeader(c) && (forall l :: l in ls ==> Clean(l)) && rest != "" && !IsBlank(rest[0])
    ensures LeadsTo(skip, c, LinesText(ls) + rest, c', rest)
    ensures SameMessage(c.r, c'.r, HeadersOf(ls)) && AtHeader(c')
    ensures c' == Spent(c, c'.r, c.log + HeaderLog(HeadersOf(ls)), |LinesText(ls)|)
    decreases |ls|
  {
    hide Run, Clean, LineText, AtHeader, Spent, SameMessage, LinesText, HeaderLog, HeadersOf, HeaderOf;
    if ls == [] {
      NoLines(c, ls, rest);
      c' := c;
    } else {
      var l, more := ls[0], ls[1..];
      assert l in ls && forall x :: x in more ==> x in ls;
      NotBlank(more, rest);
      LinesParts(c.log, ls, rest);
      var c1 := CleanRun(skip, c, l, LinesText(more) + rest);
      c' := LinesRun(skip, c1, more, rest);
      var log1 := c.log + [Data(Field, HeaderOf(l).0), Data(Value, HeaderOf(l).1)];
      SpentTwice(c, c1.r, c1.log, |LineText(l)|, c'.r, c'.log, |LinesText(more)|);
      SpentLog(c, c1.r, log1, |LineText(l)|);
      SpentLog(c1, c'.r, c1.log + HeaderLog(HeadersOf(more)), |LinesText(more)|);
      ToldTwice(c.r, c1.r, c'.r, HeaderOf(l), HeadersOf(more));
    }
  }

  lemma NoLines(c: Conf, ls: seq<Line>, rest: string)
    requires ls == [] && AtHeader(c)
    ensures LinesText(ls) + rest == rest && c == Spent(c, c.r, c.log + HeaderLog(HeadersOf(ls)), |LinesText(ls)|)
    ensures SameMessage(c.r, c.r, HeadersOf(ls))
  {
    assert c.log + HeaderLog(HeadersOf(ls)) == c.log;
    ToldNothing(c.r);
  }

  lemma LinesParts(log: seq<Event>, ls: seq<Line>, rest: string)
    requires ls != []
    ensures LinesText(ls) + rest == LineText(ls[0]) + (LinesText(ls[1..]) + rest)
    ensures |LinesText(ls)| == |LineText(ls[0])| + |LinesText(ls[1..])|
    ensures HeadersOf(ls) == [HeaderOf(ls[0])] + HeadersOf(ls[1..])
    ensures var h := HeaderOf(ls[0]);
            log + [Data(Field, h.0), Data(Value, h.1)] + HeaderLog(HeadersOf(ls[1..])) == log + HeaderLog(HeadersOf(ls))
  {
    hide LineText, HeaderOf;
    Regroup(LineText(ls[0]), LinesText(ls[1..]), rest);
    var h := HeaderOf(ls[0]);
    assert HeadersOf(ls)[1..] == HeadersOf(ls[1..]);
    Regroup(log, [Data(Field, h.0), Data(Value, h.1)], HeaderLog(HeadersOf(ls[1..])));
  }

  lemma SpentLog(c: Conf, r: Regs, log: seq<Event>, n: nat)
    ensures Spent(c, r, log, n).log == log
  {
  }

  // What follows a header line is no continuation line.
  lemma NotBlank(ls: seq<Line>, rest: string)
    requires (forall l :: l in ls ==> Clean(l)) && rest != "" && !IsBlank(rest[0])
    ensures var tail := LinesText(ls) + rest; tail != "" && !IsBlank(tail[0])
  {
    if ls != [] {
      assert Clean(ls[0]);
      TokenNotLineEnd(ls[0].name[0]);
    }
  }

  // ---------- Values that are refused, and values that are forgotten ----------

  lemma NoLength(r: Regs, v: string)
    requires v != "" && r.hstate == HContentLength
    ensures WholeValue(r, v).Some? <==> IsLength(v, Decimal(0, v))
    ensures WholeValue(r, v).Some? ==> WholeValue(r, v).value.hstate == HContentLength
  {
    hide WholeValue, Decimal;
    ContentLengthExact(r, v);
    if n :| IsLength(v, n) { assert n == Decimal(0, v); }
    if IsLength(v, Decimal(0, v)) { LengthOnly(r, v); }
  }

  // A length does not go on in a further line: that begins with a blank, and not with a digit.
  lemma LengthFolds(r: Regs, folds: seq<Fold>)
    requires r.hstate == HContentLength && forall f :: f in folds ==> GoodFold(f)
    ensures FoldsOutcome(r, folds).Some? <==> folds == []
  {
    if folds != [] {
      assert GoodFold(folds[0]);
      assert !IsNum(folds[0].text[0]);
    }
  }

  /** A Content-Length with a value is accepted exactly if it is one number below the limit, in one line. */
  lemma LengthLine(skip: Skip, c: Conf, l: Line, rest: string)
    requires AtHeader(c) && WellWritten(l) && rest != "" && !IsBlank(rest[0])
    requires ClassOf(HeaderOf(l)).ContentLength? && l.value != ""
    ensures var res := Run(skip, c, LineText(l) + rest);
            if l.folds == [] && IsLength(l.value, Decimal(0, l.value)) then
              Run(skip, c, LineText(l) + rest) ==
              Run(skip, Spent(c, c.r.(state := HeaderFieldStart, hstate := HContentLength, index := 0,
                                      length := Decimal(0, l.value)),
                              c.log + [Data(Field, l.name), Data(Value, l.value)], |LineText(l)|), rest)
            else res.Failed? && res.e == InvalidContentLength
  {
    hide Run, LineText, NameEnd, WholeValue, AllTokens, Decimal, Classify, EndsWith, IsGap, Unfolded, FoldsText, FoldsOutcome;
    NameExact(l.name);
    LineRun(skip, c, l, rest);
    var start := AfterName(c.r, l.name);
    LengthName(start);
    NoLength(start, l.value);
    if IsLength(l.value, Decimal(0, l.value)) {
      LengthOnly(start, l.value);
      LengthFolds(WholeValue(start, l.value).value, l.folds);
      if l.folds == [] { UnfoldedLine(l); }
    }
  }

  lemma LengthName(r: Regs)
    requires HeaderClass(r.hstate).ContentLength?
    ensures r.hstate == HContentLength
  {
  }

  predicate InEncoding(h: HeaderState) {
    h == General || h == Val(MatchingChunked) || h == Val(HChunked)
  }

  lemma {:induction false} EncodingFold(r: Regs, w: string)
    requires r.state == HeaderValue && InEncoding(r.hstate)
    ensures ValueFold(r, w).Some? && InEncoding(ValueFold(r, w).value.hstate)
    ensures var r' := ValueFold(r, w).value; r' == r.(hstate := r'.hstate, index := r'.index)
    decreases |w|
  {
    hide Lower;
    if w != "" { EncodingFold(ValueByte(r, w[0]).r, w[1..]); }
  }

  // After any value in it, a continuation line leaves nothing to match.
  lemma {:induction false} EncodingFolds(r: Regs, folds: seq<Fold>)
    requires r.state == HeaderValue && InEncoding(r.hstate) && folds != [] && forall f :: f in folds ==> GoodFold(f)
    ensures FoldsOutcome(r, folds).Some?
    ensures FoldsOutcome(r, folds).value == r.(hstate := General, index := 0)
    decreases |folds|
  {
    var text := folds[0].text;
    assert GoodFold(folds[0]);
    FoldParts(folds[0]);
    var o := ValueStart(r, text[0]);
    assert o.Move? && o.r == r.(hstate := General, index := 0);
    PlainFold(o.r, text[1..]);
    if |folds| > 1 { EncodingFolds(o.r, folds[1..]); }
  }

  /**
   A Transfer-Encoding that goes on in a further line is forgotten, even if it says `chunked` and the further line
   is blank.
   */
  lemma FoldForgets(r: Regs, l: Line)
    requires WellWritten(l) && l.value != "" && l.folds != [] && ClassOf(HeaderOf(l)).TransferEncoding?
    ensures LineOutcome(r, l).Some? && Closed(LineOutcome(r, l).value).flags == r.flags
    ensures GivesChunked(("Transfer-Encoding", "chunked "))
  {
    hide NameEnd, ValueFold, Lower, AllTokens, Classify, FoldsOutcome;
    NameExact(l.name);
    var start := AfterName(r, l.name);
    EncodingName(start);
    var o := ValueStart(start, l.value[0]);
    EncodingFold(o.r, l.value[1..]);
    EncodingFolds(ValueFold(o.r, l.value[1..]).value, l.folds);
    BlankChunked();
  }

  lemma EncodingName(r: Regs)
    requires HeaderClass(r.hstate).TransferEncoding?
    ensures r.hstate == Name(HTransferEncoding)
  {
  }

  lemma BlankChunked()
    ensures GivesChunked(("Transfer-Encoding", "chunked "))
  {
    assert LowerToken("Transfer-Encoding") == TRANSFER_ENCODING;
    CommonChunked();
    assert "chunked "[7..] == " " && " "[1..] == "";
  }

  lemma CommonChunked()
    ensures Common("chunked ", CHUNKED) == 7
  {
    assert "chunked "[1..] == "hunked " && "hunked "[1..] == "unked " && "unked "[1..] == "nked ";
    assert "nked "[1..] == "ked " && "ked "[1..] == "ed " && "ed "[1..] == "d ";
    assert CHUNKED[1..] == "hunked" && "hunked"[1..] == "unked" && "unked"[1..] == "nked";
    assert "nked"[1..] == "ked" && "ked"[1..] == "ed" && "ed"[1..] == "d" && "d"[1..] == "";
    assert Common("ed ", "ed") == 2 && Common("unked ", "unked") == 5;
  }

  // ---------- Headers as they are printed ----------

  function PrintHeaders(hs: Headers): string {
    if hs == [] then "" else HeaderLine(hs[0].0, hs[0].1) + PrintHeaders(hs[1..])
  }

  function WrittenLines(hs: Headers): seq<Line> {
    if hs == [] then [] else [Written(hs[0].0, hs[0].1)] + WrittenLines(hs[1..])
  }

  lemma {:induction false} WrittenHeaders(hs: Headers)
    requires forall h :: h in hs ==> CleanHeader(h)
    ensures LinesText(WrittenLines(hs)) == PrintHeaders(hs) && HeadersOf(WrittenLines(hs)) == hs
    ensures forall l :: l in WrittenLines(hs) ==> Clean(l)
    decreases |hs|
  {
    hide HeaderLine, LineText, CleanLine, CleanLength, WellWritten, Written, HeaderOf;
    if hs != [] {
      var h := hs[0];
      assert CleanHeader(h);
      WrittenText(h.0, h.1);
      WrittenPlainly(h);
      WrittenHeaders(hs[1..]);
      assert WrittenLines(hs)[1..] == WrittenLines(hs[1..]);
    }
  }

  lemma WrittenPlainly(h: (string, string))
    ensures Written(h.0, h.1).folds == []
  {
  }

  /** A list of clean header lines is reported in order, and sets the length and exactly the options of the values. */
  lemma HeadersRun(skip: Skip, c: Conf, hs: Headers, rest: string) returns (c': Conf)
    requires AtHeader(c) && (forall h :: h in hs ==> CleanHeader(h)) && rest != "" && !IsBlank(rest[0])
    ensures LeadsTo(skip, c, PrintHeaders(hs) + rest, c', rest)
    ensures SameMessage(c.r, c'.r, hs) && AtHeader(c')
    ensures c' == Spent(c, c'.r, c.log + HeaderLog(hs), |PrintHeaders(hs)|)
  {
    hide *;
    WrittenHeaders(hs);
    c' := LinesRun(skip, c, WrittenLines(hs), rest);
  }
}
