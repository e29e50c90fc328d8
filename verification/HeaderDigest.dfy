/**
 What the callbacks of iotjs_module_httpparser.c and http_common.js should make of the events of the
 parser: a digest that knows no header slots, and what it says about headers and targets.
 */
module HeaderDigest {
  import opened HttpTypes
  import opened HttpSwitch
  import opened HttpRun
  import opened HttpGrammar
  import opened HttpLines
  import opened HttpStart
  import opened HttpChunked
  import opened HttpMessages
  import opened HttpRequests

  const HEADER_MAX: nat := 10

  // ---------- What the events say ----------

  // A message: `url` is its own target, `carried` what earlier messages left in front of it.
  datatype Message = Message(carried: string, url: string, headers: Headers, body: string, ends: nat)

  // The headers since the last headers-complete, the name of one still without a value, and the messages so far.
  // `flushed` says that ten headers have come without a headers-complete; `late`, that they had come when the
  // current message began.
  datatype Digest = Digest(headers: Headers, name: Option<string>, carried: string, url: string, late: bool,
                           flushed: bool, messages: seq<Message>)

  const NOTHING := Digest([], None, "", "", false, false, [])

  function Last(ms: seq<Message>, body: string, ends: nat): seq<Message> {
    if ms == [] then []
    else var m := ms[|ms| - 1]; ms[..|ms| - 1] + [m.(body := m.body + body, ends := m.ends + ends)]
  }

  function AddValue(hs: Headers, v: string): (r: Headers)
    ensures |r| == |hs|
  {
    if hs == [] then [] else var h := hs[|hs| - 1]; hs[..|hs| - 1] + [(h.0, h.1 + v)]
  }

  function Next(d: Digest, e: Event): Digest {
    match e
    case Begin => d.(carried := if d.flushed then d.carried + d.url else "", url := "", late := d.flushed)
    case HeadersComplete =>
      d.(messages := d.messages + [Message(d.carried, d.url, d.headers, "", 0)], headers := [], name := None)
    case Complete => d.(messages := Last(d.messages, "", 1))
    case Data(Url, b) => d.(url := d.url + b)
    case Data(Body, b) => d.(messages := Last(d.messages, b, 0))
    case Data(Field, b) =>
      if d.name.Some? then d.(name := Some(d.name.value + b))
      else d.(name := Some(b), flushed := d.flushed || |d.headers| + 1 >= HEADER_MAX)
    case Data(Value, b) =>
      if d.name.Some? then d.(headers := d.headers + [(d.name.value, b)], name := None)
      else d.(headers := AddValue(d.headers, b))
    case _ => d
  }

  function DigestOf(events: seq<Event>): Digest {
    if events == [] then NOTHING else Next(DigestOf(events[..|events| - 1]), events[|events| - 1])
  }

  lemma DigestSnoc(events: seq<Event>, e: Event)
    ensures DigestOf(events + [e]) == Next(DigestOf(events), e)
  {
    assert (events + [e])[..|events|] == events;
  }

  lemma LastTwice(ms: seq<Message>, a: string, b: string)
    ensures Last(Last(ms, a, 0), b, 0) == Last(ms, a + b, 0)
  {
    if ms != [] {
      var m := ms[|ms| - 1];
      var one := Last(ms, a, 0);
      assert one[..|one| - 1] == ms[..|ms| - 1];
      assert m.body + a + b == m.body + (a + b);
    }
  }

  lemma AddValueTwice(hs: Headers, a: string, b: string)
    ensures AddValue(AddValue(hs, a), b) == AddValue(hs, a + b)
  {
    if hs != [] {
      var one := AddValue(hs, a);
      assert one[..|one| - 1] == hs[..|hs| - 1];
      assert hs[|hs| - 1].1 + a + b == hs[|hs| - 1].1 + (a + b);
    }
  }

  lemma AddValueLast(hs: Headers, n: string, a: string, b: string)
    ensures AddValue(hs + [(n, a)], b) == hs + [(n, a + b)]
  {
    assert (hs + [(n, a)])[..|hs|] == hs;
  }

  // Two data events in a row say what one says.
  lemma NextTwice(d: Digest, k: Kind, a: string, b: string)
    ensures Next(Next(d, Data(k, a)), Data(k, b)) == Next(d, Data(k, a + b))
  {
    match k
    case Url => assert d.url + a + b == d.url + (a + b);
    case Status =>
    case Body => LastTwice(d.messages, a, b);
    case Field => if d.name.Some? { assert d.name.value + a + b == d.name.value + (a + b); }
    case Value => if d.name.Some? { AddValueLast(d.headers, d.name.value, a, b); } else { AddValueTwice(d.headers, a, b); }
  }

  /** However the data is cut into events, they say the same. */
  lemma {:induction false} DigestCoalesced(events: seq<Event>)
    ensures DigestOf(Coalesce(events)) == DigestOf(events)
  {
    if events != [] {
      var front, e := events[..|events| - 1], events[|events| - 1];
      DigestCoalesced(front);
      var log := Coalesce(front);
      if e.Data? && EndsWith(log, e.kind) {
        var before := log[..|log| - 1];
        NextTwice(DigestOf(before), e.kind, log[|log| - 1].bytes, e.bytes);
        DigestSnoc(before, Data(e.kind, log[|log| - 1].bytes + e.bytes));
      } else {
        DigestSnoc(log, e);
      }
    }
  }

  // ---------- What JavaScript gets ----------

  // A header list as an array of names and values in turn.
  function Flat(hs: Headers): (a: seq<string>)
    ensures |a| == 2 * |hs|
  {
    if hs == [] then [] else Flat(hs[..|hs| - 1]) + [hs[|hs| - 1].0, hs[|hs| - 1].1]
  }

  lemma FlatSnoc(hs: Headers, n: string, v: string)
    ensures Flat(hs + [(n, v)]) == Flat(hs) + [n, v]
  {
    assert (hs + [(n, v)])[..|hs|] == hs;
  }

  lemma {:induction false} FlatAppend(a: Headers, b: Headers)
    ensures Flat(a + b) == Flat(a) + Flat(b)
    decreases |b|
  {
    if b == [] {
      assert a + b == a;
    } else {
      var front := b[..|b| - 1];
      assert a + b == a + front + [b[|b| - 1]] && b == front + [b[|b| - 1]];
      FlatAppend(a, front);
      FlatSnoc(a + front, b[|b| - 1].0, b[|b| - 1].1);
    }
  }

  // The headers as an object: the last value of a name is the one that stays.
  function Object(hs: Headers): map<string, string> {
    if hs == [] then map[] else Object(hs[..|hs| - 1])[hs[|hs| - 1].0 := hs[|hs| - 1].1]
  }

  // The header at `i` is the last of its name.
  predicate LastNamed(hs: Headers, i: nat) {
    i < |hs| && forall j :: i < j < |hs| ==> hs[j].0 != hs[i].0
  }

  predicate Names(hs: Headers, name: string) {
    exists i :: 0 <= i < |hs| && hs[i].0 == name
  }

  lemma {:induction false} KeysExact(hs: Headers, name: string)
    ensures name in Object(hs) <==> Names(hs, name)
    decreases |hs|
  {
    if hs != [] {
      var front, last := hs[..|hs| - 1], hs[|hs| - 1];
      KeysExact(front, name);
      if Names(front, name) {
        var i :| 0 <= i < |front| && front[i].0 == name;
        assert hs[i].0 == name;
      }
      if Names(hs, name) && name != last.0 {
        var i :| 0 <= i < |hs| && hs[i].0 == name;
        assert front[i].0 == name;
      }
    }
  }

  lemma {:induction false} LastStays(hs: Headers, i: nat)
    requires LastNamed(hs, i)
    ensures hs[i].0 in Object(hs) && Object(hs)[hs[i].0] == hs[i].1
    decreases |hs|
  {
    if i < |hs| - 1 {
      var front := hs[..|hs| - 1];
      assert LastNamed(front, i) && hs[|hs| - 1].0 != hs[i].0;
      LastStays(front, i);
    }
  }

  /** The object has exactly the names of the headers, each with the value it comes with last. */
  lemma ObjectExact(hs: Headers)
    ensures forall name :: name in Object(hs) <==> Names(hs, name)
    ensures forall i: nat :: LastNamed(hs, i) ==> hs[i].0 in Object(hs) && Object(hs)[hs[i].0] == hs[i].1
  {
    hide Object, Names, LastNamed;
    forall name ensures name in Object(hs) <==> Names(hs, name) { KeysExact(hs, name); }
    forall i: nat | LastNamed(hs, i) ensures i < |hs| && hs[i].0 in Object(hs) && Object(hs)[hs[i].0] == hs[i].1 {
      assert i < |hs| by { InBounds(hs, i); }
      LastStays(hs, i);
    }
  }

  lemma InBounds(hs: Headers, i: nat)
    requires LastNamed(hs, i)
    ensures i < |hs|
  {
  }

  // IncomingMessage: `list` is the argument of addHeaders, `body` what was pushed, `ends` how often null was pushed.
  datatype Incoming = Incoming(url: string, list: seq<string>, headers: map<string, string>, body: string, ends: nat)

  function Delivered(m: Message): Incoming {
    Incoming(m.carried + m.url, Flat(m.headers), Object(m.headers), m.body, m.ends)
  }

  lemma FlatAt(hs: Headers, i: nat)
    requires i < |hs|
    ensures Flat(hs)[2 * i] == hs[i].0 && Flat(hs)[2 * i + 1] == hs[i].1
  {
    if i < |hs| - 1 { FlatAt(hs[..|hs| - 1], i); }
  }

  // Appending to the value in the last slot.
  lemma LastSlot(a: seq<string>, n: string, v: string, hs: Headers, at: string)
    requires a + [n, v] == Flat(hs)
    ensures a + [n, v + at] == Flat(AddValue(hs, at))
  {
    hide Flat;
    var front, h := hs[..|hs| - 1], hs[|hs| - 1];
    assert hs == front + [(h.0, h.1)];
    FlatSnoc(front, h.0, h.1);
    FlatSnoc(front, h.0, h.1 + at);
    SameEnds(a, n, v, Flat(front), h.0, h.1);
  }

  lemma SameEnds(a: seq<string>, x: string, y: string, b: seq<string>, u: string, v: string)
    requires a + [x, y] == b + [u, v]
    ensures a == b && x == u && y == v
  {
    var s := a + [x, y];
    assert |a| == |b| && s[|a|] == x && s[|a| + 1] == y && s[|b|] == u && s[|b| + 1] == v;
    assert s[..|a|] == a && s[..|b|] == b;
  }

  // ---------- What the grammar adds ----------

  // The phase after one more callback; unlike a whole data run, a piece of one may be empty.
  function Step(kind: ParserType, ph: Phase, e: Event): Phase {
    NextPhase(kind, ph, if e.Data? then Byte(e.kind) else Note(e))
  }

  function PiecePhase(kind: ParserType, events: seq<Event>): Phase {
    if events == [] then Idle else Step(kind, PiecePhase(kind, events[..|events| - 1]), events[|events| - 1])
  }

  lemma PieceSnoc(kind: ParserType, events: seq<Event>, e: Event)
    ensures PiecePhase(kind, events + [e]) == Step(kind, PiecePhase(kind, events), e)
  {
    assert (events + [e])[..|events|] == events;
  }

  lemma StepTwice(kind: ParserType, ph: Phase, k: Kind, a: string, b: string)
    ensures Step(kind, Step(kind, ph, Data(k, a)), Data(k, b)) == Step(kind, ph, Data(k, a + b))
  {
  }

  lemma StepBad(kind: ParserType, e: Event)
    ensures Step(kind, Bad, e) == Bad
  {
  }

  // A whole run where one is allowed.
  lemma StepRun(kind: ParserType, log: seq<Event>, e: Event)
    requires PhaseOf(kind, log) != Bad && Advanced(kind, PhaseOf(kind, log), e) != Bad
    ensures Step(kind, PhaseOf(kind, log), e) == Advanced(kind, PhaseOf(kind, log), e)
  {
    hide PhaseOf;
  }

  /** The pieces of a good log follow the grammar of pieces. */
  lemma {:induction false} GoodPieces(kind: ParserType, log: seq<Event>)
    requires PhaseOf(kind, log) != Bad
    ensures PiecePhase(kind, log) == PhaseOf(kind, log)
  {
    if log != [] {
      GoodPieces(kind, log[..|log| - 1]);
      StepRun(kind, log[..|log| - 1], log[|log| - 1]);
    }
  }

  lemma {:induction false} PiecesCoalesced(kind: ParserType, events: seq<Event>)
    ensures PiecePhase(kind, Coalesce(events)) == PiecePhase(kind, events)
  {
    if events != [] {
      var front, e := events[..|events| - 1], events[|events| - 1];
      PiecesCoalesced(kind, front);
      var log := Coalesce(front);
      if e.Data? && EndsWith(log, e.kind) {
        var before := log[..|log| - 1];
        StepTwice(kind, PiecePhase(kind, before), e.kind, log[|log| - 1].bytes, e.bytes);
        PieceSnoc(kind, before, Data(e.kind, log[|log| - 1].bytes + e.bytes));
      } else {
        PieceSnoc(kind, log, e);
      }
    }
  }

  predicate InHead(ph: Phase) {
    ph.Line? || ph.Named? || ph.Valued?
  }

  // What the digest of pieces in phase `ph` looks like.
  predicate Suits(kind: ParserType, ph: Phase, d: Digest) {
    && ph != Bad
    && (d.name.Some? <==> ph.Named? || ph.TrailerNamed?)
    && (ph.Valued? || ph.TrailerValued? ==> d.headers != [])
    && (kind == Response ==> d.url == "" && d.carried == "")
    && (ph.Idle? || ph.Begun? || InHead(ph) || d.messages != [])
  }

  lemma SuitsStep(kind: ParserType, ph: Phase, d: Digest, e: Event)
    requires kind != Both && Suits(kind, ph, d) && Step(kind, ph, e) != Bad
    ensures Suits(kind, Step(kind, ph, e), Next(d, e))
  {
    if e.Data? { SuitsData(kind, ph, d, e); } else { SuitsNote(kind, ph, d, e); }
  }

  lemma SuitsData(kind: ParserType, ph: Phase, d: Digest, e: Event)
    requires kind != Both && Suits(kind, ph, d) && Step(kind, ph, e) != Bad && e.Data?
    ensures Suits(kind, Step(kind, ph, e), Next(d, e))
  {
  }

  lemma SuitsNote(kind: ParserType, ph: Phase, d: Digest, e: Event)
    requires kind != Both && Suits(kind, ph, d) && Step(kind, ph, e) != Bad && !e.Data?
    ensures Suits(kind, Step(kind, ph, e), Next(d, e))
  {
  }

  // What the digest of a good log of requests says about targets.
  predicate TargetsFit(ph: Phase, d: Digest) {
    && (!ph.Idle? && !ph.Begun? ==> d.url != "")
    && (ph.Idle? && d.messages != [] ==> d.url != "")
    && (ph.Idle? && d.messages == [] ==> !d.flushed)
    && (d.flushed ==> d.carried + d.url != "")
    && (d.late <==> d.carried != "") && (d.late ==> d.flushed)
  }

  lemma TargetsStep(ph: Phase, d: Digest, e: Event)
    requires Suits(Request, ph, d) && TargetsFit(ph, d) && Advanced(Request, ph, e) != Bad
    ensures TargetsFit(Advanced(Request, ph, e), Next(d, e))
  {
  }

  lemma {:induction false} GoodDigest(kind: ParserType, log: seq<Event>)
    requires kind != Both && PhaseOf(kind, log) != Bad
    ensures Suits(kind, PhaseOf(kind, log), DigestOf(log))
    ensures kind == Request ==> TargetsFit(PhaseOf(kind, log), DigestOf(log))
  {
    hide Suits, TargetsFit, Step, Next, Advanced;
    if log == [] {
      Beginning(kind);
    } else {
      var front, e := log[..|log| - 1], log[|log| - 1];
      BadForever(kind, e);
      GoodDigest(kind, front);
      StepRun(kind, front, e);
      SuitsStep(kind, PhaseOf(kind, front), DigestOf(front), e);
      if kind == Request { TargetsStep(PhaseOf(kind, front), DigestOf(front), e); }
    }
  }

  lemma BadForever(kind: ParserType, e: Event)
    ensures Advanced(kind, Bad, e) == Bad
  {
  }

  lemma Beginning(kind: ParserType)
    ensures Suits(kind, Idle, NOTHING) && TargetsFit(Idle, NOTHING)
  {
  }

  // ---------- Nothing lost, repeated or reordered ----------

  // Every name followed by its value, wherever in the log.
  function Pairs(log: seq<Event>): Headers {
    if |log| < 2 then []
    else
      var e, before := log[|log| - 1], log[|log| - 2];
      if e.Data? && e.kind.Value? && before.Data? && before.kind.Field? then
        Pairs(log[..|log| - 2]) + [(before.bytes, e.bytes)]
      else Pairs(log[..|log| - 1])
  }

  function Handed(ms: seq<Message>): Headers {
    if ms == [] then [] else Handed(ms[..|ms| - 1]) + ms[|ms| - 1].headers
  }

  lemma LastHands(ms: seq<Message>, body: string, ends: nat)
    ensures Handed(Last(ms, body, ends)) == Handed(ms)
  {
    if ms != [] { assert Last(ms, body, ends)[..|ms| - 1] == ms[..|ms| - 1]; }
  }

  lemma NoteHands(d: Digest, e: Event)
    requires e.Data? ==> !e.kind.Value?
    ensures Handed(Next(d, e).messages) + Next(d, e).headers == Handed(d.messages) + d.headers
  {
    match e
    case HeadersComplete =>
      var m := Message(d.carried, d.url, d.headers, "", 0);
      assert (d.messages + [m])[..|d.messages|] == d.messages;
    case Complete => LastHands(d.messages, "", 1);
    case Data(Body, b) => LastHands(d.messages, b, 0);
    case _ =>
  }

  lemma PairsSnoc(log: seq<Event>, e: Event)
    requires e.Data? ==> !e.kind.Value?
    ensures Pairs(log + [e]) == Pairs(log)
  {
    assert (log + [e])[..|log|] == log;
  }

  // In a good log a value follows its name.
  lemma ValueFollows(kind: ParserType, log: seq<Event>)
    requires kind != Both && log != [] && PhaseOf(kind, log) != Bad
    requires log[|log| - 1].Data? && log[|log| - 1].kind.Value?
    ensures |log| >= 2 && log[|log| - 2].Data? && log[|log| - 2].kind.Field?
    ensures DigestOf(log[..|log| - 2]).name.None?
  {
    hide DigestOf, Advanced, Suits, TargetsFit, Ends, EndsWith;
    var front := log[..|log| - 1];
    ValueAfterName(kind, PhaseOf(kind, front), log[|log| - 1]);
    NameEnds(kind, front);
    var older := front[..|front| - 1];
    assert older == log[..|log| - 2];
    NameAfterNone(kind, PhaseOf(kind, older), front[|front| - 1]);
    GoodDigest(kind, older);
    NoneUnlessNamed(kind, PhaseOf(kind, older), DigestOf(older));
  }

  lemma NameEnds(kind: ParserType, log: seq<Event>)
    requires PhaseOf(kind, log) != Bad && Ends(kind, PhaseOf(kind, log), Field)
    ensures log != [] && log[|log| - 1].Data? && log[|log| - 1].kind.Field?
  {
    hide Ends, PhaseOf;
    PhaseEnds(kind, log, Field);
  }

  lemma NoneUnlessNamed(kind: ParserType, ph: Phase, d: Digest)
    requires Suits(kind, ph, d) && !ph.Named? && !ph.TrailerNamed?
    ensures d.name.None?
  {
  }

  lemma ValueAfterName(kind: ParserType, ph: Phase, e: Event)
    requires e.Data? && e.kind.Value? && Advanced(kind, ph, e) != Bad
    ensures ph != Bad && Ends(kind, ph, Field)
  {
  }

  lemma NameAfterNone(kind: ParserType, ph: Phase, e: Event)
    requires e.Data? && e.kind.Field? && Advanced(kind, ph, e) != Bad
    ensures ph != Bad && !ph.Named? && !ph.TrailerNamed?
  {
  }

  // A name and its value at the end of a log.
  lemma PairAdded(older: seq<Event>, name: string, value: string)
    requires DigestOf(older).name.None?
    ensures var n, v := Data(Field, name), Data(Value, value);
            && Pairs(older + [n] + [v]) == Pairs(older) + [(name, value)]
            && DigestOf(older + [n] + [v]).messages == DigestOf(older).messages
            && DigestOf(older + [n] + [v]).headers == DigestOf(older).headers + [(name, value)]
  {
    var n, v := Data(Field, name), Data(Value, value);
    DigestSnoc(older, n);
    DigestSnoc(older + [n], v);
    assert (older + [n] + [v])[..|older|] == older;
  }

  /** The headers handed over and those still held are all the headers of the log, in order. */
  lemma {:induction false} Conserved(kind: ParserType, log: seq<Event>)
    requires kind != Both && PhaseOf(kind, log) != Bad
    ensures var d := DigestOf(log); Handed(d.messages) + d.headers == Pairs(log)
    decreases |log|
  {
    hide DigestOf, Handed, Pairs, Next, Advanced, EndsWith;
    if log == [] {
      NothingHanded();
    } else {
      var front, e := log[..|log| - 1], log[|log| - 1];
      assert log == front + [e];
      BadForever(kind, e);
      if e.Data? && e.kind.Value? {
        ValueFollows(kind, log);
        var older, name := front[..|front| - 1], front[|front| - 1];
        assert older == log[..|log| - 2] && log == older + [Data(Field, name.bytes)] + [Data(Value, e.bytes)];
        BadForever(kind, name);
        Conserved(kind, older);
        PairAdded(older, name.bytes, e.bytes);
        var d := DigestOf(older);
        Regroup(Handed(d.messages), d.headers, [(name.bytes, e.bytes)]);
      } else {
        Conserved(kind, front);
        NoteHands(DigestOf(front), e);
        DigestSnoc(front, e);
        PairsSnoc(front, e);
      }
    }
  }

  lemma NothingHanded()
    ensures var d := DigestOf([]); Handed(d.messages) + d.headers == Pairs([])
  {
  }

  // ---------- Targets ----------

  /**
   The target handed over with a message is its own exactly if no ten headers had come, without a
   headers-complete, before the message began: after that the targets pile up.
   */
  lemma TargetExact(log: seq<Event>)
    requires PhaseOf(Request, log + [HeadersComplete]) != Bad
    ensures var d := DigestOf(log + [HeadersComplete]);
            d.messages != [] &&
            var m := d.messages[|d.messages| - 1];
            Delivered(m).url == m.url <==> !d.late
  {
    PhaseSnoc(Request, log, HeadersComplete);
    BadForever(Request, HeadersComplete);
    GoodDigest(Request, log);
    DigestSnoc(log, HeadersComplete);
    var m := DigestOf(log + [HeadersComplete]).messages[|DigestOf(log).messages|];
    assert |m.carried + m.url| == |m.carried| + |m.url|;
  }

  lemma OneHeader(d: Digest, n: string, v: string)
    requires d.name.None?
    ensures Next(Next(d, Data(Field, n)), Data(Value, v)) ==
            d.(headers := d.headers + [(n, v)], flushed := d.flushed || |d.headers| + 1 >= HEADER_MAX)
  {
  }

  lemma {:induction false} HeadersDigest(d: Digest, log: seq<Event>, hs: Headers)
    requires DigestOf(log) == d && d.name.None?
    ensures DigestOf(log + HeaderLog(hs)) ==
            d.(headers := d.headers + hs, flushed := d.flushed || (hs != [] && |d.headers| + |hs| >= HEADER_MAX))
    decreases |hs|
  {
    hide DigestOf, Next;
    if hs == [] {
      assert log + HeaderLog(hs) == log && d.headers + hs == d.headers;
    } else {
      var n, v := Data(Field, hs[0].0), Data(Value, hs[0].1);
      DigestSnoc(log, n);
      DigestSnoc(log + [n], v);
      OneHeader(d, hs[0].0, hs[0].1);
      assert log + [n] + [v] + HeaderLog(hs[1..]) == log + HeaderLog(hs);
      HeadersDigest(Next(Next(d, n), v), log + [n] + [v], hs[1..]);
      assert d.headers + [(hs[0].0, hs[0].1)] + hs[1..] == d.headers + hs;
    }
  }

  // What is left in front of the target of the next message.
  function CarriedInto(d: Digest): string {
    if d.flushed then d.carried + d.url else ""
  }

  lemma HeadDigest(d: Digest, path: string)
    ensures Next(Next(d, Begin), Data(Url, path)) == d.(carried := CarriedInto(d), url := path, late := d.flushed)
  {
    assert "" + path == path;
  }

  // The head of a message with the headers `hs`, and its body.
  lemma EndDigest(d: Digest, log: seq<Event>, body: string)
    requires DigestOf(log) == d
    ensures DigestOf(log + [HeadersComplete] + BodyLog(body) + [Complete]) ==
            d.(messages := d.messages + [Message(d.carried, d.url, d.headers, body, 1)], headers := [], name := None)
  {
    hide DigestOf;
    var m, log1 := Message(d.carried, d.url, d.headers, "", 0), log + [HeadersComplete];
    DigestSnoc(log, HeadersComplete);
    LastAdded(d.messages, m, body, 0);
    if body == "" {
      assert log1 + BodyLog(body) == log1;
    } else {
      DigestSnoc(log1, Data(Body, body));
    }
    LastAdded(d.messages, m.(body := body), "", 1);
    DigestSnoc(log1 + BodyLog(body), Complete);
  }

  lemma LastAdded(ms: seq<Message>, m: Message, body: string, ends: nat)
    ensures Last(ms + [m], body, ends) == ms + [m.(body := m.body + body, ends := m.ends + ends)]
    ensures m.body == "" ==> m.body + body == body
    ensures body == "" ==> m.body + body == m.body
  {
    assert (ms + [m])[..|ms|] == ms;
  }

  /** A printed request reaches the handler whole: headers in order after trailers still pending, body, one end. */
  lemma RequestDigest(log: seq<Event>, q: HttpRequest)
    requires DigestOf(log).name.None?
    ensures var d, d' := DigestOf(log), DigestOf(log + RequestLog(q));
            && d'.messages == d.messages + [Message(CarriedInto(d), q.path, d.headers + q.headers, q.body, 1)]
            && d'.headers == [] && d'.name.None? && d'.url == q.path && d'.carried == CarriedInto(d)
            && d'.flushed == (d.flushed || (q.headers != [] && |d.headers| + |q.headers| >= HEADER_MAX))
  {
    hide HeaderLog, DigestOf, BodyLog, Next;
    var d := DigestOf(log);
    var log1 := log + [Begin] + [Data(Url, q.path)];
    DigestSnoc(log, Begin);
    DigestSnoc(log + [Begin], Data(Url, q.path));
    HeadDigest(d, q.path);
    var log2 := log1 + HeaderLog(q.headers);
    HeadersDigest(DigestOf(log1), log1, q.headers);
    EndDigest(DigestOf(log2), log2, q.body);
    assert log + RequestLog(q) == log2 + [HeadersComplete] + BodyLog(q.body) + [Complete];
  }

  // The target of a message, which a response has not.
  function TargetOf(s: Start): string {
    match s case Asks(q) => q.target case Answers(_) => ""
  }

  lemma StatusIgnored(d: Digest, reason: Option<string>, log: seq<Event>)
    requires DigestOf(log) == d
    ensures DigestOf(log + ReasonLog(reason)) == d
  {
    hide DigestOf;
    if reason.Some? && reason.value != "" {
      DigestSnoc(log, Data(Status, reason.value));
    } else {
      assert log + ReasonLog(reason) == log;
    }
  }

  lemma StartDigest(d: Digest, log: seq<Event>, s: Start)
    requires DigestOf(log) == d
    ensures DigestOf(log + StartLog(s)) == d.(carried := CarriedInto(d), url := TargetOf(s), late := d.flushed)
  {
    hide DigestOf, ReasonLog;
    DigestSnoc(log, Begin);
    match s
    case Asks(q) =>
      DigestSnoc(log + [Begin], Data(Url, q.target));
      HeadDigest(d, q.target);
      assert log + [Begin] + [Data(Url, q.target)] == log + StartLog(s);
    case Answers(a) =>
      StatusIgnored(Next(d, Begin), a.reason, log + [Begin]);
      assert log + [Begin] + ReasonLog(a.reason) == log + StartLog(s);
  }

  lemma {:induction false} ChunksDigest(d: Digest, log: seq<Event>, chunks: seq<Chunk>)
    requires DigestOf(log) == d
    ensures DigestOf(log + ChunkLog(chunks)) == d.(messages := Last(d.messages, Payload(chunks), 0))
    decreases |chunks|
  {
    hide DigestOf;
    if chunks == [] {
      assert log + ChunkLog(chunks) == log;
      LastNothing(d.messages);
    } else {
      var data, more := chunks[0].data, chunks[1..];
      var log3 := log + [ChunkHeader] + [Data(Body, data)] + [ChunkComplete];
      DigestSnoc(log, ChunkHeader);
      DigestSnoc(log + [ChunkHeader], Data(Body, data));
      DigestSnoc(log + [ChunkHeader] + [Data(Body, data)], ChunkComplete);
      ChunksDigest(DigestOf(log3), log3, more);
      LastTwice(d.messages, data, Payload(more));
      assert log + ChunkLog(chunks) == log3 + ChunkLog(more);
    }
  }

  lemma LastNothing(ms: seq<Message>)
    ensures Last(ms, "", 0) == ms
  {
    if ms != [] {
      var m := ms[|ms| - 1];
      assert m.body + "" == m.body && m.(body := m.body, ends := m.ends + 0) == m;
    }
  }

  // The trailer of a message, which is held for the next one.
  function TrailerOf(content: Content): Headers {
    match content case Whole(_) => [] case InChunks(b) => HeadersOf(b.trailer)
  }

  // A chunked body, its trailer, and the end of the message.
  lemma ChunkedDigest(d: Digest, log: seq<Event>, b: ChunkedBody)
    requires DigestOf(log) == d && d.name.None? && d.headers == []
    ensures var d', trailer := DigestOf(log + BodyEvents(b)), HeadersOf(b.trailer);
            && d'.messages == Last(Last(d.messages, Payload(b.chunks), 0), "", 1)
            && d'.headers == trailer && d'.name.None? && d'.url == d.url && d'.carried == d.carried
            && d'.flushed == (d.flushed || (trailer != [] && |trailer| >= HEADER_MAX))
  {
    hide DigestOf, ChunkLog, HeaderLog, HeadersOf;
    var log1 := log + ChunkLog(b.chunks);
    var log2 := log1 + [ChunkHeader];
    var log3 := log2 + HeaderLog(HeadersOf(b.trailer));
    ChunksDigest(d, log, b.chunks);
    DigestSnoc(log1, ChunkHeader);
    HeadersDigest(DigestOf(log2), log2, HeadersOf(b.trailer));
    assert [] + HeadersOf(b.trailer) == HeadersOf(b.trailer);
    DigestSnoc(log3, ChunkComplete);
    DigestSnoc(log3 + [ChunkComplete], Complete);
    assert log + BodyEvents(b) == log3 + [ChunkComplete] + [Complete];
  }

  // What a message becomes.
  function MessageMade(d: Digest, h: MessageHead, bytes: string, ends: nat): Message {
    Message(CarriedInto(d), TargetOf(h.start), d.headers + HeadersOf(h.lines), bytes, ends)
  }

  lemma HeadEventsDigest(d: Digest, log: seq<Event>, h: MessageHead)
    requires DigestOf(log) == d && d.name.None?
    ensures var d', hs := DigestOf(log + HeadEvents(h)), HeadersOf(h.lines);
            && d'.messages == d.messages + [MessageMade(d, h, "", 0)] && d'.headers == [] && d'.name.None?
            && d'.url == TargetOf(h.start) && d'.carried == CarriedInto(d)
            && d'.flushed == (d.flushed || (hs != [] && |d.headers| + |hs| >= HEADER_MAX))
  {
    hide DigestOf, HeaderLog, HeadersOf, StartLog, TargetOf;
    var log1 := log + StartLog(h.start);
    var log2 := log1 + HeaderLog(HeadersOf(h.lines));
    StartDigest(d, log, h.start);
    HeadersDigest(DigestOf(log1), log1, HeadersOf(h.lines));
    DigestSnoc(log2, HeadersComplete);
    assert log + HeadEvents(h) == log2 + [HeadersComplete];
  }

  /**
   Any message reaches the handler whole: its headers after the trailer of the message before, the bytes of its body,
   chunked or not, and one end; its own trailer is held for the message after it.
   */
  lemma MessageDigest(log: seq<Event>, h: MessageHead, content: Content)
    requires DigestOf(log).name.None?
    ensures var d, d' := DigestOf(log), DigestOf(log + HeadEvents(h) + ContentLog(content));
            && d'.messages == d.messages + [MessageMade(d, h, ContentBytes(content), 1)]
            && d'.headers == TrailerOf(content) && d'.name.None?
            && d'.url == TargetOf(h.start) && d'.carried == CarriedInto(d)
  {
    hide DigestOf, HeadEvents, BodyEvents, HeadersOf, TargetOf, CarriedInto;
    var d, log1 := DigestOf(log), log + HeadEvents(h);
    HeadEventsDigest(d, log, h);
    var m := MessageMade(d, h, "", 0);
    LastAdded(d.messages, m, ContentBytes(content), 0);
    LastAdded(d.messages, m.(body := ContentBytes(content)), "", 1);
    match content
    case Whole(bytes) =>
      Regroup(log1, BodyLog(bytes), [Complete]);
      if bytes == "" {
        assert log1 + BodyLog(bytes) == log1;
      } else {
        DigestSnoc(log1, Data(Body, bytes));
      }
      DigestSnoc(log1 + BodyLog(bytes), Complete);
    case InChunks(b) => ChunkedDigest(DigestOf(log1), log1, b);
  }

  /** The piling up: the second request on a connection gets both targets when the first has ten headers. */
  lemma TargetsPile(q1: HttpRequest, q2: HttpRequest)
    ensures var ms := DigestOf(RequestLog(q1) + RequestLog(q2)).messages;
            && |ms| == 2 && Delivered(ms[0]).url == q1.path
            && Delivered(ms[1]).url == if |q1.headers| >= HEADER_MAX then q1.path + q2.path else q2.path
  {
    assert [] + RequestLog(q1) == RequestLog(q1);
    RequestDigest([], q1);
    RequestDigest(RequestLog(q1), q2);
    assert "" + q1.path == q1.path && "" + q2.path == q2.path;
  }

  // The request with ten headers has come: from then on the wrapper keeps `flushed` set.
  predicate Flushes(qs: seq<HttpRequest>) {
    exists i :: 0 <= i < |qs| && |qs[i].headers| >= HEADER_MAX
  }

  // What is left in front of the target of the next request.
  function Carried(qs: seq<HttpRequest>): string {
    if qs == [] || !Flushes(qs) then "" else Carried(qs[..|qs| - 1]) + qs[|qs| - 1].path
  }

  function MessageOf(qs: seq<HttpRequest>, i: nat): Message
    requires i < |qs|
  {
    Message(Carried(qs[..i]), qs[i].path, qs[i].headers, qs[i].body, 1)
  }

  /**
   The piling up over any number of requests: each gets its own headers and body, and its own target until one
   has ten headers; from then on all the targets since that one.
   */
  lemma {:induction false} PipelineDigest(qs: seq<HttpRequest>)
    ensures var d := DigestOf(LogAll(qs));
            && d.messages == seq(|qs|, i requires 0 <= i < |qs| => MessageOf(qs, i))
            && d.headers == [] && d.name.None? && d.flushed == Flushes(qs) && CarriedInto(d) == Carried(qs)
    decreases |qs|
  {
    hide RequestLog;
    if qs == [] {
      assert DigestOf([]) == NOTHING;
    } else {
      var front, last := qs[..|qs| - 1], qs[|qs| - 1];
      PipelineDigest(front);
      RequestDigest(LogAll(front), last);
      hide DigestOf, HeaderLog, MessageOf, Flushes;
      assert [] + last.headers == last.headers;
      FlushesMore(qs);
      MessagesMore(qs);
    }
  }

  lemma MessagesMore(qs: seq<HttpRequest>)
    requires qs != []
    ensures var front, last := qs[..|qs| - 1], qs[|qs| - 1];
            seq(|qs|, i requires 0 <= i < |qs| => MessageOf(qs, i)) ==
            seq(|front|, i requires 0 <= i < |front| => MessageOf(front, i)) +
            [Message(Carried(front), last.path, last.headers, last.body, 1)]
  {
    hide Carried;
    assert forall i :: 0 <= i < |qs| ==> qs[..i] == qs[..|qs| - 1][..i];
  }

  lemma FlushesMore(qs: seq<HttpRequest>)
    requires qs != []
    ensures Flushes(qs) <==> Flushes(qs[..|qs| - 1]) || |qs[|qs| - 1].headers| >= HEADER_MAX
  {
    if i :| 0 <= i < |qs| && |qs[i].headers| >= HEADER_MAX {
      if i < |qs| - 1 { assert qs[..|qs| - 1][i] == qs[i]; }
    }
    if Flushes(qs[..|qs| - 1]) {
      var i :| 0 <= i < |qs| - 1 && |qs[..|qs| - 1][i].headers| >= HEADER_MAX;
      assert qs[i] == qs[..|qs| - 1][i];
    }
  }

  // ---------- Runs of callbacks ----------

  lemma {:induction false} PiecesClosed(kind: ParserType, trace: seq<Event>, i: nat)
    requires i <= |trace| && PiecePhase(kind, trace) != Bad
    ensures PiecePhase(kind, trace[..i]) != Bad
  {
    if i == |trace| {
      assert trace[..i] == trace;
    } else {
      StepBad(kind, trace[|trace| - 1]);
      PiecesClosed(kind, trace[..|trace| - 1], i);
      assert trace[..|trace| - 1][..i] == trace[..i];
    }
  }

  lemma {:induction false} GoodClosed(kind: ParserType, log: seq<Event>, i: nat)
    requires i <= |log| && PhaseOf(kind, log) != Bad
    ensures PhaseOf(kind, log[..i]) != Bad
  {
    if i == |log| {
      assert log[..i] == log;
    } else {
      BadForever(kind, log[|log| - 1]);
      GoodClosed(kind, log[..|log| - 1], i);
      assert log[..|log| - 1][..i] == log[..i];
    }
  }

  // What a log holds up to a note never changes.
  lemma {:induction false} NoteKept(trace: seq<Event>, i: nat)
    requires i < |trace| && !trace[i].Data?
    ensures Coalesce(trace[..i]) + [trace[i]] <= Coalesce(trace)
  {
    var front, e := trace[..|trace| - 1], trace[|trace| - 1];
    if i == |trace| - 1 {
      assert trace[..i] == front;
    } else {
      NoteKept(front, i);
      assert front[..i] == trace[..i];
      var kept, log := Coalesce(trace[..i]) + [trace[i]], Coalesce(front);
      if EndsWith(log, if e.Data? then e.kind else Url) {
        assert log[|kept| - 1] == trace[i];
        assert kept <= log[..|log| - 1];
      }
    }
  }

  lemma HeadNeedsTarget(ph: Phase, d: Digest)
    requires TargetsFit(ph, d) && Advanced(Request, ph, HeadersComplete) != Bad
    ensures d.url != ""
  {
  }

  lemma TargetThere(trace: seq<Event>, i: nat)
    requires i < |trace| && trace[i] == HeadersComplete && PhaseOf(Request, Coalesce(trace)) != Bad
    ensures DigestOf(trace[..i]).url != ""
  {
    hide PhaseOf, Advanced, Coalesce, DigestOf, Suits, TargetsFit;
    var log := Coalesce(trace[..i]);
    NoteKept(trace, i);
    assert Coalesce(trace)[..|log| + 1] == log + [trace[i]];
    GoodClosed(Request, Coalesce(trace), |log| + 1);
    PhaseSnoc(Request, log, trace[i]);
    BadForever(Request, trace[i]);
    GoodDigest(Request, log);
    HeadNeedsTarget(PhaseOf(Request, log), DigestOf(log));
    DigestCoalesced(trace[..i]);
  }

  /** Every callback of a run with a good log comes where the grammar of pieces allows it. */
  lemma StepsOn(kind: ParserType, trace: seq<Event>, i: nat)
    requires kind != Both && i < |trace| && PhaseOf(kind, Coalesce(trace)) != Bad
    ensures Step(kind, PiecePhase(kind, trace[..i]), trace[i]) != Bad
    ensures trace[i] == HeadersComplete && kind == Request ==> DigestOf(trace[..i]).url != ""
  {
    hide PhaseOf, Advanced, Coalesce, DigestOf, PiecePhase, Step;
    PiecesCoalesced(kind, trace);
    GoodPieces(kind, Coalesce(trace));
    PiecesClosed(kind, trace, i + 1);
    assert trace[..i + 1] == trace[..i] + [trace[i]];
    PieceSnoc(kind, trace[..i], trace[i]);
    if trace[i] == HeadersComplete && kind == Request { TargetThere(trace, i); }
  }
}
