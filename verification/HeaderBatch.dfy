/**
 iotjs_module_httpparser.c and http_common.js: headers are collected ten slots at a time, handed to
 JavaScript when the slots are full, and put together again there.
 */
module HeaderBatch {
  import opened HttpTypes
  import opened HttpSwitch
  import opened HttpRun
  import opened HttpGrammar
  import opened HttpLines
  import opened HeaderDigest

  // The header lists of the messages handed over, one after the other.
  function Lists(ms: seq<Incoming>): seq<string> {
    if ms == [] then [] else Lists(ms[..|ms| - 1]) + ms[|ms| - 1].list
  }

  // The messages are those of the digest.
  ghost predicate Handled(ms: seq<Incoming>, d: Digest) {
    |ms| == |d.messages| && forall i :: 0 <= i < |ms| ==> ms[i] == Delivered(d.messages[i])
  }

  lemma {:induction false} ListsHanded(ms: seq<Incoming>, ds: seq<Message>)
    requires |ms| == |ds| && forall i :: 0 <= i < |ms| ==> ms[i] == Delivered(ds[i])
    ensures Lists(ms) == Flat(Handed(ds))
  {
    if ms != [] {
      ListsHanded(ms[..|ms| - 1], ds[..|ds| - 1]);
      FlatAppend(Handed(ds[..|ds| - 1]), ds[|ds| - 1].headers);
    }
  }

  // The names and values of a list, which has them in turn.
  function NameAt(list: seq<string>, i: nat): string
    requires 2 * i < |list|
  {
    list[2 * i]
  }

  function ValueAt(list: seq<string>, i: nat): string
    requires 2 * i + 1 < |list|
  {
    list[2 * i + 1]
  }

  ghost predicate LastInList(list: seq<string>, i: nat) {
    2 * i + 1 < |list| && forall j: nat :: i < j && 2 * j + 1 < |list| ==> NameAt(list, j) != NameAt(list, i)
  }

  // An object made of a list: exactly its names, each with the value it comes with last.
  ghost predicate MadeOf(headers: map<string, string>, list: seq<string>) {
    && (forall name :: name in headers <==> exists i: nat :: 2 * i + 1 < |list| && NameAt(list, i) == name)
    && (forall i: nat :: LastInList(list, i) ==>
          NameAt(list, i) in headers && headers[NameAt(list, i)] == ValueAt(list, i))
  }

  lemma ObjectMade(hs: Headers)
    ensures MadeOf(Object(hs), Flat(hs))
  {
    hide Object, Flat;
    ObjectExact(hs);
    forall i: nat | i < |hs| ensures NameAt(Flat(hs), i) == hs[i].0 && ValueAt(Flat(hs), i) == hs[i].1 { FlatAt(hs, i); }
    assert forall i: nat :: LastInList(Flat(hs), i) ==> LastNamed(hs, i);
  }

  // ---------- The wrapper ----------

  class Wrapper {
    const kind: ParserType
    // iotjs_httpparserwrap_t
    var url: string
    const fields: array<string>
    const values: array<string>
    var nFields: nat
    var nValues: nat
    var flushed: bool
    // the parser object of http_common.js: _headers, _url, and the messages made so far, the last being `incoming`
    var jsHeaders: seq<string>
    var jsUrl: string
    var messages: seq<Incoming>
    ghost var events: seq<Event>

    ghost function Ph(): Phase
      reads this
    {
      PiecePhase(kind, events)
    }

    ghost function Slots(n: nat): Headers
      requires n <= fields.Length && n <= values.Length
      reads fields, values
    {
      seq(n, i requires 0 <= i < n reads fields, values => (fields[i], values[i]))
    }

    ghost predicate Room()
      reads `nFields, `nValues
    {
      fields != values && fields.Length == values.Length == HEADER_MAX && nValues <= nFields <= HEADER_MAX
    }

    ghost predicate Shape()
      reads `nFields, `nValues
    {
      Room() && kind != Both && nFields < HEADER_MAX && nFields <= nValues + 1
    }

    // The slots and the list on the JavaScript side hold exactly the headers not yet handed over.
    ghost predicate Holds(d: Digest)
      requires Shape()
      reads `nFields, `nValues, `flushed, `jsHeaders, `jsUrl, `messages, fields, values
    {
      && (if d.name.Some? then nFields == nValues + 1 && fields[nValues] == d.name.value else nFields == nValues)
      && jsHeaders + Flat(Slots(nValues)) == Flat(d.headers)
      && flushed == d.flushed && (!flushed ==> nValues == |d.headers| && jsHeaders == [] && jsUrl == "")
      && Handled(messages, d)
    }

    ghost predicate HoldsUrl(ph: Phase, d: Digest)
      reads `url, `jsUrl, `flushed
    {
      && (!flushed ==> url == d.url && d.carried == "") && (kind == Response ==> url == "")
      && (flushed ==> jsUrl + url == d.carried + d.url && (url != "" ==> ph.Begun? || InHead(ph)))
    }

    ghost predicate Good(ph: Phase, d: Digest)
      reads `url, `nFields, `nValues, `flushed, `jsHeaders, `jsUrl, `messages, fields, values
    {
      && Shape() && Holds(d) && HoldsUrl(ph, d) && Suits(kind, ph, d)
      && (ph.Valued? || ph.TrailerValued? ==> nValues > 0)
    }

    ghost predicate Valid()
      reads this, fields, values
    {
      Good(Ph(), DigestOf(events))
    }

    constructor (kind: ParserType)
      requires kind != Both
      ensures Valid() && events == [] && this.kind == kind && fresh(fields) && fresh(values)
    {
      this.kind := kind;
      url, fields, values := "", new string[HEADER_MAX](i => ""), new string[HEADER_MAX](i => "");
      nFields, nValues, flushed := 0, 0, false;
      jsHeaders, jsUrl, messages, events := [], "", [], [];
    }

    // iotjs_httpparserwrap_make_header
    method MakeHeader() returns (jheader: array<string>)
      requires Room()
      ensures fresh(jheader) && jheader[..] == Flat(Slots(nValues))
    {
      jheader := new string[nValues * 2];
      ghost var hs := Slots(nValues);
      for i := 0 to nValues
        invariant hs == Slots(nValues) && jheader[..2 * i] == Flat(hs[..i])
      {
        jheader[i * 2] := fields[i];
        jheader[i * 2 + 1] := values[i];
        assert hs[..i + 1] == hs[..i] + [hs[i]];
        FlatSnoc(hs[..i], fields[i], values[i]);
        assert jheader[..2 * (i + 1)] == jheader[..2 * i] + [fields[i], values[i]];
      }
      assert hs[..nValues] == hs && jheader[..] == jheader[..2 * nValues];
    }

    // iotjs_httpparserwrap_flush, and parserOnHeaders behind it.
    method Flush()
      requires Room()
      modifies this`jsHeaders, this`jsUrl, this`url, this`flushed
      ensures jsHeaders == old(jsHeaders + Flat(Slots(nValues))) && flushed && url == ""
      ensures jsUrl == old(jsUrl) + if kind == Request then old(url) else ""
    {
      var jheader := MakeHeader();
      jsHeaders := jsHeaders + jheader[..];
      if kind == Request && url != "" {
        jsUrl := jsUrl + url;
      }
      url := "";
      flushed := true;
    }

    // The slots after a write to the slot that follows the first `n`.
    twostate lemma SlotsKept(n: nat)
      requires n <= fields.Length && n <= values.Length
      requires forall i :: 0 <= i < n ==> fields[i] == old(fields[i]) && values[i] == old(values[i])
      ensures Slots(n) == old(Slots(n))
    {
    }

    lemma SlotsSnoc(n: nat)
      requires n < fields.Length && n < values.Length
      ensures Slots(n + 1) == Slots(n) + [(fields[n], values[n])]
    {
    }

    // iotjs_httpparserwrap_on_header_field
    method OnField(at: string, ghost d: Digest)
      requires Shape() && Holds(d)
      modifies this`nFields, this`nValues, this`jsHeaders, this`jsUrl, this`url, this`flushed, fields
      ensures Shape() && Holds(Next(d, Data(Field, at)))
      ensures if flushed && (old(nFields == nValues) && old(nFields) + 1 == HEADER_MAX)
              then url == "" && jsUrl == old(jsUrl) + if kind == Request then old(url) else ""
              else flushed == old(flushed) && url == old(url) && jsUrl == old(jsUrl)
    {
      if nFields == nValues {
        nFields := nFields + 1;
        if nFields == HEADER_MAX {
          Flush();
          nFields := 1;
          nValues := 0;
        }
        fields[nFields - 1] := "";
      }
      assert nFields == nValues + 1;
      fields[nFields - 1] := fields[nFields - 1] + at;
      SlotsKept(nValues);
    }

    // iotjs_httpparserwrap_on_header_value
    method OnValue(at: string, ghost d: Digest)
      requires Shape() && Holds(d) && (d.name.Some? || nValues > 0)
      modifies this`nValues, values
      ensures Shape() && Holds(Next(d, Data(Value, at))) && nValues > 0
    {
      hide Flat, AddValue, Delivered;
      if nFields != nValues {
        nValues := nValues + 1;
        values[nValues - 1] := "";
      }
      assert nFields == nValues;
      ghost var n := nValues - 1;
      values[nValues - 1] := values[nValues - 1] + at;
      SlotsKept(n);
      SlotsSnoc(n);
      FlatSnoc(Slots(n), fields[n], values[n]);
      assert jsHeaders + Flat(Slots(nValues)) == jsHeaders + Flat(Slots(n)) + [fields[n], values[n]];
      if d.name.Some? {
        assert "" + at == at;
        FlatSnoc(d.headers, d.name.value, at);
      } else {
        LastSlot(jsHeaders + Flat(Slots(n)), fields[n], old(values[n]), d.headers, at) by {
          assert Slots(n) + [(fields[n], old(values[n]))] == old(Slots(nValues));
          FlatSnoc(Slots(n), fields[n], old(values[n]));
          assert jsHeaders + Flat(old(Slots(nValues))) == jsHeaders + Flat(Slots(n)) + [fields[n], old(values[n])];
        }
      }
    }

    // IncomingMessage.addHeaders
    static method AddHeaders(list: seq<string>, ghost hs: Headers) returns (headers: map<string, string>)
      requires list == Flat(hs)
      ensures headers == Object(hs) && MadeOf(headers, list)
    {
      headers := map[];
      var i := 0;
      while i < |list|
        invariant i <= |list| && i % 2 == 0 && headers == Object(hs[..i / 2])
      {
        FlatAt(hs, i / 2);
        assert hs[..i / 2 + 1][..i / 2] == hs[..i / 2];
        headers := headers[list[i] := list[i + 1]];
        i := i + 2;
      }
      assert hs[..|hs|] == hs;
      ObjectMade(hs);
    }

    // iotjs_httpparserwrap_on_headers_complete, and parserOnHeadersComplete behind it.
    method OnHeadersComplete(ghost d: Digest)
      requires Shape() && Holds(d) && d.name.None? && (kind == Request && !flushed ==> url != "")
      requires if flushed then jsUrl + url == d.carried + d.url else url == d.url && d.carried == ""
      requires kind == Response ==> url == ""
      modifies this`nFields, this`nValues, this`jsHeaders, this`jsUrl, this`url, this`flushed, this`messages
      ensures Shape() && Holds(Next(d, HeadersComplete)) && nFields == nValues == 0
      ensures flushed == old(flushed)
      ensures if flushed then url == "" && jsUrl == d.carried + d.url else url == old(url) && jsUrl == ""
    {
      hide Flat, Object;
      var infoHeaders, infoUrl := None, None;
      if flushed {
        Flush();
      } else {
        var jheader := MakeHeader();
        infoHeaders := Some(jheader[..]);
        if kind == Request {
          assert url != "";
          infoUrl := Some(url);
        }
      }
      nFields, nValues := 0, 0;
      ParserOnHeadersComplete(infoHeaders, infoUrl, d.headers);
    }

    // parserOnHeadersComplete
    method ParserOnHeadersComplete(infoHeaders: Option<seq<string>>, infoUrl: Option<string>, ghost hs: Headers)
      requires Flat(hs) == if infoHeaders.None? then jsHeaders else infoHeaders.value
      modifies this`jsHeaders, this`messages
      ensures jsHeaders == if infoHeaders.None? then [] else old(jsHeaders)
      ensures var target := if infoUrl == None || infoUrl == Some("") then jsUrl else infoUrl.value;
              messages == old(messages) + [Incoming(target, Flat(hs), Object(hs), "", 0)]
    {
      var target, list := jsUrl, jsHeaders;
      if infoUrl.Some? && infoUrl.value != "" { target := infoUrl.value; }
      if infoHeaders.Some? { list := infoHeaders.value; } else { jsHeaders := []; }
      var headers := AddHeaders(list, hs);
      messages := messages + [Incoming(target, list, headers, "", 0)];
    }

    // iotjs_httpparserwrap_on_message_begin
    method OnMessageBegin(ghost ph: Phase, ghost d: Digest)
      requires Shape() && Holds(d) && HoldsUrl(ph, d) && Suits(kind, ph, d) && Step(kind, ph, Begin) != Bad
      modifies this`url
      ensures Shape() && Holds(Next(d, Begin)) && HoldsUrl(Step(kind, ph, Begin), Next(d, Begin))
    {
      hide Flat, Delivered;
      url := "";
    }

    // iotjs_httpparserwrap_on_url
    method OnUrl(at: string, ghost ph: Phase, ghost d: Digest)
      requires Shape() && Holds(d) && HoldsUrl(ph, d) && Suits(kind, ph, d) && Step(kind, ph, Data(Url, at)) != Bad
      modifies this`url
      ensures Shape() && Holds(Next(d, Data(Url, at))) && HoldsUrl(Step(kind, ph, Data(Url, at)), Next(d, Data(Url, at)))
    {
      hide Flat, Delivered, Object, Suits, Step;
      UrlOn(ph, d, at);
      if flushed {
        Regroup(jsUrl, url, at);
        Regroup(d.carried, d.url, at);
      }
      url := url + at;
    }

    // A piece of a target goes to the target of the digest, and only of a request.
    lemma UrlOn(ph: Phase, d: Digest, at: string)
      requires Suits(kind, ph, d) && Step(kind, ph, Data(Url, at)) != Bad
      ensures kind == Request && (Step(kind, ph, Data(Url, at)).Begun? || InHead(Step(kind, ph, Data(Url, at))))
      ensures Next(d, Data(Url, at)) == d.(url := d.url + at)
    {
    }

    // parserOnBody: the piece is pushed into the incoming message.
    method OnBody(body: string, ghost d: Digest)
      requires Shape() && Holds(d) && d.messages != []
      modifies this`messages
      ensures Shape() && Holds(Next(d, Data(Body, body)))
    {
      hide Flat, Object;
      var m := messages[|messages| - 1];
      messages := messages[|messages| - 1 := m.(body := m.body + body)];
    }

    // parserOnMessageComplete: the end is pushed into the incoming message.
    method OnMessageComplete(ghost d: Digest)
      requires Shape() && Holds(d) && d.messages != []
      modifies this`messages
      ensures Shape() && Holds(Next(d, Complete))
    {
      hide Flat, Object;
      var m := messages[|messages| - 1];
      messages := messages[|messages| - 1 := m.(ends := m.ends + 1)];
    }

    // A piece of a header's name or value.
    method OnHeader(e: Event, ghost ph: Phase, ghost d: Digest)
      requires Good(ph, d) && Step(kind, ph, e) != Bad && e.Data? && (e.kind.Field? || e.kind.Value?)
      modifies this, fields, values
      ensures Good(Step(kind, ph, e), Next(d, e)) && events == old(events)
    {
      hide Flat, Delivered, AddValue, Last;
      SuitsStep(kind, ph, d, e);
      if e.kind.Field? {
        OnField(e.bytes, d);
      } else {
        OnValue(e.bytes, d);
      }
    }

    // The end of the head, and the end of the message.
    method OnNote(e: Event, ghost ph: Phase, ghost d: Digest)
      requires Good(ph, d) && Step(kind, ph, e) != Bad && !e.Data?
      requires e == HeadersComplete && kind == Request ==> d.url != ""
      modifies this
      ensures Good(Step(kind, ph, e), Next(d, e)) && events == old(events)
    {
      hide Flat, Delivered, AddValue, Last;
      SuitsStep(kind, ph, d, e);
      match e
      case Begin => OnMessageBegin(ph, d);
      case HeadersComplete => OnHeadersComplete(d);
      case Complete => OnMessageComplete(d);
      case _ =>
    }

    // A piece of the target, the status text or the body.
    method OnData(e: Event, ghost ph: Phase, ghost d: Digest)
      requires Good(ph, d) && Step(kind, ph, e) != Bad && e.Data? && !e.kind.Field? && !e.kind.Value?
      modifies this
      ensures Good(Step(kind, ph, e), Next(d, e)) && events == old(events)
    {
      hide Flat, Delivered, AddValue, Last;
      SuitsStep(kind, ph, d, e);
      match e.kind
      case Url => OnUrl(e.bytes, ph, d);
      case Body => OnBody(e.bytes, d);
      case _ =>
    }

    /** One callback of the parser: the wrapper keeps what the events so far say. */
    method On(e: Event)
      requires Valid() && Step(kind, Ph(), e) != Bad
      requires e == HeadersComplete && kind == Request ==> DigestOf(events).url != ""
      modifies this, fields, values
      ensures Valid() && events == old(events) + [e]
    {
      hide Good, Next, Step, PiecePhase, DigestOf;
      ghost var ph, d := Ph(), DigestOf(events);
      PieceSnoc(kind, events, e);
      DigestSnoc(events, e);
      if !e.Data? {
        OnNote(e, ph, d);
      } else if e.kind.Field? || e.kind.Value? {
        OnHeader(e, ph, d);
      } else {
        OnData(e, ph, d);
      }
      events := events + [e];
    }

    /** All callbacks of a run, in whatever pieces. */
    method Replay(trace: seq<Event>)
      requires Valid() && events == [] && PhaseOf(kind, Coalesce(trace)) != Bad
      modifies this, fields, values
      ensures Valid() && events == trace
      ensures Handled(messages, DigestOf(Coalesce(trace)))
      ensures Lists(messages) + (jsHeaders + Flat(Slots(nValues))) == Flat(Pairs(Coalesce(trace)))
    {
      hide Next, Step, PiecePhase, DigestOf, Pairs, Suits, TargetsFit, Flat, Lists, Handed, Delivered;
      for i := 0 to |trace|
        invariant Valid() && events == trace[..i]
      {
        StepsOn(kind, trace, i);
        assert trace[..i + 1] == trace[..i] + [trace[i]];
        On(trace[i]);
      }
      assert trace[..|trace|] == trace;
      DigestCoalesced(trace);
      Conserved(kind, Coalesce(trace));
      ghost var d := DigestOf(trace);
      ListsHanded(messages, d.messages);
      FlatAppend(Handed(d.messages), d.headers);
    }
  }
}
