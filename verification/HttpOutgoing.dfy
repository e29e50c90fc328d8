/** http_outgoing.js and http_client.js: a message is put together from headers and chunks, and written to the connection. */
module HttpOutgoing {
  import opened Bytes
  import opened HttpSwitch
  import opened HttpHeaders
  import opened HttpLines

  // ---------- A headers object: its keys in the order they were first set ----------

  function Put(hs: Headers, name: string, value: string): Headers {
    if hs == [] then [(name, value)]
    else if hs[0].0 == name then [(name, value)] + hs[1..]
    else [hs[0]] + Put(hs[1..], name, value)
  }

  function Delete(hs: Headers, name: string): Headers {
    if hs == [] then [] else if hs[0].0 == name then hs[1..] else [hs[0]] + Delete(hs[1..], name)
  }

  function Keys(hs: Headers): set<string> {
    set h | h in hs :: h.0
  }

  predicate IsObject(hs: Headers) {
    forall i, j :: 0 <= i < j < |hs| ==> hs[i].0 != hs[j].0
  }

  lemma PutNew(hs: Headers, name: string, value: string)
    requires name !in Keys(hs)
    ensures Put(hs, name, value) == hs + [(name, value)]
  {
    if hs != [] {
      assert hs[0].0 in Keys(hs);
      assert hs[1..] <= hs[1..] && forall h :: h in hs[1..] ==> h.0 in Keys(hs);
      PutNew(hs[1..], name, value);
    }
  }

  lemma {:induction false} PutKeys(hs: Headers, name: string, value: string)
    ensures Keys(Put(hs, name, value)) == Keys(hs) + {name}
  {
    if hs != [] {
      PutKeys(hs[1..], name, value);
      assert hs == [hs[0]] + hs[1..];
      KeysCons(hs[0], hs[1..]);
      KeysCons((name, value), hs[1..]);
      KeysCons(hs[0], Put(hs[1..], name, value));
    }
  }

  lemma KeysCons(h: (string, string), hs: Headers)
    ensures Keys([h] + hs) == {h.0} + Keys(hs)
  {
    assert forall x :: x in [h] + hs <==> x == h || x in hs;
  }

  /** Setting a header keeps every other header, value and place. */
  lemma {:induction false} PutKeeps(hs: Headers, name: string, value: string, i: nat)
    requires IsObject(hs) && i < |hs|
    ensures i < |Put(hs, name, value)|
    ensures Put(hs, name, value)[i] == if hs[i].0 == name then (name, value) else hs[i]
  {
    if hs[0].0 == name {
      assert hs == [hs[0]] + hs[1..];
    } else if i > 0 {
      PutKeeps(hs[1..], name, value, i - 1);
    }
  }

  lemma {:induction false} PutObject(hs: Headers, name: string, value: string)
    requires IsObject(hs)
    ensures IsObject(Put(hs, name, value)) && (name, value) in Put(hs, name, value)
  {
    if hs != [] && hs[0].0 != name {
      PutObject(hs[1..], name, value);
      var rest := Put(hs[1..], name, value);
      PutKeys(hs[1..], name, value);
      forall j | 0 <= j < |rest| ensures rest[j].0 != hs[0].0 {
        assert rest[j].0 in Keys(rest);
      }
    }
  }

  lemma {:induction false} DeleteObject(hs: Headers, name: string)
    requires IsObject(hs)
    ensures IsObject(Delete(hs, name)) && name !in Keys(Delete(hs, name))
    ensures forall h :: h in hs && h.0 != name ==> h in Delete(hs, name)
    ensures forall h :: h in Delete(hs, name) ==> h in hs
  {
    if hs != [] && hs[0].0 != name {
      DeleteObject(hs[1..], name);
    }
  }

  lemma {:induction false} PrintSnoc(hs: Headers, h: (string, string))
    ensures PrintHeaders(hs + [h]) == PrintHeaders(hs) + HeaderLine(h.0, h.1)
  {
    hide HeaderLine;
    if hs == [] {
      assert [] + [h] == [h] && PrintHeaders([h]) == HeaderLine(h.0, h.1) + PrintHeaders([]);
    } else {
      assert (hs + [h])[1..] == hs[1..] + [h];
      PrintSnoc(hs[1..], h);
    }
  }

  class OutgoingMessage {
    var headers: Headers
    var header: Option<string>
    var sentHeader: bool
    var finished: bool
    var hasBody: bool
    var sent: string        // what was written to the connection
    ghost var body: string  // the chunks taken

    ghost predicate Valid()
      reads this
    {
      && IsObject(headers) && header.Some?
      && sent == (if sentHeader then header.value + CRLF + body else "")
      && (!sentHeader ==> body == "") && (finished ==> sentHeader)
    }

    // A message with no header line stored yet.
    constructor ()
      ensures headers == [] && header.None? && !sentHeader && !finished && hasBody && sent == "" && body == ""
    {
      headers, header, sentHeader, finished, hasBody, sent, body := [], None, false, false, true, "", "";
    }

    // setHeader: false where the original throws.
    method SetHeader(name: string, value: string) returns (ok: bool)
      requires IsObject(headers)
      modifies this`headers
      ensures ok == (value != "") && IsObject(headers)
      ensures headers == if ok then Put(old(headers), name, value) else old(headers)
    {
      if value == "" { return false; }
      PutObject(headers, name, value);
      headers := Put(headers, name, value);
      return true;
    }

    method RemoveHeader(name: string)
      requires IsObject(headers)
      modifies this`headers
      ensures IsObject(headers) && headers == Delete(old(headers), name)
    {
      DeleteObject(headers, name);
      headers := Delete(headers, name);
    }

    // _storeHeader
    method StoreHeader(statusLine: string)
      modifies this`header
      ensures header == Some(statusLine + PrintHeaders(headers))
    {
      hide HeaderLine;
      var headerStr := "";
      for i := 0 to |headers|
        invariant headerStr == PrintHeaders(headers[..i])
      {
        assert headers[..i + 1] == headers[..i] + [headers[i]];
        PrintSnoc(headers[..i], headers[i]);
        headerStr := headerStr + HeaderLine(headers[i].0, headers[i].1);
      }
      assert headers[..|headers|] == headers;
      header := Some(statusLine + headerStr);
    }

    // _send: the first chunk takes the header with it.
    method Send(chunk: string)
      requires Valid()
      modifies this`sentHeader, this`sent, this`body
      ensures Valid() && sentHeader && body == old(body) + chunk
    {
      var data := chunk;
      if !sentHeader {
        data := header.value + CRLF + chunk;
        sentHeader := true;
        assert "" + data == data && "" + chunk == chunk;
      } else {
        assert header.value + CRLF + (body + chunk) == header.value + CRLF + body + chunk;
      }
      sent := sent + data;
      body := body + chunk;
    }

    method Write(chunk: string)
      requires Valid()
      modifies this`sentHeader, this`sent, this`body
      ensures Valid() && body == if hasBody then old(body) + chunk else old(body)
    {
      if !hasBody { return; }
      Send(chunk);
    }

    // end: false where the message had ended before. No data is the empty string.
    method End(data: string) returns (ok: bool)
      requires Valid()
      modifies this`sentHeader, this`sent, this`body, this`finished
      ensures Valid() && finished && ok == !old(finished)
      ensures if old(finished) || !hasBody then body == old(body) else body == old(body) + data
    {
      if finished { return false; }
      if data != "" {
        Write(data);
      } else {
        assert body + data == body;
      }
      assert body + "" == body;
      Send("");
      finished := true;
      return true;
    }
  }

  // The first line of a request.
  function FirstLine(verb: string, path: string): string {
    verb + " " + path + " HTTP/1.1" + CRLF
  }

  // new ClientRequest: nothing where the original throws. An absent option is the empty string.
  method NewRequest(verb: string, path: string, options: Headers) returns (req: Option<OutgoingMessage>)
    requires IsObject(options)
    ensures req.None? <==> exists h :: h in options && h.1 == ""
    ensures req.Some? ==> fresh(req.value) && req.value.Valid() && req.value.headers == options
    ensures req.Some? ==> !req.value.sentHeader && !req.value.finished && req.value.hasBody && req.value.body == ""
    ensures req.Some? ==>
              req.value.header ==
              Some(FirstLine(if verb == "" then "GET" else verb, if path == "" then "/" else path) + PrintHeaders(options))
  {
    var m := new OutgoingMessage();
    for i := 0 to |options|
      invariant m.headers == options[..i] && IsObject(m.headers) && forall h :: h in options[..i] ==> h.1 != ""
      invariant m.header.None? && !m.sentHeader && !m.finished && m.hasBody && m.sent == "" && m.body == ""
    {
      var (name, value) := options[i];
      assert name !in Keys(options[..i]);
      PutNew(options[..i], name, value);
      assert options[..i + 1] == options[..i] + [options[i]];
      var ok := m.SetHeader(name, value);
      if !ok {
        assert options[i] in options;
        return None;
      }
    }
    assert options[..|options|] == options;
    m.StoreHeader(FirstLine(if verb == "" then "GET" else verb, if path == "" then "/" else path));
    return Some(m);
  }
}
