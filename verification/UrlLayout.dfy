/**
 What a URL looks like, position by position, and the proof that http_parser_parse_url accepts exactly
 that and reports the fields of that layout, offsets and lengths modulo 2^16.
 */
module UrlLayout {
  import opened Bytes
  import opened HttpTypes
  import opened HttpSwitch
  import opened HttpLengths
  import opened UrlParser

  // Offsets and lengths are kept in 16 bits.
  const MAX_URL: nat := 0xffff

  // What fits, and what is left of spans that do not.
  predicate Fits(spans: Spans) {
    forall f :: f in spans ==> spans[f].off <= MAX_URL && spans[f].len <= MAX_URL
  }

  function Wrap(spans: Spans): Spans {
    map f | f in spans :: Span(U16(spans[f].off), U16(spans[f].len))
  }

  lemma WrapFits(spans: Spans)
    ensures Fits(Wrap(spans)) && Wrap(spans).Keys == spans.Keys
    ensures Wrap(spans) == spans <==> Fits(spans)
  {
    if Fits(spans) {
      assert forall f :: f in spans ==> Wrap(spans)[f] == spans[f];
    }
  }

  // `spans` with the field `f` from `from` to `to`, unless it is empty.
  function With(spans: Spans, f: UrlField, from: nat, to: nat): Spans {
    if from < to then spans[f := Span(from, to - from)] else spans
  }

  // A field that is begun, or grows by one byte.
  lemma WrapWith(spans: Spans, f: UrlField, from: nat, p: nat)
    requires from <= p
    ensures Wrap(With(spans, f, from, p + 1)) ==
            if from < p then Grown(Wrap(With(spans, f, from, p)), f) else Wrap(spans)[f := Span(U16(p), 1)]
  {
    hide Wrap, U16;
    WrapSet(spans, f, Span(from, p + 1 - from));
    if from < p {
      WrapSet(spans, f, Span(from, p - from));
      WrapMore(p - from);
      WrapKnown(With(spans, f, from, p), f);
      assert Grown(Wrap(spans)[f := Span(U16(from), U16(p - from))], f) ==
             Wrap(spans)[f := Span(U16(from), U16(p - from + 1))];
    } else {
      WrapMore(0);
    }
  }

  lemma WrapSet(spans: Spans, f: UrlField, span: Span)
    ensures Wrap(spans[f := span]) == Wrap(spans)[f := Span(U16(span.off), U16(span.len))]
  {
    hide U16;
  }

  lemma WrapMore(n: nat)
    ensures U16(U16(n) + 1) == U16(n + 1) && U16(0) == 0 && U16(1) == 1
  {
  }

  lemma WrapKnown(spans: Spans, f: UrlField)
    ensures f in Wrap(spans) <==> f in spans
    ensures f in spans ==> Wrap(spans)[f] == Span(U16(spans[f].off), U16(spans[f].len)) && U16(0) == 0
  {
  }

  // ---------- The authority ----------

  // Of an authority from `a`: the position of its '@' if it has one, whether the host is in brackets, and
  // where the host ends; the closing bracket comes after it.
  datatype Authority = Authority(user: nat, v6: bool, end: nat)

  function HostAt(a: nat, at: bool, h: Authority): nat {
    if at then h.user + 1 else a
  }

  function TextAt(a: nat, at: bool, h: Authority): nat {
    if h.v6 then HostAt(a, at, h) + 1 else HostAt(a, at, h)
  }

  // Where the colon before the port is, if there is one.
  function ColonAt(h: Authority): nat {
    if h.v6 then h.end + 1 else h.end
  }

  // The byte `ch` may be at `i`.
  predicate HostAllows(a: nat, at: bool, h: Authority, i: nat, ch: char) {
    if at && i <= h.user then (if i == h.user then ch == '@' else IsUserinfoChar(ch))
    else if h.v6 && i == HostAt(a, at, h) then ch == '['
    else if i < h.end then (if h.v6 then IsV6Char(ch) else IsHostChar(ch))
    else if h.v6 && i == h.end then ch == ']'
    else if i == ColonAt(h) then ch == ':'
    else IsNum(ch)
  }

  predicate HostAllowed(url: string, a: nat, p: nat, at: bool, h: Authority)
    requires a <= p <= |url|
  {
    forall i :: a <= i < p ==> HostAllows(a, at, h, i, url[i])
  }

  predicate HostShape(a: nat, at: bool, h: Authority) {
    (at ==> a <= h.user) && TextAt(a, at, h) <= h.end
  }

  // The bytes from `a` to `b` are an authority.
  predicate HostLaid(url: string, a: nat, b: nat, at: bool, h: Authority)
    requires a <= b <= |url|
  {
    && HostShape(a, at, h) && HostAllowed(url, a, b, at, h)
    && TextAt(a, at, h) < h.end && (b == ColonAt(h) || ColonAt(h) + 1 < b)
  }

  function HostStateAt(a: nat, at: bool, h: Authority, p: nat): HostState {
    if at && p <= h.user then (if p == a then UserinfoStart else InUserinfo)
    else if p == HostAt(a, at, h) then HostStart
    else if h.v6 && p == HostAt(a, at, h) + 1 then HostV6Start
    else if p <= h.end then (if h.v6 then HostV6 else InHost)
    else if p == ColonAt(h) then HostV6End
    else if p == ColonAt(h) + 1 then PortStart
    else InPort
  }

  function Min(a: nat, b: nat): nat {
    if a < b then a else b
  }

  // No fields of the authority are known but its bounds, as the host.
  predicate HostReady(spans: Spans) {
    Host in spans && Port !in spans && Userinfo !in spans
  }

  function NoHost(spans: Spans): Spans
    requires Host in spans
  {
    spans[Host := spans[Host].(len := 0)]
  }

  // The fields of the authority up to `p`.
  function HostSpansAt(spans: Spans, a: nat, at: bool, h: Authority, p: nat): Spans
    requires Host in spans
  {
    var withUser := if at then With(NoHost(spans), Userinfo, a, Min(p, h.user)) else NoHost(spans);
    With(With(withUser, Host, TextAt(a, at, h), Min(p, h.end)), Port, ColonAt(h) + 1, p)
  }

  lemma HostStateStep(a: nat, at: bool, h: Authority, p: nat, ch: char)
    requires a <= p && HostShape(a, at, h) && TextAt(a, at, h) < h.end && HostAllows(a, at, h, p, ch)
    ensures HostChar(HostStateAt(a, at, h, p), ch) == HostStateAt(a, at, h, p + 1)
  {
  }

  predicate HostSpansGo(spans: Spans, a: nat, at: bool, h: Authority, p: nat)
    requires Host in spans
  {
    var s, s' := HostStateAt(a, at, h, p), HostStateAt(a, at, h, p + 1);
    && HostSane(HostScan(s, Wrap(HostSpansAt(spans, a, at, h, p))))
    && Wrap(HostSpansAt(spans, a, at, h, p + 1)) == TakenSpans(s, s', Wrap(HostSpansAt(spans, a, at, h, p)), p)
  }

  // The fields of the authority before its host.
  function WithUser(spans: Spans, a: nat, at: bool, h: Authority): Spans
    requires Host in spans
  {
    if at then With(NoHost(spans), Userinfo, a, h.user) else NoHost(spans)
  }

  // The fields of the authority, part by part.
  lemma HostInParts(spans: Spans, a: nat, at: bool, h: Authority, p: nat)
    requires HostReady(spans) && HostShape(a, at, h) && TextAt(a, at, h) < h.end && a <= p
    ensures at && p <= h.user ==> HostSpansAt(spans, a, at, h, p) == With(NoHost(spans), Userinfo, a, p)
    ensures var s := WithUser(spans, a, at, h);
            && (HostAt(a, at, h) <= p <= h.end ==> HostSpansAt(spans, a, at, h, p) == With(s, Host, TextAt(a, at, h), p))
            && (at && p == h.user + 1 ==> HostSpansAt(spans, a, at, h, p) == s)
            && (h.end <= p ==>
                  HostSpansAt(spans, a, at, h, p) == With(With(s, Host, TextAt(a, at, h), h.end), Port, ColonAt(h) + 1, p))
            && Host in s && s[Host].len == 0 && Port !in s
  {
  }

  lemma UserinfoGoes(spans: Spans, a: nat, h: Authority, p: nat)
    requires HostReady(spans) && a <= p <= h.user && HostShape(a, true, h) && TextAt(a, true, h) < h.end
    ensures HostSpansGo(spans, a, true, h, p)
  {
    hide HostSpansAt, Wrap, U16, Grown, WithUser;
    HostInParts(spans, a, true, h, p);
    HostInParts(spans, a, true, h, p + 1);
    var s := With(NoHost(spans), Userinfo, a, p);
    assert p == h.user ==> WithUser(spans, a, true, h) == s by { WithUserIs(spans, a, h); }
    WrapWith(NoHost(spans), Userinfo, a, p);
    WrapKnown(s, Host);
    WrapKnown(s, Userinfo);
  }

  lemma WithUserIs(spans: Spans, a: nat, h: Authority)
    requires Host in spans
    ensures WithUser(spans, a, true, h) == With(NoHost(spans), Userinfo, a, h.user)
  {
  }

  lemma HostGoes(spans: Spans, a: nat, at: bool, h: Authority, p: nat)
    requires HostReady(spans) && HostAt(a, at, h) <= p < h.end && HostShape(a, at, h) && TextAt(a, at, h) < h.end
    ensures HostSpansGo(spans, a, at, h, p)
  {
    hide HostSpansAt, WithUser, Wrap, U16, Grown;
    HostInParts(spans, a, at, h, p);
    HostInParts(spans, a, at, h, p + 1);
    var s, from := WithUser(spans, a, at, h), TextAt(a, at, h);
    WrapKnown(s, Host);
    WrapKnown(With(s, Host, from, p), Host);
    if from <= p {
      WrapWith(s, Host, from, p);
      if from == p { HostFirst(Wrap(s), p); }
    }
  }

  // The length of a host that begins is 0.
  lemma HostFirst(spans: Spans, p: nat)
    requires Host in spans && spans[Host].len == 0
    ensures HostGrown(spans, true, p) == spans[Host := Span(U16(p), 1)]
  {
  }

  lemma PortGoes(spans: Spans, a: nat, at: bool, h: Authority, p: nat)
    requires HostReady(spans) && a <= p && h.end <= p && HostShape(a, at, h) && TextAt(a, at, h) < h.end
    ensures HostSpansGo(spans, a, at, h, p)
  {
    hide HostSpansAt, WithUser, Wrap, U16, Grown;
    HostInParts(spans, a, at, h, p);
    HostInParts(spans, a, at, h, p + 1);
    var s, from := With(WithUser(spans, a, at, h), Host, TextAt(a, at, h), h.end), ColonAt(h) + 1;
    WrapKnown(With(s, Port, from, p), Host);
    WrapKnown(With(s, Port, from, p), Port);
    if from <= p { WrapWith(s, Port, from, p); }
  }

  lemma HostSpansStep(spans: Spans, a: nat, at: bool, h: Authority, p: nat)
    requires HostReady(spans) && a <= p && HostShape(a, at, h) && TextAt(a, at, h) < h.end
    ensures HostSpansGo(spans, a, at, h, p)
  {
    hide HostSpansGo;
    if at && p <= h.user { UserinfoGoes(spans, a, h, p); }
    else if p < h.end { HostGoes(spans, a, at, h, p); }
    else { PortGoes(spans, a, at, h, p); }
  }

  // One byte of an authority.
  lemma HostStep(spans: Spans, a: nat, at: bool, h: Authority, p: nat, ch: char)
    requires HostReady(spans) && a <= p
    requires HostShape(a, at, h) && TextAt(a, at, h) < h.end && HostAllows(a, at, h, p, ch)
    requires HostSane(HostScan(HostStateAt(a, at, h, p), Wrap(HostSpansAt(spans, a, at, h, p))))
    ensures HostByte(HostScan(HostStateAt(a, at, h, p), Wrap(HostSpansAt(spans, a, at, h, p))), p, ch) ==
            HostScan(HostStateAt(a, at, h, p + 1), Wrap(HostSpansAt(spans, a, at, h, p + 1)))
  {
    hide HostStateAt, HostSpansAt, HostChar, HostAllows, TakenSpans;
    HostStateStep(a, at, h, p, ch);
    HostSpansStep(spans, a, at, h, p);
  }

  /** An authority is scanned as it is laid out. */
  lemma {:induction false} HostScanned(url: string, a: nat, p: nat, at: bool, h: Authority, spans: Spans)
    requires a <= p <= |url| && HostReady(spans)
    requires HostShape(a, at, h) && TextAt(a, at, h) < h.end && HostAllowed(url, a, p, at, h)
    ensures ScanHost(url, a, p - a, at, Wrap(spans)) ==
            HostScan(HostStateAt(a, at, h, p), Wrap(HostSpansAt(spans, a, at, h, p)))
  {
    hide HostStateAt, HostSpansAt, HostAllows, HostByte;
    if p == a {
      HostBegins(a, at, h, spans);
    } else {
      HostScanned(url, a, p - 1, at, h, spans);
      HostStep(spans, a, at, h, p - 1, url[p - 1]);
    }
  }

  lemma HostBegins(a: nat, at: bool, h: Authority, spans: Spans)
    requires HostReady(spans) && HostShape(a, at, h) && TextAt(a, at, h) < h.end
    ensures HostScan(if at then UserinfoStart else HostStart, NoHost(Wrap(spans))) ==
            HostScan(HostStateAt(a, at, h, a), Wrap(HostSpansAt(spans, a, at, h, a)))
  {
    assert HostSpansAt(spans, a, at, h, a) == NoHost(spans);
    assert NoHost(Wrap(spans)) == Wrap(NoHost(spans));
  }

  // What is not yet known of the layout at `p` lies just ahead.
  predicate HostTight(at: bool, h: Authority, p: nat) {
    if at && p <= h.user then h.user == p && !h.v6 && h.end == p + 2
    else p <= h.end ==> h.end == p + 1
  }

  // The layout after one more byte that http_parse_host takes.
  function HostMore(a: nat, at: bool, h: Authority, p: nat, ch: char): Authority {
    match HostStateAt(a, at, h, p)
    case UserinfoStart => if ch == '@' then h else h.(user := p + 1, end := p + 3)
    case InUserinfo => if ch == '@' then h else h.(user := p + 1, end := p + 3)
    case HostStart => h.(v6 := ch == '[', end := p + 2)
    case HostV6Start => h.(end := p + 2)
    case HostV6 => if ch == ']' then h.(end := p) else h.(end := p + 2)
    case InHost => if ch == ':' then h.(end := p) else h.(end := p + 2)
    case _ => h
  }

  lemma HostMoreLaid(a: nat, at: bool, h: Authority, p: nat, ch: char)
    requires a <= p && HostShape(a, at, h) && TextAt(a, at, h) < h.end && HostTight(at, h, p)
    requires !HostStateAt(a, at, h, p).HostDead? && !HostChar(HostStateAt(a, at, h, p), ch).HostDead?
    ensures var h' := HostMore(a, at, h, p, ch);
            && HostShape(a, at, h') && TextAt(a, at, h') < h'.end && HostTight(at, h', p + 1)
            && HostAllows(a, at, h', p, ch) && HostStateAt(a, at, h', p) == HostStateAt(a, at, h, p)
  {
  }

  lemma HostMoreKeeps(a: nat, at: bool, h: Authority, p: nat, ch: char, i: nat, c: char)
    requires a <= i < p && HostShape(a, at, h) && TextAt(a, at, h) < h.end && HostTight(at, h, p)
    requires HostAllows(a, at, h, i, c) && !HostChar(HostStateAt(a, at, h, p), ch).HostDead?
    ensures HostAllows(a, at, HostMore(a, at, h, p, ch), i, c)
  {
    hide IsUserinfoChar, IsHostChar, IsV6Char;
  }

  lemma HostMoreAllowed(url: string, a: nat, p: nat, at: bool, h: Authority)
    requires a <= p < |url| && HostShape(a, at, h) && TextAt(a, at, h) < h.end && HostTight(at, h, p)
    requires HostAllowed(url, a, p, at, h) && !HostChar(HostStateAt(a, at, h, p), url[p]).HostDead?
    requires HostAllows(a, at, HostMore(a, at, h, p, url[p]), p, url[p])
    ensures HostAllowed(url, a, p + 1, at, HostMore(a, at, h, p, url[p]))
  {
    hide HostStateAt, HostAllows, HostMore, HostShape, HostTight, TextAt, HostChar;
    forall i | a <= i < p ensures HostAllows(a, at, HostMore(a, at, h, p, url[p]), i, url[i]) {
      HostMoreKeeps(a, at, h, p, url[p], i, url[i]);
    }
  }

  /** What is scanned is laid out somehow. */
  lemma {:induction false} HostUnderstood(url: string, a: nat, p: nat, at: bool, spans: Spans) returns (h: Authority)
    requires a <= p <= |url| && HostReady(spans) && !ScanHost(url, a, p - a, at, Wrap(spans)).s.HostDead?
    ensures HostShape(a, at, h) && TextAt(a, at, h) < h.end && HostTight(at, h, p) && HostAllowed(url, a, p, at, h)
    ensures ScanHost(url, a, p - a, at, Wrap(spans)).s == HostStateAt(a, at, h, p)
  {
    if p == a {
      h := if at then Authority(a, false, a + 2) else Authority(a, false, a + 1);
    } else {
      hide HostStateAt, HostSpansAt, HostAllows, HostAllowed, HostMore, HostShape, HostTight, TextAt, HostChar;
      var ch := url[p - 1];
      var c := ScanHost(url, a, p - 1 - a, at, Wrap(spans));
      DeadHost(ch);
      var h0 := HostUnderstood(url, a, p - 1, at, spans);
      HostMoreLaid(a, at, h0, p - 1, ch);
      h := HostMore(a, at, h0, p - 1, ch);
      HostMoreAllowed(url, a, p - 1, at, h0);
      HostScanned(url, a, p, at, h, spans);
    }
  }

  lemma DeadHost(ch: char)
    ensures HostChar(HostDead, ch) == HostDead
  {
  }

  // The fields of a whole authority.
  function HostSpans(spans: Spans, a: nat, b: nat, at: bool, h: Authority): Spans
    requires Host in spans
  {
    HostSpansAt(spans, a, at, h, b)
  }

  /** http_parse_host accepts exactly the authorities, and reports their fields modulo 2^16. */
  lemma HostExact(url: string, a: nat, b: nat, at: bool, spans: Spans)
    requires a <= b <= |url| && HostReady(spans)
    ensures HostEnds(ScanHost(url, a, b - a, at, Wrap(spans)).s) <==> exists h :: HostLaid(url, a, b, at, h)
    ensures forall h :: HostLaid(url, a, b, at, h) ==>
              ScanHost(url, a, b - a, at, Wrap(spans)).spans == Wrap(HostSpans(spans, a, b, at, h))
  {
    forall h | HostLaid(url, a, b, at, h)
      ensures HostEnds(ScanHost(url, a, b - a, at, Wrap(spans)).s)
      ensures ScanHost(url, a, b - a, at, Wrap(spans)).spans == Wrap(HostSpans(spans, a, b, at, h))
    {
      HostScanned(url, a, b, at, h, spans);
      LaidEnds(url, a, b, at, h);
    }
    if HostEnds(ScanHost(url, a, b - a, at, Wrap(spans)).s) {
      var h := HostUnderstood(url, a, b, at, spans);
      var h' := EndsLaid(url, a, b, at, h);
    }
  }

  lemma LaidEnds(url: string, a: nat, b: nat, at: bool, h: Authority)
    requires a <= b <= |url| && HostLaid(url, a, b, at, h)
    ensures HostEnds(HostStateAt(a, at, h, b))
  {
  }

  lemma EndsLaid(url: string, a: nat, b: nat, at: bool, h: Authority) returns (h': Authority)
    requires a <= b <= |url| && HostShape(a, at, h) && TextAt(a, at, h) < h.end && HostTight(at, h, b)
    requires HostAllowed(url, a, b, at, h) && HostEnds(HostStateAt(a, at, h, b))
    ensures HostLaid(url, a, b, at, h')
  {
    h' := if HostStateAt(a, at, h, b).InHost? then h.(end := b) else h;
    hide IsUserinfoChar, IsHostChar, IsV6Char;
    assert forall i :: a <= i < b ==> HostAllows(a, at, h, i, url[i]) == HostAllows(a, at, h', i, url[i]);
  }

  // ---------- The whole URL ----------

  // The end of the scheme (0: none) and of the authority and path, whether there is a '?', the end of the
  // query, and the start of the fragment, after any number of '#'.
  datatype Outline = Outline(scheme: nat, auth: nat, path: nat, mark: bool, query: nat, fragment: nat)

  function AuthorityAt(o: Outline): nat {
    if o.scheme > 0 then o.scheme + 3 else 0
  }

  predicate IsAuthorityChar(ch: char) {
    IsUserinfoChar(ch) || ch == '[' || ch == ']' || ch == '@'
  }

  predicate Allows(connect: bool, o: Outline, i: nat, ch: char) {
    if i < o.scheme then IsAlpha(ch)
    else if i < AuthorityAt(o) then (if i == o.scheme then ch == ':' else ch == '/')
    else if i < o.auth then IsAuthorityChar(ch)
    else if i < o.path then
      if i > o.auth then IsUrlChar(ch) else ch == '/' || (ch == '*' && !connect && o.scheme == 0)
    else if o.mark && i == o.path then ch == '?'
    else if i < o.query then IsUrlChar(ch) || ch == '?'
    else if i < o.fragment then ch == '#'
    else IsUrlChar(ch) || ch == '?' || (ch == '#' && i > o.fragment)
  }

  predicate Shape(connect: bool, o: Outline) {
    && AuthorityAt(o) <= o.auth <= o.path <= o.query <= o.fragment
    && (if o.mark then o.path < o.query else o.path == o.query)
    && (connect ==> o.scheme == 0)
    && (!connect && o.scheme == 0 ==> o.auth == 0 && o.path > 0)
    && (o.query < o.fragment ==> o.auth < o.path || o.mark)
  }

  predicate NoTwins(url: string, n: nat, o: Outline)
    requires n <= |url|
  {
    forall i :: AuthorityAt(o) <= i < n - 1 && i + 1 < o.auth ==> url[i] != '@' || url[i + 1] != '@'
  }

  predicate Allowed(url: string, n: nat, connect: bool, o: Outline)
    requires n <= |url|
  {
    (forall i :: 0 <= i < n ==> Allows(connect, o, i, url[i])) && NoTwins(url, n, o) &&
    (o.fragment < n ==> o.query < o.fragment)
  }

  // The state at `p`, after the byte `prev`.
  function StateAt(connect: bool, o: Outline, p: nat, prev: char): Option<UrlState> {
    if p == 0 then (if connect then Some(ReqServerStart) else None)
    else if p <= o.scheme then Some(ReqSchema)
    else if p <= AuthorityAt(o) then
      if p == o.scheme + 1 then Some(ReqSchemaSlash)
      else if p == o.scheme + 2 then Some(ReqSchemaSlashSlash)
      else Some(ReqServerStart)
    else if p <= o.auth then Some(if prev == '@' then ReqServerWithAt else ReqServer)
    else if p <= o.path then Some(ReqPath)
    else if o.mark && p == o.path + 1 then Some(ReqQueryStringStart)
    else if p <= o.query then Some(ReqQueryString)
    else if p <= o.fragment then Some(ReqFragmentStart)
    else Some(ReqFragment)
  }

  function HeadSpansAt(o: Outline, p: nat): Spans {
    With(With(map[], Schema, 0, Min(p, o.scheme)), Host, AuthorityAt(o), Min(p, o.auth))
  }

  function OuterSpansAt(o: Outline, p: nat): Spans {
    var s := With(With(HeadSpansAt(o, p), Path, o.auth, Min(p, o.path)), Query, o.path + 1, Min(p, o.query));
    With(s, Fragment, o.fragment, p)
  }

  function LastAt(o: Outline, p: nat): Option<UrlField> {
    if o.fragment < p then Some(Fragment)
    else if o.path + 1 < Min(p, o.query) then Some(Query)
    else if o.auth < Min(p, o.path) then Some(Path)
    else if AuthorityAt(o) < Min(p, o.auth) then Some(Host)
    else if 0 < Min(p, o.scheme) then Some(Schema)
    else None
  }

  function ScanAt(connect: bool, o: Outline, p: nat, prev: char, at: bool): (c: Scan)
    ensures Sane(c)
  {
    Scan(StateAt(connect, o, p, prev), LastAt(o, p), Wrap(OuterSpansAt(o, p)), at)
  }

  predicate StepOk(connect: bool, o: Outline, p: nat, prev: char, ch: char) {
    && Shape(connect, o) && Allows(connect, o, p, ch) && (o.fragment <= p ==> o.query < o.fragment)
    && (AuthorityAt(o) < p < o.auth ==> prev != '@' || ch != '@')
  }

  lemma StateStep(connect: bool, o: Outline, p: nat, prev: char, ch: char)
    requires StepOk(connect, o, p, prev, ch)
    ensures ParseUrlChar(StateAt(connect, o, p, prev), ch) == StateAt(connect, o, p + 1, ch)
    ensures StateAt(connect, o, p + 1, ch).Some?
  {
  }

  predicate SpansGo(connect: bool, o: Outline, p: nat, ch: char) {
    var next := StateAt(connect, o, p + 1, ch);
    next.Some? &&
    match FieldOf(next.value)
    case None => OuterSpansAt(o, p + 1) == OuterSpansAt(o, p) && LastAt(o, p + 1) == LastAt(o, p)
    case Some(f) =>
      && LastAt(o, p + 1) == Some(f)
      && (LastAt(o, p) == Some(f) ==> f in OuterSpansAt(o, p))
      && Wrap(OuterSpansAt(o, p + 1)) ==
         if LastAt(o, p) == Some(f) then Grown(Wrap(OuterSpansAt(o, p)), f)
         else Wrap(OuterSpansAt(o, p))[f := Span(U16(p), 1)]
  }

  // The fields outside the authority, part by part.
  lemma OuterInHead(o: Outline, p: nat)
    requires AuthorityAt(o) <= o.auth <= o.path <= o.query <= o.fragment
    ensures p <= AuthorityAt(o) ==> OuterSpansAt(o, p) == With(map[], Schema, 0, Min(p, o.scheme))
    ensures AuthorityAt(o) <= p <= o.auth ==>
              OuterSpansAt(o, p) == With(With(map[], Schema, 0, o.scheme), Host, AuthorityAt(o), p)
  {
  }

  lemma OuterInTail(o: Outline, p: nat)
    requires AuthorityAt(o) <= o.auth <= o.path <= o.query <= o.fragment
    ensures var s := HeadSpansAt(o, o.auth);
            && (o.auth <= p <= o.path ==> OuterSpansAt(o, p) == With(s, Path, o.auth, p))
            && (o.path <= p <= o.query ==> OuterSpansAt(o, p) == With(With(s, Path, o.auth, o.path), Query, o.path + 1, p))
            && (o.query <= p ==>
                  OuterSpansAt(o, p) ==
                  With(With(With(s, Path, o.auth, o.path), Query, o.path + 1, o.query), Fragment, o.fragment, p))
  {
    if o.auth <= p { HeadSettled(o, p); }
    hide HeadSpansAt;
  }

  lemma SpansScheme(connect: bool, o: Outline, p: nat, ch: char)
    requires Shape(connect, o) && p < AuthorityAt(o)
    ensures SpansGo(connect, o, p, ch)
  {
    hide OuterSpansAt, HeadSpansAt, Wrap, U16, Grown;
    OuterInHead(o, p);
    OuterInHead(o, p + 1);
    WrapWith(map[], Schema, 0, p);
  }

  lemma SpansHost(connect: bool, o: Outline, p: nat, ch: char)
    requires Shape(connect, o) && AuthorityAt(o) <= p < o.auth
    ensures SpansGo(connect, o, p, ch)
  {
    hide OuterSpansAt, HeadSpansAt, Wrap, U16, Grown;
    OuterInHead(o, p);
    OuterInHead(o, p + 1);
    WrapWith(With(map[], Schema, 0, o.scheme), Host, AuthorityAt(o), p);
  }

  lemma HeadSettled(o: Outline, p: nat)
    requires AuthorityAt(o) <= o.auth <= p
    ensures HeadSpansAt(o, p) == HeadSpansAt(o, o.auth)
    ensures Path !in HeadSpansAt(o, p) && Query !in HeadSpansAt(o, p) && Fragment !in HeadSpansAt(o, p)
  {
  }

  lemma SpansPath(connect: bool, o: Outline, p: nat, ch: char)
    requires Shape(connect, o) && o.auth <= p < o.path
    ensures SpansGo(connect, o, p, ch)
  {
    hide OuterSpansAt, HeadSpansAt, Wrap, U16, Grown;
    OuterInTail(o, p);
    OuterInTail(o, p + 1);
    WrapWith(HeadSpansAt(o, o.auth), Path, o.auth, p);
  }

  lemma SpansQuery(connect: bool, o: Outline, p: nat, ch: char)
    requires Shape(connect, o) && o.path <= p < o.query
    ensures SpansGo(connect, o, p, ch)
  {
    hide OuterSpansAt, HeadSpansAt, Wrap, U16, Grown;
    OuterInTail(o, p);
    OuterInTail(o, p + 1);
    if o.path < p { WrapWith(With(HeadSpansAt(o, o.auth), Path, o.auth, o.path), Query, o.path + 1, p); }
  }

  lemma SpansTail(connect: bool, o: Outline, p: nat, ch: char)
    requires Shape(connect, o) && o.query <= p
    ensures SpansGo(connect, o, p, ch)
  {
    hide OuterSpansAt, HeadSpansAt, Wrap, U16, Grown;
    OuterInTail(o, p);
    OuterInTail(o, p + 1);
    var s := With(With(HeadSpansAt(o, o.auth), Path, o.auth, o.path), Query, o.path + 1, o.query);
    if o.fragment <= p { WrapWith(s, Fragment, o.fragment, p); }
  }

  lemma SpansStep(connect: bool, o: Outline, p: nat, ch: char)
    requires Shape(connect, o)
    ensures SpansGo(connect, o, p, ch)
  {
    hide SpansGo;
    if p < AuthorityAt(o) { SpansScheme(connect, o, p, ch); }
    else if p < o.auth { SpansHost(connect, o, p, ch); }
    else if p < o.path { SpansPath(connect, o, p, ch); }
    else if p < o.query { SpansQuery(connect, o, p, ch); }
    else { SpansTail(connect, o, p, ch); }
  }

  lemma ScanStep(connect: bool, o: Outline, p: nat, prev: char, ch: char, at: bool)
    requires StepOk(connect, o, p, prev, ch)
    ensures ScanByte(ScanAt(connect, o, p, prev, at), p, ch) ==
            ScanAt(connect, o, p + 1, ch, at || (AuthorityAt(o) <= p < o.auth && ch == '@'))
  {
    hide ParseUrlChar, OuterSpansAt, LastAt, Grown, Allows, Shape;
    StateStep(connect, o, p, prev, ch);
    SpansStep(connect, o, p, ch);
    WithAtState(connect, o, p, ch);
  }

  lemma WithAtState(connect: bool, o: Outline, p: nat, ch: char)
    requires Shape(connect, o)
    ensures StateAt(connect, o, p + 1, ch) == Some(ReqServerWithAt) <==> AuthorityAt(o) <= p < o.auth && ch == '@'
  {
  }

  predicate HasAt(url: string, o: Outline, p: nat)
    requires p <= |url|
  {
    exists i :: AuthorityAt(o) <= i < Min(p, o.auth) && url[i] == '@'
  }

  function Prev(url: string, p: nat): char
    requires p <= |url|
  {
    if p == 0 then '\0' else url[p - 1]
  }

  /** A URL is scanned as it is laid out. */
  lemma {:induction false} UrlScanned(url: string, p: nat, connect: bool, o: Outline)
    requires p <= |url| && Shape(connect, o) && Allowed(url, p, connect, o)
    ensures ScanUrl(url, p, connect) == ScanAt(connect, o, p, Prev(url, p), HasAt(url, o, p))
  {
    hide StateAt, OuterSpansAt, LastAt, Allows, ScanByte, Shape;
    if p == 0 {
      UrlBegins(connect, o);
    } else {
      UrlScanned(url, p - 1, connect, o);
      ScanStep(connect, o, p - 1, Prev(url, p - 1), url[p - 1], HasAt(url, o, p - 1));
      var here := AuthorityAt(o) <= p - 1 < o.auth && url[p - 1] == '@';
      assert HasAt(url, o, p) <==> HasAt(url, o, p - 1) || here;
    }
  }

  lemma UrlBegins(connect: bool, o: Outline)
    requires Shape(connect, o)
    ensures StateAt(connect, o, 0, '\0') == (if connect then Some(ReqServerStart) else None)
    ensures LastAt(o, 0) == None && OuterSpansAt(o, 0) == map[]
  {
  }

  // What is not yet known of the outline at `p` lies just ahead.
  predicate Tight(connect: bool, o: Outline, p: nat) {
    if p == 0 && !connect then o == Outline(0, 0, 1, false, 1, 1)
    else if p < AuthorityAt(o) then
      (p <= o.scheme ==> p == o.scheme) && o == Outline(o.scheme, o.scheme + 3, o.scheme + 3, false, o.scheme + 3, o.scheme + 3)
    else
      o.fragment <= p && (p <= o.auth ==> p == o.auth) && (p <= o.path ==> p == o.path) && (p <= o.query ==> p == o.query)
  }

  function EndIn(o: Outline, path: nat, mark: bool, query: nat): Outline {
    Outline(o.scheme, o.auth, path, mark, query, query)
  }

  // The outline after one more byte that parse_url_char takes to the state `u`.
  function More(o: Outline, p: nat, u: UrlState): Outline {
    match u
    case ReqSchema => Outline(p + 1, p + 4, p + 4, false, p + 4, p + 4)
    case ReqServer => Outline(o.scheme, p + 1, p + 1, false, p + 1, p + 1)
    case ReqServerWithAt => Outline(o.scheme, p + 1, p + 1, false, p + 1, p + 1)
    case ReqPath => EndIn(o, p + 1, false, p + 1)
    case ReqQueryStringStart => EndIn(o, o.path, true, p + 1)
    case ReqQueryString => EndIn(o, o.path, o.mark, p + 1)
    case ReqFragmentStart => o.(fragment := p + 1)
    case _ => o
  }

  predicate MoreOk(connect: bool, o: Outline, p: nat, prev: char, ch: char) {
    var s := StateAt(connect, o, p, prev);
    var u := ParseUrlChar(s, ch);
    u.Some? ==>
      var o' := More(o, p, u.value);
      StepOk(connect, o', p, prev, ch) && Tight(connect, o', p + 1) && StateAt(connect, o', p, prev) == s
  }

  predicate MoreReady(connect: bool, o: Outline, p: nat) {
    Shape(connect, o) && Tight(connect, o, p) && (o.fragment < p ==> o.query < o.fragment)
  }

  lemma MoreHead(connect: bool, o: Outline, p: nat, prev: char, ch: char)
    requires MoreReady(connect, o, p) && (p == 0 || p < AuthorityAt(o))
    ensures MoreOk(connect, o, p, prev, ch)
  {
    hide IsUserinfoChar, IsAlpha, IsUrlChar;
  }

  lemma MoreHost(connect: bool, o: Outline, p: nat, prev: char, ch: char)
    requires MoreReady(connect, o, p) && 0 < p && AuthorityAt(o) <= p <= o.auth
    ensures MoreOk(connect, o, p, prev, ch)
  {
    hide IsUserinfoChar, IsAlpha, IsUrlChar;
  }

  lemma MoreTail(connect: bool, o: Outline, p: nat, prev: char, ch: char)
    requires MoreReady(connect, o, p) && o.auth < p
    ensures MoreOk(connect, o, p, prev, ch)
  {
    hide IsUserinfoChar, IsAlpha, IsUrlChar;
  }

  lemma MoreLaid(connect: bool, o: Outline, p: nat, prev: char, ch: char)
    requires MoreReady(connect, o, p)
    ensures MoreOk(connect, o, p, prev, ch)
  {
    hide MoreOk;
    if p == 0 || p < AuthorityAt(o) { MoreHead(connect, o, p, prev, ch); }
    else if p <= o.auth { MoreHost(connect, o, p, prev, ch); }
    else { MoreTail(connect, o, p, prev, ch); }
  }

  lemma MoreKeeps(connect: bool, o: Outline, p: nat, prev: char, ch: char, i: nat, c: char)
    requires i < p && Shape(connect, o) && Tight(connect, o, p) && Allows(connect, o, i, c)
    requires ParseUrlChar(StateAt(connect, o, p, prev), ch).Some?
    ensures var o' := More(o, p, ParseUrlChar(StateAt(connect, o, p, prev), ch).value);
            && Allows(connect, o', i, c)
            && (AuthorityAt(o') <= i && i + 1 < p && i + 1 < o'.auth ==> AuthorityAt(o) <= i && i + 1 < o.auth)
  {
    hide IsUserinfoChar, IsAlpha, IsUrlChar;
  }

  lemma AllowedMore(url: string, p: nat, connect: bool, o: Outline, o': Outline)
    requires p < |url| && MoreReady(connect, o, p) && Allowed(url, p, connect, o)
    requires ParseUrlChar(StateAt(connect, o, p, Prev(url, p)), url[p]).Some?
    requires o' == More(o, p, ParseUrlChar(StateAt(connect, o, p, Prev(url, p)), url[p]).value)
    requires StepOk(connect, o', p, Prev(url, p), url[p])
    ensures Allowed(url, p + 1, connect, o')
  {
    hide StateAt, Allows, Tight, ParseUrlChar, More, Shape;
    forall i | 0 <= i < p + 1 ensures Allows(connect, o', i, url[i]) {
      if i < p { MoreKeeps(connect, o, p, Prev(url, p), url[p], i, url[i]); }
    }
    forall i | AuthorityAt(o') <= i < p && i + 1 < o'.auth ensures url[i] != '@' || url[i + 1] != '@' {
      MoreKeeps(connect, o, p, Prev(url, p), url[p], i, url[i]);
    }
  }

  /** What is scanned is laid out somehow. */
  lemma {:induction false} UrlUnderstood(url: string, p: nat, connect: bool) returns (o: Outline)
    requires p <= |url| && ScanUrl(url, p, connect).Scan?
    ensures MoreReady(connect, o, p) && Allowed(url, p, connect, o)
  {
    if p == 0 {
      o := if connect then Outline(0, 0, 0, false, 0, 0) else Outline(0, 0, 1, false, 1, 1);
    } else {
      hide StateAt, OuterSpansAt, LastAt, Allowed, Shape, Tight, ParseUrlChar, FieldOf, Grown, More, Allows;
      var q := p - 1;
      var o0 := UrlUnderstood(url, q, connect);
      UrlScanned(url, q, connect, o0);
      MoreLaid(connect, o0, q, Prev(url, q), url[q]);
      o := More(o0, q, ParseUrlChar(StateAt(connect, o0, q, Prev(url, q)), url[q]).value);
      AllowedMore(url, q, connect, o0, o);
      assert o.fragment < p ==> o.query < o.fragment;
    }
  }

  // ---------- Whole URLs ----------

  predicate HasHost(o: Outline) {
    AuthorityAt(o) < o.auth
  }

  // The fields of the first `n` bytes, laid out so.
  function AllFields(url: string, n: nat, o: Outline, h: Authority): Spans
    requires n <= |url|
  {
    var spans := OuterSpansAt(o, n);
    if HasHost(o) && Host in spans then HostSpans(spans, AuthorityAt(o), o.auth, HasAt(url, o, n), h) else spans
  }

  // The first `n` bytes are of this outline.
  predicate Outlined(url: string, n: nat, connect: bool, o: Outline)
    requires n <= |url|
  {
    Shape(connect, o) && Allowed(url, n, connect, o) && o.fragment <= n && (o.scheme > 0 ==> HasHost(o))
  }

  // They are a URL of this layout.
  predicate UrlLaid(url: string, n: nat, connect: bool, o: Outline, h: Authority)
    requires n <= |url|
  {
    && Outlined(url, n, connect, o)
    && (HasHost(o) ==> HostLaid(url, AuthorityAt(o), o.auth, HasAt(url, o, n), h))
    && (connect ==> AllFields(url, n, o, h).Keys == {Host, Port})
  }

  // The authority as a whole can be described in 16 bits.
  predicate AuthorityFits(o: Outline) {
    HasHost(o) ==> AuthorityAt(o) <= MAX_URL && o.auth - AuthorityAt(o) <= MAX_URL
  }

  lemma OuterKeys(connect: bool, o: Outline, n: nat)
    requires Shape(connect, o)
    ensures var spans := OuterSpansAt(o, n);
            && (Host in spans <==> AuthorityAt(o) < Min(n, o.auth)) && (Schema in spans <==> 0 < Min(n, o.scheme))
            && Port !in spans && Userinfo !in spans
            && (HasHost(o) && o.auth <= n ==> spans[Host] == Span(AuthorityAt(o), o.auth - AuthorityAt(o)))
  {
  }

  // What http_parser_parse_url makes of an outline with an authority.
  lemma FieldsOfHost(url: string, n: nat, connect: bool, o: Outline)
    requires n <= |url| && Outlined(url, n, connect, o) && HasHost(o)
    ensures var a, len := U16(AuthorityAt(o)), U16(o.auth - AuthorityAt(o));
            && HostReady(OuterSpansAt(o, n)) && HostReady(Wrap(OuterSpansAt(o, n))) && a + len <= n
            && var c := ScanHost(url, a, len, HasAt(url, o, n), Wrap(OuterSpansAt(o, n)));
               Fields(url, n, connect) ==
               if !HostEnds(c.s) || (connect && c.spans.Keys != {Host, Port}) then None else Some(c.spans)
  {
    hide Allowed, StateAt, LastAt, OuterSpansAt, ScanHost, HasAt, HostEnds, ScanUrl, Wrap, U16;
    UrlScanned(url, n, connect, o);
    OuterKeys(connect, o, n);
    WrapKnown(OuterSpansAt(o, n), Host);
    WrapKnown(OuterSpansAt(o, n), Port);
    WrapKnown(OuterSpansAt(o, n), Userinfo);
  }

  lemma FieldsWithoutHost(url: string, n: nat, connect: bool, o: Outline)
    requires n <= |url| && Outlined(url, n, connect, o) && !HasHost(o)
    ensures Fields(url, n, connect) == if connect then None else Some(Wrap(OuterSpansAt(o, n)))
  {
    hide Allowed, StateAt, LastAt, OuterSpansAt, ScanHost, HasAt, HostEnds, ScanUrl, Wrap;
    UrlScanned(url, n, connect, o);
    OuterKeys(connect, o, n);
    WrapKnown(OuterSpansAt(o, n), Host);
    WrapKnown(OuterSpansAt(o, n), Schema);
  }

  lemma NoWrap(n: nat)
    ensures n <= MAX_URL ==> U16(n) == n
    ensures U16(n) <= MAX_URL && (n > MAX_URL ==> U16(n) < n)
  {
  }

  // A URL of this layout is accepted, with the fields of the layout modulo 2^16.
  lemma LaidAccepted(url: string, n: nat, connect: bool, o: Outline, h: Authority)
    requires n <= |url| && UrlLaid(url, n, connect, o, h) && AuthorityFits(o)
    ensures Fields(url, n, connect) == Some(Wrap(AllFields(url, n, o, h)))
  {
    hide Outlined, HostLaid, OuterSpansAt, ScanHost, HasAt, HostEnds, HostSpans, Fields, Wrap, U16;
    WrapFits(AllFields(url, n, o, h));
    OutlineIn(url, n, connect, o);
    if HasHost(o) {
      NoWrap(AuthorityAt(o));
      NoWrap(o.auth - AuthorityAt(o));
      FieldsOfHost(url, n, connect, o);
      HostExact(url, AuthorityAt(o), o.auth, HasAt(url, o, n), OuterSpansAt(o, n));
    } else {
      FieldsWithoutHost(url, n, connect, o);
      NoHostKeys(url, n, connect, o, h);
    }
  }

  lemma OutlineIn(url: string, n: nat, connect: bool, o: Outline)
    requires n <= |url| && Outlined(url, n, connect, o)
    ensures AuthorityAt(o) <= o.auth <= n && (Host in OuterSpansAt(o, n) <==> HasHost(o))
  {
    OuterKeys(connect, o, n);
    hide Allowed, OuterSpansAt;
  }

  lemma NoHostKeys(url: string, n: nat, connect: bool, o: Outline, h: Authority)
    requires n <= |url| && Outlined(url, n, connect, o) && !HasHost(o)
    ensures AllFields(url, n, o, h) == OuterSpansAt(o, n) && OuterSpansAt(o, n).Keys != {Host, Port}
  {
    OuterKeys(connect, o, n);
    hide Allowed, OuterSpansAt;
    assert Port !in OuterSpansAt(o, n).Keys;
    assert Port in {Host, Port};
  }

  // The layout of the authority of an accepted URL.
  lemma AcceptedHost(url: string, n: nat, connect: bool, o: Outline) returns (h: Authority)
    requires n <= |url| && Outlined(url, n, connect, o) && AuthorityFits(o) && Fields(url, n, connect).Some?
    ensures UrlLaid(url, n, connect, o, h)
  {
    hide Outlined, HostLaid, OuterSpansAt, ScanHost, HasAt, HostEnds, HostSpans, Fields, Wrap, U16;
    h := Authority(0, false, 0);
    OutlineIn(url, n, connect, o);
    if HasHost(o) {
      NoWrap(AuthorityAt(o));
      NoWrap(o.auth - AuthorityAt(o));
      FieldsOfHost(url, n, connect, o);
      HostExact(url, AuthorityAt(o), o.auth, HasAt(url, o, n), OuterSpansAt(o, n));
      h :| HostLaid(url, AuthorityAt(o), o.auth, HasAt(url, o, n), h);
      WrapFits(HostSpans(OuterSpansAt(o, n), AuthorityAt(o), o.auth, HasAt(url, o, n), h));
    } else {
      FieldsWithoutHost(url, n, connect, o);
    }
  }

  // What is accepted, and not empty, has an outline.
  lemma AcceptedOutlined(url: string, n: nat, connect: bool) returns (o: Outline)
    requires 0 < n <= |url| && Fields(url, n, connect).Some?
    ensures Outlined(url, n, connect, o)
  {
    hide Allowed, Shape, StateAt, LastAt, OuterSpansAt, ScanHost, HasAt, HostEnds, Tight, ScanUrl, Wrap;
    o := UrlUnderstood(url, n, connect);
    UrlScanned(url, n, connect, o);
    OuterKeys(connect, o, n);
    WrapKnown(OuterSpansAt(o, n), Host);
    WrapKnown(OuterSpansAt(o, n), Schema);
    TightEnds(connect, o, n);
    ShapeOrder(connect, o);
  }

  lemma ShapeOrder(connect: bool, o: Outline)
    requires Shape(connect, o)
    ensures AuthorityAt(o) <= o.auth <= o.fragment
  {
  }

  lemma TightEnds(connect: bool, o: Outline, n: nat)
    requires n > 0 && Shape(connect, o) && Tight(connect, o, n)
    requires 0 < Min(n, o.scheme) ==> AuthorityAt(o) < Min(n, o.auth)
    ensures o.fragment <= n
  {
  }

  // ---------- Authorities of 64 KiB and more ----------

  lemma {:induction false} SmallScan(url: string, n: nat, connect: bool)
    requires n <= |url| && ScanUrl(url, n, connect).Scan?
    ensures Fits(ScanUrl(url, n, connect).spans)
  {
    if n > 0 {
      SmallScan(url, n - 1, connect);
      hide ParseUrlChar;
    }
  }

  lemma {:induction false} SmallHost(url: string, a: nat, n: nat, at: bool, spans: Spans)
    requires a + n <= |url| && Host in spans && Port !in spans && Fits(spans)
    ensures Fits(ScanHost(url, a, n, at, spans).spans)
  {
    hide HostByte, Fits;
    if n == 0 {
      SmallNoHost(spans);
    } else {
      SmallHost(url, a, n - 1, at, spans);
      SmallByte(ScanHost(url, a, n - 1, at, spans), a + n - 1, url[a + n - 1]);
    }
  }

  lemma SmallNoHost(spans: Spans)
    requires Host in spans && Fits(spans)
    ensures Fits(NoHost(spans))
  {
  }

  lemma SmallByte(c: HostScan, p: nat, ch: char)
    requires HostSane(c) && Fits(c.spans)
    ensures Fits(HostByte(c, p, ch).spans)
  {
    hide HostChar, U16;
    NoWrap(p);
    assert forall n: nat :: U16(n) <= MAX_URL by { forall n: nat ensures U16(n) <= MAX_URL { NoWrap(n); } }
  }

  lemma SmallFields(url: string, n: nat, connect: bool)
    requires n <= |url| && Fields(url, n, connect).Some?
    ensures Fits(Fields(url, n, connect).value)
  {
    hide Fits;
    var c := ScanUrl(url, n, connect);
    SmallScan(url, n, connect);
    if Host in c.spans { SmallHost(url, c.spans[Host].off, c.spans[Host].len, c.at, c.spans); }
  }

  // The host and the port end where the authority does: what is read of a part of it is something else.
  lemma PartOfHost(spans: Spans, a: nat, b: nat, p: nat, at: bool, h: Authority)
    requires HostReady(spans) && a <= p < b && HostShape(a, at, h) && TextAt(a, at, h) < h.end
    requires b == ColonAt(h) || ColonAt(h) + 1 < b
    requires Fits(HostSpans(spans, a, b, at, h)) && HostEnds(HostStateAt(a, at, h, p))
    ensures Wrap(HostSpansAt(spans, a, at, h, p)) != HostSpans(spans, a, b, at, h)
  {
    var part, all := HostSpansAt(spans, a, at, h, p), HostSpans(spans, a, b, at, h);
    WrapKnown(part, Host);
    WrapKnown(part, Port);
    HostBounds(spans, a, b, at, h, Host);
    if ColonAt(h) + 1 < b {
      assert all[Port].len == b - ColonAt(h) - 1;
      if ColonAt(h) + 1 < p { assert part[Port].len == p - ColonAt(h) - 1; }
    } else {
      assert p < h.end && part[Host].len == p - TextAt(a, at, h);
    }
  }

  // An authority too long for 16 bits is not reported as it is.
  lemma LongAuthority(url: string, n: nat, connect: bool, o: Outline, h: Authority)
    requires n <= |url| && UrlLaid(url, n, connect, o, h) && !AuthorityFits(o)
    ensures Fields(url, n, connect) != Some(AllFields(url, n, o, h))
  {
    hide Outlined, OuterSpansAt, ScanHost, HasAt, HostEnds, HostSpansAt, Fields, Wrap, U16, Fits, HostAllowed;
    var a, at, spans := AuthorityAt(o), HasAt(url, o, n), OuterSpansAt(o, n);
    OutlineIn(url, n, connect, o);
    FieldsOfHost(url, n, connect, o);
    if Fields(url, n, connect).Some? { SmallFields(url, n, connect); }
    if a <= MAX_URL && Fits(AllFields(url, n, o, h)) {
      NoWrap(a);
      NoWrap(o.auth - a);
      var p := a + U16(o.auth - a);
      PrefixAllowed(url, a, p, o.auth, at, h);
      HostScanned(url, a, p, at, h, spans);
      if HostEnds(HostStateAt(a, at, h, p)) { PartOfHost(spans, a, o.auth, p, at, h); }
    } else if a > MAX_URL {
      HostBounds(spans, a, o.auth, at, h, Host);
      assert AllFields(url, n, o, h)[Host].off > MAX_URL;
      NotFits(AllFields(url, n, o, h), Host);
    }
  }

  lemma NotFits(spans: Spans, f: UrlField)
    requires f in spans && spans[f].off > MAX_URL
    ensures !Fits(spans)
  {
  }

  lemma PrefixAllowed(url: string, a: nat, p: nat, b: nat, at: bool, h: Authority)
    requires a <= p <= b <= |url| && HostAllowed(url, a, b, at, h)
    ensures HostAllowed(url, a, p, at, h)
  {
  }

  /**
   The URL parser, on a URL of any length: what it accepts has an outline; if the authority fits into 16 bits,
   the URL is accepted exactly if it has a layout; and the fields reported are those of the layout exactly if
   each of them fits into 16 bits, and the authority as a whole does.
   */
  lemma FieldsExact(url: string, n: nat, connect: bool)
    requires n <= |url|
    ensures n == 0 ==> Fields(url, n, connect) == if connect then None else Some(map[])
    ensures n > 0 && Fields(url, n, connect).Some? ==> exists o :: Outlined(url, n, connect, o)
    ensures forall o :: Outlined(url, n, connect, o) && AuthorityFits(o) ==>
              (Fields(url, n, connect).Some? <==> exists h :: UrlLaid(url, n, connect, o, h))
    ensures forall o, h :: UrlLaid(url, n, connect, o, h) ==>
              (Fields(url, n, connect) == Some(AllFields(url, n, o, h)) <==>
               Fits(AllFields(url, n, o, h)) && AuthorityFits(o))
  {
    EmptyUrl(url, connect);
    hide UrlLaid, AllFields, Outlined, Fields, AuthorityFits, Fits, Wrap;
    if n > 0 && Fields(url, n, connect).Some? { var o := AcceptedOutlined(url, n, connect); }
    forall o | Outlined(url, n, connect, o) && AuthorityFits(o)
      ensures Fields(url, n, connect).Some? <==> exists h :: UrlLaid(url, n, connect, o, h)
    {
      if Fields(url, n, connect).Some? { var h := AcceptedHost(url, n, connect, o); }
      forall h | UrlLaid(url, n, connect, o, h) ensures Fields(url, n, connect).Some? {
        LaidAccepted(url, n, connect, o, h);
      }
    }
    forall o, h | UrlLaid(url, n, connect, o, h)
      ensures Fields(url, n, connect) == Some(AllFields(url, n, o, h)) <==>
              Fits(AllFields(url, n, o, h)) && AuthorityFits(o)
    {
      WrapFits(AllFields(url, n, o, h));
      if AuthorityFits(o) { LaidAccepted(url, n, connect, o, h); } else { LongAuthority(url, n, connect, o, h); }
    }
  }

  // The fields reported are those of the layout.
  ghost predicate Faithful(url: string, n: nat, connect: bool)
    requires n <= |url|
  {
    n == 0 || exists o, h :: UrlLaid(url, n, connect, o, h) && AuthorityFits(o) && Fits(AllFields(url, n, o, h))
  }

  /** They are for every accepted URL of at most 65535 bytes. */
  lemma ShortFaithful(url: string, n: nat, connect: bool)
    requires n <= |url| && n <= MAX_URL && Fields(url, n, connect).Some?
    ensures Faithful(url, n, connect)
  {
    if n > 0 {
      hide AllFields, Outlined, Fields, Fits;
      var o := AcceptedOutlined(url, n, connect);
      OutlineIn(url, n, connect, o);
      var h := AcceptedHost(url, n, connect, o);
      ShortFits(url, n, connect, o, h);
    }
  }

  lemma ShortFits(url: string, n: nat, connect: bool, o: Outline, h: Authority)
    requires n <= |url| && n <= MAX_URL && UrlLaid(url, n, connect, o, h)
    ensures Fits(AllFields(url, n, o, h))
  {
    hide UrlLaid, AllFields, Bounds, HasAt;
    var all, at := AllFields(url, n, o, h), HasAt(url, o, n);
    forall f | f in all ensures all[f].off <= MAX_URL && all[f].len <= MAX_URL {
      FieldBounds(url, n, connect, o, h, f);
      BoundsOrdered(url, n, connect, o, h, f, f);
    }
  }

  // ---------- What a layout says ----------

  // From where to where a field is; it is not set where this is empty.
  function Bounds(n: nat, o: Outline, at: bool, h: Authority, f: UrlField): (nat, nat) {
    var a := AuthorityAt(o);
    match f
    case Schema => (0, o.scheme)
    case Userinfo => if HasHost(o) && at then (a, h.user) else (0, 0)
    case Host => if HasHost(o) then (TextAt(a, at, h), h.end) else (0, 0)
    case Port => if HasHost(o) then (ColonAt(h) + 1, o.auth) else (0, 0)
    case Path => (o.auth, o.path)
    case Query => (o.path + 1, o.query)
    case Fragment => (o.fragment, n)
  }

  predicate Bounded(spans: Spans, f: UrlField, b: (nat, nat)) {
    (f in spans <==> b.0 < b.1) && (f in spans ==> spans[f] == Span(b.0, b.1 - b.0))
  }

  // The fields outside the authority.
  lemma OuterBounds(connect: bool, o: Outline, n: nat, f: UrlField)
    requires Shape(connect, o) && o.fragment <= n && f != Host && f != Userinfo && f != Port
    ensures Bounded(OuterSpansAt(o, n), f, Bounds(n, o, false, Authority(0, false, 0), f))
  {
  }

  lemma HostBounds(spans: Spans, a: nat, b: nat, at: bool, h: Authority, f: UrlField)
    requires HostReady(spans) && HostShape(a, at, h) && TextAt(a, at, h) < h.end && ColonAt(h) <= b
    ensures var all := HostSpans(spans, a, b, at, h);
            && (f != Host && f != Userinfo && f != Port ==> (f in all <==> f in spans) && (f in spans ==> all[f] == spans[f]))
            && Bounded(all, Host, (TextAt(a, at, h), h.end)) && Bounded(all, Port, (ColonAt(h) + 1, b))
            && Bounded(all, Userinfo, if at then (a, h.user) else (0, 0))
  {
  }

  lemma FieldBounds(url: string, n: nat, connect: bool, o: Outline, h: Authority, f: UrlField)
    requires n <= |url| && UrlLaid(url, n, connect, o, h)
    ensures Bounded(AllFields(url, n, o, h), f, Bounds(n, o, HasAt(url, o, n), h, f))
  {
    hide Allowed, OuterSpansAt, HasAt, HostSpans, HostAllowed;
    OuterKeys(connect, o, n);
    if f != Host && f != Userinfo && f != Port { OuterBounds(connect, o, n, f); }
    if HasHost(o) {
      HostBounds(OuterSpansAt(o, n), AuthorityAt(o), o.auth, HasAt(url, o, n), h, f);
    }
  }

  // The order of the fields in a URL.
  function Rank(f: UrlField): nat {
    match f
    case Schema => 0 case Userinfo => 1 case Host => 2 case Port => 3 case Path => 4 case Query => 5 case Fragment => 6
  }

  predicate IsDelimiter(ch: char) {
    ch == ':' || ch == '/' || ch == '@' || ch == '[' || ch == ']' || ch == '?' || ch == '#'
  }

  predicate In(spans: Spans, f: UrlField, i: nat) {
    f in spans && spans[f].off <= i < spans[f].off + spans[f].len
  }

  // What stands right before, at the start of, or right after the field from `from` to `to`.
  predicate Punctuated(url: string, n: nat, f: UrlField, from: nat, to: nat)
    requires n <= |url| && from < to <= n
  {
    match f
    case Schema => from == 0 && to + 3 <= n && url[to..to + 3] == "://"
    case Userinfo => to < n && url[to] == '@'
    case Host => from == 0 || url[from - 1] == '/' || url[from - 1] == '@' || url[from - 1] == '['
    case Port => from > 0 && url[from - 1] == ':'
    case Path => url[from] == '/' || url[from] == '*'
    case Query => from > 0 && url[from - 1] == '?'
    case Fragment => from > 0 && url[from - 1] == '#'
  }

  // The fields are nonempty, in bounds, in order and disjoint, each with its own delimiter, and every byte
  // outside the fields is a delimiter.
  ghost predicate Tiled(url: string, n: nat, spans: Spans)
    requires n <= |url|
  {
    && (forall f :: f in spans ==>
          spans[f].len > 0 && spans[f].off + spans[f].len <= n &&
          Punctuated(url, n, f, spans[f].off, spans[f].off + spans[f].len))
    && (forall f, g :: f in spans && g in spans && Rank(f) < Rank(g) ==> spans[f].off + spans[f].len <= spans[g].off)
    && (forall i :: 0 <= i < n ==> IsDelimiter(url[i]) || exists f :: In(spans, f, i))
  }

  // The field a byte belongs to, if it is no delimiter.
  function Owner(o: Outline, at: bool, h: Authority, i: nat): UrlField {
    if i < o.scheme then Schema
    else if i < o.auth then
      if at && i < h.user then Userinfo else if i < h.end then Host else Port
    else if i < o.path then Path
    else if i < o.query then Query
    else Fragment
  }

  lemma OwnerOwns(url: string, n: nat, connect: bool, o: Outline, h: Authority, i: nat)
    requires i < n <= |url| && UrlLaid(url, n, connect, o, h) && !IsDelimiter(url[i])
    ensures var b := Bounds(n, o, HasAt(url, o, n), h, Owner(o, HasAt(url, o, n), h, i)); b.0 <= i < b.1
  {
    hide OuterSpansAt, HasAt, HostSpans, AllFields, IsUserinfoChar, IsHostChar, IsV6Char, IsUrlChar, IsAlpha;
    assert Allows(connect, o, i, url[i]);
    if AuthorityAt(o) <= i < o.auth { assert HostAllows(AuthorityAt(o), HasAt(url, o, n), h, i, url[i]); }
  }

  lemma BoundsOrdered(url: string, n: nat, connect: bool, o: Outline, h: Authority, f: UrlField, g: UrlField)
    requires n <= |url| && UrlLaid(url, n, connect, o, h)
    ensures var at := HasAt(url, o, n);
            var x, y := Bounds(n, o, at, h, f), Bounds(n, o, at, h, g);
            x.0 < x.1 && y.0 < y.1 ==> x.1 <= n && (Rank(f) < Rank(g) ==> x.1 <= y.0)
  {
    hide OuterSpansAt, HasAt, HostSpans, AllFields, Allowed, HostAllowed;
  }

  lemma FieldPunctuated(url: string, n: nat, connect: bool, o: Outline, h: Authority, f: UrlField)
    requires n <= |url| && UrlLaid(url, n, connect, o, h)
    ensures var b := Bounds(n, o, HasAt(url, o, n), h, f); b.0 < b.1 ==> b.1 <= n && Punctuated(url, n, f, b.0, b.1)
  {
    hide OuterSpansAt, HostSpans, AllFields, IsUserinfoChar, IsHostChar, IsV6Char, IsUrlChar, IsAlpha, HostAllowed, HasAt;
    var a, at := AuthorityAt(o), HasAt(url, o, n);
    assert o.auth <= o.path <= o.query <= o.fragment <= n;
    var b := Bounds(n, o, at, h, f);
    if b.0 < b.1 {
      match f
      case Schema =>
        assert Allows(connect, o, o.scheme, url[o.scheme]);
        assert Allows(connect, o, o.scheme + 1, url[o.scheme + 1]) && Allows(connect, o, o.scheme + 2, url[o.scheme + 2]);
      case Path => assert Allows(connect, o, o.auth, url[o.auth]);
      case Query => assert Allows(connect, o, o.path, url[o.path]);
      case Fragment => assert Allows(connect, o, o.fragment - 1, url[o.fragment - 1]);
      case _ => HostPunctuated(url, n, connect, o, h, f);
    }
  }

  lemma HostPunctuated(url: string, n: nat, connect: bool, o: Outline, h: Authority, f: UrlField)
    requires n <= |url| && UrlLaid(url, n, connect, o, h) && HasHost(o) && (f == Userinfo || f == Host || f == Port)
    ensures var b := Bounds(n, o, HasAt(url, o, n), h, f); b.0 < b.1 ==> b.1 <= n && Punctuated(url, n, f, b.0, b.1)
  {
    hide OuterSpansAt, HostSpans, AllFields, IsUserinfoChar, IsHostChar, IsV6Char, IsUrlChar, IsAlpha, HasAt;
    var a, at := AuthorityAt(o), HasAt(url, o, n);
    var b := Bounds(n, o, at, h, f);
    assert forall i :: a <= i < o.auth ==> HostAllows(a, at, h, i, url[i]);
    assert o.auth <= n;
    if b.0 < b.1 {
      if f == Userinfo {
        assert HostAllows(a, at, h, h.user, url[h.user]);
      } else if f == Port {
        assert HostAllows(a, at, h, ColonAt(h), url[ColonAt(h)]);
      } else if b.0 > a {
        assert HostAllows(a, at, h, b.0 - 1, url[b.0 - 1]);
      } else if a > 0 {
        assert Allows(connect, o, a - 1, url[a - 1]);
      }
    }
  }

  /** A URL whose fields are reported as they are is tiled by them. */
  lemma AcceptedTiled(url: string, n: nat, connect: bool)
    requires n <= |url| && Faithful(url, n, connect) && Fields(url, n, connect).Some?
    ensures Tiled(url, n, Fields(url, n, connect).value)
  {
    hide UrlLaid, AllFields, Bounds, Owner, IsDelimiter, Fields, HasAt, AuthorityFits, Wrap, Fits, Punctuated;
    EmptyUrl(url, connect);
    if n > 0 {
      var o, h :| UrlLaid(url, n, connect, o, h) && AuthorityFits(o) && Fits(AllFields(url, n, o, h));
      LaidAccepted(url, n, connect, o, h);
      WrapFits(AllFields(url, n, o, h));
      var spans, at := AllFields(url, n, o, h), HasAt(url, o, n);
      assert Fields(url, n, connect) == Some(spans);
      forall f | f in spans
        ensures spans[f].len > 0 && spans[f].off + spans[f].len <= n
        ensures Punctuated(url, n, f, spans[f].off, spans[f].off + spans[f].len)
      {
        FieldBounds(url, n, connect, o, h, f);
        BoundsOrdered(url, n, connect, o, h, f, f);
        FieldPunctuated(url, n, connect, o, h, f);
      }
      forall f, g | f in spans && g in spans && Rank(f) < Rank(g) ensures spans[f].off + spans[f].len <= spans[g].off {
        FieldBounds(url, n, connect, o, h, f);
        FieldBounds(url, n, connect, o, h, g);
        BoundsOrdered(url, n, connect, o, h, f, g);
      }
      forall i | 0 <= i < n && !IsDelimiter(url[i]) ensures exists f :: In(spans, f, i) {
        var f := Owner(o, at, h, i);
        OwnerOwns(url, n, connect, o, h, i);
        FieldBounds(url, n, connect, o, h, f);
        assert In(spans, f, i);
      }
    }
  }

  // ---------- The port ----------

  lemma {:induction false} DigitsSpan(mem: string, off: nat, end: nat)
    requires off <= end <= |mem| && (end == |mem| || !IsNum(mem[end])) && forall i :: off <= i < end ==> IsNum(mem[i])
    ensures DigitsAt(mem, off) == mem[off..end]
    decreases end - off
  {
    if off < end {
      DigitsSpan(mem, off + 1, end);
      assert mem[off..end] == [mem[off]] + mem[off + 1..end];
    }
  }

  lemma PortPlaced(url: string, n: nat, connect: bool, o: Outline, h: Authority)
    requires n <= |url| && UrlLaid(url, n, connect, o, h) && Port in AllFields(url, n, o, h)
    ensures HasHost(o) && o.auth <= n && AuthorityAt(o) <= ColonAt(h) && ColonAt(h) + 1 < o.auth
    ensures AllFields(url, n, o, h)[Port] == Span(ColonAt(h) + 1, o.auth - ColonAt(h) - 1)
    ensures forall i :: ColonAt(h) + 1 <= i < o.auth ==> IsNum(url[i])
    ensures o.auth < n ==> !IsNum(url[o.auth])
  {
    FieldBounds(url, n, connect, o, h, Port);
    hide OuterSpansAt, HasAt, HostSpans, AllFields, IsUserinfoChar, IsHostChar, IsV6Char;
    var a, at := AuthorityAt(o), HasAt(url, o, n);
    forall i | ColonAt(h) + 1 <= i < o.auth ensures IsNum(url[i]) {
      assert HostAllows(a, at, h, i, url[i]);
    }
    if o.auth < n { assert Allows(connect, o, o.auth, url[o.auth]); }
  }

  lemma EmptyUrl(mem: string, connect: bool)
    ensures Fields(mem, 0, connect) == if connect then None else Some(map[])
  {
  }

  /**
   The port is the exact decimal value of its span, if no digit follows the URL in memory, the authority fits
   into 16 bits, and the port begins within the first 64 KiB, however long the rest is.
   */
  lemma PortExact(mem: string, n: nat, connect: bool, o: Outline, h: Authority)
    requires n <= |mem| && (n == |mem| || !IsNum(mem[n])) && UrlLaid(mem, n, connect, o, h) && AuthorityFits(o)
    requires Port in AllFields(mem, n, o, h) && AllFields(mem, n, o, h)[Port].off <= MAX_URL
    ensures var fields := Fields(mem, n, connect);
            && fields.Some? && Port in fields.value && fields.value[Port] == AllFields(mem, n, o, h)[Port]
            && var span := fields.value[Port];
               span.off + span.len <= n && DigitsAt(mem, span.off) == mem[span.off..span.off + span.len] && span.len > 0
  {
    hide Fields, UrlLaid, AllFields, Wrap, U16;
    LaidAccepted(mem, n, connect, o, h);
    PortPlaced(mem, n, connect, o, h);
    WrapKnown(AllFields(mem, n, o, h), Port);
    NoWrap(ColonAt(h) + 1);
    NoWrap(o.auth - ColonAt(h) - 1);
    DigitsSpan(mem, ColonAt(h) + 1, o.auth);
  }

  // The same for a URL whose fields are reported as they are.
  lemma PortFaithful(mem: string, n: nat, connect: bool)
    requires n <= |mem| && (n == |mem| || !IsNum(mem[n])) && Faithful(mem, n, connect)
    requires Fields(mem, n, connect).Some? && Port in Fields(mem, n, connect).value
    ensures var span := Fields(mem, n, connect).value[Port];
            span.off + span.len <= n && DigitsAt(mem, span.off) == mem[span.off..span.off + span.len] && span.len > 0
  {
    hide Fields, UrlLaid, AllFields, AuthorityFits, Wrap;
    EmptyUrl(mem, connect);
    var o, h :| UrlLaid(mem, n, connect, o, h) && AuthorityFits(o) && Fits(AllFields(mem, n, o, h));
    LaidAccepted(mem, n, connect, o, h);
    WrapFits(AllFields(mem, n, o, h));
    PortExact(mem, n, connect, o, h);
  }

  /**
   A whole call: what is accepted, and reported as it is, is tiled, and its port is the value of its digits, at
   most 65535.
   */
  method ParseUrl(url: Url, mem: string, n: nat, connect: bool) returns (failed: bool)
    requires n <= |mem| && (n == |mem| || !IsNum(mem[n]))
    modifies url
    ensures n <= MAX_URL && Fields(mem, n, connect).Some? ==> Faithful(mem, n, connect)
    ensures !failed ==> Fields(mem, n, connect) == Some(url.spans) && (Port !in url.spans ==> url.port == 0)
    ensures !failed && Faithful(mem, n, connect) ==> Tiled(mem, n, url.spans)
    ensures !failed && Faithful(mem, n, connect) && Port in url.spans ==>
              var span := url.spans[Port];
              span.off + span.len <= n && url.port == Decimal(0, mem[span.off..span.off + span.len]) <= 65535
    ensures failed && Faithful(mem, n, connect) && Fields(mem, n, connect).Some? ==>
              var spans := Fields(mem, n, connect).value;
              Port in spans && var span := spans[Port];
              span.off + span.len <= n && Decimal(0, mem[span.off..span.off + span.len]) > 65535
  {
    hide Fields, Tiled, Faithful;
    failed := url.Parse(mem, n, connect);
    if Fields(mem, n, connect).Some? {
      if n <= MAX_URL { ShortFaithful(mem, n, connect); }
      if Faithful(mem, n, connect) {
        AcceptedTiled(mem, n, connect);
        if Port in Fields(mem, n, connect).value { PortFaithful(mem, n, connect); }
      }
    }
  }

  // ---------- Beyond 65535 bytes ----------

  // A URL that is a path.
  predicate OnlyPath(url: string) {
    url != "" && (url[0] == '/' || url[0] == '*') && forall i :: 0 < i < |url| ==> IsUrlChar(url[i])
  }

  lemma PathLaid(url: string)
    requires OnlyPath(url)
    ensures var o, h := Outline(0, 0, |url|, false, |url|, |url|), Authority(0, false, 0);
            UrlLaid(url, |url|, false, o, h) && AllFields(url, |url|, o, h) == map[Path := Span(0, |url|)]
  {
    hide IsUrlChar;
  }

  /**
   The length of a path is reported modulo 2^16: at 65536 bytes the field is set and empty. The URL is then still
   tiled exactly if something is left of the length, and what is cut off consists of delimiters.
   */
  lemma LongPath(url: string)
    requires OnlyPath(url)
    ensures var n, path := |url|, map[Path := Span(0, |url| % 0x1_0000)];
            && Fields(url, n, false) == Some(path) && (path == map[Path := Span(0, n)] <==> n <= MAX_URL)
            && (Tiled(url, n, path) <==> 0 < n % 0x1_0000 && forall i :: n % 0x1_0000 <= i < n ==> IsDelimiter(url[i]))
  {
    hide UrlLaid, AllFields, Fields, IsDelimiter, IsUrlChar;
    var n, path := |url|, map[Path := Span(0, |url| % 0x1_0000)];
    var o, h := Outline(0, 0, n, false, n, n), Authority(0, false, 0);
    PathLaid(url);
    LaidAccepted(url, n, false, o, h);
    assert Wrap(map[Path := Span(0, n)]) == path;
    assert path[Path] == Span(0, n % 0x1_0000);
    PathTiled(url, path);
  }

  lemma PathTiled(url: string, path: Spans)
    requires OnlyPath(url) && path == map[Path := Span(0, |url| % 0x1_0000)]
    ensures Tiled(url, |url|, path) <==>
            0 < |url| % 0x1_0000 && forall i :: |url| % 0x1_0000 <= i < |url| ==> IsDelimiter(url[i])
  {
    hide IsDelimiter, IsUrlChar;
    var n, cut := |url|, |url| % 0x1_0000;
    assert path[Path] == Span(0, cut);
    if Tiled(url, n, path) {
      assert Path in path;
      forall i | cut <= i < n ensures IsDelimiter(url[i]) {
        assert forall f :: !In(path, f, i);
      }
    }
    if 0 < cut && forall i :: cut <= i < n ==> IsDelimiter(url[i]) {
      assert Punctuated(url, n, Path, 0, cut);
      forall i: nat | i < n && !IsDelimiter(url[i]) ensures exists f :: In(path, f, i) {
        assert In(path, Path, i);
      }
    }
  }

  /** A slash and 65536 letters: the slash is all that is reported. */
  lemma PathCut()
    ensures exists url :: OnlyPath(url) && Fields(url, |url|, false) == Some(map[Path := Span(0, 1)]) &&
                          !Tiled(url, |url|, map[Path := Span(0, 1)])
  {
    hide Fields, Tiled;
    var url := "/" + seq(0x1_0000, i => 'a');
    assert url[1] == 'a' && !IsDelimiter(url[1]) && |url| % 0x1_0000 == 1;
    assert forall i :: 0 < i < |url| ==> url[i] == 'a';
    LongPath(url);
  }

  /** A URL all of whose fields fit into 16 bits, and which is refused because its authority does not. */
  lemma AuthorityCut()
    ensures exists url, o, h :: UrlLaid(url, |url|, false, o, h) && Fits(AllFields(url, |url|, o, h)) &&
                                Fields(url, |url|, false) == None
  {
    var url := "http://" + (seq(40000, i => 'a') + ("@" + seq(40000, i => 'b')));
    var n := |url|;
    var o, h := Outline(4, n, n, false, n, n), Authority(40007, false, n);
    LongLaid(url);
    hide UrlLaid, Outlined, AllFields, HostLaid, Fields, ScanHost, HasAt, OuterSpansAt, HostSpansAt, Wrap;
    FieldsOfHost(url, n, false, o);
    LaidPart(url, n, false, o, h, 14472);
    HostScanned(url, 7, 14472, true, h, OuterSpansAt(o, n));
    assert U16(n - 7) == 14465 && U16(7) == 7;
  }

  lemma LaidPart(url: string, n: nat, connect: bool, o: Outline, h: Authority, p: nat)
    requires n <= |url| && UrlLaid(url, n, connect, o, h) && HasHost(o) && AuthorityAt(o) <= p <= o.auth
    ensures Outlined(url, n, connect, o) && o.auth <= n && HostShape(AuthorityAt(o), HasAt(url, o, n), h)
    ensures TextAt(AuthorityAt(o), HasAt(url, o, n), h) < h.end
    ensures HostAllowed(url, AuthorityAt(o), p, HasAt(url, o, n), h)
  {
    hide AllFields, HasAt, Allowed;
  }

  lemma LongLaid(url: string)
    requires url == "http://" + (seq(40000, i => 'a') + ("@" + seq(40000, i => 'b')))
    ensures var n, o, h := |url|, Outline(4, |url|, |url|, false, |url|, |url|), Authority(40007, false, |url|);
            n == 80008 && UrlLaid(url, n, false, o, h) && HasAt(url, o, n) && Fits(AllFields(url, n, o, h))
  {
    var n, o, h := |url|, Outline(4, |url|, |url|, false, |url|, |url|), Authority(40007, false, |url|);
    assert url[40007] == '@';
    assert forall i :: 7 <= i < 40007 ==> url[i] == 'a';
    assert forall i :: 40008 <= i < n ==> url[i] == 'b';
    assert url[0] == 'h' && url[1] == 't' && url[2] == 't' && url[3] == 'p';
    assert url[4] == ':' && url[5] == '/' && url[6] == '/';
    assert HasAt(url, o, n);
    hide HasAt, IsUserinfoChar;
    assert IsUserinfoChar('a') && IsUserinfoChar('b') && IsHostChar('b');
  }
}
