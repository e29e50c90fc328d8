/**
 http_parser_parse_url and http_parse_host: a URL is cut into fields. The loops are proved against two
 folds over the bytes, kept next to them; UrlLayout says what the folds mean.
 */
module UrlParser {
  import opened Bytes
  import opened HttpTypes
  import opened HttpSwitch
  import opened HttpLengths

  datatype UrlField = Schema | Host | Port | Path | Query | Fragment | Userinfo

  // uint16_t, as every offset and length is kept
  function U16(n: nat): (m: nat)
    ensures m <= n && (n < 0x1_0000 ==> m == n)
  {
    n % 0x1_0000
  }

  datatype Span = Span(off: nat, len: nat)

  // The fields set, and where they are.
  type Spans = map<UrlField, Span>

  // ---------- The fields of the whole ----------

  // The field a byte belongs to by the state after it; delimiters belong to none.
  function FieldOf(s: UrlState): Option<UrlField> {
    match s
    case ReqSchema => Some(Schema)
    case ReqServer => Some(Host)
    case ReqServerWithAt => Some(Host)
    case ReqPath => Some(Path)
    case ReqQueryString => Some(Query)
    case ReqFragment => Some(Fragment)
    case _ => None
  }

  datatype Scan = Dead | Scan(s: Option<UrlState>, last: Option<UrlField>, spans: Spans, at: bool)

  predicate Sane(c: Scan) {
    c.Scan? && c.last.Some? ==> c.last.value in c.spans
  }

  function Grown(spans: Spans, f: UrlField): Spans
    requires f in spans
  {
    spans[f := spans[f].(len := U16(spans[f].len + 1))]
  }

  function ScanByte(c: Scan, p: nat, ch: char): (c': Scan)
    requires c.Scan? && Sane(c)
    ensures Sane(c')
  {
    match ParseUrlChar(c.s, ch)
    case None => Scan.Dead
    case Some(u) =>
      var c := c.(s := Some(u), at := c.at || u.ReqServerWithAt?);
      match FieldOf(u)
      case None => c
      case Some(f) =>
        if c.last == Some(f) then c.(spans := Grown(c.spans, f))
        else c.(last := Some(f), spans := c.spans[f := Span(U16(p), 1)])
  }

  predicate Inside(spans: Spans, n: nat) {
    forall f :: f in spans ==> spans[f].off + spans[f].len <= n
  }

  function ScanStart(connect: bool): Scan {
    Scan(if connect then Some(ReqServerStart) else None, None, map[], false)
  }

  // The first `n` bytes.
  function ScanUrl(url: string, n: nat, connect: bool): (c: Scan)
    requires n <= |url|
    ensures Sane(c) && (c.Scan? ==> Inside(c.spans, n) && Port !in c.spans && Userinfo !in c.spans)
  {
    if n == 0 then ScanStart(connect)
    else
      var c := ScanUrl(url, n - 1, connect);
      if c.Dead? then c else ScanByte(c, n - 1, url[n - 1])
  }

  // ---------- The fields of the authority ----------

  datatype HostState =
    | HostDead | UserinfoStart | InUserinfo | HostStart | HostV6Start | InHost | HostV6 | HostV6End | PortStart | InPort

  predicate IsV6Char(ch: char) {
    IsHex(ch) || ch == ':' || ch == '.'
  }

  function HostChar(s: HostState, ch: char): HostState {
    match s
    case InUserinfo => if ch == '@' then HostStart else if IsUserinfoChar(ch) then InUserinfo else HostDead
    case UserinfoStart => if ch == '@' then HostStart else if IsUserinfoChar(ch) then InUserinfo else HostDead
    case HostStart => if ch == '[' then HostV6Start else if IsHostChar(ch) then InHost else HostDead
    case InHost => if IsHostChar(ch) then InHost else if ch == ':' then PortStart else HostDead
    case HostV6End => if ch == ':' then PortStart else HostDead
    case HostV6 => if ch == ']' then HostV6End else if IsV6Char(ch) then HostV6 else HostDead
    case HostV6Start => if IsV6Char(ch) then HostV6 else HostDead
    case InPort => if IsNum(ch) then InPort else HostDead
    case PortStart => if IsNum(ch) then InPort else HostDead
    case HostDead => HostDead
  }

  datatype HostScan = HostScan(s: HostState, spans: Spans)

  predicate HostSane(c: HostScan) {
    && Host in c.spans
    && (c.s.InPort? ==> Port in c.spans)
    && (c.s.InUserinfo? ==> Userinfo in c.spans)
  }

  function HostByte(c: HostScan, p: nat, ch: char): (c': HostScan)
    requires HostSane(c)
    ensures HostSane(c') && c'.s == HostChar(c.s, ch)
  {
    var s := HostChar(c.s, ch);
    HostScan(s, TakenSpans(c.s, s, c.spans, p))
  }

  // The fields after a byte at `p` that leads from the state `s` to the state `s'`.
  function TakenSpans(s: HostState, s': HostState, spans: Spans, p: nat): Spans
    requires HostSane(HostScan(s, spans))
  {
    match s'
    case InHost => HostGrown(spans, s != InHost, p)
    case HostV6 => HostGrown(spans, s != HostV6, p)
    case InPort => if s != InPort then spans[Port := Span(U16(p), 1)] else Grown(spans, Port)
    case InUserinfo => if s != InUserinfo then spans[Userinfo := Span(U16(p), 1)] else Grown(spans, Userinfo)
    case _ => spans
  }

  // The length of the host is not started afresh with its offset.
  function HostGrown(spans: Spans, begins: bool, p: nat): Spans
    requires Host in spans
  {
    Grown(if begins then spans[Host := spans[Host].(off := U16(p))] else spans, Host)
  }

  // The first `n` bytes from `a`.
  function ScanHost(url: string, a: nat, n: nat, at: bool, spans: Spans): (c: HostScan)
    requires a + n <= |url| && Host in spans && Port !in spans
    ensures HostSane(c) && (Port in c.spans ==> c.spans[Port].off + c.spans[Port].len <= a + n)
  {
    if n == 0 then HostScan(if at then UserinfoStart else HostStart, spans[Host := spans[Host].(len := 0)])
    else HostByte(ScanHost(url, a, n - 1, at, spans), a + n - 1, url[a + n - 1])
  }

  // Where the authority may end.
  predicate HostEnds(s: HostState) {
    s.InHost? || s.HostV6End? || s.InPort?
  }

  lemma {:induction false} HostStaysDead(url: string, a: nat, n: nat, m: nat, at: bool, spans: Spans)
    requires n <= m && a + m <= |url| && Host in spans && Port !in spans && ScanHost(url, a, n, at, spans).s.HostDead?
    ensures ScanHost(url, a, m, at, spans).s.HostDead?
  {
    if n < m { HostStaysDead(url, a, n, m - 1, at, spans); }
  }

  lemma {:induction false} ScanStaysDead(url: string, n: nat, m: nat, connect: bool)
    requires n <= m <= |url| && ScanUrl(url, n, connect).Dead?
    ensures ScanUrl(url, m, connect).Dead?
  {
    if n < m { ScanStaysDead(url, n, m - 1, connect); }
  }

  // ---------- Both, and the port ----------

  // The digits at `off`; the buffer ends in a NUL.
  function DigitsAt(mem: string, off: nat): string
    requires off <= |mem|
    decreases |mem| - off
  {
    if off == |mem| || !IsNum(mem[off]) then "" else [mem[off]] + DigitsAt(mem, off + 1)
  }

  // The fields of the first `n` bytes of the buffer, if they are a URL.
  function Fields(mem: string, n: nat, connect: bool): (r: Option<Spans>)
    requires n <= |mem|
    ensures r.Some? && Port in r.value ==> r.value[Port].off <= |mem|
  {
    var c := ScanUrl(mem, n, connect);
    if c.Dead? || (Schema in c.spans && Host !in c.spans) then None
    else if Host !in c.spans then (if connect then None else Some(c.spans))
    else
      var h := ScanHost(mem, c.spans[Host].off, c.spans[Host].len, c.at, c.spans);
      if !HostEnds(h.s) || (connect && h.spans.Keys != {Host, Port}) then None else Some(h.spans)
  }

  // The struct http_parser_url.
  class Url {
    var spans: Spans
    var port: nat

    // The fields after a byte that takes http_parse_host from `s` to the live state `s'`.
    method TakeByte(s: HostState, s': HostState, p: nat, ch: char)
      requires HostSane(HostScan(s, spans)) && s' == HostChar(s, ch)
      modifies this`spans
      ensures HostScan(s', spans) == HostByte(HostScan(s, old(spans)), p, ch)
    {
      hide HostChar;
      match s' {
        case InHost =>
          if s != InHost { spans := spans[Host := spans[Host].(off := U16(p))]; }
          spans := spans[Host := spans[Host].(len := U16(spans[Host].len + 1))];
        case HostV6 =>
          if s != HostV6 { spans := spans[Host := spans[Host].(off := U16(p))]; }
          spans := spans[Host := spans[Host].(len := U16(spans[Host].len + 1))];
        case InPort =>
          if s != InPort { spans := spans[Port := Span(U16(p), 0)]; }
          spans := spans[Port := spans[Port].(len := U16(spans[Port].len + 1))];
        case InUserinfo =>
          if s != InUserinfo { spans := spans[Userinfo := Span(U16(p), 0)]; }
          spans := spans[Userinfo := spans[Userinfo].(len := U16(spans[Userinfo].len + 1))];
        case _ =>
      }
    }

    // http_parse_host
    method ParseHost(buf: string, at: bool) returns (failed: bool)
      requires Host in spans && Port !in spans && spans[Host].off + spans[Host].len <= |buf|
      modifies this`spans
      ensures var span := old(spans[Host]);
              var h := ScanHost(buf, span.off, span.len, at, old(spans));
              failed == !HostEnds(h.s) && (!failed ==> spans == h.spans)
    {
      hide HostChar, HostByte;
      var a, n := spans[Host].off, spans[Host].len;
      ghost var before := spans;
      spans := spans[Host := spans[Host].(len := 0)];
      var s := if at then UserinfoStart else HostStart;
      for p := a to a + n
        invariant HostScan(s, spans) == ScanHost(buf, a, p - a, at, before) && !s.HostDead?
      {
        var s' := HostChar(s, buf[p]);
        if s'.HostDead? {
          HostStaysDead(buf, a, p + 1 - a, n, at, before);
          return true;
        }
        TakeByte(s, s', p, buf[p]);
        s := s';
      }
      match s
      case HostStart => return true;
      case HostV6Start => return true;
      case HostV6 => return true;
      case PortStart => return true;
      case InUserinfo => return true;
      case UserinfoStart => return true;
      case _ => return false;
    }

    // strtoul, which stops at a byte that is no digit or at the end of the memory
    static method StrToUl(mem: string, off: nat) returns (v: nat)
      requires off <= |mem|
      ensures v == Decimal(0, DigitsAt(mem, off))
    {
      v := 0;
      var p := off;
      while p < |mem| && IsNum(mem[p])
        invariant off <= p <= |mem| && Decimal(v, DigitsAt(mem, p)) == Decimal(0, DigitsAt(mem, off))
      {
        assert DigitsAt(mem, p)[1..] == DigitsAt(mem, p + 1);
        v := v * 10 + Digit(mem[p]);
        p := p + 1;
      }
    }

    // http_parser_parse_url on the first `n` bytes of the memory at `mem`
    method Parse(mem: string, n: nat, connect: bool) returns (failed: bool)
      requires n <= |mem|
      modifies this
      ensures var fields := Fields(mem, n, connect);
              && (fields.None? ==> failed)
              && (fields.Some? ==> 
                    if Port in fields.value then
                      var v := Decimal(0, DigitsAt(mem, fields.value[Port].off));
                      failed == (v > 0xffff) && (!failed ==> spans == fields.value && port == v)
                    else !failed && spans == fields.value && port == 0)
    {
      hide ParseUrlChar, HostChar, HostByte, ScanHost, HostEnds, DigitsAt, Decimal;
      port, spans := 0, map[];
      var s := if connect then Some(ReqServerStart) else None;
      var old_uf, foundAt := None, false;
      for p := 0 to n
        invariant Scan(s, old_uf, spans, foundAt) == ScanUrl(mem, p, connect) && port == 0
      {
        var next := ParseUrlChar(s, mem[p]);
        if next.None? {
          ScanStaysDead(mem, p + 1, n, connect);
          return true;
        }
        s := next;
        var uf;
        match s.value {
          case ReqSchemaSlash => continue;
          case ReqSchemaSlashSlash => continue;
          case ReqServerStart => continue;
          case ReqQueryStringStart => continue;
          case ReqFragmentStart => continue;
          case ReqSchema => uf := Schema;
          case ReqServerWithAt => foundAt := true; uf := Host;
          case ReqServer => uf := Host;
          case ReqPath => uf := Path;
          case ReqQueryString => uf := Query;
          case ReqFragment => uf := Fragment;
        }
        if old_uf == Some(uf) {
          spans := Grown(spans, uf);
          continue;
        }
        spans := spans[uf := Span(U16(p), 1)];
        old_uf := Some(uf);
      }
      if Schema in spans && Host !in spans { return true; }
      if Host in spans {
        var bad := ParseHost(mem, foundAt);
        if bad { return true; }
      }
      if connect && spans.Keys != {Host, Port} { return true; }
      if Port in spans {
        var v := StrToUl(mem, spans[Port].off);
        if v > 0xffff { return true; }
        port := v;
      }
      return false;
    }
  }
}
