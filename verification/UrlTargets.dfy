/** The targets of requests: the parser takes exactly the URLs laid out as UrlLayout has them, up to their authority. */
module UrlTargets {
  import opened HttpTypes
  import opened HttpSwitch
  import opened HttpStart
  import opened UrlParser
  import opened UrlLayout

  // The target is laid out so; an authority or path comes after its scheme.
  ghost predicate LaidTarget(m: Method, w: string, o: Outline) {
    Shape(m == CONNECT, o) && Allowed(w, |w|, m == CONNECT, o) && AuthorityAt(o) < |w|
  }

  lemma {:induction false} FoldSnoc(s: Option<UrlState>, w: string, ch: char)
    ensures UrlFold(s, w + [ch]) == if w == "" || UrlFold(s, w).Some? then ParseUrlChar(UrlFold(s, w), ch) else None
    decreases |w|
  {
    hide ParseUrlChar;
    if w == "" {
      assert w + [ch] == [ch];
    } else {
      assert (w + [ch])[1..] == w[1..] + [ch];
      match ParseUrlChar(s, w[0])
      case None =>
      case Some(u) => FoldSnoc(Some(u), w[1..], ch);
    }
  }

  // The parser of messages and that of URLs go through the same states.
  lemma {:induction false} SameStates(url: string, n: nat, m: Method)
    requires n <= |url|
    ensures var c, s := ScanUrl(url, n, m == CONNECT), UrlFold(TargetStart(m), url[..n]);
            && (c.Scan? <==> n == 0 || s.Some?)
            && (c.Scan? ==> c.s == s)
    decreases n
  {
    hide ParseUrlChar, FieldOf;
    if n > 0 {
      SameStates(url, n - 1, m);
      assert url[..n] == url[..n - 1] + [url[n - 1]];
      FoldSnoc(TargetStart(m), url[..n - 1], url[n - 1]);
    }
  }

  // The last state of a laid-out URL.
  lemma LastState(connect: bool, w: string, o: Outline)
    requires w != "" && Shape(connect, o) && Allowed(w, |w|, connect, o)
    ensures ScanUrl(w, |w|, connect).Scan? && ScanUrl(w, |w|, connect).s.Some?
    ensures MayEnd(ScanUrl(w, |w|, connect).s.value) <==> AuthorityAt(o) < |w|
  {
    hide ScanUrl, Allows, OuterSpansAt, LastAt;
    UrlScanned(w, |w|, connect, o);
  }

  /** A word is a target exactly if it is laid out as a URL, an authority for CONNECT. */
  lemma TargetLaid(m: Method, w: string)
    ensures IsTarget(m, w) <==> exists o :: LaidTarget(m, w, o)
  {
    hide ScanUrl, UrlFold, MayEnd, Shape, Allowed, MoreReady;
    var connect := m == CONNECT;
    assert w[..|w|] == w;
    SameStates(w, |w|, m);
    if IsTarget(m, w) {
      var o := UrlUnderstood(w, |w|, connect);
      ReadyShape(connect, o, |w|);
      LastState(connect, w, o);
      assert LaidTarget(m, w, o);
    }
    if o :| LaidTarget(m, w, o) {
      LastState(connect, w, o);
    }
  }

  lemma ReadyShape(connect: bool, o: Outline, p: nat)
    requires MoreReady(connect, o, p)
    ensures Shape(connect, o)
  {
  }
}
