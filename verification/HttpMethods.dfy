/** Method recognition is exact: the 27 names, and nothing else. */
module HttpMethods {
  import opened Bytes
  import opened HttpTypes
  import opened HttpSwitch
  import opened HttpRun
  import opened HttpInvariant

  // The parser's guess after `i` bytes of the name of `t`.
  function Track(t: Method, i: nat): Method {
    match t
    case CHECKOUT => if i <= 1 then CONNECT else t
    case COPY => if i <= 2 then CONNECT else t
    case MOVE => if i <= 1 then MKCOL else t
    case MERGE => if i <= 1 then MKCOL else t
    case MSEARCH => if i <= 1 then MKCOL else t
    case MKACTIVITY => if i <= 2 then MKCOL else t
    case MKCALENDAR => if i <= 3 then MKCOL else t
    case SEARCH => if i <= 1 then SUBSCRIBE else t
    case PROPFIND => if i <= 1 then POST else t
    case PROPPATCH => if i <= 1 then POST else if i <= 4 then PROPFIND else t
    case PUT => if i <= 1 then POST else t
    case PURGE => if i <= 1 then POST else if i <= 2 then PUT else t
    case PATCH => if i <= 1 then POST else t
    case UNSUBSCRIBE => if i <= 2 then UNLOCK else t
    case _ => t
  }

  lemma TrackStart(t: Method)
    ensures |MethodName(t)| >= 3 && StartsMethod(MethodName(t)[0]) && FirstMethod(MethodName(t)[0]) == Track(t, 1)
    ensures IsAlpha(MethodName(t)[0])
    ensures Track(t, |MethodName(t)|) == t
  {
  }

  // The next byte of the name either agrees with the guess or moves it on.
  lemma TrackStep(t: Method, i: nat)
    requires 1 <= i < |MethodName(t)|
    ensures var m, ch := Track(t, i), MethodName(t)[i];
            && i <= |MethodName(m)|
            && if ch == CharAt(MethodName(m), i) then Track(t, i + 1) == m
               else Reguess(m, i, ch) == Track(t, i + 1) != m
  {
  }

  lemma NamesClean(m: Method, i: nat)
    requires i < |MethodName(m)|
    ensures MethodName(m)[i] != ' ' && MethodName(m)[i] != '\0'
  {
    if i < 4 { NameStartsClean(m, i); } else { NameEndsClean(m, i); }
  }

  lemma NameStartsClean(m: Method, i: nat)
    requires i < |MethodName(m)| && i < 4
    ensures MethodName(m)[i] != ' ' && MethodName(m)[i] != '\0'
  {
  }

  lemma NameEndsClean(m: Method, i: nat)
    requires 4 <= i < |MethodName(m)|
    ensures MethodName(m)[i] != ' ' && MethodName(m)[i] != '\0'
  {
  }

  // Every switch of the guess keeps what was read.
  lemma ReguessKeepsPrefix(m: Method, i: nat, ch: char)
    requires 1 <= i <= |MethodName(m)| && Reguess(m, i, ch) != m
    ensures var m' := Reguess(m, i, ch);
            && i < |MethodName(m')| && MethodName(m')[i] == ch && ch != ' '
            && MethodName(m')[..i] == MethodName(m)[..i]
  {
    if i == 1 { ReguessSecond(m, ch); } else { ReguessLater(m, i, ch); }
  }

  lemma ReguessSecond(m: Method, ch: char)
    requires Reguess(m, 1, ch) != m
    ensures var m' := Reguess(m, 1, ch);
            && 1 < |MethodName(m')| && MethodName(m')[1] == ch && ch != ' '
            && MethodName(m')[..1] == MethodName(m)[..1]
  {
  }

  lemma ReguessLater(m: Method, i: nat, ch: char)
    requires 2 <= i <= |MethodName(m)| && Reguess(m, i, ch) != m
    ensures var m' := Reguess(m, i, ch);
            && i < |MethodName(m')| && MethodName(m')[i] == ch && ch != ' '
            && MethodName(m')[..i] == MethodName(m)[..i]
  {
  }

  // The registers after `n` bytes of a method, with the guess `m`.
  function Reading(r: Regs, m: Method, n: nat): Regs {
    r.(flags := NO_FLAGS, length := NO_LENGTH, method_ := m, index := n, state := ReqMethod)
  }

  // A whole method and the space after it.
  function AfterMethod(c: Conf, m: Method): Conf {
    var n := |MethodName(m)| + 1;
    Spent(c, Reading(c.r, m, n).(state := ReqSpacesBeforeUrl), c.log + [Begin], n)
  }

  lemma MethodStartStep(skip: Skip, c: Conf, input: string)
    requires c.r.state == StartReq && input != "" && IsAlpha(input[0]) && StartsMethod(input[0])
    ensures Run(skip, c, input) ==
            Run(skip, Spent(c, Reading(c.r, FirstMethod(input[0]), 1), c.log + [Begin], 1), input[1..])
  {
    hide Run, IsAlpha, StartsMethod, FirstMethod;
    assert input[0] != CR && input[0] != LF by { NotLineEnd(input[0]); }
    var r := Reading(c.r, FirstMethod(input[0]), 1);
    assert Switch(c.r, input[0]) == Move(r, Note(Begin), Advance);
    HeaderStep(skip, c, input, r, Note(Begin));
  }

  lemma NotLineEnd(ch: char)
    requires IsAlpha(ch) || StartsMethod(ch)
    ensures ch != CR && ch != LF && ch != ' ' && ch != '\0'
  {
  }

  lemma MethodByteStep(skip: Skip, c: Conf, input: string)
    requires c.r.state == ReqMethod && input != ""
    ensures var o := MethodByte(c.r, input[0]);
            && (o.Move? ==> Run(skip, c, input) == Run(skip, Spent(c, o.r, c.log, 1), input[1..]))
            && (o.Fail? ==> Run(skip, c, input) == Failed(o.e, c.pos, c.peak))
  {
    hide Run, MethodByte, MethodName;
    var o := MethodByte(c.r, input[0]);
    assert Switch(c.r, input[0]) == o;
    match o
    case Move(r, _, _) => MethodOutcome(c.r, input[0]); HeaderStep(skip, c, input, r, Quiet);
    case Fail(e) => FailStep(skip, c, input, e);
    case Fatal =>
  }

  lemma MethodOutcome(r: Regs, ch: char)
    requires r.state == ReqMethod
    ensures var o := MethodByte(r, ch); o.Move? ==> o.eff == Quiet && o.go == Advance
  {
    hide MethodName;
  }

  /** Each of the names is recognised. */
  lemma {:induction false} MethodTail(skip: Skip, c: Conf, base: Regs, t: Method, i: nat, rest: string)
    requires 1 <= i <= |MethodName(t)| && c.r == Reading(base, Track(t, i), i)
    ensures Run(skip, c, MethodName(t)[i..] + " " + rest) ==
            Run(skip, Spent(c, Reading(base, t, |MethodName(t)| + 1).(state := ReqSpacesBeforeUrl), c.log,
                            |MethodName(t)| + 1 - i), rest)
    decreases |MethodName(t)| - i
  {
    hide Run, MethodName, Track, Reguess, Switch, EndsWith, Merge, Lawful, Tracked;
    var name := MethodName(t);
    var input := name[i..] + " " + rest;
    NameLengths(t);
    TrackStart(t);
    if i < |name| { TrackStep(t, i); NamesClean(t, i); }
    MethodByteStep(skip, c, input);
    if i == |name| {
      assert input[0] == ' ' && input[1..] == rest;
    } else {
      assert input[0] == name[i] && input[1..] == name[i + 1..] + " " + rest;
      var c' := Spent(c, Reading(base, Track(t, i + 1), i + 1), c.log, 1);
      MethodTail(skip, c', base, t, i + 1, rest);
    }
  }

  /** A method name and a space lead to the URL, with the method recognised. */
  lemma MethodRun(skip: Skip, c: Conf, t: Method, rest: string)
    requires c.r.state == StartReq
    ensures Run(skip, c, MethodName(t) + " " + rest) == Run(skip, AfterMethod(c, t), rest)
  {
    hide Run, MethodName, Track, Reguess, StartsMethod, FirstMethod, IsAlpha;
    var name := MethodName(t);
    var input := name + " " + rest;
    TrackStart(t);
    MethodStartStep(skip, c, input);
    assert input[0] == name[0] && input[1..] == name[1..] + " " + rest;
    MethodTail(skip, Spent(c, Reading(c.r, Track(t, 1), 1), c.log + [Begin], 1), c.r, t, 1, rest);
  }

  // What is read so far is a prefix of the guess.
  predicate ReadsPrefix(r: Regs, read: string) {
    r.state == ReqMethod && r.index == |read| && 1 <= |read| <= |MethodName(r.method_)| &&
    MethodName(r.method_)[..|read|] == read
  }

  predicate NoSpace(w: string) {
    forall i :: 0 <= i < |w| ==> w[i] != ' '
  }

  predicate IsMethodName(w: string) {
    exists m: Method :: MethodName(m) == w
  }

  lemma ReadsOn(r: Regs, read: string, ch: char)
    requires ReadsPrefix(r, read)
    ensures var o := MethodByte(r, ch);
            if ch == ' ' && read == MethodName(r.method_) then o == To(r.(index := Bump(r.index)), ReqSpacesBeforeUrl)
            else if ch == ' ' then o == Fail(InvalidMethod)
            else o == Fail(InvalidMethod) || (o.Move? && ReadsPrefix(o.r, read + [ch]))
  {
    hide MethodName, Reguess;
    var m, i := r.method_, r.index;
    NameLengths(m);
    var m' := Reguess(m, i, ch);
    if m' != m { ReguessKeepsPrefix(m, i, ch); NameLengths(m'); }
    if i < |MethodName(m)| { NamesClean(m, i); }
    if i < |MethodName(m)| && MethodName(m)[i] == ch {
      assert MethodName(m)[..i + 1] == read + [ch];
    } else if m' != m {
      assert MethodName(m')[..i + 1] == read + [ch];
    } else if i == |MethodName(m)| {
      assert MethodName(m) == MethodName(m)[..i];
    }
  }

  /** A word that reaches the URL is the name of the method recognised. */
  lemma {:induction false} WordRun(skip: Skip, c: Conf, read: string, w: string)
    requires ReadsPrefix(c.r, read) && NoSpace(w)
    ensures var res := Run(skip, c, w + " ");
            if res.Live? then res.c.r.state == ReqSpacesBeforeUrl && MethodName(res.c.r.method_) == read + w
            else res.Failed? && res.e == InvalidMethod
    decreases |w|
  {
    hide Run, MethodByte, MethodName;
    var input := w + " ";
    MethodByteStep(skip, c, input);
    ReadsOn(c.r, read, input[0]);
    if w == "" {
      assert input[1..] == "" && read + w == read;
      if MethodByte(c.r, ' ').Move? { RunNothing(skip, Spent(c, MethodByte(c.r, ' ').r, c.log, 1)); }
    } else {
      assert input[1..] == w[1..] + " " && input[0] == w[0];
      var o := MethodByte(c.r, w[0]);
      if o.Move? {
        assert read + w == (read + [w[0]]) + w[1..];
        WordRun(skip, Spent(c, o.r, c.log, 1), read + [w[0]], w[1..]);
      }
    }
  }

  /**
   Over all words without a space: the word and a space lead from the start of a request to its URL
   exactly if the word is one of the method names, and the method is then the one of that name.
   */
  lemma MethodExact(skip: Skip, c: Conf, w: string)
    requires c.r.state == StartReq && NoSpace(w) && w != "" && w[0] != CR && w[0] != LF
    ensures var res := Run(skip, c, w + " ");
            if IsMethodName(w) then res.Live? && res.c.r.state == ReqSpacesBeforeUrl && MethodName(res.c.r.method_) == w
            else res.Failed? && res.e == InvalidMethod
  {
    hide Run, MethodName, Reguess, Track, IsAlpha, StartsMethod, FirstMethod;
    if IsMethodName(w) {
      var m :| MethodName(m) == w;
      MethodRun(skip, c, m, "");
      assert w + " " == w + " " + "";
      RunNothing(skip, AfterMethod(c, m));
    } else if IsAlpha(w[0]) && StartsMethod(w[0]) {
      var input := w + " ";
      MethodStartStep(skip, c, input);
      assert input[1..] == w[1..] + " ";
      FirstReadsPrefix(w[0]);
      assert [w[0]] + w[1..] == w;
      WordRun(skip, Spent(c, Reading(c.r, FirstMethod(w[0]), 1), c.log + [Begin], 1), [w[0]], w[1..]);
    } else {
      NoStart(c.r, w[0]);
      FailStep(skip, c, w + " ", InvalidMethod);
    }
  }

  lemma NoStart(r: Regs, ch: char)
    requires r.state == StartReq && ch != CR && ch != LF && !(IsAlpha(ch) && StartsMethod(ch))
    ensures Switch(r, ch) == Fail(InvalidMethod)
  {
    hide IsAlpha, StartsMethod;
  }

  lemma FirstReadsPrefix(ch: char)
    requires StartsMethod(ch)
    ensures |MethodName(FirstMethod(ch))| >= 1 && MethodName(FirstMethod(ch))[..1] == [ch]
  {
  }
}
