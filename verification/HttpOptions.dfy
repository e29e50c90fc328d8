/**
 The options of a Connection header and of Transfer-Encoding, read off the text of the value, and the proof
 that the parser's byte-at-a-time matching sets exactly the flags of that reading.
 */
module HttpOptions {
  import opened Bytes
  import opened HttpTypes
  import opened HttpSwitch
  import opened HttpHeaders

  // ---------- The reading ----------

  datatype ConnectionOption = KeepAlive | Close | Upgrading

  function WordOf(o: ConnectionOption): (word: string)
    ensures 5 <= |word| <= 10
  {
    match o
    case KeepAlive => KEEP_ALIVE
    case Close => CLOSE
    case Upgrading => UPGRADE
  }

  // The option an item can be, by its first letter in lower case.
  function OptionOf(c: char): Option<ConnectionOption> {
    if c == 'k' then Some(KeepAlive) else if c == 'c' then Some(Close) else if c == 'u' then Some(Upgrading) else None
  }

  function AfterComma(s: string): (r: Option<string>)
    ensures r.Some? ==> |r.value| < |s|
  {
    if s == "" then None else if s[0] == ',' then Some(s[1..]) else AfterComma(s[1..])
  }

  function DropSpaces(s: string): (r: string)
    ensures |r| <= |s|
  {
    if s != "" && s[0] == ' ' then DropSpaces(s[1..]) else s
  }

  // How many letters of `word`, in any case, `s` begins with.
  function Common(s: string, word: string): (n: nat)
    ensures n <= |s| && n <= |word|
  {
    if s != "" && word != "" && Lower(s[0]) == word[0] then 1 + Common(s[1..], word[1..]) else 0
  }

  // The options after the next comma.
  function LaterItems(s: string): set<ConnectionOption>
    decreases |s|, 0
  {
    match AfterComma(s)
    case None => {}
    case Some(t) => Items(t)
  }

  // The options of the items of a list, from the start of one that is not the first. Spaces before it are
  // skipped, but not tabs, which Lower changes; an item that begins with anything but a token byte, be it
  // empty, ends the reading.
  function Items(s: string): set<ConnectionOption>
    decreases |s|, 1
  {
    if s == "" then {}
    else if Lower(s[0]) == ' ' then Items(s[1..])
    else if !IsToken(Lower(s[0])) then {}
    else Item(s)
  }

  // The options from an item on that has a first byte. The byte at which the item turns out not to be the word
  // is passed over, even if it is the comma.
  function Item(s: string): set<ConnectionOption>
    requires s != ""
    decreases |s|, 0
  {
    match OptionOf(Lower(s[0]))
    case None => LaterItems(s[1..])
    case Some(o) =>
      var n := Common(s, WordOf(o));
      if n == |WordOf(o)| then Ended(o, s[n..])
      else if n == |s| then {}
      else LaterItems(s[n + 1..])
  }

  // The options after the whole word of `o`: it is one if nothing but spaces follows in the item.
  function Ended(o: ConnectionOption, s: string): set<ConnectionOption>
    decreases |s|, 1
  {
    var rest := DropSpaces(s);
    (if rest == "" || rest[0] == ',' then {o} else {}) + LaterItems(rest)
  }

  // The flags with these options set.
  function Set(f: Flags, options: set<ConnectionOption>): Flags {
    f.(keepAlive := f.keepAlive || KeepAlive in options, close := f.close || Close in options,
       connUpgrade := f.connUpgrade || Upgrading in options)
  }

  // ---------- The matching ----------

  // The flags at the end of a line that ends with the bytes `w` of a value.
  function FlagsAfter(r: Regs, w: string): Flags {
    match ValueFold(r, w)
    case Some(r') => ValueFlags(r'.flags, r'.hstate)
    case None => NO_FLAGS
  }

  lemma FlagsStep(r: Regs, w: string)
    requires w != "" && ValueByte(r, w[0]).Move?
    ensures FlagsAfter(r, w) == FlagsAfter(ValueByte(r, w[0]).r, w[1..])
    ensures ValueFold(r, w) == ValueFold(ValueByte(r, w[0]).r, w[1..])
  {
    hide ValueByte;
  }

  function MatchingOf(o: ConnectionOption): ValueState {
    match o
    case KeepAlive => MatchingKeepAlive
    case Close => MatchingClose
    case Upgrading => MatchingConnectionUpgrade
  }

  function MatchedOf(o: ConnectionOption): ValueState {
    match o
    case KeepAlive => HKeepAlive
    case Close => HClose
    case Upgrading => HConnectionUpgrade
  }

  // One byte in each state of the matching.
  lemma StepInItem(r: Regs, ch: char)
    requires r.state == HeaderValue && r.hstate == Val(MatchingToken)
    ensures ValueByte(r, ch) ==
            Move(if ch == ',' then r.(hstate := Val(TokenStart), index := 0) else r, Byte(Value), Advance)
  {
  }

  lemma StepAtStart(r: Regs, ch: char)
    requires r.state == HeaderValue && r.hstate == Val(TokenStart)
    ensures var c := Lower(ch);
            ValueByte(r, ch) ==
            Move(r.(hstate := match OptionOf(c)
                              case Some(o) => Val(MatchingOf(o))
                              case None =>
                                if IsToken(c) then Val(MatchingToken) else if c == ' ' then r.hstate else General),
                 Byte(Value), Advance)
  {
    LowerIsNoTab(ch);
    hide IsToken, Lower;
  }

  lemma LowerIsNoTab(ch: char)
    ensures Lower(ch) != '\t'
  {
  }

  lemma StepInWord(r: Regs, o: ConnectionOption, n: nat, ch: char)
    requires r.state == HeaderValue && r.hstate == Val(MatchingOf(o)) && 1 <= n < |WordOf(o)| && r.index == n - 1
    ensures ValueByte(r, ch) ==
            Move(r.(hstate := if Lower(ch) != WordOf(o)[n] then Val(MatchingToken)
                              else if n + 1 == |WordOf(o)| then Val(MatchedOf(o)) else Val(MatchingOf(o)),
                    index := n), Byte(Value), Advance)
  {
    hide IsToken, Lower;
  }

  lemma StepAfterWord(r: Regs, o: ConnectionOption, ch: char)
    requires r.state == HeaderValue && r.hstate == Val(MatchedOf(o))
    ensures ValueByte(r, ch) ==
            Move(if ch == ',' then r.(flags := Set(r.flags, {o}), hstate := Val(TokenStart), index := 0)
                 else if ch == ' ' then r
                 else r.(hstate := Val(MatchingToken)), Byte(Value), Advance)
  {
    hide IsToken, Lower;
  }

  lemma SetTwice(f: Flags, a: set<ConnectionOption>, b: set<ConnectionOption>)
    ensures Set(Set(f, a), b) == Set(f, a + b) && Set(f, {}) == f
  {
  }

  // What the state of the matching makes of the rest of the value.
  lemma {:induction false} InItem(r: Regs, w: string)
    requires r.state == HeaderValue && r.hstate == Val(MatchingToken)
    ensures FlagsAfter(r, w) == Set(r.flags, LaterItems(w))
    decreases |w|, 0
  {
    hide ValueByte, Items, Set, ValueFold;
    SetTwice(r.flags, {}, {});
    if w == "" {
      NothingLeft(r);
    } else {
      StepInItem(r, w[0]);
      FlagsStep(r, w);
      if w[0] == ',' { AtStart(r.(hstate := Val(TokenStart), index := 0), w[1..]); } else { InItem(r, w[1..]); }
    }
  }

  lemma NothingLeft(r: Regs)
    ensures FlagsAfter(r, "") == ValueFlags(r.flags, r.hstate) && ValueFold(r, "") == Some(r)
  {
  }

  lemma {:induction false} AtStart(r: Regs, w: string)
    requires r.state == HeaderValue && r.hstate == Val(TokenStart) && r.index == 0
    ensures FlagsAfter(r, w) == Set(r.flags, Items(w))
    decreases |w|, 1
  {
    hide ValueByte, Item, Set, ValueFold, IsToken, Lower;
    SetTwice(r.flags, {}, {});
    if w == "" {
      NothingLeft(r);
    } else {
      StepAtStart(r, w[0]);
      FlagsStep(r, w);
      var r' := ValueByte(r, w[0]).r;
      LettersAreTokens(Lower(w[0]));
      if Lower(w[0]) == ' ' {
        AtStart(r', w[1..]);
      } else if !IsToken(Lower(w[0])) {
        PlainFold(r', w[1..]);
      } else {
        InFirst(r', w);
      }
    }
  }

  lemma LettersAreTokens(c: char)
    ensures OptionOf(c).Some? ==> IsToken(c)
    ensures c == ' ' ==> !IsToken(c)
  {
  }

  // After the first byte of an item.
  lemma {:induction false} InFirst(r: Regs, w: string)
    requires w != "" && r.state == HeaderValue && r.index == 0
    requires r.hstate == match OptionOf(Lower(w[0])) case Some(o) => Val(MatchingOf(o)) case None => Val(MatchingToken)
    ensures FlagsAfter(r, w[1..]) == Set(r.flags, Item(w))
    decreases |w|, 0
  {
    hide ValueByte, LaterItems, Set, ValueFold, Lower, Ended, WordOf;
    match OptionOf(Lower(w[0]))
    case None => InItem(r, w[1..]);
    case Some(o) =>
      FirstLetter(o, w);
      InWord(r, o, 1, w[1..]);
  }

  lemma FirstLetter(o: ConnectionOption, w: string)
    requires w != "" && OptionOf(Lower(w[0])) == Some(o)
    ensures Common(w, WordOf(o)) == 1 + Common(w[1..], WordOf(o)[1..])
  {
    hide Lower;
  }

  lemma {:induction false} InWord(r: Regs, o: ConnectionOption, n: nat, w: string)
    requires r.state == HeaderValue && r.hstate == Val(MatchingOf(o)) && 1 <= n < |WordOf(o)| && r.index == n - 1
    ensures var m := Common(w, WordOf(o)[n..]);
            FlagsAfter(r, w) ==
            Set(r.flags, if n + m == |WordOf(o)| then Ended(o, w[m..])
                         else if m == |w| then {} else LaterItems(w[m + 1..]))
    decreases |w|, 0
  {
    hide ValueByte, LaterItems, Set, ValueFold, Lower, Ended, WordOf;
    SetTwice(r.flags, {}, {});
    if w == "" {
      NothingLeft(r);
    } else {
      StepInWord(r, o, n, w[0]);
      FlagsStep(r, w);
      var r' := ValueByte(r, w[0]).r;
      assert WordOf(o)[n..][0] == WordOf(o)[n] && WordOf(o)[n..][1..] == WordOf(o)[n + 1..];
      var m := Common(w, WordOf(o)[n..]);
      if Lower(w[0]) != WordOf(o)[n] {
        InItem(r', w[1..]);
      } else {
        assert m == 1 + Common(w[1..], WordOf(o)[n + 1..]) && w[m..] == w[1..][m - 1..];
        if n + 1 == |WordOf(o)| {
          AfterWord(r', o, w[1..]);
        } else {
          assert m < |w| ==> w[m + 1..] == w[1..][m - 1 + 1..];
          InWord(r', o, n + 1, w[1..]);
        }
      }
    }
  }

  lemma {:induction false} AfterWord(r: Regs, o: ConnectionOption, w: string)
    requires r.state == HeaderValue && r.hstate == Val(MatchedOf(o))
    ensures FlagsAfter(r, w) == Set(r.flags, Ended(o, w))
    decreases |w|, 0
  {
    hide ValueByte, Items, ValueFold, Lower, Set;
    if w == "" {
      NothingLeft(r);
      MatchedFlags(r.flags, o);
      assert Ended(o, w) == {o};
    } else {
      StepAfterWord(r, o, w[0]);
      FlagsStep(r, w);
      var r' := ValueByte(r, w[0]).r;
      if w[0] == ',' {
        AtStart(r', w[1..]);
        SetTwice(r.flags, {o}, Items(w[1..]));
        assert Ended(o, w) == {o} + Items(w[1..]);
      } else if w[0] == ' ' {
        AfterWord(r', o, w[1..]);
        assert Ended(o, w) == Ended(o, w[1..]);
      } else {
        InItem(r', w[1..]);
        assert LaterItems(w) == LaterItems(w[1..]);
        assert Ended(o, w) == LaterItems(w);
      }
    }
  }

  lemma MatchedFlags(f: Flags, o: ConnectionOption)
    ensures ValueFlags(f, Val(MatchedOf(o))) == Set(f, {o})
  {
  }

  /** A Connection value sets exactly the flags of the options read from its text, and changes nothing else. */
  lemma ConnectionExact(r: Regs, value: string)
    requires value != "" && r.hstate == Name(HConnection)
    ensures var v := WholeValue(r, value);
            && v.Some?
            && v.value == r.(state := HeaderValue, hstate := v.value.hstate, index := v.value.index,
                             flags := v.value.flags)
            && ValueFlags(v.value.flags, v.value.hstate) == Set(r.flags, Item(value))
  {
    hide ValueFold, ValueFlags, Item, Lower, Set, InConnection;
    var o := ValueStart(r, value[0]);
    FirstState(r, value[0]);
    ConnectionFold(o.r, value[1..]);
    InFirst(o.r, value);
  }

  lemma FirstState(r: Regs, ch: char)
    requires r.hstate == Name(HConnection)
    ensures var o := ValueStart(r, ch);
            && o == Move(r.(state := HeaderValue, index := 0, hstate := o.r.hstate), Byte(Value), Advance)
            && o.r.hstate == (match OptionOf(Lower(ch)) case Some(o) => Val(MatchingOf(o)) case None => Val(MatchingToken))
            && InConnection(o.r.hstate)
  {
    hide Lower;
  }

  // ---------- Lists of tokens ----------

  predicate IsWord(t: string) {
    t != "" && AllTokens(t)
  }

  function ListText(ts: seq<string>): (text: string)
    requires ts != []
    ensures ts[0] != "" ==> text != ""
  {
    if |ts| == 1 then ts[0] else ts[0] + ", " + ListText(ts[1..])
  }

  // The token is the word of the option, in any case of letters.
  predicate Means(t: string, o: ConnectionOption) {
    LowerToken(t) == WordOf(o)
  }

  // A token that one of the words goes on from: the comma after it is passed over.
  predicate Stub(t: string) {
    exists o: ConnectionOption :: |t| < |WordOf(o)| && LowerToken(t) == WordOf(o)[..|t|]
  }

  function OptionsOf(t: string): set<ConnectionOption> {
    set o: ConnectionOption | Means(t, o)
  }

  // What is read of a list of tokens: a token is looked at unless the one before it was, and is a stub; and a
  // further token that begins with an underscore ends the reading when it is looked at.
  function Listed(ts: seq<string>, first: bool, looked: bool): set<ConnectionOption> {
    if ts == [] then {}
    else if looked && !first && ts[0] != "" && ts[0][0] == '_' then {}
    else (if looked then OptionsOf(ts[0]) else {}) + Listed(ts[1..], false, !(looked && Stub(ts[0])))
  }

  lemma {:induction false} CommonPrefix(t: string, word: string)
    requires AllTokens(t) && (forall i :: 0 <= i < |word| ==> word[i] == '-' || 'a' <= word[i] <= 'z')
    ensures var n := Common(t, word); n == |t| <==> |t| <= |word| && LowerToken(t) == word[..|t|]
    decreases |t|
  {
    if t != "" && word != "" {
      CommonPrefix(t[1..], word[1..]);
      SameLetter(t[0], word[0]);
      assert LowerToken(t) == [Token(t[0])] + LowerToken(t[1..]);
      assert |t| <= |word| ==> word[..|t|] == [word[0]] + word[1..][..|t| - 1];
    }
  }

  lemma SameLetter(ch: char, letter: char)
    requires IsToken(ch) && (letter == '-' || 'a' <= letter <= 'z')
    ensures Lower(ch) == letter <==> Token(ch) == letter
  {
  }

  lemma WordLetters(o: ConnectionOption)
    ensures forall i :: 0 <= i < |WordOf(o)| ==> WordOf(o)[i] == '-' || 'a' <= WordOf(o)[i] <= 'z'
    ensures OptionOf(WordOf(o)[0]) == Some(o)
  {
  }

  // A token against the words.
  lemma WordAgainst(t: string, o: ConnectionOption)
    requires IsWord(t)
    ensures OptionOf(Lower(t[0])) == None ==> !Stub(t) && OptionsOf(t) == {}
    ensures OptionOf(Lower(t[0])) == Some(o) ==>
              var n := Common(t, WordOf(o));
              && (Stub(t) <==> n == |t| < |WordOf(o)|)
              && OptionsOf(t) == if n == |t| == |WordOf(o)| then {o} else {}
  {
    hide Token, IsToken, Lower, WordOf;
    forall p: ConnectionOption
      ensures |t| < |WordOf(p)| && LowerToken(t) == WordOf(p)[..|t|] <==> Common(t, WordOf(p)) == |t| < |WordOf(p)|
      ensures Means(t, p) <==> Common(t, WordOf(p)) == |t| == |WordOf(p)|
      ensures Common(t, WordOf(p)) > 0 ==> OptionOf(Lower(t[0])) == Some(p)
    {
      WordLetters(p);
      CommonPrefix(t, WordOf(p));
      assert |t| == |WordOf(p)| ==> WordOf(p)[..|t|] == WordOf(p);
    }
  }

  lemma {:induction false} SkipWord(t: string, rest: string)
    requires AllTokens(t)
    ensures AfterComma(t + rest) == AfterComma(rest) && LaterItems(t + rest) == LaterItems(rest)
    decreases |t|
  {
    hide Items, IsToken;
    if t == "" {
      assert t + rest == rest;
    } else {
      assert (t + rest)[1..] == t[1..] + rest;
      NoComma(t[0]);
      SkipWord(t[1..], rest);
    }
  }

  lemma NoComma(ch: char)
    requires IsToken(ch)
    ensures ch != ',' && ch != ' '
    ensures IsToken(Lower(ch)) <==> ch != '_'
    ensures Lower(ch) != ' '
  {
  }

  lemma {:induction false} CommonOf(t: string, rest: string, word: string)
    requires rest == "" || rest[0] == ','
    requires forall i :: 0 <= i < |word| ==> word[i] == '-' || 'a' <= word[i] <= 'z'
    ensures Common(t + rest, word) == Common(t, word)
    decreases |t|
  {
    if t == "" {
      assert t + rest == rest;
      assert Lower(',') == ',';
    } else {
      assert (t + rest)[1..] == t[1..] + rest;
      if word != "" { CommonOf(t[1..], rest, word[1..]); }
    }
  }

  lemma ItemIs(s: string)
    requires s != ""
    ensures OptionOf(Lower(s[0])) == None ==> Item(s) == LaterItems(s[1..])
    ensures forall o :: OptionOf(Lower(s[0])) == Some(o) ==>
              var n := Common(s, WordOf(o));
              Item(s) == if n == |WordOf(o)| then Ended(o, s[n..]) else if n == |s| then {} else LaterItems(s[n + 1..])
  {
    hide LaterItems, Lower, Common, Ended, WordOf;
  }

  // A token that is the beginning of a word, or all of it.
  lemma ItemOfPrefix(t: string, rest: string, o: ConnectionOption)
    requires IsWord(t) && (rest == "" || rest[0] == ',') && OptionOf(Lower(t[0])) == Some(o)
    requires Common(t, WordOf(o)) == |t|
    ensures Item(t + rest) ==
            if |t| == |WordOf(o)| then {o} + LaterItems(rest) else if rest == "" then {} else LaterItems(rest[1..])
  {
    hide LaterItems, WordOf, Lower, AllTokens, Common, Item, Ended;
    var s, n := t + rest, |t|;
    ItemIs(s);
    WordLetters(o);
    CommonOf(t, rest, WordOf(o));
    assert s[n..] == rest && (rest != "" ==> s[n + 1..] == rest[1..]);
    EndedAt(o, rest);
  }

  // A token that is not.
  lemma ItemOfOther(t: string, rest: string, o: ConnectionOption)
    requires IsWord(t) && (rest == "" || rest[0] == ',') && OptionOf(Lower(t[0])) == Some(o)
    requires Common(t, WordOf(o)) < |t|
    ensures Item(t + rest) == LaterItems(rest)
  {
    hide LaterItems, WordOf, Lower, IsToken, Common, Item, Ended;
    var s, n := t + rest, Common(t, WordOf(o));
    ItemIs(s);
    WordLetters(o);
    CommonOf(t, rest, WordOf(o));
    assert s[n..] == t[n..] + rest && s[n + 1..] == t[n + 1..] + rest;
    SkipWord(t[n + 1..], rest);
    NoComma(t[n]);
    SkipWord(t[n..], rest);
    if n == |WordOf(o)| { EndedNot(o, t[n..] + rest); }
  }

  // A token that is looked at.
  lemma ItemOfWord(t: string, rest: string)
    requires IsWord(t) && (rest == "" || rest[0] == ',')
    ensures Item(t + rest) ==
            OptionsOf(t) + if Stub(t) then (if rest == "" then {} else LaterItems(rest[1..])) else LaterItems(rest)
  {
    hide LaterItems, WordOf, Lower, IsToken, Stub, OptionsOf, Common, Item;
    match OptionOf(Lower(t[0]))
    case None =>
      WordAgainst(t, Close);
      ItemIs(t + rest);
      assert (t + rest)[1..] == t[1..] + rest;
      SkipWord(t[1..], rest);
    case Some(o) =>
      WordAgainst(t, o);
      if Common(t, WordOf(o)) == |t| { ItemOfPrefix(t, rest, o); } else { ItemOfOther(t, rest, o); }
  }

  lemma EndedAt(o: ConnectionOption, rest: string)
    requires rest == "" || rest[0] == ','
    ensures Ended(o, rest) == {o} + LaterItems(rest)
  {
  }

  lemma EndedNot(o: ConnectionOption, rest: string)
    requires rest != "" && rest[0] != ',' && rest[0] != ' '
    ensures Ended(o, rest) == LaterItems(rest)
  {
  }

  // The start of a token that is not the first.
  lemma ItemsOfWord(t: string, rest: string)
    requires IsWord(t)
    ensures Items(" " + (t + rest)) == if t[0] == '_' then {} else Item(t + rest)
  {
    hide Item, IsToken;
    assert (" " + (t + rest))[1..] == t + rest && Lower(' ') == ' ';
    NoComma(t[0]);
  }

  lemma AfterFirstComma(s: string)
    ensures LaterItems("," + s) == Items(s) && ("," + s)[1..] == s
  {
    hide Items;
    assert ("," + s)[1..] == s;
  }

  lemma {:induction false} ListTail(ts: seq<string>, looked: bool)
    requires ts != [] && forall i :: 0 <= i < |ts| ==> IsWord(ts[i])
    ensures (if looked then Items(" " + ListText(ts)) else LaterItems(" " + ListText(ts))) == Listed(ts, false, looked)
    decreases |ts|
  {
    hide Items, Item, LaterItems, AllTokens, Stub, OptionsOf;
    var t, rest := ts[0], if |ts| == 1 then "" else "," + (" " + ListText(ts[1..]));
    assert IsWord(t);
    assert ListText(ts) == t + rest;
    if |ts| > 1 {
      AfterFirstComma(" " + ListText(ts[1..]));
      ListTail(ts[1..], !(looked && Stub(t)));
    } else {
      NothingLater();
    }
    if looked {
      ItemsOfWord(t, rest);
      ItemOfWord(t, rest);
    } else {
      SkipBlank(t + rest);
      SkipWord(t, rest);
    }
  }

  lemma NothingLater()
    ensures LaterItems("") == {}
  {
  }

  lemma SkipBlank(s: string)
    ensures LaterItems(" " + s) == LaterItems(s)
  {
    hide Items;
    assert (" " + s)[1..] == s;
  }

  /**
   A list of tokens: an option is read exactly if it is a token that is looked at; a stub hides the token after it,
   whatever that is.
   */
  lemma ListExact(ts: seq<string>)
    requires ts != [] && IsWord(ts[0]) && forall i :: 0 <= i < |ts| ==> IsWord(ts[i])
    ensures Item(ListText(ts)) == Listed(ts, true, true)
  {
    hide Items, Item, LaterItems, AllTokens, Stub, OptionsOf;
    var t, rest := ts[0], if |ts| == 1 then "" else "," + (" " + ListText(ts[1..]));
    assert IsWord(t);
    assert ListText(ts) == t + rest;
    ItemOfWord(t, rest);
    if |ts| > 1 {
      AfterFirstComma(" " + ListText(ts[1..]));
      ListTail(ts[1..], !Stub(t));
    } else {
      NothingLater();
    }
  }

  /** Without stubs and underscores, exactly the options listed are read. */
  lemma {:induction false} PlainList(ts: seq<string>, first: bool)
    requires forall i :: 0 <= i < |ts| ==> !Stub(ts[i]) && (ts[i] == "" || ts[i][0] != '_')
    ensures forall o :: o in Listed(ts, first, true) <==> exists i :: 0 <= i < |ts| && Means(ts[i], o)
    decreases |ts|
  {
    hide Stub, Means;
    if ts != [] {
      assert forall i :: 0 <= i < |ts| - 1 ==> ts[1..][i] == ts[i + 1];
      PlainList(ts[1..], false);
      forall o ensures o in Listed(ts, first, true) <==> exists i :: 0 <= i < |ts| && Means(ts[i], o) {
        assert !Stub(ts[0]) && (ts[0] == "" || ts[0][0] != '_');
        assert o in OptionsOf(ts[0]) <==> Means(ts[0], o);
        if i :| 0 <= i < |ts| && Means(ts[i], o) {
          if i > 0 { assert Means(ts[1..][i - 1], o); }
        }
        if o in Listed(ts[1..], false, true) {
          var i :| 0 <= i < |ts[1..]| && Means(ts[1..][i], o);
          assert Means(ts[i + 1], o);
        }
      }
    }
  }

  /** The option in second place is read exactly if the first token is no stub: `clos, close` does not close. */
  lemma SecondOption(t: string, o: ConnectionOption)
    requires IsWord(t)
    ensures o in Item(t + ", " + WordOf(o)) <==> !Stub(t)
    ensures Stub("clos")
  {
    hide IsWord, Item, Stub, WordOf;
    var ts := [t, WordOf(o)];
    WordIsWord(o);
    assert ts[1..] == [WordOf(o)] && ts[1..][1..] == [];
    assert ListText(ts) == t + ", " + WordOf(o);
    ListExact(ts);
    if Means(t, o) { MeansNoStub(t, o); }
    assert Listed(ts[1..][1..], false, !(!Stub(t) && Stub(WordOf(o)))) == {};
    assert Listed(ts[1..], false, !Stub(t)) == if Stub(t) then {} else OptionsOf(WordOf(o));
    AStub();
  }

  /** A tab after a comma is no blank to the parser, which has made it a ')': it ends the reading. */
  lemma TabHides(t: string, s: string)
    requires IsWord(t)
    ensures Item(t + ",\t" + s) == if Stub(t) then LaterItems(s) else OptionsOf(t)
  {
    hide Item, Stub, Means, AllTokens;
    var rest := "," + ("\t" + s);
    assert t + ",\t" + s == t + rest && ("\t" + s)[1..] == s;
    ItemOfWord(t, rest);
    AfterFirstComma("\t" + s);
    assert Lower('\t') == ')' && !IsToken(')');
    assert Items("\t" + s) == {};
    assert LaterItems("\t" + s) == LaterItems(s);
    forall o | Means(t, o) ensures !Stub(t) { MeansNoStub(t, o); }
  }

  lemma WordIsWord(o: ConnectionOption)
    ensures IsWord(WordOf(o)) && Means(WordOf(o), o) && WordOf(o)[0] != '_'
  {
  }

  lemma MeansNoStub(t: string, o: ConnectionOption)
    requires IsWord(t) && Means(t, o)
    ensures !Stub(t)
  {
    WordAgainst(t, KeepAlive);
    WordAgainst(t, Close);
    WordAgainst(t, Upgrading);
  }

  lemma AStub()
    ensures Stub("clos")
  {
    assert LowerToken("clos") == WordOf(Close)[..4];
  }

  // ---------- Transfer-Encoding ----------

  // The text is `chunked`, in any case of letters, and perhaps spaces.
  predicate IsChunked(value: string) {
    Common(value, CHUNKED) == |CHUNKED| && DropSpaces(value[|CHUNKED|..]) == ""
  }

  // Nothing but the state of the matching has changed.
  predicate OnlyMatched(r: Regs, r': Option<Regs>) {
    r'.Some? && r'.value == r.(state := HeaderValue, hstate := r'.value.hstate, index := r'.value.index)
  }

  lemma StepInChunked(r: Regs, n: nat, ch: char)
    requires r.state == HeaderValue && r.hstate == Val(MatchingChunked) && 1 <= n < |CHUNKED| && r.index == n - 1
    ensures ValueByte(r, ch) ==
            Move(r.(hstate := if Lower(ch) != CHUNKED[n] then General
                              else if n + 1 == |CHUNKED| then Val(HChunked) else Val(MatchingChunked),
                    index := n), Byte(Value), Advance)
  {
    hide IsToken, Lower;
  }

  lemma {:induction false} AfterChunked(r: Regs, w: string)
    requires r.state == HeaderValue && r.hstate == Val(HChunked)
    ensures FlagsAfter(r, w) == if DropSpaces(w) == "" then r.flags.(chunked := true) else r.flags
    ensures OnlyMatched(r, ValueFold(r, w))
    decreases |w|
  {
    hide ValueFold, Lower, IsToken;
    if w == "" {
      NothingLeft(r);
    } else {
      FlagsStep(r, w);
      var r' := ValueByte(r, w[0]).r;
      if w[0] == ' ' {
        assert r' == r;
        AfterChunked(r, w[1..]);
      } else {
        assert r' == r.(hstate := General);
        PlainFlags(r', w[1..]);
      }
    }
  }

  lemma PlainFlags(r: Regs, w: string)
    requires r.state == HeaderValue && r.hstate == General
    ensures FlagsAfter(r, w) == r.flags && OnlyMatched(r, ValueFold(r, w))
  {
    PlainFold(r, w);
  }

  lemma {:induction false} InChunked(r: Regs, n: nat, w: string)
    requires r.state == HeaderValue && r.hstate == Val(MatchingChunked) && 1 <= n < |CHUNKED| && r.index == n - 1
    ensures var m := Common(w, CHUNKED[n..]);
            FlagsAfter(r, w) ==
            if n + m == |CHUNKED| && DropSpaces(w[m..]) == "" then r.flags.(chunked := true) else r.flags
    ensures OnlyMatched(r, ValueFold(r, w))
    decreases |w|
  {
    hide ValueByte, ValueFold, Lower, DropSpaces;
    if w == "" {
      NothingLeft(r);
    } else {
      StepInChunked(r, n, w[0]);
      FlagsStep(r, w);
      var r' := ValueByte(r, w[0]).r;
      assert CHUNKED[n..][0] == CHUNKED[n] && CHUNKED[n..][1..] == CHUNKED[n + 1..];
      var m := Common(w, CHUNKED[n..]);
      if Lower(w[0]) != CHUNKED[n] {
        PlainFlags(r', w[1..]);
      } else {
        assert m == 1 + Common(w[1..], CHUNKED[n + 1..]) && w[m..] == w[1..][m - 1..];
        if n + 1 == |CHUNKED| { AfterChunked(r', w[1..]); } else { InChunked(r', n + 1, w[1..]); }
      }
    }
  }

  /** A Transfer-Encoding value says that the message is chunked exactly if its text is that. */
  lemma ChunkedExact(r: Regs, value: string)
    requires value != "" && r.hstate == Name(HTransferEncoding)
    ensures var v := WholeValue(r, value);
            && OnlyMatched(r, v)
            && ValueFlags(v.value.flags, v.value.hstate) ==
               if IsChunked(value) then r.flags.(chunked := true) else r.flags
  {
    hide ValueFold, Lower, DropSpaces;
    var o := ValueStart(r, value[0]);
    assert o.Move? && o.r == r.(state := HeaderValue, index := 0,
                                hstate := if Lower(value[0]) == 'c' then Val(MatchingChunked) else General);
    if Lower(value[0]) == 'c' {
      InChunked(o.r, 1, value[1..]);
      ChunkedFirst(value);
    } else {
      PlainFlags(o.r, value[1..]);
    }
  }

  lemma ChunkedFirst(value: string)
    requires value != "" && Lower(value[0]) == 'c'
    ensures Common(value, CHUNKED) == 1 + Common(value[1..], CHUNKED[1..])
    ensures Common(value, CHUNKED) == |CHUNKED| ==> value[|CHUNKED|..] == value[1..][|CHUNKED| - 1..]
  {
    hide Lower;
  }
}
