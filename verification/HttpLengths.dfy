/** Length arithmetic is exact: Content-Length values and chunk sizes. */
module HttpLengths {
  import opened Bytes
  import opened HttpTypes
  import opened HttpSwitch
  import opened HttpRun
  import opened HttpHeaders

  // The largest values the conservative overflow tests let through; both are below the sentinel.
  const MAX_DECIMAL: nat := (NO_LENGTH - 10) / 10 * 10 + 9
  const MAX_HEXADECIMAL: nat := (NO_LENGTH - 16) / 16 * 16 + 15

  predicate DigitsOrSpaces(w: string) {
    forall i :: 0 <= i < |w| ==> IsNum(w[i]) || w[i] == ' '
  }

  // The number written by the digits of `w` after those of `n`, without its spaces.
  function Decimal(n: nat, w: string): nat
    decreases |w|
  {
    if w == "" then n else Decimal(if IsNum(w[0]) then n * 10 + Digit(w[0]) else n, w[1..])
  }

  lemma {:induction false} DecimalGrows(n: nat, w: string)
    ensures Decimal(n, w) >= n
    decreases |w|
  {
    if w != "" { DecimalGrows(if IsNum(w[0]) then n * 10 + Digit(w[0]) else n, w[1..]); }
  }

  /** The bytes of a Content-Length after the first: the exact number, or an error. */
  lemma {:induction false} ContentLengthFold(r: Regs, w: string)
    requires r.state == HeaderValue && r.hstate == HContentLength && r.length <= MAX_DECIMAL
    ensures ValueFold(r, w) ==
            if DigitsOrSpaces(w) && Decimal(r.length, w) <= MAX_DECIMAL then Some(r.(length := Decimal(r.length, w))) else None
    decreases |w|
  {
    if w != "" {
      var ch, n := w[0], r.length;
      assert DigitsOrSpaces(w) <==> (IsNum(ch) || ch == ' ') && DigitsOrSpaces(w[1..]) by {
        assert forall i :: 0 < i < |w| ==> w[i] == w[1..][i - 1];
      }
      if ch == ' ' {
        ContentLengthFold(r, w[1..]);
      } else if IsNum(ch) {
        DecimalGrows(n * 10 + Digit(ch), w[1..]);
        if n <= (NO_LENGTH - 10) / 10 { ContentLengthFold(r.(length := n * 10 + Digit(ch)), w[1..]); }
      }
    }
  }

  // A whole Content-Length value is accepted as this number.
  predicate IsLength(v: string, n: nat) {
    v != "" && IsNum(v[0]) && DigitsOrSpaces(v) && Decimal(0, v) == n && n <= MAX_DECIMAL
  }

  /** A Content-Length value is kept as exactly the number it writes, or is an error; nothing wraps around. */
  lemma ContentLengthExact(r: Regs, v: string)
    requires v != "" && r.hstate == HContentLength
    ensures WholeValue(r, v).Some? <==> exists n :: IsLength(v, n)
    ensures forall n: nat :: IsLength(v, n) ==> WholeValue(r, v).Some? && WholeValue(r, v).value.length == n < NO_LENGTH
  {
    var ch := v[0];
    assert DigitsOrSpaces(v) <==> (IsNum(ch) || ch == ' ') && DigitsOrSpaces(v[1..]) by {
      assert forall i :: 0 < i < |v| ==> v[i] == v[1..][i - 1];
    }
    if IsNum(ch) {
      var r' := r.(state := HeaderValue, index := 0, length := Digit(ch));
      ContentLengthFold(r', v[1..]);
      assert IsLength(v, Decimal(0, v)) <==> WholeValue(r, v).Some?;
    }
  }

  // ---------- Chunk sizes ----------

  predicate AllHex(w: string) {
    forall i :: 0 <= i < |w| ==> Unhex(w[i]) != -1
  }

  // The number written by `w` after `n` in the digits of the unhex table.
  function Hexadecimal(n: nat, w: string): nat
    decreases |w|
  {
    if w == "" then n else Hexadecimal(if Unhex(w[0]) == -1 then n else n * 16 + Unhex(w[0]), w[1..])
  }

  lemma {:induction false} HexadecimalGrows(n: nat, w: string)
    ensures Hexadecimal(n, w) >= n
    decreases |w|
  {
    if w != "" { HexadecimalGrows(if Unhex(w[0]) == -1 then n else n * 16 + Unhex(w[0]), w[1..]); }
  }

  // Once the digits `w` are read.
  function SizeRead(c: Conf, n: nat, w: string): Conf {
    Spent(c, c.r.(length := Hexadecimal(n, w), state := ChunkPart(ChunkSize)), c.log, |w|)
  }

  lemma ChunkDigitRun(skip: Skip, c: Conf, input: string)
    requires input != "" && Unhex(input[0]) != -1 && c.r.flags.chunked
    requires c.r.state == ChunkPart(ChunkSize) || c.r.state == ChunkPart(ChunkSizeStart)
    ensures var n := if c.r.state == ChunkPart(ChunkSizeStart) then 0 else c.r.length;
            if n <= (NO_LENGTH - 16) / 16
            then Run(skip, c, input) ==
                 Run(skip, Spent(c, c.r.(length := n * 16 + Unhex(input[0]), state := ChunkPart(ChunkSize)), c.log, 1),
                     input[1..])
            else Run(skip, c, input) == Failed(InvalidContentLength, c.pos, c.peak)
  {
    hide Run;
    var d := Unhex(input[0]);
    assert 0 <= d < 16 && input[0] != CR;
    hide Unhex;
    var n := if c.r.state == ChunkPart(ChunkSizeStart) then 0 else c.r.length;
    if n <= (NO_LENGTH - 16) / 16 {
      var r := c.r.(length := n * 16 + d, state := ChunkPart(ChunkSize));
      assert Switch(c.r, input[0]) == Move(r, Quiet, Advance);
      HeaderStep(skip, c, input, r, Quiet);
    } else {
      assert Switch(c.r, input[0]) == Fail(InvalidContentLength);
      FailStep(skip, c, input, InvalidContentLength);
    }
  }

  lemma {:induction false} ChunkDigitsRun(skip: Skip, c: Conf, w: string, rest: string)
    requires c.r.state == ChunkPart(ChunkSize) && c.r.flags.chunked && c.r.length <= MAX_HEXADECIMAL && AllHex(w)
    requires c.hdr <= c.peak
    ensures var n := Hexadecimal(c.r.length, w);
            if n <= MAX_HEXADECIMAL then Run(skip, c, w + rest) == Run(skip, SizeRead(c, c.r.length, w), rest)
            else Run(skip, c, w + rest).Failed? && Run(skip, c, w + rest).e == InvalidContentLength
    decreases |w|
  {
    hide Run, Unhex;
    if w == "" {
      assert w + rest == rest;
    } else {
      var input := w + rest;
      assert input[0] == w[0] && input[1..] == w[1..] + rest && AllHex(w[1..]);
      ChunkDigitRun(skip, c, input);
      var n, d := c.r.length, Unhex(w[0]);
      UnhexRange(w[0]);
      HexadecimalGrows(n * 16 + d, w[1..]);
      if n <= (NO_LENGTH - 16) / 16 {
        var c' := Spent(c, c.r.(length := n * 16 + d), c.log, 1);
        ChunkDigitsRun(skip, c', w[1..], rest);
      }
    }
  }

  lemma UnhexRange(ch: char)
    ensures -1 <= Unhex(ch) < 16
  {
  }

  /** A chunk size is kept as exactly the number it writes, or is an error; nothing wraps around. */
  lemma ChunkSizeExact(skip: Skip, c: Conf, w: string, rest: string)
    requires c.r.state == ChunkPart(ChunkSizeStart) && c.r.flags.chunked && w != "" && AllHex(w) && c.hdr <= c.peak
    ensures var n := Hexadecimal(0, w);
            if n <= MAX_HEXADECIMAL then Run(skip, c, w + rest) == Run(skip, SizeRead(c, 0, w), rest)
            else Run(skip, c, w + rest).Failed? && Run(skip, c, w + rest).e == InvalidContentLength
    ensures MAX_HEXADECIMAL < NO_LENGTH
  {
    hide Run, Unhex;
    var input := w + rest;
    assert input[0] == w[0] && input[1..] == w[1..] + rest && AllHex(w[1..]);
    ChunkDigitRun(skip, c, input);
    UnhexRange(w[0]);
    var c' := Spent(c, c.r.(length := Unhex(w[0]), state := ChunkPart(ChunkSize)), c.log, 1);
    ChunkDigitsRun(skip, c', w[1..], rest);
  }
}
