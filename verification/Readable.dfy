/** stream_readable.js: pushed chunks wait in a buffer while paused, and go straight out while flowing. */
module Readable {

  datatype Emission =
    | Data(bytes: string)      // the event 'data'
    | Returned(bytes: string)  // the result of a read()
    | End | Paused | Available | Error

  function Concat(chunks: seq<string>): string {
    if chunks == [] then "" else Concat(chunks[..|chunks| - 1]) + chunks[|chunks| - 1]
  }

  lemma ConcatSnoc(chunks: seq<string>, chunk: string)
    ensures Concat(chunks + [chunk]) == Concat(chunks) + chunk
  {
    assert (chunks + [chunk])[..|chunks|] == chunks;
  }

  // The bytes that have reached the reader, by either way.
  function Delivered(log: seq<Emission>): string {
    if log == [] then ""
    else
      var e := log[|log| - 1];
      Delivered(log[..|log| - 1]) + if e.Data? || e.Returned? then e.bytes else ""
  }

  lemma DeliveredSnoc(log: seq<Emission>, e: Emission)
    ensures Delivered(log + [e]) == Delivered(log) + if e.Data? || e.Returned? then e.bytes else ""
  {
    assert (log + [e])[..|log|] == log;
  }

  // At most one 'end', and no bytes after it.
  predicate EndsOnce(log: seq<Emission>) {
    forall i, j :: 0 <= i < j < |log| && log[i].End? ==> !log[j].End? && !log[j].Data? && !log[j].Returned?
  }

  datatype ReadResult = Null | Chunk(bytes: string) | Thrown

  class Stream {
    var buffer: seq<string>
    var length: nat
    var flowing: bool
    var ended: bool
    var endEmitted: bool
    var log: seq<Emission>
    ghost var pushed: string   // the bytes taken in

    ghost predicate Shape()
      reads this
    {
      && length == |Concat(buffer)| && pushed == Delivered(log) + Concat(buffer)
      && (flowing ==> length == 0)
      && (endEmitted ==> ended && length == 0) && (endEmitted <==> End in log) && EndsOnce(log)
    }

    // Between two calls: nothing is lost, repeated or reordered, a flowing stream holds nothing back, and
    // the end is reported as soon as everything has been.
    ghost predicate Valid()
      reads this
    {
      Shape() && (ended && length == 0 ==> endEmitted)
    }

    constructor ()
      ensures Valid() && pushed == "" && log == [] && !flowing && !ended
    {
      buffer, length, flowing, ended, endEmitted, log, pushed := [], 0, false, false, false, [], "";
    }

    method Emit(e: Emission)
      requires Shape() && !e.End? && (e.Data? || e.Returned? ==> !endEmitted)
      modifies this`log
      ensures log == old(log) + [e] && EndsOnce(log) && (End in log <==> endEmitted)
      ensures Delivered(log) == Delivered(old(log)) + if e.Data? || e.Returned? then e.bytes else ""
    {
      DeliveredSnoc(log, e);
      log := log + [e];
    }

    // readBuffer, for all that there is
    method ReadBuffer() returns (res: ReadResult)
      requires length == |Concat(buffer)|
      modifies this`buffer, this`length
      ensures old(length) == 0 ==> res == Null && buffer == old(buffer) && length == old(length)
      ensures old(length) > 0 ==> res == Chunk(Concat(old(buffer))) && buffer == [] && length == 0
    {
      if |buffer| == 0 || length == 0 { return Null; }
      res := Chunk(Concat(buffer));
      buffer, length := [], 0;
    }

    method EmitEnd()
      requires Shape() && ended && length == 0
      modifies this`endEmitted, this`log
      ensures Valid() && endEmitted && log == if old(endEmitted) then old(log) else old(log) + [End]
    {
      if !endEmitted {
        endEmitted := true;
        DeliveredSnoc(log, End);
        log := log + [End];
      }
    }

    // emitData: its assertion never fails.
    method EmitData(data: string, ghost before: string)
      requires length == |Concat(buffer)| == 0 && EndsOnce(log) && End !in log && !endEmitted
      requires pushed == before + data && before == Delivered(log)
      modifies this`buffer, this`length, this`endEmitted, this`log
      ensures Valid() && log == old(log) + [Data(data)] + (if ended then [End] else []) && buffer == old(buffer)
    {
      hide Delivered, Concat;
      var rest := ReadBuffer();
      assert rest == Null;
      DeliveredSnoc(log, Data(data));
      log := log + [Data(data)];
      assert Concat(buffer) == "" && Delivered(log) + "" == Delivered(log);
      if ended && length == 0 {
        EmitEnd();
      }
    }

    // pause
    method Pause()
      requires Valid()
      modifies this`flowing, this`log
      ensures Valid() && !flowing && log == old(log) + if old(flowing) then [Paused] else []
    {
      if flowing {
        flowing := false;
        Emit(Paused);
      }
    }

    // resume
    method Resume()
      requires Valid()
      modifies this`flowing, this`buffer, this`length, this`endEmitted, this`log
      ensures Valid() && flowing && length == 0
      ensures log == old(log) + if old(length) > 0 then [Data(Concat(old(buffer)))] + (if ended then [End] else []) else []
    {
      if !flowing {
        flowing := true;
        if length > 0 {
          var res := ReadBuffer();
          EmitData(res.bytes, Delivered(log));
          assert log == old(log) + ([Data(Concat(old(buffer)))] + (if ended then [End] else []));
        }
      }
    }

    // push(null)
    method PushEnd()
      requires Valid()
      modifies this`ended, this`endEmitted, this`log
      ensures Valid() && ended
      ensures log == old(log) + if old(length == 0 && !endEmitted) then [End] else []
    {
      ended := true;
      if length == 0 {
        EmitEnd();
      }
    }

    // push of a chunk
    method Push(chunk: string)
      requires Valid()
      modifies this`buffer, this`length, this`log, this`pushed, this`endEmitted
      ensures Valid() && pushed == if ended then old(pushed) else old(pushed) + chunk
      ensures buffer == if ended || flowing then old(buffer) else old(buffer) + [chunk]
      ensures log == old(log) + [if ended then Error else if flowing then Data(chunk) else Available]
    {
      hide Delivered, EndsOnce;
      if ended {
        Emit(Error);
      } else {
        ghost var before := Delivered(log);
        pushed := pushed + chunk;
        if flowing {
          EmitData(chunk, before);
        } else {
          ConcatSnoc(buffer, chunk);
          length := length + |chunk|;
          buffer := buffer + [chunk];
          Emit(Available);
          assert old(pushed) + chunk == before + (Concat(old(buffer)) + chunk);
        }
      }
    }

    // push of anything else
    method PushInvalid()
      requires Valid()
      modifies this`log
      ensures Valid() && log == old(log) + [Error]
    {
      Emit(Error);
    }

    // read(n), or read() if `missing`; reading less than there is was never written.
    method Read(n: int, missing: bool) returns (res: ReadResult)
      requires Valid()
      modifies this`buffer, this`length, this`endEmitted, this`log
      ensures Valid()
      ensures res ==
              if !missing && 0 < n < old(length) then Thrown
              else if (missing || n > 0) && old(length) > 0 then Chunk(Concat(old(buffer)))
              else Null
      ensures res.Chunk? ==> buffer == [] && log == old(log) + [Returned(res.bytes)] + (if ended then [End] else [])
      ensures !res.Chunk? ==> buffer == old(buffer) && log == old(log)
    {
      var m := if missing || n > length then length else if n < 0 then 0 else n;
      if 0 < m < length { return Thrown; }
      if m > 0 {
        res := ReadBuffer();
        DeliveredSnoc(log, Returned(res.bytes));
        log := log + [Returned(res.bytes)];
      } else {
        res := Null;
      }
      if ended && length == 0 {
        EmitEnd();
      }
    }
  }

  // ---------- Whole runs ----------

  datatype Op = PushChunk(bytes: string) | PushNull | DoPause | DoResume | ReadAll

  // What was pushed before the end of the stream.
  function Accepted(ops: seq<Op>): string {
    if ops == [] then ""
    else
      var front, op := ops[..|ops| - 1], ops[|ops| - 1];
      if op.PushChunk? && PushNull !in front then Accepted(front) + op.bytes else Accepted(front)
  }

  lemma AcceptedSnoc(ops: seq<Op>, op: Op)
    ensures Accepted(ops + [op]) ==
            if op.PushChunk? && PushNull !in ops then Accepted(ops) + op.bytes else Accepted(ops)
  {
    assert (ops + [op])[..|ops|] == ops;
  }

  /**
   Over every sequence of calls: the bytes delivered and those waiting are the bytes pushed before the end
   of the stream, in order; and once it has ended and is resumed or read, all have been delivered, with one
   'end' after them.
   */
  method Perform(ops: seq<Op>) returns (s: Stream)
    ensures s.Valid() && Delivered(s.log) + Concat(s.buffer) == Accepted(ops) && EndsOnce(s.log)
    ensures s.ended == (PushNull in ops)
    ensures PushNull in ops && (ops[|ops| - 1].DoResume? || ops[|ops| - 1].ReadAll?) ==>
              Delivered(s.log) == Accepted(ops) && End in s.log
  {
    hide Delivered, Concat, Accepted, EndsOnce;
    s := new Stream();
    AcceptedNothing();
    for i := 0 to |ops|
      invariant s.Valid() && s.pushed == Accepted(ops[..i]) && s.ended == (PushNull in ops[..i]) && fresh(s)
      invariant i > 0 && (ops[i - 1].DoResume? || ops[i - 1].ReadAll?) ==> s.length == 0
    {
      assert ops[..i + 1] == ops[..i] + [ops[i]];
      AcceptedSnoc(ops[..i], ops[i]);
      match ops[i] {
        case PushChunk(bytes) => s.Push(bytes);
        case PushNull => s.PushEnd();
        case DoPause => s.Pause();
        case DoResume => s.Resume();
        case ReadAll =>
          var res := s.Read(0, true);
          EmptyBuffer();
      }
    }
    assert ops[..|ops|] == ops;
    if s.length == 0 { assert Delivered(s.log) + Concat(s.buffer) == Delivered(s.log); }
  }

  lemma AcceptedNothing()
    ensures Accepted([]) == ""
  {
  }

  lemma EmptyBuffer()
    ensures Concat([]) == ""
  {
  }
}
