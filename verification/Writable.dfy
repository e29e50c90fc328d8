/** stream_writable.js: chunks are written one at a time, each when the one before it is acknowledged. */
module Writable {

  datatype Emission =
    | Written(chunk: string)   // a call of _write
    | Drain | Finish | Error

  // The bytes of a queue of chunks.
  function Total(chunks: seq<string>): nat {
    if chunks == [] then 0 else |chunks[0]| + Total(chunks[1..])
  }

  lemma {:induction false} TotalSnoc(chunks: seq<string>, chunk: string)
    ensures Total(chunks + [chunk]) == Total(chunks) + |chunk|
  {
    if chunks == [] {
      assert chunks + [chunk] == [chunk] && [chunk][1..] == [];
    } else {
      assert (chunks + [chunk])[1..] == chunks[1..] + [chunk];
      TotalSnoc(chunks[1..], chunk);
    }
  }

  // The chunks handed to _write.
  function Handed(log: seq<Emission>): seq<string> {
    if log == [] then []
    else
      var e := log[|log| - 1];
      Handed(log[..|log| - 1]) + if e.Written? then [e.chunk] else []
  }

  lemma HandedSnoc(log: seq<Emission>, e: Emission)
    ensures Handed(log + [e]) == Handed(log) + if e.Written? then [e.chunk] else []
  {
    assert (log + [e])[..|log|] == log;
  }

  function Finishes(log: seq<Emission>): nat {
    if log == [] then 0 else Finishes(log[..|log| - 1]) + if log[|log| - 1].Finish? then 1 else 0
  }

  lemma FinishesSnoc(log: seq<Emission>, e: Emission)
    ensures Finishes(log + [e]) == Finishes(log) + if e.Finish? then 1 else 0
  {
    assert (log + [e])[..|log|] == log;
  }

  class Stream {
    const highWaterMark: nat
    var buffer: seq<string>
    var length: nat
    var ready: bool
    var writing: bool
    var writingLength: nat
    var needDrain: bool
    var ending: bool
    var ended: bool
    var ticking: bool           // emitFinish is due at the next tick
    var log: seq<Emission>
    ghost var accepted: seq<string>
    ghost var acked: nat        // chunks acknowledged
    ghost var late: bool        // a chunk was taken after end()

    // What holds even in the middle of a call.
    ghost predicate Shape()
      reads this
    {
      && Handed(log) + buffer == accepted
      && |Handed(log)| == acked + (if writing then 1 else 0)
      && writingLength == (if writing then |Handed(log)[|Handed(log)| - 1]| else 0)
      && length == writingLength + Total(buffer)
      && Finishes(log) == (if ended then 1 else 0) && (ended || ticking ==> ending) && (late ==> ending)
      && (ticking && !late ==> !writing && buffer == [])
      && (ended && !late ==> !writing && buffer == [])
    }

    // Between two calls: an idle stream that is ready has nothing to write, and owes no 'drain' unless it is ending;
    // a stream that is ending will finish.
    ghost predicate Valid()
      reads this
    {
      && Shape() && (ready && !writing ==> buffer == [])
      && (ready && needDrain && !ending ==> writing)
      && (ending && !ended ==> ticking || writing || buffer != [])
    }

    constructor (highWaterMark: nat)
      ensures Valid() && accepted == [] && log == [] && buffer == [] && !writing && !ready && !ending && !ended
      ensures this.highWaterMark == highWaterMark
    {
      this.highWaterMark := highWaterMark;
      buffer, length, ready, writing, writingLength := [], 0, false, false, 0;
      needDrain, ending, ended, ticking, log := false, false, false, false, [];
      accepted, acked, late := [], 0, false;
    }

    // doWrite: a stream that is writing never gets here.
    method DoWrite(chunk: string)
      requires !writing
      modifies this`writing, this`writingLength, this`log
      ensures writing && writingLength == |chunk| && log == old(log) + [Written(chunk)]
      ensures Handed(log) == Handed(old(log)) + [chunk] && Finishes(log) == Finishes(old(log))
    {
      writing := true;
      writingLength := |chunk|;
      HandedSnoc(log, Written(chunk));
      FinishesSnoc(log, Written(chunk));
      log := log + [Written(chunk)];
    }

    method EmitFinish()
      modifies this`ended, this`log
      ensures ended && log == if old(ended) then old(log) else old(log) + [Finish]
      ensures Handed(log) == Handed(old(log)) && Finishes(log) == Finishes(old(log)) + if old(ended) then 0 else 1
    {
      if !ended {
        ended := true;
        HandedSnoc(log, Finish);
        FinishesSnoc(log, Finish);
        log := log + [Finish];
      }
    }

    method EmitDrain()
      modifies this`needDrain, this`log
      ensures !needDrain && log == if old(needDrain) then old(log) + [Drain] else old(log)
      ensures Handed(log) == Handed(old(log)) && Finishes(log) == Finishes(old(log))
    {
      if needDrain {
        needDrain := false;
        HandedSnoc(log, Drain);
        FinishesSnoc(log, Drain);
        log := log + [Drain];
      }
    }

    // writeBuffered
    method WriteBuffered()
      requires Shape()
      modifies this`buffer, this`writing, this`writingLength, this`ended, this`needDrain, this`log
      ensures Shape() && (!writing ==> buffer == [])
      ensures needDrain && !ending ==> writing
      ensures ending && !ended ==> ticking || writing || buffer != []
      ensures log == old(log) +
              if old(writing) then []
              else if old(buffer) != [] then [Written(old(buffer)[0])]
              else if ending then (if old(ended) then [] else [Finish])
              else if old(needDrain) then [Drain] else []
      ensures buffer == if old(writing) || old(buffer) == [] then old(buffer) else old(buffer)[1..]
      ensures ended == (old(ended) || (ending && !old(writing) && old(buffer) == []))
      ensures writing == (old(writing) || old(buffer) != [])
    {
      if !writing {
        if |buffer| == 0 {
          if ending {
            EmitFinish();
          } else if needDrain {
            EmitDrain();
          }
        } else {
          var chunk := buffer[0];
          buffer := buffer[1..];
          DoWrite(chunk);
        }
      }
    }

    // The two ways of writeOrBuffer, each with its share of the accounting.
    method Enqueue(chunk: string)
      requires Shape() && !ended
      modifies this`buffer, this`length, this`accepted, this`late
      ensures Shape() && accepted == old(accepted) + [chunk] && late == (old(late) || ending)
      ensures length == old(length) + |chunk| && buffer == old(buffer) + [chunk]
    {
      hide Handed, Finishes, Total;
      accepted, late := accepted + [chunk], late || ending;
      length := length + |chunk|;
      TotalSnoc(buffer, chunk);
      assert Handed(log) + (buffer + [chunk]) == Handed(log) + buffer + [chunk];
      buffer := buffer + [chunk];
    }

    method WriteNow(chunk: string)
      requires Shape() && !ended && !writing && buffer == []
      modifies this`length, this`writing, this`writingLength, this`log, this`accepted, this`late
      ensures Shape() && accepted == old(accepted) + [chunk] && late == (old(late) || ending)
      ensures length == old(length) + |chunk| && writing && log == old(log) + [Written(chunk)]
    {
      hide Handed, Finishes, Total;
      accepted, late := accepted + [chunk], late || ending;
      length := length + |chunk|;
      assert Handed(log) + buffer == Handed(log);
      DoWrite(chunk);
      assert Handed(log) + buffer == Handed(log);
    }

    // writeOrBuffer
    method WriteOrBuffer(chunk: string) returns (more: bool)
      requires Valid() && !ended
      modifies this`buffer, this`length, this`writing, this`writingLength, this`needDrain, this`log, this`accepted, this`late
      ensures Valid() && accepted == old(accepted) + [chunk] && late == (old(late) || ending)
      ensures length == old(length) + |chunk| && needDrain == (old(needDrain) || length >= highWaterMark) && more == !needDrain
      ensures if old(ready && !writing) then buffer == [] && log == old(log) + [Written(chunk)]
              else buffer == old(buffer) + [chunk] && log == old(log)
    {
      hide Handed, Finishes, Total;
      if !ready || writing || |buffer| > 0 {
        Enqueue(chunk);
      } else {
        WriteNow(chunk);
      }
      if length >= highWaterMark {
        needDrain := true;
      }
      return !needDrain;
    }

    // write
    method Write(chunk: string) returns (more: bool)
      requires Valid()
      modifies this`buffer, this`length, this`writing, this`writingLength, this`needDrain, this`log, this`accepted, this`late
      ensures Valid() && accepted == if ended then old(accepted) else old(accepted) + [chunk]
      ensures late == (old(late) || (ending && !ended))
      ensures needDrain == (old(needDrain) || (!ended && length >= highWaterMark)) && more == (!ended && !needDrain)
      ensures log == old(log) + if ended then [Error] else if old(ready && !writing) then [Written(chunk)] else []
      ensures buffer == old(buffer) + if ended || old(ready && !writing) then [] else [chunk]
      ensures writing == (old(writing) || (ready && !ended))
    {
      hide Handed, Finishes, Total;
      if ended {
        HandedSnoc(log, Error);
        FinishesSnoc(log, Error);
        log := log + [Error];
        return false;
      }
      more := WriteOrBuffer(chunk);
    }

    // end: `chunk` is what is written first, if anything. The second time it ends nothing.
    method EndWith(chunk: seq<string>)
      requires Valid() && |chunk| <= 1
      modifies this`buffer, this`length, this`writing, this`writingLength, this`needDrain, this`log, this`accepted, this`late,
               this`ending, this`ticking
      ensures Valid() && ending && accepted == if old(ended) then old(accepted) else old(accepted) + chunk
      ensures late == (old(late) || (old(ending) && !old(ended) && chunk != []))
      ensures ticking == (old(ticking) || (!old(ending) && !writing && buffer == []))
      ensures chunk == [] ==> writing == old(writing) && buffer == old(buffer)
      ensures log == old(log) +
              if chunk == [] then [] else if ended then [Error] else if old(ready && !writing) then [Written(chunk[0])] else []
    {
      hide Handed, Finishes, Total;
      if |chunk| > 0 {
        var more := Write(chunk[0]);
        assert chunk == [chunk[0]];
      }
      if !ending {
        ending := true;
        if !writing && |buffer| == 0 {
          ticking := true;
        }
      }
    }

    // _readyToWrite
    method ReadyToWrite()
      requires Valid()
      modifies this`ready, this`buffer, this`writing, this`writingLength, this`ended, this`needDrain, this`log
      ensures Valid() && ready
      ensures log == old(log) +
              if old(writing) then []
              else if old(buffer) != [] then [Written(old(buffer)[0])]
              else if ending then (if old(ended) then [] else [Finish])
              else if old(needDrain) then [Drain] else []
      ensures buffer == if old(writing) || old(buffer) == [] then old(buffer) else old(buffer)[1..]
      ensures ended == (old(ended) || (ending && !old(writing) && old(buffer) == []))
      ensures writing == (old(writing) || old(buffer) != [])
    {
      ready := true;
      WriteBuffered();
    }

    // _onwrite: the write in flight has been done.
    method OnWrite()
      requires Valid() && writing
      modifies this`length, this`acked, this`buffer, this`writing, this`writingLength, this`ended, this`needDrain, this`log
      ensures Valid() && acked == old(acked) + 1
      ensures length == old(length) - old(writingLength)
      ensures log == old(log) +
              if old(buffer) != [] then [Written(old(buffer)[0])]
              else if ending then (if old(ended) then [] else [Finish])
              else if old(needDrain) then [Drain] else []
      ensures buffer == (if old(buffer) == [] then [] else old(buffer)[1..]) && writing == (old(buffer) != [])
      ensures ended == (old(ended) || (ending && old(buffer) == []))
    {
      length := length - writingLength;
      writing := false;
      writingLength := 0;
      acked := acked + 1;
      WriteBuffered();
    }

    /**
     The tick after end(): 'finish' with chunks still waiting or in flight, if and only if there are some;
     and there are some only if they were written after end().
     */
    method Tick()
      requires Valid() && ticking
      modifies this`ticking, this`ended, this`log
      ensures Valid() && ended && log == if old(ended) then old(log) else old(log) + [Finish]
      ensures acked < |accepted| <==> writing || buffer != []
      ensures !late ==> acked == |accepted|
    {
      ticking := false;
      EmitFinish();
    }
  }

  // ---------- Whole runs ----------

  datatype Op = WriteChunk(chunk: string) | EndIt(last: seq<string>) | Ready | Ack | NextTick

  // A step that the surroundings of the stream can take: a write is acknowledged while it is in flight.
  predicate Enabled(s: Stream, op: Op)
    reads s
  {
    match op
    case Ack => s.writing
    case NextTick => s.ticking
    case EndIt(last) => |last| <= 1
    case _ => true
  }

  /**
   Any step of any run keeps it all: the chunks handed to _write followed by the buffer are those accepted;
   one write at most is in flight; 'finish' comes at most once, and unless a chunk was taken after end(),
   only when everything has been acknowledged, after which nothing is written.
   */
  method Perform(s: Stream, op: Op)
    requires s.Valid() && Enabled(s, op)
    modifies s
    ensures s.Valid() && Handed(s.log) + s.buffer == s.accepted && old(s.accepted) <= s.accepted
    ensures old(s.log) <= s.log && Finishes(s.log) <= 1 && s.acked <= |Handed(s.log)| <= s.acked + 1
    ensures s.ended && !s.late ==> s.acked == |s.accepted|
    ensures old(s.ended) ==> s.ended && s.accepted == old(s.accepted) && s.late == old(s.late)
  {
    match op
    case WriteChunk(chunk) => var more := s.Write(chunk);
    case EndIt(last) => s.EndWith(last);
    case Ready => s.ReadyToWrite();
    case Ack => s.OnWrite();
    case NextTick => s.Tick();
  }

  /** A ready stream whose writes are all acknowledged has written every chunk it took, in order, and finishes if it is ending. */
  method AcknowledgeAll(s: Stream)
    requires s.Valid() && s.ready
    modifies s
    ensures s.Valid() && !s.writing && s.length == 0
    ensures Handed(s.log) == s.accepted == old(s.accepted) && s.acked == |s.accepted|
    ensures s.ending == old(s.ending) && (s.ending ==> s.ended || s.ticking) && (!s.ending ==> !s.needDrain)
  {
    while s.writing
      invariant s.Valid() && s.ready && s.accepted == old(s.accepted) && s.ending == old(s.ending)
      decreases |s.buffer|, s.writing
    {
      s.OnWrite();
    }
    assert Handed(s.log) + s.buffer == Handed(s.log);
  }

  /** A chunk written after end(), before the tick: 'finish' comes while it is in flight. */
  method FinishedTooSoon(chunk: string) returns (s: Stream)
    ensures s.Valid() && s.ended && s.acked < |s.accepted| && s.log[|s.log| - 1] == Finish
  {
    hide *;
    s := new Stream(128);
    s.ReadyToWrite();
    s.EndWith([]);
    var more := s.Write(chunk);
    s.Tick();
  }
}
