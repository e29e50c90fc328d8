/**
 The ACL branch of onSocketData in ble_hci_socket_hci.js: packets that arrive in fragments, on several
 connections at once, are put together again (Bluetooth Core Specification 4.2, Vol 2 Part E, section 5.4.2).
 */
module Acl {
  import opened Octets

  const HCI_ACLDATA_PKT: Byte := 0x02
  const ACL_CONT: nat := 0x01
  const ACL_START: nat := 0x02

  // ---------- Frames ----------

  datatype Frame =
    | Start(handle: nat, length: nat, cid: nat, data: Bytes)
    | Cont(handle: nat, data: Bytes)
    | Other
    | Short   // a read out of range throws

  function Decode(data: Bytes): Frame {
    if |data| < 1 then Short
    else if data[0] != HCI_ACLDATA_PKT then Other
    else if |data| < 3 then Short
    else
      var flags, handle := U16At(data, 1) / 0x1000, U16At(data, 1) % 0x1000;
      if flags == ACL_START then
        if |data| < 9 then Short else Start(handle, U16At(data, 5), U16At(data, 7), data[9..])
      else if flags == ACL_CONT then Cont(handle, From(data, 5))
      else Other
  }

  predicate Sendable(f: Frame) {
    match f
    case Start(handle, length, cid, data) => handle < 0x1000 && length < 0x1_0000 && cid < 0x1_0000 && |data| + 4 < 0x1_0000
    case Cont(handle, data) => handle < 0x1000 && |data| < 0x1_0000
    case _ => false
  }

  // A frame as the controller sends it.
  function Encode(f: Frame): Bytes
    requires Sendable(f)
  {
    match f
    case Start(handle, length, cid, data) =>
      [HCI_ACLDATA_PKT] + Le16(handle + ACL_START * 0x1000) + Le16(|data| + 4) + Le16(length) + Le16(cid) + data
    case Cont(handle, data) => [HCI_ACLDATA_PKT] + Le16(handle + ACL_CONT * 0x1000) + Le16(|data|) + data
  }

  /** Frames survive encoding. */
  lemma FrameRoundTrip(f: Frame)
    requires Sendable(f)
    ensures Decode(Encode(f)) == f
  {
    var data := Encode(f);
    match f
    case Start(handle, length, cid, payload) =>
      assert data[1..3] == Le16(handle + ACL_START * 0x1000) && data[5..7] == Le16(length) && data[7..9] == Le16(cid);
      assert U16At(data, 1) == handle + ACL_START * 0x1000 && U16At(data, 5) == length && U16At(data, 7) == cid;
      assert data[9..] == payload;
    case Cont(handle, payload) =>
      assert data[1..3] == Le16(handle + ACL_CONT * 0x1000);
      assert U16At(data, 1) == handle + ACL_CONT * 0x1000;
      assert data[5..] == payload;
  }

  // ---------- Reassembly ----------

  datatype Partial = Partial(length: nat, cid: nat, data: Bytes)
  datatype Packet = Packet(handle: nat, cid: nat, data: Bytes)
  datatype State = State(buffers: map<nat, Partial>, out: seq<Packet>)

  const NOTHING := State(map[], [])

  function Step(s: State, f: Frame): State {
    match f
    case Start(h, length, cid, data) =>
      if length == |data| then s.(out := s.out + [Packet(h, cid, data)])
      else s.(buffers := s.buffers[h := Partial(length, cid, data)])
    case Cont(h, piece) =>
      if h !in s.buffers then s
      else
        var p := s.buffers[h].(data := s.buffers[h].data + piece);
        if |p.data| == p.length then State(s.buffers - {h}, s.out + [Packet(h, p.cid, p.data)])
        else s.(buffers := s.buffers[h := p])
    case _ => s
  }

  function Run(s: State, fs: seq<Frame>): State {
    if fs == [] then s else Step(Run(s, fs[..|fs| - 1]), fs[|fs| - 1])
  }

  lemma RunSnoc(s: State, fs: seq<Frame>, f: Frame)
    ensures Run(s, fs + [f]) == Step(Run(s, fs), f)
  {
    assert (fs + [f])[..|fs|] == fs;
  }

  lemma {:induction false} RunAppend(s: State, a: seq<Frame>, b: seq<Frame>)
    ensures Run(s, a + b) == Run(Run(s, a), b)
  {
    if b == [] {
      assert a + b == a;
    } else {
      assert (a + b)[..|a + b| - 1] == a + b[..|b| - 1];
      RunAppend(s, a, b[..|b| - 1]);
    }
  }

  class Hci {
    var handleBuffers: map<nat, Partial>
    var emitted: seq<Packet>

    ghost function Now(): State
      reads this
    {
      State(handleBuffers, emitted)
    }

    constructor ()
      ensures Now() == NOTHING
    {
      handleBuffers, emitted := map[], [];
    }

    // onSocketData: `thrown` where a read is out of range.
    method OnSocketData(data: Bytes) returns (thrown: bool)
      modifies this
      ensures thrown == Decode(data).Short? && Now() == Step(old(Now()), Decode(data))
    {
      if |data| < 1 { return true; }
      var eventType := data[0];
      if eventType == HCI_ACLDATA_PKT {
        if |data| < 3 { return true; }
        var flags := U16At(data, 1) / 0x1000;
        var handle := U16At(data, 1) % 0x1000;
        if flags == ACL_START {
          if |data| < 9 { return true; }
          var cid := U16At(data, 7);
          var length := U16At(data, 5);
          var pktData := data[9..];
          if length == |pktData| {
            emitted := emitted + [Packet(handle, cid, pktData)];
          } else {
            handleBuffers := handleBuffers[handle := Partial(length, cid, pktData)];
          }
        } else if flags == ACL_CONT {
          if handle !in handleBuffers { return false; }
          handleBuffers := handleBuffers[handle := handleBuffers[handle].(data := handleBuffers[handle].data + From(data, 5))];
          if |handleBuffers[handle].data| == handleBuffers[handle].length {
            emitted := emitted + [Packet(handle, handleBuffers[handle].cid, handleBuffers[handle].data)];
            handleBuffers := handleBuffers - {handle};
          }
        }
      }
      return false;
    }
  }

  // ---------- Any input ----------

  // Some start fragment declared this packet, and the packet begins with its data.
  ghost predicate Declared(fs: seq<Frame>, h: nat, length: nat, cid: nat, data: Bytes) {
    exists i :: 0 <= i < |fs| && fs[i].Start? && fs[i].handle == h && fs[i].length == length && fs[i].cid == cid &&
      fs[i].data <= data
  }

  lemma StillDeclared(fs: seq<Frame>, f: Frame, h: nat, length: nat, cid: nat, data: Bytes, more: Bytes)
    requires Declared(fs, h, length, cid, data)
    ensures Declared(fs + [f], h, length, cid, data + more)
  {
    var i :| 0 <= i < |fs| && fs[i].Start? && fs[i].handle == h && fs[i].length == length && fs[i].cid == cid &&
      fs[i].data <= data;
    assert (fs + [f])[i] == fs[i];
  }

  /** Whatever arrives, a packet that is emitted has exactly the length declared in its start fragment. */
  lemma {:induction false} EmittedExact(fs: seq<Frame>)
    ensures forall k :: 0 <= k < |Run(NOTHING, fs).out| ==>
              var p := Run(NOTHING, fs).out[k]; Declared(fs, p.handle, |p.data|, p.cid, p.data)
    ensures forall h :: h in Run(NOTHING, fs).buffers ==>
              var b := Run(NOTHING, fs).buffers[h]; Declared(fs, h, b.length, b.cid, b.data)
  {
    if fs != [] {
      var front, f := fs[..|fs| - 1], fs[|fs| - 1];
      assert fs == front + [f];
      EmittedExact(front);
      var s, s' := Run(NOTHING, front), Run(NOTHING, fs);
      forall k | 0 <= k < |s'.out| ensures var p := s'.out[k]; Declared(fs, p.handle, |p.data|, p.cid, p.data) {
        if k < |s.out| {
          var p := s.out[k];
          StillDeclared(front, f, p.handle, |p.data|, p.cid, p.data, []);
          assert p.data + [] == p.data;
        } else if f.Cont? {
          var b := s.buffers[f.handle];
          StillDeclared(front, f, f.handle, b.length, b.cid, b.data, f.data);
        } else {
          assert fs[|front|] == f;
        }
      }
      forall h | h in s'.buffers ensures var b := s'.buffers[h]; Declared(fs, h, b.length, b.cid, b.data) {
        if f.Start? && f.handle == h && f.length != |f.data| {
          assert fs[|front|] == f;
        } else {
          var b := s.buffers[h];
          var more: Bytes := if f.Cont? && f.handle == h then f.data else [];
          StillDeclared(front, f, h, b.length, b.cid, b.data, more);
          assert b.data + [] == b.data;
        }
      }
    }
  }

  // ---------- Connections do not disturb each other ----------

  function Of(f: Frame): int {
    if f.Start? || f.Cont? then f.handle else -1
  }

  function FramesOf(fs: seq<Frame>, h: nat): seq<Frame> {
    if fs == [] then []
    else FramesOf(fs[..|fs| - 1], h) + if Of(fs[|fs| - 1]) == h then [fs[|fs| - 1]] else []
  }

  function PacketsOf(out: seq<Packet>, h: nat): seq<Packet> {
    if out == [] then []
    else PacketsOf(out[..|out| - 1], h) + if out[|out| - 1].handle == h then [out[|out| - 1]] else []
  }

  lemma PacketsSnoc(out: seq<Packet>, p: Packet, h: nat)
    ensures PacketsOf(out + [p], h) == PacketsOf(out, h) + if p.handle == h then [p] else []
  {
    assert (out + [p])[..|out|] == out;
  }

  predicate Alike(s: State, t: State, h: nat) {
    PacketsOf(s.out, h) == PacketsOf(t.out, h) && (h in s.buffers <==> h in t.buffers) &&
    (h in s.buffers ==> s.buffers[h] == t.buffers[h])
  }

  // A step appends at most one packet, of the connection of its frame, and touches no other buffer.
  lemma StepLocal(s: State, f: Frame)
    ensures var s' := Step(s, f);
            && s.out <= s'.out && |s'.out| <= |s.out| + 1
            && (|s'.out| > |s.out| ==> s'.out == s.out + [s'.out[|s.out|]] && s'.out[|s.out|].handle == Of(f))
            && (|s'.out| == |s.out| ==> s'.out == s.out)
    ensures forall h: nat :: h != Of(f) ==> (h in Step(s, f).buffers <==> h in s.buffers)
    ensures forall h: nat :: h != Of(f) && h in s.buffers ==> Step(s, f).buffers[h] == s.buffers[h]
  {
  }

  // What a step does to its own connection depends on the buffer of that connection only.
  lemma StepSame(s: State, t: State, f: Frame, h: nat)
    requires Of(f) == h && (h in s.buffers <==> h in t.buffers) && (h in s.buffers ==> s.buffers[h] == t.buffers[h])
    ensures var s', t' := Step(s, f), Step(t, f);
            && (h in s'.buffers <==> h in t'.buffers) && (h in s'.buffers ==> s'.buffers[h] == t'.buffers[h])
            && |s'.out| - |s.out| == |t'.out| - |t.out|
            && (|s'.out| == |s.out| + 1 ==> s'.out[|s.out|] == t'.out[|t.out|])
  {
  }

  lemma StepAlike(s: State, t: State, f: Frame, h: nat)
    requires Alike(s, t, h)
    ensures Of(f) == h ==> Alike(Step(s, f), Step(t, f), h)
    ensures Of(f) != h ==> Alike(Step(s, f), t, h)
  {
    hide Step, PacketsOf, Of;
    StepLocal(s, f);
    StepLocal(t, f);
    if |Step(s, f).out| > |s.out| { PacketsSnoc(s.out, Step(s, f).out[|s.out|], h); }
    if Of(f) == h {
      StepSame(s, t, f, h);
      if |Step(t, f).out| > |t.out| { PacketsSnoc(t.out, Step(t, f).out[|t.out|], h); }
    }
  }

  /** What a connection gets depends on its own fragments alone. */
  lemma {:induction false} Independent(s: State, fs: seq<Frame>, h: nat)
    ensures Alike(Run(s, fs), Run(s, FramesOf(fs, h)), h)
  {
    if fs != [] {
      var front, f := fs[..|fs| - 1], fs[|fs| - 1];
      Independent(s, front, h);
      StepAlike(Run(s, front), Run(s, FramesOf(front, h)), f, h);
      if Of(f) == h { RunSnoc(s, FramesOf(front, h), f); }
      else { assert FramesOf(front, h) + [] == FramesOf(front, h); }
    }
  }

  // ---------- Well-formed fragments ----------

  // The fragments of a packet, cut into at least one piece.
  function Fragments(p: Packet, pieces: seq<Bytes>): seq<Frame>
    requires pieces != []
  {
    if |pieces| == 1 then [Start(p.handle, |p.data|, p.cid, pieces[0])]
    else Fragments(p, pieces[..|pieces| - 1]) + [Cont(p.handle, pieces[|pieces| - 1])]
  }

  // With the bytes `data` of the packet there, and those only.
  function Waiting(s: State, p: Packet, data: Bytes): State {
    if data == p.data then s.(out := s.out + [p])
    else s.(buffers := s.buffers[p.handle := Partial(|p.data|, p.cid, data)])
  }

  lemma StartStep(s: State, p: Packet, data: Bytes)
    requires data <= p.data
    ensures Step(s, Start(p.handle, |p.data|, p.cid, data)) == Waiting(s, p, data)
  {
    assert |data| == |p.data| ==> data == p.data;
  }

  lemma ContStep(s: State, p: Packet, data: Bytes, piece: Bytes)
    requires data + piece <= p.data && p.handle !in s.buffers
    ensures Step(Waiting(s, p, data), Cont(p.handle, piece)) == Waiting(s, p, data + piece)
  {
    assert |data + piece| == |p.data| ==> data + piece == p.data;
    if data == p.data {
      assert piece == [] && data + piece == data;
    } else {
      var b := s.buffers[p.handle := Partial(|p.data|, p.cid, data)];
      assert b - {p.handle} == s.buffers;
    }
  }

  // The first pieces of a packet: it is out as soon as all its bytes are there.
  lemma {:induction false} PiecesRun(s: State, p: Packet, pieces: seq<Bytes>)
    requires pieces != [] && Join(pieces) <= p.data && p.handle !in s.buffers
    ensures Run(s, Fragments(p, pieces)) == Waiting(s, p, Join(pieces))
  {
    hide Step, Waiting;
    if |pieces| == 1 {
      assert pieces[..0] == [] && Join([]) + pieces[0] == pieces[0];
      assert [] + Fragments(p, pieces) == Fragments(p, pieces);
      RunSnoc(s, [], Fragments(p, pieces)[0]);
      StartStep(s, p, pieces[0]);
    } else {
      var front, piece := pieces[..|pieces| - 1], pieces[|pieces| - 1];
      assert Join(front) <= Join(front) + piece == Join(pieces) <= p.data;
      PiecesRun(s, p, front);
      RunSnoc(s, Fragments(p, front), Cont(p.handle, piece));
      ContStep(s, p, Join(front), piece);
    }
  }

  datatype Cut = Cut(packet: Packet, pieces: seq<Bytes>)

  predicate WellCut(cuts: seq<Cut>) {
    forall i :: 0 <= i < |cuts| ==> cuts[i].pieces != [] && Join(cuts[i].pieces) == cuts[i].packet.data
  }

  function Sent(cuts: seq<Cut>): seq<Frame>
    requires WellCut(cuts)
  {
    if cuts == [] then []
    else Sent(cuts[..|cuts| - 1]) + Fragments(cuts[|cuts| - 1].packet, cuts[|cuts| - 1].pieces)
  }

  function Packets(cuts: seq<Cut>): seq<Packet> {
    if cuts == [] then [] else Packets(cuts[..|cuts| - 1]) + [cuts[|cuts| - 1].packet]
  }

  lemma {:induction false} SentRun(cuts: seq<Cut>)
    requires WellCut(cuts)
    ensures Run(NOTHING, Sent(cuts)) == State(map[], Packets(cuts))
  {
    hide Run, Fragments, Join;
    if cuts == [] {
      Idle();
    } else {
      var front, c := cuts[..|cuts| - 1], cuts[|cuts| - 1];
      assert c.pieces != [] && Join(c.pieces) == c.packet.data;
      SentRun(front);
      RunAppend(NOTHING, Sent(front), Fragments(c.packet, c.pieces));
      PiecesRun(State(map[], Packets(front)), c.packet, c.pieces);
    }
  }

  lemma Idle()
    ensures Run(NOTHING, []) == NOTHING
  {
  }

  lemma {:induction false} AllOf(cuts: seq<Cut>, h: nat)
    requires forall i :: 0 <= i < |cuts| ==> cuts[i].packet.handle == h
    ensures PacketsOf(Packets(cuts), h) == Packets(cuts)
  {
    if cuts != [] {
      AllOf(cuts[..|cuts| - 1], h);
      PacketsSnoc(Packets(cuts[..|cuts| - 1]), cuts[|cuts| - 1].packet, h);
    }
  }

  /**
   However the fragments of several connections are interleaved: if those of a connection are the fragments
   of its packets, in order, then it gets exactly these packets, in order, and nothing is left over.
   */
  lemma {:induction false} Reassembled(fs: seq<Frame>, h: nat, cuts: seq<Cut>)
    requires WellCut(cuts) && forall i :: 0 <= i < |cuts| ==> cuts[i].packet.handle == h
    requires FramesOf(fs, h) == Sent(cuts)
    ensures PacketsOf(Run(NOTHING, fs).out, h) == Packets(cuts) && h !in Run(NOTHING, fs).buffers
  {
    Independent(NOTHING, fs, h);
    SentRun(cuts);
    AllOf(cuts, h);
  }

  // ---------- Through the socket ----------

  /** The bytes of encoded frames, one socket event each, are reassembled as the frames are. */
  method Receive(fs: seq<Frame>) returns (hci: Hci)
    requires forall f :: f in fs ==> Sendable(f)
    ensures hci.Now() == Run(NOTHING, fs)
  {
    hide Decode, Encode, Step, Sendable;
    hci := new Hci();
    for i := 0 to |fs|
      invariant hci.Now() == Run(NOTHING, fs[..i]) && fresh(hci)
    {
      FrameRoundTrip(fs[i]);
      assert fs[..i + 1] == fs[..i] + [fs[i]];
      RunSnoc(NOTHING, fs[..i], fs[i]);
      var thrown := hci.OnSocketData(Encode(fs[i]));
    }
    assert fs[..|fs|] == fs;
  }
}
