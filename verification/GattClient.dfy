/** What a client makes of the attribute server in a whole procedure, not in one request. */
module GattClient {
  import opened Octets
  import opened GattTable
  import opened GattServer

  // ---------- Discover all primary services (Vol 3 Part G, section 4.4.1) ----------

  lemma FoundStep(rows: seq<Row>, k: nat)
    requires 1 <= k <= |rows| < 0x1_0000
    ensures Found(rows, k, 0xffff) ==
            (if rows[k - 1].ServiceRow? then [Group(rows[k - 1].start, rows[k - 1].end, rows[k - 1].uuid)] else []) +
            Found(rows, k + 1, 0xffff)
  {
  }

  // The rows inside a service hold no other.
  lemma {:induction false} FoundInside(gs: seq<Group>, rows: seq<Row>, i: nat, k: nat)
    requires Partitions(gs, rows) && |rows| < 0x1_0000 && i < |gs| && gs[i].start < k <= gs[i].end + 1
    ensures Found(rows, k, 0xffff) == Found(rows, gs[i].end + 1, 0xffff)
    decreases gs[i].end + 1 - k
  {
    hide Found;
    if k <= gs[i].end {
      assert !rows[k - 1].ServiceRow?;
      FoundStep(rows, k);
      FoundInside(gs, rows, i, k + 1);
    }
  }

  lemma NoneFound(rows: seq<Row>)
    ensures Found(rows, |rows| + 1, 0xffff) == []
  {
  }

  // From the start of the `i`-th service on, and from the end of the one before it on.
  lemma {:induction false} FoundFrom(gs: seq<Group>, rows: seq<Row>, i: nat)
    requires Partitions(gs, rows) && |rows| < 0x1_0000 && i < |gs|
    ensures Found(rows, gs[i].start, 0xffff) == gs[i..]
    ensures Found(rows, gs[i].end + 1, 0xffff) == gs[i + 1..]
    decreases |gs| - i
  {
    hide Found;
    if i + 1 < |gs| {
      assert gs[i + 1].start == gs[i].end + 1;
      FoundFrom(gs, rows, i + 1);
    } else {
      assert gs[i + 1..] == [];
      NoneFound(rows);
    }
    FoundStep(rows, gs[i].start);
    FoundInside(gs, rows, i, gs[i].start + 1);
    assert gs[i..] == [gs[i]] + gs[i + 1..];
  }

  // The first `n` entries of an answer, read back.
  function ReadEntry(b: Bytes): Group
    requires |b| == 6 || |b| == 20
  {
    Group(U16At(b, 0), U16At(b, 2), Reverse(b[4..]))
  }

  lemma EntryRoundTrip(g: Group)
    requires g.start < 0x1_0000 && g.end < 0x1_0000
    ensures ReadEntry(Entry(g)) == g
  {
    var b := Entry(g);
    assert b[0..2] == Le16(g.start) && b[2..4] == Le16(g.end) && b[4..] == Reverse(g.uuid);
    assert U16At(b, 0) == U16At(Le16(g.start), 0) && U16At(b, 2) == U16At(Le16(g.end), 0);
    ReverseTwice(g.uuid);
  }

  // The bytes of the `i`-th entry.
  lemma {:induction false} EntryAt(gs: seq<Group>, n: nat, i: nat)
    requires Fit16(gs) && i < n <= |gs| && Alike(gs, n)
    ensures var len := EntryLength(gs[0]);
            0 <= i * len && i * len + len == (i + 1) * len <= n * len == |Entries(gs[..n])| &&
            Entries(gs[..n])[i * len..(i + 1) * len] == Entry(gs[i])
    decreases n
  {
    hide Entry, Entries;
    var len := EntryLength(gs[0]);
    EntriesSnoc(gs, n - 1);
    Lengths(gs, n - 1);
    assert EntryLength(gs[n - 1]) == len && (n - 1) * len + len == n * len;
    if i == n - 1 {
      assert Entries(gs[..n])[i * len..(i + 1) * len] == Entry(gs[i]);
    } else {
      EntryAt(gs, n - 1, i);
      assert Entries(gs[..n])[i * len..(i + 1) * len] == Entries(gs[..n - 1])[i * len..(i + 1) * len];
    }
  }

  lemma {:induction false} Lengths(gs: seq<Group>, n: nat)
    requires Fit16(gs) && n <= |gs| && gs != [] && forall i :: 0 <= i < n ==> |gs[i].uuid| == |gs[0].uuid|
    ensures |Entries(gs[..n])| == n * EntryLength(gs[0])
  {
    if n > 0 {
      Lengths(gs, n - 1);
      EntriesSnoc(gs, n - 1);
    }
  }

  lemma Fewer(a: nat, b: nat, len: nat)
    requires a * len <= b * len && len > 0
    ensures a <= b
  {
  }

  // The services of an answer, as a client reads them.
  method ParseAnswer(answer: Bytes, ghost found: seq<Group>, ghost n: nat, ghost mtu: nat) returns (listed: seq<Group>)
    requires Lists(answer, found, n, mtu)
    ensures listed == found[..n]
  {
    hide Entry;
    var len := answer[1];
    var body := answer[2..];
    assert body == Entries(found[..n]);
    Lengths(found, n);
    listed := [];
    var i := 0;
    while (i + 1) * len <= |body|
      invariant i <= n && listed == found[..i]
      decreases n - i
    {
      Fewer(i + 1, n, len);
      EntryAt(found, n, i);
      EntryRoundTrip(found[i]);
      listed := listed + [ReadEntry(body[i * len..(i + 1) * len])];
      assert found[..i + 1] == found[..i] + [found[i]];
      i := i + 1;
    }
    if i < n { EntryAt(found, n, i); }
  }

  predicate Discovered(found: seq<Group>, gs: seq<Group>, start: nat) {
    found <= gs && start == if found == [] then 1 else found[|found| - 1].end + 1
  }

  // What the next request finds is what has not been found.
  lemma NextFound(gs: seq<Group>, rows: seq<Row>, found: seq<Group>, start: nat)
    requires Partitions(gs, rows) && |rows| < 0x1_0000 && gs != [] && Discovered(found, gs, start)
    ensures Found(rows, start, 0xffff) == gs[|found|..]
    ensures start <= |rows| + 1
  {
    if found == [] {
      FoundFrom(gs, rows, 0);
      assert gs[0..] == gs;
    } else {
      var i := |found| - 1;
      assert found[i] == gs[i];
      FoundFrom(gs, rows, i);
    }
  }

  /**
   A client that asks again from the last end handle plus one, until it gets an error, finds every service of
   any table exactly once, in order, at any MTU the server can have; each answer fits into the MTU.
   */
  method Discover(server: Gatt, ghost gs: seq<Group>) returns (found: seq<Group>)
    requires server.Ready() && Partitions(gs, server.rows) && gs != []
    ensures found == gs
  {
    hide Found, Lists, Partitions;
    found := [];
    var start := 1;
    while start <= 0xffff
      invariant 1 <= start && Discovered(found, gs, start)
      decreases |gs| - |found|
    {
      NextFound(gs, server.rows, found, start);
      ghost var rest := gs[|found|..];
      var request: Bytes := [ATT_OP_READ_BY_GROUP_REQ] + Le16(start) + Le16(0xffff) + [0x00, 0x28];
      RequestParts(start);
      var reply, n := server.HandleReadByGroup(request);
      if rest == [] {
        assert reply.bytes[0] == ATT_OP_ERROR;
      } else {
        ListsSome(reply.bytes, rest, n, server.mtu);
      }
      if reply.bytes[0] == ATT_OP_ERROR { break; }
      var listed := ParseAnswer(reply.bytes, rest, n, server.mtu);
      found := found + listed;
      assert found == gs[..|found|];
      start := listed[|listed| - 1].end + 1;
    }
    if start > 0xffff {
      NextFound(gs, server.rows, found, start);
      FoundNothing(server.rows, start);
    }
    assert gs[|found|..] == [] && gs[..|found|] == found;
  }

  lemma FoundNothing(rows: seq<Row>, start: nat)
    requires start > 0xffff
    ensures Found(rows, start, 0xffff) == []
  {
  }

  lemma RequestParts(start: nat)
    requires start < 0x1_0000
    ensures var request: Bytes := [ATT_OP_READ_BY_GROUP_REQ] + Le16(start) + Le16(0xffff) + [0x00, 0x28];
            U16At(request, 1) == start && U16At(request, 3) == 0xffff && Reverse(request[5..]) == [0x28, 0x00]
  {
    var request: Bytes := [ATT_OP_READ_BY_GROUP_REQ] + Le16(start) + Le16(0xffff) + [0x00, 0x28];
    assert request[1..3] == Le16(start) && request[3..5] == Le16(0xffff) && request[5..] == [0x00, 0x28];
  }

  lemma ListsSome(answer: Bytes, found: seq<Group>, n: nat, mtu: nat)
    requires Lists(answer, found, n, mtu)
    ensures answer != [] && answer[0] == ATT_OP_READ_BY_GROUP_RESP && 1 <= n <= |found| && |answer| <= mtu
  {
  }

  /** From any services to what a client finds, at whatever MTU it asked for. */
  method ServeAndDiscover(deviceName: Bytes, services: seq<Service>, mtu: nat) returns (found: seq<Group>)
    requires |Rows(BaseServices(deviceName) + services)| < 0x1_0000 && |Rows(BaseServices(deviceName))| < 0x1_0000
    requires mtu < 0x1_0000
    ensures found == Groups(BaseServices(deviceName) + services)
    ensures Partitions(found, Rows(BaseServices(deviceName) + services)) && |found| == |services| + 2
    ensures forall i :: 0 <= i < |services| ==> found[i + 2].uuid == services[i].uuid
  {
    hide Rows, Partitions;
    var server := new Gatt(deviceName);
    server.SetServices(deviceName, services);
    ghost var all := BaseServices(deviceName) + services;
    assert ([0x02] + Le16(mtu))[1..] == Le16(mtu);
    var reply := server.HandleMtu([0x02] + Le16(mtu));
    RangesPartition(all);
    found := Discover(server, Groups(all));
  }

  // ---------- Read long values (section 4.8.3) ----------

  lemma ReadParts(op: Byte, h: nat, offset: nat)
    requires h < 0x1_0000 && offset < 0x1_0000
    ensures var request: Bytes := [op] + Le16(h) + Le16(offset); U16At(request, 1) == h && U16At(request, 3) == offset
  {
    var request: Bytes := [op] + Le16(h) + Le16(offset);
    assert request[1..3] == Le16(h) && request[3..5] == Le16(offset);
  }

  // What is left of `n` bytes after as many full answers as there are.
  function Short(n: nat, room: nat): (left: nat)
    requires 0 < room
    ensures left <= n && left < room
  {
    if n < room then n else Short(n - room, room)
  }

  // An answer from `from` on, and what is left after it.
  lemma FirstPart(value: Bytes, from: nat, room: nat)
    requires from <= |value| && 0 < room
    ensures var part := Cut(value[from..], room);
            && |part| <= room && value[..from] + part == value[..from + |part|]
            && (|part| < room ==> value[..from] + part == value)
            && (|part| == room ==> Short(|value| - from - room, room) == Short(|value| - from, room))
  {
  }

  // One request, and the bytes of its answer: a Read from the start, a Read Blob from an offset.
  method ReadPart(server: Gatt, h: nat, encrypted: bool, op: Byte, offset: nat, ghost value: Bytes)
    returns (data: Bytes)
    requires server.Ready() && 1 <= h <= |server.rows| && AccessTo(server.rows, h, encrypted) == Granted(value)
    requires (op == ATT_OP_READ_REQ && offset == 0) || op == ATT_OP_READ_BLOB_REQ
    requires offset <= |value| && offset < 0x1_0000
    ensures data == Cut(value[offset..], server.mtu - 1)
  {
    hide AccessTo, Cut;
    var request: Bytes := [op] + Le16(h) + Le16(offset);
    ReadParts(op, h, offset);
    var reply := server.HandleRead(request, encrypted);
    data := reply.bytes[1..];
  }

  /**
   Read, and then Read Blob from where the answers so far end, until one is short: that is the whole of any
   value the server has and lets the client read, at any MTU, as far as a 16-bit offset reaches.
   */
  method ReadLong(server: Gatt, h: nat, encrypted: bool, ghost value: Bytes) returns (data: Bytes)
    requires server.Ready() && 1 <= h <= |server.rows| && AccessTo(server.rows, h, encrypted) == Granted(value)
    requires |value| - Short(|value|, server.mtu - 1) < 0x1_0000
    ensures data == value
  {
    hide AccessTo, Short, Cut;
    var room := server.mtu - 1;
    data := ReadPart(server, h, encrypted, ATT_OP_READ_REQ, 0, value);
    FirstPart(value, 0, room);
    var part := |data|;
    while part == room
      invariant data <= value && part <= room && (part < room ==> data == value)
      invariant part == room ==> Short(|value| - |data|, room) == Short(|value|, room)
      decreases |value| - |data|, part
    {
      var more := ReadPart(server, h, encrypted, ATT_OP_READ_BLOB_REQ, |data|, value);
      FirstPart(value, |data|, room);
      part := |more|;
      data := data + more;
    }
  }

  // ---------- Write long values ----------

  /**
   A value written by prepared pieces of any sizes, and then executed: the handler of the characteristic
   gets exactly the value, once, from offset 0.
   */
  method WriteLong(server: Gatt, h: nat, encrypted: bool, pieces: seq<Bytes>) returns (reply: Reply)
    requires server.Ready() && server.Queued() && server.queue == [] && h < 0x1_0000 && pieces != []
    requires server.Refusal(h, 0, encrypted) == 0 && |Join(pieces)| < 0x1_0000
    modifies server
    ensures server.Ready() && server.Queued() && server.queue == []
    ensures reply == AskWrite(Join(pieces), 0)
  {
    hide Join, Joined;
    JoinNothing();
    for i := 0 to |pieces|
      invariant server.Ready() && server.Queued() && server.rows == old(server.rows)
      invariant Joined(server.queue) == Join(pieces[..i]) && (server.queue == [] <==> i == 0)
      invariant i > 0 ==> server.prepared.handle == h - 1 && server.prepared.offset == 0
    {
      JoinPrefix(pieces, i);
      var offset := if server.prepared.Prepared? then |server.prepared.data| else 0;
      var request: Bytes := [ATT_OP_PREP_WRITE_REQ] + Le16(h) + Le16(offset) + pieces[i];
      WriteParts(h, offset, pieces[i]);
      ghost var before := server.queue;
      var taken := server.HandlePrepareWrite(request, encrypted);
      JoinedSnoc(before, Piece(offset, pieces[i]));
      JoinSnoc(pieces[..i], pieces[i]);
      assert pieces[..i + 1] == pieces[..i] + [pieces[i]];
    }
    assert pieces[..|pieces|] == pieces;
    reply := server.HandleExecuteWrite([ATT_OP_EXEC_WRITE_REQ, 0x01]);
  }

  lemma JoinNothing()
    ensures Join([]) == [] && Joined([]) == []
  {
  }

  lemma JoinedSnoc(queue: seq<Piece>, piece: Piece)
    ensures Joined(queue + [piece]) == Joined(queue) + piece.data
  {
    assert (queue + [piece])[..|queue|] == queue;
  }

  lemma {:induction false} JoinPrefix(pieces: seq<Bytes>, i: nat)
    requires i <= |pieces|
    ensures |Join(pieces[..i])| <= |Join(pieces)|
  {
    if i == |pieces| {
      assert pieces[..i] == pieces;
    } else {
      JoinPrefix(pieces[..|pieces| - 1], i);
      assert pieces[..|pieces| - 1][..i] == pieces[..i];
    }
  }

  lemma WriteParts(h: nat, offset: nat, data: Bytes)
    requires h < 0x1_0000 && offset < 0x1_0000
    ensures var request: Bytes := [ATT_OP_PREP_WRITE_REQ] + Le16(h) + Le16(offset) + data;
            U16At(request, 1) == h && U16At(request, 3) == offset && request[5..] == data
  {
    var request: Bytes := [ATT_OP_PREP_WRITE_REQ] + Le16(h) + Le16(offset) + data;
    assert request[1..3] == Le16(h) && request[3..5] == Le16(offset);
  }
}
