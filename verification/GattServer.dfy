/**
 The request handlers of ble_hci_socket_gatt.js: MTU exchange, discovery by group, reads and long reads,
 and queued writes (Bluetooth Core Specification 4.2, Vol 3 Part F, section 3.4).
 */
module GattServer {
  import opened Octets
  import opened GattTable

  const ATT_OP_ERROR: Byte := 0x01
  const ATT_OP_MTU_RESP: Byte := 0x03
  const ATT_OP_READ_REQ: Byte := 0x0a
  const ATT_OP_READ_RESP: Byte := 0x0b
  const ATT_OP_READ_BLOB_REQ: Byte := 0x0c
  const ATT_OP_READ_BLOB_RESP: Byte := 0x0d
  const ATT_OP_READ_BY_GROUP_REQ: Byte := 0x10
  const ATT_OP_READ_BY_GROUP_RESP: Byte := 0x11
  const ATT_OP_PREP_WRITE_REQ: Byte := 0x16
  const ATT_OP_PREP_WRITE_RESP: Byte := 0x17
  const ATT_OP_EXEC_WRITE_REQ: Byte := 0x18
  const ATT_OP_EXEC_WRITE_RESP: Byte := 0x19

  const ATT_ECODE_INVALID_HANDLE: Byte := 0x01
  const ATT_ECODE_READ_NOT_PERM: Byte := 0x02
  const ATT_ECODE_WRITE_NOT_PERM: Byte := 0x03
  const ATT_ECODE_AUTHENTICATION: Byte := 0x05
  const ATT_ECODE_INVALID_OFFSET: Byte := 0x07
  const ATT_ECODE_ATTR_NOT_FOUND: Byte := 0x0a
  const ATT_ECODE_ATTR_NOT_LONG: Byte := 0x0b
  const ATT_ECODE_UNLIKELY: Byte := 0x0e
  const ATT_ECODE_UNSUPP_GRP_TYPE: Byte := 0x10

  const MIN_MTU: nat := 23
  const MAX_MTU: nat := 256

  // What a request comes to: an answer, a handler of the application to be asked, nothing, or an exception.
  datatype Reply = Answer(bytes: Bytes) | AskRead(offset: nat) | AskWrite(data: Bytes, offset: nat) | Silent | Thrown

  function ErrorResponse(opcode: Byte, handle: nat, status: Byte): Bytes
    requires handle < 0x1_0000
  {
    [ATT_OP_ERROR, opcode] + Le16(handle) + [status]
  }

  function Reverse(b: Bytes): (r: Bytes)
    ensures |r| == |b| && forall i :: 0 <= i < |b| ==> r[i] == b[|b| - 1 - i]
  {
    seq(|b|, i requires 0 <= i < |b| => b[|b| - 1 - i])
  }

  lemma ReverseTwice(b: Bytes)
    ensures Reverse(Reverse(b)) == b
  {
  }

  // ---------- Discovery ----------

  // The services whose handles are in the range, up to the first handle that holds nothing.
  function Found(rows: seq<Row>, start: nat, end: nat): seq<Group>
    decreases |rows| + 1 - start
  {
    if start > end || start == 0 || start > |rows| then []
    else
      var row := rows[start - 1];
      (if row.ServiceRow? then [Group(row.start, row.end, row.uuid)] else []) + Found(rows, start + 1, end)
  }

  // How many services from the first on have a UUID of the same length.
  predicate Alike(found: seq<Group>, n: nat) {
    n <= |found| && forall i :: 0 <= i < n ==> |found[i].uuid| == |found[0].uuid|
  }

  function EntryLength(g: Group): nat {
    if |g.uuid| == 2 then 6 else 20
  }

  function Entry(g: Group): (b: Bytes)
    requires g.start < 0x1_0000 && g.end < 0x1_0000
    ensures |b| == EntryLength(g)
  {
    Le16(g.start) + Le16(g.end) + Reverse(g.uuid)
  }

  predicate Fit16(gs: seq<Group>) {
    forall i :: 0 <= i < |gs| ==> gs[i].start < 0x1_0000 && gs[i].end < 0x1_0000
  }

  function Entries(gs: seq<Group>): Bytes
    requires Fit16(gs)
  {
    if gs == [] then [] else Entries(gs[..|gs| - 1]) + Entry(gs[|gs| - 1])
  }

  lemma EntriesSnoc(gs: seq<Group>, n: nat)
    requires Fit16(gs) && n < |gs|
    ensures Entries(gs[..n + 1]) == Entries(gs[..n]) + Entry(gs[n])
  {
    assert gs[..n + 1][..n] == gs[..n];
  }

  lemma Regroup(a: seq<Group>, b: seq<Group>, c: seq<Group>)
    ensures a + (b + c) == a + b + c
  {
  }

  // A correct answer lists the first services found, at least one, within the MTU.
  predicate Lists(answer: Bytes, found: seq<Group>, n: nat, mtu: nat) {
    && 1 <= n <= |found| && Alike(found, n) && Fit16(found)
    && answer == [ATT_OP_READ_BY_GROUP_RESP, EntryLength(found[0])] + Entries(found[..n])
    && |answer| <= mtu
  }

  // writeUInt16LE
  method Write16(buf: array<Byte>, v: nat, i: nat)
    requires v < 0x1_0000 && i + 2 <= buf.Length
    modifies buf
    ensures buf[..] == old(buf[..i]) + Le16(v) + old(buf[i + 2..])
  {
    buf[i] := v % 256;
    buf[i + 1] := v / 256;
  }

  // Bytes written one by one.
  method WriteBytes(buf: array<Byte>, data: Bytes, at: nat)
    requires at + |data| <= buf.Length
    modifies buf
    ensures buf[..at + |data|] == old(buf[..at]) + data
  {
    for j := 0 to |data|
      invariant buf[..at + j] == old(buf[..at]) + data[..j]
    {
      buf[at + j] := data[j];
      assert buf[..at + (j + 1)] == buf[..at + j] + [data[j]];
      assert data[..j + 1] == data[..j] + [data[j]];
    }
    assert data[..|data|] == data;
  }

  // The entry of a service, written byte by byte.
  method WriteEntry(buf: array<Byte>, g: Group, at: nat)
    requires g.start < 0x1_0000 && g.end < 0x1_0000 && at + EntryLength(g) <= buf.Length
    modifies buf
    ensures buf[..at + EntryLength(g)] == old(buf[..at]) + Entry(g)
  {
    hide Reverse, Le16;
    Write16(buf, g.start, at);
    assert buf[..at + 2] == old(buf[..at]) + Le16(g.start);
    Write16(buf, g.end, at + 2);
    ghost var so := old(buf[..at]) + Le16(g.start) + Le16(g.end);
    assert buf[..at + 4] == so;
    var uuid := Reverse(g.uuid);
    WriteBytes(buf, uuid, at + 4);
    assert so + uuid == old(buf[..at]) + Entry(g);
  }

  // ---------- Reads ----------

  // What a read of a handle comes to, before it is cut to an answer.
  datatype Access = Granted(value: Bytes) | Denied(code: Byte) | Delegated

  function Guarded(properties: bv8, secure: bv8, value: Maybe, encrypted: bool): Access {
    if !Has(properties, Read) then Denied(ATT_ECODE_READ_NOT_PERM)
    else if Has(secure, Read) && !encrypted then Denied(ATT_ECODE_AUTHENTICATION)
    else match value case Just(bytes) => Granted(bytes) case Nothing => Delegated
  }

  // A value is guarded by the row of its characteristic, just before it.
  function AccessTo(rows: seq<Row>, h: nat, encrypted: bool): Access
    requires 1 <= h <= |rows| && |rows| < 0x1_0000 && ValuesFollow(rows, 1)
  {
    match rows[h - 1]
    case ServiceRow(uuid, _, _) => Granted(Reverse(uuid))
    case CharacteristicRow(uuid, properties, _, _, valueHandle) => Granted([properties as Byte] + Le16(valueHandle) + Reverse(uuid))
    case ValueRow(_, value) => Guarded(rows[h - 2].properties, rows[h - 2].secure, value, encrypted)
    case DescriptorRow(_, properties, secure, _, value) => Guarded(properties, secure, value, encrypted)
  }

  function Cut(data: Bytes, n: nat): Bytes {
    if |data| <= n then data else data[..n]
  }

  // ---------- Queued writes ----------

  // The write being prepared: the handle of the characteristic and that of its value.
  datatype Prepared = Unprepared | Prepared(handle: nat, valueHandle: nat, offset: nat, data: Bytes)

  // A prepared piece.
  datatype Piece = Piece(offset: nat, data: Bytes)

  function Joined(queue: seq<Piece>): Bytes {
    if queue == [] then [] else Joined(queue[..|queue| - 1]) + queue[|queue| - 1].data
  }

  // Each piece starts where the one before it ends.
  predicate Contiguous(queue: seq<Piece>) {
    forall i :: 0 < i < |queue| ==> queue[i].offset == queue[i - 1].offset + |queue[i - 1].data|
  }

  lemma {:induction false} JoinedLength(queue: seq<Piece>)
    requires queue != [] && Contiguous(queue)
    ensures var last := queue[|queue| - 1]; queue[0].offset + |Joined(queue)| == last.offset + |last.data|
  {
    if |queue| > 1 { JoinedLength(queue[..|queue| - 1]); }
  }

  class Gatt {
    var handles: map<nat, Row>
    var mtu: nat
    var prepared: Prepared
    ghost var rows: seq<Row>
    ghost var queue: seq<Piece>   // the pieces accepted since the last execute

    ghost predicate Ready()
      reads this
    {
      Holds(handles, rows) && ValuesFollow(rows, 1) && |rows| < 0x1_0000 && MIN_MTU <= mtu <= MAX_MTU
      && forall i :: 0 <= i < |rows| && rows[i].ServiceRow? ==> rows[i].start < 0x1_0000 && rows[i].end < 0x1_0000
    }

    // What is prepared is the concatenation of the pieces accepted since the last execute, at the first one's offset.
    ghost predicate Queued()
      reads this
    {
      match prepared
      case Unprepared => queue == []
      case Prepared(_, _, offset, data) =>
        queue != [] && Contiguous(queue) && offset == queue[0].offset && data == Joined(queue)
    }

    constructor (deviceName: Bytes)
      requires |Rows(BaseServices(deviceName))| < 0x1_0000
      ensures Ready() && Queued() && mtu == MIN_MTU && rows == Rows(BaseServices(deviceName)) && queue == []
    {
      mtu, prepared, queue := MIN_MTU, Unprepared, [];
      handles, rows := map[], [];
      new;
      assert BaseServices(deviceName) + [] == BaseServices(deviceName);
      SetServices(deviceName, []);
    }

    // setServices, for no more services than there are handles
    method SetServices(deviceName: Bytes, services: seq<Service>)
      requires |Rows(BaseServices(deviceName) + services)| < 0x1_0000 && MIN_MTU <= mtu <= MAX_MTU
      modifies this`handles, this`rows
      ensures Ready() && rows == Rows(BaseServices(deviceName) + services)
    {
      hide Rows, BaseServices;
      ghost var all := BaseServices(deviceName) + services;
      var table := new Table();
      table.SetServices(deviceName, services);
      handles, rows := table.handles, Rows(all);
      ValuesPlaced(all);
      RangesPartition(all);
      GroupsFit(Groups(all), Rows(all));
    }

    // handleMtuRequest
    method HandleMtu(request: Bytes) returns (reply: Reply)
      modifies this`mtu
      ensures |request| < 3 ==> reply == Thrown && mtu == old(mtu)
      ensures |request| >= 3 ==>
                && MIN_MTU <= mtu <= MAX_MTU && reply == Answer([0x03, mtu % 256, mtu / 256])
                && var asked := U16At(request, 1);
                   if asked < 23 then mtu == 23 else if asked > 256 then mtu == 256 else mtu == asked
    {
      if |request| < 3 { return Thrown; }
      var asked := U16At(request, 1);
      if asked < MIN_MTU {
        asked := MIN_MTU;
      } else if asked > MAX_MTU {
        asked := MAX_MTU;
      }
      mtu := asked;
      return Answer([ATT_OP_MTU_RESP] + Le16(mtu));
    }

    // The services in a range of handles.
    method CollectServices(start: nat, end: nat) returns (services: seq<Group>)
      requires Ready()
      ensures services == Found(rows, start, end) && Fit16(services)
    {
      hide Holds;
      services := [];
      var i := start;
      while i <= end
        invariant start <= i && services + Found(rows, i, end) == Found(rows, start, end) && Fit16(services)
        decreases end + 1 - i
      {
        HeldExactly(i);
        if i !in handles { break; }
        var handle := handles[i];
        if handle.ServiceRow? {
          ghost var g := Group(handle.start, handle.end, handle.uuid);
          Regroup(services, [g], Found(rows, i + 1, end));
          services := services + [Group(handle.start, handle.end, handle.uuid)];
        } else {
          assert [] + Found(rows, i + 1, end) == Found(rows, i + 1, end);
        }
        i := i + 1;
      }
      assert services + [] == services;
    }

    lemma HeldExactly(i: nat)
      requires Ready()
      ensures i in handles <==> 1 <= i <= |rows|
      ensures i in handles ==> handles[i] == rows[i - 1]
    {
    }

    // How many services the answer lists: those with a UUID of one length, as far as there is room.
    method CountServices(services: seq<Group>) returns (numServices: nat)
      requires MIN_MTU <= mtu && services != []
      ensures 1 <= numServices <= |services| && Alike(services, numServices)
      ensures 2 + numServices * EntryLength(services[0]) <= mtu
    {
      numServices := 1;
      while numServices < |services| && |services[0].uuid| == |services[numServices].uuid|
        invariant 1 <= numServices <= |services| && Alike(services, numServices)
      {
        numServices := numServices + 1;
      }
      var lengthPerService := EntryLength(services[0]);
      var maxServices := (mtu - 2) / lengthPerService;
      assert maxServices >= 1 && maxServices * lengthPerService <= mtu - 2;
      if maxServices < numServices { numServices := maxServices; }
      assert numServices * lengthPerService <= maxServices * lengthPerService;
    }

    // The answer to a nonempty list of services.
    method ListServices(services: seq<Group>) returns (answer: Bytes, n: nat)
      requires MIN_MTU <= mtu && services != [] && Fit16(services)
      ensures Lists(answer, services, n, mtu)
    {
      hide Entry;
      var numServices := CountServices(services);
      n := numServices;
      var lengthPerService := EntryLength(services[0]);
      var response := new Byte[2 + numServices * lengthPerService];
      response[0] := ATT_OP_READ_BY_GROUP_RESP;
      response[1] := lengthPerService;
      ghost var head: Bytes, gs := [ATT_OP_READ_BY_GROUP_RESP, lengthPerService], services[..numServices];
      assert response[..2] == head + Entries(gs[..0]);
      for i := 0 to numServices
        invariant 2 + i * lengthPerService <= response.Length
        invariant response[..2 + i * lengthPerService] == head + Entries(gs[..i])
      {
        Room(i, numServices, lengthPerService);
        EntriesSnoc(gs, i);
        WriteEntry(response, services[i], 2 + i * lengthPerService);
        assert head + Entries(gs[..i]) + Entry(gs[i]) == head + Entries(gs[..i + 1]);
      }
      assert gs[..numServices] == gs;
      answer := response[..];
    }

    lemma Room(i: nat, n: nat, len: nat)
      requires i < n
      ensures i * len + len == (i + 1) * len <= n * len
    {
    }

    // handleReadByGroupRequest
    method HandleReadByGroup(request: Bytes) returns (reply: Reply, ghost n: nat)
      requires Ready()
      ensures |request| < 5 ==> reply == Thrown
      ensures |request| >= 5 ==>
                var start, end, uuid := U16At(request, 1), U16At(request, 3), Reverse(request[5..]);
                if uuid == [0x28, 0x00] && Found(rows, start, end) != []
                then reply.Answer? && Lists(reply.bytes, Found(rows, start, end), n, mtu)
                else reply == Answer(ErrorResponse(ATT_OP_READ_BY_GROUP_REQ, start,
                       if uuid == [0x28, 0x00] || uuid == [0x28, 0x02] then ATT_ECODE_ATTR_NOT_FOUND
                       else ATT_ECODE_UNSUPP_GRP_TYPE))
    {
      n := 0;
      if |request| < 5 { return Thrown, n; }
      var startHandle, endHandle := U16At(request, 1), U16At(request, 3);
      var uuid := Reverse(request[5..]);
      if uuid == [0x28, 0x00] || uuid == [0x28, 0x02] {
        var services := [];
        if uuid == [0x28, 0x00] {
          services := CollectServices(startHandle, endHandle);
        }
        if |services| > 0 {
          var answer;
          answer, n := ListServices(services);
          reply := Answer(answer);
        } else {
          reply := Answer(ErrorResponse(ATT_OP_READ_BY_GROUP_REQ, startHandle, ATT_ECODE_ATTR_NOT_FOUND));
        }
      } else {
        reply := Answer(ErrorResponse(ATT_OP_READ_BY_GROUP_REQ, startHandle, ATT_ECODE_UNSUPP_GRP_TYPE));
      }
    }

    // The answer with as much of the data as there is room for.
    method ReadAnswer(op: Byte, data: Bytes) returns (reply: Reply)
      requires MIN_MTU <= mtu
      ensures reply == Answer([op] + Cut(data, mtu - 1))
    {
      var dataLength := if |data| < mtu - 1 then |data| else mtu - 1;
      var response := new Byte[1 + dataLength];
      response[0] := op;
      for i := 0 to dataLength
        invariant response[..1 + i] == [op] + data[..i]
      {
        response[1 + i] := data[i];
        assert response[..1 + (i + 1)] == response[..1 + i] + [data[i]];
      }
      assert data[..dataLength] == Cut(data, mtu - 1) && response[..] == response[..1 + dataLength];
      reply := Answer(response[..]);
    }

    // What the row of a handle allows.
    method LookUp(valueHandle: nat, encrypted: bool) returns (access: Access)
      requires Ready() && valueHandle in handles
      ensures access == AccessTo(rows, valueHandle, encrypted)
    {
      match handles[valueHandle]
      case ServiceRow(uuid, _, _) => access := Granted(Reverse(uuid));
      case CharacteristicRow(uuid, properties, _, _, h) =>
        access := Granted([properties as Byte] + Le16(h) + Reverse(uuid));
      case ValueRow(_, value) =>
        var row := handles[valueHandle - 1];
        access := Guarded(row.properties, row.secure, value, encrypted);
      case DescriptorRow(_, properties, secure, _, value) => access := Guarded(properties, secure, value, encrypted);
    }

    // handleReadOrReadBlobRequest: an offset beyond the value ends in an exception.
    method HandleRead(request: Bytes, encrypted: bool) returns (reply: Reply)
      requires Ready() && |request| > 0
      ensures var op := request[0];
              if |request| < 3 || (op == ATT_OP_READ_BLOB_REQ && |request| < 5) then reply == Thrown
              else
                var h, offset := U16At(request, 1), if op == ATT_OP_READ_BLOB_REQ then U16At(request, 3) else 0;
                if !(1 <= h <= |rows|) then reply == Answer(ErrorResponse(op, h, ATT_ECODE_INVALID_HANDLE))
                else
                  match AccessTo(rows, h, encrypted)
                  case Denied(code) => reply == Answer(ErrorResponse(op, h, code))
                  case Delegated => reply == AskRead(offset)
                  case Granted(value) =>
                    reply == if offset > |value| then Thrown
                             else Answer([if op == ATT_OP_READ_BLOB_REQ then ATT_OP_READ_BLOB_RESP else ATT_OP_READ_RESP] +
                                         Cut(value[offset..], mtu - 1))
    {
      var requestType := request[0];
      if |request| < 3 { return Thrown; }
      var valueHandle := U16At(request, 1);
      var offset := 0;
      if requestType == ATT_OP_READ_BLOB_REQ {
        if |request| < 5 { return Thrown; }
        offset := U16At(request, 3);
      }
      if valueHandle !in handles {
        return Answer(ErrorResponse(requestType, valueHandle, ATT_ECODE_INVALID_HANDLE));
      }
      var access := LookUp(valueHandle, encrypted);
      match access
      case Denied(code) => reply := Answer(ErrorResponse(requestType, valueHandle, code));
      case Delegated => reply := AskRead(offset);
      case Granted(data) =>
        if offset > |data| { return Thrown; }
        var op := if requestType == ATT_OP_READ_BLOB_REQ then ATT_OP_READ_BLOB_RESP else ATT_OP_READ_RESP;
        reply := ReadAnswer(op, data[offset..]);
    }

    // Why a piece of a queued write to this handle is refused; 0 if it is taken.
    ghost function Refusal(valueHandle: nat, offset: nat, encrypted: bool): Byte
      requires Ready()
      reads this
    {
      if !(1 <= valueHandle <= |rows|) then ATT_ECODE_INVALID_HANDLE
      else if !rows[valueHandle - 1].ValueRow? then ATT_ECODE_ATTR_NOT_LONG
      else
        var row := rows[valueHandle - 2];
        if !Has(row.properties, Write) then ATT_ECODE_WRITE_NOT_PERM
        else if Has(row.secure, Write) && !encrypted then ATT_ECODE_AUTHENTICATION
        else
          match prepared
          case Unprepared => 0
          case Prepared(h, _, first, data) =>
            if h != valueHandle - 1 then ATT_ECODE_UNLIKELY
            else if offset != first + |data| then ATT_ECODE_INVALID_OFFSET
            else 0
    }

    // handlePrepareWriteRequest
    method HandlePrepareWrite(request: Bytes, encrypted: bool) returns (reply: Reply)
      requires Ready() && Queued() && |request| > 0
      modifies this`prepared, this`queue
      ensures Ready() && Queued()
      ensures |request| < 5 ==> reply == Thrown && queue == old(queue) && prepared == old(prepared)
      ensures |request| >= 5 ==>
                var h, offset, data := U16At(request, 1), U16At(request, 3), request[5..];
                var refusal := old(Refusal(h, offset, encrypted));
                if refusal == 0 then
                  && reply == Answer([ATT_OP_PREP_WRITE_RESP] + request[1..]) && queue == old(queue) + [Piece(offset, data)]
                  && prepared.Prepared? && prepared.valueHandle == (if old(prepared).Prepared? then old(prepared).valueHandle else h)
                  && prepared.handle == h - 1
                else
                  && queue == old(queue) && prepared == old(prepared)
                  && reply == Answer(ErrorResponse(request[0], h, refusal))
    {
      var requestType := request[0];
      if |request| < 5 { return Thrown; }
      var valueHandle, offset, data := U16At(request, 1), U16At(request, 3), request[5..];
      if valueHandle !in handles {
        return Answer(ErrorResponse(requestType, valueHandle, ATT_ECODE_INVALID_HANDLE));
      }
      if !handles[valueHandle].ValueRow? {
        return Answer(ErrorResponse(requestType, valueHandle, ATT_ECODE_ATTR_NOT_LONG));
      }
      var row := handles[valueHandle - 1];
      if !Has(row.properties, Write) {
        return Answer(ErrorResponse(requestType, valueHandle, ATT_ECODE_WRITE_NOT_PERM));
      }
      if Has(row.secure, Write) && !encrypted {
        return Answer(ErrorResponse(requestType, valueHandle, ATT_ECODE_AUTHENTICATION));
      }
      if prepared.Prepared? {
        if prepared.handle != valueHandle - 1 {
          return Answer(ErrorResponse(requestType, valueHandle, ATT_ECODE_UNLIKELY));
        }
        if offset != prepared.offset + |prepared.data| {
          return Answer(ErrorResponse(requestType, valueHandle, ATT_ECODE_INVALID_OFFSET));
        }
      }
      Enqueue(valueHandle, offset, data);
      return Answer([ATT_OP_PREP_WRITE_RESP] + request[1..]);
    }

    // A piece goes to the queue: the first one opens it.
    method Enqueue(valueHandle: nat, offset: nat, data: Bytes)
      requires Queued() && valueHandle > 0
      requires prepared.Prepared? ==> prepared.handle == valueHandle - 1 && offset == prepared.offset + |prepared.data|
      modifies this`prepared, this`queue
      ensures Queued() && queue == old(queue) + [Piece(offset, data)]
      ensures prepared.Prepared? && prepared.handle == valueHandle - 1
      ensures prepared.valueHandle == if old(prepared).Prepared? then old(prepared).valueHandle else valueHandle
    {
      ghost var piece := Piece(offset, data);
      assert (queue + [piece])[..|queue|] == queue;
      if prepared.Prepared? {
        JoinedLength(queue);
        prepared := prepared.(data := prepared.data + data);
      } else {
        assert queue + [piece] == [piece] && Joined([]) + data == data;
        prepared := Prepared(valueHandle - 1, valueHandle, offset, data);
      }
      queue := queue + [piece];
    }

    /** handleExecuteWriteRequest: the handler gets exactly what was queued, joined, at the offset of the first piece. */
    method HandleExecuteWrite(request: Bytes) returns (reply: Reply)
      requires Ready() && Queued() && |request| > 0
      modifies this`prepared, this`queue
      ensures Ready() && Queued()
      ensures |request| < 2 ==> reply == Thrown && queue == old(queue) && prepared == old(prepared)
      ensures |request| >= 2 ==> queue == [] && prepared == Unprepared
      ensures |request| >= 2 ==>
                reply == if old(queue) == [] then Answer(ErrorResponse(request[0], 0, ATT_ECODE_UNLIKELY))
                         else if request[1] == 0 then Answer([ATT_OP_EXEC_WRITE_RESP])
                         else if request[1] == 1 then AskWrite(Joined(old(queue)), old(queue)[0].offset)
                         else Answer(ErrorResponse(request[0], 0, ATT_ECODE_UNLIKELY))
    {
      var requestType := request[0];
      if |request| < 2 { return Thrown; }
      var flag := request[1];
      match prepared
      case Unprepared => return Answer(ErrorResponse(requestType, 0, ATT_ECODE_UNLIKELY));
      case Prepared(_, _, offset, data) =>
        if flag == 0 {
          reply := Answer([ATT_OP_EXEC_WRITE_RESP]);
        } else if flag == 1 {
          reply := AskWrite(data, offset);
        } else {
          reply := Answer(ErrorResponse(requestType, 0, ATT_ECODE_UNLIKELY));
        }
        prepared := Unprepared;
        queue := [];
    }
  }

  lemma GroupsFit(gs: seq<Group>, rows: seq<Row>)
    requires Partitions(gs, rows) && |rows| < 0x1_0000
    ensures forall i :: 0 <= i < |rows| && rows[i].ServiceRow? ==> rows[i].start < 0x1_0000 && rows[i].end < 0x1_0000
  {
    forall i | 0 <= i < |rows| && rows[i].ServiceRow? ensures rows[i].start < 0x1_0000 && rows[i].end < 0x1_0000 {
      var j := GroupOf(gs, rows, i + 1, |gs|);
    }
  }

  // The group a handle is in.
  lemma {:induction false} GroupOf(gs: seq<Group>, rows: seq<Row>, k: nat, n: nat) returns (j: nat)
    requires Partitions(gs, rows) && 1 <= k <= |rows| && 0 < n <= |gs| && k <= gs[n - 1].end
    ensures j < |gs| && gs[j].start <= k <= gs[j].end
  {
    assert n > 1 ==> gs[n - 2 + 1].start == gs[n - 2].end + 1;
    if k >= gs[n - 1].start { j := n - 1; } else { j := GroupOf(gs, rows, k, n - 1); }
  }
}
