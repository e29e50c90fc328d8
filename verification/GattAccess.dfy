/**
 Who may read and write what, in terms of the services that were set: the handles of a characteristic, and
 what a client gets there.
 */
module GattAccess {
  import opened Octets
  import opened GattTable
  import opened GattServer

  // ---------- Where things are ----------

  // The handle of the `i`-th service.
  function ServiceAt(services: seq<Service>, i: nat): nat
    requires i < |services|
  {
    |Rows(services[..i])| + 1
  }

  predicate IsCharacteristic(services: seq<Service>, i: nat, j: nat) {
    i < |services| && j < |services[i].characteristics|
  }

  // The handle of its `j`-th characteristic; the value is right after it.
  function CharacteristicAt(services: seq<Service>, i: nat, j: nat): nat
    requires IsCharacteristic(services, i, j)
  {
    var first := ServiceAt(services, i) + 1;
    first + |BodyRows(services[i].characteristics[..j], first)|
  }

  // The rows `part` are among the rows, at the handles from `at` on.
  predicate StandAt(rows: seq<Row>, part: seq<Row>, at: nat) {
    1 <= at && at - 1 + |part| <= |rows| && forall k :: 0 <= k < |part| ==> rows[at - 1 + k] == part[k]
  }

  lemma StandWithin(rows: seq<Row>, whole: seq<Row>, at: nat, before: seq<Row>, part: seq<Row>, after: seq<Row>)
    requires StandAt(rows, whole, at) && whole == before + part + after
    ensures StandAt(rows, part, at + |before|)
  {
    forall k | 0 <= k < |part| ensures rows[at + |before| - 1 + k] == part[k] {
      assert whole[|before| + k] == part[k];
    }
  }

  lemma {:induction false} ServicePlaced(services: seq<Service>, i: nat)
    requires i < |services|
    ensures StandAt(Rows(services), ServiceRows(services[i], ServiceAt(services, i)), ServiceAt(services, i))
    decreases |services|
  {
    hide ServiceRows;
    var front, last := services[..|services| - 1], services[|services| - 1];
    if i < |front| {
      ServicePlaced(front, i);
      assert front[..i] == services[..i];
    }
  }

  lemma {:induction false} CharacteristicPlaced(cs: seq<Characteristic>, at: nat, j: nat) returns (after: seq<Row>)
    requires j < |cs|
    ensures var front := BodyRows(cs[..j], at);
            BodyRows(cs, at) == front + CharacteristicRows(cs[j], at + |front|) + after
    decreases |cs|
  {
    hide CharacteristicRows;
    var most, last := cs[..|cs| - 1], cs[|cs| - 1];
    after := [];
    if j < |most| {
      assert most[..j] == cs[..j];
      after := CharacteristicPlaced(most, at, j);
      after := after + CharacteristicRows(last, at + |BodyRows(most, at)|);
    }
  }

  /** The rows of any characteristic of any service are where its handle says. */
  lemma Placed(services: seq<Service>, i: nat, j: nat)
    requires IsCharacteristic(services, i, j)
    ensures var at := CharacteristicAt(services, i, j);
            StandAt(Rows(services), CharacteristicRows(services[i].characteristics[j], at), at)
  {
    hide CharacteristicRows, BodyRows, Rows;
    var s, start, at := services[i], ServiceAt(services, i), CharacteristicAt(services, i, j);
    ServicePlaced(services, i);
    var after := CharacteristicPlaced(s.characteristics, start + 1, j);
    var front, rows := BodyRows(s.characteristics[..j], start + 1), CharacteristicRows(s.characteristics[j], at);
    var whole := ServiceRows(s, start);
    assert whole == [whole[0]] + front + rows + after;
    StandWithin(Rows(services), whole, start, [whole[0]] + front, rows, after);
  }

  // ---------- What is read there ----------

  function If(b: bool, n: nat): nat {
    if b then n else 0
  }

  // The property bits as a number.
  function Number(ps: set<Property>): nat {
    If(Read in ps, 2) + If(WriteWithoutResponse in ps, 4) + If(Write in ps, 8) + If(Notify in ps, 16) +
    If(Indicate in ps, 32)
  }

  lemma MaskNumber(ps: set<Property>)
    ensures Mask(ps) as int == Number(ps) < 256
  {
  }

  // The property asks for an encrypted link, and there is none.
  predicate Locked(c: Characteristic, p: Property, encrypted: bool) {
    p in c.properties && p in c.secure && !encrypted
  }

  predicate HasConfig(c: Characteristic) {
    Notify in c.properties || Indicate in c.properties
  }

  lemma ConfigBits(c: Characteristic)
    ensures Subscribable(c) <==> HasConfig(c)
    ensures Secure(c) & 0x10 != 0 <==> Notify in c.properties && Notify in c.secure
    ensures Has(0x0e, Read) && !Has(0, Read) && Has(0x02, Read)
  {
    MaskExact(c, Notify);
    MaskExact(c, Indicate);
    assert Properties(c) & 0x30 != 0 <==> Properties(c) & 0x10 != 0 || Properties(c) & 0x20 != 0;
  }

  // What can be read of a characteristic's value, by its properties.
  function ValueAccess(c: Characteristic, encrypted: bool): Access {
    if Read !in c.properties then Denied(0x02)
    else if Locked(c, Read, encrypted) then Denied(0x05)
    else match c.value case Just(bytes) => Granted(bytes) case Nothing => Delegated
  }

  // A declaration: the properties, the handle of the value, and the UUID in reverse order.
  function Declaration(c: Characteristic, at: nat): Bytes
    requires at + 1 < 0x1_0000
  {
    MaskNumber(c.properties);
    [Number(c.properties), (at + 1) % 256, (at + 1) / 256] + Reverse(c.uuid)
  }

  // The handle of a descriptor given with the characteristic.
  function DescriptorAt(c: Characteristic, at: nat, k: nat): nat {
    at + 2 + If(HasConfig(c), 1) + k
  }

  // What stands at and behind the handle of a characteristic.
  lemma RowsOf(services: seq<Service>, i: nat, j: nat)
    requires IsCharacteristic(services, i, j)
    ensures var rows, at, c := Rows(services), CharacteristicAt(services, i, j), services[i].characteristics[j];
            && 1 <= at < |rows|
            && rows[at - 1] == CharacteristicRow(c.uuid, Properties(c), Secure(c), at, at + 1)
            && rows[at] == ValueRow(at + 1, c.value)
            && (HasConfig(c) ==>
                  at + 2 <= |rows| &&
                  rows[at + 1] == DescriptorRow(CLIENT_CONFIG, 0x0e, if Notify in c.properties * c.secure then 0x0e else 0,
                                                at + 2, Just([0, 0])))
            && (forall k: nat :: k < |c.descriptors| ==>
                  DescriptorAt(c, at, k) <= |rows| &&
                  rows[DescriptorAt(c, at, k) - 1] ==
                  DescriptorRow(c.descriptors[k].uuid, 0x02, 0, DescriptorAt(c, at, k), Just(c.descriptors[k].value)))
  {
    hide Rows, Properties, Secure, BodyRows, Subscribable, HasConfig, CharacteristicAt;
    var rows, at, c := Rows(services), CharacteristicAt(services, i, j), services[i].characteristics[j];
    Placed(services, i, j);
    ConfigBits(c);
    var part, config := CharacteristicRows(c, at), ConfigRows(c, at + 2);
    assert part[0] == CharacteristicRow(c.uuid, Properties(c), Secure(c), at, at + 1) && part[1] == ValueRow(at + 1, c.value);
    if HasConfig(c) { assert part[2] == config[0]; }
    forall k: nat | k < |c.descriptors|
      ensures DescriptorAt(c, at, k) <= |rows| &&
              rows[DescriptorAt(c, at, k) - 1] ==
              DescriptorRow(c.descriptors[k].uuid, 0x02, 0, DescriptorAt(c, at, k), Just(c.descriptors[k].value))
    {
      assert part[2 + |config| + k] == DescriptorRows(c.descriptors, at + 2 + |config|)[k];
    }
  }

  /**
   What a read comes to, at each handle of a characteristic: the declaration to anyone, the value to those the
   characteristic lets read it, the client configuration to anyone unless secured notifications hide it, and the
   other descriptors to anyone.
   */
  lemma ReadExact(services: seq<Service>, i: nat, j: nat, encrypted: bool)
    requires IsCharacteristic(services, i, j) && |Rows(services)| < 0x1_0000
    ensures var rows, at, c := Rows(services), CharacteristicAt(services, i, j), services[i].characteristics[j];
            && ValuesFollow(rows, 1) && 1 <= at < |rows|
            && AccessTo(rows, at, encrypted) == Granted(Declaration(c, at))
            && AccessTo(rows, at + 1, encrypted) == ValueAccess(c, encrypted)
            && (HasConfig(c) ==>
                  at + 2 <= |rows| &&
                  AccessTo(rows, at + 2, encrypted) == if Locked(c, Notify, encrypted) then Denied(0x05) else Granted([0, 0]))
            && (forall k: nat :: k < |c.descriptors| ==>
                  DescriptorAt(c, at, k) <= |rows| &&
                  AccessTo(rows, DescriptorAt(c, at, k), encrypted) == Granted(c.descriptors[k].value))
  {
    hide Rows, CharacteristicAt, ValuesFollow, Mask, Number, Has;
    ValuesPlaced(services);
    RowsOf(services, i, j);
    var c := services[i].characteristics[j];
    MaskExact(c, Read);
    MaskNumber(c.properties);
    ConfigBits(c);
  }

  /** A service declaration is its UUID in reverse order. */
  lemma ServiceRead(services: seq<Service>, i: nat, encrypted: bool)
    requires i < |services| && |Rows(services)| < 0x1_0000
    ensures var rows, at := Rows(services), ServiceAt(services, i);
            && ValuesFollow(rows, 1) && 1 <= at <= |rows|
            && AccessTo(rows, at, encrypted) == Granted(Reverse(services[i].uuid))
  {
    hide BodyRows, ServiceAt, Rows, ValuesFollow;
    ValuesPlaced(services);
    ServicePlaced(services, i);
    var rows := ServiceRows(services[i], ServiceAt(services, i));
    assert rows[0].ServiceRow? && rows[0].uuid == services[i].uuid;
  }

  // ---------- Requests ----------

  // An error answer, byte by byte.
  function Refused(op: Byte, h: nat, code: Byte): Reply
    requires h < 0x1_0000
  {
    Answer([0x01, op, h % 256, h / 256, code])
  }

  lemma ErrorBytes(op: Byte, h: nat, code: Byte)
    requires h < 0x1_0000
    ensures Answer(ErrorResponse(op, h, code)) == Refused(op, h, code)
  {
  }

  /** An error answer tells its code, and is told from other answers by its first byte. */
  lemma RefusedApart(op: Byte, h: nat)
    requires h < 0x1_0000
    ensures forall a: Byte, b: Byte :: Refused(op, h, a) == Refused(op, h, b) ==> a == b
    ensures forall a: Byte :: Refused(op, h, a).Answer? && Refused(op, h, a).bytes[0] == 1
  {
    forall a: Byte, b: Byte | Refused(op, h, a) == Refused(op, h, b) ensures a == b {
      assert Refused(op, h, a).bytes[4] == a && Refused(op, h, b).bytes[4] == b;
    }
  }

  // A Read (0x0a) or Read Blob (0x0c) request.
  function ReadRequest(blob: bool, h: nat, offset: nat): Bytes
    requires h < 0x1_0000 && offset < 0x1_0000
  {
    if blob then [0x0c, h % 256, h / 256, offset % 256, offset / 256] else [0x0a, h % 256, h / 256]
  }

  // The server has the table of these services.
  ghost predicate Serves(server: Gatt, services: seq<Service>)
    reads server
  {
    server.Ready() && server.rows == Rows(services)
  }

  // Any read of a handle, by what may be read there.
  method ReadAt(server: Gatt, h: nat, encrypted: bool, blob: bool, offset: nat) returns (reply: Reply)
    requires server.Ready() && 1 <= h <= |server.rows| && offset < 0x1_0000 && (blob || offset == 0)
    ensures reply ==
            match AccessTo(server.rows, h, encrypted)
            case Denied(code) => Refused(if blob then 0x0c else 0x0a, h, code)
            case Delegated => AskRead(offset)
            case Granted(value) =>
              if offset > |value| then Thrown
              else Answer([if blob then 0x0d else 0x0b] + Cut(value[offset..], server.mtu - 1))
  {
    hide AccessTo, Cut, ErrorResponse;
    var request := ReadRequest(blob, h, offset);
    assert U16At(request, 1) == h && (blob ==> U16At(request, 3) == offset);
    reply := server.HandleRead(request, encrypted);
    match AccessTo(server.rows, h, encrypted)
    case Denied(code) => ErrorBytes(request[0], h, code);
    case _ =>
  }

  /**
   A read of the value of any characteristic of any service: the bytes are answered exactly if it is readable, the
   link is encrypted where that is asked for, and there is a value that reaches to the offset; 0x02 says that it is
   not readable, 0x05 that the link is not encrypted, and nothing else refuses it.
   */
  method ReadValue(server: Gatt, services: seq<Service>, i: nat, j: nat, encrypted: bool, blob: bool, offset: nat)
    returns (reply: Reply)
    requires Serves(server, services) && IsCharacteristic(services, i, j) && offset < 0x1_0000 && (blob || offset == 0)
    requires CharacteristicAt(services, i, j) + 1 < 0x1_0000
    ensures var c, h := services[i].characteristics[j], CharacteristicAt(services, i, j) + 1;
            var op, open := if blob then 0x0c else 0x0a, Read in c.properties && (Read in c.secure ==> encrypted);
            && (reply == Refused(op, h, 0x02) <==> Read !in c.properties)
            && (reply == Refused(op, h, 0x05) <==> Read in c.properties && Read in c.secure && !encrypted)
            && (reply == AskRead(offset) <==> open && c.value == Nothing)
            && (reply == Thrown <==> open && c.value.Just? && offset > |c.value.bytes|)
            && (reply.Answer? && |reply.bytes| > 0 && reply.bytes[0] == op + 1 <==>
                  open && c.value.Just? && offset <= |c.value.bytes|)
            && (open && c.value.Just? && offset <= |c.value.bytes| ==>
                  reply == Answer([op + 1] + Cut(c.value.bytes[offset..], server.mtu - 1)))
  {
    hide AccessTo, Rows, CharacteristicAt, ValuesFollow;
    ReadExact(services, i, j, encrypted);
    hide Refused;
    RefusedApart(if blob then 0x0c else 0x0a, CharacteristicAt(services, i, j) + 1);
    reply := ReadAt(server, CharacteristicAt(services, i, j) + 1, encrypted, blob, offset);
  }

  /** A read of the declaration of any characteristic. */
  method ReadDeclaration(server: Gatt, services: seq<Service>, i: nat, j: nat, encrypted: bool) returns (reply: Reply)
    requires Serves(server, services) && IsCharacteristic(services, i, j) && CharacteristicAt(services, i, j) + 1 < 0x1_0000
    ensures var c, at := services[i].characteristics[j], CharacteristicAt(services, i, j);
            reply == Answer([0x0b] + Cut(Declaration(c, at), server.mtu - 1))
  {
    hide AccessTo, Rows, CharacteristicAt, ValuesFollow, Declaration;
    ReadExact(services, i, j, encrypted);
    reply := ReadAt(server, CharacteristicAt(services, i, j), encrypted, false, 0);
    ghost var data := Declaration(services[i].characteristics[j], CharacteristicAt(services, i, j));
    assert data[0..] == data;
  }

  // ---------- Queued writes ----------

  // A Prepare Write request.
  function PrepareRequest(h: nat, offset: nat, data: Bytes): Bytes
    requires h < 0x1_0000 && offset < 0x1_0000
  {
    [0x16, h % 256, h / 256, offset % 256, offset / 256] + data
  }

  lemma PrepareParts(h: nat, offset: nat, data: Bytes)
    requires h < 0x1_0000 && offset < 0x1_0000
    ensures var request := PrepareRequest(h, offset, data);
            U16At(request, 1) == h && U16At(request, 3) == offset && request[5..] == data
  {
  }

  // The write permission of a characteristic.
  lemma WriteExact(server: Gatt, services: seq<Service>, i: nat, j: nat, offset: nat, encrypted: bool)
    requires Serves(server, services) && IsCharacteristic(services, i, j)
    ensures var c, h := services[i].characteristics[j], CharacteristicAt(services, i, j) + 1;
            && h <= |server.rows|
            && server.Refusal(h, offset, encrypted) ==
               if Write !in c.properties then 0x03
               else if Locked(c, Write, encrypted) then 0x05
               else if server.prepared.Unprepared? then 0
               else if server.prepared.handle != h - 1 then 0x0e
               else if offset != server.prepared.offset + |server.prepared.data| then 0x07
               else 0
  {
    hide Rows, CharacteristicAt, ValuesFollow, Holds, Properties, Secure, Has;
    RowsOf(services, i, j);
    MaskExact(services[i].characteristics[j], Write);
  }

  /**
   A piece of a queued write to the value of any characteristic: it is taken exactly if the characteristic is
   writable, the link is encrypted where that is asked for, and the piece goes on where the pieces so far end.
   */
  method PrepareValue(server: Gatt, services: seq<Service>, i: nat, j: nat, encrypted: bool, offset: nat, data: Bytes)
    returns (reply: Reply)
    requires Serves(server, services) && server.Queued() && IsCharacteristic(services, i, j) && offset < 0x1_0000
    requires CharacteristicAt(services, i, j) + 1 < 0x1_0000
    modifies server
    ensures server.Ready() && server.Queued()
    ensures var c, h := services[i].characteristics[j], CharacteristicAt(services, i, j) + 1;
            var open := Write in c.properties && (Write in c.secure ==> encrypted);
            var before := old(server.prepared);
            var next := before.Prepared? ==> before.handle == h - 1 && offset == before.offset + |before.data|;
            && server.queue == old(server.queue) + (if open && next then [Piece(offset, data)] else [])
            && (reply == Answer([0x17] + PrepareRequest(h, offset, data)[1..]) <==> open && next)
            && (reply == Refused(0x16, h, 0x03) <==> Write !in c.properties)
            && (reply == Refused(0x16, h, 0x05) <==> Write in c.properties && Write in c.secure && !encrypted)
            && (reply == Refused(0x16, h, 0x0e) <==> open && before.Prepared? && before.handle != h - 1)
            && (reply == Refused(0x16, h, 0x07) <==>
                  open && before.Prepared? && before.handle == h - 1 && offset != before.offset + |before.data|)
  {
    hide Rows, CharacteristicAt, ErrorResponse, Refused;
    var h := CharacteristicAt(services, i, j) + 1;
    WriteExact(server, services, i, j, offset, encrypted);
    PrepareParts(h, offset, data);
    ghost var refusal := server.Refusal(h, offset, encrypted);
    ErrorBytes(0x16, h, refusal);
    RefusedApart(0x16, h);
    reply := server.HandlePrepareWrite(PrepareRequest(h, offset, data), encrypted);
  }
}
