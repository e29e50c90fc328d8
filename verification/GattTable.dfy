/** setServices of ble_hci_socket_gatt.js: the attributes of all services in one table of handles. */
module GattTable {
  import opened Octets

  // A UUID in the order it is written: two bytes or sixteen.
  type Uuid = u: Bytes | |u| == 2 || |u| == 16 witness [0, 0]

  datatype Property = Read | WriteWithoutResponse | Write | Notify | Indicate

  datatype Descriptor = Descriptor(uuid: Uuid, value: Bytes)

  // No value: reads are left to a handler.
  datatype Characteristic = Characteristic(uuid: Uuid, properties: set<Property>, secure: set<Property>,
                                           value: Maybe, descriptors: seq<Descriptor>)

  datatype Maybe = Nothing | Just(bytes: Bytes)

  datatype Service = Service(uuid: Uuid, characteristics: seq<Characteristic>)

  // What stands at a handle.
  datatype Row =
    | ServiceRow(uuid: Uuid, start: nat, end: nat)
    | CharacteristicRow(uuid: Uuid, properties: bv8, secure: bv8, start: nat, valueHandle: nat)
    | ValueRow(handle: nat, value: Maybe)
    | DescriptorRow(uuid: Uuid, properties: bv8, secure: bv8, handle: nat, value: Maybe)

  function Bit(p: Property): bv8 {
    match p
    case Read => 0x02 case WriteWithoutResponse => 0x04 case Write => 0x08 case Notify => 0x10 case Indicate => 0x20
  }

  function Part(ps: set<Property>, p: Property): bv8 {
    if p in ps then Bit(p) else 0
  }

  function Mask(ps: set<Property>): bv8 {
    Part(ps, Read) | Part(ps, WriteWithoutResponse) | Part(ps, Write) | Part(ps, Notify) | Part(ps, Indicate)
  }

  function Properties(c: Characteristic): bv8 {
    Mask(c.properties)
  }

  function Secure(c: Characteristic): bv8 {
    Mask(c.properties * c.secure)
  }

  predicate Has(mask: bv8, p: Property) {
    mask & Bit(p) != 0
  }

  /** The bits are exactly the properties, and security is only asked for what is allowed. */
  lemma MaskExact(c: Characteristic, p: Property)
    ensures Has(Properties(c), p) <==> p in c.properties
    ensures Has(Secure(c), p) <==> p in c.properties && p in c.secure
  {
    MaskHas(c.properties, p);
    MaskHas(c.properties * c.secure, p);
  }

  lemma MaskHas(ps: set<Property>, p: Property)
    ensures Has(Mask(ps), p) <==> p in ps
  {
  }

  const CLIENT_CONFIG: Uuid := [0x29, 0x02]

  predicate Subscribable(c: Characteristic) {
    Properties(c) & 0x30 != 0
  }

  // ---------- The table as it should be ----------

  function DescriptorRows(ds: seq<Descriptor>, at: nat): (rows: seq<Row>)
    ensures |rows| == |ds|
  {
    seq(|ds|, i requires 0 <= i < |ds| => DescriptorRow(ds[i].uuid, 0x02, 0, at + i, Just(ds[i].value)))
  }

  function ConfigRows(c: Characteristic, at: nat): seq<Row> {
    if Subscribable(c) then
      [DescriptorRow(CLIENT_CONFIG, 0x0e, if Secure(c) & 0x10 != 0 then 0x0e else 0, at, Just([0, 0]))]
    else []
  }

  function CharacteristicRows(c: Characteristic, at: nat): (rows: seq<Row>)
    ensures |rows| >= 2
  {
    var config := ConfigRows(c, at + 2);
    [CharacteristicRow(c.uuid, Properties(c), Secure(c), at, at + 1), ValueRow(at + 1, c.value)] +
    config + DescriptorRows(c.descriptors, at + 2 + |config|)
  }

  // The characteristics `cs` from handle `at` on.
  function BodyRows(cs: seq<Characteristic>, at: nat): seq<Row> {
    if cs == [] then []
    else
      var front := BodyRows(cs[..|cs| - 1], at);
      front + CharacteristicRows(cs[|cs| - 1], at + |front|)
  }

  function ServiceRows(s: Service, at: nat): (rows: seq<Row>)
    ensures |rows| >= 1
  {
    var body := BodyRows(s.characteristics, at + 1);
    [ServiceRow(s.uuid, at, at + |body|)] + body
  }

  // All services, from handle 1 on.
  function Rows(services: seq<Service>): seq<Row> {
    if services == [] then []
    else
      var front := Rows(services[..|services| - 1]);
      front + ServiceRows(services[|services| - 1], |front| + 1)
  }

  lemma BodySnoc(cs: seq<Characteristic>, i: nat, at: nat)
    requires i < |cs|
    ensures var front := BodyRows(cs[..i], at);
            BodyRows(cs[..i + 1], at) == front + CharacteristicRows(cs[i], at + |front|)
  {
    assert cs[..i + 1][..i] == cs[..i];
  }

  lemma RowsSnoc(services: seq<Service>, i: nat)
    requires i < |services|
    ensures var front := Rows(services[..i]);
            Rows(services[..i + 1]) == front + ServiceRows(services[i], |front| + 1)
  {
    assert services[..i + 1][..i] == services[..i];
  }

  // ---------- The loops ----------

  // The generic access and generic attribute services that every server has.
  function BaseServices(deviceName: Bytes): seq<Service> {
    [Service([0x18, 0x00], [
       Characteristic([0x2a, 0x00], {Read}, {}, Just(deviceName), []),
       Characteristic([0x2a, 0x01], {Read}, {}, Just([0x80, 0x00]), [])]),
     Service([0x18, 0x01], [
       Characteristic([0x2a, 0x05], {Indicate}, {}, Just([0, 0, 0, 0]), [])])]
  }

  // The handles from 1 on hold these rows, and no other handle holds anything.
  ghost predicate Holds(handles: map<nat, Row>, rows: seq<Row>) {
    (forall k :: k in handles <==> 1 <= k <= |rows|) && forall k :: 1 <= k <= |rows| ==> handles[k] == rows[k - 1]
  }

  lemma HoldsNext(handles: map<nat, Row>, rows: seq<Row>, row: Row)
    requires Holds(handles, rows)
    ensures Holds(handles[|rows| + 1 := row], rows + [row])
  {
  }

  class Table {
    var handles: map<nat, Row>

    constructor ()
    {
      handles := map[];
    }

    // The bits of one property, if the characteristic has it.
    static method Bits(c: Characteristic, p: Property, properties: bv8, secure: bv8) returns (properties': bv8, secure': bv8)
      ensures properties' == properties | Part(c.properties, p) && secure' == secure | Part(c.properties * c.secure, p)
    {
      properties', secure' := properties, secure;
      if p in c.properties {
        properties' := properties | Bit(p);
        if p in c.secure {
          secure' := secure | Bit(p);
        }
      }
    }

    // The bits of `properties` and `secure`.
    static method AllBits(c: Characteristic) returns (properties: bv8, secure: bv8)
      ensures properties == Properties(c) && secure == Secure(c)
    {
      hide Part;
      properties, secure := 0, 0;
      properties, secure := Bits(c, Read, properties, secure);
      properties, secure := Bits(c, WriteWithoutResponse, properties, secure);
      properties, secure := Bits(c, Write, properties, secure);
      properties, secure := Bits(c, Notify, properties, secure);
      properties, secure := Bits(c, Indicate, properties, secure);
    }

    method AddDescriptors(ds: seq<Descriptor>, handle: nat, ghost rows: seq<Row>) returns (last: nat)
      requires Holds(handles, rows) && handle == |rows|
      modifies this
      ensures last == handle + |ds| && Holds(handles, rows + DescriptorRows(ds, handle + 1))
    {
      last := handle;
      ghost var all := DescriptorRows(ds, handle + 1);
      assert rows + all[..0] == rows;
      for k := 0 to |ds|
        invariant last == handle + k && Holds(handles, rows + all[..k])
      {
        last := last + 1;
        HoldsNext(handles, rows + all[..k], all[k]);
        assert rows + all[..k + 1] == rows + all[..k] + [all[k]];
        handles := handles[last := DescriptorRow(ds[k].uuid, 0x02, 0, last, Just(ds[k].value))];
      }
      assert all[..|ds|] == all;
    }

    method AddCharacteristic(c: Characteristic, handle: nat, ghost rows: seq<Row>) returns (last: nat)
      requires Holds(handles, rows) && handle == |rows|
      modifies this
      ensures Holds(handles, rows + CharacteristicRows(c, handle + 1)) && last == handle + |CharacteristicRows(c, handle + 1)|
    {
      hide Holds, Properties, Secure;
      var properties, secure := AllBits(c);
      var characteristicHandle := handle + 1;
      var valueHandle := characteristicHandle + 1;
      ghost var row := CharacteristicRow(c.uuid, properties, secure, characteristicHandle, valueHandle);
      HoldsNext(handles, rows, row);
      handles := handles[characteristicHandle := CharacteristicRow(c.uuid, properties, secure, characteristicHandle, valueHandle)];
      ghost var value := ValueRow(valueHandle, c.value);
      HoldsNext(handles, rows + [row], value);
      handles := handles[valueHandle := ValueRow(valueHandle, c.value)];
      last := valueHandle;
      ghost var so := rows + [row] + [value];
      ghost var config := ConfigRows(c, last + 1);
      if properties & 0x30 != 0 {
        last := last + 1;
        HoldsNext(handles, so, config[0]);
        handles := handles[last := DescriptorRow(CLIENT_CONFIG, 0x0e, if secure & 0x10 != 0 then 0x0e else 0, last, Just([0, 0]))];
        assert so + config == so + [config[0]];
      } else {
        assert so + config == so;
      }
      last := AddDescriptors(c.descriptors, last, so + config);
      assert so + config + DescriptorRows(c.descriptors, valueHandle + |config| + 1) ==
             rows + CharacteristicRows(c, handle + 1);
    }

    method AddService(s: Service, handle: nat, ghost rows: seq<Row>) returns (last: nat)
      requires Holds(handles, rows) && handle == |rows|
      modifies this
      ensures Holds(handles, rows + ServiceRows(s, handle + 1)) && last == handle + |ServiceRows(s, handle + 1)|
    {
      hide CharacteristicRows, Holds;
      var serviceHandle := handle + 1;
      ghost var open := ServiceRow(s.uuid, serviceHandle, 0);
      HoldsNext(handles, rows, open);
      handles := handles[serviceHandle := ServiceRow(s.uuid, serviceHandle, 0)];
      last := serviceHandle;
      var cs := s.characteristics;
      assert rows + [open] + BodyRows(cs[..0], serviceHandle + 1) == rows + [open];
      for j := 0 to |cs|
        invariant Holds(handles, rows + [open] + BodyRows(cs[..j], serviceHandle + 1))
        invariant last == serviceHandle + |BodyRows(cs[..j], serviceHandle + 1)|
      {
        ghost var so := BodyRows(cs[..j], serviceHandle + 1);
        BodySnoc(cs, j, serviceHandle + 1);
        assert rows + [open] + so + CharacteristicRows(cs[j], last + 1) ==
               rows + [open] + (so + CharacteristicRows(cs[j], last + 1));
        last := AddCharacteristic(cs[j], last, rows + [open] + so);
      }
      assert cs[..|cs|] == cs;
      ghost var body := BodyRows(cs, serviceHandle + 1);
      Closed(handles, rows, open, body, ServiceRow(s.uuid, serviceHandle, last));
      handles := handles[serviceHandle := ServiceRow(s.uuid, serviceHandle, last)];
    }

    lemma Closed(before: map<nat, Row>, rows: seq<Row>, open: Row, body: seq<Row>, row: Row)
      requires Holds(before, rows + [open] + body)
      ensures Holds(before[|rows| + 1 := row], rows + ([row] + body))
    {
    }

    /** setServices: the handles are those of the table, without a gap. */
    method SetServices(deviceName: Bytes, services: seq<Service>)
      modifies this
      ensures Holds(handles, Rows(BaseServices(deviceName) + services))
    {
      hide ServiceRows;
      var all := BaseServices(deviceName) + services;
      handles := map[];
      var handle := 0;
      for i := 0 to |all|
        invariant handle == |Rows(all[..i])| && Holds(handles, Rows(all[..i]))
      {
        RowsSnoc(all, i);
        handle := AddService(all[i], handle, Rows(all[..i]));
      }
      assert all[..|all|] == all;
    }
  }

  // ---------- What the table looks like ----------

  // A service and its handles.
  datatype Group = Group(start: nat, end: nat, uuid: Uuid)

  function Groups(services: seq<Service>): (gs: seq<Group>)
    ensures |gs| == |services|
  {
    if services == [] then []
    else
      var front, last := services[..|services| - 1], services[|services| - 1];
      Groups(front) + [Group(|Rows(front)| + 1, |Rows(services)|, last.uuid)]
  }

  // Each characteristic is followed by its value, and each value comes after its characteristic.
  predicate ValuesFollow(rows: seq<Row>, at: nat) {
    && (forall i :: 0 <= i < |rows| && rows[i].CharacteristicRow? ==>
          rows[i].start == at + i && rows[i].valueHandle == at + i + 1 &&
          i + 1 < |rows| && rows[i + 1].ValueRow? && rows[i + 1].handle == at + i + 1)
    && (forall i :: 0 <= i < |rows| && rows[i].ValueRow? ==> i > 0 && rows[i - 1].CharacteristicRow?)
  }

  predicate NoService(rows: seq<Row>) {
    forall i :: 0 <= i < |rows| ==> !rows[i].ServiceRow?
  }

  lemma FollowAppend(a: seq<Row>, b: seq<Row>, at: nat)
    requires ValuesFollow(a, at) && ValuesFollow(b, at + |a|)
    ensures ValuesFollow(a + b, at)
  {
    var rows := a + b;
    forall i | 0 <= i < |rows| && rows[i].CharacteristicRow?
      ensures rows[i].start == at + i && rows[i].valueHandle == at + i + 1 &&
              i + 1 < |rows| && rows[i + 1].ValueRow? && rows[i + 1].handle == at + i + 1
    {
      if i < |a| { assert rows[i] == a[i]; } else { assert rows[i] == b[i - |a|]; }
    }
    forall i | 0 <= i < |rows| && rows[i].ValueRow? ensures i > 0 && rows[i - 1].CharacteristicRow? {
      if i < |a| { assert rows[i] == a[i]; } else { assert rows[i] == b[i - |a|]; }
    }
  }

  lemma CharacteristicLaid(c: Characteristic, at: nat)
    ensures ValuesFollow(CharacteristicRows(c, at), at) && NoService(CharacteristicRows(c, at))
  {
    hide Properties, Secure, Subscribable;
  }

  lemma {:induction false} BodyLaid(cs: seq<Characteristic>, at: nat)
    ensures ValuesFollow(BodyRows(cs, at), at) && NoService(BodyRows(cs, at))
  {
    hide CharacteristicRows, ValuesFollow;
    if cs == [] {
      NothingLaid(at);
    } else {
      var front := BodyRows(cs[..|cs| - 1], at);
      BodyLaid(cs[..|cs| - 1], at);
      CharacteristicLaid(cs[|cs| - 1], at + |front|);
      FollowAppend(front, CharacteristicRows(cs[|cs| - 1], at + |front|), at);
    }
  }

  lemma NothingLaid(at: nat)
    ensures ValuesFollow([], at)
  {
  }

  lemma ServiceLaid(s: Service, at: nat)
    ensures ValuesFollow(ServiceRows(s, at), at)
  {
    hide BodyRows;
    BodyLaid(s.characteristics, at + 1);
    var body := BodyRows(s.characteristics, at + 1);
    assert ValuesFollow([ServiceRow(s.uuid, at, at + |body|)], at);
    FollowAppend([ServiceRow(s.uuid, at, at + |body|)], body, at);
  }

  /** Every value handle is right after its characteristic's, in the whole table. */
  lemma {:induction false} ValuesPlaced(services: seq<Service>)
    ensures ValuesFollow(Rows(services), 1)
  {
    hide ServiceRows, ValuesFollow;
    if services == [] {
      NothingLaid(1);
    } else {
      var front := Rows(services[..|services| - 1]);
      ValuesPlaced(services[..|services| - 1]);
      ServiceLaid(services[|services| - 1], |front| + 1);
      FollowAppend(front, ServiceRows(services[|services| - 1], |front| + 1), 1);
    }
  }

  // The groups partition the handles, and the service rows are exactly at their starts.
  ghost predicate Partitions(gs: seq<Group>, rows: seq<Row>) {
    && (forall i :: 0 <= i < |gs| ==>
          1 <= gs[i].start <= gs[i].end <= |rows| && rows[gs[i].start - 1] == ServiceRow(gs[i].uuid, gs[i].start, gs[i].end))
    && (gs != [] ==> gs[0].start == 1)
    && (forall i :: 0 <= i < |gs| - 1 ==> gs[i + 1].start == gs[i].end + 1)
    && (forall i, k :: 0 <= i < |gs| && gs[i].start <= k < gs[i].end ==> !rows[k].ServiceRow?)
    && |rows| == (if gs == [] then 0 else gs[|gs| - 1].end)
  }

  /** The ranges of the services are a partition of the handles 1..N, in the order of the services. */
  lemma {:induction false} RangesPartition(services: seq<Service>)
    ensures Partitions(Groups(services), Rows(services))
    ensures forall i :: 0 <= i < |services| ==> Groups(services)[i].uuid == services[i].uuid
  {
    hide ServiceRows, BodyRows, Partitions, NoService;
    if services == [] {
      NoGroups();
    } else {
      var before, last := services[..|services| - 1], services[|services| - 1];
      RangesPartition(before);
      BodyLaid(last.characteristics, |Rows(before)| + 2);
      OneMore(Groups(before), Rows(before), last);
    }
  }

  lemma NoGroups()
    ensures Partitions([], [])
  {
  }

  lemma OneMore(gs: seq<Group>, rows: seq<Row>, s: Service)
    requires Partitions(gs, rows) && NoService(BodyRows(s.characteristics, |rows| + 2))
    ensures var rows' := rows + ServiceRows(s, |rows| + 1);
            Partitions(gs + [Group(|rows| + 1, |rows'|, s.uuid)], rows')
  {
    hide BodyRows;
    var more := ServiceRows(s, |rows| + 1);
    assert more[0] == ServiceRow(s.uuid, |rows| + 1, |rows| + |more|);
    assert forall k :: 0 < k < |more| ==> !more[k].ServiceRow?;
    hide ServiceRows;
    AddGroup(gs, rows, more, s.uuid);
  }

  lemma AddGroup(gs: seq<Group>, rows: seq<Row>, more: seq<Row>, uuid: Uuid)
    requires Partitions(gs, rows) && more != [] && more[0] == ServiceRow(uuid, |rows| + 1, |rows| + |more|)
    requires forall k :: 0 < k < |more| ==> !more[k].ServiceRow?
    ensures Partitions(gs + [Group(|rows| + 1, |rows + more|, uuid)], rows + more)
  {
    var rows', g := rows + more, Group(|rows| + 1, |rows + more|, uuid);
    var gs' := gs + [g];
    assert rows'[|rows|] == more[0];
    forall i, k | 0 <= i < |gs'| && gs'[i].start <= k < gs'[i].end ensures !rows'[k].ServiceRow? {
      if i < |gs| { assert rows'[k] == rows[k]; }
      else { assert rows'[k] == more[k - |rows|]; }
    }
    forall i | 0 <= i < |gs'| - 1 ensures gs'[i + 1].start == gs'[i].end + 1 {
      if i + 1 < |gs| { assert gs[i + 1].start == gs[i].end + 1; }
    }
  }
}
