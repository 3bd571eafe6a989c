/**
  Parsing what generate_mtdparts prints.  For every table that the commands can build the result
  of re-parsing is computed exactly; it is the table itself if and only if no partition is smaller
  than the parser's minimum and every group of partitions that share an offset reads the same in
  both directions.
 */
module MtdRoundTrip {
  import opened TextNumbers
  import opened MtdGrammar
  import opened MtdPrinting
  import opened MtdTies

  // ---------------------------------------------------------------- whole tables

  /** A device as the commands keep it. */
  predicate DeviceOk(hw: Hardware, ids: seq<MtdId>, dev: Device) {
    && IdOk(hw, dev.id)
    && ':' !in dev.id.name
    && IdByName(ids, dev.id.name) == Some(dev.id)
    && dev.parts != [] && dev.numParts == |dev.parts|
    && AllFit(hw, dev.id, dev.parts)
    && Sorted(dev.parts) && OneAtZero(dev.parts)
  }

  predicate DistinctKeys(devices: seq<Device>) {
    forall i, j :: 0 <= i < j < |devices| ==> devices[i].id.key != devices[j].id.key
  }

  /** The device table as the commands keep it. */
  predicate TableOk(hw: Hardware, ids: seq<MtdId>, devices: seq<Device>) {
    && (forall i :: 0 <= i < |devices| ==> DeviceOk(hw, ids, devices[i]))
    && DistinctKeys(devices)
  }

  /** The device that re-parsing yields. */
  function ReadBackDevice(dev: Device): Device {
    dev.(parts := TiesReversed(RenamedParts(dev.parts, 0)), numParts := |dev.parts|)
  }

  function ReadBackDevices(devices: seq<Device>): (r: seq<Device>)
    ensures |r| == |devices|
    ensures forall i :: 0 <= i < |r| ==> r[i] == ReadBackDevice(devices[i])
  {
    seq(|devices|, i requires 0 <= i < |devices| => ReadBackDevice(devices[i]))
  }

  predicate NoneTooSmall(devices: seq<Device>) {
    forall i :: 0 <= i < |devices| ==> AllAtLeastMinimum(devices[i].parts)
  }

  /** The stages of device_parse, put together. */
  lemma DeviceFromStages(hw: Hardware, ids: seq<MtdId>, acc: seq<Device>, id: MtdId, body: string, r: Parsed<seq<Part>>)
    requires ':' !in id.name && IdByName(ids, id.name) == Some(id)
    requires DeviceFind(acc, id.key).None?
    requires PartsParse(hw, id, body, 0, []) == r
    requires r.Ok? ==> r.value != []
    ensures DeviceParse(hw, ids, acc, id.name + ":" + body)
            == if r.Bad? || InsertAll([], r.value).None? then Bad
               else Ok(Device(id, InsertAll([], r.value).value, |InsertAll([], r.value).value|),
                       if r.rest == "" then "" else r.rest[1..])
  {
    var s := id.name + ":" + body;
    FindSplit(id.name, ':', body);
    assert s[..|id.name|] == id.name && s[|id.name| + 1..] == body;
  }

  lemma DeviceReadBack(hw: Hardware, ids: seq<MtdId>, acc: seq<Device>, dev: Device, tail: string)
    requires DeviceOk(hw, ids, dev)
    requires DeviceFind(acc, dev.id.key).None?
    requires tail == "" || tail[0] == ';'
    ensures DeviceParse(hw, ids, acc, DeviceText(dev) + tail)
            == if AllAtLeastMinimum(dev.parts)
               then Ok(ReadBackDevice(dev), if tail == "" then "" else tail[1..])
               else Bad
  {
    hide DeviceParse, PartsText, PartsParse, RenamedParts, TiesReversed, AllAtLeastMinimum, InsertAll;
    var body := PartsText(dev.parts, 0) + tail;
    var renamed := RenamedParts(dev.parts, 0);
    PartsReadBack(hw, dev.id, dev.parts, 0, tail, []);
    assert [] + renamed == renamed;
    InsertAllSorted(renamed);
    DeviceFromStages(hw, ids, acc, dev.id, body, if AllAtLeastMinimum(dev.parts) then Ok(renamed, tail) else Bad);
    Concat3(dev.id.name + ":", PartsText(dev.parts, 0), tail);
  }

  lemma Concat3(a: string, b: string, c: string)
    ensures a + b + c == a + (b + c)
  {
  }

  /** One turn of the device loop. */
  lemma DeviceStep(hw: Hardware, ids: seq<MtdId>, acc: seq<Device>, s: string, r: Parsed<Device>)
    requires s != "" && DeviceParse(hw, ids, acc, s) == r
    requires r.Ok? ==> DeviceFind(acc, r.value.id.key).None?
    ensures DevicesParse(hw, ids, s, acc)
            == if r.Bad? then None else DevicesParse(hw, ids, r.rest, acc + [r.value])
  {
  }

  lemma DevicesDone(hw: Hardware, ids: seq<MtdId>, acc: seq<Device>)
    ensures DevicesParse(hw, ids, "", acc) == Some(acc)
  {
  }

  lemma SmallSplit(devices: seq<Device>)
    requires devices != []
    ensures NoneTooSmall(devices) <==> AllAtLeastMinimum(devices[0].parts) && NoneTooSmall(devices[1..])
  {
    assert forall i :: 1 <= i < |devices| ==> devices[i] == devices[1..][i - 1];
  }

  lemma ReadBackSplit(devices: seq<Device>, acc: seq<Device>)
    requires devices != []
    ensures acc + ReadBackDevices(devices) == acc + [ReadBackDevice(devices[0])] + ReadBackDevices(devices[1..])
  {
  }

  lemma {:induction false} DevicesReadBack(hw: Hardware, ids: seq<MtdId>, devices: seq<Device>, acc: seq<Device>)
    requires devices != [] && TableOk(hw, ids, devices)
    requires forall i, j :: 0 <= i < |acc| && 0 <= j < |devices| ==> acc[i].id.key != devices[j].id.key
    ensures DevicesParse(hw, ids, DevicesText(devices), acc)
            == if NoneTooSmall(devices) then Some(acc + ReadBackDevices(devices)) else None
    decreases |devices|
  {
    hide DeviceParse, DeviceText, TiesReversed, RenamedParts, AllAtLeastMinimum, ReadBackDevices, DevicesParse,
         DeviceOk;
    var dev := devices[0];
    var back := ReadBackDevice(dev);
    var others := DevicesText(devices[1..]);
    var tail := if |devices| == 1 then "" else ";" + others;
    assert DevicesText(devices) == DeviceText(dev) + tail by {
      Concat3(DeviceText(dev), ";", others);
    }
    DeviceTextNotEmpty(dev);
    DeviceReadBack(hw, ids, acc, dev, tail);
    var r := DeviceParse(hw, ids, acc, DeviceText(dev) + tail);
    DeviceStep(hw, ids, acc, DeviceText(dev) + tail, r);
    SmallSplit(devices);
    ReadBackSplit(devices, acc);
    if AllAtLeastMinimum(dev.parts) {
      assert r.rest == others;
      if |devices| == 1 {
        DevicesDone(hw, ids, acc + [back]);
        assert acc + [back] + [] == acc + [back];
      } else {
        DevicesReadBack(hw, ids, devices[1..], acc + [back]);
      }
    }
  }

  /** What parse_mtdparts makes of the printed table: exactly this, for every table. */
  lemma TableReadBack(hw: Hardware, ids: seq<MtdId>, devices: seq<Device>)
    requires devices != [] && TableOk(hw, ids, devices)
    ensures TableParse(hw, ids, TableText(devices))
            == if NoneTooSmall(devices) then Some(ReadBackDevices(devices)) else None
  {
    var text := TableText(devices);
    assert text[..|PREFIX|] == PREFIX && text[|PREFIX|..] == DevicesText(devices);
    assert DevicesText(devices) != "" by { DeviceTextNotEmpty(devices[0]); }
    DevicesReadBack(hw, ids, devices, []);
    assert [] + ReadBackDevices(devices) == ReadBackDevices(devices);
  }

  lemma DeviceTextNotEmpty(dev: Device)
    ensures DeviceText(dev) != ""
  {
    assert DeviceText(dev)[|dev.id.name|] == ':';
  }

  // ---------------------------------------------------------------- the round trip

  /** A partition without its generated name: what the text can say about it. */
  function Erased(p: Part): Part {
    if p.autoName then p.(name := "") else p
  }

  function ErasedParts(parts: seq<Part>): (r: seq<Part>)
    ensures |r| == |parts|
    ensures forall i :: 0 <= i < |r| ==> r[i] == Erased(parts[i])
  {
    seq(|parts|, i requires 0 <= i < |parts| => Erased(parts[i]))
  }

  /** The table without generated names: devices, partition order, sizes, offsets, ro flags, user names. */
  function ErasedDevices(devices: seq<Device>): (r: seq<Device>)
    ensures |r| == |devices|
    ensures forall i :: 0 <= i < |r| ==> r[i] == devices[i].(parts := ErasedParts(devices[i].parts))
  {
    seq(|devices|, i requires 0 <= i < |devices| => devices[i].(parts := ErasedParts(devices[i].parts)))
  }

  lemma {:induction false} ErasedRenamed(parts: seq<Part>, expected: nat)
    ensures ErasedParts(RenamedParts(parts, expected)) == ErasedParts(parts)
    decreases |parts|
  {
    if parts != [] {
      ErasedRenamed(parts[1..], End(parts[0]));
      ErasedCons(parts[0], parts[1..]);
      ErasedCons(Renamed(parts[0], expected), RenamedParts(parts[1..], End(parts[0])));
      assert parts == [parts[0]] + parts[1..];
    }
  }

  lemma ErasedCons(p: Part, parts: seq<Part>)
    ensures ErasedParts([p] + parts) == [Erased(p)] + ErasedParts(parts)
  {
  }

  lemma ErasedGroup(parts: seq<Part>, n: nat)
    requires 0 < n <= |parts|
    ensures GroupStart(ErasedParts(parts), n) == GroupStart(parts, n)
    decreases n
  {
    if 1 < n {
      ErasedGroup(parts, n - 1);
    }
  }

  lemma ErasedReversed(parts: seq<Part>)
    ensures ErasedParts(Reversed(parts)) == Reversed(ErasedParts(parts))
  {
    hide Reversed, Erased;
  }

  lemma ErasedAppend(a: seq<Part>, b: seq<Part>)
    ensures ErasedParts(a + b) == ErasedParts(a) + ErasedParts(b)
  {
    hide Erased;
  }

  lemma ErasedSlice(parts: seq<Part>, k: nat)
    requires k <= |parts|
    ensures ErasedParts(parts[..k]) == ErasedParts(parts)[..k] && ErasedParts(parts[k..]) == ErasedParts(parts)[k..]
  {
    hide Erased;
  }

  /** Turning groups round does not look at names. */
  lemma {:induction false} ErasedTies(parts: seq<Part>)
    ensures ErasedParts(TiesReversed(parts)) == TiesReversed(ErasedParts(parts))
    decreases |parts|
  {
    if parts != [] {
      hide ErasedParts, Reversed, TiesReversed, GroupStart;
      var k := GroupStart(parts, |parts|);
      TiesUnfold(parts, k);
      ErasedGroup(parts, |parts|);
      TiesUnfold(ErasedParts(parts), k);
      ErasedTies(parts[..k]);
      ErasedReversed(parts[k..]);
      ErasedAppend(TiesReversed(parts[..k]), Reversed(parts[k..]));
      ErasedSlice(parts, k);
    }
  }

  /** Partitions that share an offset read the same in both directions. */
  predicate TiesSymmetric(devices: seq<Device>) {
    forall i :: 0 <= i < |devices| ==> SymmetricParts(devices[i].parts)
  }

  predicate SymmetricParts(parts: seq<Part>) {
    TiesReversed(ErasedParts(parts)) == ErasedParts(parts)
  }

  /** What a caller can check to know that the printed table reads back. */
  predicate Printable(devices: seq<Device>) {
    NoneTooSmall(devices) && TiesSymmetric(devices)
  }

  /** The text describes exactly this table. */
  predicate Describes(hw: Hardware, ids: seq<MtdId>, text: string, devices: seq<Device>) {
    var r := TableParse(hw, ids, text);
    r.Some? && ErasedDevices(r.value) == ErasedDevices(devices)
  }

  lemma ErasedReadBack(dev: Device)
    ensures ErasedParts(ReadBackDevice(dev).parts) == TiesReversed(ErasedParts(dev.parts))
  {
    ErasedTies(RenamedParts(dev.parts, 0));
    ErasedRenamed(dev.parts, 0);
  }

  lemma ErasedReadBackAll(hw: Hardware, ids: seq<MtdId>, devices: seq<Device>)
    requires TableOk(hw, ids, devices)
    ensures ErasedDevices(ReadBackDevices(devices)) == ErasedDevices(devices) <==> TiesSymmetric(devices)
  {
    hide TiesReversed, RenamedParts, ErasedParts;
    var back := ReadBackDevices(devices);
    forall i | 0 <= i < |devices|
      ensures ErasedDevices(back)[i] == ErasedDevices(devices)[i] <==> SymmetricParts(devices[i].parts)
    {
      ErasedReadBack(devices[i]);
      assert DeviceOk(hw, ids, devices[i]);
    }
    if TiesSymmetric(devices) {
      assert ErasedDevices(back) == ErasedDevices(devices);
    }
  }

  /**
    The round trip: the printed text reads back as the same devices with the same partitions in the
    same order, up to generated names, exactly for the tables that are `Printable`.
   */
  lemma RoundTrip(hw: Hardware, ids: seq<MtdId>, devices: seq<Device>)
    requires devices != [] && TableOk(hw, ids, devices)
    ensures Describes(hw, ids, TableText(devices), devices) <==> Printable(devices)
  {
    hide TableParse, TableText, TableOk, ReadBackDevices, NoneTooSmall, TiesSymmetric, ErasedDevices;
    TableReadBack(hw, ids, devices);
    ErasedReadBackAll(hw, ids, devices);
  }

  predicate DistinctOffsets(parts: seq<Part>) {
    forall i, j :: 0 <= i < j < |parts| ==> parts[i].offset != parts[j].offset
  }

  /** Partitions at different offsets and none below the minimum: the table is printable. */
  lemma DistinctOffsetsPrintable(devices: seq<Device>)
    requires NoneTooSmall(devices)
    requires forall i :: 0 <= i < |devices| ==> DistinctOffsets(devices[i].parts)
    ensures Printable(devices)
  {
    forall i | 0 <= i < |devices|
      ensures SymmetricParts(devices[i].parts)
    {
      assert DistinctOffsets(devices[i].parts);
      NoTies(ErasedParts(devices[i].parts));
    }
  }
}
