/**
  What every run of mtdparts commands keeps: a sound table, a current partition that exists, a
  `mtddevnum` that is its place among all partitions, and a text cache that describes the table.
 */
module MtdInvariant {
  import opened TextNumbers
  import opened MtdGrammar
  import opened MtdPrinting
  import opened MtdTies
  import opened MtdRoundTrip
  import opened MtdTable
  import opened MtdCommands

  const MAX_PARTS: nat := 255

  // ---------------------------------------------------------------- the invariant

  /** Partition numbers are eight bits wide. */
  predicate Numbered(devices: seq<Device>) {
    forall i :: 0 <= i < |devices| ==> |devices[i].parts| <= MAX_PARTS
  }

  predicate CurrentOk(st: State) {
    if st.devices == [] then st.curDev.None?
    else
      && st.curDev.Some?
      && DeviceFind(st.devices, st.curDev.value).Some?
      && st.curPart < |CurrentDevice(st).parts|
  }

  function CurrentDevice(st: State): Device
    requires st.curDev.Some? && DeviceFind(st.devices, st.curDev.value).Some?
  {
    st.devices[DeviceFind(st.devices, st.curDev.value).value]
  }

  /** All partitions of all devices, in order. */
  function Flattened(devices: seq<Device>): seq<Part> {
    if devices == [] then [] else devices[0].parts + Flattened(devices[1..])
  }

  /** The place of partition `n` of device `i` among all partitions. */
  function Position(devices: seq<Device>, i: nat, n: nat): nat
    requires i <= |devices|
  {
    |Flattened(devices[..i])| + n
  }

  /** The variables name the current partition: its place among all partitions and its name. */
  predicate IndexOk(st: State) {
    CurrentOk(st) && st.curDev.Some? ==>
      && st.env.mtddevnum
         == Some(Wrap(Position(st.devices, DeviceFind(st.devices, st.curDev.value).value, st.curPart), U16))
      && st.env.mtddevname == Some(CurrentDevice(st).parts[st.curPart].name)
  }

  /** The ids are those of the text they were parsed from. */
  predicate IdsOfText(b: Board, st: State) {
    && IdsSound(b.hw, st.ids)
    && (st.lastIds != "" ==> MtdidsParse(b.hw, st.lastIds) == IdsOk(st.ids))
    && (st.devices != [] ==> st.lastIds != "")
  }

  /** The cached text describes the table, or is what is printed for it. */
  predicate CacheOk(b: Board, st: State) {
    st.lastParts != "" ==>
      st.devices != [] && (Describes(b.hw, st.ids, st.lastParts, st.devices) || st.lastParts == TableText(st.devices))
  }

  predicate Inv(b: Board, st: State) {
    && TableOk(b.hw, st.ids, st.devices)
    && Numbered(st.devices)
    && CurrentOk(st)
    && IndexOk(st)
    && IdsOfText(b, st)
    && CacheOk(b, st)
  }

  // ---------------------------------------------------------------- places

  lemma {:induction false} FindAt(devices: seq<Device>, i: nat)
    requires DistinctKeys(devices) && i < |devices|
    ensures DeviceFind(devices, devices[i].id.key) == Some(i)
    decreases |devices|
  {
    if 0 < i {
      FindAt(devices[1..], i - 1);
    }
  }

  lemma {:induction false} FlattenedSplit(devices: seq<Device>, i: nat)
    requires i < |devices|
    ensures Flattened(devices[..i + 1]) == Flattened(devices[..i]) + devices[i].parts
    decreases i
  {
    if i == 0 {
      assert devices[..1] == [devices[0]];
      assert Flattened([devices[0]]) == devices[0].parts + Flattened([]);
    } else {
      FlattenedSplit(devices[1..], i - 1);
      assert devices[..i + 1][1..] == devices[1..][..i] && devices[..i][1..] == devices[1..][..i - 1];
      AppendAssoc(devices[0].parts, Flattened(devices[1..][..i - 1]), devices[i].parts);
    }
  }

  lemma AppendAssoc(a: seq<Part>, b: seq<Part>, c: seq<Part>)
    ensures a + (b + c) == a + b + c
  {
  }

  /** The place is right: that is where the partition stands in the list of all partitions. */
  lemma {:induction false} PositionNames(devices: seq<Device>, i: nat, n: nat)
    requires i < |devices| && n < |devices[i].parts|
    ensures Position(devices, i, n) < |Flattened(devices)|
    ensures Flattened(devices)[Position(devices, i, n)] == devices[i].parts[n]
    decreases |devices|
  {
    if i == 0 {
      assert devices[..0] == [];
    } else {
      PositionNames(devices[1..], i - 1, n);
      assert devices[..i][0] == devices[0] && devices[..i][1..] == devices[1..][..i - 1];
    }
  }

  lemma WrapAdd(a: nat, n: nat)
    ensures Wrap(Wrap(a, U16) + n, U16) == Wrap(a + n, U16)
  {
  }

  /** The loop of index_partitions counts the partitions before the device. */
  lemma {:induction false} DevNumIs(devices: seq<Device>, i: nat, k: nat)
    requires DistinctKeys(devices) && k <= i < |devices|
    requires forall j :: 0 <= j < |devices| ==> devices[j].numParts == |devices[j].parts|
    ensures DevNum(devices, devices[i].id.key, Wrap(|Flattened(devices[..k])|, U16), k)
            == Some(Wrap(|Flattened(devices[..i])|, U16))
    decreases i - k
  {
    if k < i {
      FlattenedSplit(devices, k);
      WrapAdd(|Flattened(devices[..k])|, |devices[k].parts|);
      DevNumIs(devices, i, k + 1);
    }
  }

  lemma CountsOk(hw: Hardware, ids: seq<MtdId>, devices: seq<Device>)
    requires TableOk(hw, ids, devices)
    ensures forall j :: 0 <= j < |devices| ==> devices[j].numParts == |devices[j].parts|
  {
    forall j | 0 <= j < |devices|
      ensures devices[j].numParts == |devices[j].parts|
    {
      assert DeviceOk(hw, ids, devices[j]);
    }
  }

  /** index_partitions sets the variables to the place and the name of the current partition. */
  lemma IndexedOk(hw: Hardware, st: State)
    requires TableOk(hw, st.ids, st.devices) && CurrentOk(st)
    ensures IndexOk(Indexed(st)) && CurrentOk(Indexed(st))
  {
    if st.curDev.Some? {
      hide DevNum, Flattened, DeviceOk;
      var i := DeviceFind(st.devices, st.curDev.value).value;
      CountsOk(hw, st.ids, st.devices);
      FlattenNone(st.devices);
      DevNumIs(st.devices, i, 0);
      WrapAdd(|Flattened(st.devices[..i])|, st.curPart);
    }
  }

  lemma FlattenNone(devices: seq<Device>)
    ensures Wrap(|Flattened(devices[..0])|, U16) == 0
  {
  }

  lemma CurrentSaveOk(hw: Hardware, st: State)
    requires TableOk(hw, st.ids, st.devices) && CurrentOk(st)
    ensures IndexOk(CurrentSave(st)) && CurrentOk(CurrentSave(st))
  {
    hide Indexed, IndexOk, TableOk, PartitionText;
    match st.curDev
    case None =>
      IndexedOk(hw, st.(env := st.env.(partition := None), lastPartition := ""));
    case Some(key) =>
      var text := PartitionText(key, st.curPart);
      IndexedOk(hw, st.(env := st.env.(partition := Some(text)), lastPartition := Cut(text, PARTITION_MAXLEN)));
  }
}
