/**
  Every command keeps the invariant, so every run does; and when mtdparts_init skips parsing
  because the text has not changed, the table is the one parsing would give.
 */
module MtdRuns {
  import opened TextNumbers
  import opened MtdGrammar
  import opened MtdPrinting
  import opened MtdTies
  import opened MtdRoundTrip
  import opened MtdTable
  import opened MtdCommands
  import opened MtdInvariant

  /** The part of the invariant that the changes to the table are responsible for. */
  predicate Sound(b: Board, st: State) {
    && TableOk(b.hw, st.ids, st.devices)
    && Numbered(st.devices)
    && CurrentOk(st)
  }

  /** Two states with the same ids and the same copies of the variables. */
  predicate SameCopies(s: State, t: State) {
    && s.ids == t.ids && s.lastIds == t.lastIds && s.lastParts == t.lastParts
    && s.env.mtdids == t.env.mtdids && s.env.mtdparts == t.env.mtdparts && s.useDefaults == t.useDefaults
  }

  predicate SameTable(s: State, t: State) {
    s.devices == t.devices && s.curDev == t.curDev && s.curPart == t.curPart
  }

  lemma SaveFrame(st: State)
    ensures SameCopies(CurrentSave(st), st) && SameTable(CurrentSave(st), st)
    ensures SameCopies(Indexed(st), st) && SameTable(Indexed(st), st)
  {
    hide DevNum, PartInfo, PartitionText, Cut;
  }

  lemma Saved(b: Board, st: State)
    requires Sound(b, st)
    ensures Sound(b, CurrentSave(st)) && IndexOk(CurrentSave(st))
    ensures Sound(b, Indexed(st)) && IndexOk(Indexed(st))
    ensures SameCopies(CurrentSave(st), st) && SameTable(CurrentSave(st), st)
    ensures SameCopies(Indexed(st), st) && SameTable(Indexed(st), st)
  {
    hide Indexed, CurrentSave, IndexOk, TableOk, Numbered;
    SaveFrame(st);
    CurrentSaveOk(b.hw, st);
    IndexedOk(b.hw, st);
  }

  // ---------------------------------------------------------------- the saved selection

  lemma KindText(kind: DevKind, rest: string)
    ensures var s := KindName(kind) + rest;
            && (StartsWith(s, "nand") <==> kind == Nand)
            && (StartsWith(s, "nor") <==> kind == Nor)
            && (StartsWith(s, "onenand") <==> kind == OneNand)
            && s[|KindName(kind)|..] == rest
  {
    var s := KindName(kind) + rest;
    assert s[..|KindName(kind)|] == KindName(kind);
    assert 2 <= |s| && s[0] == KindName(kind)[0] && s[1] == KindName(kind)[1];
    assert 4 <= |s| ==> s[..4][0] == s[0] && s[..4][1] == s[1];
    assert s[..3][0] == s[0];
    assert 7 <= |s| ==> s[..7][0] == s[0] && s[..7][1] == s[1];
  }

  /** mtd_id_parse reads back the name of a device. */
  lemma DevIdBack(key: DevKey, rest: string)
    requires key.num < U8 && EndsNumber(rest)
    ensures DevIdParse(KindName(key.kind) + (Print(key.num, 10, false) + rest)) == Ok(key, rest)
  {
    hide Print, StrToU, StartsWith;
    var digits := Print(key.num, 10, false) + rest;
    ReadDecimal(key.num, rest, U8);
    assert digits[0] == Print(key.num, 10, false)[0];
    KindText(key.kind, digits);
  }

  /**
    The text current_save stores names the current partition again, for find_dev_and_part, unless a
    partition bears that text as its name.
   */
  lemma SelectionFound(b: Board, st: State, i: nat, n: nat)
    requires TableOk(b.hw, st.ids, st.devices) && Numbered(st.devices)
    requires i < |st.devices| && n < |st.devices[i].parts| && st.devices[i].id.key.num < U8
    ensures var text := PartitionText(st.devices[i].id.key, n);
            var named := FindName(st.devices, text, 0, 0);
            FindPart(st.devices, text) == if named.Some? then named else Some((i, n))
  {
    var key := st.devices[i].id.key;
    var number := Print(n, 10, false);
    SelectionParts(key, n);
    DevIdBack(key, "," + number);
    NotEmpty(b.hw, st.ids, st.devices, i);
    DistinctOf(b.hw, st.ids, st.devices);
    FindAt(st.devices, i);
    NumberedAt(st.devices, i);
    ReadDecimal(n, "", U8);
    assert ("," + number)[1..] == number && number + "" == number;
    hide DevIdParse, StrToU, Print, PartitionText, DeviceFind, FindName, TableOk;
  }

  lemma SelectionParts(key: DevKey, n: nat)
    ensures PartitionText(key, n) == KindName(key.kind) + (Print(key.num, 10, false) + ("," + Print(n, 10, false)))
  {
    hide Print, KindName;
  }

  // ---------------------------------------------------------------- deleting

  lemma RemovedOk(b: Board, ids: seq<MtdId>, devices: seq<Device>, i: nat)
    requires TableOk(b.hw, ids, devices) && Numbered(devices) && i < |devices|
    ensures TableOk(b.hw, ids, devices[..i] + devices[i + 1..]) && Numbered(devices[..i] + devices[i + 1..])
  {
    hide DeviceOk;
  }

  lemma FoundAfterRemoval(devices: seq<Device>, i: nat, j: nat)
    requires DistinctKeys(devices) && i < |devices| && j < |devices| && i != j
    ensures var left := devices[..i] + devices[i + 1..];
            var r := DeviceFind(left, devices[j].id.key);
            r.Some? && left[r.value] == devices[j]
  {
    var left := devices[..i] + devices[i + 1..];
    var k := if i < j then j - 1 else j;
    assert left[k] == devices[j];
    assert DistinctKeys(left);
    FindAt(left, k);
  }

  /** The partition that is selected. */
  function CurrentPart(st: State): Part
    requires CurrentOk(st) && st.devices != []
  {
    CurrentDevice(st).parts[st.curPart]
  }

  /** device_del: a sound table stays sound; the current partition stays, or becomes the first one. */
  lemma DeviceDelOk(b: Board, st: State, i: nat)
    requires Sound(b, st) && i < |st.devices|
    ensures var r := DeviceDel(st, i);
            && Sound(b, r) && IndexOk(r) && SameCopies(r, st)
            && r.devices == st.devices[..i] + st.devices[i + 1..]
            && (st.curDev != Some(st.devices[i].id.key) ==> r.devices != [] && CurrentPart(r) == CurrentPart(st))
            && (st.curDev == Some(st.devices[i].id.key) && r.devices != [] ==> CurrentPart(r) == r.devices[0].parts[0])
  {
    hide Indexed, CurrentSave, IndexOk, TableOk, Numbered, DeviceFind;
    var key := st.devices[i].id.key;
    var left := st.devices[..i] + st.devices[i + 1..];
    RemovedOk(b, st.ids, st.devices, i);
    if st.curDev != Some(key) {
      var j := DeviceFind(st.devices, st.curDev.value).value;
      DistinctOf(b.hw, st.ids, st.devices);
      FoundAfterRemoval(st.devices, i, j);
      Saved(b, st.(devices := left));
    } else if left == [] {
      Saved(b, st.(devices := left, curDev := None));
    } else {
      DistinctOf(b.hw, st.ids, left);
      FindAt(left, 0);
      NotEmpty(b.hw, st.ids, left, 0);
      Saved(b, st.(devices := left, curDev := Some(left[0].id.key), curPart := 0));
    }
  }

  lemma DistinctOf(hw: Hardware, ids: seq<MtdId>, devices: seq<Device>)
    requires TableOk(hw, ids, devices)
    ensures DistinctKeys(devices)
  {
    hide DeviceOk;
  }

  lemma NotEmpty(hw: Hardware, ids: seq<MtdId>, devices: seq<Device>, i: nat)
    requires TableOk(hw, ids, devices) && i < |devices|
    ensures devices[i].parts != [] && devices[i].numParts == |devices[i].parts|
    ensures DeviceOk(hw, ids, devices[i])
  {
    assert DeviceOk(hw, ids, devices[i]);
  }

  lemma WithoutOk(b: Board, ids: seq<MtdId>, dev: Device, j: nat)
    requires DeviceOk(b.hw, ids, dev) && j < |dev.parts| && 1 < |dev.parts| <= MAX_PARTS
    ensures DeviceOk(b.hw, ids, Without(dev, j))
    ensures |Without(dev, j).parts| == |dev.parts| - 1 && Without(dev, j).id == dev.id
  {
    var left := dev.parts[..j] + dev.parts[j + 1..];
    SortedRemove(dev.parts, j);
    FitsRemove(b.hw, dev.id, dev.parts, j);
  }

  lemma SortedRemove(parts: seq<Part>, j: nat)
    requires Sorted(parts) && OneAtZero(parts) && j < |parts|
    ensures Sorted(parts[..j] + parts[j + 1..]) && OneAtZero(parts[..j] + parts[j + 1..])
  {
  }

  lemma FitsRemove(hw: Hardware, id: MtdId, parts: seq<Part>, j: nat)
    requires AllFit(hw, id, parts) && j < |parts|
    ensures AllFit(hw, id, parts[..j] + parts[j + 1..])
  {
    hide PartFits, NameOk;
  }

  lemma ReplacedOk(b: Board, ids: seq<MtdId>, devices: seq<Device>, i: nat, dev: Device)
    requires TableOk(b.hw, ids, devices) && Numbered(devices) && i < |devices|
    requires DeviceOk(b.hw, ids, dev) && dev.id == devices[i].id && |dev.parts| <= MAX_PARTS
    ensures TableOk(b.hw, ids, devices[i := dev]) && Numbered(devices[i := dev])
  {
    hide DeviceOk;
  }

  lemma FoundAfterReplacement(devices: seq<Device>, i: nat, dev: Device, j: nat)
    requires DistinctKeys(devices) && i < |devices| && j < |devices| && dev.id == devices[i].id
    ensures var r := DeviceFind(devices[i := dev], devices[j].id.key);
            r == Some(j) && devices[i := dev][j] == (if i == j then dev else devices[j])
  {
    assert DistinctKeys(devices[i := dev]);
    FindAt(devices[i := dev], j);
  }

  /** The deletion that the tracking of the current partition gets wrong. */
  predicate TieBehindCurrent(st: State, i: nat, j: nat)
    requires i < |st.devices| && j < |st.devices[i].parts|
  {
    && st.curDev == Some(st.devices[i].id.key)
    && st.curPart < j
    && st.devices[i].parts[j].offset == st.devices[i].parts[st.curPart].offset
  }

  /** Partitions at different offsets never meet it. */
  lemma DistinctNeverTie(st: State, i: nat, j: nat)
    requires i < |st.devices| && j < |st.devices[i].parts| && DistinctOffsets(st.devices[i].parts)
    ensures !TieBehindCurrent(st, i, j)
  {
  }

  predicate IsCurrent(st: State, i: nat, j: nat)
    requires i < |st.devices|
  {
    st.curDev == Some(st.devices[i].id.key) && st.curPart == j
  }

  /** The current partition is the first one and the deletion moves its number below 0, which an u8 cannot hold. */
  predicate FallsOff(st: State, i: nat, j: nat)
    requires i < |st.devices| && j < |st.devices[i].parts|
  {
    TieBehindCurrent(st, i, j) && st.curPart == 0
  }

  /** The table and the current partition before part_del of one of several partitions saves them. */
  lemma PartDelTable(b: Board, st: State, i: nat, j: nat)
    requires Sound(b, st) && i < |st.devices| && j < |st.devices[i].parts| && 1 < |st.devices[i].parts|
    ensures var dev := st.devices[i];
            var left := st.devices[i := Without(dev, j)];
            && dev.numParts == |dev.parts| <= MAX_PARTS && DeviceOk(b.hw, st.ids, dev)
            && TableOk(b.hw, st.ids, left) && Numbered(left) && st.curDev.Some?
            && |Without(dev, j).parts| == |dev.parts| - 1
            && var c := DeviceFind(st.devices, st.curDev.value).value;
               && DeviceFind(left, st.curDev.value) == Some(c)
               && left[c] == (if c == i then Without(dev, j) else st.devices[c])
               && (c == i <==> st.curDev == Some(dev.id.key))
  {
    hide IndexOk, TableOk, Numbered, DeviceFind, Without, DeviceOk;
    var dev := st.devices[i];
    NotEmpty(b.hw, st.ids, st.devices, i);
    NumberedAt(st.devices, i);
    WithoutOk(b, st.ids, dev, j);
    ReplacedOk(b, st.ids, st.devices, i, Without(dev, j));
    DistinctOf(b.hw, st.ids, st.devices);
    var c := DeviceFind(st.devices, st.curDev.value).value;
    FoundAfterReplacement(st.devices, i, Without(dev, j), c);
    FindAt(st.devices, i);
  }

  /** part_del of one of several partitions. */
  lemma PartDelSome(b: Board, st: State, i: nat, j: nat)
    requires Sound(b, st) && i < |st.devices| && j < |st.devices[i].parts| && 1 < |st.devices[i].parts|
    requires !FallsOff(st, i, j)
    ensures var r := PartDel(st, i, j);
            && Sound(b, r) && IndexOk(r) && SameCopies(r, st)
            && r.devices == st.devices[i := Without(st.devices[i], j)]
            && (IsCurrent(st, i, j) || TieBehindCurrent(st, i, j) || CurrentPart(r) == CurrentPart(st))
  {
    hide Indexed, CurrentSave, IndexOk, TableOk, Numbered, DeviceFind, Without, CurrentAfterDel, DeviceOk;
    var dev := st.devices[i];
    var left := st.devices[i := Without(dev, j)];
    PartDelTable(b, st, i, j);
    if st.curDev == Some(dev.id.key) {
      CurrentStays(b.hw, st.ids, dev, j, st.curPart);
      Saved(b, st.(devices := left, curPart := CurrentAfterDel(dev.parts, j, st.curPart)));
    } else {
      Saved(b, st.(devices := left));
    }
  }

  /** The number leaves the list: the table is sound, but no partition is current. */
  lemma PartDelFalls(b: Board, st: State, i: nat, j: nat)
    requires Sound(b, st) && i < |st.devices| && j < |st.devices[i].parts| && FallsOff(st, i, j)
    ensures 1 < |st.devices[i].parts|
    ensures var r := PartDel(st, i, j);
            && TableOk(b.hw, r.ids, r.devices) && Numbered(r.devices) && !CurrentOk(r) && SameCopies(r, st)
            && r.devices == st.devices[i := Without(st.devices[i], j)] && r.curPart == 255
  {
    hide Indexed, CurrentSave, TableOk, Numbered, DeviceFind, Without, DeviceOk;
    PartDelTable(b, st, i, j);
    var left := st.devices[i := Without(st.devices[i], j)];
    SaveFrame(st.(devices := left, curPart := CurrentAfterDel(st.devices[i].parts, j, st.curPart)));
  }

  lemma NumberedAt(devices: seq<Device>, i: nat)
    requires Numbered(devices) && i < |devices|
    ensures |devices[i].parts| <= MAX_PARTS
  {
  }

  lemma CurrentStays(hw: Hardware, ids: seq<MtdId>, dev: Device, j: nat, current: nat)
    requires DeviceOk(hw, ids, dev) && 1 < |dev.parts| < U8 && j < |dev.parts| && current < |dev.parts|
    requires !(current == 0 && 0 < j && dev.parts[j].offset == dev.parts[0].offset)
    ensures CurrentAfterDel(dev.parts, j, current) < |dev.parts| - 1
    ensures j != current && !(current < j && dev.parts[j].offset == dev.parts[current].offset) ==>
              Without(dev, j).parts[CurrentAfterDel(dev.parts, j, current)] == dev.parts[current]
  {
    if j != current {
      DelTracksCurrent(dev.parts, j, current);
    }
  }

  /**
    part_del, of the last partition too.  A partition stays current, and so does the same one unless
    it is deleted or tied, if and only if the deletion does not move its number off the list.
   */
  lemma PartDelOk(b: Board, st: State, i: nat, j: nat)
    requires Sound(b, st) && i < |st.devices| && j < |st.devices[i].parts|
    ensures var r := PartDel(st, i, j);
            && TableOk(b.hw, r.ids, r.devices) && SameCopies(r, st)
            && (Sound(b, r) <==> !FallsOff(st, i, j))
            && (!FallsOff(st, i, j) ==> IndexOk(r))
            && r.devices == (if |st.devices[i].parts| == 1 then st.devices[..i] + st.devices[i + 1..]
                             else st.devices[i := Without(st.devices[i], j)])
            && (!IsCurrent(st, i, j) && !TieBehindCurrent(st, i, j) ==>
                  CurrentOk(r) && r.devices != [] && CurrentOk(st) && CurrentPart(r) == CurrentPart(st))
  {
    OnlyIsCurrent(b, st, i, j);
    SoundTable(b, st);
    if FallsOff(st, i, j) {
      PartDelFalls(b, st, i, j);
      hide PartDel, Without, DeviceOk, TableOk;
    } else {
      hide IndexOk, SameCopies, DeviceDel, CurrentSave, Indexed, Without, DeviceOk, TableOk, Numbered, DeviceFind;
      NotEmpty(b.hw, st.ids, st.devices, i);
      if |st.devices[i].parts| == 1 {
        DeviceDelOk(b, st, i);
      } else {
        PartDelSome(b, st, i, j);
      }
    }
  }

  /** The only partition of the current device is the current one. */
  lemma OnlyIsCurrent(b: Board, st: State, i: nat, j: nat)
    requires Sound(b, st) && i < |st.devices| && j < |st.devices[i].parts|
    ensures |st.devices[i].parts| == 1 && st.curDev == Some(st.devices[i].id.key) ==> IsCurrent(st, i, j)
  {
    hide DeviceOk;
    if st.curDev == Some(st.devices[i].id.key) {
      FindAt(st.devices, i);
    }
  }

  lemma SoundTable(b: Board, st: State)
    requires Sound(b, st)
    ensures TableOk(b.hw, st.ids, st.devices) && Numbered(st.devices) && CurrentOk(st)
  {
  }

  // ---------------------------------------------------------------- adding

  lemma WithOk(b: Board, ids: seq<MtdId>, dev: Device, p: Part)
    requires DeviceOk(b.hw, ids, dev) && |dev.parts| < MAX_PARTS
    requires PartFits(b.hw, dev.id, p) && NameOk(p) && Slot(dev.parts, p, 0).Some?
    ensures var r := With(dev, p, Slot(dev.parts, p, 0).value);
            DeviceOk(b.hw, ids, r) && |r.parts| == |dev.parts| + 1 && r.id == dev.id
  {
    hide PartFits, NameOk, Slot, Sorted, OneAtZero, AllFit;
    SortInsertKeeps(b.hw, dev.id, dev.parts, p);
  }

  /** part_sort_add to a listed device: sound, and the current partition is still the same one. */
  lemma SortAddOk(b: Board, st: State, i: nat, p: Part)
    requires Sound(b, st) && i < |st.devices| && |st.devices[i].parts| < MAX_PARTS
    requires PartFits(b.hw, st.devices[i].id, p) && NameOk(p) && SortAdd(st, i, p).Some?
    ensures var r := SortAdd(st, i, p).value;
            && Sound(b, r) && IndexOk(r) && SameCopies(r, st) && r.devices != []
            && CurrentDevice(r).parts[r.curPart] == CurrentDevice(st).parts[st.curPart]
  {
    hide Indexed, CurrentSave, IndexOk, TableOk, Numbered, DeviceFind, With, CurrentAfterAdd, DeviceOk, Slot,
         PartFits, NameOk;
    var dev := st.devices[i];
    var k := Slot(dev.parts, p, 0).value;
    NotEmpty(b.hw, st.ids, st.devices, i);
    WithOk(b, st.ids, dev, p);
    ReplacedOk(b, st.ids, st.devices, i, With(dev, p, k));
    DistinctOf(b.hw, st.ids, st.devices);
    var c := DeviceFind(st.devices, st.curDev.value).value;
    FoundAfterReplacement(st.devices, i, With(dev, p, k), c);
    var longer := st.(devices := st.devices[i := With(dev, p, k)]);
    var current := CurrentAfterAdd(dev.parts, k, st.curPart);
    if st.curDev == Some(dev.id.key) {
      FindAt(st.devices, i);
      CurrentMoves(b.hw, st.ids, dev, p, st.curPart);
      Saved(b, longer.(curPart := current));
    } else {
      Saved(b, longer);
    }
  }

  lemma CurrentMoves(hw: Hardware, ids: seq<MtdId>, dev: Device, p: Part, current: nat)
    requires DeviceOk(hw, ids, dev) && |dev.parts| < MAX_PARTS && current < |dev.parts|
    requires Slot(dev.parts, p, 0).Some?
    ensures var k := Slot(dev.parts, p, 0).value;
            var r := With(dev, p, k);
            var c := CurrentAfterAdd(dev.parts, k, current);
            c < |r.parts| && r.parts[c] == dev.parts[current]
  {
    hide Slot, CurrentAfterAdd;
    AddTracksCurrent(dev.parts, p, current);
  }

  /** device_add of a device that is not listed yet. */
  lemma DeviceAddOk(b: Board, st: State, dev: Device)
    requires Sound(b, st) && DeviceOk(b.hw, st.ids, dev) && |dev.parts| <= MAX_PARTS
    requires DeviceFind(st.devices, dev.id.key).None?
    ensures var r := DeviceAdd(st, dev);
            Sound(b, r) && IndexOk(r) && SameCopies(r, st) && r.devices != []
  {
    hide Indexed, CurrentSave, IndexOk, TableOk, DeviceFind;
    var devices := st.devices + [dev];
    TableOkSnoc(b.hw, st.ids, st.devices, dev);
    DistinctOf(b.hw, st.ids, devices);
    assert Numbered(devices) by { NumberedSnoc(st.devices, dev); }
    if st.devices == [] {
      assert devices == [dev];
      FindAt(devices, 0);
      Saved(b, st.(devices := devices, curDev := Some(dev.id.key), curPart := 0));
    } else {
      var c := DeviceFind(st.devices, st.curDev.value).value;
      FindAt(devices, c);
      Saved(b, st.(devices := devices));
    }
  }

  lemma NumberedSnoc(devices: seq<Device>, dev: Device)
    requires Numbered(devices) && |dev.parts| <= MAX_PARTS
    ensures Numbered(devices + [dev])
  {
  }
}
