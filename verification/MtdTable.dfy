/**
  The partition lists as they are changed: adding and deleting keep them sorted and keep the
  current partition number on the same partition; everything the parser accepts is a sound table.
 */
module MtdTable {
  import opened TextNumbers
  import opened MtdGrammar
  import opened MtdPrinting
  import opened MtdTies
  import opened MtdRoundTrip

  // ---------------------------------------------------------------- the sorted list

  /** The scan stops where everything before is lower and the next entry, if any, is not. */
  lemma {:induction false} SlotMeaning(parts: seq<Part>, p: Part, i: nat)
    requires i <= |parts|
    requires forall j :: 0 <= j < i ==> parts[j].offset < p.offset
    ensures var r := Slot(parts, p, i);
            && (r.Some? ==> forall j :: 0 <= j < r.value ==> parts[j].offset < p.offset)
            && (r.Some? && r.value < |parts| ==>
               p.offset <= parts[r.value].offset && (p.offset == 0 ==> 0 < parts[r.value].offset))
            && (r.None? ==> p.offset == 0 && exists j :: 0 <= j < |parts| && parts[j].offset == 0)
    decreases |parts| - i
  {
    if i < |parts| && parts[i].offset < p.offset {
      SlotMeaning(parts, p, i + 1);
    }
  }

  /** part_sort_add refuses a partition exactly when it would be the second one at offset 0. */
  lemma RefusedIffSecondAtZero(parts: seq<Part>, p: Part)
    requires Sorted(parts)
    ensures SortInsert(parts, p).None? <==> p.offset == 0 && exists j :: 0 <= j < |parts| && parts[j].offset == 0
  {
    SlotMeaning(parts, p, 0);
    if p.offset == 0 && exists j :: 0 <= j < |parts| && parts[j].offset == 0 {
      var j :| 0 <= j < |parts| && parts[j].offset == 0;
      SortedAt(parts, 0, j);
    }
  }

  lemma SortedCut(parts: seq<Part>, p: Part, k: nat)
    requires k <= |parts| && Sorted(parts)
    requires forall j :: 0 <= j < k ==> parts[j].offset <= p.offset
    requires k < |parts| ==> p.offset <= parts[k].offset
    ensures Sorted(parts[..k] + [p] + parts[k..])
  {
    var r := parts[..k] + [p] + parts[k..];
    forall i, j | 0 <= i < j < |r|
      ensures r[i].offset <= r[j].offset
    {
      if k < j {
        SortedAt(parts, k, j - 1);
        if i < k {
          SortedAt(parts, i, j - 1);
        } else if k < i {
          SortedAt(parts, i - 1, j - 1);
        }
      } else if j < k {
        SortedAt(parts, i, j);
      }
    }
  }

  lemma OneAtZeroCut(parts: seq<Part>, p: Part, k: nat)
    requires k <= |parts| && OneAtZero(parts)
    requires forall j :: 0 <= j < k ==> parts[j].offset < p.offset
    requires k < |parts| ==> p.offset <= parts[k].offset && (p.offset == 0 ==> 0 < parts[k].offset)
    ensures OneAtZero(parts[..k] + [p] + parts[k..])
  {
    var r := parts[..k] + [p] + parts[k..];
    forall i | 1 <= i < |r|
      ensures 0 < r[i].offset
    {
      if i == k {
        assert parts[0].offset < p.offset;
      } else if k < i {
        assert r[i] == parts[i - 1];
      }
    }
  }

  lemma AllFitCut(hw: Hardware, id: MtdId, parts: seq<Part>, p: Part, k: nat)
    requires AllFit(hw, id, parts) && PartFits(hw, id, p) && NameOk(p) && k <= |parts|
    ensures AllFit(hw, id, parts[..k] + [p] + parts[k..])
  {
    hide PartFits, NameOk;
  }

  /** part_sort_add keeps the list sorted, with one partition at offset 0 at most. */
  lemma SortInsertKeeps(hw: Hardware, id: MtdId, parts: seq<Part>, p: Part)
    requires Sorted(parts) && OneAtZero(parts) && AllFit(hw, id, parts)
    requires PartFits(hw, id, p) && NameOk(p)
    requires SortInsert(parts, p).Some?
    ensures var r := SortInsert(parts, p).value;
            && Sorted(r) && OneAtZero(r) && AllFit(hw, id, r)
            && |r| == |parts| + 1
  {
    hide Sorted, OneAtZero, AllFit;
    var k := Slot(parts, p, 0).value;
    SlotMeaning(parts, p, 0);
    AllFitCut(hw, id, parts, p, k);
    SortedCut(parts, p, k);
    OneAtZeroCut(parts, p, k);
  }

  lemma {:induction false} InsertAllKeeps(hw: Hardware, id: MtdId, parts: seq<Part>, news: seq<Part>)
    requires Sorted(parts) && OneAtZero(parts) && AllFit(hw, id, parts) && AllFit(hw, id, news)
    requires InsertAll(parts, news).Some?
    ensures var r := InsertAll(parts, news).value;
            && Sorted(r) && OneAtZero(r) && AllFit(hw, id, r)
            && |r| == |parts| + |news|
    decreases |news|
  {
    if news != [] {
      hide Sorted, OneAtZero, SortInsert, PartFits, NameOk;
      SortInsertKeeps(hw, id, parts, news[0]);
      InsertAllKeeps(hw, id, SortInsert(parts, news[0]).value, news[1..]);
    }
  }

  // ---------------------------------------------------------------- the current partition number

  /** The current partition number is a u8. */
  const U8: nat := 256

  /** current_mtd_partnum after part_sort_add put `p` at `k` in the current device. */
  function CurrentAfterAdd(parts: seq<Part>, k: nat, current: nat): nat
    requires k <= |parts|
  {
    if current < |parts| && k < |parts| && parts[k].offset <= parts[current].offset
    then Wrap(current + 1, U8) else current
  }

  /** current_mtd_partnum after part_del removed partition `j` of the current device. */
  function CurrentAfterDel(parts: seq<Part>, j: nat, current: nat): nat
    requires j < |parts|
  {
    if current < |parts| then
      if j == current then 0
      else if parts[j].offset <= parts[current].offset then if current == 0 then U8 - 1 else current - 1
      else current
    else current
  }

  /** Adding a partition: the number names the same partition as before, also when offsets tie. */
  lemma AddTracksCurrent(parts: seq<Part>, p: Part, current: nat)
    requires Sorted(parts) && current < |parts| < U8
    requires SortInsert(parts, p).Some?
    ensures var k := Slot(parts, p, 0).value;
            var r := SortInsert(parts, p).value;
            && CurrentAfterAdd(parts, k, current) == (if k <= current then current + 1 else current)
            && r[CurrentAfterAdd(parts, k, current)] == parts[current]
  {
    var k := Slot(parts, p, 0).value;
    SlotMeaning(parts, p, 0);
    if k <= current {
      SortedAt(parts, k, current);
    } else if k < |parts| {
      assert parts[current].offset < p.offset <= parts[k].offset;
    }
  }

  /** Where the current partition is once partition `j` is gone. */
  function NewPosition(j: nat, current: nat): nat {
    if j < current then current - 1 else current
  }

  /**
    Deleting another partition: the number stays on the current partition, unless the deleted one
    comes later and starts at the same offset.
   */
  lemma DelTracksCurrent(parts: seq<Part>, j: nat, current: nat)
    requires Sorted(parts) && current < |parts| && j < |parts| && j != current && |parts| < U8
    ensures CurrentAfterDel(parts, j, current) == NewPosition(j, current)
            <==> !(current < j && parts[j].offset == parts[current].offset)
  {
    if j < current {
      SortedAt(parts, j, current);
    } else {
      SortedAt(parts, current, j);
    }
  }

  /** In the excepted case the number can even leave the list: two partitions at one offset suffice. */
  lemma TieLosesCurrent(parts: seq<Part>)
    requires |parts| == 2 && parts[0].offset == parts[1].offset
    ensures CurrentAfterDel(parts, 1, 0) == 255
  {
  }

  // ---------------------------------------------------------------- what the parser accepts

  predicate IdsSound(hw: Hardware, ids: seq<MtdId>) {
    forall i :: 0 <= i < |ids| ==> IdOk(hw, ids[i])
  }

  lemma ValidateFits(hw: Hardware, id: MtdId, p: Part)
    requires IdOk(hw, id) && p.size < TWO_64 && p.offset < TWO_64
    requires PartValidate(hw, id, p).Some?
    ensures var v := PartValidate(hw, id, p).value;
            && PartFits(hw, id, v)
            && v.offset == p.offset && v.name == p.name && v.autoName == p.autoName && v.ro == p.ro
            && (p.size != SIZE_REMAINING ==> v.size == p.size)
            && (p.size == SIZE_REMAINING ==> v.offset + v.size == id.size)
  {
    hide OnEraseBlocks;
    var size := if p.size == SIZE_REMAINING then Wrap(TWO_64 + id.size - Wrap(p.offset, TWO_64), TWO_64) else p.size;
    if p.size == SIZE_REMAINING && p.offset <= id.size {
      assert size == id.size - p.offset;
    }
    assert p.offset + size < 2 * TWO_64;
  }

  /** Exactly the partitions inside the chip and on erase blocks are valid: sums that wrap are not. */
  lemma ValidIff(hw: Hardware, id: MtdId, p: Part)
    requires IdOk(hw, id) && p.size < SIZE_REMAINING && p.offset < TWO_64
    ensures PartValidate(hw, id, p).Some? <==> PartFits(hw, id, p.(sectorSize := hw[id.key].eraseSize))
  {
    hide OnEraseBlocks;
    if PartValidate(hw, id, p).Some? {
      ValidateFits(hw, id, p);
    }
  }

  lemma {:induction false} PartsParseFits(hw: Hardware, id: MtdId, s: string, offset: nat, acc: seq<Part>)
    requires IdOk(hw, id) && AllFit(hw, id, acc) && offset < TWO_64
    requires PartsParse(hw, id, s, offset, acc).Ok?
    ensures AllFit(hw, id, PartsParse(hw, id, s, offset, acc).value)
    decreases |s|
  {
    if s != "" && s[0] != ';' {
      hide PartParse, PartFits, PartValidate, NameOk, AllFit, IdOk;
      var p := PartParse(s);
      ValidateFits(hw, id, Placed(p.value, offset));
      var v := PartValidate(hw, id, Placed(p.value, offset)).value;
      SameName(p.value, Placed(p.value, offset), v);
      AllFitSnoc(hw, id, acc, v);
      PartsParseFits(hw, id, p.rest, End(v), acc + [v]);
    }
  }

  lemma AllFitSnoc(hw: Hardware, id: MtdId, parts: seq<Part>, p: Part)
    requires AllFit(hw, id, parts) && PartFits(hw, id, p) && NameOk(p)
    ensures AllFit(hw, id, parts + [p])
  {
    hide PartFits, NameOk;
  }

  lemma SameName(p: Part, q: Part, v: Part)
    requires NameOk(p) && p.name == q.name == v.name && p.autoName == q.autoName == v.autoName
    ensures NameOk(v)
  {
  }

  /** Every device the parser returns is one that the round trip speaks about. */
  lemma DeviceParseSound(hw: Hardware, ids: seq<MtdId>, devices: seq<Device>, s: string)
    requires IdsSound(hw, ids)
    requires DeviceParse(hw, ids, devices, s).Ok?
    ensures DeviceOk(hw, ids, DeviceParse(hw, ids, devices, s).value)
  {
    hide PartsParse, InsertAll, AllFit, IdOk, Sorted, OneAtZero;
    var i := Find(s, ':').value;
    var id := IdByName(ids, s[..i]).value;
    NextFreeFits(devices, id.key);
    FitsNone(hw, id);
    var parts := PartsParse(hw, id, s[i + 1..], NextFree(devices, id.key), []);
    PartsParseFits(hw, id, s[i + 1..], NextFree(devices, id.key), []);
    InsertAllKeeps(hw, id, [], parts.value);
  }

  lemma NextFreeFits(devices: seq<Device>, key: DevKey)
    ensures NextFree(devices, key) < TWO_64
  {
  }

  lemma FitsNone(hw: Hardware, id: MtdId)
    ensures AllFit(hw, id, []) && Sorted([]) && OneAtZero([])
  {
  }

  lemma {:induction false} DevicesParseSound(hw: Hardware, ids: seq<MtdId>, s: string, acc: seq<Device>)
    requires IdsSound(hw, ids) && TableOk(hw, ids, acc)
    requires DevicesParse(hw, ids, s, acc).Some?
    ensures TableOk(hw, ids, DevicesParse(hw, ids, s, acc).value)
    ensures |acc| <= |DevicesParse(hw, ids, s, acc).value|
    ensures s != "" ==> |acc| < |DevicesParse(hw, ids, s, acc).value|
    decreases |s|
  {
    if s != "" {
      hide DeviceParse, DeviceOk;
      var r := DeviceParse(hw, ids, acc, s);
      DeviceParseSound(hw, ids, acc, s);
      TableOkSnoc(hw, ids, acc, r.value);
      DevicesParseSound(hw, ids, r.rest, acc + [r.value]);
    }
  }

  lemma TableOkSnoc(hw: Hardware, ids: seq<MtdId>, devices: seq<Device>, dev: Device)
    requires TableOk(hw, ids, devices) && DeviceOk(hw, ids, dev)
    requires DeviceFind(devices, dev.id.key).None?
    ensures TableOk(hw, ids, devices + [dev])
  {
    hide DeviceOk;
  }

  /** A table that parses is sound and not empty. */
  lemma TableParseSound(hw: Hardware, ids: seq<MtdId>, text: string)
    requires IdsSound(hw, ids) && TableParse(hw, ids, text).Some?
    ensures TableOk(hw, ids, TableParse(hw, ids, text).value)
    ensures TableParse(hw, ids, text).value != []
  {
    hide DevicesParse, DeviceOk;
    DevicesParseSound(hw, ids, text[|PREFIX|..], []);
  }
}
