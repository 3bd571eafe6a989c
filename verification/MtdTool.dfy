/**
  boot/rpi/cmd/mtdparts.c as it runs: the lists, the current partition and the copies of the
  variables are fields that the methods change, the parsers walk through their text, the printer
  fills a buffer of limited length.  Every method is proved to do what the functions of MtdGrammar
  and MtdCommands say.
 */
module MtdTool {
  import opened TextNumbers
  import opened MtdGrammar
  import opened MtdPrinting
  import opened MtdTies
  import opened MtdRoundTrip
  import opened MtdTable
  import opened MtdCommands
  import opened MtdInvariant
  import opened MtdRuns
  import opened MtdSteps

  // ---------------------------------------------------------------- erase blocks

  /** One scan of part_validate_eraseblock: does an erase block start at `x`, and where does the scan end? */
  method ScanRegions(regions: seq<EraseRegion>, x: nat) returns (found: bool, start: nat)
    requires regions != []
    ensures found == BlockStart(regions, x)
    ensures !found ==> start == ScanEnd(regions)
  {
    start := 0;
    var i := 0;
    while i < |regions|
      invariant i <= |regions|
      invariant forall k :: 0 <= k < i ==> !InRegion(regions[k], x)
      invariant 0 < i ==> start == regions[i - 1].offset + Times(regions[i - 1].numBlocks, regions[i - 1].eraseSize)
    {
      start := regions[i].offset;
      var j := 0;
      while j < regions[i].numBlocks
        invariant j <= regions[i].numBlocks
        invariant start == regions[i].offset + Times(j, regions[i].eraseSize)
        invariant forall k :: 0 <= k < j ==> x != regions[i].offset + Times(k, regions[i].eraseSize)
      {
        if x == start {
          assert InRegion(regions[i], x);
          return true, start;
        }
        start := start + regions[i].eraseSize;
        TimesNext(j, regions[i].eraseSize);
        j := j + 1;
      }
      i := i + 1;
    }
    found := false;
  }

  lemma TimesNext(j: nat, n: nat)
    ensures Times(j + 1, n) == Times(j, n) + n
  {
  }

  method ValidateEraseBlocks(m: Mtd, offset: nat, size: nat) returns (ok: bool)
    ensures ok == OnEraseBlocks(m, offset, size)
  {
    if m.regions == [] {
      return offset % m.eraseSize == 0 && size % m.eraseSize == 0;
    }
    var found, _ := ScanRegions(m.regions, offset);
    if !found {
      return false;
    }
    var end, start := ScanRegions(m.regions, Add64(offset, size));
    return end || Add64(offset, size) == start;
  }

  method Validate(hw: Hardware, id: MtdId, part: Part) returns (r: Option<Part>)
    ensures r == PartValidate(hw, id, part)
  {
    var size := part.size;
    if part.size == SIZE_REMAINING {
      size := Wrap(TWO_64 + id.size - Wrap(part.offset, TWO_64), TWO_64);
    }
    if part.offset > id.size || Add64(part.offset, size) <= part.offset || Add64(part.offset, size) > id.size {
      return None;
    }
    if id.key !in hw {
      return None;
    }
    var ok := ValidateEraseBlocks(hw[id.key], part.offset, size);
    if !ok {
      return None;
    }
    return Some(part.(size := size, sectorSize := hw[id.key].eraseSize));
  }

  // ---------------------------------------------------------------- parsing

  /** The name in parentheses, if there is one. */
  method ParseName(text: string) returns (r: Parsed<Option<string>>)
    ensures r == ReadName(text)
  {
    var p := text;
    if At(p, 0) != '(' {
      return Ok(None, p);
    }
    p := p[1..];
    var close := Find(p, ')');
    if close.None? || close.value == 0 {
      return Bad;
    }
    return Ok(Some(p[..close.value]), p[close.value + 1..]);
  }

  /** The end of a partition: a comma is consumed, the end of the device is not. */
  method ParseEnd(text: string, size: nat) returns (r: Parsed<()>)
    ensures r == ReadEnd(text, size)
  {
    var p := text;
    if At(p, 0) == ',' {
      if size == SIZE_REMAINING {
        return Bad;
      }
      p := p[1..];
    } else if p != "" && p[0] != ';' {
      return Bad;
    }
    return Ok((), p);
  }

  /** part_parse: a pointer walks over the description of one partition. */
  method ParsePart(partdef: string) returns (r: Parsed<Part>)
    ensures r == PartParse(partdef)
  {
    hide MemsizeParse, AutoName, ReadName, ReadEnd;
    var p := partdef;
    var size: nat;
    if At(p, 0) == '-' {
      size := SIZE_REMAINING;
      p := p[1..];
    } else {
      var t := MemsizeParse(p);
      size, p := t.0, t.1;
      if size < MIN_PART_SIZE {
        return Bad;
      }
    }
    var offset := OFFSET_NOT_SPECIFIED;
    if At(p, 0) == '@' {
      var t := MemsizeParse(p[1..]);
      offset, p := t.0, t.1;
    }
    var name := ParseName(p);
    if name.Bad? {
      return Bad;
    }
    p := name.rest;
    var ro := false;
    if StartsWith(p, "ro") {
      ro := true;
      p := p[2..];
    }
    var end := ParseEnd(p, size);
    if end.Bad? {
      return Bad;
    }
    if name.value.Some? {
      return Ok(Part(size, offset, name.value.value, false, ro, 0), end.rest);
    }
    return Ok(Part(size, offset, AutoName(size, offset), true, ro, 0), end.rest);
  }

  /** The scan of part_sort_add. */
  method FindSlot(parts: seq<Part>, p: Part) returns (r: Option<nat>)
    ensures r == Slot(parts, p, 0)
  {
    var i := 0;
    while i < |parts|
      invariant i <= |parts|
      invariant Slot(parts, p, 0) == Slot(parts, p, i)
    {
      if p.offset == parts[i].offset && parts[i].offset == 0 {
        return None;
      }
      if p.offset <= parts[i].offset {
        return Some(i);
      }
      i := i + 1;
    }
    return Some(i);
  }

  /** The partitions of a new device are moved one by one from a temporary list into its sorted list. */
  method SortIn(news: seq<Part>) returns (r: Option<seq<Part>>)
    ensures r == InsertAll([], news)
  {
    var sorted: seq<Part> := [];
    var left := news;
    while left != []
      invariant InsertAll([], news) == InsertAll(sorted, left)
      decreases |left|
    {
      var slot := FindSlot(sorted, left[0]);
      if slot.None? {
        return None;
      }
      sorted := sorted[..slot.value] + [left[0]] + sorted[slot.value..];
      left := left[1..];
    }
    return Some(sorted);
  }

  method FindId(ids: seq<MtdId>, name: string) returns (r: Option<MtdId>)
    ensures r == IdByName(ids, name)
  {
    var i := 0;
    while i < |ids|
      invariant i <= |ids|
      invariant IdByName(ids, name) == IdByName(ids[i..], name)
    {
      if ids[i].name == name {
        return Some(ids[i]);
      }
      i := i + 1;
    }
    return None;
  }

  method FindDevice(devices: seq<Device>, key: DevKey) returns (r: Option<nat>)
    ensures r == DeviceFind(devices, key)
  {
    var i := 0;
    while i < |devices|
      invariant i <= |devices|
      invariant var f := DeviceFind(devices[i..], key);
                DeviceFind(devices, key) == if f.Some? then Some(i + f.value) else None
    {
      if devices[i].id.key == key {
        return Some(i);
      }
      assert devices[i..][1..] == devices[i + 1..];
      i := i + 1;
    }
    return None;
  }

  /** The partition loop of device_parse. */
  method ParseParts(hw: Hardware, id: MtdId, text: string, first: nat) returns (r: Parsed<seq<Part>>)
    ensures r == PartsParse(hw, id, text, first, [])
  {
    var p, offset := text, first;
    var parts: seq<Part> := [];
    while p != "" && p[0] != ';'
      invariant PartsParse(hw, id, text, first, []) == PartsParse(hw, id, p, offset, parts)
      decreases |p|
    {
      var part := ParsePart(p);
      if part.Bad? {
        return Bad;
      }
      var valid := Validate(hw, id, Placed(part.value, offset));
      if valid.None? {
        return Bad;
      }
      parts := parts + [valid.value];
      p, offset := part.rest, End(valid.value);
    }
    return Ok(parts, p);
  }

  method ParseDevice(hw: Hardware, ids: seq<MtdId>, devices: seq<Device>, text: string) returns (r: Parsed<Device>)
    ensures r == DeviceParse(hw, ids, devices, text)
  {
    var colon := Find(text, ':');
    if colon.None? {
      return Bad;
    }
    var id := FindId(ids, text[..colon.value]);
    if id.None? {
      return Bad;
    }
    var offset := 0;
    var known := FindDevice(devices, id.value.key);
    if known.Some? && devices[known.value].parts != [] {
      offset := End(devices[known.value].parts[|devices[known.value].parts| - 1]);
    }
    var parts := ParseParts(hw, id.value, text[colon.value + 1..], offset);
    if parts.Bad? || parts.value == [] {
      return Bad;
    }
    var sorted := SortIn(parts.value);
    if sorted.None? {
      return Bad;
    }
    return Ok(Device(id.value, sorted.value, |sorted.value|), if parts.rest == "" then "" else parts.rest[1..]);
  }

  /** The device loop of parse_mtdparts. */
  method ParseDevices(hw: Hardware, ids: seq<MtdId>, text: string) returns (r: Option<seq<Device>>)
    ensures r == TableParse(hw, ids, text)
  {
    if !StartsWith(text, PREFIX) {
      return None;
    }
    var p := text[|PREFIX|..];
    if p == "" {
      return None;
    }
    var devices: seq<Device> := [];
    while p != ""
      invariant TableParse(hw, ids, text) == DevicesParse(hw, ids, p, devices)
      decreases |p|
    {
      var dev := ParseDevice(hw, ids, devices, p);
      if dev.Bad? {
        return None;
      }
      var known := FindDevice(devices, dev.value.id.key);
      if known.Some? {
        return None;
      }
      devices := devices + [dev.value];
      p := dev.rest;
    }
    return Some(devices);
  }

  // ---------------------------------------------------------------- printing

  /** Appends a piece to the buffer unless it is too long for what is left. */
  method Emit(buf: string, maxlen: nat, piece: string) returns (ok: bool, out: string, room: nat)
    ensures ok == (|piece| <= maxlen)
    ensures ok ==> out == buf + piece && room == maxlen - |piece|
    ensures !ok ==> out == buf && room == maxlen
  {
    if |piece| > maxlen {
      return false, buf, maxlen;
    }
    return true, buf + piece, maxlen - |piece|;
  }

  /** One partition: size, offset, name and flag, each checked against the room left. */
  method EmitPart(buf: string, maxlen: nat, part: Part, expected: nat) returns (ok: bool, out: string, room: nat)
    ensures ok == (|PartText(part, expected)| <= maxlen)
    ensures ok ==> out == buf + PartText(part, expected) && room == maxlen - |PartText(part, expected)|
  {
    hide MemsizeFormat;
    ok, out, room := Emit(buf, maxlen, MemsizeFormat(part.size));
    if !ok {
      return;
    }
    ghost var text := MemsizeFormat(part.size);
    if part.offset != expected {
      ok, out, room := Emit(out, room, "@" + MemsizeFormat(part.offset));
      if !ok {
        return;
      }
    }
    text := text + OffsetText(part, expected);
    AppendThree(buf, MemsizeFormat(part.size), OffsetText(part, expected));
    if !part.autoName {
      ok, out, room := Emit(out, room, "(" + part.name + ")");
      if !ok {
        return;
      }
    }
    AppendThree(buf, text, NameText(part));
    text := text + NameText(part);
    if part.ro {
      ok, out, room := Emit(out, room, "ro");
      if !ok {
        return;
      }
    }
    AppendThree(buf, text, RoText(part));
  }

  lemma AppendThree(a: string, b: string, c: string)
    ensures a + b + c == a + (b + c)
    ensures a + [] == a && b + [] == b
  {
  }

  lemma NextPart(parts: seq<Part>, i: nat, expected: nat, done: string)
    requires i < |parts|
    ensures done + PartsText(parts[i..], expected)
            == done + PartText(parts[i], expected) + (if i + 1 < |parts| then "," else "")
               + PartsText(parts[i + 1..], End(parts[i]))
    ensures |PartText(parts[i], expected)| + (if i + 1 < |parts| then 1 else 0) <= |PartsText(parts[i..], expected)|
  {
    hide PartText;
    assert parts[i..][1..] == parts[i + 1..];
    if i + 1 < |parts| {
      AppendThree(done, PartText(parts[i], expected), ",");
      AppendThree(done, PartText(parts[i], expected) + ",", PartsText(parts[i + 1..], End(parts[i])));
    }
  }

  /** The partition loop of generate_mtdparts. */
  method EmitParts(buf: string, maxlen: nat, dev: Device) returns (ok: bool, out: string, room: nat)
    requires dev.numParts == |dev.parts|
    ensures ok == (|PartsText(dev.parts, 0)| <= maxlen)
    ensures ok ==> out == buf + PartsText(dev.parts, 0) && room == maxlen - |PartsText(dev.parts, 0)|
  {
    hide PartText, PartsText;
    out, room := buf, maxlen;
    ghost var whole, done := PartsText(dev.parts, 0), "";
    var expected, count := 0, 0;
    AppendThree(buf, done, done);
    assert dev.parts[0..] == dev.parts;
    AppendNone(whole);
    while count < |dev.parts|
      invariant count <= |dev.parts|
      invariant out == buf + done && room == maxlen - |done| && |done| <= maxlen
      invariant done + PartsText(dev.parts[count..], expected) == whole
      decreases |dev.parts| - count
    {
      var part := dev.parts[count];
      NextPart(dev.parts, count, expected, done);
      count := count + 1;
      ok, out, room := EmitPart(out, room, part, expected);
      if !ok {
        return;
      }
      AppendThree(buf, done, PartText(part, expected));
      done := done + PartText(part, expected);
      if dev.numParts > count {
        ok, out, room := Emit(out, room, ",");
        if !ok {
          return;
        }
        AppendThree(buf, done, ",");
        done := done + ",";
      } else {
        AppendNone(done);
      }
      expected := End(part);
    }
    NoPartsText(expected);
    assert dev.parts[count..] == [];
    AppendNone(done);
    ok := true;
  }

  lemma AppendNone(a: string)
    ensures a + "" == a && "" + a == a
  {
  }

  lemma NoPartsText(expected: nat)
    ensures PartsText([], expected) == "" && DevicesText([]) == ""
  {
  }

  lemma NextDevice(devices: seq<Device>, i: nat, done: string)
    requires i < |devices|
    ensures var d := devices[i];
            && done + DevicesText(devices[i..])
               == done + (d.id.name + ":") + PartsText(d.parts, 0) + (if i + 1 < |devices| then ";" else "")
                  + DevicesText(devices[i + 1..])
            && |d.id.name| + 1 + |PartsText(d.parts, 0)| + (if i + 1 < |devices| then 1 else 0)
               <= |DevicesText(devices[i..])|
  {
    hide PartsText;
    var d := devices[i];
    assert devices[i..][1..] == devices[i + 1..];
    AppendThree(done, d.id.name + ":", PartsText(d.parts, 0));
    if i + 1 < |devices| {
      AppendThree(done, DeviceText(d), ";");
      AppendThree(done, DeviceText(d) + ";", DevicesText(devices[i + 1..]));
    } else {
      NoPartsText(0);
    }
  }

  /** generate_mtdparts: the text, or nothing when it is too long for a buffer of `buflen` bytes. */
  method Generate(devices: seq<Device>, buflen: nat) returns (ok: bool, text: string)
    requires 0 < buflen
    requires forall i :: 0 <= i < |devices| ==> devices[i].numParts == |devices[i].parts|
    ensures ok == (devices == [] || |DevicesText(devices)| <= buflen - 1)
    ensures ok ==> text == TableText(devices)
    ensures !ok ==> text == ""
  {
    hide PartsText, DevicesText;
    if devices == [] {
      return true, "";
    }
    var buf, maxlen := PREFIX, buflen - 1;
    ghost var whole, done := DevicesText(devices), "";
    AppendNone(PREFIX);
    AppendNone(whole);
    assert devices[0..] == devices;
    var i := 0;
    while i < |devices|
      invariant i <= |devices|
      invariant buf == PREFIX + done && 0 <= maxlen == buflen - 1 - |done|
      invariant done + DevicesText(devices[i..]) == whole
    {
      var dev := devices[i];
      NextDevice(devices, i, done);
      ok, buf, maxlen := Emit(buf, maxlen, dev.id.name + ":");
      if !ok {
        return false, "";
      }
      AppendThree(PREFIX, done, dev.id.name + ":");
      done := done + (dev.id.name + ":");
      ok, buf, maxlen := EmitParts(buf, maxlen, dev);
      if !ok {
        return false, "";
      }
      AppendThree(PREFIX, done, PartsText(dev.parts, 0));
      done := done + PartsText(dev.parts, 0);
      if i + 1 < |devices| {
        ok, buf, maxlen := Emit(buf, maxlen, ";");
        if !ok {
          return false, "";
        }
        AppendThree(PREFIX, done, ";");
        done := done + ";";
      } else {
        AppendNone(done);
      }
      i := i + 1;
    }
    assert devices[i..] == [];
    NoPartsText(0);
    AppendNone(done);
    return true, buf;
  }

  // ---------------------------------------------------------------- ids and names

  /** parse_mtdids; on failure it may leave a part of the list behind. */
  method ParseIds(hw: Hardware, text: string) returns (r: IdsResult)
    ensures r == MtdidsParse(hw, text)
  {
    if text == "" {
      return IdsFail([]);
    }
    var p := text;
    var ids: seq<MtdId> := [];
    while true
      invariant MtdidsParse(hw, text) == IdsParse(hw, p, ids)
      decreases |p|
    {
      var dev := DevIdParse(p);
      if dev.Bad? || At(dev.rest, 0) != '=' {
        return IdsFail([]);
      }
      if dev.value !in hw {
        return IdsFail(ids);
      }
      p := dev.rest[1..];
      var comma := Find(p, ',');
      var name := if comma.Some? then p[..comma.value] else p;
      var double := false;
      for i := 0 to |ids|
        invariant double == exists k :: 0 <= k < i && ids[k].key == dev.value
      {
        if ids[i].key == dev.value {
          double := true;
        }
      }
      if double {
        return IdsFail([]);
      }
      ids := ids + [MtdId(dev.value, hw[dev.value].size, name)];
      if comma.None? {
        return IdsOk(ids);
      }
      p := p[comma.value + 1..];
      if p == "" {
        return IdsOk(ids);
      }
    }
  }

  /** find_dev_and_part */
  method FindDevAndPart(devices: seq<Device>, id: string) returns (r: Option<(nat, nat)>)
    ensures r == FindPart(devices, id)
  {
    var i := 0;
    while i < |devices|
      invariant i <= |devices|
      invariant FindName(devices, id, 0, 0) == FindName(devices, id, i, 0)
    {
      var j := 0;
      while j < |devices[i].parts|
        invariant j <= |devices[i].parts|
        invariant FindName(devices, id, 0, 0) == FindName(devices, id, i, j)
      {
        if devices[i].parts[j].name == id {
          return Some((i, j));
        }
        j := j + 1;
      }
      i := i + 1;
    }
    var dev := DevIdParse(id);
    if dev.Bad? {
      return None;
    }
    var p := dev.rest;
    if At(p, 0) != ',' || p[1..] == "" {
      return None;
    }
    var (n, rest) := StrToU(p[1..], 0, U8);
    if rest != "" {
      return None;
    }
    var known := FindDevice(devices, dev.value);
    if known.None? {
      return None;
    }
    var d := devices[known.value];
    if n < d.numParts && n < |d.parts| {
      return Some((known.value, n));
    }
    return None;
  }

  // ---------------------------------------------------------------- the lists and the variables

  class Mtdparts {
    const board: Board
    var env: Env
    var ids: seq<MtdId>
    var devices: seq<Device>
    var currentDev: Option<DevKey>
    var currentPart: nat
    var lastIds: string
    var lastParts: string
    var lastPartition: string
    var useDefaults: bool

    function Model(): State
      reads this
    {
      State(env, ids, devices, currentDev, currentPart, lastIds, lastParts, lastPartition, useDefaults)
    }

    constructor (board: Board, env: Env)
      ensures this.board == board && Model() == Boot(env)
    {
      this.board := board;
      this.env := env;
      ids, devices := [], [];
      currentDev, currentPart := None, 0;
      lastIds, lastParts, lastPartition := "", "", "";
      useDefaults := true;
    }

    /** index_partitions: counts the partitions of the devices before the current one. */
    method IndexPartitions()
      modifies this`env
      ensures Model() == Indexed(old(Model()))
    {
      if currentDev.None? {
        env := env.(mtddevnum := None, mtddevname := None);
        return;
      }
      var key := currentDev.value;
      var num: nat, i := 0, 0;
      while i < |devices| && devices[i].id.key != key
        invariant i <= |devices| && env == old(env)
        invariant DevNum(devices, key, 0, 0) == DevNum(devices, key, num, i)
        decreases |devices| - i
      {
        num := Wrap(num + devices[i].numParts, U16);
        i := i + 1;
      }
      if i < |devices| {
        env := env.(mtddevnum := Some(Wrap(num + currentPart, U16)));
      }
      var known := FindDevice(devices, key);
      if known.Some? && currentPart < devices[known.value].numParts && currentPart < |devices[known.value].parts| {
        env := env.(mtddevname := Some(devices[known.value].parts[currentPart].name));
      } else {
        env := env.(mtddevname := None);
      }
    }

    method SaveCurrent()
      modifies this`env, this`lastPartition
      ensures Model() == CurrentSave(old(Model()))
    {
      hide PartitionText, Cut, Indexed;
      if currentDev.Some? {
        var text := PartitionText(currentDev.value, currentPart);
        env := env.(partition := Some(text));
        lastPartition := Cut(text, PARTITION_MAXLEN);
      } else {
        env := env.(partition := None);
        lastPartition := "";
      }
      IndexPartitions();
    }

    method InitDevices()
      modifies this
      ensures Model() == DevicesInit(old(Model()))
    {
      hide CurrentSave;
      lastParts := "";
      currentDev := None;
      SaveCurrent();
      devices := [];
    }

    method DeleteDevice(i: nat)
      requires i < |devices|
      modifies this
      ensures Model() == DeviceDel(old(Model()), i)
    {
      hide CurrentSave, Indexed;
      var key := devices[i].id.key;
      devices := devices[..i] + devices[i + 1..];
      if currentDev == Some(key) {
        if devices == [] {
          currentDev := None;
        } else {
          currentDev := Some(devices[0].id.key);
          currentPart := 0;
        }
        SaveCurrent();
      } else {
        IndexPartitions();
      }
    }

    method DeletePart(i: nat, j: nat)
      requires i < |devices| && j < |devices[i].parts|
      modifies this
      ensures Model() == PartDel(old(Model()), i, j)
    {
      hide CurrentSave, Indexed, DeviceDel;
      var dev := devices[i];
      if dev.numParts == 1 {
        DeleteDevice(i);
        return;
      }
      var saveNeeded := false;
      if currentDev == Some(dev.id.key) && currentPart < |dev.parts| {
        if currentPart == j {
          currentPart := 0;
        } else if dev.parts[j].offset <= dev.parts[currentPart].offset {
          currentPart := if currentPart == 0 then U8 - 1 else currentPart - 1;
        }
        saveNeeded := true;
      }
      devices := devices[i := Without(dev, j)];
      if saveNeeded {
        SaveCurrent();
      } else {
        IndexPartitions();
      }
    }

    /** part_sort_add to a listed device. */
    method AddSorted(i: nat, p: Part) returns (ok: bool)
      requires i < |devices|
      modifies this
      ensures ok == SortAdd(old(Model()), i, p).Some?
      ensures Model() == if ok then SortAdd(old(Model()), i, p).value else old(Model())
    {
      hide CurrentSave, Indexed;
      var dev := devices[i];
      var slot := FindSlot(dev.parts, p);
      if slot.None? {
        return false;
      }
      var k := slot.value;
      devices := devices[i := With(dev, p, k)];
      if currentDev == Some(dev.id.key) && currentPart < |dev.parts| && k < |dev.parts|
         && dev.parts[k].offset <= dev.parts[currentPart].offset {
        currentPart := Wrap(currentPart + 1, U8);
        SaveCurrent();
      } else {
        IndexPartitions();
      }
      ok := true;
    }

    method AddDevice(dev: Device)
      modifies this
      ensures Model() == DeviceAdd(old(Model()), dev)
    {
      hide CurrentSave, Indexed;
      var first := devices == [];
      if first {
        currentDev, currentPart := Some(dev.id.key), 0;
      }
      devices := devices + [dev];
      if first {
        SaveCurrent();
      } else {
        IndexPartitions();
      }
    }

    /** The counts that generate_mtdparts compares with. */
    predicate Counted()
      reads this
    {
      forall i :: 0 <= i < |devices| ==> devices[i].numParts == |devices[i].parts|
    }

    method SaveGenerated() returns (ok: bool)
      requires Counted()
      modifies this`lastParts, this`env
      ensures (Model(), ok) == GenerateSave(old(Model()))
    {
      hide DevicesText;
      ok, lastParts := Generate(devices, MTDPARTS_MAXLEN);
      if lastParts != "" && ok {
        env := env.(mtdparts := Some(lastParts));
      } else {
        env := env.(mtdparts := None);
      }
    }

    method Parse(parts: string) returns (ok: bool)
      modifies this
      ensures (Model(), ok) == ParseTable(board, old(Model()), parts)
    {
      hide CurrentSave, TableParse;
      SaveFrame(Model().(lastParts := "", curDev := None));
      InitDevices();
      var parsed := ParseDevices(board.hw, ids, parts);
      if parsed.None? {
        return false;
      }
      devices := parsed.value;
      lastParts := parts;
      currentDev, currentPart := if devices == [] then None else Some(devices[0].id.key), 0;
      SaveCurrent();
      ok := true;
    }

    method ChooseCurrent(wanted: string)
      modifies this
      ensures Model() == SelectCurrent(old(Model()), wanted)
    {
      hide CurrentSave, FindPart;
      if wanted != "" && wanted != lastPartition {
        var found := FindDevAndPart(devices, wanted);
        if found.Some? {
          currentDev, currentPart := Some(devices[found.value.0].id.key), found.value.1;
          SaveCurrent();
        }
      } else if env.partition.None? {
        SaveCurrent();
      }
    }

    /** The ids are parsed unless they are those parsed last. */
    method InitMtdids(text: string) returns (ok: bool)
      modifies this
      ensures (Model(), ok) == InitIds(board, old(Model()), text)
    {
      hide DevicesInit, MtdidsParse;
      if lastIds != "" && lastIds == text {
        return true;
      }
      lastIds := "";
      var parsed := ParseIds(board.hw, text);
      ids := parsed.ids;
      if parsed.IdsFail? {
        InitDevices();
        return false;
      }
      lastIds := text;
      ok := true;
    }

    /** The table is parsed unless text and ids are as they were; then the current partition is chosen. */
    method InitMtdparts(parts: Option<string>, idsChanged: bool, wanted: string) returns (ok: bool)
      modifies this
      ensures (Model(), ok) == InitParts(board, old(Model()), parts, idsChanged, wanted)
    {
      hide DevicesInit, ParseTable, SelectCurrent;
      if parts.None? {
        if lastParts != "" {
          InitDevices();
        }
        return true;
      }
      if lastParts == "" || lastParts != parts.value || idsChanged {
        ok := Parse(parts.value);
        if !ok {
          return;
        }
      }
      ChooseCurrent(wanted);
      ok := true;
    }

    /** mtdparts_init */
    method InitTable() returns (ok: bool)
      modifies this
      ensures (Model(), ok) == Init(board, old(Model()))
    {
      hide InitIds, InitParts, Cut;
      var wanted := if env.partition.Some? then Cut(env.partition.value, PARTITION_MAXLEN) else "";
      if env.mtdids.None? {
        if board.mtdidsDefault.None? {
          return false;
        }
        env := env.(mtdids := board.mtdidsDefault);
      }
      var text := env.mtdids.value;
      if |text| > MTDIDS_MAXLEN - 1 {
        return false;
      }
      if env.mtdparts.None? && board.mtdpartsDefault.Some? && useDefaults {
        env := env.(mtdparts := board.mtdpartsDefault);
        useDefaults := false;
      }
      var parts := env.mtdparts;
      if parts.Some? && |parts.value| > MTDPARTS_MAXLEN - 1 {
        return false;
      }
      var idsChanged := lastIds == "" || lastIds != text;
      ok := InitMtdids(text);
      if ok {
        ok := InitMtdparts(parts, idsChanged, wanted);
      }
    }

    /** What every command keeps. */
    predicate Valid()
      reads this
    {
      Inv(board, Model())
    }

    lemma CountedIfSound()
      requires Sound(board, Model())
      ensures Counted()
    {
      CountsOk(board.hw, ids, devices);
    }

    /** Puts a parsed device into the table: its first partition, or all of it if it is not listed. */
    method MergeDevice(dev: Device) returns (ok: bool)
      requires dev.parts != []
      modifies this
      ensures ok == Merge(board, old(Model()), dev).Some?
      ensures Model() == if ok then Merge(board, old(Model()), dev).value else Indexed(old(Model()))
    {
      hide DeviceAdd, SortAdd, PartValidate, Indexed;
      var known := FindDevice(devices, dev.id.key);
      if known.None? {
        AddDevice(dev);
        return true;
      }
      var valid := Validate(board.hw, devices[known.value].id, dev.parts[0]);
      if valid.None? {
        IndexPartitions();
        return false;
      }
      ok := AddSorted(known.value, valid.value);
      if !ok {
        IndexPartitions();
      }
    }

    /** `mtdparts add`, after mtdparts_init */
    method AddCommand(devArg: string, size: string, name: string, ro: string) returns (ok: bool)
      requires Valid() && lastIds != "" && RoomToAdd(board, Model(), devArg, size, name, ro)
      modifies this
      ensures (Model(), ok) == Add(board, old(Model()), devArg, size, name, ro) && Valid()
    {
      hide DeviceParse, AddText, AddLength, GenerateSave, Merge, Indexed, DevIdParse, Inv, Sound, RoomFor;
      AddOk(board, Model(), devArg, size, name, ro);
      var dev := DevIdParse(devArg);
      if dev.Bad? {
        return false;
      }
      var id := IdByKey(ids, dev.value);
      if id.None? || AddLength(id.value, size, name, ro) >= PART_ADD_DESC_MAXLEN {
        return false;
      }
      var text := AddText(id.value, size, name, ro);
      var parsed := ParseDevice(board.hw, ids, devices, text);
      if parsed.Bad? {
        return false;
      }
      ghost var before := Model();
      ok := MergeDevice(parsed.value);
      if !ok {
        return;
      }
      MergedSound(board, before, id.value, size, name, ro);
      CountedIfSound();
      ok := SaveGenerated();
    }

    /** `mtdparts del`, after mtdparts_init */
    method DelCommand(id: string) returns (ok: bool)
      requires Valid()
      modifies this
      ensures (Model(), ok) == Del(old(Model()), id)
      ensures Valid() <==> !DelFallsOff(old(Model()), id)
    {
      hide FindPart, PartDel, GenerateSave, Inv, FallsOff, Sound, TableOk;
      DelOk(board, Model(), id);
      var found := FindDevAndPart(devices, id);
      if found.None? {
        return false;
      }
      InvSound(board, Model());
      PartDelOk(board, Model(), found.value.0, found.value.1);
      DeletePart(found.value.0, found.value.1);
      CountsOk(board.hw, ids, devices);
      ok := SaveGenerated();
    }

    /** `chpart`, after mtdparts_init */
    method ChPartCommand(id: string) returns (ok: bool)
      requires Valid()
      modifies this
      ensures (Model(), ok) == ChPart(old(Model()), id) && Valid()
    {
      hide FindPart, CurrentSave, Inv;
      ChPartOk(board, Model(), id);
      var found := FindDevAndPart(devices, id);
      if found.None? {
        return false;
      }
      currentDev, currentPart := Some(devices[found.value.0].id.key), found.value.1;
      SaveCurrent();
      ok := true;
    }

    /** do_mtdparts and do_chpart: every command does what `Step` says and keeps the table valid. */
    method Execute(cmd: Command) returns (ok: bool)
      requires Valid() && Legal(board, Model(), cmd)
      modifies this
      ensures (Model(), ok) == Step(board, old(Model()), cmd) && Valid()
    {
      hide Init, Add, Del, ChPart, DevicesInit, Inv, FindPart, RoomToAdd, DelFallsOff;
      StepKeepsInv(board, Model(), cmd);
      match cmd
      case SetVar(v, value) =>
        env := SetEnv(Model(), v, value).env;
        ok := true;
      case Default =>
        env := env.(mtdids := None, mtdparts := None, partition := None);
        useDefaults := true;
        var _ := InitTable();
        ok := true;
      case DelAll =>
        var _ := InitTable();
        env := env.(mtdparts := None);
        InitDevices();
        ok := true;
      case List =>
        ok := InitTable();
      case AddPart(dev, size, name, ro) =>
        InitKeepsInv(board, Model());
        ok := InitTable();
        if ok {
          ok := AddCommand(dev, size, name, ro);
        }
      case DelPart(id) =>
        InitKeepsInv(board, Model());
        ok := InitTable();
        if ok {
          ok := DelCommand(id);
        }
      case Select(id) =>
        InitKeepsInv(board, Model());
        ok := InitTable();
        if ok {
          ok := ChPartCommand(id);
        }
    }
  }

  lemma MergedSound(b: Board, st: State, id: MtdId, size: string, name: string, ro: string)
    requires Inv(b, st) && RoomFor(b, st, AddText(id, size, name, ro))
    requires var d := DeviceParse(b.hw, st.ids, st.devices, AddText(id, size, name, ro));
             d.Ok? && Merge(b, st, d.value).Some?
    ensures var d := DeviceParse(b.hw, st.ids, st.devices, AddText(id, size, name, ro));
            Sound(b, Merge(b, st, d.value).value)
  {
    hide Inv, Sound, DeviceParse, Merge, AddText, DeviceOk, IndexOk, SameCopies, RoomIn;
    var text := AddText(id, size, name, ro);
    var d := DeviceParse(b.hw, st.ids, st.devices, text);
    InvIds(b, st);
    DeviceParseSound(b.hw, st.ids, st.devices, text);
    DeviceCount(b.hw, st.ids, st.devices, text);
    MergeOk(b, st, d.value);
  }
}
