/**
  The mtdparts grammar (boot/rpi/cmd/mtdparts.c): flash partitions, the text that describes them,
  the parser and the printer.  These are the specification functions that the methods of MtdTool
  are proved against.

  Sizes and offsets are 64-bit: every sum that C forms in a u64 goes through `Add64`.
 */
module MtdGrammar {
  import opened TextNumbers

  const SIZE_REMAINING: nat := TWO_64 - 1
  const OFFSET_NOT_SPECIFIED: nat := TWO_64 - 1
  const MIN_PART_SIZE: nat := 4096

  const SIZE_KB: nat := 1024
  const SIZE_MB: nat := 1024 * 1024
  const SIZE_GB: nat := 1024 * 1024 * 1024

  datatype DevKind = Nor | Nand | OneNand
  datatype DevKey = DevKey(kind: DevKind, num: nat)

  datatype EraseRegion = EraseRegion(offset: nat, eraseSize: nat, numBlocks: nat)
  datatype RawMtd = RawMtd(size: nat, eraseSize: nat, regions: seq<EraseRegion>)

  /** A flash chip as its driver reports it; erase blocks are not empty and sizes are real. */
  type Mtd = m: RawMtd | 0 < m.eraseSize && m.size < SIZE_REMAINING
    witness RawMtd(0, 1, [])

  /** The chips that get_mtd_device_nm finds. */
  type Hardware = map<DevKey, Mtd>

  datatype MtdId = MtdId(key: DevKey, size: nat, name: string)
  datatype Part = Part(size: nat, offset: nat, name: string, autoName: bool, ro: bool, sectorSize: nat)
  datatype Device = Device(id: MtdId, parts: seq<Part>, numParts: nat)

  datatype Parsed<+T> = Ok(value: T, rest: string) | Bad

  function Add64(a: nat, b: nat): nat {
    Wrap(a + b, TWO_64)
  }

  function End(p: Part): nat {
    Add64(p.offset, p.size)
  }

  // ---------------------------------------------------------------- sizes

  /** The factor a size suffix stands for; 1 when the character is no suffix. */
  function Unit(c: char): nat {
    if c == 'G' || c == 'g' then SIZE_GB
    else if c == 'M' || c == 'm' then SIZE_MB
    else if c == 'K' || c == 'k' then SIZE_KB
    else 1
  }

  /** memsize_parse */
  function MemsizeParse(s: string): (r: (nat, string))
    ensures r.0 < TWO_64
    ensures |r.1| <= |s| && (|r.1| == |s| ==> r.0 == 0)
  {
    var (v, p) := StrToU(s, 0, TWO_64);
    var unit := Unit(At(p, 0));
    if unit == 1 then (v, p) else (Wrap(v * unit, TWO_64), p[1..])
  }

  /** memsize_format */
  function MemsizeFormat(size: nat): (s: string)
    ensures s != "" && DigitValue(s[0]) < 10
  {
    if size % SIZE_GB == 0 then Print(size / SIZE_GB, 10, false) + "g"
    else if size % SIZE_MB == 0 then Print(size / SIZE_MB, 10, false) + "m"
    else if size % SIZE_KB == 0 then Print(size / SIZE_KB, 10, false) + "k"
    else Print(size, 10, false)
  }

  // ---------------------------------------------------------------- validation

  /** `x` is the start of an erase block of one of the regions. */
  predicate BlockStart(regions: seq<EraseRegion>, x: nat) {
    exists i :: 0 <= i < |regions| && InRegion(regions[i], x)
  }

  predicate InRegion(r: EraseRegion, x: nat) {
    exists j :: 0 <= j < r.numBlocks && x == r.offset + Times(j, r.eraseSize)
  }

  function Times(a: nat, b: nat): nat { a * b }

  /** Where the scan over all regions ends: behind the last region. */
  function ScanEnd(regions: seq<EraseRegion>): nat
    requires regions != []
  {
    var last := regions[|regions| - 1];
    last.offset + Times(last.numBlocks, last.eraseSize)
  }

  /** Start and end of a partition fall on erase blocks. */
  predicate OnEraseBlocks(m: Mtd, offset: nat, size: nat) {
    if m.regions == [] then offset % m.eraseSize == 0 && size % m.eraseSize == 0
    else
      && BlockStart(m.regions, offset)
      && (BlockStart(m.regions, Add64(offset, size)) || Add64(offset, size) == ScanEnd(m.regions))
  }

  /** part_validate with part_validate_eraseblock: the partition as it is left when it is valid. */
  function PartValidate(hw: Hardware, id: MtdId, part: Part): Option<Part> {
    var size := if part.size == SIZE_REMAINING then Wrap(TWO_64 + id.size - Wrap(part.offset, TWO_64), TWO_64)
      else part.size;
    if part.offset > id.size then None
    else if Add64(part.offset, size) <= part.offset then None
    else if Add64(part.offset, size) > id.size then None
    else if id.key !in hw then None
    else if !OnEraseBlocks(hw[id.key], part.offset, size) then None
    else Some(part.(size := size, sectorSize := hw[id.key].eraseSize))
  }

  /** An id that parse_mtdids produces: it names a chip and carries that chip's size. */
  predicate IdOk(hw: Hardware, id: MtdId) {
    id.key in hw && id.size == hw[id.key].size
  }

  /** The partition lies inside its chip, is not empty, and starts and ends on erase blocks. */
  predicate PartFits(hw: Hardware, id: MtdId, p: Part) {
    && id.key in hw
    && 0 < p.size
    && p.offset + p.size <= id.size
    && OnEraseBlocks(hw[id.key], p.offset, p.size)
    && p.sectorSize == hw[id.key].eraseSize
  }

  // ---------------------------------------------------------------- parsing a partition

  /** The name given to a partition without one: `"0x%08llx@0x%08llx"`, cut to 21 characters. */
  function AutoName(size: nat, offset: nat): string {
    var s := "0x" + PrintPadded(size, 8, 16) + "@0x" + PrintPadded(offset, 8, 16);
    if |s| <= 21 then s else s[..21]
  }

  function ReadSize(s: string): (r: Parsed<nat>)
    ensures r.Ok? ==> |r.rest| < |s| && r.value < TWO_64
  {
    if At(s, 0) == '-' then Ok(SIZE_REMAINING, s[1..])
    else
      var (size, p) := MemsizeParse(s);
      if size < MIN_PART_SIZE then Bad else Ok(size, p)
  }

  function ReadOffset(s: string): (r: (nat, string))
    ensures |r.1| <= |s| && r.0 < TWO_64
  {
    if At(s, 0) == '@' then MemsizeParse(s[1..]) else (OFFSET_NOT_SPECIFIED, s)
  }

  function ReadName(s: string): (r: Parsed<Option<string>>)
    ensures r.Ok? ==> |r.rest| <= |s|
    ensures r.Ok? && r.value.Some? ==> UserNameOk(r.value.value)
  {
    if At(s, 0) != '(' then Ok(None, s)
    else
      match Find(s[1..], ')')
      case None => Bad
      case Some(i) => if i == 0 then Bad else Ok(Some(s[1..][..i]), s[1..][i + 1..])
  }

  function ReadRo(s: string): (r: (bool, string))
    ensures |r.1| <= |s|
  {
    if StartsWith(s, "ro") then (true, s[2..]) else (false, s)
  }

  /** What may follow a partition: a comma, unless it took all remaining space, or its device's end. */
  function ReadEnd(s: string, size: nat): (r: Parsed<()>)
    ensures r.Ok? ==> |r.rest| <= |s|
  {
    if At(s, 0) == ',' then if size == SIZE_REMAINING then Bad else Ok((), s[1..])
    else if s == "" || s[0] == ';' then Ok((), s)
    else Bad
  }

  /** part_parse */
  function PartParse(s: string): (r: Parsed<Part>)
    ensures r.Ok? ==> |r.rest| < |s|
    ensures r.Ok? ==> r.value.size < TWO_64 && r.value.offset < TWO_64 && NameOk(r.value)
  {
    var size := ReadSize(s);
    if size.Bad? then Bad else
    var (offset, p) := ReadOffset(size.rest);
    var name := ReadName(p);
    if name.Bad? then Bad else
    var (ro, q) := ReadRo(name.rest);
    var end := ReadEnd(q, size.value);
    if end.Bad? then Bad else
    match name.value
    case Some(n) => Ok(Part(size.value, offset, n, false, ro, 0), end.rest)
    case None => Ok(Part(size.value, offset, AutoName(size.value, offset), true, ro, 0), end.rest)
  }

  predicate UserNameOk(name: string) {
    name != "" && ')' !in name
  }

  predicate NameOk(p: Part) {
    !p.autoName ==> UserNameOk(p.name)
  }

  // ---------------------------------------------------------------- the sorted partition list

  /** The scan of part_sort_add from entry `i` on: where a partition goes, None when it is refused. */
  function Slot(parts: seq<Part>, p: Part, i: nat): (r: Option<nat>)
    requires i <= |parts|
    ensures r.Some? ==> i <= r.value <= |parts|
    decreases |parts| - i
  {
    if i == |parts| then Some(i)
    else if p.offset == parts[i].offset && parts[i].offset == 0 then None
    else if p.offset <= parts[i].offset then Some(i)
    else Slot(parts, p, i + 1)
  }

  /** The list part_sort_add leaves. */
  function SortInsert(parts: seq<Part>, p: Part): Option<seq<Part>> {
    match Slot(parts, p, 0)
    case None => None
    case Some(i) => Some(parts[..i] + [p] + parts[i..])
  }

  /** Adds the partitions of `news` one by one. */
  function InsertAll(parts: seq<Part>, news: seq<Part>): (r: Option<seq<Part>>)
    ensures r.Some? ==> |r.value| == |parts| + |news|
    decreases |news|
  {
    if news == [] then Some(parts)
    else
      match SortInsert(parts, news[0])
      case None => None
      case Some(longer) => InsertAll(longer, news[1..])
  }

  // ---------------------------------------------------------------- parsing devices

  /** id_find_by_mtd_id: the first id of that name. */
  function IdByName(ids: seq<MtdId>, name: string): (r: Option<MtdId>)
    ensures r.Some? ==> r.value in ids && r.value.name == name
  {
    if ids == [] then None
    else if ids[0].name == name then Some(ids[0])
    else IdByName(ids[1..], name)
  }

  /** device_find: the first device of that kind and number. */
  function DeviceFind(devices: seq<Device>, key: DevKey): (r: Option<nat>)
    ensures r.Some? ==> r.value < |devices| && devices[r.value].id.key == key
    ensures r.None? ==> forall i :: 0 <= i < |devices| ==> devices[i].id.key != key
  {
    if devices == [] then None
    else if devices[0].id.key == key then Some(0)
    else
      match DeviceFind(devices[1..], key)
      case None => None
      case Some(i) => Some(i + 1)
  }

  /** The offset that a partition without one gets on a device that is already listed. */
  function NextFree(devices: seq<Device>, key: DevKey): nat {
    match DeviceFind(devices, key)
    case None => 0
    case Some(i) =>
      var parts := devices[i].parts;
      if parts == [] then 0 else End(parts[|parts| - 1])
  }

  /** The offset is filled in when the text gave none. */
  function Placed(p: Part, offset: nat): Part {
    if p.offset == OFFSET_NOT_SPECIFIED then p.(offset := offset) else p
  }

  /** The partition loop of device_parse; `acc` are the partitions read so far. */
  function PartsParse(hw: Hardware, id: MtdId, s: string, offset: nat, acc: seq<Part>): (r: Parsed<seq<Part>>)
    ensures r.Ok? ==> |r.rest| <= |s| && (r.rest == "" || r.rest[0] == ';')
    decreases |s|
  {
    if s == "" || s[0] == ';' then Ok(acc, s)
    else
      match PartParse(s)
      case Bad => Bad
      case Ok(p, rest) =>
        match PartValidate(hw, id, Placed(p, offset))
        case None => Bad
        case Some(valid) => PartsParse(hw, id, rest, End(valid), acc + [valid])
  }

  /** device_parse */
  function DeviceParse(hw: Hardware, ids: seq<MtdId>, devices: seq<Device>, s: string): (r: Parsed<Device>)
    ensures r.Ok? ==> |r.rest| < |s| && r.value.parts != []
  {
    match Find(s, ':')
    case None => Bad
    case Some(i) =>
      match IdByName(ids, s[..i])
      case None => Bad
      case Some(id) =>
        match PartsParse(hw, id, s[i + 1..], NextFree(devices, id.key), [])
        case Bad => Bad
        case Ok(parts, rest) =>
          if parts == [] then Bad
          else
            match InsertAll([], parts)
            case None => Bad
            case Some(sorted) => Ok(Device(id, sorted, |sorted|), if rest == "" then rest else rest[1..])
  }

  /** The device loop of parse_mtdparts; `acc` are the devices read so far. */
  function DevicesParse(hw: Hardware, ids: seq<MtdId>, s: string, acc: seq<Device>): Option<seq<Device>>
    decreases |s|
  {
    if s == "" then Some(acc)
    else
      match DeviceParse(hw, ids, acc, s)
      case Bad => None
      case Ok(dev, rest) =>
        if DeviceFind(acc, dev.id.key).Some? then None
        else DevicesParse(hw, ids, rest, acc + [dev])
  }

  const PREFIX: string := "mtdparts="

  /** parse_mtdparts on the text of the mtdparts variable. */
  function TableParse(hw: Hardware, ids: seq<MtdId>, text: string): (r: Option<seq<Device>>)
  {
    if !StartsWith(text, PREFIX) then None
    else if text[|PREFIX|..] == "" then None
    else DevicesParse(hw, ids, text[|PREFIX|..], [])
  }

  // ---------------------------------------------------------------- printing

  /** One partition; `expected` is where it would start if there were no gap before it. */
  function PartText(p: Part, expected: nat): string {
    MemsizeFormat(p.size) + OffsetText(p, expected) + NameText(p) + RoText(p)
  }

  function OffsetText(p: Part, expected: nat): string {
    if p.offset != expected then "@" + MemsizeFormat(p.offset) else ""
  }

  function NameText(p: Part): string {
    if p.autoName then "" else "(" + p.name + ")"
  }

  function RoText(p: Part): string {
    if p.ro then "ro" else ""
  }

  function PartsText(parts: seq<Part>, expected: nat): string
  {
    if parts == [] then ""
    else if |parts| == 1 then PartText(parts[0], expected)
    else PartText(parts[0], expected) + "," + PartsText(parts[1..], End(parts[0]))
  }

  function DeviceText(dev: Device): string {
    dev.id.name + ":" + PartsText(dev.parts, 0)
  }

  function DevicesText(devices: seq<Device>): string {
    if devices == [] then ""
    else if |devices| == 1 then DeviceText(devices[0])
    else DeviceText(devices[0]) + ";" + DevicesText(devices[1..])
  }

  /** generate_mtdparts without its length limit. */
  function TableText(devices: seq<Device>): string {
    if devices == [] then "" else PREFIX + DevicesText(devices)
  }
}
