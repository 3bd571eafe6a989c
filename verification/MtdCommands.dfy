/**
  The commands of boot/rpi/cmd/mtdparts.c as steps of a state machine: the environment variables,
  the id and device lists, the current partition, and the copies of the last variables seen that
  decide when parsing can be skipped.  The methods of MtdTool are proved against these functions.
 */
module MtdCommands {
  import opened TextNumbers
  import opened MtdGrammar
  import opened MtdPrinting
  import opened MtdTies
  import opened MtdRoundTrip
  import opened MtdTable

  const MTDIDS_MAXLEN: nat := 128
  const MTDPARTS_MAXLEN: nat := 512
  const PARTITION_MAXLEN: nat := 16
  const PART_ADD_DESC_MAXLEN: nat := 64
  const U16: nat := 0x1_0000

  datatype Env = Env(mtdids: Option<string>, mtdparts: Option<string>, partition: Option<string>,
                     mtddevnum: Option<nat>, mtddevname: Option<string>)

  /** The board: its flash chips and its default variables. */
  datatype Board = Board(hw: Hardware, mtdidsDefault: Option<string>, mtdpartsDefault: Option<string>)

  datatype State = State(env: Env, ids: seq<MtdId>, devices: seq<Device>,
                         curDev: Option<DevKey>, curPart: nat,
                         lastIds: string, lastParts: string, lastPartition: string,
                         useDefaults: bool)

  /** Before the first mtdparts_init. */
  function Boot(env: Env): State {
    State(env, [], [], None, 0, "", "", "", true)
  }

  // ---------------------------------------------------------------- the current partition

  function KindName(kind: DevKind): string {
    match kind
    case Nand => "nand"
    case OneNand => "onenand"
    case Nor => "nor"
  }

  /** How many partitions come before device `key`: the loop of index_partitions, from device `i` on. */
  function DevNum(devices: seq<Device>, key: DevKey, num: nat, i: nat): Option<nat>
    requires i <= |devices|
    decreases |devices| - i
  {
    if i == |devices| then None
    else if devices[i].id.key == key then Some(num)
    else DevNum(devices, key, Wrap(num + devices[i].numParts, U16), i + 1)
  }

  /** mtd_part_info: the partition of that number. */
  function PartInfo(devices: seq<Device>, key: DevKey, n: nat): Option<Part> {
    match DeviceFind(devices, key)
    case None => None
    case Some(i) => if n < devices[i].numParts && n < |devices[i].parts| then Some(devices[i].parts[n]) else None
  }

  /** index_partitions */
  function Indexed(st: State): State {
    match st.curDev
    case None => st.(env := st.env.(mtddevnum := None, mtddevname := None))
    case Some(key) =>
      var num := DevNum(st.devices, key, 0, 0);
      var part := PartInfo(st.devices, key, st.curPart);
      st.(env := st.env.(mtddevnum := if num.Some? then Some(Wrap(num.value + st.curPart, U16)) else st.env.mtddevnum,
                         mtddevname := if part.Some? then Some(part.value.name) else None))
  }

  function PartitionText(key: DevKey, n: nat): string {
    KindName(key.kind) + Print(key.num, 10, false) + "," + Print(n, 10, false)
  }

  function Cut(s: string, n: nat): string {
    if |s| <= n then s else s[..n]
  }

  /** current_save */
  function CurrentSave(st: State): State {
    match st.curDev
    case None => Indexed(st.(env := st.env.(partition := None), lastPartition := ""))
    case Some(key) =>
      var text := PartitionText(key, st.curPart);
      Indexed(st.(env := st.env.(partition := Some(text)), lastPartition := Cut(text, PARTITION_MAXLEN)))
  }

  // ---------------------------------------------------------------- changing the table

  /** mtd_devices_init */
  function DevicesInit(st: State): State {
    CurrentSave(st.(lastParts := "", curDev := None)).(devices := [])
  }

  /** device_del of the listed device `i` */
  function DeviceDel(st: State, i: nat): State
    requires i < |st.devices|
  {
    var key := st.devices[i].id.key;
    var left := st.devices[..i] + st.devices[i + 1..];
    if st.curDev != Some(key) then Indexed(st.(devices := left))
    else if left == [] then CurrentSave(st.(devices := left, curDev := None))
    else CurrentSave(st.(devices := left, curDev := Some(left[0].id.key), curPart := 0))
  }

  function Without(dev: Device, j: nat): Device
    requires j < |dev.parts|
  {
    dev.(parts := dev.parts[..j] + dev.parts[j + 1..], numParts := Wrap(dev.numParts + U16 - 1, U16))
  }

  /** part_del of partition `j` of device `i` */
  function PartDel(st: State, i: nat, j: nat): State
    requires i < |st.devices| && j < |st.devices[i].parts|
  {
    var dev := st.devices[i];
    if dev.numParts == 1 then DeviceDel(st, i)
    else
      var left := st.devices[i := Without(dev, j)];
      if st.curDev == Some(dev.id.key) && st.curPart < |dev.parts|
      then CurrentSave(st.(devices := left, curPart := CurrentAfterDel(dev.parts, j, st.curPart)))
      else Indexed(st.(devices := left))
  }

  function With(dev: Device, p: Part, k: nat): Device
    requires k <= |dev.parts|
  {
    dev.(parts := dev.parts[..k] + [p] + dev.parts[k..], numParts := Wrap(dev.numParts + 1, U16))
  }

  /** part_sort_add to the listed device `i`; None when it is refused. */
  function SortAdd(st: State, i: nat, p: Part): Option<State>
    requires i < |st.devices|
  {
    var dev := st.devices[i];
    match Slot(dev.parts, p, 0)
    case None => None
    case Some(k) =>
      var longer := st.(devices := st.devices[i := With(dev, p, k)]);
      var current := CurrentAfterAdd(dev.parts, k, st.curPart);
      if st.curDev == Some(dev.id.key) && current != st.curPart
      then Some(CurrentSave(longer.(curPart := current)))
      else Some(Indexed(longer))
  }

  /** device_add */
  function DeviceAdd(st: State, dev: Device): State {
    var longer := st.(devices := st.devices + [dev]);
    if st.devices == [] then CurrentSave(longer.(curDev := Some(dev.id.key), curPart := 0))
    else Indexed(longer)
  }

  /** The printed table is too long for the variable; the prefix is not counted. */
  predicate TooLong(devices: seq<Device>) {
    devices != [] && |DevicesText(devices)| > MTDPARTS_MAXLEN - 1
  }

  /** generate_mtdparts_save into last_parts */
  function GenerateSave(st: State): (State, bool) {
    if TooLong(st.devices) then (st.(lastParts := "", env := st.env.(mtdparts := None)), false)
    else
      var text := TableText(st.devices);
      (st.(lastParts := text, env := st.env.(mtdparts := if text == "" then None else Some(text))), true)
  }

  // ---------------------------------------------------------------- ids

  /** mtd_id_parse: `nand`, `nor` or `onenand` and a number of 8 bits. */
  function DevIdParse(s: string): (r: Parsed<DevKey>)
    ensures r.Ok? ==> |r.rest| < |s| && r.value.num < U8
  {
    var kind := if StartsWith(s, "nand") then Some((Nand, s[4..]))
                else if StartsWith(s, "nor") then Some((Nor, s[3..]))
                else if StartsWith(s, "onenand") then Some((OneNand, s[7..]))
                else None;
    if kind.None? then Bad
    else if DigitValue(At(kind.value.1, 0)) >= 10 then Bad
    else
      var (num, rest) := StrToU(kind.value.1, 0, U8);
      Ok(DevKey(kind.value.0, num), rest)
  }

  /** Parsing may leave ids behind even when it fails. */
  datatype IdsResult = IdsOk(ids: seq<MtdId>) | IdsFail(ids: seq<MtdId>)

  predicate HasKey(ids: seq<MtdId>, key: DevKey) {
    exists i :: 0 <= i < |ids| && ids[i].key == key
  }

  /** The loop of parse_mtdids. */
  function IdsParse(hw: Hardware, s: string, acc: seq<MtdId>): IdsResult
    decreases |s|
  {
    match DevIdParse(s)
    case Bad => IdsFail([])
    case Ok(key, p) =>
      if At(p, 0) != '=' then IdsFail([])
      else if key !in hw then IdsFail(acc)
      else
        var comma := Find(p[1..], ',');
        var name := if comma.Some? then p[1..][..comma.value] else p[1..];
        if HasKey(acc, key) then IdsFail([])
        else
          var ids := acc + [MtdId(key, hw[key].size, name)];
          if comma.None? || p[1..][comma.value + 1..] == "" then IdsOk(ids)
          else IdsParse(hw, p[1..][comma.value + 1..], ids)
  }

  /** parse_mtdids */
  function MtdidsParse(hw: Hardware, text: string): IdsResult {
    if text == "" then IdsFail([]) else IdsParse(hw, text, [])
  }

  // ---------------------------------------------------------------- finding a partition

  /** The first partition of that name at or after partition `j` of device `i`. */
  function FindName(devices: seq<Device>, name: string, i: nat, j: nat): (r: Option<(nat, nat)>)
    requires i <= |devices| && (i < |devices| ==> j <= |devices[i].parts|)
    ensures r.Some? ==> r.value.0 < |devices| && r.value.1 < |devices[r.value.0].parts|
    ensures r.Some? ==> devices[r.value.0].parts[r.value.1].name == name
    decreases |devices| - i, if i < |devices| then |devices[i].parts| - j else 0
  {
    if i == |devices| then None
    else if j == |devices[i].parts| then FindName(devices, name, i + 1, 0)
    else if devices[i].parts[j].name == name then Some((i, j))
    else FindName(devices, name, i, j + 1)
  }

  /** find_dev_and_part: by partition name, else by `<dev-id>,<number>`. */
  function FindPart(devices: seq<Device>, id: string): (r: Option<(nat, nat)>)
    ensures r.Some? ==> r.value.0 < |devices| && r.value.1 < |devices[r.value.0].parts|
  {
    var named := FindName(devices, id, 0, 0);
    if named.Some? then named
    else
      match DevIdParse(id)
      case Bad => None
      case Ok(key, p) =>
        if At(p, 0) != ',' || p[1..] == "" then None
        else
          var (n, rest) := StrToU(p[1..], 0, U8);
          if rest != "" then None
          else
            match DeviceFind(devices, key)
            case None => None
            case Some(i) => if n < devices[i].numParts && n < |devices[i].parts| then Some((i, n)) else None
  }

  // ---------------------------------------------------------------- mtdparts_init

  /** The mtdids in effect: the variable, else the default. */
  function EffectiveIds(b: Board, st: State): Option<string> {
    if st.env.mtdids.Some? then st.env.mtdids else b.mtdidsDefault
  }

  /** The mtdparts in effect: the variable, else the default as long as it has not been used. */
  function EffectiveParts(b: Board, st: State): Option<string> {
    if st.env.mtdparts.Some? then st.env.mtdparts
    else if b.mtdpartsDefault.Some? && st.useDefaults then b.mtdpartsDefault
    else None
  }

  /** The defaults that were taken are written to the environment. */
  function WithDefaults(b: Board, st: State): State {
    var ids, parts := EffectiveIds(b, st), EffectiveParts(b, st);
    st.(env := st.env.(mtdids := ids, mtdparts := parts),
        useDefaults := if st.env.mtdparts.None? && parts.Some? then false else st.useDefaults)
  }

  /** The ids have not been parsed yet. */
  predicate IdsChanged(st: State, ids: string) {
    st.lastIds == "" || st.lastIds != ids
  }

  /** parse_mtdparts: the old devices go first, whether the text parses or not. */
  function ParseTable(b: Board, st: State, parts: string): (State, bool) {
    var empty := DevicesInit(st);
    match TableParse(b.hw, st.ids, parts)
    case None => (empty, false)
    case Some(devices) =>
      (CurrentSave(empty.(devices := devices, lastParts := parts,
                          curDev := if devices == [] then None else Some(devices[0].id.key), curPart := 0)), true)
  }

  /** The last part of mtdparts_init: the partition variable chooses the current partition. */
  function SelectCurrent(st: State, wanted: string): State {
    if wanted != "" && wanted != st.lastPartition then
      match FindPart(st.devices, wanted)
      case None => st
      case Some((i, j)) => CurrentSave(st.(curDev := Some(st.devices[i].id.key), curPart := j))
    else if st.env.partition.None? then CurrentSave(st)
    else st
  }

  /** mtdparts_init with everything that precedes the parsing of the ids done. */
  function InitIds(b: Board, st: State, ids: string): (State, bool) {
    if !IdsChanged(st, ids) then (st, true)
    else
      match MtdidsParse(b.hw, ids)
      case IdsFail(left) => (DevicesInit(st.(ids := left, lastIds := "")), false)
      case IdsOk(good) => (st.(ids := good, lastIds := ids), true)
  }

  /** The table is parsed unless the text is the one it was made from, or printed to. */
  predicate MustParse(st: State, parts: string, idsChanged: bool) {
    st.lastParts == "" || st.lastParts != parts || idsChanged
  }

  function InitParts(b: Board, st: State, parts: Option<string>, idsChanged: bool, wanted: string): (State, bool) {
    match parts
    case None => (if st.lastParts != "" then DevicesInit(st) else st, true)
    case Some(text) =>
      if MustParse(st, text, idsChanged) then
        var (parsed, ok) := ParseTable(b, st, text);
        if ok then (SelectCurrent(parsed, wanted), true) else (parsed, false)
      else (SelectCurrent(st, wanted), true)
  }

  /** mtdparts_init */
  function Init(b: Board, st: State): (State, bool) {
    var ids, parts := EffectiveIds(b, st), EffectiveParts(b, st);
    if ids.None? then (st, false)
    else
      var st1 := st.(env := st.env.(mtdids := ids));
      if |ids.value| > MTDIDS_MAXLEN - 1 then (st1, false)
      else
        var st2 := WithDefaults(b, st);
        if parts.Some? && |parts.value| > MTDPARTS_MAXLEN - 1 then (st2, false)
        else
          var (st3, ok) := InitIds(b, st2, ids.value);
          if !ok then (st3, false)
          else InitParts(b, st3, parts, IdsChanged(st, ids.value),
                         if st.env.partition.Some? then Cut(st.env.partition.value, PARTITION_MAXLEN) else "")
  }

  // ---------------------------------------------------------------- the commands

  /** What `mtdparts add` parses. */
  function AddText(id: MtdId, size: string, name: string, ro: string): string {
    id.name + ":" + size + "(" + name + ")" + ro
  }

  function IdByKey(ids: seq<MtdId>, key: DevKey): (r: Option<MtdId>)
    ensures r.Some? ==> r.value in ids && r.value.key == key
  {
    if ids == [] then None
    else if ids[0].key == key then Some(ids[0])
    else IdByKey(ids[1..], key)
  }

  /** The description is measured in a u8. */
  function AddLength(id: MtdId, size: string, name: string, ro: string): nat {
    Wrap(|id.name| + 1 + |size| + |name| + 2 + (if |ro| == 2 then 2 else 0), U8)
  }

  /** part_add of a parsed partition to the device it names, or device_add of the whole device. */
  function Merge(b: Board, st: State, dev: Device): Option<State>
    requires dev.parts != []
  {
    match DeviceFind(st.devices, dev.id.key)
    case None => Some(DeviceAdd(st, dev))
    case Some(i) =>
      // the first partition of the parsed device is the one that is added
      match PartValidate(b.hw, st.devices[i].id, dev.parts[0])
      case None => None
      case Some(p) => SortAdd(st, i, p)
  }

  /** `mtdparts add <mtd-dev> <size>[@<offset>] <name> [ro]`, once mtdparts_init has succeeded. */
  function Add(b: Board, st: State, devArg: string, size: string, name: string, ro: string): (State, bool) {
    match DevIdParse(devArg)
    case Bad => (st, false)
    case Ok(key, _) =>
      match IdByKey(st.ids, key)
      case None => (st, false)
      case Some(id) =>
        if AddLength(id, size, name, ro) >= PART_ADD_DESC_MAXLEN then (st, false)
        else
          match DeviceParse(b.hw, st.ids, st.devices, AddText(id, size, name, ro))
          case Bad => (st, false)
          case Ok(dev, _) =>
            match Merge(b, st, dev)
            case None => (Indexed(st), false)
            case Some(merged) => GenerateSave(merged)
  }

  /** `mtdparts del <part-id>`, once mtdparts_init has succeeded. */
  function Del(st: State, id: string): (State, bool) {
    match FindPart(st.devices, id)
    case None => (st, false)
    case Some((i, j)) => GenerateSave(PartDel(st, i, j))
  }

  /** `chpart <part-id>`, once mtdparts_init has succeeded. */
  function ChPart(st: State, id: string): (State, bool) {
    match FindPart(st.devices, id)
    case None => (st, false)
    case Some((i, j)) => (CurrentSave(st.(curDev := Some(st.devices[i].id.key), curPart := j)), true)
  }

  datatype Variable = MtdIds | MtdParts | Partition

  datatype Command =
    | SetVar(v: Variable, value: Option<string>)
    | List
    | AddPart(dev: string, size: string, name: string, ro: string)
    | DelPart(id: string)
    | DelAll
    | Default
    | Select(id: string)

  function SetEnv(st: State, v: Variable, value: Option<string>): State {
    match v
    case MtdIds => st.(env := st.env.(mtdids := value))
    case MtdParts => st.(env := st.env.(mtdparts := value))
    case Partition => st.(env := st.env.(partition := value))
  }

  /** `mtdparts default` before it initializes. */
  function Reset(st: State): State {
    st.(env := st.env.(mtdids := None, mtdparts := None, partition := None), useDefaults := true)
  }

  /** One command, with its return code. */
  function Step(b: Board, st: State, cmd: Command): (State, bool) {
    match cmd
    case SetVar(v, value) => (SetEnv(st, v, value), true)
    case Default => (Init(b, Reset(st)).0, true)
    case DelAll =>
      var st1 := Init(b, st).0;
      (DevicesInit(st1.(env := st1.env.(mtdparts := None))), true)
    case List => Init(b, st)
    case AddPart(dev, size, name, ro) =>
      var (st1, ok) := Init(b, st);
      if ok then Add(b, st1, dev, size, name, ro) else (st1, false)
    case DelPart(id) =>
      var (st1, ok) := Init(b, st);
      if ok then Del(st1, id) else (st1, false)
    case Select(id) =>
      var (st1, ok) := Init(b, st);
      if ok then ChPart(st1, id) else (st1, false)
  }
}
