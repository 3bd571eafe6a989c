/**
  The invariant over whole runs, and what it means for the text cache.
 */
module MtdSteps {
  import opened TextNumbers
  import opened MtdGrammar
  import opened MtdPrinting
  import opened MtdTies
  import opened MtdRoundTrip
  import opened MtdTable
  import opened MtdCommands
  import opened MtdInvariant
  import opened MtdRuns

  // ---------------------------------------------------------------- how many partitions a text holds

  lemma OneDigit(s: string, base: nat)
    requires base <= 16 && |DigitRun(s, base, 0).1| == |s| - 1
    ensures DigitRun(s, base, 0).0 < 16
  {
    assert s != [];
    var next := DigitRun(s[1..], base, DigitValue(s[0]));
    assert |next.1| == |s[1..]|;
  }

  lemma OneChar(s: string)
    requires |StrToU(s, 0, TWO_64).1| == |s| - 1
    ensures StrToU(s, 0, TWO_64).0 < 16
  {
    hide DigitRun;
    OneDigit(s, DetectBase(s, 0));
  }

  /** A size that is large enough takes two characters. */
  lemma SizeTakesTwo(s: string)
    requires MIN_PART_SIZE <= MemsizeParse(s).0
    ensures |MemsizeParse(s).1| + 2 <= |s|
  {
    hide StrToU;
    var (v, p) := StrToU(s, 0, TWO_64);
    if |p| == |s| - 1 {
      OneChar(s);
    }
  }

  /** A partition that is followed by another one takes three characters. */
  lemma PartTakesThree(s: string)
    requires PartParse(s).Ok?
    requires PartParse(s).rest != "" && PartParse(s).rest[0] != ';'
    ensures |PartParse(s).rest| + 3 <= |s|
  {
    hide MemsizeParse, ReadName, ReadRo, AutoName;
    var size := ReadSize(s);
    if At(s, 0) != '-' {
      SizeTakesTwo(s);
    }
  }

  lemma {:induction false} PartsCount(hw: Hardware, id: MtdId, s: string, offset: nat, acc: seq<Part>)
    requires PartsParse(hw, id, s, offset, acc).Ok?
    ensures 3 * |PartsParse(hw, id, s, offset, acc).value| <= 3 * |acc| + |s| + 2
    decreases |s|
  {
    if s != "" && s[0] != ';' {
      hide PartParse, PartValidate;
      var p := PartParse(s);
      var v := PartValidate(hw, id, Placed(p.value, offset)).value;
      PartsCount(hw, id, p.rest, End(v), acc + [v]);
      if p.rest != "" && p.rest[0] != ';' {
        PartTakesThree(s);
      } else {
        assert PartsParse(hw, id, p.rest, End(v), acc + [v]).value == acc + [v];
      }
    }
  }

  lemma DeviceCount(hw: Hardware, ids: seq<MtdId>, devices: seq<Device>, s: string)
    requires DeviceParse(hw, ids, devices, s).Ok?
    ensures 3 * |DeviceParse(hw, ids, devices, s).value.parts| <= |s| + 1
  {
    hide PartsParse, InsertAll;
    var i := Find(s, ':').value;
    var id := IdByName(ids, s[..i]).value;
    PartsCount(hw, id, s[i + 1..], NextFree(devices, id.key), []);
  }

  lemma {:induction false} DevicesCount(hw: Hardware, ids: seq<MtdId>, s: string, acc: seq<Device>)
    requires DevicesParse(hw, ids, s, acc).Some? && Numbered(acc) && |s| < MTDPARTS_MAXLEN
    ensures Numbered(DevicesParse(hw, ids, s, acc).value)
    decreases |s|
  {
    if s != "" {
      hide DeviceParse, Numbered;
      var r := DeviceParse(hw, ids, acc, s);
      DeviceCount(hw, ids, acc, s);
      NumberedSnoc(acc, r.value);
      DevicesCount(hw, ids, r.rest, acc + [r.value]);
    }
  }

  /** A text that fits the variable never describes more partitions than can be numbered. */
  lemma TableCount(hw: Hardware, ids: seq<MtdId>, text: string)
    requires TableParse(hw, ids, text).Some? && |text| < MTDPARTS_MAXLEN
    ensures Numbered(TableParse(hw, ids, text).value)
  {
    hide DevicesParse;
    DevicesCount(hw, ids, text[|PREFIX|..], []);
  }

  // ---------------------------------------------------------------- ids

  lemma {:induction false} IdsParseSound(hw: Hardware, s: string, acc: seq<MtdId>)
    requires IdsSound(hw, acc)
    ensures IdsSound(hw, IdsParse(hw, s, acc).ids)
    decreases |s|
  {
    hide DevIdParse, HasKey;
    match DevIdParse(s)
    case Bad =>
    case Ok(key, p) =>
      if At(p, 0) == '=' && key in hw && !HasKey(acc, key) {
        var comma := Find(p[1..], ',');
        var name := if comma.Some? then p[1..][..comma.value] else p[1..];
        IdsSoundSnoc(hw, acc, MtdId(key, hw[key].size, name));
        if comma.Some? && p[1..][comma.value + 1..] != "" {
          IdsParseSound(hw, p[1..][comma.value + 1..], acc + [MtdId(key, hw[key].size, name)]);
        }
      }
  }

  lemma IdsSoundSnoc(hw: Hardware, ids: seq<MtdId>, id: MtdId)
    requires IdsSound(hw, ids) && IdOk(hw, id)
    ensures IdsSound(hw, ids + [id])
  {
  }

  // ---------------------------------------------------------------- mtdparts_init

  lemma DevicesInitOk(b: Board, st: State)
    requires IdsOfText(b, st)
    ensures Inv(b, DevicesInit(st)) && DevicesInit(st).devices == []
    ensures DevicesInit(st).ids == st.ids && DevicesInit(st).lastIds == st.lastIds
  {
    hide MtdidsParse, Indexed;
    SaveFrame(st.(lastParts := "", curDev := None));
  }

  lemma InitIdsOk(b: Board, st: State, ids: string)
    requires Inv(b, st)
    ensures var (r, ok) := InitIds(b, st, ids);
            && (!ok ==> Inv(b, r))
            && (!IdsChanged(st, ids) ==> ok && r == st)
            && IdsSound(b.hw, r.ids)
            && (ok ==> r.lastIds == ids && ids != "" && MtdidsParse(b.hw, ids) == IdsOk(r.ids))
            && (ok ==> r == st.(ids := r.ids, lastIds := r.lastIds))
  {
    hide IdsParse, DevicesInit, TableOk, CurrentOk, IndexOk, CacheOk, IdsSound;
    if IdsChanged(st, ids) {
      NoIdsSound(b.hw);
      if ids != "" {
        IdsParseSound(b.hw, ids, []);
      }
      if MtdidsParse(b.hw, ids).IdsFail? {
        var left := MtdidsParse(b.hw, ids).ids;
        FailedIds(b, st, left);
      }
    }
  }

  lemma NoIdsSound(hw: Hardware)
    ensures IdsSound(hw, [])
  {
  }

  lemma FailedIds(b: Board, st: State, left: seq<MtdId>)
    requires IdsSound(b.hw, left)
    ensures Inv(b, DevicesInit(st.(ids := left, lastIds := "")))
    ensures DevicesInit(st.(ids := left, lastIds := "")).ids == left
  {
    hide Inv, DevicesInit, MtdidsParse;
    var s := st.(ids := left, lastIds := "", devices := []);
    DevicesInitOk(b, s);
    SameInit(st.(ids := left, lastIds := ""), s);
  }

  /** mtd_devices_init forgets the devices: it does not matter which there were. */
  lemma SameInit(s: State, t: State)
    requires t == s.(devices := t.devices)
    ensures DevicesInit(s) == DevicesInit(t)
  {
  }

  lemma ParseTableOk(b: Board, st: State, parts: string)
    requires IdsSound(b.hw, st.ids) && st.lastIds != "" && MtdidsParse(b.hw, st.lastIds) == IdsOk(st.ids)
    requires |parts| < MTDPARTS_MAXLEN
    ensures var (r, ok) := ParseTable(b, st, parts);
            && Inv(b, r) && r.ids == st.ids && r.lastIds == st.lastIds
            && ok == TableParse(b.hw, st.ids, parts).Some?
            && (ok ==> r.devices == TableParse(b.hw, st.ids, parts).value && r.devices != [] && r.lastParts == parts)
  {
    hide TableParse, MtdidsParse, CurrentSave, DevicesInit, Numbered, IndexOk, Printable, IdsSound, TableOk, DeviceFind;
    var empty := DevicesInit(st);
    assert Inv(b, empty) && empty.ids == st.ids && empty.lastIds == st.lastIds by {
      DevicesInitOk(b, st.(devices := []));
      SameInit(st, st.(devices := []));
    }
    match TableParse(b.hw, st.ids, parts)
    case None =>
    case Some(devices) =>
      TableParseSound(b.hw, st.ids, parts);
      TableCount(b.hw, st.ids, parts);
      DistinctOf(b.hw, st.ids, devices);
      FindAt(devices, 0);
      NotEmpty(b.hw, st.ids, devices, 0);
      Saved(b, empty.(devices := devices, lastParts := parts, curDev := Some(devices[0].id.key), curPart := 0));
  }

  lemma SelectCurrentOk(b: Board, st: State, wanted: string)
    requires Inv(b, st)
    ensures Inv(b, SelectCurrent(st, wanted)) && SameCopies(SelectCurrent(st, wanted), st)
    ensures SelectCurrent(st, wanted).devices == st.devices
  {
    hide FindPart, CurrentSave, TableOk, Numbered, IndexOk, DeviceFind, IdsOfText, Printable, Describes;
    if wanted != "" && wanted != st.lastPartition {
      match FindPart(st.devices, wanted)
      case None =>
      case Some((i, j)) => SelectOk(b, st, i, j);
    } else if st.env.partition.None? {
      Saved(b, st);
      InvAfterSave(b, st);
    }
  }

  lemma InvAfterSave(b: Board, st: State)
    requires Inv(b, st)
    ensures Inv(b, CurrentSave(st))
  {
    hide CurrentSave, TableOk, Numbered, IndexOk, DeviceFind, MtdidsParse, Printable, Describes;
    Saved(b, st);
  }

  /** Making partition `j` of device `i` the current one. */
  lemma SelectOk(b: Board, st: State, i: nat, j: nat)
    requires Inv(b, st) && i < |st.devices| && j < |st.devices[i].parts|
    ensures var r := CurrentSave(st.(curDev := Some(st.devices[i].id.key), curPart := j));
            Inv(b, r) && SameCopies(r, st) && r.devices == st.devices
  {
    hide CurrentSave, TableOk, Numbered, IndexOk, DeviceFind, MtdidsParse, Printable, Describes;
    DistinctOf(b.hw, st.ids, st.devices);
    FindAt(st.devices, i);
    Saved(b, st.(curDev := Some(st.devices[i].id.key), curPart := j));
  }

  /**
    What mtdparts_init relies on: while a table is kept whose text was too long to save, the ids it
    points to must not be replaced.
   */
  predicate IdsStay(b: Board, st: State) {
    EffectiveParts(b, st).None? && st.lastParts == "" && st.devices != [] && EffectiveIds(b, st).Some? ==>
      !IdsChanged(st, EffectiveIds(b, st).value)
  }

  lemma InitPartsOk(b: Board, st: State, parts: Option<string>, idsChanged: bool, wanted: string)
    requires IdsSound(b.hw, st.ids) && st.lastIds != "" && MtdidsParse(b.hw, st.lastIds) == IdsOk(st.ids)
    requires parts.Some? ==> |parts.value| < MTDPARTS_MAXLEN
    requires Inv(b, st) || (parts.Some? && idsChanged) || (parts.None? && st.lastParts != "")
    ensures Inv(b, InitParts(b, st, parts, idsChanged, wanted).0)
    ensures InitParts(b, st, parts, idsChanged, wanted).0.lastIds == st.lastIds
  {
    hide MtdidsParse, DevicesInit, ParseTable, SelectCurrent, Inv, IdsSound;
    match parts
    case None =>
      if st.lastParts != "" {
        DevicesInitOk(b, st.(devices := []));
        SameInit(st, st.(devices := []));
      }
    case Some(text) =>
      if MustParse(st, text, idsChanged) {
        ParseTableOk(b, st, text);
        var parsed := ParseTable(b, st, text).0;
        SelectCurrentOk(b, parsed, wanted);
      } else {
        SelectCurrentOk(b, st, wanted);
      }
  }

  lemma DefaultsOk(b: Board, st: State)
    requires Inv(b, st)
    ensures Inv(b, WithDefaults(b, st)) && Inv(b, st.(env := st.env.(mtdids := EffectiveIds(b, st))))
  {
    hide TableOk, Numbered, DeviceFind, Flattened, MtdidsParse, Printable, Describes;
  }

  /** mtdparts_init keeps the invariant, whether it succeeds or not. */
  lemma InitKeepsInv(b: Board, st: State)
    requires Inv(b, st) && IdsStay(b, st)
    ensures Inv(b, Init(b, st).0) && (Init(b, st).1 ==> Init(b, st).0.lastIds != "")
  {
    hide Inv, WithDefaults, InitIds, InitParts, IdsSound, MtdidsParse;
    DefaultsOk(b, st);
    var ids, parts := EffectiveIds(b, st), EffectiveParts(b, st);
    if ids.Some? && |ids.value| < MTDIDS_MAXLEN && (parts.Some? ==> |parts.value| < MTDPARTS_MAXLEN) {
      var st2 := WithDefaults(b, st);
      InitIdsOk(b, st2, ids.value);
      var (st3, ok) := InitIds(b, st2, ids.value);
      if ok {
        DefaultsFrame(b, st);
        if parts.None? && st3.lastParts == "" {
          KeptTable(b, st, st2, st3);
        }
        InitPartsOk(b, st3, parts, IdsChanged(st, ids.value),
                    if st.env.partition.Some? then Cut(st.env.partition.value, PARTITION_MAXLEN) else "");
      }
    }
  }

  lemma DefaultsFrame(b: Board, st: State)
    ensures var r := WithDefaults(b, st);
            && r.ids == st.ids && r.lastIds == st.lastIds && r.lastParts == st.lastParts
            && r.devices == st.devices && r.curDev == st.curDev && r.curPart == st.curPart
  {
  }

  /** Without a text and without a cached one, the table stays: its ids stay or it is empty. */
  lemma KeptTable(b: Board, st: State, st2: State, st3: State)
    requires Inv(b, st2) && IdsStay(b, st) && EffectiveParts(b, st).None? && EffectiveIds(b, st).Some?
    requires st2.devices == st.devices && st2.lastParts == st.lastParts && st2.lastIds == st.lastIds
    requires st3 == st2.(ids := st3.ids, lastIds := st3.lastIds) && st3.lastParts == ""
    requires !IdsChanged(st2, EffectiveIds(b, st).value) ==> st3 == st2
    requires IdsSound(b.hw, st3.ids) && st3.lastIds != "" && MtdidsParse(b.hw, st3.lastIds) == IdsOk(st3.ids)
    ensures Inv(b, st3)
  {
    if st.devices == [] {
      hide MtdidsParse, IdsSound;
    }
  }

  // ---------------------------------------------------------------- the commands

  /** Saving the printed table leaves a cache that describes it. */
  lemma GenerateSaveOk(b: Board, st: State)
    requires Sound(b, st) && IndexOk(st) && IdsOfText(b, st)
    ensures Inv(b, GenerateSave(st).0)
  {
    hide TableOk, Numbered, DeviceFind, Flattened, MtdidsParse, Printable, Describes, IdsSound, DevicesText;
    if st.devices != [] {
      RoundTrip(b.hw, st.ids, st.devices);
    }
  }

  /** Ids and index after a change of the table. */
  lemma IdsAfterChange(b: Board, st: State, r: State)
    requires IdsOfText(b, st) && SameCopies(r, st) && st.lastIds != ""
    ensures IdsOfText(b, r)
  {
    hide MtdidsParse, IdsSound;
  }

  /** Saving does not bring back a current partition that is lost. */
  lemma SaveKeepsLoss(b: Board, st: State)
    requires !CurrentOk(st)
    ensures !Inv(b, GenerateSave(st).0)
  {
    hide TableOk, DevicesText, DeviceFind;
  }

  /** The deletion moves the number of the current partition off the list. */
  predicate DelFallsOff(st: State, id: string) {
    var f := FindPart(st.devices, id);
    f.Some? && FallsOff(st, f.value.0, f.value.1)
  }

  /** mtdparts del keeps the invariant if and only if it does not move the current number off the list. */
  lemma DelOk(b: Board, st: State, id: string)
    requires Inv(b, st)
    ensures Inv(b, Del(st, id).0) <==> !DelFallsOff(st, id)
  {
    hide IndexOk, GenerateSave, PartDel, FindPart, FallsOff, SameCopies, IdsOfText, TableOk, Numbered, CurrentOk,
         CacheOk;
    match FindPart(st.devices, id)
    case None =>
    case Some((i, j)) =>
      InvSound(b, st);
      PartDelOk(b, st, i, j);
      var r := PartDel(st, i, j);
      if FallsOff(st, i, j) {
        PartDelFalls(b, st, i, j);
        SaveKeepsLoss(b, r);
      } else {
        IdsAfterChange(b, st, r);
        GenerateSaveOk(b, r);
      }
  }

  lemma InvSound(b: Board, st: State)
    requires Inv(b, st)
    ensures Sound(b, st) && (st.devices != [] ==> st.lastIds != "")
  {
    hide TableOk, Numbered, DeviceFind, MtdidsParse, Printable, Describes;
  }

  lemma ChPartOk(b: Board, st: State, id: string)
    requires Inv(b, st)
    ensures Inv(b, ChPart(st, id).0)
  {
    hide Inv, CurrentSave, FindPart;
    match FindPart(st.devices, id)
    case None =>
    case Some((i, j)) => SelectOk(b, st, i, j);
  }

  /**
    What `add` needs room for, once the description is accepted: its text buffer, which also takes
    an `ro` argument that is not measured, and an eight-bit number in the device that grows.
   */
  predicate RoomToAdd(b: Board, st: State, devArg: string, size: string, name: string, ro: string) {
    match DevIdParse(devArg)
    case Bad => true
    case Ok(key, _) =>
      match IdByKey(st.ids, key)
      case None => true
      case Some(id) => AddLength(id, size, name, ro) < PART_ADD_DESC_MAXLEN ==>
        RoomFor(b, st, AddText(id, size, name, ro))
  }

  predicate RoomFor(b: Board, st: State, text: string) {
    && |text| < PART_ADD_DESC_MAXLEN
    && var d := DeviceParse(b.hw, st.ids, st.devices, text);
       d.Ok? && Merge(b, st, d.value).Some? ==> RoomIn(st, d.value.id.key)
  }

  predicate RoomIn(st: State, key: DevKey) {
    var i := DeviceFind(st.devices, key);
    i.Some? ==> |st.devices[i.value].parts| < MAX_PARTS
  }

  lemma MergeOk(b: Board, st: State, dev: Device)
    requires Inv(b, st) && DeviceOk(b.hw, st.ids, dev) && |dev.parts| <= MAX_PARTS && RoomIn(st, dev.id.key)
    requires Merge(b, st, dev).Some?
    ensures var r := Merge(b, st, dev).value; Sound(b, r) && IndexOk(r) && SameCopies(r, st)
  {
    hide Sound, IndexOk, SortAdd, DeviceAdd, SameCopies, Inv, PartValidate;
    InvSound(b, st);
    match DeviceFind(st.devices, dev.id.key)
    case None => DeviceAddOk(b, st, dev);
    case Some(i) =>
      var p := PartValidate(b.hw, st.devices[i].id, dev.parts[0]).value;
      AddedPartFits(b, st, dev, i);
      SortAddOk(b, st, i, p);
  }

  lemma AddedPartFits(b: Board, st: State, dev: Device, i: nat)
    requires Inv(b, st) && DeviceOk(b.hw, st.ids, dev) && i < |st.devices|
    requires PartValidate(b.hw, st.devices[i].id, dev.parts[0]).Some?
    ensures var p := PartValidate(b.hw, st.devices[i].id, dev.parts[0]).value;
            PartFits(b.hw, st.devices[i].id, p) && NameOk(p)
  {
    hide PartValidate, OnEraseBlocks, Sorted, OneAtZero, CurrentOk, IndexOk, IdsOfText, CacheOk;
    NotEmpty(b.hw, st.ids, st.devices, i);
    var q := dev.parts[0];
    assert PartFits(b.hw, dev.id, q) && NameOk(q);
    ValidateFits(b.hw, st.devices[i].id, q);
    SameName(q, q, PartValidate(b.hw, st.devices[i].id, q).value);
  }

  lemma AddOk(b: Board, st: State, devArg: string, size: string, name: string, ro: string)
    requires Inv(b, st) && st.lastIds != "" && RoomToAdd(b, st, devArg, size, name, ro)
    ensures Inv(b, Add(b, st, devArg, size, name, ro).0)
  {
    hide Inv, DevIdParse, DeviceParse, Merge, GenerateSave, AddText, AddLength, Sound, IndexOk, SameCopies, IdsOfText,
         DeviceOk, Indexed, RoomIn;
    InvIndexed(b, st);
    match DevIdParse(devArg)
    case Bad =>
    case Ok(key, _) =>
      match IdByKey(st.ids, key)
      case None =>
      case Some(id) =>
        var text := AddText(id, size, name, ro);
        var d := DeviceParse(b.hw, st.ids, st.devices, text);
        if AddLength(id, size, name, ro) < PART_ADD_DESC_MAXLEN && d.Ok? {
          InvIds(b, st);
          DeviceParseSound(b.hw, st.ids, st.devices, text);
          DeviceCount(b.hw, st.ids, st.devices, text);
          if Merge(b, st, d.value).Some? {
            MergeOk(b, st, d.value);
            var r := Merge(b, st, d.value).value;
            IdsAfterChange(b, st, r);
            GenerateSaveOk(b, r);
          }
        }
  }

  lemma InvIndexed(b: Board, st: State)
    requires Inv(b, st)
    ensures Inv(b, Indexed(st))
  {
    hide Indexed, TableOk, Numbered, IndexOk, DeviceFind, MtdidsParse, Printable, Describes;
    Saved(b, st);
  }

  lemma InvIds(b: Board, st: State)
    requires Inv(b, st)
    ensures IdsSound(b.hw, st.ids) && IdsOfText(b, st)
  {
    hide TableOk, Numbered, DeviceFind, MtdidsParse, Printable, Describes, IdsSound;
  }

  // ---------------------------------------------------------------- runs

  /** What the source relies on when it runs a command. */
  predicate Legal(b: Board, st: State, cmd: Command) {
    match cmd
    case SetVar(_, _) => true
    case Default => IdsStay(b, Reset(st))
    case DelAll => IdsStay(b, st)
    case List => IdsStay(b, st)
    case AddPart(dev, size, name, ro) =>
      IdsStay(b, st) && (Init(b, st).1 ==> RoomToAdd(b, Init(b, st).0, dev, size, name, ro))
    case DelPart(id) => IdsStay(b, st) && (Init(b, st).1 ==> !DelFallsOff(Init(b, st).0, id))
    case Select(_) => IdsStay(b, st)
  }

  lemma EnvOk(b: Board, st: State, env: Env, useDefaults: bool)
    requires Inv(b, st)
    requires env.mtddevnum == st.env.mtddevnum && env.mtddevname == st.env.mtddevname
    ensures Inv(b, st.(env := env, useDefaults := useDefaults))
  {
    hide TableOk, Numbered, DeviceFind, Flattened, MtdidsParse, Printable, Describes;
  }

  lemma DelAllOk(b: Board, st: State)
    requires Inv(b, st)
    ensures Inv(b, DevicesInit(st.(env := st.env.(mtdparts := None))))
  {
    hide Inv, DevicesInit, IdsOfText;
    EnvOk(b, st, st.env.(mtdparts := None), st.useDefaults);
    InvIds(b, st.(env := st.env.(mtdparts := None)));
    DevicesInitOk(b, st.(env := st.env.(mtdparts := None)));
  }

  /** Every command keeps the invariant, whatever it returns. */
  lemma StepKeepsInv(b: Board, st: State, cmd: Command)
    requires Inv(b, st) && Legal(b, st, cmd)
    ensures Inv(b, Step(b, st, cmd).0)
  {
    hide Inv, Init, Add, Del, ChPart, DevicesInit, IdsStay, RoomToAdd, DelFallsOff;
    match cmd
    case SetVar(v, value) =>
      EnvOk(b, st, SetEnv(st, v, value).env, st.useDefaults);
    case Default =>
      EnvOk(b, st, Reset(st).env, true);
      InitKeepsInv(b, Reset(st));
    case DelAll =>
      InitKeepsInv(b, st);
      DelAllOk(b, Init(b, st).0);
    case List =>
      InitKeepsInv(b, st);
    case AddPart(dev, size, name, ro) =>
      InitKeepsInv(b, st);
      if Init(b, st).1 {
        AddOk(b, Init(b, st).0, dev, size, name, ro);
      }
    case DelPart(id) =>
      InitKeepsInv(b, st);
      if Init(b, st).1 {
        DelOk(b, Init(b, st).0, id);
      }
    case Select(id) =>
      InitKeepsInv(b, st);
      if Init(b, st).1 {
        ChPartOk(b, Init(b, st).0, id);
      }
  }

  function Run(b: Board, st: State, cmds: seq<Command>): State
    decreases |cmds|
  {
    if cmds == [] then st else Run(b, Step(b, st, cmds[0]).0, cmds[1..])
  }

  predicate LegalRun(b: Board, st: State, cmds: seq<Command>)
    decreases |cmds|
  {
    cmds == [] || (Legal(b, st, cmds[0]) && LegalRun(b, Step(b, st, cmds[0]).0, cmds[1..]))
  }

  lemma BootOk(b: Board, env: Env)
    ensures Inv(b, Boot(env))
  {
    hide DeviceOk, MtdidsParse;
  }

  lemma {:induction false} RunKeepsInv(b: Board, st: State, cmds: seq<Command>)
    requires Inv(b, st) && LegalRun(b, st, cmds)
    ensures Inv(b, Run(b, st, cmds))
    decreases |cmds|
  {
    if cmds != [] {
      hide Inv, Step, Legal;
      StepKeepsInv(b, st, cmds[0]);
      RunKeepsInv(b, Step(b, st, cmds[0]).0, cmds[1..]);
    }
  }

  /**
    Safety of whole runs: from power-on, whatever the environment holds and whatever commands
    follow, the table is sound, the current partition exists, and `mtddevnum` is the place at which
    the list of all partitions holds it.
   */
  lemma EveryRunIsSound(b: Board, env: Env, cmds: seq<Command>)
    requires LegalRun(b, Boot(env), cmds)
    ensures var st := Run(b, Boot(env), cmds);
            && TableOk(b.hw, st.ids, st.devices)
            && CurrentOk(st)
            && (st.curDev.None? <==> st.devices == [])
            && (st.curDev.Some? ==>
                  var i := DeviceFind(st.devices, st.curDev.value).value;
                  var place := Position(st.devices, i, st.curPart);
                  && place < |Flattened(st.devices)|
                  && Flattened(st.devices)[place] == st.devices[i].parts[st.curPart]
                  && st.env.mtddevnum == Some(Wrap(place, U16))
                  && st.env.mtddevname == Some(Flattened(st.devices)[place].name))
  {
    hide Run, LegalRun, TableOk, Numbered, IdsOfText, CacheOk, Flattened, DeviceFind;
    BootOk(b, env);
    RunKeepsInv(b, Boot(env), cmds);
    var st := Run(b, Boot(env), cmds);
    if st.curDev.Some? {
      PositionNames(st.devices, DeviceFind(st.devices, st.curDev.value).value, st.curPart);
    }
  }

  // ---------------------------------------------------------------- the text cache

  /** mtdparts_init finds both texts as it left them and parses neither. */
  predicate Skips(b: Board, st: State) {
    && EffectiveIds(b, st).Some? && EffectiveParts(b, st).Some?
    && !IdsChanged(st, EffectiveIds(b, st).value)
    && !MustParse(st, EffectiveParts(b, st).value, false)
  }

  /**
    When skipping is sound, over every run: parsing the ids would give the same ids, and parsing the
    text would give the same table, up to generated names, if and only if the text is not the one
    printed for the table or the table reads back from it.
   */
  lemma SkipIsSound(b: Board, env: Env, cmds: seq<Command>)
    requires LegalRun(b, Boot(env), cmds)
    requires Skips(b, Run(b, Boot(env), cmds))
    ensures var st := Run(b, Boot(env), cmds);
            var text := EffectiveParts(b, st).value;
            && MtdidsParse(b.hw, EffectiveIds(b, st).value) == IdsOk(st.ids)
            && (Describes(b.hw, st.ids, text, st.devices) <==> text != TableText(st.devices) || Printable(st.devices))
  {
    hide Run, LegalRun, TableOk, Numbered, CurrentOk, IndexOk, MtdidsParse, Describes, Printable, TableText;
    BootOk(b, env);
    RunKeepsInv(b, Boot(env), cmds);
    var st := Run(b, Boot(env), cmds);
    RoundTrip(b.hw, st.ids, st.devices);
  }

  /** After `add` or `del` has printed the table, skipping is sound exactly for printable tables. */
  lemma SkipAfterPrinting(b: Board, st: State)
    requires Inv(b, st) && st.devices != [] && st.lastParts == TableText(st.devices)
    ensures Describes(b.hw, st.ids, st.lastParts, st.devices) <==> Printable(st.devices)
  {
    hide CurrentOk, IndexOk, IdsOfText, TableOk, Printable, Describes, DevicesText;
    RoundTrip(b.hw, st.ids, st.devices);
  }
}
