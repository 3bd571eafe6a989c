/**
  Short runs of mtdparts commands from power-on that reach the exceptions of the run theorems: a
  printed text that mtdparts_init does not parse again although it would be refused, and a deletion
  after which no partition is current.
 */
module MtdScenarios {
  import opened TextNumbers
  import opened MtdGrammar
  import opened MtdPrinting
  import opened MtdTies
  import opened MtdRoundTrip
  import opened MtdTable
  import opened MtdCommands
  import opened MtdInvariant
  import opened MtdRuns
  import opened MtdSteps
  import opened MtdWitnesses

  const BOARD := Board(FLASH, None, None)
  const IDS := "nor0=f"
  const ENV := Env(Some(IDS), None, None, None, None)

  // ---------------------------------------------------------------- the first mtdparts_init

  lemma NameRead(rest: string)
    requires EndsNumber(rest)
    ensures DevIdParse("nor0" + rest) == Ok(NOR0, rest)
  {
    hide DevIdParse;
    assert Print(0, 10, false) == "0";
    DevIdBack(NOR0, rest);
    assert "nor" + ("0" + rest) == "nor0" + rest;
  }

  lemma OneIdParsed(s: string, rest: string)
    requires DevIdParse(s) == Ok(NOR0, rest) && |rest| == 2 && rest[0] == '=' && rest[1] == 'f'
    ensures IdsParse(FLASH, s, []) == IdsOk([ID])
  {
    hide DevIdParse;
    assert rest[1..] == "f" && NOR0 in FLASH;
    assert [] + [ID] == [ID];
  }

  lemma IdsRead()
    ensures MtdidsParse(FLASH, IDS) == IdsOk([ID]) && DevIdParse("nor0") == Ok(NOR0, "")
  {
    hide DevIdParse, IdsParse;
    NameRead("=f");
    NameRead("");
    assert "nor0" + "=f" == IDS && "nor0" + "" == "nor0";
    OneIdParsed(IDS, "=f");
  }

  /** The ids are known, nothing else is. */
  const READY := Boot(ENV).(ids := [ID], lastIds := IDS)

  lemma FirstInit()
    ensures Init(BOARD, Boot(ENV)) == (READY, true)
  {
    hide MtdidsParse;
    IdsRead();
  }

  // ---------------------------------------------------------------- one more partition

  lemma OneParsed(acc: seq<Device>, body: string, p: Part)
    requires PartsParse(FLASH, ID, body, NextFree(acc, NOR0), []) == Ok([p], "")
    ensures DeviceParse(FLASH, [ID], acc, ID.name + ":" + body) == Ok(Device(ID, [p], 1), "")
  {
    InsertOne(p);
    hide PartsParse, NextFree, InsertAll;
    var s := ID.name + ":" + body;
    FindSplit(ID.name, ':', body);
    assert s[..1] == ID.name && s[2..] == body;
  }

  /** The device `dev` is the table, its partition `cur` is current, and both texts are saved. */
  predicate Holding(st: State, dev: Device, cur: nat) {
    && st.ids == [ID] && st.lastIds == IDS && st.env.mtdids == Some(IDS)
    && st.devices == [dev] && dev.id == ID && st.curDev == Some(NOR0) && st.curPart == cur
    && st.lastParts == TableText([dev]) && st.env.mtdparts == Some(st.lastParts)
    && st.env.partition == Some(PartitionText(NOR0, cur))
    && st.lastPartition == Cut(PartitionText(NOR0, cur), PARTITION_MAXLEN)
  }

  /** mtdparts_init finds everything as it was. */
  lemma InitHolding(st: State, dev: Device, cur: nat)
    requires Holding(st, dev, cur) && |TableText([dev])| < MTDPARTS_MAXLEN
    ensures Init(BOARD, st) == (st, true) && IdsStay(BOARD, st) && Skips(BOARD, st)
  {
    hide PartitionText, DevicesText, Cut;
  }

  lemma SaveHolding(st: State, dev: Device, cur: nat)
    requires st.ids == [ID] && st.lastIds == IDS && st.env.mtdids == Some(IDS)
    requires st.devices == [dev] && dev.id == ID && st.curDev == Some(NOR0) && st.curPart == cur
    requires |DevicesText([dev])| < MTDPARTS_MAXLEN
    ensures Holding(GenerateSave(CurrentSave(st)).0, dev, cur)
    ensures st.lastParts == TableText([dev]) && st.env.mtdparts == Some(st.lastParts) ==>
            Holding(CurrentSave(st), dev, cur)
  {
    hide PartitionText, DevicesText, Cut, DevNum, PartInfo;
  }

  lemma AddTextIs(size: string, name: string)
    ensures AddText(ID, size, name, "") == ID.name + ":" + (size + "(" + name + ")")
    ensures |size| + |name| < 20 ==>
            && |AddText(ID, size, name, "")| < PART_ADD_DESC_MAXLEN
            && AddLength(ID, size, name, "") < PART_ADD_DESC_MAXLEN
  {
    var text := ID.name + ":" + size + "(" + name + ")";
    assert text + "" == text;
    assert text == ID.name + ":" + (size + "(" + name + ")");
  }

  /** What `mtdparts add nor0 ...` does with a description that parses. */
  lemma AddParsed(st: State, size: string, name: string, p: Part)
    requires st.ids == [ID] && |size| + |name| < 20
    requires PartsParse(FLASH, ID, size + "(" + name + ")", NextFree(st.devices, NOR0), []) == Ok([p], "")
    ensures var merged := Merge(BOARD, st, Device(ID, [p], 1));
            && Add(BOARD, st, "nor0", size, name, "")
               == (if merged.None? then (Indexed(st), false) else GenerateSave(merged.value))
            && (RoomIn(st, NOR0) ==> RoomToAdd(BOARD, st, "nor0", size, name, ""))
  {
    hide PartsParse, DevIdParse, DeviceParse, GenerateSave, Merge, Indexed, RoomIn, AddText, AddLength, NextFree;
    IdsRead();
    AddTextIs(size, name);
    OneParsed(st.devices, size + "(" + name + ")", p);
  }

  lemma StepAdds(st: State, ready: State, size: string, name: string)
    requires Init(BOARD, st) == (ready, true) && IdsStay(BOARD, st) && RoomToAdd(BOARD, ready, "nor0", size, name, "")
    ensures Legal(BOARD, st, AddPart("nor0", size, name, ""))
    ensures Step(BOARD, st, AddPart("nor0", size, name, "")) == Add(BOARD, ready, "nor0", size, name, "")
  {
    hide Init, Add, RoomToAdd, IdsStay;
  }

  /** The first partition on the board. */
  lemma AddFirst(size: string, name: string, p: Part)
    requires PartsParse(FLASH, ID, size + "(" + name + ")", 0, []) == Ok([p], "") && |size| + |name| < 20
    requires |DevicesText([Device(ID, [p], 1)])| < MTDPARTS_MAXLEN
    ensures Legal(BOARD, Boot(ENV), AddPart("nor0", size, name, ""))
    ensures Holding(Step(BOARD, Boot(ENV), AddPart("nor0", size, name, "")).0, Device(ID, [p], 1), 0)
  {
    hide PartsParse, DevicesText, CurrentSave, GenerateSave, Holding, Init, Add, RoomToAdd, Step, Legal;
    FirstInit();
    var dev := Device(ID, [p], 1);
    assert DeviceFind([], NOR0) == None && RoomIn(READY, NOR0);
    AddParsed(READY, size, name, p);
    StepAdds(Boot(ENV), READY, size, name);
    var st := READY.(devices := [dev], curDev := Some(NOR0), curPart := 0);
    assert [] + [dev] == [dev];
    assert Merge(BOARD, READY, dev) == Some(CurrentSave(st));
    SaveHolding(st, dev, 0);
  }

  // ---------------------------------------------------------------- a text that is not parsed again

  lemma KiloText(n: nat, digits: string)
    requires 0 < n < 1024 && Print(n, 10, false) == digits
    ensures MemsizeFormat(n * 1024) == digits + "k"
  {
    hide Print;
  }

  lemma FifteenText()
    ensures MemsizeFormat(15360) == "15k" && MemsizeFormat(1024) == "1k"
  {
    assert Print(1, 10, false) == "1";
    assert Print(15, 10, false) == Print(1, 10, false) + "5" == "15";
    KiloText(15, "15");
    KiloText(1, "1");
  }

  /** part_parse of "-", an offset and a name. */
  lemma RemainderParsed(s: string, s1: string, offset: nat, s2: string, name: string)
    requires ReadSize(s) == Ok(SIZE_REMAINING, s1) && ReadOffset(s1) == (offset, s2)
    requires ReadName(s2) == Ok(Some(name), "")
    ensures PartParse(s) == Ok(Part(SIZE_REMAINING, offset, name, false, false, 0), "")
  {
    hide ReadSize, ReadOffset, ReadName, AutoName;
  }

  lemma OffsetAndName()
    ensures ReadOffset("@15k(t)") == (15360, "(t)") && ReadName("(t)") == Ok(Some("t"), "")
  {
    hide MemsizeParse, MemsizeFormat, ReadName;
    FifteenText();
    MemsizeReadBack(15360, "(t)");
    NameGiven("t", "");
    assert "15k" + "(t)" == "15k(t)" && "@15k(t)"[1..] == "15k(t)" && "(" + "t" + ")" + "" == "(t)";
  }

  lemma ReadNamedTail()
    ensures PartParse("-@15k(t)") == Ok(Part(SIZE_REMAINING, 15360, "t", false, false, 0), "")
  {
    hide PartParse, ReadOffset, ReadName, MemsizeParse;
    assert "-@15k(t)"[1..] == "@15k(t)";
    OffsetAndName();
    RemainderParsed("-@15k(t)", "@15k(t)", 15360, "(t)", "t");
  }

  const NAMED_TAIL := Part(1024, 15360, "t", false, false, 1024)

  lemma PartsNamedTail()
    ensures PartsParse(FLASH, ID, "-@15k(t)", 0, []) == Ok([NAMED_TAIL], "")
  {
    hide PartParse;
    ReadNamedTail();
    var p := Part(SIZE_REMAINING, 15360, "t", false, false, 0);
    assert NOR0 in FLASH && FLASH[NOR0] == CHIP;
    assert PartValidate(FLASH, ID, Placed(p, 0)) == Some(NAMED_TAIL);
    hide PartValidate;
    assert [] + [NAMED_TAIL] == [NAMED_TAIL];
    assert PartsParse(FLASH, ID, "", End(NAMED_TAIL), [NAMED_TAIL]) == Ok([NAMED_TAIL], "");
  }

  lemma NamedTailText()
    ensures DevicesText([Device(ID, [NAMED_TAIL], 1)]) == "f:1k@15k(t)"
  {
    FifteenText();
    hide MemsizeFormat;
    assert PartText(NAMED_TAIL, 0) == "1k" + ("@" + "15k") + ("(" + "t" + ")") + "";
  }

  const FILL := [AddPart("nor0", "-@15k", "t", "")]

  /**
    A partition is added that fills up a remainder below the minimum.  mtdparts_init then skips the
    text that was printed, keeps the table and succeeds; parsing the text would fail.
   */
  lemma SkipsWhatWouldFail()
    ensures LegalRun(BOARD, Boot(ENV), FILL)
    ensures var st := Run(BOARD, Boot(ENV), FILL);
            && Skips(BOARD, st) && Init(BOARD, st) == (st, true) && st.devices == [Device(ID, [NAMED_TAIL], 1)]
            && TableParse(FLASH, st.ids, EffectiveParts(BOARD, st).value) == None
  {
    hide PartsParse, Step, Legal, DevicesText, TableParse, Init, Holding;
    PartsNamedTail();
    NamedTailText();
    assert "-@15k" + "(" + "t" + ")" == "-@15k(t)";
    var dev := Device(ID, [NAMED_TAIL], 1);
    AddFirst("-@15k", "t", NAMED_TAIL);
    var st := Step(BOARD, Boot(ENV), FILL[0]).0;
    assert FILL[1..] == [];
    InitHolding(st, dev, 0);
    TooSmallToRead(dev);
    HoldingMeans(st, dev, 0);
  }

  lemma HoldingMeans(st: State, dev: Device, cur: nat)
    requires Holding(st, dev, cur)
    ensures st.ids == [ID] && st.devices == [dev] && EffectiveParts(BOARD, st) == Some(TableText([dev]))
  {
  }

  lemma TooSmallToRead(dev: Device)
    requires dev == Device(ID, [NAMED_TAIL], 1)
    ensures TableParse(FLASH, [ID], TableText([dev])) == None
  {
    hide TableText, TableParse;
    assert NOR0 in FLASH && FLASH[NOR0] == CHIP;
    assert IdByName([ID], "f") == Some(ID);
    assert PartFits(FLASH, ID, NAMED_TAIL) && NameOk(NAMED_TAIL);
    assert DeviceOk(FLASH, [ID], dev);
    hide DeviceOk;
    assert [dev][0] == dev;
    assert !AllAtLeastMinimum([NAMED_TAIL]) by { assert [NAMED_TAIL][0].size < MIN_PART_SIZE; }
    assert !NoneTooSmall([dev]);
    TableReadBack(FLASH, [ID], [dev]);
  }

  // ---------------------------------------------------------------- a deletion that loses the current partition

  lemma FourAndEight()
    ensures MemsizeFormat(4096) == "4k" && MemsizeFormat(8192) == "8k"
  {
    assert Print(4, 10, false) == "4" && Print(8, 10, false) == "8";
    KiloText(4, "4");
    KiloText(8, "8");
  }

  lemma TextOf(p: Part, expected: nat)
    requires (p == A || p == B) && expected != 8192
    ensures PartText(p, expected) == "4k@8k" + "(" + p.name + ")"
  {
    FourAndEight();
    hide MemsizeFormat;
    assert "4k" + ("@" + "8k") == "4k@8k";
    assert PartText(p, expected) == "4k@8k" + ("(" + p.name + ")") + "";
  }

  lemma PartsOf(p: Part, expected: nat)
    requires (p == A || p == B) && expected != 8192
    ensures PartsParse(FLASH, ID, "4k@8k" + "(" + p.name + ")", expected, []) == Ok([p], "")
  {
    hide PartsParse, PartText;
    TextOf(p, expected);
    assert PartText(p, expected) + "" == PartText(p, expected);
    FitsFlash();
    PartStep(FLASH, ID, p, expected, "", []);
    PartsDone(FLASH, ID, "", End(p), [p]);
    assert [] + [p] == [p];
  }

  lemma FitsFlash()
    ensures IdOk(FLASH, ID) && PartFits(FLASH, ID, A) && PartFits(FLASH, ID, B) && NameOk(A) && NameOk(B)
    ensures PartValidate(FLASH, ID, A) == Some(A) && PartValidate(FLASH, ID, B) == Some(B)
  {
    assert NOR0 in FLASH && FLASH[NOR0] == CHIP;
  }

  const ONE := Device(ID, [A], 1)
  const TIED := Device(ID, [B, A], 2)

  lemma TextLengths()
    ensures |DevicesText([ONE])| < 100 && |DevicesText([TIED])| < 100
  {
    TextOf(A, 0);
    TextOf(B, 0);
    TextOf(A, End(B));
    hide PartText;
    assert [B, A][1..] == [A];
    assert PartsText([A], End(B)) == PartText(A, End(B));
    assert |PartsText([A], 0)| == 8;
    assert |PartsText([B, A], 0)| == 17;
  }

  /** A second partition at the same offset goes in front, and the number follows the first one. */
  lemma AddSecond(st: State)
    requires Holding(st, ONE, 0)
    ensures Legal(BOARD, st, AddPart("nor0", "4k@8k", "b", ""))
    ensures Holding(Step(BOARD, st, AddPart("nor0", "4k@8k", "b", "")).0, TIED, 1)
  {
    hide PartsParse, DevicesText, CurrentSave, GenerateSave, Init, Add, RoomToAdd, Step, Legal, PartValidate,
         PartitionText, Cut, TableText;
    TextLengths();
    TableLength(ONE);
    InitHolding(st, ONE, 0);
    assert DeviceFind([ONE], NOR0) == Some(0) && RoomIn(st, NOR0);
    assert NextFree([ONE], NOR0) == End(A) == 12288;
    PartsOf(B, End(A));
    AddParsed(st, "4k@8k", B.name, B);
    StepAdds(st, st, "4k@8k", "b");
    SecondMerged(st);
    SaveHolding(st.(devices := [TIED], curPart := 1), TIED, 1);
  }

  lemma TableLength(dev: Device)
    requires |DevicesText([dev])| < 100
    ensures |TableText([dev])| < MTDPARTS_MAXLEN
  {
    hide DevicesText;
  }

  lemma SecondMerged(st: State)
    requires st.ids == [ID] && st.devices == [ONE] && st.curDev == Some(NOR0) && st.curPart == 0
    ensures Merge(BOARD, st, Device(ID, [B], 1)) == Some(CurrentSave(st.(devices := [TIED], curPart := 1)))
  {
    hide CurrentSave, PartValidate;
    FitsFlash();
    assert DeviceFind([ONE], NOR0) == Some(0);
    assert Slot([A], B, 0) == Some(0);
    assert [A][..0] + [B] + [A][0..] == [B, A];
    assert With(ONE, B, 0) == TIED;
    assert [ONE][0 := TIED] == [TIED];
  }

  lemma FindByName()
    ensures FindPart([TIED], "b") == Some((0, 0)) && FindPart([TIED], "a") == Some((0, 1))
  {
    assert FindName([TIED], "b", 0, 0) == Some((0, 0));
    assert FindName([TIED], "a", 0, 1) == Some((0, 1));
    assert FindName([TIED], "a", 0, 0) == Some((0, 1));
  }

  lemma SelectSecond(st: State)
    requires Holding(st, TIED, 1)
    ensures Legal(BOARD, st, Select("b")) && Holding(Step(BOARD, st, Select("b")).0, TIED, 0)
  {
    hide DevicesText, CurrentSave, Init, FindPart, PartitionText, Cut, TableText;
    TextLengths();
    TableLength(TIED);
    InitHolding(st, TIED, 1);
    FindByName();
    SaveHolding(st.(curPart := 0), TIED, 0);
  }

  const TIE_RUN := [AddPart("nor0", "4k@8k", "a", ""), AddPart("nor0", "4k@8k", "b", ""), Select("b")]

  lemma TieReached()
    ensures LegalRun(BOARD, Boot(ENV), TIE_RUN) && Holding(Run(BOARD, Boot(ENV), TIE_RUN), TIED, 0)
  {
    hide Step, Legal, Holding, PartsParse, DevicesText;
    TextLengths();
    PartsOf(A, 0);
    AddFirst("4k@8k", A.name, A);
    var st1 := Step(BOARD, Boot(ENV), TIE_RUN[0]).0;
    AddSecond(st1);
    var st2 := Step(BOARD, st1, TIE_RUN[1]).0;
    SelectSecond(st2);
    var st3 := Step(BOARD, st2, TIE_RUN[2]).0;
    var last := [TIE_RUN[2]];
    assert TIE_RUN[1..] == [TIE_RUN[1], TIE_RUN[2]] && TIE_RUN[1..][1..] == last && last[1..] == [];
    assert Run(BOARD, st2, last) == st3 && LegalRun(BOARD, st2, last);
    assert Run(BOARD, st1, TIE_RUN[1..]) == st3 && LegalRun(BOARD, st1, TIE_RUN[1..]);
  }

  /** The run goes on with `mtdparts del a`: the current number becomes 255 and no partition is current. */
  lemma TieDeletionLosesCurrent()
    ensures LegalRun(BOARD, Boot(ENV), TIE_RUN)
    ensures var st := Run(BOARD, Boot(ENV), TIE_RUN);
            var after := Step(BOARD, st, DelPart("a")).0;
            CurrentOk(st) && DelFallsOff(st, "a") && after.curPart == 255 && !CurrentOk(after)
  {
    hide Run, LegalRun, Init, FindPart, PartDel, GenerateSave, CurrentSave, PartitionText, Cut, DevicesText, TableText;
    TieReached();
    var st := Run(BOARD, Boot(ENV), TIE_RUN);
    TextLengths();
    TableLength(TIED);
    InitHolding(st, TIED, 0);
    FindByName();
    BootOk(BOARD, ENV);
    RunKeepsInv(BOARD, Boot(ENV), TIE_RUN);
    InvSound(BOARD, st);
    PartDelFalls(BOARD, st, 0, 1);
    SaveKeepsNumber(PartDel(st, 0, 1));
  }

  lemma SaveKeepsNumber(st: State)
    ensures var r := GenerateSave(st).0; r.curPart == st.curPart && (CurrentOk(r) <==> CurrentOk(st))
  {
    hide DevicesText, DeviceFind;
  }
}
