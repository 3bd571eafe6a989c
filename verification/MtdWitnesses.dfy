/**
  Where the round trip of the mtdparts text fails, on concrete tables: a partition that fills up a
  remainder smaller than the parser's minimum, and two partitions at one offset.
 */
module MtdWitnesses {
  import opened TextNumbers
  import opened MtdGrammar
  import opened MtdPrinting
  import opened MtdTies
  import opened MtdRoundTrip
  import opened MtdTable

  const NOR0: DevKey := DevKey(Nor, 0)
  const CHIP: Mtd := RawMtd(16384, 1024, [])
  const FLASH: Hardware := map[NOR0 := CHIP]
  const ID: MtdId := MtdId(NOR0, 16384, "f")

  lemma ReadFifteenK()
    ensures MemsizeParse("15k") == (15360, "")
  {
    assert "15k"[1..] == "5k" && "5k"[1..] == "k" && "k"[1..] == "";
    assert DigitRun("k", 10, 15) == (15, "k");
    assert DigitRun("5k", 10, 1) == (15, "k");
    assert StrToU("15k", 0, TWO_64) == (15, "k");
  }

  lemma ReadFillUp()
    ensures PartParse("-@15k") == Ok(Part(SIZE_REMAINING, 15360, AutoName(SIZE_REMAINING, 15360), true, false, 0), "")
  {
    hide MemsizeParse, AutoName;
    assert "-@15k"[1..] == "@15k" && "@15k"[1..] == "15k";
    ReadFifteenK();
    assert ReadSize("-@15k") == Ok(SIZE_REMAINING, "@15k");
    assert ReadOffset("@15k") == (15360, "");
  }

  /** The last 1024 bytes of a 16 KiB chip. */
  const TAIL: Part := Part(1024, 15360, AutoName(SIZE_REMAINING, 15360), true, false, 1024)

  lemma ValidateFillUp()
    ensures PartValidate(FLASH, ID, Part(SIZE_REMAINING, 15360, TAIL.name, true, false, 0)) == Some(TAIL)
  {
    hide AutoName;
    assert NOR0 in FLASH && FLASH[NOR0] == CHIP;
  }

  lemma PartsFillUp()
    ensures PartsParse(FLASH, ID, "-@15k", 0, []) == Ok([TAIL], "")
  {
    hide PartParse, PartValidate, AutoName;
    ReadFillUp();
    ValidateFillUp();
    var p := Part(SIZE_REMAINING, 15360, TAIL.name, true, false, 0);
    assert Placed(p, 0) == p;
    assert [] + [TAIL] == [TAIL];
    assert PartsParse(FLASH, ID, "", End(TAIL), [TAIL]) == Ok([TAIL], "");
  }

  lemma ParseFillUp()
    ensures DeviceParse(FLASH, [ID], [], "f:-@15k") == Ok(Device(ID, [TAIL], 1), "")
  {
    hide PartsParse, DeviceParse, AutoName;
    PartsFillUp();
    InsertOne(TAIL);
    assert IdByName([ID], "f") == Some(ID);
    DeviceFromStages(FLASH, [ID], [], ID, "-@15k", Ok([TAIL], ""));
    assert "f" + ":" + "-@15k" == "f:-@15k";
  }

  /** The table is accepted, but the text printed for it is not: its only partition is too small. */
  lemma RemainderDoesNotReadBack()
    ensures TableParse(FLASH, [ID], "mtdparts=f:-@15k") == Some([Device(ID, [TAIL], 1)])
    ensures TableParse(FLASH, [ID], TableText([Device(ID, [TAIL], 1)])) == None
  {
    hide DeviceParse, AutoName, TableText;
    var text := "mtdparts=f:-@15k";
    var dev := Device(ID, [TAIL], 1);
    assert text[..9] == PREFIX && text[9..] == "f:-@15k";
    ParseFillUp();
    DeviceStep(FLASH, [ID], [], "f:-@15k", Ok(dev, ""));
    DevicesDone(FLASH, [ID], [dev]);
    assert [] + [dev] == [dev];
    assert IdsSound(FLASH, [ID]);
    TableParseSound(FLASH, [ID], text);
    assert !AllAtLeastMinimum([TAIL]) by { assert [TAIL][0].size < MIN_PART_SIZE; }
    assert !NoneTooSmall([dev]) by { assert [dev][0].parts == [TAIL]; }
    TableReadBack(FLASH, [ID], [dev]);
  }

  const A: Part := Part(4096, 8192, "a", false, false, 1024)
  const B: Part := Part(4096, 8192, "b", false, false, 1024)

  lemma TwoAtOneOffset()
    ensures DeviceOk(FLASH, [ID], Device(ID, [A, B], 2))
  {
    assert NOR0 in FLASH && FLASH[NOR0] == CHIP;
    assert IdByName([ID], "f") == Some(ID);
    assert PartFits(FLASH, ID, A) && PartFits(FLASH, ID, B);
    assert NameOk(A) && NameOk(B);
  }

  /** Two partitions at one offset change places. */
  lemma TiesSwap()
    ensures TableParse(FLASH, [ID], TableText([Device(ID, [A, B], 2)])) == Some([Device(ID, [B, A], 2)])
  {
    hide TableParse, TableText, DeviceOk, PartFits;
    var dev := Device(ID, [A, B], 2);
    TwoAtOneOffset();
    assert TableOk(FLASH, [ID], [dev]) by { assert [dev][0] == dev; }
    assert NoneTooSmall([dev]);
    TableReadBack(FLASH, [ID], [dev]);
    assert RenamedParts([A, B], 0) == [A, B] by {
      assert [A, B][1..] == [B];
      assert RenamedParts([B], End(A)) == [B];
    }
    assert TiesReversed([A, B]) == [B, A] by {
      assert GroupStart([A, B], 2) == 0;
      assert [A, B][0..] == [A, B] && [A, B][..0] == [];
      TiesUnfold([A, B], 0);
      assert Reversed([A, B]) == [B, A];
    }
    assert ReadBackDevices([dev]) == [Device(ID, [B, A], 2)];
  }
}
