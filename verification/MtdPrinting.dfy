/**
  Reading back one printed size, one printed partition, and the printed partitions of a device.
 */
module MtdPrinting {
  import opened TextNumbers
  import opened MtdGrammar

  // ---------------------------------------------------------------- sizes

  /** Text that ends a size: no digit, no 'x' and no k, m or g. */
  predicate EndsSize(rest: string) {
    EndsNumber(rest) && Unit(At(rest, 0)) == 1
  }

  /** A decimal followed by a suffix. */
  lemma ReadScaled(digits: string, n: nat, suffix: char, rest: string)
    requires StrToU(digits + ([suffix] + rest), 0, TWO_64) == (n, [suffix] + rest)
    requires Unit(suffix) != 1 && n * Unit(suffix) < TWO_64
    ensures MemsizeParse(digits + [suffix] + rest) == (n * Unit(suffix), rest)
  {
    assert digits + [suffix] + rest == digits + ([suffix] + rest);
    assert ([suffix] + rest)[1..] == rest;
  }

  lemma ReadBackUnit(size: nat, unit: nat, suffix: char, rest: string)
    requires 1 < unit == Unit(suffix) && size < TWO_64 && size % unit == 0
    ensures MemsizeParse(Print(size / unit, 10, false) + [suffix] + rest) == (size, rest)
  {
    var n := size / unit;
    assert n * unit == size;
    ReadDecimal(n, [suffix] + rest, TWO_64);
    ReadScaled(Print(n, 10, false), n, suffix, rest);
  }

  lemma ReadBackPlain(size: nat, rest: string)
    requires size < TWO_64 && EndsSize(rest)
    ensures MemsizeParse(Print(size, 10, false) + rest) == (size, rest)
  {
    ReadDecimal(size, rest, TWO_64);
  }

  /** memsize_parse undoes memsize_format for every 64-bit size, with and without a suffix. */
  lemma MemsizeReadBack(size: nat, rest: string)
    requires size < TWO_64
    requires EndsSize(rest)
    ensures MemsizeParse(MemsizeFormat(size) + rest) == (size, rest)
  {
    if size % SIZE_GB == 0 {
      ReadBackUnit(size, SIZE_GB, 'g', rest);
    } else if size % SIZE_MB == 0 {
      ReadBackUnit(size, SIZE_MB, 'm', rest);
    } else if size % SIZE_KB == 0 {
      ReadBackUnit(size, SIZE_KB, 'k', rest);
    } else {
      ReadBackPlain(size, rest);
    }
  }

  // ---------------------------------------------------------------- one partition

  /** What follows a printed partition. */
  predicate IsTail(tail: string) {
    tail == "" || tail[0] == ',' || tail[0] == ';'
  }

  /** The partition as re-parsing names it: user names stay, generated names are generated anew. */
  function Renamed(p: Part, expected: nat): Part {
    if p.autoName then p.(name := AutoName(p.size, WrittenOffset(p, expected))) else p
  }

  /** The offset as it appears in the text: left out when there is no gap. */
  function WrittenOffset(p: Part, expected: nat): nat {
    if p.offset != expected then p.offset else OFFSET_NOT_SPECIFIED
  }

  lemma ReadBackRo(p: Part, tail: string)
    requires IsTail(tail)
    ensures ReadRo(RoText(p) + tail) == (p.ro, tail)
    ensures EndsOffset(RoText(p) + tail) && At(RoText(p) + tail, 0) != '('
  {
    var s := RoText(p) + tail;
    if p.ro {
      assert s[..2] == "ro" && s[2..] == tail;
    } else {
      assert s == tail;
      assert 2 <= |s| ==> s[..2][0] == s[0];
    }
  }

  lemma NameGiven(name: string, after: string)
    requires UserNameOk(name)
    ensures ReadName("(" + name + ")" + after) == Ok(Some(name), after)
  {
    var s := "(" + name + ")" + after;
    assert s[1..] == name + [')'] + after;
    FindSplit(name, ')', after);
    assert s[1..][..|name|] == name;
    assert s[1..][|name| + 1..] == after;
  }

  /** What can follow the offset of a printed partition. */
  predicate EndsOffset(after: string) {
    EndsSize(after) && At(after, 0) != '@'
  }

  lemma ReadBackName(p: Part, after: string)
    requires NameOk(p)
    requires EndsOffset(after) && At(after, 0) != '('
    ensures ReadName(NameText(p) + after) == Ok(if p.autoName then None else Some(p.name), after)
    ensures EndsOffset(NameText(p) + after)
  {
    if p.autoName {
      assert NameText(p) + after == after;
    } else {
      NameGiven(p.name, after);
    }
  }

  lemma OffsetGiven(text: string, offset: nat, after: string)
    requires MemsizeParse(text + after) == (offset, after)
    ensures ReadOffset("@" + text + after) == (offset, after)
    ensures EndsSize("@" + text + after)
  {
    assert ("@" + text + after)[1..] == text + after;
  }

  lemma ReadBackOffset(p: Part, expected: nat, after: string)
    requires p.offset < TWO_64
    requires EndsOffset(after)
    ensures ReadOffset(OffsetText(p, expected) + after) == (WrittenOffset(p, expected), after)
    ensures EndsSize(OffsetText(p, expected) + after)
  {
    if p.offset != expected {
      MemsizeReadBack(p.offset, after);
      OffsetGiven(MemsizeFormat(p.offset), p.offset, after);
    } else {
      assert OffsetText(p, expected) + after == after;
    }
  }

  lemma ReadBackSize(p: Part, after: string)
    requires p.size < TWO_64 && EndsSize(after)
    ensures ReadSize(MemsizeFormat(p.size) + after) == if p.size < MIN_PART_SIZE then Bad else Ok(p.size, after)
  {
    var s := MemsizeFormat(p.size) + after;
    assert s[0] == MemsizeFormat(p.size)[0];
    MemsizeReadBack(p.size, after);
  }

  /** What is left of `tail` once the separator is read. */
  function AfterComma(tail: string): string {
    if tail != "" && tail[0] == ',' then tail[1..] else tail
  }

  /** The stages of part_parse, put together. */
  lemma PartFromStages(s: string, size: nat, s1: string, offset: nat, s2: string, name: Option<string>, s3: string,
                       ro: bool, tail: string)
    requires ReadSize(s) == Ok(size, s1) && size != SIZE_REMAINING
    requires ReadOffset(s1) == (offset, s2)
    requires ReadName(s2) == Ok(name, s3)
    requires ReadRo(s3) == (ro, tail) && IsTail(tail)
    ensures PartParse(s) == Ok(Part(size, offset, if name.Some? then name.value else AutoName(size, offset),
                                    name.None?, ro, 0), AfterComma(tail))
  {
  }

  /** part_parse on one printed partition, whatever follows it. */
  lemma PartReadBack(p: Part, expected: nat, tail: string)
    requires IsTail(tail) && NameOk(p)
    requires p.size < SIZE_REMAINING && p.offset < TWO_64
    ensures PartParse(PartText(p, expected) + tail)
            == if p.size < MIN_PART_SIZE then Bad
               else Ok(Renamed(p, expected).(offset := WrittenOffset(p, expected), sectorSize := 0), AfterComma(tail))
  {
    var afterName := RoText(p) + tail;
    ReadBackRo(p, tail);
    var afterOffset := NameText(p) + afterName;
    ReadBackName(p, afterName);
    var afterSize := OffsetText(p, expected) + afterOffset;
    ReadBackOffset(p, expected, afterOffset);
    var s := MemsizeFormat(p.size) + afterSize;
    ReadBackSize(p, afterSize);
    Concat5(MemsizeFormat(p.size), OffsetText(p, expected), NameText(p), RoText(p), tail);
    if MIN_PART_SIZE <= p.size {
      PartFromStages(s, p.size, afterSize, WrittenOffset(p, expected), afterOffset,
                     if p.autoName then None else Some(p.name), afterName, p.ro, tail);
    }
  }

  lemma Concat5(a: string, b: string, c: string, d: string, e: string)
    ensures a + b + c + d + e == a + (b + (c + (d + e)))
  {
  }

  // ---------------------------------------------------------------- the partitions of a device

  /** A valid partition passes validation again and is not changed by it. */
  lemma ValidateAgain(hw: Hardware, id: MtdId, p: Part, sectorSize: nat)
    requires PartFits(hw, id, p) && IdOk(hw, id)
    ensures p.offset + p.size < SIZE_REMAINING && End(p) == p.offset + p.size
    ensures PartValidate(hw, id, p.(sectorSize := sectorSize)) == Some(p)
  {
  }

  predicate AllFit(hw: Hardware, id: MtdId, parts: seq<Part>) {
    forall i :: 0 <= i < |parts| ==> PartFits(hw, id, parts[i]) && NameOk(parts[i])
  }

  predicate AllAtLeastMinimum(parts: seq<Part>) {
    forall i :: 0 <= i < |parts| ==> MIN_PART_SIZE <= parts[i].size
  }

  /** The partitions of a device with their generated names replaced. */
  function RenamedParts(parts: seq<Part>, expected: nat): (r: seq<Part>)
    ensures |r| == |parts|
    ensures forall i :: 0 <= i < |r| ==> r[i].offset == parts[i].offset && r[i].size == parts[i].size
  {
    if parts == [] then []
    else [Renamed(parts[0], expected)] + RenamedParts(parts[1..], End(parts[0]))
  }

  /** One turn of the partition loop on a printed partition. */
  lemma PartStep(hw: Hardware, id: MtdId, p: Part, expected: nat, tail: string, acc: seq<Part>)
    requires IsTail(tail) && NameOk(p) && PartFits(hw, id, p) && IdOk(hw, id)
    ensures PartsParse(hw, id, PartText(p, expected) + tail, expected, acc)
            == if p.size < MIN_PART_SIZE then Bad
               else PartsParse(hw, id, AfterComma(tail), End(p),
                               acc + [Renamed(p, expected)])
  {
    var s := PartText(p, expected) + tail;
    assert s[0] == MemsizeFormat(p.size)[0];
    ValidateAgain(hw, id, p, 0);
    PartReadBack(p, expected, tail);
    ValidateAgain(hw, id, Renamed(p, expected), 0);
  }

  /** At the end of a device the loop stops. */
  lemma PartsDone(hw: Hardware, id: MtdId, tail: string, expected: nat, acc: seq<Part>)
    requires tail == "" || tail[0] == ';'
    ensures IsTail(tail) && PartsParse(hw, id, AfterComma(tail), expected, acc) == Ok(acc, tail)
  {
  }

  lemma PartsTextSplit(parts: seq<Part>, expected: nat, tail: string)
    requires 1 < |parts|
    ensures PartsText(parts, expected) + tail
            == PartText(parts[0], expected) + ("," + (PartsText(parts[1..], End(parts[0])) + tail))
  {
    Concat4(PartText(parts[0], expected), ",", PartsText(parts[1..], End(parts[0])), tail);
  }

  lemma Concat4(a: string, b: string, c: string, d: string)
    ensures a + b + c + d == a + (b + (c + d))
  {
  }

  lemma AfterCommaIs(others: string)
    ensures IsTail("," + others) && AfterComma("," + others) == others
  {
    assert ("," + others)[1..] == others;
  }

  lemma MinimumSplit(parts: seq<Part>)
    requires parts != []
    ensures AllAtLeastMinimum(parts) <==> MIN_PART_SIZE <= parts[0].size && AllAtLeastMinimum(parts[1..])
  {
    assert forall i :: 1 <= i < |parts| ==> parts[i] == parts[1..][i - 1];
  }

  lemma AllOfNone(parts: seq<Part>, expected: nat)
    requires parts == []
    ensures AllAtLeastMinimum(parts) && RenamedParts(parts, expected) == []
  {
  }

  lemma RenamedSplit(parts: seq<Part>, expected: nat, acc: seq<Part>)
    requires parts != []
    ensures acc + RenamedParts(parts, expected)
            == acc + [Renamed(parts[0], expected)] + RenamedParts(parts[1..], End(parts[0]))
  {
  }

  /** The partition loop on the printed partitions of a device. */
  lemma {:induction false} PartsReadBack(hw: Hardware, id: MtdId, parts: seq<Part>, expected: nat, tail: string,
                                         acc: seq<Part>)
    requires parts != [] && AllFit(hw, id, parts) && IdOk(hw, id)
    requires tail == "" || tail[0] == ';'
    ensures PartsParse(hw, id, PartsText(parts, expected) + tail, expected, acc)
            == if AllAtLeastMinimum(parts) then Ok(acc + RenamedParts(parts, expected), tail) else Bad
    decreases |parts|
  {
    hide PartText, Renamed, PartsParse, AllAtLeastMinimum, PartFits, NameOk, AfterComma, IsTail;
    var p := parts[0];
    var grown := acc + [Renamed(p, expected)];
    MinimumSplit(parts);
    RenamedSplit(parts, expected, acc);
    if |parts| == 1 {
      PartsDone(hw, id, tail, End(p), grown);
      PartStep(hw, id, p, expected, tail, acc);
      AllOfNone(parts[1..], End(p));
      assert grown + [] == grown;
    } else {
      var others := PartsText(parts[1..], End(p)) + tail;
      PartsTextSplit(parts, expected, tail);
      AfterCommaIs(others);
      PartStep(hw, id, p, expected, "," + others, acc);
      PartsReadBack(hw, id, parts[1..], End(p), tail, grown);
    }
  }
}
