/**
  The text form of a GUID partition table (boot/rpi/cmd/gpt.c): written by
  create_gpt_partitions_list, read by set_gpt_info.  Random UUIDs and type GUIDs are not
  configured.  Block addresses are 64-bit.
 */
module GptText {
  import opened TextNumbers
  import Words

  const NAME_SIZE := 32
  const UUID_SIZE := 37
  /** calc_parts_list_len for 64 partitions. */
  const MAX_TEXT := 7665

  datatype Part = Part(start: nat, size: nat, name: string, uuid: string, bootable: bool)

  // ---------------------------------------------------------------- cutting strings

  /** strsep with one separator: the token, and what is left behind the separator. */
  function Sep(s: string, c: char): (r: (string, Option<string>))
    ensures r.1.Some? ==> |r.1.value| < |s|
  {
    var i := Find(s, c);
    if i.None? then (s, None) else (s[..i.value], Some(s[i.value + 1..]))
  }

  /** extract_val: the value of the first `key` in a list of pairs. */
  function ExtractVal(s: string, key: string): Option<string>
    decreases |s|
  {
    var (pair, rest) := Sep(s, ',');
    var (k, v) := Sep(pair, '=');
    if k == key then v
    else if rest.None? then None
    else ExtractVal(rest.value, key)
  }

  /** found_key */
  predicate FoundKey(s: string, key: string)
    decreases |s|
  {
    var (k, rest) := Sep(s, ',');
    k == key || (rest.Some? && FoundKey(rest.value, key))
  }

  predicate Reference(v: string) {
    4 <= |v| && StartsWith(v, "${") && v[|v| - 1] == '}'
  }

  /** extract_env: a value of the form ${name} stands for the variable, if that is set. */
  function Expand(env: map<string, string>, v: string): string {
    if Reference(v) && v[2..|v| - 1] in env then env[v[2..|v| - 1]] else v
  }

  /** ustrtoull with base 0. */
  function UStrToU(s: string): nat {
    var (v, rest) := StrToU(s, 0, TWO_64);
    if At(rest, 0) == 'G' then Wrap(v * 1073741824, TWO_64)
    else if At(rest, 0) == 'M' then Wrap(v * 1048576, TWO_64)
    else if At(rest, 0) == 'K' || At(rest, 0) == 'k' then Wrap(v * 1024, TWO_64)
    else v
  }

  // ---------------------------------------------------------------- reading

  datatype Result<T> = Ok(value: T) | Err(code: int)

  /** A value that has to be there and to fit its field. */
  function Field(env: map<string, string>, tok: string, key: string, room: nat): Result<string> {
    var v := ExtractVal(tok, key);
    if v.None? || |Expand(env, v.value)| >= room then Err(-4) else Ok(Expand(env, v.value))
  }

  /** lldiv by the block size. */
  function InBlocks(bytes: nat, blksz: nat): nat
    requires 0 < blksz
  {
    bytes / blksz
  }

  function SizeOf(env: map<string, string>, v: string, blksz: nat): nat
    requires 0 < blksz
  {
    if Expand(env, v) == "-" then 0 else InBlocks(UStrToU(Expand(env, v)), blksz)
  }

  /** The body of the partition loop of set_gpt_info. */
  function ReadPart(env: map<string, string>, tok: string, blksz: nat): Result<Part>
    requires 0 < blksz
  {
    var uuid := Field(env, tok, "uuid", UUID_SIZE);
    var name := Field(env, tok, "name", NAME_SIZE);
    var size, start := ExtractVal(tok, "size"), ExtractVal(tok, "start");
    if uuid.Err? || name.Err? || size.None? then Err(-4)
    else
      Ok(Part(if start.None? then 0 else InBlocks(UStrToU(Expand(env, start.value)), blksz),
              SizeOf(env, size.value, blksz), name.value, uuid.value, FoundKey(tok, "bootable")))
  }

  /** The tokens between semicolons, read one after another. */
  function ReadParts(env: map<string, string>, s: string, blksz: nat): Result<seq<Part>>
    requires 0 < blksz
    decreases |s|
  {
    var (tok, rest) := Sep(s, ';');
    var part := ReadPart(env, tok, blksz);
    if part.Err? then Err(part.code)
    else if rest.None? then Ok([part.value])
    else
      var parts := ReadParts(env, rest.value, blksz);
      if parts.Err? then parts else Ok([part.value] + parts.value)
  }

  /** The last semicolon is dropped; strnlen looks at MAX_TEXT characters only. */
  function Trim(s: string): string
    requires s != ""
  {
    var n := if |s| < MAX_TEXT then |s| else MAX_TEXT;
    if s[n - 1] == ';' then s[..n - 1] else s
  }

  /** set_gpt_info: the disk GUID and the partitions. */
  function SetInfo(env: map<string, string>, s: string, blksz: nat): Result<(string, seq<Part>)>
    requires 0 < blksz
  {
    var guid := ExtractVal(s, "uuid_disk");
    if guid.None? then Err(-2)
    else
      var body := Sep(s, ';').1;
      if body.None? then Err(-22)
      else if body.value == "" then Err(-3)
      else
        var parts := ReadParts(env, Trim(body.value), blksz);
        if parts.Err? then Err(parts.code) else Ok((Expand(env, Sep(guid.value, ';').0), parts.value))
  }

  // ---------------------------------------------------------------- writing

  /** ",start=0x%llx": the product is 64-bit. */
  function BytesText(blocks: nat, blksz: nat): string {
    "0x" + Print(Wrap(blocks * blksz, TWO_64), 16, false)
  }

  function PartText(p: Part, blksz: nat): string {
    "name=" + p.name + "," + ("start=" + BytesText(p.start, blksz) + "," +
      ("size=" + BytesText(p.size, blksz) + "," + ("uuid=" + p.uuid)))
  }

  function PartsText(parts: seq<Part>, blksz: nat): string {
    if parts == [] then "" else PartText(parts[0], blksz) + ";" + PartsText(parts[1..], blksz)
  }

  /** create_gpt_partitions_list */
  function ListText(guid: string, parts: seq<Part>, blksz: nat): string {
    "uuid_disk=" + guid + ";" + PartsText(parts, blksz)
  }

  // ---------------------------------------------------------------- pairs

  predicate Plain(s: string) {
    ',' !in s && ';' !in s
  }

  lemma SepAt(a: string, c: char, b: string)
    requires c !in a
    ensures Sep(a + [c] + b, c) == (a, Some(b))
  {
    FindSplit(a, c, b);
    var s := a + [c] + b;
    assert s[..|a|] == a && s[|a| + 1..] == b;
  }

  lemma SepNone(s: string, c: char)
    requires c !in s
    ensures Sep(s, c) == (s, None)
  {
  }

  /** A pair in front of others. */
  lemma ExtractStep(k: string, v: string, rest: string, key: string)
    requires ',' !in k && '=' !in k && ',' !in v
    ensures ExtractVal(k + "=" + v + "," + rest, key) == if k == key then Some(v) else ExtractVal(rest, key)
  {
    var pair := k + "=" + v;
    assert pair + "," + rest == k + "=" + v + "," + rest;
    SepAt(pair, ',', rest);
    SepAt(k, '=', v);
  }

  /** The last pair. */
  lemma ExtractLast(k: string, v: string, key: string)
    requires ',' !in k && '=' !in k && ',' !in v
    ensures ExtractVal(k + "=" + v, key) == if k == key then Some(v) else None
  {
    SepNone(k + "=" + v, ',');
    SepAt(k, '=', v);
  }

  lemma FoundStep(k: string, rest: string, key: string)
    requires ',' !in k && '=' in k && '=' !in key
    ensures FoundKey(k + "," + rest, key) == FoundKey(rest, key)
  {
    SepAt(k, ',', rest);
  }

  lemma BytesTextPlain(blocks: nat, blksz: nat)
    ensures Plain(BytesText(blocks, blksz)) && '$' !in BytesText(blocks, blksz) && |BytesText(blocks, blksz)| >= 3
  {
    var digits := Print(Wrap(blocks * blksz, TWO_64), 16, false);
    forall i | 0 <= i < |digits|
      ensures digits[i] != ',' && digits[i] != ';' && digits[i] != '$'
    {
      assert DigitValue(digits[i]) < 16;
    }
  }

  /** The four values of a partition are found again. */
  lemma ExtractPart(p: Part, blksz: nat)
    requires Plain(p.name) && Plain(p.uuid)
    ensures var t := PartText(p, blksz);
            && ExtractVal(t, "name") == Some(p.name)
            && ExtractVal(t, "start") == Some(BytesText(p.start, blksz))
            && ExtractVal(t, "size") == Some(BytesText(p.size, blksz))
            && ExtractVal(t, "uuid") == Some(p.uuid)
  {
    hide ExtractVal, BytesText;
    BytesTextPlain(p.start, blksz);
    BytesTextPlain(p.size, blksz);
    var start, size := BytesText(p.start, blksz), BytesText(p.size, blksz);
    var t3 := "uuid=" + p.uuid;
    var t2 := "size=" + size + "," + t3;
    var t1 := "start=" + start + "," + t2;
    forall key: string
      ensures ExtractVal(PartText(p, blksz), key)
              == if key == "name" then Some(p.name) else if key == "start" then Some(start)
                 else if key == "size" then Some(size) else if key == "uuid" then Some(p.uuid) else None
    {
      KeyStep("name", p.name, t1, key);
      KeyStep("start", start, t2, key);
      KeyStep("size", size, t3, key);
      assert "uuid" + "=" + p.uuid == t3;
      ExtractLast("uuid", p.uuid, key);
    }
  }

  lemma KeyStep(k: string, v: string, rest: string, key: string)
    requires ',' !in k && '=' !in k && ',' !in v
    ensures ExtractVal(k + "=" + v + "," + rest, key) == if k == key then Some(v) else ExtractVal(rest, key)
    ensures forall prefix :: prefix == k + "=" ==> prefix + v + "," + rest == k + "=" + v + "," + rest
  {
    ExtractStep(k, v, rest, key);
  }

  // ---------------------------------------------------------------- one partition

  lemma BytesBack(blocks: nat, blksz: nat)
    ensures UStrToU(BytesText(blocks, blksz)) == Wrap(blocks * blksz, TWO_64)
  {
    var n := Wrap(blocks * blksz, TWO_64);
    NumberBack(n);
  }

  lemma NumberBack(n: nat)
    requires n < TWO_64
    ensures UStrToU("0x" + Print(n, 16, false)) == n
  {
    var digits := Print(n, 16, false);
    var s := "0x" + digits;
    RunOfPrint(n, 16, false, "");
    RunStops("", 16, n);
    hide Print, DigitRun, StrToU;
    assert digits + "" == digits && s[2..] == digits && s[0] == '0' && s[1] == 'x';
    ReadHex(n, s, digits, 0, "", TWO_64);
  }

  /** What a number of blocks reads back as: itself, if its bytes fit 64 bits. */
  function BlocksBack(blocks: nat, blksz: nat): nat
    requires 0 < blksz
  {
    InBlocks(Wrap(blocks * blksz, TWO_64), blksz)
  }

  lemma BlocksKept(blocks: nat, blksz: nat)
    requires 0 < blksz && blocks * blksz < TWO_64
    ensures BlocksBack(blocks, blksz) == blocks
  {
    assert blocks * blksz / blksz == blocks;
  }

  /** The name and uuid as they are read back. */
  function PartBack(env: map<string, string>, p: Part, blksz: nat): Part
    requires 0 < blksz
  {
    Part(BlocksBack(p.start, blksz), BlocksBack(p.size, blksz), Expand(env, p.name), Expand(env, p.uuid), false)
  }

  predicate FieldsFit(env: map<string, string>, p: Part) {
    |Expand(env, p.name)| < NAME_SIZE && |Expand(env, p.uuid)| < UUID_SIZE
  }

  lemma NotBootable(p: Part, blksz: nat)
    requires Plain(p.name) && Plain(p.uuid)
    ensures !FoundKey(PartText(p, blksz), "bootable")
  {
    hide BytesText, FoundKey;
    BytesTextPlain(p.start, blksz);
    BytesTextPlain(p.size, blksz);
    var t3 := "uuid=" + p.uuid;
    var t2 := "size=" + BytesText(p.size, blksz) + "," + t3;
    var t1 := "start=" + BytesText(p.start, blksz) + "," + t2;
    FoundStep("name=" + p.name, t1, "bootable");
    FoundStep("start=" + BytesText(p.start, blksz), t2, "bootable");
    FoundStep("size=" + BytesText(p.size, blksz), t3, "bootable");
    FoundLast(t3, "bootable");
  }

  lemma FoundLast(s: string, key: string)
    requires ',' !in s && s != key
    ensures !FoundKey(s, key)
  {
    SepNone(s, ',');
  }

  lemma BytesLiteral(env: map<string, string>, blocks: nat, blksz: nat)
    ensures Expand(env, BytesText(blocks, blksz)) == BytesText(blocks, blksz) != "-"
  {
    BytesTextPlain(blocks, blksz);
    hide BytesText, Reference;
    NoReference(BytesText(blocks, blksz));
  }

  lemma NoReference(v: string)
    requires '$' !in v
    ensures !Reference(v)
  {
    if 2 <= |v| {
      assert v[..2][0] == v[0];
    }
  }

  /** One partition, printed and read: exactly this comes back. */
  lemma PartReadBack(env: map<string, string>, p: Part, blksz: nat)
    requires 0 < blksz && Plain(p.name) && Plain(p.uuid)
    ensures ReadPart(env, PartText(p, blksz), blksz)
            == if FieldsFit(env, p) then Ok(PartBack(env, p, blksz)) else Err(-4)
  {
    hide ExtractVal, FoundKey, Expand, UStrToU, BytesText, PartText, InBlocks, Wrap;
    ExtractPart(p, blksz);
    NotBootable(p, blksz);
    BytesLiteral(env, p.start, blksz);
    BytesLiteral(env, p.size, blksz);
    BytesBack(p.start, blksz);
    BytesBack(p.size, blksz);
  }

  // ---------------------------------------------------------------- the list

  predicate AllPlain(parts: seq<Part>) {
    forall i :: 0 <= i < |parts| ==> Plain(parts[i].name) && Plain(parts[i].uuid)
  }

  predicate AllFit(env: map<string, string>, parts: seq<Part>) {
    forall i :: 0 <= i < |parts| ==> FieldsFit(env, parts[i])
  }

  function PartsBack(env: map<string, string>, parts: seq<Part>, blksz: nat): seq<Part>
    requires 0 < blksz
  {
    seq(|parts|, i requires 0 <= i < |parts| => PartBack(env, parts[i], blksz))
  }

  /** The list without its last semicolon. */
  function Body(parts: seq<Part>, blksz: nat): string
    requires parts != []
  {
    if |parts| == 1 then PartText(parts[0], blksz) else PartText(parts[0], blksz) + ";" + Body(parts[1..], blksz)
  }

  lemma {:induction false} BodyEnds(parts: seq<Part>, blksz: nat)
    requires parts != []
    ensures PartsText(parts, blksz) == Body(parts, blksz) + ";"
    decreases |parts|
  {
    hide PartText;
    if |parts| == 1 {
      assert PartsText(parts[1..], blksz) == "";
    } else {
      BodyEnds(parts[1..], blksz);
    }
  }

  lemma PartTextPlain(p: Part, blksz: nat)
    requires Plain(p.name) && Plain(p.uuid)
    ensures ';' !in PartText(p, blksz)
  {
    BytesTextPlain(p.start, blksz);
    BytesTextPlain(p.size, blksz);
    hide BytesText;
  }

  lemma ReadOne(env: map<string, string>, tok: string, blksz: nat)
    requires 0 < blksz && ';' !in tok
    ensures ReadParts(env, tok, blksz)
            == var part := ReadPart(env, tok, blksz); if part.Err? then Err(part.code) else Ok([part.value])
  {
    hide ReadPart;
    SepNone(tok, ';');
  }

  lemma ReadStep(env: map<string, string>, tok: string, rest: string, blksz: nat)
    requires 0 < blksz && ';' !in tok
    ensures ReadParts(env, tok + ";" + rest, blksz)
            == var part, parts := ReadPart(env, tok, blksz), ReadParts(env, rest, blksz);
               if part.Err? then Err(part.code) else if parts.Err? then parts else Ok([part.value] + parts.value)
  {
    hide ReadPart;
    SepAt(tok, ';', rest);
  }

  lemma BodyStep(parts: seq<Part>, blksz: nat)
    requires parts != []
    ensures Body(parts, blksz) == if |parts| == 1 then PartText(parts[0], blksz)
            else PartText(parts[0], blksz) + ";" + Body(parts[1..], blksz)
  {
  }

  lemma BackStep(env: map<string, string>, parts: seq<Part>, blksz: nat)
    requires 0 < blksz && parts != []
    ensures PartsBack(env, parts, blksz) == [PartBack(env, parts[0], blksz)] + PartsBack(env, parts[1..], blksz)
    ensures |parts| == 1 ==> PartsBack(env, parts, blksz) == [PartBack(env, parts[0], blksz)]
  {
    hide PartBack;
  }

  lemma {:induction false} PartsReadBack(env: map<string, string>, parts: seq<Part>, blksz: nat)
    requires 0 < blksz && parts != [] && AllPlain(parts)
    ensures ReadParts(env, Body(parts, blksz), blksz)
            == if AllFit(env, parts) then Ok(PartsBack(env, parts, blksz)) else Err(-4)
    decreases |parts|
  {
    hide PartText, ReadPart, ReadParts, PartBack, PartsBack, FieldsFit, AllFit, Body, Plain;
    var p := parts[0];
    PartTextPlain(p, blksz);
    PartReadBack(env, p, blksz);
    BodyStep(parts, blksz);
    BackStep(env, parts, blksz);
    FitStep(env, parts);
    if |parts| == 1 {
      ReadOne(env, PartText(p, blksz), blksz);
      FitNone(env, parts[1..]);
    } else {
      ReadStep(env, PartText(p, blksz), Body(parts[1..], blksz), blksz);
      PartsReadBack(env, parts[1..], blksz);
    }
  }

  lemma FitNone(env: map<string, string>, parts: seq<Part>)
    requires parts == []
    ensures AllFit(env, parts)
  {
  }

  lemma FitStep(env: map<string, string>, parts: seq<Part>)
    requires parts != []
    ensures AllFit(env, parts) <==> FieldsFit(env, parts[0]) && AllFit(env, parts[1..])
  {
    hide FieldsFit;
    assert parts == [parts[0]] + parts[1..];
  }

  lemma GuidBack(guid: string, parts: seq<Part>, blksz: nat)
    requires Plain(guid) && parts != [] && Plain(parts[0].name)
    ensures var v := ExtractVal(ListText(guid, parts, blksz), "uuid_disk");
            v.Some? && Sep(v.value, ';').0 == guid
    ensures Sep(ListText(guid, parts, blksz), ';').1 == Some(PartsText(parts, blksz))
  {
    hide ExtractVal, BytesText, Sep, PartsText;
    var p := parts[0];
    var v := guid + ";name=" + p.name;
    var t1 := "start=" + BytesText(p.start, blksz) + "," +
      ("size=" + BytesText(p.size, blksz) + "," + ("uuid=" + p.uuid));
    var more := t1 + ";" + PartsText(parts[1..], blksz);
    var s := ListText(guid, parts, blksz);
    ListShape(guid, parts, blksz, t1);
    ExtractStep("uuid_disk", v, more, "uuid_disk");
    Regroup2(guid, p.name);
    SepAt(guid, ';', "name=" + p.name);
    SepAt("uuid_disk=" + guid, ';', PartsText(parts, blksz));
  }

  lemma Regroup2(guid: string, name: string)
    ensures guid + ";name=" + name == guid + ";" + ("name=" + name)
  {
  }

  lemma ListShape(guid: string, parts: seq<Part>, blksz: nat, t1: string)
    requires parts != []
    requires t1 == "start=" + BytesText(parts[0].start, blksz) + "," +
             ("size=" + BytesText(parts[0].size, blksz) + "," + ("uuid=" + parts[0].uuid))
    ensures ListText(guid, parts, blksz)
            == "uuid_disk" + "=" + (guid + ";name=" + parts[0].name) + "," + (t1 + ";" + PartsText(parts[1..], blksz))
  {
    hide BytesText;
    var rest := PartsText(parts[1..], blksz);
    assert PartsText(parts, blksz) == ("name=" + parts[0].name + "," + t1) + ";" + rest;
    hide PartsText, PartText;
    Regroup("uuid_disk", "=", guid, ";", "name=", parts[0].name, ",", t1, rest);
    assert ";" + "name=" == ";name=" && "uuid_disk" + "=" == "uuid_disk=";
  }

  lemma Regroup(u: string, e: string, g: string, s: string, k: string, n: string, c: string, t: string, r: string)
    ensures (u + e) + g + s + ((k + n + c + t) + s + r) == u + e + (g + (s + k) + n) + c + (t + s + r)
  {
  }

  /**
    The whole table, printed and read: the GUID and every partition come back, names and uuids as
    the environment expands them.
   */
  lemma ListReadBack(env: map<string, string>, guid: string, parts: seq<Part>, blksz: nat)
    requires 0 < blksz && Plain(guid) && parts != [] && AllPlain(parts) && |PartsText(parts, blksz)| <= MAX_TEXT
    ensures SetInfo(env, ListText(guid, parts, blksz), blksz)
            == if AllFit(env, parts) then Ok((Expand(env, guid), PartsBack(env, parts, blksz))) else Err(-4)
  {
    hide ExtractVal, ListText, PartsText, Sep, ReadParts, AllFit, PartsBack, Expand;
    GuidBack(guid, parts, blksz);
    BodyEnds(parts, blksz);
    TrimBody(parts, blksz);
    PartsReadBack(env, parts, blksz);
  }

  lemma TrimBody(parts: seq<Part>, blksz: nat)
    requires parts != [] && |PartsText(parts, blksz)| <= MAX_TEXT
    ensures PartsText(parts, blksz) != "" && Trim(PartsText(parts, blksz)) == Body(parts, blksz)
  {
    hide PartsText, Body;
    BodyEnds(parts, blksz);
  }

  // ---------------------------------------------------------------- texts that are too long

  /** The semicolons in a text. */
  function Semis(s: string): nat {
    if s == "" then 0 else (if s[0] == ';' then 1 else 0) + Semis(s[1..])
  }

  lemma {:induction false} SemisAppend(a: string, b: string)
    ensures Semis(a + b) == Semis(a) + Semis(b)
    decreases |a|
  {
    if a == "" {
      assert a + b == b;
    } else {
      SemisAppend(a[1..], b);
      assert (a + b)[1..] == a[1..] + b;
    }
  }

  lemma {:induction false} SemisNone(s: string)
    requires ';' !in s
    ensures Semis(s) == 0
    decreases |s|
  {
    if s != "" {
      SemisNone(s[1..]);
    }
  }

  lemma SemisAtEnd(s: string)
    requires s != "" && s[|s| - 1] == ';'
    ensures 1 <= Semis(s)
  {
    SemisAppend(s[..|s| - 1], ";");
    assert s == s[..|s| - 1] + ";";
    assert Semis(";") == 1;
  }

  lemma SemisStep(tok: string, rest: string)
    requires ';' !in tok
    ensures Semis(tok + ";" + rest) == 1 + Semis(rest)
  {
    SemisNone(tok);
    SemisAppend(tok, ";");
    SemisAppend(tok + ";", rest);
    assert Semis(";") == 1;
  }

  /** One partition for every semicolon and one more. */
  lemma {:induction false} ReadCount(env: map<string, string>, s: string, blksz: nat)
    requires 0 < blksz && ReadParts(env, s, blksz).Ok?
    ensures |ReadParts(env, s, blksz).value| == Semis(s) + 1
    decreases |s|
  {
    hide ReadPart;
    match Find(s, ';')
    case None =>
      SemisNone(s);
    case Some(i) =>
      var tok, rest := s[..i], s[i + 1..];
      assert s == tok + ";" + rest;
      SemisStep(tok, rest);
      ReadCount(env, rest, blksz);
  }

  lemma {:induction false} PartsTextSemis(parts: seq<Part>, blksz: nat)
    requires AllPlain(parts)
    ensures Semis(PartsText(parts, blksz)) == |parts|
    decreases |parts|
  {
    hide PartText, Plain;
    if parts != [] {
      PartTextPlain(parts[0], blksz);
      SemisStep(PartText(parts[0], blksz), PartsText(parts[1..], blksz));
      PartsTextSemis(parts[1..], blksz);
    }
  }

  lemma NothingRefused(env: map<string, string>, blksz: nat)
    requires 0 < blksz
    ensures ReadParts(env, "", blksz).Err?
  {
    SepNone("", ';');
    SepNone("", ',');
    SepNone("", '=');
    assert ExtractVal("", "uuid") == None;
  }

  /** The text with its last semicolon is refused: nothing stands behind it. */
  lemma {:induction false} UntrimmedRefused(env: map<string, string>, parts: seq<Part>, blksz: nat)
    requires 0 < blksz && AllPlain(parts)
    ensures ReadParts(env, PartsText(parts, blksz), blksz).Err?
    decreases |parts|
  {
    hide PartText, Plain, ReadParts, ReadPart;
    if parts == [] {
      NothingRefused(env, blksz);
    } else {
      PartTextPlain(parts[0], blksz);
      ReadStep(env, PartText(parts[0], blksz), PartsText(parts[1..], blksz), blksz);
      UntrimmedRefused(env, parts[1..], blksz);
    }
  }

  lemma CutSemis(s: string, n: nat)
    requires 0 < n < |s| && s[n - 1] == ';' && s[|s| - 1] == ';'
    ensures Semis(s[..n - 1]) + 2 <= Semis(s)
  {
    hide Semis;
    var a, b := s[..n - 1], s[n..];
    assert s == (a + ";") + b;
    SemisAppend(a, ";");
    SemisAppend(a + ";", b);
    SemisAtEnd(";");
    SemisAtEnd(b);
  }

  lemma LongRead(env: map<string, string>, parts: seq<Part>, blksz: nat)
    requires 0 < blksz && parts != [] && AllPlain(parts) && MAX_TEXT < |PartsText(parts, blksz)|
    ensures var r := ReadParts(env, Trim(PartsText(parts, blksz)), blksz); r.Err? || |r.value| < |parts|
  {
    hide PartsText, ReadParts, Body, Semis, AllPlain;
    var text := PartsText(parts, blksz);
    BodyEnds(parts, blksz);
    UntrimmedRefused(env, parts, blksz);
    if text[MAX_TEXT - 1] == ';' {
      CutSemis(text, MAX_TEXT);
      PartsTextSemis(parts, blksz);
      if ReadParts(env, Trim(text), blksz).Ok? {
        ReadCount(env, Trim(text), blksz);
      }
    }
  }

  /** A text longer than set_gpt_info looks at is refused or loses partitions at its end. */
  lemma LongListLoses(env: map<string, string>, guid: string, parts: seq<Part>, blksz: nat)
    requires 0 < blksz && Plain(guid) && AllPlain(parts) && MAX_TEXT < |PartsText(parts, blksz)|
    ensures var r := SetInfo(env, ListText(guid, parts, blksz), blksz); r.Err? || |r.value.1| < |parts|
  {
    assert parts != [] && Plain(parts[0].name);
    hide ListText, PartsText, ReadParts, ExtractVal, Sep, Trim, AllPlain, Plain, Expand;
    GuidBack(guid, parts, blksz);
    LongRead(env, parts, blksz);
  }

  lemma NoPartsRefused(env: map<string, string>, guid: string, blksz: nat)
    requires 0 < blksz && Plain(guid)
    ensures SetInfo(env, ListText(guid, [], blksz), blksz).Err?
  {
    hide ExtractVal;
    SepAt("uuid_disk=" + guid, ';', "");
    assert ListText(guid, [], blksz) == "uuid_disk=" + guid + ";" + "";
    hide Sep;
  }

  /**
    A partition that a caller can expect back: short names, no references to variables that are set,
    bytes in 64 bits.
   */
  predicate Representable(env: map<string, string>, p: Part, blksz: nat) {
    && Expand(env, p.name) == p.name && |p.name| < NAME_SIZE
    && Expand(env, p.uuid) == p.uuid && |p.uuid| < UUID_SIZE
    && p.start * blksz < TWO_64 && p.size * blksz < TWO_64
  }

  lemma WrapLoses(n: nat, blksz: nat)
    requires 0 < blksz && TWO_64 <= n * blksz
    ensures BlocksBack(n, blksz) != n
  {
    var w := Wrap(n * blksz, TWO_64);
    Words.AtLeast(w / blksz - n, blksz);
  }

  lemma PartSame(env: map<string, string>, p: Part, blksz: nat)
    requires 0 < blksz
    ensures FieldsFit(env, p) && PartBack(env, p, blksz) == p.(bootable := false)
            <==> Representable(env, p, blksz)
  {
    if p.start * blksz < TWO_64 {
      BlocksKept(p.start, blksz);
    } else {
      WrapLoses(p.start, blksz);
    }
    if p.size * blksz < TWO_64 {
      BlocksKept(p.size, blksz);
    } else {
      WrapLoses(p.size, blksz);
    }
    hide BlocksBack;
  }

  function Unbootable(parts: seq<Part>): seq<Part> {
    seq(|parts|, i requires 0 <= i < |parts| => parts[i].(bootable := false))
  }

  predicate AllRepresentable(env: map<string, string>, guid: string, parts: seq<Part>, blksz: nat) {
    Expand(env, guid) == guid && forall i :: 0 <= i < |parts| ==> Representable(env, parts[i], blksz)
  }

  /** For a text that set_gpt_info looks at as a whole: everything comes back if and only if it is representable. */
  lemma ShortListSame(env: map<string, string>, guid: string, parts: seq<Part>, blksz: nat)
    requires 0 < blksz && Plain(guid) && parts != [] && AllPlain(parts) && |PartsText(parts, blksz)| <= MAX_TEXT
    ensures SetInfo(env, ListText(guid, parts, blksz), blksz) == Ok((guid, Unbootable(parts)))
            <==> AllRepresentable(env, guid, parts, blksz)
  {
    hide ListText, PartsText, SetInfo, Representable, PartBack, FieldsFit;
    ListReadBack(env, guid, parts, blksz);
    forall i | 0 <= i < |parts|
      ensures FieldsFit(env, parts[i]) && PartBack(env, parts[i], blksz) == parts[i].(bootable := false)
              <==> Representable(env, parts[i], blksz)
    {
      PartSame(env, parts[i], blksz);
    }
    var back := PartsBack(env, parts, blksz);
    if AllRepresentable(env, guid, parts, blksz) {
      assert back == Unbootable(parts);
    }
    if AllFit(env, parts) && back == Unbootable(parts) {
      forall i | 0 <= i < |parts|
        ensures Representable(env, parts[i], blksz)
      {
        assert back[i] == Unbootable(parts)[i];
      }
    }
  }

  /**
    The same GUID and the same names, starts, sizes and uuids come back if and only if there are
    partitions, their text is not too long, and all of them are representable.
   */
  lemma ListSameIff(env: map<string, string>, guid: string, parts: seq<Part>, blksz: nat)
    requires 0 < blksz && Plain(guid) && AllPlain(parts)
    ensures SetInfo(env, ListText(guid, parts, blksz), blksz) == Ok((guid, Unbootable(parts)))
            <==> parts != [] && |PartsText(parts, blksz)| <= MAX_TEXT && AllRepresentable(env, guid, parts, blksz)
  {
    hide ListText, PartsText, SetInfo, AllRepresentable;
    if parts == [] {
      NoPartsRefused(env, guid, blksz);
    } else if |PartsText(parts, blksz)| <= MAX_TEXT {
      ShortListSame(env, guid, parts, blksz);
    } else {
      LongListLoses(env, guid, parts, blksz);
      assert |Unbootable(parts)| == |parts|;
    }
  }
}
