/**
  Swapping two partition names (the swap branch of do_rename_gpt_parts in boot/rpi/cmd/gpt.c) and
  the string loops of the command as they run.
 */
module GptSwap {
  import opened TextNumbers
  import opened GptText

  const EINVAL := -22

  function Renamed(name: string, name1: string, name2: string): string {
    if name == name1 then name2 else if name == name2 then name1 else name
  }

  function SwapNames(parts: seq<Part>, name1: string, name2: string): seq<Part> {
    seq(|parts|, i requires 0 <= i < |parts| => parts[i].(name := Renamed(parts[i].name, name1, name2)))
  }

  /** How many partitions are called `name`. */
  function Count(parts: seq<Part>, name: string): nat {
    if parts == [] then 0 else (if parts[0].name == name then 1 else 0) + Count(parts[1..], name)
  }

  /** What the two counters hold after the loop: the second name is only looked at when the first did not match. */
  function Second(parts: seq<Part>, name1: string, name2: string): nat {
    if name1 == name2 then 0 else Count(parts, name2)
  }

  predicate SwapAllowed(parts: seq<Part>, name1: string, name2: string) {
    && |name1| <= NAME_SIZE && |name2| <= NAME_SIZE
    && 2 <= Count(parts, name1) + Second(parts, name1, name2)
    && Count(parts, name1) == Second(parts, name1, name2)
  }

  /** The partitions handed to gpt_restore. */
  function Swap(env: map<string, string>, guid: string, parts: seq<Part>, name1: string, name2: string,
                blksz: nat): Result<seq<Part>>
    requires 0 < blksz
  {
    var before := SetInfo(env, ListText(guid, parts, blksz), blksz);
    if before.Err? then Err(before.code)
    else if !SwapAllowed(parts, name1, name2) then Err(EINVAL)
    else
      var after := SetInfo(env, ListText(guid, SwapNames(parts, name1, name2), blksz), blksz);
      if after.Err? then Err(after.code) else Ok(after.value.1)
  }

  // ---------------------------------------------------------------- names

  lemma {:induction false} Counted(parts: seq<Part>, name: string)
    requires 0 < Count(parts, name)
    ensures exists i :: 0 <= i < |parts| && parts[i].name == name
    decreases |parts|
  {
    if parts[0].name != name {
      Counted(parts[1..], name);
      var i :| 0 <= i < |parts[1..]| && parts[1..][i].name == name;
      assert parts[i + 1].name == name;
    }
  }

  lemma SwapStep(parts: seq<Part>, name1: string, name2: string)
    requires parts != []
    ensures SwapNames(parts, name1, name2)
            == [parts[0].(name := Renamed(parts[0].name, name1, name2))] + SwapNames(parts[1..], name1, name2)
  {
    hide Renamed;
  }

  /** A swap exchanges the counts of the two names. */
  lemma {:induction false} CountsExchange(parts: seq<Part>, name1: string, name2: string)
    requires name1 != name2
    ensures Count(SwapNames(parts, name1, name2), name1) == Count(parts, name2)
    ensures Count(SwapNames(parts, name1, name2), name2) == Count(parts, name1)
    decreases |parts|
  {
    if parts != [] {
      SwapStep(parts, name1, name2);
      CountsExchange(parts[1..], name1, name2);
      var head, rest := parts[0].(name := Renamed(parts[0].name, name1, name2)), SwapNames(parts[1..], name1, name2);
      hide SwapNames;
      assert ([head] + rest)[1..] == rest;
    }
  }

  lemma SwapBack(parts: seq<Part>, name1: string, name2: string)
    ensures SwapNames(SwapNames(parts, name1, name2), name1, name2) == parts
  {
  }

  /** By how much a swap makes the names longer. */
  function Excess(parts: seq<Part>, name1: string, name2: string): int {
    if parts == [] then 0
    else |Renamed(parts[0].name, name1, name2)| as int - |parts[0].name| + Excess(parts[1..], name1, name2)
  }

  lemma Distribute(c: int, d: int)
    ensures (c + 1) * d == c * d + d && (c - 1) * d == c * d - d
  {
  }

  lemma {:induction false} ExcessIs(parts: seq<Part>, name1: string, name2: string)
    requires name1 != name2
    ensures Excess(parts, name1, name2)
            == (Count(parts, name1) as int - Count(parts, name2)) * (|name2| as int - |name1|)
    decreases |parts|
  {
    if parts != [] {
      ExcessIs(parts[1..], name1, name2);
      Distribute(Count(parts[1..], name1) as int - Count(parts[1..], name2), |name2| as int - |name1|);
    }
  }

  lemma {:induction false} SwapLength(parts: seq<Part>, name1: string, name2: string, blksz: nat)
    ensures |PartsText(SwapNames(parts, name1, name2), blksz)|
            == |PartsText(parts, blksz)| + Excess(parts, name1, name2)
    decreases |parts|
  {
    if parts != [] {
      SwapStep(parts, name1, name2);
      SwapLength(parts[1..], name1, name2, blksz);
      var p := parts[0];
      var q := p.(name := Renamed(p.name, name1, name2));
      TextLength(p, parts[1..], blksz);
      TextLength(q, SwapNames(parts[1..], name1, name2), blksz);
      assert [p] + parts[1..] == parts;
      hide SwapNames, PartsText, PartText;
    }
  }

  /** A swap that is allowed keeps the length of the list. */
  lemma SwapSameLength(parts: seq<Part>, name1: string, name2: string, blksz: nat)
    requires SwapAllowed(parts, name1, name2)
    ensures |PartsText(SwapNames(parts, name1, name2), blksz)| == |PartsText(parts, blksz)|
  {
    hide SwapNames, PartsText, Count;
    SwapLength(parts, name1, name2, blksz);
    ExcessIs(parts, name1, name2);
  }

  function FixedLength(p: Part, blksz: nat): nat {
    |PartText(p.(name := ""), blksz)|
  }

  lemma TextLength(p: Part, rest: seq<Part>, blksz: nat)
    ensures |PartsText([p] + rest, blksz)| == FixedLength(p, blksz) + |p.name| + 1 + |PartsText(rest, blksz)|
  {
    assert ([p] + rest)[1..] == rest;
    hide BytesText;
  }

  lemma SwapKeeps(env: map<string, string>, guid: string, parts: seq<Part>, name1: string, name2: string, blksz: nat)
    requires AllPlain(parts) && AllRepresentable(env, guid, parts, blksz) && SwapAllowed(parts, name1, name2)
    ensures AllPlain(SwapNames(parts, name1, name2))
    ensures AllRepresentable(env, guid, SwapNames(parts, name1, name2), blksz)
  {
    Counted(parts, name1);
    Counted(parts, name2);
    hide Count, Expand;
    var i :| 0 <= i < |parts| && parts[i].name == name1;
    var j :| 0 <= j < |parts| && parts[j].name == name2;
    assert Representable(env, parts[i], blksz) && Representable(env, parts[j], blksz);
    var after := SwapNames(parts, name1, name2);
    forall k | 0 <= k < |after|
      ensures Plain(after[k].name) && Plain(after[k].uuid) && Representable(env, after[k], blksz)
    {
      assert Representable(env, parts[k], blksz);
    }
  }

  lemma SwapUnbootable(parts: seq<Part>, name1: string, name2: string)
    ensures SwapNames(Unbootable(parts), name1, name2) == Unbootable(SwapNames(parts, name1, name2))
    ensures Unbootable(Unbootable(parts)) == Unbootable(parts)
  {
  }

  /**
    For a table that can be read back: the swap goes through if and only if it is allowed, and what
    is written then differs from the old table in the two names only.
   */
  lemma SwapChangesNames(env: map<string, string>, guid: string, parts: seq<Part>, name1: string, name2: string,
                         blksz: nat)
    requires 0 < blksz && Plain(guid) && parts != [] && AllPlain(parts) && |PartsText(parts, blksz)| <= MAX_TEXT
    requires AllRepresentable(env, guid, parts, blksz)
    ensures Swap(env, guid, parts, name1, name2, blksz)
            == if SwapAllowed(parts, name1, name2) then Ok(Unbootable(SwapNames(parts, name1, name2))) else Err(EINVAL)
  {
    hide SetInfo, ListText, PartsText, SwapNames, AllPlain, AllRepresentable, Unbootable, SwapAllowed;
    ListSameIff(env, guid, parts, blksz);
    if SwapAllowed(parts, name1, name2) {
      SwapKeeps(env, guid, parts, name1, name2, blksz);
      SwapSameLength(parts, name1, name2, blksz);
      SwapSome(parts, name1, name2);
      ListSameIff(env, guid, SwapNames(parts, name1, name2), blksz);
    }
  }

  lemma SwapSome(parts: seq<Part>, name1: string, name2: string)
    requires parts != []
    ensures SwapNames(parts, name1, name2) != []
  {
    assert |SwapNames(parts, name1, name2)| == |parts|;
  }

  lemma UnbootableKeeps(env: map<string, string>, guid: string, parts: seq<Part>, name1: string, name2: string,
                        blksz: nat)
    ensures AllPlain(parts) ==> AllPlain(Unbootable(parts))
    ensures AllRepresentable(env, guid, parts, blksz) ==> AllRepresentable(env, guid, Unbootable(parts), blksz)
  {
    hide Expand;
    var t := Unbootable(parts);
    if AllRepresentable(env, guid, parts, blksz) {
      forall k | 0 <= k < |t|
        ensures Representable(env, t[k], blksz)
      {
        assert Representable(env, parts[k], blksz);
      }
    }
  }

  lemma {:induction false} UnbootableCount(parts: seq<Part>, name: string, blksz: nat)
    ensures Count(Unbootable(parts), name) == Count(parts, name)
    ensures PartsText(Unbootable(parts), blksz) == PartsText(parts, blksz)
    decreases |parts|
  {
    if parts != [] {
      UnbootableCount(parts[1..], name, blksz);
      assert Unbootable(parts)[1..] == Unbootable(parts[1..]);
      hide BytesText;
    }
  }

  /** Swapping once more restores the names. */
  lemma SwapTwice(env: map<string, string>, guid: string, parts: seq<Part>, name1: string, name2: string, blksz: nat)
    requires 0 < blksz && Plain(guid) && parts != [] && AllPlain(parts) && |PartsText(parts, blksz)| <= MAX_TEXT
    requires AllRepresentable(env, guid, parts, blksz) && SwapAllowed(parts, name1, name2)
    ensures Swap(env, guid, Unbootable(SwapNames(parts, name1, name2)), name1, name2, blksz) == Ok(Unbootable(parts))
  {
    hide SetInfo, ListText, PartsText, SwapNames, AllPlain, AllRepresentable, Unbootable, Swap, Count;
    var once := SwapNames(parts, name1, name2);
    SwapKeeps(env, guid, parts, name1, name2, blksz);
    SwapSameLength(parts, name1, name2, blksz);
    UnbootableKeeps(env, guid, once, name1, name2, blksz);
    UnbootableCount(once, name1, blksz);
    UnbootableCount(once, name2, blksz);
    CountsExchange(parts, name1, name2);
    SwapUnbootable(once, name1, name2);
    SwapUnbootable(parts, name1, name2);
    SwapBack(parts, name1, name2);
    SwapSome(parts, name1, name2);
    UnbootableSome(once);
    SwapChangesNames(env, guid, Unbootable(once), name1, name2, blksz);
  }

  lemma UnbootableSome(parts: seq<Part>)
    requires parts != []
    ensures Unbootable(parts) != []
  {
    assert |Unbootable(parts)| == |parts|;
  }

  // ---------------------------------------------------------------- the loops as they run

  /** extract_val */
  method ExtractValue(str: string, key: string) returns (value: Option<string>)
    ensures value == ExtractVal(str, key)
  {
    hide Sep;
    var s := Some(str);
    while s.Some?
      invariant if s.Some? then ExtractVal(str, key) == ExtractVal(s.value, key) else ExtractVal(str, key) == None
      decreases if s.Some? then |s.value| + 1 else 0
    {
      var (pair, rest) := Sep(s.value, ',');
      var (k, v) := Sep(pair, '=');
      if k == key {
        return v;
      }
      s := rest;
    }
    value := None;
  }

  /** create_gpt_partitions_list */
  method CreateList(guid: string, parts: seq<Part>, blksz: nat) returns (list: string)
    ensures list == ListText(guid, parts, blksz)
  {
    hide PartText;
    list := "uuid_disk=" + guid + ";";
    ghost var start := list;
    assert parts[0..] == parts;
    var i := 0;
    while i < |parts|
      invariant i <= |parts|
      invariant ListText(guid, parts, blksz) == list + PartsText(parts[i..], blksz)
    {
      assert parts[i..][1..] == parts[i + 1..];
      Longer(list, PartText(parts[i], blksz), ";", PartsText(parts[i + 1..], blksz));
      list := list + (PartText(parts[i], blksz) + ";");
      i := i + 1;
    }
    assert list + "" == list;
  }

  lemma Longer(a: string, b: string, c: string, d: string)
    ensures a + (b + c + d) == a + (b + c) + d
  {
  }

  /** set_gpt_info; the semicolons it counts beforehand are one fewer than the tokens read here. */
  method SetGptInfo(env: map<string, string>, str: string, blksz: nat)
    returns (code: int, guid: string, parts: seq<Part>)
    requires 0 < blksz
    ensures code == 0 <==> SetInfo(env, str, blksz).Ok?
    ensures code == 0 ==> SetInfo(env, str, blksz) == Ok((guid, parts))
    ensures code != 0 ==> SetInfo(env, str, blksz) == Err(code)
  {
    hide ExtractVal, ReadPart, Sep, Expand;
    guid, parts := "", [];
    var val := ExtractValue(str, "uuid_disk");
    if val.None? {
      return -2, guid, parts;
    }
    guid := Expand(env, Sep(val.value, ';').0);
    var s := Sep(str, ';').1;
    if s.None? {
      return EINVAL, guid, parts;
    }
    if s.value == "" {
      return -3, guid, parts;
    }
    s := Some(Trim(s.value));
    ghost var body := s.value;
    GatherNone(env, body, blksz);
    while s.Some?
      invariant Gathered(env, body, blksz, parts, s)
      decreases if s.Some? then |s.value| + 1 else 0
    {
      var (tok, rest) := Sep(s.value, ';');
      var part := ReadPart(env, tok, blksz);
      if part.Err? {
        OneCode(env, tok, blksz);
        return -4, guid, parts;
      }
      GatherOne(env, body, blksz, parts, s.value);
      parts := parts + [part.value];
      s := rest;
    }
    code := 0;
  }

  /** The partitions read so far and the rest of the text make up the result. */
  ghost predicate Gathered(env: map<string, string>, body: string, blksz: nat, parts: seq<Part>, s: Option<string>)
    requires 0 < blksz
  {
    var whole := ReadParts(env, body, blksz);
    if s.None? then whole == Ok(parts)
    else
      var rest := ReadParts(env, s.value, blksz);
      if rest.Err? then whole == rest else whole == Ok(parts + rest.value)
  }

  lemma GatherNone(env: map<string, string>, body: string, blksz: nat)
    requires 0 < blksz
    ensures Gathered(env, body, blksz, [], Some(body))
  {
    hide ReadPart, Sep;
    var r := ReadParts(env, body, blksz);
    if r.Ok? {
      assert [] + r.value == r.value;
    }
  }

  lemma OneCode(env: map<string, string>, tok: string, blksz: nat)
    requires 0 < blksz && ReadPart(env, tok, blksz).Err?
    ensures ReadPart(env, tok, blksz).code == -4
  {
  }

  lemma GatherOne(env: map<string, string>, body: string, blksz: nat, parts: seq<Part>, s: string)
    requires 0 < blksz && Gathered(env, body, blksz, parts, Some(s)) && ReadPart(env, Sep(s, ';').0, blksz).Ok?
    ensures Gathered(env, body, blksz, parts + [ReadPart(env, Sep(s, ';').0, blksz).value], Sep(s, ';').1)
  {
    hide ReadPart, Sep;
    var (tok, rest) := Sep(s, ';');
    var part := ReadPart(env, tok, blksz).value;
    if rest.Some? {
      var more := ReadParts(env, rest.value, blksz);
      if more.Ok? {
        assert parts + ([part] + more.value) == (parts + [part]) + more.value;
      }
    }
  }

  class DiskParts {
    var parts: seq<Part>

    constructor (parts: seq<Part>)
      ensures this.parts == parts
    {
      this.parts := parts;
    }

    /** The loop over disk_partitions that exchanges the names. */
    method ExchangeNames(name1: string, name2: string) returns (ctr1: nat, ctr2: nat)
      modifies this
      ensures parts == SwapNames(old(parts), name1, name2)
      ensures ctr1 == Count(old(parts), name1) && ctr2 == Second(old(parts), name1, name2)
    {
      ctr1, ctr2 := 0, 0;
      ghost var was := parts;
      var i := 0;
      assert was[0..] == was;
      while i < |parts|
        invariant i <= |parts| == |was|
        invariant forall k :: 0 <= k < i ==> parts[k] == was[k].(name := Renamed(was[k].name, name1, name2))
        invariant forall k :: i <= k < |was| ==> parts[k] == was[k]
        invariant ctr1 + Count(was[i..], name1) == Count(was, name1)
        invariant ctr2 + Second(was[i..], name1, name2) == Second(was, name1, name2)
      {
        assert was[i..][1..] == was[i + 1..];
        if parts[i].name == name1 {
          parts := parts[i := parts[i].(name := name2)];
          ctr1 := ctr1 + 1;
        } else if parts[i].name == name2 {
          parts := parts[i := parts[i].(name := name1)];
          ctr2 := ctr2 + 1;
        }
        i := i + 1;
      }
      assert was[i..] == [];
    }

    /** do_rename_gpt_parts with "swap": the partitions to write, or an error. */
    method RenameSwap(env: map<string, string>, guid: string, name1: string, name2: string, blksz: nat)
      returns (code: int, written: seq<Part>)
      requires 0 < blksz
      modifies this
      ensures var r := Swap(env, guid, old(parts), name1, name2, blksz);
              if code == 0 then r == Ok(written) else r == Err(code)
    {
      hide SetInfo, ListText, Count;
      written := [];
      var list := CreateList(guid, parts, blksz);
      var was: string;
      code, was, written := SetGptInfo(env, list, blksz);
      if code != 0 {
        return;
      }
      if |name1| > NAME_SIZE || |name2| > NAME_SIZE {
        return EINVAL, written;
      }
      var ctr1, ctr2 := ExchangeNames(name1, name2);
      if ctr1 + ctr2 < 2 || ctr1 != ctr2 {
        return EINVAL, written;
      }
      list := CreateList(guid, parts, blksz);
      code, was, written := SetGptInfo(env, list, blksz);
    }
  }
}
