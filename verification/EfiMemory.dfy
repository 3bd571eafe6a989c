/**
  The table of memory descriptors that efi_build_mem_table makes (boot/rpi/cmd/efi.c): sorted by
  address, boot services turned into conventional memory, neighbouring conventional memory merged
  in place. Addresses and page counts are 64-bit.
 */
module EfiMemory {
  import opened TextNumbers

  const LOADER_CODE := 1
  const LOADER_DATA := 2
  const BOOT_SERVICES_CODE := 3
  const BOOT_SERVICES_DATA := 4
  const CONVENTIONAL := 7
  const TABLE_END := 15

  const PAGE := 4096

  datatype Desc = Desc(kind: nat, reserved: nat, start: nat, virt: nat, pages: nat, attribute: nat)

  function End(d: Desc): nat {
    d.start + d.pages * PAGE
  }

  /** What the UEFI specification asks of EFI_MEMORY_DESCRIPTOR: some pages, none above the last. */
  predicate DescOk(d: Desc) {
    1 <= d.pages && End(d) <= TWO_64
  }

  predicate AllOk(s: seq<Desc>) {
    forall i :: 0 <= i < |s| ==> DescOk(s[i])
  }

  predicate Apart(a: Desc, b: Desc) {
    End(a) <= b.start || End(b) <= a.start
  }

  predicate NonOverlapping(s: seq<Desc>) {
    forall i, j :: 0 <= i < j < |s| ==> Apart(s[i], s[j])
  }

  predicate Sorted(s: seq<Desc>) {
    forall i, j :: 0 <= i < j < |s| ==> s[i].start <= s[j].start
  }

  // ---------------------------------------------------------------- the operations

  /** is_boot_services */
  predicate IsBootServices(kind: nat) {
    kind == LOADER_CODE || kind == LOADER_DATA || kind == BOOT_SERVICES_CODE || kind == BOOT_SERVICES_DATA
  }

  function Mapped(d: Desc, skip: bool): Desc {
    if skip && IsBootServices(d.kind) then d.(kind := CONVENTIONAL) else d
  }

  /** The address behind a descriptor, as 64-bit arithmetic gives it. */
  function EndAddr(d: Desc): nat {
    Wrap(End(d), TWO_64)
  }

  function AddrAfter(s: seq<Desc>): nat {
    if s == [] then 0 else EndAddr(s[|s| - 1])
  }

  /** The four tests before a descriptor is merged into the entry before it. */
  predicate Merges(out: seq<Desc>, addr: nat, d: Desc, skip: bool) {
    && skip && out != []
    && d.start == addr
    && Mapped(d, skip).kind == CONVENTIONAL
    && out[|out| - 1].kind == CONVENTIONAL
  }

  function Grown(e: Desc, d: Desc): Desc {
    e.(pages := Wrap(e.pages + d.pages, TWO_64))
  }

  /** The loop body: `out` is the part of the table that is final, `addr` the end of the last descriptor read. */
  function Append(out: seq<Desc>, addr: nat, d: Desc, skip: bool): seq<Desc> {
    if Merges(out, addr, d, skip) then out[..|out| - 1] + [Grown(out[|out| - 1], d)]
    else out + [Mapped(d, skip)]
  }

  function Table(s: seq<Desc>, skip: bool): seq<Desc> {
    if s == [] then []
    else
      var before := s[..|s| - 1];
      Append(Table(before, skip), AddrAfter(before), s[|s| - 1], skip)
  }

  // ---------------------------------------------------------------- what a table means

  predicate Describes(d: Desc, x: nat, kind: nat) {
    d.kind == kind && d.start <= x < End(d)
  }

  /** Address `x` is described as memory of this kind. */
  predicate Typed(s: seq<Desc>, x: nat, kind: nat) {
    exists i :: 0 <= i < |s| && Describes(s[i], x, kind)
  }

  function AllMapped(s: seq<Desc>, skip: bool): seq<Desc> {
    seq(|s|, i requires 0 <= i < |s| => Mapped(s[i], skip))
  }

  ghost predicate SameMeaning(s: seq<Desc>, t: seq<Desc>) {
    forall x: nat, kind: nat :: Typed(s, x, kind) <==> Typed(t, x, kind)
  }

  function TotalPages(s: seq<Desc>): nat {
    if s == [] then 0 else TotalPages(s[..|s| - 1]) + s[|s| - 1].pages
  }

  /**
    Descriptor `k` reaches the end of the address space and the next one starts at 0: the addition wraps
    and they merge.
   */
  predicate WrapsAt(s: seq<Desc>, skip: bool, k: nat) {
    && skip && k + 1 < |s|
    && End(s[k]) == TWO_64 && s[k + 1].start == 0
    && Mapped(s[k], skip).kind == CONVENTIONAL && Mapped(s[k + 1], skip).kind == CONVENTIONAL
  }

  predicate Wraps(s: seq<Desc>, skip: bool) {
    exists k :: 0 <= k < |s| && WrapsAt(s, skip, k)
  }

  // ---------------------------------------------------------------- one step

  lemma TypedSnoc(s: seq<Desc>, d: Desc, x: nat, kind: nat)
    ensures Typed(s + [d], x, kind) <==> Typed(s, x, kind) || Describes(d, x, kind)
  {
    hide Describes;
    var t := s + [d];
    if Typed(t, x, kind) {
      var i :| 0 <= i < |t| && Describes(t[i], x, kind);
      if i < |s| {
        assert Describes(s[i], x, kind);
      }
    }
    if Typed(s, x, kind) {
      var i :| 0 <= i < |s| && Describes(s[i], x, kind);
      assert Describes(t[i], x, kind);
    }
    if Describes(d, x, kind) {
      assert Describes(t[|s|], x, kind);
    }
  }

  /** Merging a descriptor that starts where the last entry ends covers both and nothing else. */
  lemma MergeTyped(out: seq<Desc>, d: Desc, x: nat, kind: nat)
    requires out != [] && out[|out| - 1].kind == CONVENTIONAL && d.kind == CONVENTIONAL
    requires End(out[|out| - 1]) == d.start && DescOk(d)
    ensures var last := out[|out| - 1];
            Typed(out[..|out| - 1] + [Grown(last, d)], x, kind) <==> Typed(out, x, kind) || Describes(d, x, kind)
  {
    hide Typed;
    var init, last := out[..|out| - 1], out[|out| - 1];
    assert out == init + [last];
    TypedSnoc(init, last, x, kind);
    TypedSnoc(init, Grown(last, d), x, kind);
    assert last.pages * PAGE <= TWO_64 && d.pages * PAGE <= TWO_64;
    assert Grown(last, d).pages == last.pages + d.pages;
  }

  lemma MappedSnoc(s: seq<Desc>, skip: bool)
    requires s != []
    ensures AllMapped(s, skip) == AllMapped(s[..|s| - 1], skip) + [Mapped(s[|s| - 1], skip)]
  {
  }

  /** The last entry has the kind of the last descriptor. */
  lemma LastKind(s: seq<Desc>, skip: bool)
    requires s != []
    ensures Table(s, skip) != [] && Table(s, skip)[|Table(s, skip)| - 1].kind == Mapped(s[|s| - 1], skip).kind
  {
  }

  lemma WrapsPrefix(s: seq<Desc>, skip: bool)
    requires s != [] && Wraps(s[..|s| - 1], skip)
    ensures Wraps(s, skip)
  {
    var t := s[..|s| - 1];
    var k :| 0 <= k < |t| && WrapsAt(t, skip, k);
    assert WrapsAt(s, skip, k);
  }

  /** When a descriptor is merged it starts exactly where the last one ends. */
  lemma MergeIsContiguous(s: seq<Desc>, skip: bool)
    requires |s| > 0 && AllOk(s) && !Wraps(s, skip)
    requires Merges(Table(s[..|s| - 1], skip), AddrAfter(s[..|s| - 1]), s[|s| - 1], skip)
    ensures |s| > 1 && End(s[|s| - 2]) == s[|s| - 1].start
  {
    var before := s[..|s| - 1];
    assert Table(before, skip) != [];
    LastKind(before, skip);
    hide Table;
    var k := |s| - 2;
    assert before[|before| - 1] == s[k];
    assert DescOk(s[k]);
    assert !WrapsAt(s, skip, k);
  }

  // ---------------------------------------------------------------- meaning and pages are kept

  /** The last entry ends where the last descriptor does. */
  lemma {:induction false} LastEnd(s: seq<Desc>, skip: bool)
    requires s != [] && AllOk(s) && !Wraps(s, skip)
    ensures Table(s, skip) != [] && End(Table(s, skip)[|Table(s, skip)| - 1]) == End(s[|s| - 1])
    decreases |s|
  {
    var before, d := s[..|s| - 1], s[|s| - 1];
    var out := Table(before, skip);
    if Merges(out, AddrAfter(before), d, skip) {
      MergeIsContiguous(s, skip);
      if Wraps(before, skip) {
        WrapsPrefix(s, skip);
      }
      hide Wraps, Merges;
      LastEnd(before, skip);
      assert DescOk(d) && DescOk(s[|s| - 2]);
      GrownEnd(out[|out| - 1], d);
    }
  }

  lemma GrownEnd(e: Desc, d: Desc)
    requires End(e) == d.start && DescOk(d)
    ensures End(Grown(e, d)) == End(d) && Grown(e, d).pages == e.pages + d.pages
  {
    assert e.pages * PAGE <= TWO_64 && d.pages * PAGE <= TWO_64;
  }

  lemma {:induction false} KeepsTyped(s: seq<Desc>, skip: bool, x: nat, kind: nat)
    requires AllOk(s) && !Wraps(s, skip)
    ensures Typed(Table(s, skip), x, kind) <==> Typed(AllMapped(s, skip), x, kind)
    decreases |s|
  {
    if s != [] {
      StepTyped(s, skip, x, kind);
    }
  }

  lemma TableStep(s: seq<Desc>, skip: bool)
    requires s != []
    ensures var before, d := s[..|s| - 1], s[|s| - 1];
            var out := Table(before, skip);
            Table(s, skip) ==
            if Merges(out, AddrAfter(before), d, skip) then out[..|out| - 1] + [Grown(out[|out| - 1], d)]
            else out + [Mapped(d, skip)]
  {
  }

  lemma StepTyped(s: seq<Desc>, skip: bool, x: nat, kind: nat)
    requires s != [] && AllOk(s) && !Wraps(s, skip)
    ensures Typed(Table(s, skip), x, kind) <==> Typed(AllMapped(s, skip), x, kind)
    decreases |s|, 0
  {
    hide Typed, Describes, AllMapped, Table, Grown, Wraps, End, AddrAfter, DescOk;
    var before, d := s[..|s| - 1], s[|s| - 1];
    var out := Table(before, skip);
    TableStep(s, skip);
    NoWrapBefore(s, skip);
    KeepsTyped(before, skip, x, kind);
    MappedSnoc(s, skip);
    TypedSnoc(AllMapped(before, skip), Mapped(d, skip), x, kind);
    if Merges(out, AddrAfter(before), d, skip) {
      MergeIsContiguous(s, skip);
      LastEnd(before, skip);
      MergeStepTyped(out, d, skip, x, kind);
    } else {
      TypedSnoc(out, Mapped(d, skip), x, kind);
    }
  }

  lemma NoWrapBefore(s: seq<Desc>, skip: bool)
    requires s != [] && !Wraps(s, skip)
    ensures !Wraps(s[..|s| - 1], skip)
  {
    if Wraps(s[..|s| - 1], skip) {
      WrapsPrefix(s, skip);
    }
  }

  lemma MergeStepTyped(out: seq<Desc>, d: Desc, skip: bool, x: nat, kind: nat)
    requires out != [] && out[|out| - 1].kind == CONVENTIONAL && Mapped(d, skip).kind == CONVENTIONAL
    requires End(out[|out| - 1]) == d.start && DescOk(d)
    ensures Typed(out[..|out| - 1] + [Grown(out[|out| - 1], d)], x, kind)
            <==> Typed(out, x, kind) || Describes(Mapped(d, skip), x, kind)
  {
    hide Typed;
    MergeTyped(out, Mapped(d, skip), x, kind);
    assert Grown(out[|out| - 1], d) == Grown(out[|out| - 1], Mapped(d, skip));
  }

  /** Without a wrap the pages add up. */
  lemma {:induction false} KeepsPages(s: seq<Desc>, skip: bool)
    requires AllOk(s) && !Wraps(s, skip)
    ensures TotalPages(Table(s, skip)) == TotalPages(s)
    decreases |s|
  {
    if s == [] {
      EmptyTable(skip);
    } else {
      var before, d := s[..|s| - 1], s[|s| - 1];
      var out := Table(before, skip);
      TableStep(s, skip);
      NoWrapBefore(s, skip);
      KeepsPages(before, skip);
      hide Table, Grown, End, AddrAfter;
      if Merges(out, AddrAfter(before), d, skip) {
        MergeIsContiguous(s, skip);
        LastEnd(before, skip);
        GrownEnd(out[|out| - 1], d);
        PagesSnoc(out[..|out| - 1], Grown(out[|out| - 1], d));
      } else {
        PagesSnoc(out, Mapped(d, skip));
      }
    }
  }

  lemma PagesSnoc(s: seq<Desc>, d: Desc)
    ensures TotalPages(s + [d]) == TotalPages(s) + d.pages
  {
    assert (s + [d])[..|s|] == s;
  }

  // ---------------------------------------------------------------- when a wrap loses memory

  predicate NoneAtZero(t: seq<Desc>) {
    forall i :: 0 <= i < |t| ==> t[i].start != 0
  }

  lemma NoneOfNothing()
    ensures NoneAtZero([])
  {
  }

  lemma AppendAboveZero(out: seq<Desc>, addr: nat, d: Desc, skip: bool)
    requires NoneAtZero(out) && (d.start != 0 || Merges(out, addr, d, skip))
    ensures NoneAtZero(Append(out, addr, d, skip))
  {
  }

  lemma MergesAfterTop(s: seq<Desc>, skip: bool, k: nat)
    requires WrapsAt(s, skip, k)
    ensures Merges(Table(s[..k + 1], skip), AddrAfter(s[..k + 1]), s[k + 1], skip)
  {
    LastKind(s[..k + 1], skip);
    hide Table;
    assert s[..k + 1][k] == s[k];
  }

  /** Merging never starts an entry, so the descriptor at 0 leaves no entry there. */
  lemma {:induction false} NothingAtZero(s: seq<Desc>, skip: bool, k: nat, n: nat)
    requires WrapsAt(s, skip, k) && n <= |s|
    requires forall i :: 0 <= i < |s| && i != k + 1 ==> s[i].start != 0
    ensures NoneAtZero(Table(s[..n], skip))
    decreases n
  {
    hide NoneAtZero, Append;
    if n == 0 {
      EmptyTable(skip);
      NoneOfNothing();
    } else {
      NothingAtZero(s, skip, k, n - 1);
      var t := s[..n];
      assert t[..n - 1] == s[..n - 1] && t[n - 1] == s[n - 1];
      if n - 1 == k + 1 {
        MergesAfterTop(s, skip, k);
      }
      AppendAboveZero(Table(s[..n - 1], skip), AddrAfter(s[..n - 1]), s[n - 1], skip);
    }
  }

  lemma OnlyOneAtZero(s: seq<Desc>, k: nat)
    requires AllOk(s) && NonOverlapping(s) && k < |s| && s[k].start == 0
    ensures forall i :: 0 <= i < |s| && i != k ==> s[i].start != 0
  {
    forall i | 0 <= i < |s| && i != k
      ensures s[i].start != 0
    {
      assert DescOk(s[i]) && DescOk(s[k]);
      if i < k {
        assert Apart(s[i], s[k]);
      } else {
        assert Apart(s[k], s[i]);
      }
    }
  }

  lemma WrapLosesZero(s: seq<Desc>, skip: bool, k: nat)
    requires AllOk(s) && NonOverlapping(s) && WrapsAt(s, skip, k)
    ensures Typed(AllMapped(s, skip), 0, CONVENTIONAL) && !Typed(Table(s, skip), 0, CONVENTIONAL)
  {
    OnlyOneAtZero(s, k + 1);
    assert s[..|s|] == s;
    NothingAtZero(s, skip, k, |s|);
    assert DescOk(s[k + 1]);
    assert Describes(AllMapped(s, skip)[k + 1], 0, CONVENTIONAL);
  }

  /**
    In whatever order non-overlapping descriptors come, the table describes the same memory, with
    boot services counted as conventional, if and only if no merge wraps around the address space.
   */
  lemma MeaningIff(s: seq<Desc>, skip: bool)
    requires AllOk(s) && NonOverlapping(s)
    ensures SameMeaning(Table(s, skip), AllMapped(s, skip)) <==> !Wraps(s, skip)
  {
    hide Table, AllMapped, Typed;
    if Wraps(s, skip) {
      var k :| 0 <= k < |s| && WrapsAt(s, skip, k);
      WrapLosesZero(s, skip, k);
    } else {
      forall x: nat, kind: nat
        ensures Typed(Table(s, skip), x, kind) <==> Typed(AllMapped(s, skip), x, kind)
      {
        KeepsTyped(s, skip, x, kind);
      }
    }
  }

  // ---------------------------------------------------------------- sorted descriptors

  lemma SortedNeverWraps(s: seq<Desc>, skip: bool)
    requires AllOk(s) && NonOverlapping(s) && Sorted(s)
    ensures !Wraps(s, skip)
  {
    forall k | 0 <= k < |s|
      ensures !WrapsAt(s, skip, k)
    {
      if k + 1 < |s| {
        assert DescOk(s[k]) && DescOk(s[k + 1]) && Apart(s[k], s[k + 1]);
      }
    }
  }

  /** Every entry is a descriptor that starts there, with its kind mapped and perhaps more pages. */
  predicate FromHead(e: Desc, s: seq<Desc>, skip: bool) {
    exists i :: 0 <= i < |s| && e == Mapped(s[i], skip).(pages := e.pages)
  }

  lemma FromHeadSnoc(e: Desc, s: seq<Desc>, d: Desc, skip: bool)
    requires FromHead(e, s, skip) || e == Mapped(d, skip).(pages := e.pages)
    ensures FromHead(e, s + [d], skip)
  {
    var t := s + [d];
    if FromHead(e, s, skip) {
      var i :| 0 <= i < |s| && e == Mapped(s[i], skip).(pages := e.pages);
      assert t[i] == s[i];
    } else {
      assert t[|s|] == d;
    }
  }

  lemma {:induction false} HeadersKept(s: seq<Desc>, skip: bool, i: nat)
    requires i < |Table(s, skip)|
    ensures FromHead(Table(s, skip)[i], s, skip)
    decreases |s|
  {
    var before, d := s[..|s| - 1], s[|s| - 1];
    var out, table := Table(before, skip), Table(s, skip);
    TableStep(s, skip);
    assert s == before + [d];
    hide Table, FromHead, Merges;
    if i < |out| {
      HeadersKept(before, skip, i);
      FromHeadGrown(out[i], before, skip, table[i].pages);
    }
    FromHeadSnoc(table[i], before, d, skip);
  }

  lemma FromHeadGrown(e: Desc, s: seq<Desc>, skip: bool, pages: nat)
    requires FromHead(e, s, skip)
    ensures FromHead(e.(pages := pages), s, skip)
  {
    var i :| 0 <= i < |s| && e == Mapped(s[i], skip).(pages := e.pages);
    assert e.(pages := pages) == Mapped(s[i], skip).(pages := pages);
  }

  /** Entries lie one after another. */
  predicate InOrder(t: seq<Desc>) {
    forall i, j :: 0 <= i < j < |t| ==> End(t[i]) <= t[j].start
  }

  lemma SortedInOrder(s: seq<Desc>)
    requires AllOk(s) && NonOverlapping(s) && Sorted(s)
    ensures InOrder(s)
  {
    forall i, j | 0 <= i < j < |s|
      ensures End(s[i]) <= s[j].start
    {
      assert DescOk(s[i]) && DescOk(s[j]) && Apart(s[i], s[j]);
    }
  }

  /** No two entries of conventional memory touch. */
  predicate NoneTouch(t: seq<Desc>) {
    forall i, j :: 0 <= i < |t| && 0 <= j < |t| && t[i].kind == CONVENTIONAL && t[j].kind == CONVENTIONAL ==>
      End(t[i]) != t[j].start
  }

  lemma AppendKeepsOrder(out: seq<Desc>, d: Desc)
    requires InOrder(out) && AllOk(out) && DescOk(d) && (out == [] || End(out[|out| - 1]) <= d.start)
    ensures InOrder(out + [d]) && AllOk(out + [d])
  {
    forall i | 0 <= i < |out|
      ensures End(out[i]) <= d.start
    {
      assert DescOk(out[|out| - 1]);
    }
  }

  lemma AppendTouchesNone(out: seq<Desc>, d: Desc)
    requires InOrder(out + [d]) && AllOk(out + [d]) && NoneTouch(out)
    requires out != [] && d.kind == CONVENTIONAL && out[|out| - 1].kind == CONVENTIONAL ==>
             End(out[|out| - 1]) != d.start
    ensures NoneTouch(out + [d])
  {
    var t := out + [d];
    forall i, j | 0 <= i < |t| && 0 <= j < |t| && t[i].kind == CONVENTIONAL && t[j].kind == CONVENTIONAL
      ensures End(t[i]) != t[j].start
    {
      assert DescOk(t[i]) && DescOk(t[j]);
      if i < |out| && j < |out| {
        assert t[i] == out[i] && t[j] == out[j];
      } else if i < |out| - 1 && j == |out| {
        assert t[|out| - 1] == out[|out| - 1] && DescOk(t[|out| - 1]);
        assert End(t[i]) <= t[|out| - 1].start && End(t[|out| - 1]) <= t[j].start;
      }
    }
  }

  lemma GrowKeepsOrder(out: seq<Desc>, d: Desc)
    requires out != [] && InOrder(out) && AllOk(out) && DescOk(d) && End(out[|out| - 1]) == d.start
    ensures var t := out[..|out| - 1] + [Grown(out[|out| - 1], d)]; InOrder(t) && AllOk(t)
  {
    GrownEnd(out[|out| - 1], d);
    hide Grown;
    assert DescOk(out[|out| - 1]);
  }

  lemma GrowTouchesNone(out: seq<Desc>, d: Desc)
    requires out != [] && InOrder(out) && AllOk(out) && NoneTouch(out) && DescOk(d) && End(out[|out| - 1]) == d.start
    requires out[|out| - 1].kind == CONVENTIONAL
    ensures NoneTouch(out[..|out| - 1] + [Grown(out[|out| - 1], d)])
  {
    var n := |out| - 1;
    var g := Grown(out[n], d);
    GrowKeepsOrder(out, d);
    assert out[..n] + [g] == out[..n] + [g];
    if 0 < n && g.kind == CONVENTIONAL && out[n - 1].kind == CONVENTIONAL {
      assert End(out[n - 1]) != out[n].start;
    }
    hide Grown;
    AppendTouchesNone(out[..n], g);
  }

  /**
    Sorted descriptors without overlap give a sorted table without overlap; with skip_bs no conventional
    neighbours are left.
   */
  lemma {:induction false} TableInOrder(s: seq<Desc>, skip: bool)
    requires AllOk(s) && NonOverlapping(s) && Sorted(s)
    ensures InOrder(Table(s, skip)) && AllOk(Table(s, skip))
    ensures skip ==> NoneTouch(Table(s, skip))
    decreases |s|
  {
    if s != [] {
      hide InOrder, NoneTouch, Table, Grown, AllOk, NonOverlapping, Sorted, Wraps;
      var before, d := s[..|s| - 1], s[|s| - 1];
      var out := Table(before, skip);
      TableStep(s, skip);
      ShorterOk(s, skip);
      TableInOrder(before, skip);
      if before != [] {
        LastEnd(before, skip);
        SortedStep(s);
      } else {
        EmptyTable(skip);
      }
      if Merges(out, AddrAfter(before), d, skip) {
        MergeIsContiguous(s, skip);
        GrowKeepsOrder(out, d);
        if skip {
          GrowTouchesNone(out, d);
        }
      } else {
        AppendKeepsOrder(out, Mapped(d, skip));
        if skip {
          NotMerged(s, skip);
          AppendTouchesNone(out, Mapped(d, skip));
        }
      }
    }
  }

  lemma EmptyTable(skip: bool)
    ensures Table([], skip) == []
  {
  }

  lemma ShorterOk(s: seq<Desc>, skip: bool)
    requires s != [] && AllOk(s) && NonOverlapping(s) && Sorted(s)
    ensures var before := s[..|s| - 1];
            AllOk(before) && NonOverlapping(before) && Sorted(before) && !Wraps(before, skip)
    ensures !Wraps(s, skip) && DescOk(s[|s| - 1]) && DescOk(Mapped(s[|s| - 1], skip))
  {
    SortedNeverWraps(s, skip);
    NoWrapBefore(s, skip);
  }

  lemma SortedStep(s: seq<Desc>)
    requires |s| > 1 && AllOk(s) && NonOverlapping(s) && Sorted(s)
    ensures End(s[|s| - 2]) <= s[|s| - 1].start
  {
    SortedInOrder(s);
  }

  /** A conventional descriptor that is not merged does not touch the last entry. */
  lemma NotMerged(s: seq<Desc>, skip: bool)
    requires s != [] && skip && AllOk(s) && !Wraps(s[..|s| - 1], skip)
    requires !Merges(Table(s[..|s| - 1], skip), AddrAfter(s[..|s| - 1]), s[|s| - 1], skip)
    ensures var out := Table(s[..|s| - 1], skip);
            out != [] && Mapped(s[|s| - 1], skip).kind == CONVENTIONAL && out[|out| - 1].kind == CONVENTIONAL ==>
              End(out[|out| - 1]) != s[|s| - 1].start
  {
    var before, d := s[..|s| - 1], s[|s| - 1];
    if before != [] {
      LastEnd(before, skip);
      hide Table;
      assert DescOk(d) && DescOk(before[|before| - 1]);
    }
  }

  /** Without skip_bs the table is the sorted descriptors. */
  lemma {:induction false} UnchangedWithoutSkip(s: seq<Desc>)
    ensures Table(s, false) == s
  {
    if s != [] {
      UnchangedWithoutSkip(s[..|s| - 1]);
    }
  }
}
