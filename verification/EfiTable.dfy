/**
  efi_build_mem_table from the descriptors as the firmware hands them over: the sort with its
  64-bit comparison, the loop that rewrites the array in place, and what the finished table keeps.
 */
module EfiTable {
  import Words
  import opened TextNumbers
  import opened EfiMemory
  import opened ShellSort

  // ---------------------------------------------------------------- the comparison

  const TWO_63 := 0x8000_0000_0000_0000

  /** The difference of two 64-bit addresses, read as a signed 64-bit number. */
  function Diff(a: nat, b: nat): int {
    var d := a as int - b;
    if d >= TWO_63 then d - TWO_64 else if d < -TWO_63 then d + TWO_64 else d
  }

  /** h_cmp_entry */
  function Compare(a: Desc, b: Desc): int {
    var d := Diff(a.start, b.start);
    if d < 0 then -1 else if d > 0 then 1 else 0
  }

  function Sign(d: int): int {
    if d < 0 then -1 else if d > 0 then 1 else 0
  }

  ghost predicate ComparesByAddress(s: seq<Desc>) {
    forall i, j :: 0 <= i < |s| && 0 <= j < |s| ==> Compare(s[i], s[j]) == Sign(s[i].start as int - s[j].start)
  }

  /** All descriptors start within half of the address space. */
  predicate Narrow(s: seq<Desc>) {
    forall i, j :: 0 <= i < |s| && 0 <= j < |s| ==> s[i].start as int - s[j].start < TWO_63
  }

  predicate Addresses64(s: seq<Desc>) {
    forall i :: 0 <= i < |s| ==> s[i].start < TWO_64
  }

  /** The comparison orders descriptors by address if and only if they start within half of the address space. */
  lemma CompareIff(s: seq<Desc>)
    requires Addresses64(s)
    ensures ComparesByAddress(s) <==> Narrow(s)
  {
    if ComparesByAddress(s) {
      forall i, j | 0 <= i < |s| && 0 <= j < |s|
        ensures s[i].start as int - s[j].start < TWO_63
      {
        assert Compare(s[i], s[j]) == Sign(s[i].start as int - s[j].start);
        assert s[i].start < TWO_64;
      }
    }
    if Narrow(s) {
      forall i, j | 0 <= i < |s| && 0 <= j < |s|
        ensures Compare(s[i], s[j]) == Sign(s[i].start as int - s[j].start)
      {
        assert s[j].start as int - s[i].start < TWO_63;
      }
    }
  }

  // ---------------------------------------------------------------- sorting

  /** qsort with h_cmp_entry. */
  function ByAddress(s: seq<Desc>): seq<Desc> {
    Qsort(s, Compare)
  }

  lemma SameMembers(t: seq<Desc>, s: seq<Desc>, i: nat)
    requires multiset(t) == multiset(s) && i < |t|
    ensures t[i] in s
  {
    assert t[i] in multiset(t);
  }

  lemma NarrowMembers(s: seq<Desc>, x: Desc, y: Desc)
    requires Narrow(s) && x in multiset(s) && y in multiset(s)
    ensures -TWO_63 < x.start as int - y.start < TWO_63
  {
    var i :| 0 <= i < |s| && s[i] == x;
    var j :| 0 <= j < |s| && s[j] == y;
    assert s[i].start as int - s[j].start < TWO_63 && s[j].start as int - s[i].start < TWO_63;
  }

  lemma NearCompare(x: Desc, y: Desc)
    requires -TWO_63 < x.start as int - y.start < TWO_63
    ensures Compare(x, y) == Sign(x.start as int - y.start)
  {
  }

  /** Within half of the address space h_cmp_entry is an order. */
  lemma NarrowOrders(s: seq<Desc>)
    requires Narrow(s)
    ensures Orders(Compare, multiset(s))
  {
    hide Narrow, Compare;
    var m := multiset(s);
    forall x, y | x in m && y in m
      ensures Compare(x, y) == Sign(x.start as int - y.start)
    {
      NarrowMembers(s, x, y);
      NearCompare(x, y);
    }
  }

  /** Descriptors that start within half of the address space come out in address order. */
  lemma QsortSorts(s: seq<Desc>)
    requires Narrow(s)
    ensures Sorted(ByAddress(s))
  {
    var t := ByAddress(s);
    NarrowOrders(s);
    QsortOrders(s, Compare);
    QsortPermutes(s, Compare);
    hide Qsort, Narrow, Compare, Orders;
    forall i, j | 0 <= i < j < |t|
      ensures t[i].start <= t[j].start
    {
      assert Compare(t[i], t[j]) <= 0;
      assert t[i] in multiset(t) && t[j] in multiset(t);
      NarrowMembers(s, t[i], t[j]);
      NearCompare(t[i], t[j]);
    }
  }

  // ---------------------------------------------------------------- permutations keep what matters

  lemma PermutedTyped(s: seq<Desc>, t: seq<Desc>, skip: bool, x: nat, kind: nat)
    requires multiset(s) == multiset(t) && Typed(AllMapped(s, skip), x, kind)
    ensures Typed(AllMapped(t, skip), x, kind)
  {
    var i :| 0 <= i < |s| && Describes(AllMapped(s, skip)[i], x, kind);
    SameMembers(s, t, i);
    var k :| 0 <= k < |t| && t[k] == s[i];
    assert Describes(AllMapped(t, skip)[k], x, kind);
  }

  lemma PermutedMeaning(s: seq<Desc>, t: seq<Desc>, skip: bool)
    requires multiset(s) == multiset(t)
    ensures SameMeaning(AllMapped(s, skip), AllMapped(t, skip))
  {
    hide AllMapped, Typed;
    forall x: nat, kind: nat
      ensures Typed(AllMapped(s, skip), x, kind) <==> Typed(AllMapped(t, skip), x, kind)
    {
      if Typed(AllMapped(s, skip), x, kind) {
        PermutedTyped(s, t, skip, x, kind);
      }
      if Typed(AllMapped(t, skip), x, kind) {
        PermutedTyped(t, s, skip, x, kind);
      }
    }
  }

  lemma {:induction false} RemovePages(s: seq<Desc>, k: nat)
    requires k < |s|
    ensures TotalPages(s) == TotalPages(s[..k] + s[k + 1..]) + s[k].pages
    decreases |s|
  {
    var n := |s| - 1;
    if k == n {
      assert s[..k] + s[k + 1..] == s[..n];
    } else {
      RemovePages(s[..n], k);
      var t := s[..k] + s[k + 1..];
      assert t[..|t| - 1] == s[..n][..k] + s[..n][k + 1..];
    }
  }

  lemma RemoveLast(s: seq<Desc>, t: seq<Desc>, k: nat)
    requires s != [] && multiset(s) == multiset(t) && k < |t| && t[k] == s[|s| - 1]
    ensures multiset(s[..|s| - 1]) == multiset(t[..k] + t[k + 1..])
  {
    Words.Without(s, |s| - 1);
    Words.Without(t, k);
    assert s[..|s| - 1] + s[|s|..] == s[..|s| - 1];
  }

  lemma {:induction false} PermutedPages(s: seq<Desc>, t: seq<Desc>)
    requires multiset(s) == multiset(t)
    ensures TotalPages(s) == TotalPages(t)
    decreases |s|
  {
    if s == [] {
      assert |multiset(t)| == 0;
    } else {
      SameMembers(s, t, |s| - 1);
      var k :| 0 <= k < |t| && t[k] == s[|s| - 1];
      RemoveLast(s, t, k);
      PermutedPages(s[..|s| - 1], t[..k] + t[k + 1..]);
      RemovePages(t, k);
    }
  }

  lemma PermutedOk(s: seq<Desc>, t: seq<Desc>)
    requires multiset(s) == multiset(t) && AllOk(s)
    ensures AllOk(t)
  {
    forall i | 0 <= i < |t|
      ensures DescOk(t[i])
    {
      SameMembers(t, s, i);
    }
  }

  lemma NonOverlappingRemove(s: seq<Desc>, k: nat)
    requires NonOverlapping(s) && k < |s|
    ensures NonOverlapping(s[..k] + s[k + 1..])
    ensures forall d :: d in s[..k] + s[k + 1..] ==> Apart(d, s[k])
  {
    var t := s[..k] + s[k + 1..];
    forall i | 0 <= i < |t|
      ensures t[i] == s[if i < k then i else i + 1] && Apart(t[i], s[k])
    {
    }
  }

  /** Non-overlap does not depend on the order. */
  lemma {:induction false} PermutedApart(s: seq<Desc>, t: seq<Desc>)
    requires multiset(s) == multiset(t) && NonOverlapping(s)
    ensures NonOverlapping(t)
    decreases |t|
  {
    if t != [] {
      var n := |t| - 1;
      SameMembers(t, s, n);
      var k :| 0 <= k < |s| && s[k] == t[n];
      RemoveLast(t, s, k);
      var u := s[..k] + s[k + 1..];
      NonOverlappingRemove(s, k);
      PermutedApart(u, t[..n]);
      forall i | 0 <= i < n
        ensures Apart(t[i], t[n])
      {
        SameMembers(t[..n], u, i);
      }
    }
  }

  // ---------------------------------------------------------------- the table

  /**
    Whatever sort is used, once it puts the descriptors in address order: the table describes the
    same memory as the firmware's list, holds as many pages, lies in address order, and with
    skip_bs no two conventional entries touch.
   */
  lemma TableKeepsMeaning(descs: seq<Desc>, sorted: seq<Desc>, skip: bool)
    requires AllOk(descs) && NonOverlapping(descs) && multiset(descs) == multiset(sorted) && Sorted(sorted)
    ensures SameMeaning(Table(sorted, skip), AllMapped(descs, skip))
    ensures TotalPages(Table(sorted, skip)) == TotalPages(descs)
    ensures InOrder(Table(sorted, skip)) && AllOk(Table(sorted, skip))
    ensures skip ==> NoneTouch(Table(sorted, skip))
  {
    hide AllOk, NonOverlapping, Sorted, Table, AllMapped, Typed, TotalPages, InOrder, NoneTouch, Wraps;
    PermutedOk(descs, sorted);
    PermutedApart(descs, sorted);
    SortedNeverWraps(sorted, skip);
    MeaningIff(sorted, skip);
    KeepsPages(sorted, skip);
    PermutedPages(descs, sorted);
    TableInOrder(sorted, skip);
    PermutedMeaning(descs, sorted, skip);
  }

  /** What efi_build_mem_table owes its caller: memory, pages, order, and with skip_bs nothing left to merge. */
  ghost predicate Faithful(table: seq<Desc>, descs: seq<Desc>, skip: bool) {
    && SameMeaning(table, AllMapped(descs, skip))
    && TotalPages(table) == TotalPages(descs)
    && InOrder(table) && AllOk(table)
    && (skip ==> NoneTouch(table))
  }

  /** The sort of the code and its loop together, for all descriptors within half of the address space. */
  lemma TableFaithful(descs: seq<Desc>, skip: bool)
    requires AllOk(descs) && NonOverlapping(descs) && Narrow(descs)
    ensures Faithful(Table(ByAddress(descs), skip), descs, skip)
  {
    QsortPermutes(descs, Compare);
    hide Qsort, Table, AllOk, NonOverlapping, Narrow, Sorted;
    QsortSorts(descs);
    TableKeepsMeaning(descs, ByAddress(descs), skip);
  }

  /**
    Wherever non-overlapping descriptors lie: the memory is kept if and only if nothing wraps in the
    order of the sort.
   */
  lemma SortedMeaningIff(descs: seq<Desc>, skip: bool)
    requires AllOk(descs) && NonOverlapping(descs)
    ensures SameMeaning(Table(ByAddress(descs), skip), AllMapped(descs, skip)) <==> !Wraps(ByAddress(descs), skip)
  {
    QsortPermutes(descs, Compare);
    hide Qsort, Table, AllOk, NonOverlapping, AllMapped, Typed, Wraps;
    var sorted := ByAddress(descs);
    PermutedOk(descs, sorted);
    PermutedApart(descs, sorted);
    MeaningIff(sorted, skip);
    PermutedMeaning(descs, sorted, skip);
  }

  lemma UpperFirst(lower: Desc, upper: Desc)
    requires lower.start == 0 && TWO_63 < upper.start < TWO_64
    ensures ByAddress([lower, upper]) == [upper, lower]
  {
    var s, t := [lower, upper], [upper, lower];
    assert Compare(s[0], s[1]) > 0;
    assert FirstGap(2, 1) == 1;
    assert Swapped(s, 0, 1) == t;
    assert Sink(s, 1, 1, Compare) == t;
    assert Pass(t, 2, 1, Compare) == t;
    assert Pass(s, 1, 1, Compare) == t;
  }

  /**
    Two conventional descriptors far apart, one up to the end of the address space and one from 0:
    the comparison puts the upper one first, its end wraps to 0 and the one at 0 is lost in it.
   */
  lemma FarApartLosesMemory(lower: Desc, upper: Desc)
    requires DescOk(lower) && DescOk(upper) && lower.start == 0 && TWO_63 < upper.start && End(upper) == TWO_64
    requires Apart(lower, upper) && lower.kind == upper.kind == CONVENTIONAL
    ensures !SameMeaning(Table(ByAddress([lower, upper]), true), AllMapped([lower, upper], true))
  {
    UpperFirst(lower, upper);
    hide ByAddress, Table, AllMapped, Typed;
    assert WrapsAt([upper, lower], true, 0);
    WrapLosesZero([upper, lower], true, 0);
    PermutedTyped([upper, lower], [lower, upper], true, 0, CONVENTIONAL);
  }

  lemma FarApartExample()
    ensures var lower := Desc(CONVENTIONAL, 0, 0, 0, 1, 0);
            var upper := Desc(CONVENTIONAL, 0, 0xC000_0000_0000_0000, 0, 0x4_0000_0000_0000, 0);
            !SameMeaning(Table(ByAddress([lower, upper]), true), AllMapped([lower, upper], true))
  {
    hide ByAddress, Table, AllMapped, SameMeaning;
    FarApartLosesMemory(Desc(CONVENTIONAL, 0, 0, 0, 1, 0),
                        Desc(CONVENTIONAL, 0, 0xC000_0000_0000_0000, 0, 0x4_0000_0000_0000, 0));
  }

  // ---------------------------------------------------------------- in place

  /** One round of the loop: the descriptor read is written at `dest` and kept there or merged into the entry before. */
  method AddEntry(base: array<Desc>, desc: nat, dest: nat, addr: nat, skip: bool) returns (next: nat)
    requires dest <= desc < base.Length
    modifies base
    ensures next <= desc + 1
    ensures base[..next] == Append(old(base[..dest]), addr, old(base[desc]), skip)
    ensures forall i :: desc < i < base.Length ==> base[i] == old(base[i])
  {
    ghost var out := base[..dest];
    var d := base[desc];
    base[dest] := Mapped(d, skip);
    if skip && 0 < dest && d.start == addr && base[dest].kind == CONVENTIONAL && base[dest - 1].kind == CONVENTIONAL {
      base[dest - 1] := Grown(base[dest - 1], d);
      next := dest;
      assert base[..next] == out[..dest - 1] + [Grown(out[dest - 1], d)];
    } else {
      next := dest + 1;
      assert base[..next] == out + [Mapped(d, skip)];
    }
  }

  /**
    efi_build_mem_table. The array has room for one entry more than there are descriptors; entries
    are written at `dest`, never ahead of the descriptor being read.
   */
  method BuildMemTable(descs: seq<Desc>, skip: bool) returns (base: array<Desc>, dest: nat)
    ensures fresh(base) && base.Length == |descs| + 1 && dest <= |descs|
    ensures base[..dest] == Table(ByAddress(descs), skip)
    ensures AllOk(descs) && NonOverlapping(descs) && Narrow(descs) ==> Faithful(base[..dest], descs, skip)
    ensures base[dest].kind == TABLE_END
  {
    hide Qsort, Table, Append, Faithful, AllOk, NonOverlapping, Narrow, Compare;
    var n := |descs|;
    base := new Desc[n + 1](i => if 0 <= i < |descs| then descs[i] else Desc(0, 0, 0, 0, 0, 0));
    assert base[..n] == descs;
    Sort(base, n, Compare);
    ghost var sorted := ByAddress(descs);
    var desc, addr := 0, 0;
    dest := 0;
    EmptyTable(skip);
    assert sorted[..0] == [];
    assert forall i :: 0 <= i < n ==> base[i] == base[..n][i];
    while desc < n
      invariant dest <= desc <= n
      invariant base[..dest] == Table(sorted[..desc], skip)
      invariant forall i :: desc <= i < n ==> base[i] == sorted[i]
      invariant addr == AddrAfter(sorted[..desc])
    {
      var d := base[desc];
      dest := AddEntry(base, desc, dest, addr, skip);
      TableNext(sorted, desc, skip);
      addr := EndAddr(d);
      desc := desc + 1;
    }
    assert sorted[..n] == sorted;
    if AllOk(descs) && NonOverlapping(descs) && Narrow(descs) {
      TableFaithful(descs, skip);
    }
    base[dest] := base[dest].(kind := TABLE_END);
  }

  lemma TableNext(s: seq<Desc>, n: nat, skip: bool)
    requires n < |s|
    ensures Table(s[..n + 1], skip) == Append(Table(s[..n], skip), AddrAfter(s[..n]), s[n], skip)
    ensures AddrAfter(s[..n + 1]) == EndAddr(s[n])
  {
    assert s[..n + 1][..n] == s[..n];
  }
}
