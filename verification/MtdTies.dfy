/**
  Re-adding the partitions of a sorted list one by one: partitions that share an offset change places.
 */
module MtdTies {
  import opened TextNumbers
  import opened MtdGrammar

  // ---------------------------------------------------------------- partitions that share an offset

  predicate Sorted(parts: seq<Part>) {
    forall i, j :: 0 <= i < j < |parts| ==> parts[i].offset <= parts[j].offset
  }

  /** At most one partition starts at offset 0. */
  predicate OneAtZero(parts: seq<Part>) {
    forall i :: 1 <= i < |parts| ==> 0 < parts[i].offset
  }

  function Reversed(parts: seq<Part>): (r: seq<Part>)
    ensures |r| == |parts|
    ensures forall i :: 0 <= i < |r| ==> r[i] == parts[|parts| - 1 - i]
  {
    if parts == [] then [] else Reversed(parts[1..]) + [parts[0]]
  }

  /** Where the last group of partitions with one offset starts. */
  function GroupStart(parts: seq<Part>, n: nat): (k: nat)
    requires 0 < n <= |parts|
    ensures k < n
    ensures forall i :: k <= i < n ==> parts[i].offset == parts[n - 1].offset
    ensures 0 < k ==> parts[k - 1].offset != parts[n - 1].offset
  {
    if n == 1 || parts[n - 2].offset != parts[n - 1].offset then n - 1 else GroupStart(parts, n - 1)
  }

  /** Every group of partitions that share an offset is turned round. */
  function TiesReversed(parts: seq<Part>): (r: seq<Part>)
    ensures |r| == |parts|
  {
    if parts == [] then []
    else
      var k := GroupStart(parts, |parts|);
      TiesReversed(parts[..k]) + Reversed(parts[k..])
  }

  lemma {:induction false} TiesReversedBelow(parts: seq<Part>, bound: nat)
    requires forall i :: 0 <= i < |parts| ==> parts[i].offset < bound
    ensures forall i :: 0 <= i < |parts| ==> TiesReversed(parts)[i].offset < bound
    decreases |parts|
  {
    if parts != [] {
      var k := GroupStart(parts, |parts|);
      TiesReversedBelow(parts[..k], bound);
    }
  }

  /** Partitions that all start elsewhere keep their order. */
  lemma {:induction false} NoTies(parts: seq<Part>)
    requires forall i, j :: 0 <= i < j < |parts| ==> parts[i].offset != parts[j].offset
    ensures TiesReversed(parts) == parts
    decreases |parts|
  {
    if parts != [] {
      var n := |parts|;
      assert GroupStart(parts, n) == n - 1;
      NoTies(parts[..n - 1]);
      assert Reversed(parts[n - 1..]) == [parts[n - 1]];
    }
  }

  /** The scan stops right behind the partitions that start lower. */
  lemma {:induction false} SlotIs(parts: seq<Part>, p: Part, k: nat, i: nat)
    requires i <= k <= |parts| && 0 < p.offset
    requires forall j :: 0 <= j < k ==> parts[j].offset < p.offset
    requires k < |parts| ==> p.offset <= parts[k].offset
    ensures Slot(parts, p, i) == Some(k)
    decreases k - i
  {
    if i < k {
      SlotIs(parts, p, k, i + 1);
    }
  }

  lemma {:induction false} InsertAllSnoc(parts: seq<Part>, news: seq<Part>, p: Part)
    requires InsertAll(parts, news).Some?
    ensures InsertAll(parts, news + [p]) == SortInsert(InsertAll(parts, news).value, p)
    decreases |news|
  {
    if news == [] {
      assert (news + [p])[0] == p && (news + [p])[1..] == [];
    } else {
      var longer := SortInsert(parts, news[0]).value;
      InsertAllSnoc(longer, news[1..], p);
      assert (news + [p])[1..] == news[1..] + [p];
    }
  }

  lemma TiesUnfold(parts: seq<Part>, k: nat)
    requires parts != [] && k == GroupStart(parts, |parts|)
    ensures TiesReversed(parts) == TiesReversed(parts[..k]) + Reversed(parts[k..])
  {
    hide Reversed, GroupStart;
  }

  /** The groups of a list without its last entry. */
  lemma TiesOfInit(parts: seq<Part>)
    requires 1 < |parts|
    ensures var n := |parts| - 1;
            var k := GroupStart(parts, n + 1);
            TiesReversed(parts[..n]) == TiesReversed(parts[..k]) + Reversed(parts[k..n])
  {
    hide TiesReversed, Reversed;
    var n := |parts| - 1;
    var k := GroupStart(parts, n + 1);
    if k < n {
      assert GroupStart(parts, n) == k;
      hide GroupStart;
      SameGroup(parts, n, n);
      TiesUnfold(parts[..n], k);
      SliceOfInit(parts, n, k);
    } else {
      assert Reversed(parts[n..n]) == [];
    }
  }

  lemma SliceOfInit(parts: seq<Part>, n: nat, k: nat)
    requires k <= n <= |parts|
    ensures parts[..n][..k] == parts[..k] && parts[..n][k..] == parts[k..n]
  {
  }

  lemma {:induction false} SameGroup(parts: seq<Part>, m: nat, n: nat)
    requires 0 < n <= m <= |parts|
    ensures GroupStart(parts[..m], n) == GroupStart(parts, n)
    decreases n
  {
    if 1 < n {
      SameGroup(parts, m, n - 1);
    }
  }

  /** A partition goes in front of those that start where it does. */
  lemma InsertBefore(low: seq<Part>, p: Part, group: seq<Part>)
    requires 0 < p.offset
    requires forall j :: 0 <= j < |low| ==> low[j].offset < p.offset
    requires forall j :: 0 <= j < |group| ==> group[j].offset == p.offset
    ensures SortInsert(low + group, p) == Some(low + ([p] + group))
  {
    var list, k := low + group, |low|;
    SlotIs(list, p, k, 0);
    assert list[..k] == low && list[k..] == group;
    assert low + [p] + group == low + ([p] + group);
  }

  lemma SortedAt(parts: seq<Part>, i: nat, j: nat)
    requires Sorted(parts) && i <= j < |parts|
    ensures parts[i].offset <= parts[j].offset
  {
  }

  lemma SortedInit(parts: seq<Part>, n: nat)
    requires Sorted(parts) && OneAtZero(parts) && n <= |parts|
    ensures Sorted(parts[..n]) && OneAtZero(parts[..n])
  {
  }

  /** What lies before the last group starts lower. */
  lemma BeforeGroup(parts: seq<Part>, k: nat)
    requires parts != [] && Sorted(parts) && k == GroupStart(parts, |parts|)
    ensures forall i :: 0 <= i < k ==> parts[..k][i].offset < parts[|parts| - 1].offset
  {
    hide GroupStart, Sorted;
    forall i | 0 <= i < k
      ensures parts[..k][i].offset < parts[|parts| - 1].offset
    {
      SortedAt(parts, i, k - 1);
      SortedAt(parts, k - 1, |parts| - 1);
    }
  }

  lemma LastGroup(parts: seq<Part>, k: nat)
    requires parts != [] && k == GroupStart(parts, |parts|)
    ensures var n := |parts| - 1;
            forall i :: 0 <= i < n - k ==> parts[k..n][i].offset == parts[n].offset
  {
    hide GroupStart;
  }

  lemma SplitLast(parts: seq<Part>, k: nat)
    requires k < |parts|
    ensures parts[k..] == parts[k..|parts| - 1] + [parts[|parts| - 1]]
  {
  }

  lemma ReversedOffsets(group: seq<Part>, offset: nat)
    requires forall i :: 0 <= i < |group| ==> group[i].offset == offset
    ensures forall i :: 0 <= i < |group| ==> Reversed(group)[i].offset == offset
  {
    hide Reversed;
  }

  lemma ReversedSnoc(group: seq<Part>, p: Part)
    ensures Reversed(group + [p]) == [p] + Reversed(group)
  {
    hide Reversed;
  }

  lemma InsertLast(parts: seq<Part>)
    requires 1 < |parts| && Sorted(parts) && OneAtZero(parts)
    ensures SortInsert(TiesReversed(parts[..|parts| - 1]), parts[|parts| - 1]) == Some(TiesReversed(parts))
  {
    hide SortInsert, TiesReversed, Reversed, GroupStart, Sorted;
    var n := |parts| - 1;
    var p := parts[n];
    var k := GroupStart(parts, n + 1);
    var group := parts[k..n];
    TiesOfInit(parts);
    TiesUnfold(parts, k);
    BeforeGroup(parts, k);
    LastGroup(parts, k);
    SplitLast(parts, k);
    assert 0 < p.offset;
    TiesReversedBelow(parts[..k], p.offset);
    ReversedOffsets(group, p.offset);
    InsertBefore(TiesReversed(parts[..k]), p, Reversed(group));
    ReversedSnoc(group, p);
  }

  lemma InsertNone()
    ensures InsertAll([], []) == Some([]) && TiesReversed([]) == []
  {
  }

  lemma InsertOne(p: Part)
    ensures InsertAll([], [p]) == Some([p]) && TiesReversed([p]) == [p]
  {
    var one := [p];
    assert Slot([], p, 0) == Some(0);
    assert [][..0] + one + [][0..] == one;
    assert one[1..] == [];
    assert GroupStart(one, 1) == 0 && one[0..] == one && one[..0] == [];
    assert Reversed(one) == one;
  }

  /** Re-adding a sorted list entry by entry turns the groups round and changes nothing else. */
  lemma {:induction false} InsertAllSorted(parts: seq<Part>)
    requires Sorted(parts) && OneAtZero(parts)
    ensures InsertAll([], parts) == Some(TiesReversed(parts))
    decreases |parts|
  {
    hide *;
    if parts == [] {
      InsertNone();
    } else if |parts| == 1 {
      InsertOne(parts[0]);
      assert parts == [parts[0]];
    } else {
      var n := |parts| - 1;
      SortedInit(parts, n);
      InsertAllSorted(parts[..n]);
      InsertAllSnoc([], parts[..n], parts[n]);
      assert parts[..n] + [parts[n]] == parts;
      InsertLast(parts);
    }
  }
}
