/**
  qsort of boot/rpi/lib/qsort.c: a Shell sort with gaps 1, 4, 13, ...  Elements are compared with
  any function; the order of the result is that of the comparison where the comparison is one.
 */
module ShellSort {

  // ---------------------------------------------------------------- gaps

  /** The gaps are those of the sequence g, 3 * g + 1, ... from 1. */
  predicate IsGap(g: nat) {
    g == 1 || (4 <= g && g % 3 == 1 && IsGap(g / 3))
  }

  /** The loop that finds the first gap. */
  function FirstGap(n: nat, g: nat): (r: nat)
    requires IsGap(g)
    ensures IsGap(r)
    decreases n - g
  {
    if g < (n - 1) / 3 then assert (3 * g + 1) / 3 == g; FirstGap(n, 3 * g + 1) else g
  }

  // ---------------------------------------------------------------- sorting

  function Swapped<T>(s: seq<T>, i: nat, j: nat): (r: seq<T>)
    requires i < j < |s|
    ensures |r| == |s|
  {
    s[i := s[j]][j := s[i]]
  }

  /** The innermost loop: an element moves down by gaps until it is in order. */
  function Sink<T>(s: seq<T>, j: nat, gap: nat, comp: (T, T) -> int): (r: seq<T>)
    requires 0 < gap <= j < |s|
    ensures |r| == |s|
    decreases j
  {
    var k := j - gap;
    if comp(s[k], s[j]) <= 0 then s
    else
      var t := Swapped(s, k, j);
      if k < gap then t else Sink(t, k, gap, comp)
  }

  /** The middle loop, from element `i` on. */
  function Pass<T>(s: seq<T>, i: nat, gap: nat, comp: (T, T) -> int): (r: seq<T>)
    requires 0 < gap <= i <= |s|
    ensures |r| == |s|
    decreases |s| - i
  {
    if i == |s| then s else Pass(Sink(s, i, gap, comp), i + 1, gap, comp)
  }

  /** The outer loop. */
  function Passes<T>(s: seq<T>, gap: nat, comp: (T, T) -> int): (r: seq<T>)
    requires 0 < gap < |s|
    ensures |r| == |s|
    decreases gap
  {
    var t := Pass(s, gap, gap, comp);
    if (gap - 1) / 3 == 0 then t else Passes(t, (gap - 1) / 3, comp)
  }

  lemma {:induction false} GapInside(n: nat, g: nat)
    requires 1 < n && IsGap(g) && g < n
    ensures FirstGap(n, g) < n
    decreases n - g
  {
    if g < (n - 1) / 3 {
      assert (3 * g + 1) / 3 == g;
      GapInside(n, 3 * g + 1);
    }
  }

  /** qsort */
  function Qsort<T>(s: seq<T>, comp: (T, T) -> int): (r: seq<T>)
    ensures |r| == |s|
  {
    if |s| <= 1 then s else GapInside(|s|, 1); Passes(s, FirstGap(|s|, 1), comp)
  }

  // ---------------------------------------------------------------- a permutation

  lemma SwapPermutes<T>(s: seq<T>, i: nat, j: nat)
    requires i < j < |s|
    ensures multiset(Swapped(s, i, j)) == multiset(s)
  {
  }

  lemma {:induction false} SinkPermutes<T>(s: seq<T>, j: nat, gap: nat, comp: (T, T) -> int)
    requires 0 < gap <= j < |s|
    ensures multiset(Sink(s, j, gap, comp)) == multiset(s)
    decreases j
  {
    hide Swapped;
    var k := j - gap;
    if comp(s[k], s[j]) > 0 {
      SwapPermutes(s, k, j);
      if gap <= k {
        SinkPermutes(Swapped(s, k, j), k, gap, comp);
      }
    }
  }

  lemma {:induction false} PassPermutes<T>(s: seq<T>, i: nat, gap: nat, comp: (T, T) -> int)
    requires 0 < gap <= i <= |s|
    ensures multiset(Pass(s, i, gap, comp)) == multiset(s)
    decreases |s| - i
  {
    hide Sink;
    if i < |s| {
      SinkPermutes(s, i, gap, comp);
      PassPermutes(Sink(s, i, gap, comp), i + 1, gap, comp);
    }
  }

  lemma {:induction false} PassesPermute<T>(s: seq<T>, gap: nat, comp: (T, T) -> int)
    requires 0 < gap < |s|
    ensures multiset(Passes(s, gap, comp)) == multiset(s)
    decreases gap
  {
    hide Pass;
    PassPermutes(s, gap, gap, comp);
    if (gap - 1) / 3 != 0 {
      PassesPermute(Pass(s, gap, gap, comp), (gap - 1) / 3, comp);
    }
  }

  lemma QsortPermutes<T>(s: seq<T>, comp: (T, T) -> int)
    ensures multiset(Qsort(s, comp)) == multiset(s)
  {
    hide Passes;
    if 1 < |s| {
      GapInside(|s|, 1);
      PassesPermute(s, FirstGap(|s|, 1), comp);
    }
  }

  // ---------------------------------------------------------------- the order of the result

  /** The comparison orders these elements. */
  ghost predicate Orders<T(!new)>(comp: (T, T) -> int, m: multiset<T>) {
    && (forall x, y :: x in m && y in m && comp(x, y) > 0 ==> comp(y, x) <= 0)
    && (forall x, y, z :: x in m && y in m && z in m && comp(x, y) <= 0 && comp(y, z) <= 0 ==> comp(x, z) <= 0)
  }

  predicate Ordered<T>(comp: (T, T) -> int, s: seq<T>, n: nat) {
    forall i, j :: 0 <= i < j < n && j < |s| ==> comp(s[i], s[j]) <= 0
  }

  /** The first `n` elements are in order but for element `j`, which may belong further down. */
  predicate Sinking<T>(comp: (T, T) -> int, s: seq<T>, j: nat, n: nat) {
    && j < n <= |s|
    && (forall a, b :: 0 <= a < b < n && a != j && b != j ==> comp(s[a], s[b]) <= 0)
    && (forall b :: j < b < n ==> comp(s[j], s[b]) <= 0)
  }

  lemma SwapSinks<T(!new)>(s: seq<T>, j: nat, n: nat, comp: (T, T) -> int)
    requires 0 < j && Sinking(comp, s, j, n) && Orders(comp, multiset(s)) && comp(s[j - 1], s[j]) > 0
    ensures Sinking(comp, Swapped(s, j - 1, j), j - 1, n)
  {
    var t := Swapped(s, j - 1, j);
    assert s[j - 1] in multiset(s) && s[j] in multiset(s);
    forall a, b | 0 <= a < b < n && a != j - 1 && b != j - 1
      ensures comp(t[a], t[b]) <= 0
    {
    }
    forall b | j - 1 < b < n
      ensures comp(t[j - 1], t[b]) <= 0
    {
    }
  }

  lemma StaysInOrder<T(!new)>(s: seq<T>, j: nat, n: nat, comp: (T, T) -> int)
    requires Sinking(comp, s, j, n) && Orders(comp, multiset(s)) && (j == 0 || comp(s[j - 1], s[j]) <= 0)
    ensures Ordered(comp, s, n)
  {
    forall a, b | 0 <= a < b < n && b < |s|
      ensures comp(s[a], s[b]) <= 0
    {
      if b == j && a < j - 1 {
        assert s[a] in multiset(s) && s[j - 1] in multiset(s) && s[j] in multiset(s);
        assert comp(s[a], s[j - 1]) <= 0;
      }
    }
  }

  lemma {:induction false} SinkOrders<T(!new)>(s: seq<T>, j: nat, n: nat, comp: (T, T) -> int)
    requires 1 <= j && Sinking(comp, s, j, n) && Orders(comp, multiset(s))
    ensures Ordered(comp, Sink(s, j, 1, comp), n)
    decreases j
  {
    hide Swapped, Orders;
    if comp(s[j - 1], s[j]) <= 0 {
      StaysInOrder(s, j, n, comp);
    } else {
      SwapSinks(s, j, n, comp);
      SwapPermutes(s, j - 1, j);
      var t := Swapped(s, j - 1, j);
      if j == 1 {
        StaysInOrder(t, 0, n, comp);
      } else {
        SinkOrders(t, j - 1, n, comp);
      }
    }
  }

  lemma {:induction false} PassOrders<T(!new)>(s: seq<T>, i: nat, comp: (T, T) -> int)
    requires 1 <= i <= |s| && Ordered(comp, s, i) && Orders(comp, multiset(s))
    ensures Ordered(comp, Pass(s, i, 1, comp), |s|)
    decreases |s| - i
  {
    hide Sink, Orders;
    if i < |s| {
      assert Sinking(comp, s, i, i + 1);
      SinkOrders(s, i, i + 1, comp);
      SinkPermutes(s, i, 1, comp);
      PassOrders(Sink(s, i, 1, comp), i + 1, comp);
    }
  }

  lemma {:induction false} PassesOrder<T(!new)>(s: seq<T>, gap: nat, comp: (T, T) -> int)
    requires IsGap(gap) && gap < |s| && Orders(comp, multiset(s))
    ensures Ordered(comp, Passes(s, gap, comp), |s|)
    decreases gap
  {
    hide Pass, Orders, Ordered;
    if gap == 1 {
      assert Ordered(comp, s, 1) by { OneOrdered(comp, s); }
      PassOrders(s, 1, comp);
    } else {
      PassPermutes(s, gap, gap, comp);
      assert (gap - 1) / 3 == gap / 3 != 0;
      PassesOrder(Pass(s, gap, gap, comp), (gap - 1) / 3, comp);
    }
  }

  lemma OneOrdered<T>(comp: (T, T) -> int, s: seq<T>)
    ensures Ordered(comp, s, 1)
  {
  }

  /** Where the comparison orders the elements, the result is in that order. */
  lemma QsortOrders<T(!new)>(s: seq<T>, comp: (T, T) -> int)
    requires Orders(comp, multiset(s))
    ensures Ordered(comp, Qsort(s, comp), |s|)
  {
    hide Passes, Orders;
    if 1 < |s| {
      GapInside(|s|, 1);
      PassesOrder(s, FirstGap(|s|, 1), comp);
    }
  }

  // ---------------------------------------------------------------- in place

  method SinkElement<T>(a: array<T>, n: nat, i: nat, gap: nat, comp: (T, T) -> int)
    requires 0 < gap <= i < n <= a.Length
    modifies a
    ensures a[..n] == Sink(old(a[..n]), i, gap, comp) && a[n..] == old(a[n..])
  {
    hide Swapped;
    var j := i;
    while gap <= j
      invariant j <= i && a[n..] == old(a[n..])
      invariant Sink(old(a[..n]), i, gap, comp) == if gap <= j then Sink(a[..n], j, gap, comp) else a[..n]
    {
      var k := j - gap;
      if comp(a[k], a[j]) <= 0 {
        return;
      }
      ghost var s := a[..n];
      a[k], a[j] := a[j], a[k];
      SwapIs(a[..n], s, k, j);
      j := k;
    }
  }

  lemma SwapIs<T>(t: seq<T>, s: seq<T>, k: nat, j: nat)
    requires k < j < |s| == |t| && t[k] == s[j] && t[j] == s[k]
    requires forall i :: 0 <= i < |s| && i != k && i != j ==> t[i] == s[i]
    ensures t == Swapped(s, k, j)
  {
  }

  /** qsort of the first `n` elements. */
  method Sort<T>(a: array<T>, n: nat, comp: (T, T) -> int)
    requires n <= a.Length
    modifies a
    ensures a[..n] == Qsort(old(a[..n]), comp) && a[n..] == old(a[n..])
  {
    hide Sink, FirstGap;
    if n <= 1 {
      return;
    }
    var gap := FindGap(n);
    GapInside(n, 1);
    var more := true;
    while more
      invariant a[n..] == old(a[n..]) && (more ==> 0 < gap < n) && 0 <= gap
      invariant Qsort(old(a[..n]), comp) == if more then Passes(a[..n], gap, comp) else a[..n]
      decreases gap, more
    {
      var i := gap;
      ghost var s := a[..n];
      while i < n
        invariant gap <= i <= n && a[n..] == old(a[n..])
        invariant Pass(s, gap, gap, comp) == Pass(a[..n], i, gap, comp)
      {
        SinkElement(a, n, i, gap, comp);
        i := i + 1;
      }
      more := (gap - 1) / 3 != 0;
      gap := (gap - 1) / 3;
    }
  }

  method FindGap(n: nat) returns (gap: nat)
    requires 1 < n
    ensures gap == FirstGap(n, 1)
  {
    gap := 1;
    while gap < (n - 1) / 3
      invariant IsGap(gap) && FirstGap(n, gap) == FirstGap(n, 1)
      decreases n - gap
    {
      assert (3 * gap + 1) / 3 == gap;
      gap := 3 * gap + 1;
    }
  }
}
