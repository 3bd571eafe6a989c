/**
  Choosing the sectors of an address range across NOR flash banks (boot/rpi/cmd/flash.c).
  Addresses are unsigned longs; `W` is the size of the address space, and the one sum that can
  leave it goes through `Wrap`.
 */
module NorFlash {
  import opened TextNumbers

  /** One entry of flash_info: an unknown bank is skipped. */
  datatype Bank = Bank(known: bool, starts: seq<nat>, size: nat)

  /** A bank that is known has sectors in ascending order that end inside the address space. */
  predicate BankOk(b: Bank, W: nat) {
    b.known ==>
      && b.starts != []
      && (forall i, j :: 0 <= i < j < |b.starts| ==> b.starts[i] < b.starts[j])
      && (forall i :: 0 <= i < |b.starts| ==> b.starts[i] < b.starts[0] + b.size)
      && b.starts[0] + b.size <= W
  }

  predicate BanksOk(banks: seq<Bank>, W: nat) {
    forall i :: 0 <= i < |banks| ==> BankOk(banks[i], W)
  }

  function BankEnd(b: Bank): int
    requires b.starts != []
  {
    b.starts[0] + b.size - 1
  }

  /** The last address of sector `s`. */
  function SectorEnd(b: Bank, s: nat): int
    requires s < |b.starts|
  {
    if s == |b.starts| - 1 then BankEnd(b) else b.starts[s + 1] as int - 1
  }

  // ---------------------------------------------------------------- one bank

  function FindStart(b: Bank, a: nat, s: nat): (r: Option<nat>)
    requires s <= |b.starts|
    ensures r.Some? ==> s <= r.value < |b.starts| && b.starts[r.value] == a
    ensures r.None? ==> forall i :: s <= i < |b.starts| ==> b.starts[i] != a
    decreases |b.starts| - s
  {
    if s == |b.starts| then None
    else if b.starts[s] == a then Some(s)
    else FindStart(b, a, s + 1)
  }

  function FindEnd(b: Bank, last: nat, s: nat): (r: Option<nat>)
    requires s <= |b.starts|
    ensures r.Some? ==> s <= r.value < |b.starts| && SectorEnd(b, r.value) == last
    ensures r.None? ==> forall i :: s <= i < |b.starts| ==> SectorEnd(b, i) != last
    decreases |b.starts| - s
  {
    if s == |b.starts| then None
    else if SectorEnd(b, s) == last then Some(s)
    else FindEnd(b, last, s + 1)
  }

  /** What is decided for one bank. */
  datatype Choice = Skip | Take(first: nat, last: nat) | Fail

  /** The body of the bank loop of flash_fill_sect_ranges, `a` being what is left of the range. */
  function Choose(b: Bank, a: nat, last: nat): (c: Choice)
    requires b.starts != []
    ensures c.Take? ==> c.first <= c.last < |b.starts| && b.starts[c.first] == a
  {
    var sf, sl := FindStart(b, a, 0), FindEnd(b, last, 0);
    if sf.Some? then
      if sl.None? then if last > BankEnd(b) then Take(sf.value, |b.starts| - 1) else Fail
      else if sl.value < sf.value then Fail
      else Take(sf.value, sl.value)
    else if b.starts[0] <= a < BankEnd(b) then Fail
    else if sl.Some? then Fail
    else Skip
  }

  /** The choice for every bank; None when the function fails. */
  function Fill(banks: seq<Bank>, a: nat, last: nat, W: nat): (r: Option<seq<Choice>>)
    requires BanksOk(banks, W) && 0 < W
    ensures r.Some? ==> |r.value| == |banks|
    decreases |banks|
  {
    if banks == [] then Some([])
    else if last < a || !banks[0].known then
      var rest := Fill(banks[1..], a, last, W);
      if rest.None? then None else Some([Skip] + rest.value)
    else
      match Choose(banks[0], a, last)
      case Fail => None
      case Skip =>
        var rest := Fill(banks[1..], a, last, W);
        if rest.None? then None else Some([Skip] + rest.value)
      case Take(f, l) =>
        var rest := Fill(banks[1..], Wrap(SectorEnd(banks[0], l) + 1, W), last, W);
        if rest.None? then None else Some([Take(f, l)] + rest.value)
  }

  /** How many sectors are chosen. */
  function Count(choices: seq<Choice>): nat {
    if choices == [] then 0
    else (if choices[0].Take? && choices[0].first <= choices[0].last then choices[0].last - choices[0].first + 1 else 0)
         + Count(choices[1..])
  }

  // ---------------------------------------------------------------- what is chosen

  predicate InSector(b: Bank, s: nat, x: nat)
    requires s < |b.starts|
  {
    b.starts[s] <= x <= SectorEnd(b, s)
  }

  /** Sector `s` of bank `i` is chosen. */
  predicate Chosen(choices: seq<Choice>, i: nat, s: nat) {
    i < |choices| && choices[i].Take? && choices[i].first <= s <= choices[i].last
  }

  predicate InBank(b: Bank, x: nat) {
    b.known && b.starts != [] && b.starts[0] <= x <= BankEnd(b)
  }

  /** The address belongs to a bank that is known. */
  predicate InFlash(banks: seq<Bank>, x: nat) {
    exists i :: 0 <= i < |banks| && InBank(banks[i], x)
  }

  ghost predicate RangeInFlash(banks: seq<Bank>, a: nat, last: nat) {
    forall x: nat :: a <= x <= last ==> InFlash(banks, x)
  }

  /** Known banks follow each other in the address space. */
  predicate Ascending(banks: seq<Bank>) {
    forall i, j :: 0 <= i < j < |banks| && banks[i].known && banks[j].known &&
                   banks[i].starts != [] && banks[j].starts != [] ==>
      BankEnd(banks[i]) < banks[j].starts[0]
  }

  /** Only the last known bank can reach the end of the address space. */
  predicate TopIsLast(banks: seq<Bank>, W: nat) {
    forall i, j :: 0 <= i < j < |banks| && banks[i].known && banks[j].known && banks[i].starts != [] ==>
      BankEnd(banks[i]) + 1 < W
  }

  /** No bank that reaches the end of the address space comes before a bank at its start. */
  predicate NoWrap(banks: seq<Bank>, W: nat) {
    forall i, j :: 0 <= i < j < |banks| && banks[i].known && banks[j].known &&
                   banks[i].starts != [] && banks[j].starts != [] ==>
      BankEnd(banks[i]) + 1 != W || banks[j].starts[0] != 0
  }

  /** The addresses a choice stands for. */
  predicate InChoice(b: Bank, c: Choice, x: nat) {
    c.Take? && c.first <= c.last < |b.starts| && b.starts[c.first] <= x <= SectorEnd(b, c.last)
  }

  predicate Covered(banks: seq<Bank>, choices: seq<Choice>, x: nat)
    requires |banks| == |choices|
  {
    exists i :: 0 <= i < |banks| && InChoice(banks[i], choices[i], x)
  }

  lemma StartsAscend(b: Bank, W: nat, i: nat, j: nat)
    requires BankOk(b, W) && b.known && i <= j < |b.starts|
    ensures b.starts[i] <= b.starts[j] && b.starts[i] <= SectorEnd(b, i) <= SectorEnd(b, j) <= BankEnd(b)
    ensures i < j ==> SectorEnd(b, i) < b.starts[j]
  {
    assert i < j ==> b.starts[i + 1] <= b.starts[j];
    assert j + 1 < |b.starts| ==> b.starts[j] < b.starts[j + 1] && b.starts[j + 1] < b.starts[0] + b.size;
    assert i + 1 < |b.starts| ==> b.starts[i] < b.starts[i + 1];
    assert i < j && j + 1 < |b.starts| ==> b.starts[i + 1] < b.starts[j + 1];
    assert i < j && j + 1 == |b.starts| ==> b.starts[i + 1] < b.starts[0] + b.size;
  }

  /** The sectors from `f` to `l` leave no gap. */
  lemma {:induction false} SectorsTile(b: Bank, W: nat, f: nat, l: nat, x: nat) returns (s: nat)
    requires BankOk(b, W) && b.known && f <= l < |b.starts|
    requires b.starts[f] <= x <= SectorEnd(b, l)
    ensures f <= s <= l && InSector(b, s, x)
    decreases l - f
  {
    if x <= SectorEnd(b, f) {
      s := f;
    } else {
      s := SectorsTile(b, W, f + 1, l, x);
    }
  }

  // ---------------------------------------------------------------- nothing outside the range

  lemma TailOk(banks: seq<Bank>, W: nat)
    requires banks != [] && BanksOk(banks, W)
    ensures BanksOk(banks[1..], W) && BankOk(banks[0], W)
    ensures banks[0].known ==> banks[0].starts != []
    ensures Ascending(banks) ==> Ascending(banks[1..])
    ensures TopIsLast(banks, W) ==> TopIsLast(banks[1..], W)
    ensures NoWrap(banks, W) ==> NoWrap(banks[1..], W)
  {
    assert BankOk(banks[0], W);
    assert banks[0].known ==> banks[0].starts != [];
    hide BankOk;
  }

  predicate NoneKnown(banks: seq<Bank>) {
    forall i :: 0 <= i < |banks| ==> !banks[i].known
  }

  predicate AllSkipped(choices: seq<Choice>) {
    forall i :: 0 <= i < |choices| ==> choices[i].Skip?
  }

  lemma {:induction false} UnknownSkipped(banks: seq<Bank>, a: nat, last: nat, W: nat)
    requires BanksOk(banks, W) && 0 < W && (NoneKnown(banks) || last < a)
    ensures Fill(banks, a, last, W).Some? && AllSkipped(Fill(banks, a, last, W).value)
    decreases |banks|
  {
    if banks != [] {
      hide BankOk;
      UnknownSkipped(banks[1..], a, last, W);
    }
  }

  /** Where the rest of the range starts once a bank is taken: no wrap-around that matters. */
  lemma NextStart(banks: seq<Bank>, W: nat, l: nat)
    requires banks != [] && BanksOk(banks, W) && 0 < W && banks[0].known && l < |banks[0].starts| && TopIsLast(banks, W)
    ensures NoneKnown(banks[1..]) || Wrap(SectorEnd(banks[0], l) + 1, W) == SectorEnd(banks[0], l) + 1
    ensures 0 <= SectorEnd(banks[0], l) < W
  {
    StartsAscend(banks[0], W, l, l);
    if j :| 0 <= j < |banks[1..]| && banks[1..][j].known {
      assert banks[j + 1].known;
    }
  }

  ghost predicate InRange(banks: seq<Bank>, choices: seq<Choice>, lo: nat, last: nat)
    requires |banks| == |choices|
  {
    forall i: nat, s: nat :: Chosen(choices, i, s) && s < |banks[i].starts| ==>
      lo <= banks[i].starts[s] && SectorEnd(banks[i], s) <= last
  }

  lemma TakeInRange(b: Bank, W: nat, a: nat, last: nat, s: nat)
    requires BankOk(b, W) && b.known && a <= last
    requires var c := Choose(b, a, last); c.Take? && c.first <= s <= c.last
    ensures a <= b.starts[s] && SectorEnd(b, s) <= last
  {
    var c := Choose(b, a, last);
    StartsAscend(b, W, c.first, s);
    StartsAscend(b, W, s, c.last);
  }

  lemma ConsInRange(banks: seq<Bank>, c: Choice, rest: seq<Choice>, lo: nat, last: nat)
    requires banks != [] && |rest| == |banks| - 1 && InRange(banks[1..], rest, lo, last)
    requires forall s: nat :: c.Take? && c.first <= s <= c.last && s < |banks[0].starts| ==>
               lo <= banks[0].starts[s] && SectorEnd(banks[0], s) <= last
    ensures InRange(banks, [c] + rest, lo, last)
  {
    hide SectorEnd;
    var choices := [c] + rest;
    forall i: nat, s: nat | Chosen(choices, i, s) && s < |banks[i].starts|
      ensures lo <= banks[i].starts[s] && SectorEnd(banks[i], s) <= last
    {
      if 0 < i {
        assert choices[i] == rest[i - 1] && banks[i] == banks[1..][i - 1];
        assert Chosen(rest, i - 1, s);
      }
    }
  }

  lemma SkippedInRange(banks: seq<Bank>, choices: seq<Choice>, lo: nat, last: nat)
    requires |banks| == |choices| && AllSkipped(choices)
    ensures InRange(banks, choices, lo, last)
  {
  }

  /** Where the rest of the range starts once a bank is taken, and what a wrap to 0 then means. */
  lemma NextOrWrap(banks: seq<Bank>, W: nat, l: nat)
    requires banks != [] && BanksOk(banks, W) && 0 < W && banks[0].known && l < |banks[0].starts| && NoWrap(banks, W)
    ensures var next := Wrap(SectorEnd(banks[0], l) + 1, W);
            next == SectorEnd(banks[0], l) + 1 || (next == 0 && AllFrom(banks[1..], 1))
    ensures 0 <= SectorEnd(banks[0], l) < W
  {
    assert BankOk(banks[0], W);
    StartsAscend(banks[0], W, l, l);
    if SectorEnd(banks[0], l) + 1 == W {
      forall i | 0 <= i < |banks[1..]| && banks[1..][i].known && banks[1..][i].starts != []
        ensures 1 <= banks[1..][i].starts[0]
      {
        assert banks[1..][i] == banks[i + 1];
      }
    }
  }

  lemma TakeStays(banks: seq<Bank>, W: nat, a: nat, last: nat, lo: nat, rest: seq<Choice>)
    requires banks != [] && BankOk(banks[0], W) && banks[0].known && banks[0].starts != [] && lo <= a <= last
    requires |rest| == |banks| - 1 && InRange(banks[1..], rest, lo, last) && Choose(banks[0], a, last).Take?
    ensures InRange(banks, [Choose(banks[0], a, last)] + rest, lo, last)
  {
    hide BankOk, InRange, Choose, SectorEnd;
    var c := Choose(banks[0], a, last);
    forall s: nat | c.first <= s <= c.last
      ensures lo <= banks[0].starts[s] && SectorEnd(banks[0], s) <= last
    {
      TakeInRange(banks[0], W, a, last, s);
    }
    ConsInRange(banks, c, rest, lo, last);
  }

  lemma FillTake(banks: seq<Bank>, a: nat, last: nat, W: nat)
    requires banks != [] && BanksOk(banks, W) && 0 < W && banks[0].known && banks[0].starts != [] && a <= last
    requires Choose(banks[0], a, last).Take? && BanksOk(banks[1..], W)
    ensures var rest := Fill(banks[1..], Wrap(SectorEnd(banks[0], Choose(banks[0], a, last).last) + 1, W), last, W);
            && (Fill(banks, a, last, W).Some? <==> rest.Some?)
            && (rest.Some? ==> Fill(banks, a, last, W).value == [Choose(banks[0], a, last)] + rest.value)
  {
    hide BankOk, BanksOk, Choose, SectorEnd, Wrap;
  }

  lemma FillSkip(banks: seq<Bank>, a: nat, last: nat, W: nat)
    requires banks != [] && BanksOk(banks, W) && 0 < W && BanksOk(banks[1..], W)
    requires banks[0].known ==> banks[0].starts != [] && (last < a || !Choose(banks[0], a, last).Take?)
    ensures var rest := Fill(banks[1..], a, last, W);
            && (Fill(banks, a, last, W).Some? ==> rest.Some? && Fill(banks, a, last, W).value == [Skip] + rest.value)
            && (rest.Some? && (banks[0].known && a <= last ==> Choose(banks[0], a, last).Skip?) ==>
               Fill(banks, a, last, W).Some?)
  {
    hide BankOk, BanksOk, Choose, SectorEnd;
  }

  /** No sector outside the range is chosen, wherever the range lies. */
  lemma {:induction false} NeverOutside(banks: seq<Bank>, a: nat, last: nat, W: nat, lo: nat)
    requires BanksOk(banks, W) && 0 < W && NoWrap(banks, W) && lo <= a
    requires Fill(banks, a, last, W).Some?
    ensures InRange(banks, Fill(banks, a, last, W).value, lo, last)
    decreases |banks|
  {
    hide BankOk, NoWrap, InRange, Choose, SectorEnd, BanksOk, AllFrom, Fill, Wrap;
    if banks == [] {
      SkippedInRange(banks, Fill(banks, a, last, W).value, lo, last);
    } else {
      TailOk(banks, W);
      if last < a || !banks[0].known || !Choose(banks[0], a, last).Take? {
        FillSkip(banks, a, last, W);
        NeverOutside(banks[1..], a, last, W, lo);
        ConsInRange(banks, Skip, Fill(banks[1..], a, last, W).value, lo, last);
      } else {
        FillTake(banks, a, last, W);
        var l := Choose(banks[0], a, last).last;
        var next := Wrap(SectorEnd(banks[0], l) + 1, W);
        var rest := Fill(banks[1..], next, last, W).value;
        NextOrWrap(banks, W, l);
        if next == 0 && AllFrom(banks[1..], 1) {
          NothingStarts(banks[1..], W, next, last);
          SkippedInRange(banks[1..], rest, lo, last);
        } else {
          TakeEndsAbove(banks[0], W, a, last);
          NeverOutside(banks[1..], next, last, W, lo);
        }
        TakeStays(banks, W, a, last, lo, rest);
      }
    }
  }

  lemma TakeEndsAbove(b: Bank, W: nat, a: nat, last: nat)
    requires BankOk(b, W) && b.known && Choose(b, a, last).Take?
    ensures a <= SectorEnd(b, Choose(b, a, last).last)
  {
    var c := Choose(b, a, last);
    StartsAscend(b, W, c.first, c.last);
  }

  // ---------------------------------------------------------------- exactly the range

  /** Every known bank starts at `a` or later. */
  predicate AllFrom(banks: seq<Bank>, a: nat) {
    forall i :: 0 <= i < |banks| && banks[i].known && banks[i].starts != [] ==> a <= banks[i].starts[0]
  }

  ghost predicate CoversExactly(banks: seq<Bank>, choices: seq<Choice>, a: nat, last: nat)
    requires |banks| == |choices|
  {
    forall x: nat :: Covered(banks, choices, x) <==> a <= x <= last
  }

  lemma ConsCovered(banks: seq<Bank>, c: Choice, rest: seq<Choice>, x: nat)
    requires banks != [] && |rest| == |banks| - 1
    ensures Covered(banks, [c] + rest, x) <==> InChoice(banks[0], c, x) || Covered(banks[1..], rest, x)
  {
    hide InChoice;
    var choices := [c] + rest;
    if Covered(banks, choices, x) {
      var i :| 0 <= i < |banks| && InChoice(banks[i], choices[i], x);
      if 0 < i {
        assert InChoice(banks[1..][i - 1], rest[i - 1], x);
      }
    }
    if Covered(banks[1..], rest, x) {
      var i :| 0 <= i < |banks[1..]| && InChoice(banks[1..][i], rest[i], x);
      assert InChoice(banks[i + 1], choices[i + 1], x);
    }
    if InChoice(banks[0], c, x) {
      assert InChoice(banks[0], choices[0], x);
    }
  }

  lemma FlashTail(banks: seq<Bank>, x: nat)
    requires banks != []
    ensures InFlash(banks, x) <==> InBank(banks[0], x) || InFlash(banks[1..], x)
  {
    hide InBank;
    if InFlash(banks, x) {
      var i :| 0 <= i < |banks| && InBank(banks[i], x);
      if 0 < i {
        assert InBank(banks[1..][i - 1], x);
      }
    }
    if InFlash(banks[1..], x) {
      var i :| 0 <= i < |banks[1..]| && InBank(banks[1..][i], x);
      assert InBank(banks[i + 1], x);
    }
  }

  lemma NothingCovered(banks: seq<Bank>, choices: seq<Choice>, a: nat, last: nat)
    requires |banks| == |choices| && AllSkipped(choices) && last < a
    ensures CoversExactly(banks, choices, a, last)
  {
  }

  /** The banks behind a known one start behind it. */
  lemma TailFrom(banks: seq<Bank>, W: nat)
    requires banks != [] && BanksOk(banks, W) && Ascending(banks) && banks[0].known
    ensures AllFrom(banks[1..], BankEnd(banks[0]) + 1)
  {
    hide BankEnd;
    forall i | 0 <= i < |banks[1..]| && banks[1..][i].known && banks[1..][i].starts != []
      ensures BankEnd(banks[0]) + 1 <= banks[1..][i].starts[0]
    {
      assert banks[1..][i] == banks[i + 1];
      assert BankOk(banks[0], W);
    }
  }

  lemma TopOfAscending(banks: seq<Bank>, W: nat)
    requires BanksOk(banks, W) && Ascending(banks)
    ensures TopIsLast(banks, W) && NoWrap(banks, W)
  {
    forall i, j | 0 <= i < j < |banks| && banks[i].known && banks[j].known && banks[i].starts != []
      ensures BankEnd(banks[i]) + 1 < W
    {
      assert BankOk(banks[j], W);
      assert banks[j].starts[0] < banks[j].starts[0] + banks[j].size;
    }
  }

  /** Taking a bank from `a`, with the rest of the range covered behind it. */
  lemma TakeCovers(banks: seq<Bank>, W: nat, a: nat, last: nat, c: Choice, rest: seq<Choice>, next: nat)
    requires banks != [] && BanksOk(banks, W) && banks[0].known && |rest| == |banks| - 1
    requires c.Take? && c.first <= c.last < |banks[0].starts| && banks[0].starts[c.first] == a
    requires SectorEnd(banks[0], c.last) <= last && CoversExactly(banks[1..], rest, next, last)
    requires next == SectorEnd(banks[0], c.last) + 1
    ensures CoversExactly(banks, [c] + rest, a, last)
  {
    assert BankOk(banks[0], W);
    StartsAscend(banks[0], W, c.first, c.last);
    hide SectorEnd, Covered, BankOk, BanksOk;
    forall x: nat
      ensures Covered(banks, [c] + rest, x) <==> a <= x <= last
    {
      ConsCovered(banks, c, rest, x);
    }
  }

  lemma SkipCovers(banks: seq<Bank>, a: nat, last: nat, rest: seq<Choice>)
    requires banks != [] && |rest| == |banks| - 1 && CoversExactly(banks[1..], rest, a, last)
    ensures CoversExactly(banks, [Skip] + rest, a, last)
  {
    hide Covered;
    forall x: nat
      ensures Covered(banks, [Skip] + rest, x) <==> a <= x <= last
    {
      ConsCovered(banks, Skip, rest, x);
    }
  }

  /** The next known bank starts exactly where the last one ended. */
  lemma ContinuesAt(banks: seq<Bank>, W: nat, a: nat)
    requires banks != [] && BanksOk(banks, W) && Ascending(banks) && AllFrom(banks, a) && banks[0].known
    requires InFlash(banks, a)
    ensures banks[0].starts != [] && banks[0].starts[0] == a
  {
    var i :| 0 <= i < |banks| && InBank(banks[i], a);
    Ascends(banks, W, i);
  }

  lemma Ascends(banks: seq<Bank>, W: nat, i: nat)
    requires BanksOk(banks, W) && Ascending(banks) && i < |banks| && banks[0].known && banks[i].known
    ensures banks[0].starts != [] && banks[i].starts != []
    ensures i == 0 || banks[0].starts[0] < banks[i].starts[0]
  {
    assert BankOk(banks[0], W) && BankOk(banks[i], W);
    assert banks[0].starts[0] < banks[0].starts[0] + banks[0].size;
  }

  lemma FlashBehind(banks: seq<Bank>, W: nat, a: nat, last: nat)
    requires banks != [] && BanksOk(banks, W) && banks[0].known && RangeInFlash(banks, a, last)
    requires BankEnd(banks[0]) < a
    ensures RangeInFlash(banks[1..], a, last)
  {
    hide InFlash;
    forall x: nat | a <= x <= last
      ensures InFlash(banks[1..], x)
    {
      FlashTail(banks, x);
    }
  }

  lemma FlashBehindUnknown(banks: seq<Bank>, a: nat, last: nat)
    requires banks != [] && !banks[0].known && RangeInFlash(banks, a, last)
    ensures RangeInFlash(banks[1..], a, last)
  {
    hide InFlash;
    forall x: nat | a <= x <= last
      ensures InFlash(banks[1..], x)
    {
      FlashTail(banks, x);
    }
  }

  /** What taking a bank means: its sectors from `a` on, to its end or to the end of the range. */
  lemma TakeMeans(b: Bank, W: nat, a: nat, last: nat)
    requires BankOk(b, W) && b.known && Choose(b, a, last).Take?
    ensures var c := Choose(b, a, last);
            && a <= SectorEnd(b, c.last) <= BankEnd(b) < W
            && (SectorEnd(b, c.last) == last || (SectorEnd(b, c.last) == BankEnd(b) < last))
  {
    var c := Choose(b, a, last);
    StartsAscend(b, W, c.first, c.last);
  }

  lemma RangeShrinks(banks: seq<Bank>, a: nat, next: nat, last: nat)
    requires RangeInFlash(banks, a, last) && a <= next
    ensures RangeInFlash(banks, next, last)
  {
  }

  lemma RangeBelow(banks: seq<Bank>, W: nat, a: nat, last: nat)
    requires BanksOk(banks, W) && RangeInFlash(banks, a, last) && a <= last
    ensures last < W
  {
    assert InFlash(banks, last);
    var i :| 0 <= i < |banks| && InBank(banks[i], last);
    assert BankOk(banks[i], W);
  }

  /** The rest of the range behind a bank that was taken is covered by the banks that follow. */
  lemma {:induction false} RestCovered(banks: seq<Bank>, W: nat, a: nat, last: nat)
    requires BanksOk(banks, W) && 0 < W && Ascending(banks) && AllFrom(banks, a) && RangeInFlash(banks, a, last)
    requires Fill(banks, a, last, W).Some?
    ensures CoversExactly(banks, Fill(banks, a, last, W).value, a, last)
    decreases |banks|
  {
    hide BankOk, BanksOk, Ascending, CoversExactly, RangeInFlash, AllFrom, Choose, SectorEnd, BankEnd;
    if last < a {
      UnknownSkipped(banks, a, last, W);
      NothingCovered(banks, Fill(banks, a, last, W).value, a, last);
    } else if banks == [] {
      NoFlash(a, last);
    } else if !banks[0].known {
      TailOk(banks, W);
      FlashBehindUnknown(banks, a, last);
      FromTail(banks, a);
      RestCovered(banks[1..], W, a, last);
      SkipCovers(banks, a, last, Fill(banks[1..], a, last, W).value);
    } else {
      RangeStart(banks, a, last);
      ContinuesAt(banks, W, a);
      TailOk(banks, W);
      StartFound(banks[0], 0, a, last);
      TakeThenRest(banks, W, a, last);
    }
  }

  lemma NoFlash(a: nat, last: nat)
    requires RangeInFlash([], a, last)
    ensures last < a
  {
    assert !InFlash([], a);
  }

  lemma RangeStart(banks: seq<Bank>, a: nat, last: nat)
    requires RangeInFlash(banks, a, last) && a <= last
    ensures InFlash(banks, a)
  {
  }

  lemma FromTail(banks: seq<Bank>, a: nat)
    requires banks != [] && AllFrom(banks, a)
    ensures AllFrom(banks[1..], a)
  {
  }

  /** A range that starts on a sector of a bank is taken from there, or refused. */
  lemma StartFound(b: Bank, s: nat, a: nat, last: nat)
    requires s < |b.starts| && b.starts[s] == a
    ensures !Choose(b, a, last).Skip?
  {
  }

  /** A bank is taken, and what follows covers the rest. */
  lemma TakeThenRest(banks: seq<Bank>, W: nat, a: nat, last: nat)
    requires banks != [] && BanksOk(banks, W) && 0 < W && Ascending(banks) && RangeInFlash(banks, a, last)
    requires a <= last && banks[0].known && BankOk(banks[0], W) && Choose(banks[0], a, last).Take?
    requires Fill(banks, a, last, W).Some?
    ensures CoversExactly(banks, Fill(banks, a, last, W).value, a, last)
    decreases |banks|, 0
  {
    hide BankOk, BanksOk, Ascending, CoversExactly, RangeInFlash, AllFrom, Choose, SectorEnd, BankEnd, TopIsLast;
    var b := banks[0];
    var c := Choose(b, a, last);
    var end := SectorEnd(b, c.last);
    TailOk(banks, W);
    TakeMeans(b, W, a, last);
    var next := Wrap(end + 1, W);
    var rest := Fill(banks[1..], next, last, W).value;
    TopOfAscending(banks, W);
    NextStart(banks, W, c.last);
    TailFrom(banks, W);
    if end == last {
      assert AllSkipped(rest) by {
        UnknownSkipped(banks[1..], next, last, W);
      }
      NothingCovered(banks[1..], rest, end + 1, last);
    } else {
      RangeBelow(banks, W, a, last);
      RangeShrinks(banks, a, next, last);
      FlashBehind(banks, W, next, last);
      RestCovered(banks[1..], W, next, last);
    }
    TakeCovers(banks, W, a, last, c, rest, end + 1);
  }

  /** No known bank has a sector at `a`: nothing is chosen. */
  lemma {:induction false} NothingStarts(banks: seq<Bank>, W: nat, a: nat, last: nat)
    requires BanksOk(banks, W) && 0 < W && AllFrom(banks, a + 1) && Fill(banks, a, last, W).Some?
    ensures AllSkipped(Fill(banks, a, last, W).value)
    decreases |banks|
  {
    if banks != [] {
      if banks[0].known {
        NotTaken(banks[0], W, a, last);
      }
      hide BankOk, Choose;
      NothingStarts(banks[1..], W, a, last);
    }
  }

  lemma NotTaken(b: Bank, W: nat, a: nat, last: nat)
    requires BankOk(b, W) && b.known && b.starts != [] && a < b.starts[0]
    ensures !Choose(b, a, last).Take?
  {
    forall s | 0 <= s < |b.starts|
      ensures b.starts[s] != a
    {
      StartsAscend(b, W, 0, s);
    }
  }

  /** A bank that is skipped although the range starts in it is left at its last byte. */
  lemma SkippedInside(b: Bank, W: nat, a: nat, last: nat)
    requires BankOk(b, W) && b.known && Choose(b, a, last).Skip? && b.starts[0] <= a <= BankEnd(b)
    ensures a == BankEnd(b)
  {
  }

  /**
    Exact cover: for banks in ascending order and a range inside flash, either nothing is chosen or
    the chosen sectors are exactly the range.
   */
  lemma {:induction false} ExactCover(banks: seq<Bank>, W: nat, a: nat, last: nat)
    requires BanksOk(banks, W) && 0 < W && Ascending(banks) && RangeInFlash(banks, a, last) && a <= last
    requires Fill(banks, a, last, W).Some?
    ensures var choices := Fill(banks, a, last, W).value;
            AllSkipped(choices) || CoversExactly(banks, choices, a, last)
    decreases |banks|
  {
    hide BankOk, BanksOk, Ascending, CoversExactly, RangeInFlash, AllFrom, Choose, SectorEnd;
    if banks == [] {
      NoFlash(a, last);
    } else {
      TailOk(banks, W);
      if !banks[0].known {
        FlashBehindUnknown(banks, a, last);
        ExactCover(banks[1..], W, a, last);
        SkippedOrCovered(banks, a, last);
      } else if Choose(banks[0], a, last).Take? {
        TakeThenRest(banks, W, a, last);
      } else {
        RangeStart(banks, a, last);
        SkipKnown(banks, W, a, last);
      }
    }
  }

  lemma SkippedOrCovered(banks: seq<Bank>, a: nat, last: nat)
    ensures forall rest: seq<Choice> :: banks != [] && |rest| == |banks| - 1 ==>
              (AllSkipped(rest) ==> AllSkipped([Skip] + rest))
              && (CoversExactly(banks[1..], rest, a, last) ==> CoversExactly(banks, [Skip] + rest, a, last))
  {
    hide CoversExactly;
    forall rest: seq<Choice> | banks != [] && |rest| == |banks| - 1
      ensures (AllSkipped(rest) ==> AllSkipped([Skip] + rest))
              && (CoversExactly(banks[1..], rest, a, last) ==> CoversExactly(banks, [Skip] + rest, a, last))
    {
      if CoversExactly(banks[1..], rest, a, last) {
        SkipCovers(banks, a, last, rest);
      }
    }
  }

  /** A known bank is skipped: it lies before the range, or the range starts at its last byte. */
  lemma SkipKnown(banks: seq<Bank>, W: nat, a: nat, last: nat)
    requires banks != [] && BanksOk(banks, W) && 0 < W && Ascending(banks) && RangeInFlash(banks, a, last) && a <= last
    requires banks[0].known && banks[0].starts != [] && BankOk(banks[0], W)
    requires Choose(banks[0], a, last).Skip? && InFlash(banks, a)
    requires Fill(banks, a, last, W).Some? && BanksOk(banks[1..], W) && Ascending(banks[1..])
    ensures var choices := Fill(banks, a, last, W).value;
            AllSkipped(choices) || CoversExactly(banks, choices, a, last)
    decreases |banks|, 0
  {
    hide BankOk, BanksOk, Ascending, CoversExactly, RangeInFlash, Choose;
    SkippedOrCovered(banks, a, last);
    TailFrom(banks, W);
    if BankEnd(banks[0]) < a {
      FlashBehind(banks, W, a, last);
      ExactCover(banks[1..], W, a, last);
    } else {
      NotBefore(banks, W, a);
      SkippedInside(banks[0], W, a, last);
      NothingStarts(banks[1..], W, a, last);
    }
  }

  /** The first known bank cannot start behind an address that is in flash. */
  lemma NotBefore(banks: seq<Bank>, W: nat, a: nat)
    requires banks != [] && BanksOk(banks, W) && Ascending(banks) && banks[0].known && InFlash(banks, a)
    ensures banks[0].starts != [] && banks[0].starts[0] <= a
  {
    var i :| 0 <= i < |banks| && InBank(banks[i], a);
    Ascends(banks, W, i);
  }

  /** Sector by sector: exactly the sectors inside the range are chosen, once the range is covered. */
  lemma ChosenIffInside(banks: seq<Bank>, W: nat, a: nat, last: nat, i: nat, s: nat)
    requires BanksOk(banks, W) && 0 < W && Ascending(banks) && Fill(banks, a, last, W).Some?
    requires CoversExactly(banks, Fill(banks, a, last, W).value, a, last)
    requires i < |banks| && banks[i].known && s < |banks[i].starts|
    ensures Chosen(Fill(banks, a, last, W).value, i, s)
            <==> a <= banks[i].starts[s] && SectorEnd(banks[i], s) <= last
  {
    hide Fill, TopIsLast, Ascending;
    var choices := Fill(banks, a, last, W).value;
    var b := banks[i];
    assert BankOk(b, W);
    StartsAscend(b, W, s, s);
    var x := b.starts[s];
    TopOfAscending(banks, W);
    NeverOutside(banks, a, last, W, a);
    if a <= x && SectorEnd(b, s) <= last {
      assert Covered(banks, choices, x);
      var k :| 0 <= k < |banks| && InChoice(banks[k], choices[k], x);
      TakenIsKnown(banks, W, a, last, k);
      SameBank(banks, W, i, s, k, choices[k]);
      ChosenSector(b, W, choices[k], s);
    }
  }

  lemma Order(b: Bank, W: nat, i: nat, j: nat)
    requires BankOk(b, W) && b.known && i < |b.starts| && j < |b.starts|
    ensures i < j ==> b.starts[i] < b.starts[j] && SectorEnd(b, i) < b.starts[j]
  {
    if i < j {
      StartsAscend(b, W, i, j);
    }
  }

  lemma {:induction false} TakenIsKnown(banks: seq<Bank>, W: nat, a: nat, last: nat, k: nat)
    requires BanksOk(banks, W) && 0 < W && Fill(banks, a, last, W).Some? && k < |banks|
    ensures var c := Fill(banks, a, last, W).value[k];
            !c.Fail? && (c.Take? ==> banks[k].known && c.first <= c.last < |banks[k].starts|)
    decreases |banks|
  {
    assert BankOk(banks[0], W);
    hide BankOk, Choose;
    if 0 < k {
      var tail := banks[1..];
      assert tail[k - 1] == banks[k];
      if last < a || !banks[0].known || Choose(banks[0], a, last).Skip? {
        TakenIsKnown(tail, W, a, last, k - 1);
      } else {
        TakenIsKnown(tail, W, Wrap(SectorEnd(banks[0], Choose(banks[0], a, last).last) + 1, W), last, k - 1);
      }
    }
  }

  lemma ChosenSector(b: Bank, W: nat, c: Choice, s: nat)
    requires BankOk(b, W) && b.known && s < |b.starts| && InChoice(b, c, b.starts[s])
    ensures c.first <= s <= c.last
  {
    Order(b, W, s, c.first);
    Order(b, W, c.last, s);
  }

  /** An address is in one bank only. */
  lemma SameBank(banks: seq<Bank>, W: nat, i: nat, s: nat, k: nat, c: Choice)
    requires BanksOk(banks, W) && Ascending(banks) && i < |banks| && k < |banks|
    requires banks[i].known && s < |banks[i].starts| && InChoice(banks[k], c, banks[i].starts[s]) && banks[k].known
    ensures i == k
  {
    assert BankOk(banks[i], W) && BankOk(banks[k], W);
    StartsAscend(banks[i], W, 0, s);
    StartsAscend(banks[i], W, s, s);
    StartsAscend(banks[k], W, 0, c.first);
    StartsAscend(banks[k], W, c.first, c.last);
  }

  // ---------------------------------------------------------------- when the selection succeeds

  predicate BankStartsAt(b: Bank, a: nat) {
    b.known && exists s :: 0 <= s < |b.starts| && b.starts[s] == a
  }

  predicate BankEndsAt(b: Bank, last: nat) {
    b.known && exists s :: 0 <= s < |b.starts| && SectorEnd(b, s) == last
  }

  /** A sector starts at `a`. */
  predicate StartsAt(banks: seq<Bank>, a: nat) {
    exists i :: 0 <= i < |banks| && BankStartsAt(banks[i], a)
  }

  /** A sector ends at `last`. */
  predicate EndsAt(banks: seq<Bank>, last: nat) {
    exists i :: 0 <= i < |banks| && BankEndsAt(banks[i], last)
  }

  lemma StartsTail(banks: seq<Bank>, a: nat)
    requires banks != [] && StartsAt(banks, a) && !BankStartsAt(banks[0], a)
    ensures StartsAt(banks[1..], a)
  {
    hide BankStartsAt;
    var i :| 0 <= i < |banks| && BankStartsAt(banks[i], a);
    assert banks[1..][i - 1] == banks[i];
  }

  lemma EndsTail(banks: seq<Bank>, last: nat)
    requires banks != [] && EndsAt(banks, last) && !BankEndsAt(banks[0], last)
    ensures EndsAt(banks[1..], last)
  {
    hide BankEndsAt;
    var i :| 0 <= i < |banks| && BankEndsAt(banks[i], last);
    assert banks[1..][i - 1] == banks[i];
  }

  lemma StartInBank(banks: seq<Bank>, W: nat, a: nat)
    requires BanksOk(banks, W) && StartsAt(banks, a)
    ensures InFlash(banks, a)
  {
    var i :| 0 <= i < |banks| && BankStartsAt(banks[i], a);
    var b := banks[i];
    var s :| 0 <= s < |b.starts| && b.starts[s] == a;
    assert BankOk(b, W);
    StartsAscend(b, W, 0, s);
    StartsAscend(b, W, s, s);
    assert InBank(b, a);
  }

  lemma EndInBank(b: Bank, W: nat, last: nat)
    requires BankOk(b, W) && BankEndsAt(b, last)
    ensures InBank(b, last)
  {
    var s :| 0 <= s < |b.starts| && SectorEnd(b, s) == last;
    StartsAscend(b, W, 0, s);
    StartsAscend(b, W, s, s);
  }

  /** A range that ends inside the first bank ends on one of its sectors. */
  lemma EndsHere(banks: seq<Bank>, W: nat, last: nat)
    requires banks != [] && BanksOk(banks, W) && Ascending(banks) && EndsAt(banks, last) && InBank(banks[0], last)
    ensures BankEndsAt(banks[0], last)
  {
    hide BankEndsAt;
    var i :| 0 <= i < |banks| && BankEndsAt(banks[i], last);
    assert BankOk(banks[i], W) && BankOk(banks[0], W);
    EndInBank(banks[i], W, last);
  }

  /** Choosing from a bank whose sector starts the range, when the range ends on a sector. */
  lemma ChooseSucceeds(b: Bank, W: nat, a: nat, last: nat)
    requires BankOk(b, W) && b.known && a <= last && BankStartsAt(b, a)
    requires BankEndsAt(b, last) || BankEnd(b) < last
    ensures Choose(b, a, last).Take?
  {
    var sf, sl := FindStart(b, a, 0), FindEnd(b, last, 0);
    assert sf.Some?;
    if sl.Some? {
      Order(b, W, sl.value, sf.value);
    }
  }

  lemma {:induction false} RestSucceeds(banks: seq<Bank>, W: nat, a: nat, last: nat)
    requires BanksOk(banks, W) && 0 < W && Ascending(banks) && AllFrom(banks, a) && RangeInFlash(banks, a, last)
    requires a <= last ==> EndsAt(banks, last)
    ensures Fill(banks, a, last, W).Some?
    decreases |banks|
  {
    hide BankOk, BanksOk, Ascending, RangeInFlash, AllFrom, Choose, SectorEnd, BankEndsAt, EndsAt;
    if last < a {
      UnknownSkipped(banks, a, last, W);
    } else if banks == [] {
      NoFlash(a, last);
    } else if !banks[0].known {
      TailOk(banks, W);
      FlashBehindUnknown(banks, a, last);
      FromTail(banks, a);
      UnknownEnds(banks[0], last);
      EndsTail(banks, last);
      RestSucceeds(banks[1..], W, a, last);
    } else {
      RangeStart(banks, a, last);
      ContinuesAt(banks, W, a);
      TakeSucceeds(banks, W, a, last);
    }
  }

  lemma UnknownEnds(b: Bank, last: nat)
    requires !b.known
    ensures !BankEndsAt(b, last)
  {
  }

  /** The range starts on a sector of the first bank: it is taken, and the rest succeeds. */
  lemma TakeSucceeds(banks: seq<Bank>, W: nat, a: nat, last: nat)
    requires banks != [] && BanksOk(banks, W) && 0 < W && Ascending(banks) && RangeInFlash(banks, a, last)
    requires a <= last && EndsAt(banks, last) && banks[0].known && BankStartsAt(banks[0], a)
    ensures banks[0].starts != [] && Choose(banks[0], a, last).Take? && Fill(banks, a, last, W).Some?
    decreases |banks|, 0
  {
    hide BankOk, BanksOk, Ascending, RangeInFlash, AllFrom, Choose, SectorEnd, BankEndsAt, EndsAt, BankStartsAt,
         TopIsLast;
    var b := banks[0];
    TailOk(banks, W);
    if last <= BankEnd(b) {
      StartBelow(b, W, a);
      EndsHere(banks, W, last);
    }
    ChooseSucceeds(b, W, a, last);
    TakeMeans(b, W, a, last);
    var end := SectorEnd(b, Choose(b, a, last).last);
    var next := Wrap(end + 1, W);
    TopOfAscending(banks, W);
    NextStart(banks, W, Choose(b, a, last).last);
    if end == last {
      UnknownSkipped(banks[1..], next, last, W);
    } else {
      RangeBelow(banks, W, a, last);
      RangeShrinks(banks, a, next, last);
      TailFrom(banks, W);
      FlashBehind(banks, W, next, last);
      EndsBehind(b, W, last);
      EndsTail(banks, last);
      RestSucceeds(banks[1..], W, next, last);
    }
  }

  lemma StartBelow(b: Bank, W: nat, a: nat)
    requires BankOk(b, W) && b.known && BankStartsAt(b, a)
    ensures b.starts[0] <= a <= BankEnd(b)
  {
    var s :| 0 <= s < |b.starts| && b.starts[s] == a;
    StartsAscend(b, W, 0, s);
    StartsAscend(b, W, s, s);
  }

  lemma EndsBehind(b: Bank, W: nat, last: nat)
    requires BankOk(b, W) && b.known && BankEnd(b) < last
    ensures !BankEndsAt(b, last)
  {
    forall s | 0 <= s < |b.starts|
      ensures SectorEnd(b, s) != last
    {
      StartsAscend(b, W, s, s);
    }
  }

  /** A range that starts on a sector and ends on a sector is selected. */
  lemma {:induction false} Succeeds(banks: seq<Bank>, W: nat, a: nat, last: nat)
    requires BanksOk(banks, W) && 0 < W && Ascending(banks) && RangeInFlash(banks, a, last) && a <= last
    requires StartsAt(banks, a) && EndsAt(banks, last)
    ensures Fill(banks, a, last, W).Some? && !AllSkipped(Fill(banks, a, last, W).value)
    decreases |banks|
  {
    hide BankOk, BanksOk, Ascending, RangeInFlash, Choose, SectorEnd, BankEndsAt, EndsAt, BankStartsAt, StartsAt;
    if banks == [] {
      NoFlash(a, last);
    } else if BankStartsAt(banks[0], a) {
      KnownIfStarts(banks[0], a);
      TakeSucceeds(banks, W, a, last);
      assert Fill(banks, a, last, W).value[0].Take?;
    } else {
      TailOk(banks, W);
      StartsTail(banks, a);
      if banks[0].known {
        StartInBank(banks[1..], W, a);
        TailFrom(banks, W);
        FlashFrom(banks[1..], W, BankEnd(banks[0]) + 1, a);
        FlashBehind(banks, W, a, last);
        EndsBehind(banks[0], W, last);
        SkipsBelow(banks[0], W, a, last);
      } else {
        FlashBehindUnknown(banks, a, last);
        UnknownEnds(banks[0], last);
      }
      EndsTail(banks, last);
      Succeeds(banks[1..], W, a, last);
      var rest := Fill(banks[1..], a, last, W).value;
      var i :| 0 <= i < |rest| && !rest[i].Skip?;
      assert ([Skip] + rest)[i + 1] == rest[i];
    }
  }

  lemma KnownIfStarts(b: Bank, a: nat)
    requires BankStartsAt(b, a)
    ensures b.known
  {
  }

  lemma FlashFrom(banks: seq<Bank>, W: nat, low: nat, a: nat)
    requires BanksOk(banks, W) && AllFrom(banks, low) && InFlash(banks, a)
    ensures low <= a
  {
  }

  lemma SkipsBelow(b: Bank, W: nat, a: nat, last: nat)
    requires BankOk(b, W) && b.known && b.starts != [] && !BankStartsAt(b, a) && !BankEndsAt(b, last) && BankEnd(b) < a
    ensures Choose(b, a, last).Skip?
  {
  }

  /**
    For banks in ascending order and a range inside flash, the selection succeeds with sectors
    chosen if and only if the range starts where a sector starts and ends where a sector ends.
   */
  lemma SelectionIff(banks: seq<Bank>, W: nat, a: nat, last: nat)
    requires BanksOk(banks, W) && 0 < W && Ascending(banks) && RangeInFlash(banks, a, last) && a <= last
    ensures Fill(banks, a, last, W).Some? && !AllSkipped(Fill(banks, a, last, W).value)
            <==> StartsAt(banks, a) && EndsAt(banks, last)
  {
    hide BanksOk, Ascending, RangeInFlash, Fill, StartsAt, EndsAt, AllSkipped;
    if StartsAt(banks, a) && EndsAt(banks, last) {
      Succeeds(banks, W, a, last);
    }
    if Fill(banks, a, last, W).Some? && !AllSkipped(Fill(banks, a, last, W).value) {
      ExactCover(banks, W, a, last);
      TopOfAscending(banks, W);
      NeverOutside(banks, a, last, W, a);
      BoundsOnSectors(banks, W, a, last);
    }
  }

  lemma BoundsOnSectors(banks: seq<Bank>, W: nat, a: nat, last: nat)
    requires BanksOk(banks, W) && 0 < W && Fill(banks, a, last, W).Some? && a <= last
    requires InRange(banks, Fill(banks, a, last, W).value, a, last)
    requires CoversExactly(banks, Fill(banks, a, last, W).value, a, last)
    ensures StartsAt(banks, a) && EndsAt(banks, last)
  {
    hide Fill;
    var choices := Fill(banks, a, last, W).value;
    assert Covered(banks, choices, a) && Covered(banks, choices, last);
    var i :| 0 <= i < |banks| && InChoice(banks[i], choices[i], a);
    var k :| 0 <= k < |banks| && InChoice(banks[k], choices[k], last);
    TakenIsKnown(banks, W, a, last, i);
    TakenIsKnown(banks, W, a, last, k);
    assert Chosen(choices, i, choices[i].first) && Chosen(choices, k, choices[k].last);
    assert BankStartsAt(banks[i], a) && BankEndsAt(banks[k], last);
  }
}
