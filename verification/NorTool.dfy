/**
  flash_fill_sect_ranges, flash_sect_protect and flash_sect_roundb as they run: the loops over
  banks and sectors fill two arrays with the first and last sector of every bank.
 */
module NorTool {
  import opened TextNumbers
  import opened NorFlash

  /** The loop over the sectors of one bank. */
  method ScanBank(b: Bank, a: nat, last: nat, W: nat) returns (first: int, final: int)
    requires BankOk(b, W) && b.known && a <= last
    ensures first == IndexOf(FindStart(b, a, 0)) && final == IndexOf(FindEnd(b, last, 0))
  {
    first, final := -1, -1;
    var sect := 0;
    while sect < |b.starts|
      invariant sect <= |b.starts|
      invariant if first == -1 then forall s :: 0 <= s < sect ==> b.starts[s] != a
                else 0 <= first < sect && b.starts[first] == a
      invariant if final == -1 then forall s :: 0 <= s < sect ==> SectorEnd(b, s) != last
                else 0 <= final < sect && SectorEnd(b, final) == last
    {
      var end := SectorEnd(b, sect);
      StartsAscend(b, W, sect, sect);
      if a <= end && b.starts[sect] <= last {
        if a == b.starts[sect] {
          first := sect;
        }
        if last == end {
          final := sect;
        }
      }
      sect := sect + 1;
    }
    UniqueStart(b, W, a, first);
    UniqueEnd(b, W, last, final);
  }

  function IndexOf(r: Option<nat>): int {
    if r.Some? then r.value else -1
  }

  lemma UniqueStart(b: Bank, W: nat, a: nat, first: int)
    requires BankOk(b, W) && b.known
    requires if first == -1 then forall s :: 0 <= s < |b.starts| ==> b.starts[s] != a
             else 0 <= first < |b.starts| && b.starts[first] == a
    ensures first == IndexOf(FindStart(b, a, 0))
  {
    var r := FindStart(b, a, 0);
    if r.Some? && first != -1 {
      Order(b, W, r.value, first);
      Order(b, W, first, r.value);
    }
  }

  lemma UniqueEnd(b: Bank, W: nat, last: nat, final: int)
    requires BankOk(b, W) && b.known
    requires if final == -1 then forall s :: 0 <= s < |b.starts| ==> SectorEnd(b, s) != last
             else 0 <= final < |b.starts| && SectorEnd(b, final) == last
    ensures final == IndexOf(FindEnd(b, last, 0))
  {
    var r := FindEnd(b, last, 0);
    if r.Some? && final != -1 {
      EndOrder(b, W, r.value, final);
      EndOrder(b, W, final, r.value);
    }
  }

  lemma EndOrder(b: Bank, W: nat, i: nat, j: nat)
    requires BankOk(b, W) && b.known && i < |b.starts| && j < |b.starts|
    ensures i < j ==> SectorEnd(b, i) < SectorEnd(b, j)
  {
    if i < j {
      StartsAscend(b, W, i, j);
      StartsAscend(b, W, j, j);
    }
  }

  /** An array entry stands for a choice: -1 where nothing is chosen. */
  function FirstOf(c: Choice): int {
    if c.Take? then c.first else -1
  }

  function LastOf(c: Choice): int {
    if c.Take? then c.last else -1
  }

  lemma {:induction false} CountSnoc(done: seq<Choice>, c: Choice)
    ensures Count(done + [c]) == Count(done) + Count([c])
    decreases |done|
  {
    if done == [] {
      assert done + [c] == [c];
    } else {
      assert (done + [c])[1..] == done[1..] + [c];
      CountSnoc(done[1..], c);
    }
  }

  lemma CountNone()
    ensures Count([]) == 0
  {
  }

  lemma CountOne(c: Choice)
    ensures Count([c]) == if c.Take? && c.first <= c.last then c.last - c.first + 1 else 0
  {
    assert [c][1..] == [];
  }

  lemma {:induction false} CountSkipped(done: seq<Choice>, rest: seq<Choice>)
    requires AllSkipped(rest)
    ensures Count(done + rest) == Count(done)
    decreases |rest|
  {
    if rest == [] {
      assert done + rest == done;
    } else {
      assert done + rest == done + [rest[0]] + rest[1..];
      CountSnoc(done, rest[0]);
      CountOne(rest[0]);
      CountSkipped(done + [rest[0]], rest[1..]);
    }
  }

  /** What is still to be decided, put behind what has been decided. */
  ghost function Complete(done: seq<Choice>, rest: Option<seq<Choice>>): Option<seq<Choice>> {
    if rest.None? then None else Some(done + rest.value)
  }

  lemma OneMore(done: seq<Choice>, banks: seq<Bank>, i: nat, a: nat, last: nat, W: nat, c: Choice, next: nat)
    requires BanksOk(banks, W) && 0 < W && i < |banks| && a <= last
    requires if banks[i].known then banks[i].starts != [] && c == Choose(banks[i], a, last) && !c.Fail? else c == Skip
    requires next == if c.Take? then Wrap(SectorEnd(banks[i], c.last) + 1, W) else a
    ensures Complete(done, Fill(banks[i..], a, last, W)) == Complete(done + [c], Fill(banks[i + 1..], next, last, W))
  {
    hide BankOk, Choose, SectorEnd;
    assert banks[i..][1..] == banks[i + 1..] && banks[i..][0] == banks[i];
    var rest := Fill(banks[i + 1..], next, last, W);
    if rest.Some? {
      assert done + ([c] + rest.value) == done + [c] + rest.value;
    }
  }

  /** What is decided for one known bank, once its sectors have been looked at. */
  method DecideBank(b: Bank, a: nat, last: nat, W: nat) returns (ok: bool, first: int, final: int)
    requires BankOk(b, W) && b.known && a <= last
    ensures ok <==> !Choose(b, a, last).Fail?
    ensures ok ==> first == FirstOf(Choose(b, a, last)) && final == LastOf(Choose(b, a, last))
    ensures ok && 0 <= first ==> 0 <= first <= final < |b.starts| && 0 <= SectorEnd(b, final)
  {
    first, final := ScanBank(b, a, last, W);
    ChooseIs(b, a, last);
    hide Choose;
    if first >= 0 {
      if final < 0 {
        if last > BankEnd(b) {
          final := |b.starts| - 1;
        } else {
          return false, first, final;
        }
      }
      if final < first {
        return false, first, final;
      }
      EndInside(b, W, final);
    } else if b.starts[0] <= a < BankEnd(b) || final >= 0 {
      return false, first, final;
    }
    ok := true;
  }

  /** flash_fill_sect_ranges */
  method FillSectRanges(banks: seq<Bank>, addrFirst: nat, addrLast: nat, W: nat,
                        sFirst: array<int>, sLast: array<int>) returns (code: int, count: nat)
    requires BanksOk(banks, W) && 0 < W && sFirst.Length == sLast.Length == |banks| && sFirst != sLast
    modifies sFirst, sLast
    ensures code == (if Fill(banks, addrFirst, addrLast, W).Some? then 0 else 1)
    ensures code == 0 ==>
              var choices := Fill(banks, addrFirst, addrLast, W).value;
              && count == Count(choices)
              && forall i :: 0 <= i < |banks| ==> sFirst[i] == FirstOf(choices[i]) && sLast[i] == LastOf(choices[i])
  {
    CountNone();
    hide BankOk, Choose, Fill, SectorEnd, Count;
    ClearRanges(sFirst, sLast);
    ghost var done: seq<Choice> := [];
    var bank, a := 0, addrFirst;
    count, code := 0, 0;
    assert banks[0..] == banks;
    Started(Fill(banks, addrFirst, addrLast, W));
    while bank < |banks| && a <= addrLast
      invariant bank <= |banks| && |done| == bank && 0 <= a
      invariant Fill(banks, addrFirst, addrLast, W) == Complete(done, Fill(banks[bank..], a, addrLast, W))
      invariant count == Count(done)
      invariant forall i :: 0 <= i < bank ==> sFirst[i] == FirstOf(done[i]) && sLast[i] == LastOf(done[i])
      invariant forall i :: bank <= i < |banks| ==> sFirst[i] == -1 && sLast[i] == -1
      decreases |banks| - bank
    {
      var b := banks[bank];
      ghost var c := Skip;
      var next := a;
      TailAt(banks, W, bank);
      if b.known {
        var ok: bool;
        c := Choose(b, a, addrLast);
        ok, sFirst[bank], sLast[bank] := DecideBank(b, a, addrLast, W);
        if !ok {
          Failed(banks, bank, a, addrLast, W);
          return 1, count;
        }
        if 0 <= sFirst[bank] {
          next := Wrap(SectorEnd(b, sLast[bank]) + 1, W);
          count := count + (sLast[bank] - sFirst[bank] + 1);
        }
      }
      OneMore(done, banks, bank, a, addrLast, W, c, next);
      CountSnoc(done, c);
      CountOne(c);
      done := done + [c];
      a := next;
      bank := bank + 1;
    }
    TailsOk(banks, W, bank);
    if bank == |banks| {
      assert banks[bank..] == [];
    }
    Exhausted(banks[bank..], a, addrLast, W);
    CountSkipped(done, Fill(banks[bank..], a, addrLast, W).value);
  }

  method ClearRanges(sFirst: array<int>, sLast: array<int>)
    requires sFirst.Length == sLast.Length && sFirst != sLast
    modifies sFirst, sLast
    ensures forall i :: 0 <= i < sFirst.Length ==> sFirst[i] == -1 && sLast[i] == -1
  {
    var k := 0;
    while k < sFirst.Length
      invariant k <= sFirst.Length
      invariant forall i :: 0 <= i < k ==> sFirst[i] == -1 && sLast[i] == -1
    {
      sFirst[k], sLast[k] := -1, -1;
      k := k + 1;
    }
  }

  lemma Started(r: Option<seq<Choice>>)
    ensures r == Complete([], r)
  {
    if r.Some? {
      assert [] + r.value == r.value;
    }
  }

  lemma TailAt(banks: seq<Bank>, W: nat, i: nat)
    requires BanksOk(banks, W) && i < |banks|
    ensures BankOk(banks[i], W) && (banks[i].known ==> banks[i].starts != [])
    ensures BanksOk(banks[i..], W)
  {
    assert BankOk(banks[i], W);
  }

  lemma TailsOk(banks: seq<Bank>, W: nat, i: nat)
    requires BanksOk(banks, W) && i <= |banks|
    ensures BanksOk(banks[i..], W)
  {
    hide BankOk;
  }

  lemma Exhausted(banks: seq<Bank>, a: nat, last: nat, W: nat)
    requires BanksOk(banks, W) && 0 < W && (banks == [] || last < a)
    ensures Fill(banks, a, last, W).Some? && AllSkipped(Fill(banks, a, last, W).value)
  {
    UnknownSkipped(banks, a, last, W);
  }

  lemma EndInside(b: Bank, W: nat, s: nat)
    requires BankOk(b, W) && b.known && s < |b.starts|
    ensures 0 <= SectorEnd(b, s)
  {
    StartsAscend(b, W, s, s);
  }

  lemma Failed(banks: seq<Bank>, i: nat, a: nat, last: nat, W: nat)
    requires BanksOk(banks, W) && 0 < W && i < |banks| && a <= last && banks[i].known && banks[i].starts != []
    requires Choose(banks[i], a, last).Fail?
    ensures Fill(banks[i..], a, last, W).None?
  {
    hide BankOk, Choose;
    assert banks[i..][0] == banks[i];
  }

  /** `Choose` in terms of the two array entries. */
  lemma ChooseIs(b: Bank, a: nat, last: nat)
    requires b.starts != []
    ensures var f, l := IndexOf(FindStart(b, a, 0)), IndexOf(FindEnd(b, last, 0));
            Choose(b, a, last)
            == if 0 <= f then
                 if l < 0 then if last > BankEnd(b) then Take(f, |b.starts| - 1) else Fail
                 else if l < f then Fail else Take(f, l)
               else if b.starts[0] <= a < BankEnd(b) || 0 <= l then Fail
               else Skip
    ensures var f, l := IndexOf(FindStart(b, a, 0)), IndexOf(FindEnd(b, last, 0)); f < |b.starts| && l < |b.starts|
  {
  }

  // ---------------------------------------------------------------- protecting

  /** The protect flags after a call: exactly the chosen sectors take the new value. */
  ghost predicate Protected(banks: seq<Bank>, choices: seq<Choice>, before: seq<seq<bool>>, after: seq<seq<bool>>,
                            p: bool) {
    && |before| == |after| == |banks| == |choices|
    && forall i :: 0 <= i < |banks| ==>
         && |after[i]| == |before[i]|
         && forall s :: 0 <= s < |before[i]| ==> after[i][s] == if Chosen(choices, i, s) then p else before[i][s]
  }

  class Flash {
    const banks: seq<Bank>
    const W: nat
    var protect: seq<seq<bool>>

    predicate Valid()
      reads this
    {
      && BanksOk(banks, W) && 0 < W
      && |protect| == |banks|
      && forall i :: 0 <= i < |banks| ==> |protect[i]| == |banks[i].starts|
    }

    constructor (banks: seq<Bank>, W: nat, protect: seq<seq<bool>>)
      requires BanksOk(banks, W) && 0 < W && |protect| == |banks|
      requires forall i :: 0 <= i < |banks| ==> |protect[i]| == |banks[i].starts|
      ensures Valid() && this.banks == banks && this.W == W && this.protect == protect
    {
      this.banks, this.W, this.protect := banks, W, protect;
    }

    /** The sectors of one bank. */
    method ProtectBank(p: bool, bank: nat, first: nat, last: nat)
      requires Valid() && bank < |banks| && first <= last < |banks[bank].starts|
      modifies this`protect
      ensures Valid()
      ensures forall i :: 0 <= i < |banks| && i != bank ==> protect[i] == old(protect)[i]
      ensures forall s :: 0 <= s < |protect[bank]| ==>
                protect[bank][s] == if first <= s <= last then p else old(protect)[bank][s]
    {
      var i := first;
      while i <= last
        invariant first <= i <= last + 1 && Valid()
        invariant forall k :: 0 <= k < |banks| && k != bank ==> protect[k] == old(protect)[k]
        invariant forall s :: 0 <= s < |protect[bank]| ==>
                    protect[bank][s] == if first <= s < i then p else old(protect)[bank][s]
      {
        protect := protect[bank := protect[bank][i := p]];
        i := i + 1;
      }
    }

    /** flash_sect_protect */
    method SectProtect(p: bool, addrFirst: nat, addrLast: nat) returns (code: int)
      requires Valid()
      modifies this`protect
      ensures Valid()
      ensures var r := Fill(banks, addrFirst, addrLast, W);
              && code == (if r.Some? && 0 < Count(r.value) then 0 else 1)
              && (code == 0 ==> Protected(banks, r.value, old(protect), protect, p))
              && (code != 0 ==> protect == old(protect))
    {
      hide BanksOk, Fill, Count;
      var sFirst, sLast := new int[|banks|], new int[|banks|];
      var rc, planned := FillSectRanges(banks, addrFirst, addrLast, W, sFirst, sLast);
      if rc != 0 || planned == 0 {
        return 1;
      }
      ghost var choices := Fill(banks, addrFirst, addrLast, W).value;
      var bank := 0;
      while bank < |banks|
        invariant bank <= |banks| && Valid()
        invariant forall i :: 0 <= i < |banks| ==> sFirst[i] == FirstOf(choices[i]) && sLast[i] == LastOf(choices[i])
        invariant forall i :: bank <= i < |banks| ==> protect[i] == old(protect)[i]
        invariant forall i :: 0 <= i < bank ==>
                    forall s :: 0 <= s < |protect[i]| ==>
                      protect[i][s] == if Chosen(choices, i, s) then p else old(protect)[i][s]
      {
        TakenIsKnown(banks, W, addrFirst, addrLast, bank);
        if banks[bank].known && 0 <= sFirst[bank] <= sLast[bank] {
          ProtectBank(p, bank, sFirst[bank], sLast[bank]);
        }
        bank := bank + 1;
      }
      code := 0;
    }
  }

  // ---------------------------------------------------------------- what protecting does

  lemma CountStep(choices: seq<Choice>)
    requires choices != []
    ensures Count(choices) == Count([choices[0]]) + Count(choices[1..])
  {
    CountOne(choices[0]);
  }

  lemma {:induction false} CountZero(choices: seq<Choice>)
    requires forall i :: 0 <= i < |choices| ==>
             !choices[i].Fail? && (choices[i].Take? ==> choices[i].first <= choices[i].last)
    ensures Count(choices) == 0 <==> AllSkipped(choices)
    decreases |choices|
  {
    if choices != [] {
      CountStep(choices);
      CountOne(choices[0]);
      CountZero(choices[1..]);
      assert choices == [choices[0]] + choices[1..];
    }
  }

  /** The sectors chosen, by bank and number. */
  ghost function ChosenSectors(choices: seq<Choice>): set<(int, int)> {
    set i, s | 0 <= i < |choices| && choices[i].Take? && choices[i].first <= s <= choices[i].last :: (i, s)
  }

  lemma {:induction false} RowSize(k: int, lo: int, hi: int)
    requires lo <= hi + 1
    ensures |set s | lo <= s <= hi :: (k, s)| == hi - lo + 1
    decreases hi - lo + 1
  {
    var row := set s | lo <= s <= hi :: (k, s);
    if hi < lo {
      assert row == {};
    } else {
      RowSize(k, lo, hi - 1);
      var shorter := set s | lo <= s <= hi - 1 :: (k, s);
      assert row == shorter + {(k, hi)};
    }
  }

  ghost function Row(k: int, c: Choice): set<(int, int)> {
    if c.Take? then set s: int | c.first <= s <= c.last :: (k, s) else {}
  }

  lemma InChosen(choices: seq<Choice>, p: (int, int))
    ensures p in ChosenSectors(choices)
            <==> 0 <= p.0 < |choices| && choices[p.0].Take? && choices[p.0].first <= p.1 <= choices[p.0].last
  {
  }

  lemma AddRow(done: seq<Choice>, c: Choice)
    ensures ChosenSectors(done + [c]) == ChosenSectors(done) + Row(|done|, c)
    ensures ChosenSectors(done) !! Row(|done|, c)
  {
    hide ChosenSectors;
    forall p: (int, int)
      ensures p in ChosenSectors(done + [c]) <==> p in ChosenSectors(done) || p in Row(|done|, c)
      ensures !(p in ChosenSectors(done) && p in Row(|done|, c))
    {
      InChosen(done, p);
      InChosen(done + [c], p);
    }
  }

  /** s_count is the number of sectors chosen. */
  lemma {:induction false} CountIsNumber(choices: seq<Choice>)
    ensures Count(choices) == |ChosenSectors(choices)|
    decreases |choices|
  {
    if choices == [] {
      assert ChosenSectors(choices) == {};
    } else {
      var k := |choices| - 1;
      var c := choices[k];
      assert choices == choices[..k] + [c];
      CountSnoc(choices[..k], c);
      CountOne(c);
      CountIsNumber(choices[..k]);
      AddRow(choices[..k], c);
      if c.Take? && c.first <= c.last {
        RowSize(k, c.first, c.last);
      } else {
        assert Row(k, c) == {};
      }
      hide ChosenSectors, Count;
    }
  }

  /** Nothing planned means nothing chosen. */
  lemma PlannedIffChosen(banks: seq<Bank>, W: nat, a: nat, last: nat)
    requires BanksOk(banks, W) && 0 < W && Fill(banks, a, last, W).Some?
    ensures Count(Fill(banks, a, last, W).value) == 0 <==> AllSkipped(Fill(banks, a, last, W).value)
  {
    hide Fill, Count, AllSkipped, BanksOk;
    var choices := Fill(banks, a, last, W).value;
    forall i | 0 <= i < |choices|
      ensures !choices[i].Fail? && (choices[i].Take? ==> choices[i].first <= choices[i].last)
    {
      TakenIsKnown(banks, W, a, last, i);
    }
    CountZero(choices);
  }

  /**
    Protecting a range inside flash does something if and only if the range starts and ends on
    sectors, and then the flags that change are those of the sectors inside the range.
   */
  lemma ProtectsTheRange(banks: seq<Bank>, W: nat, a: nat, last: nat, before: seq<seq<bool>>, after: seq<seq<bool>>,
                         p: bool)
    requires BanksOk(banks, W) && 0 < W && Ascending(banks) && RangeInFlash(banks, a, last) && a <= last
    ensures Fill(banks, a, last, W).Some? && 0 < Count(Fill(banks, a, last, W).value)
            <==> StartsAt(banks, a) && EndsAt(banks, last)
    ensures Fill(banks, a, last, W).Some? && 0 < Count(Fill(banks, a, last, W).value)
            && Protected(banks, Fill(banks, a, last, W).value, before, after, p) ==>
              forall i, s :: 0 <= i < |banks| && banks[i].known && 0 <= s < |banks[i].starts| && s < |before[i]| ==>
                after[i][s] == if a <= banks[i].starts[s] && SectorEnd(banks[i], s) <= last then p else before[i][s]
  {
    hide Fill, Count, BanksOk, Ascending, RangeInFlash, StartsAt, EndsAt, AllSkipped, SectorEnd, CoversExactly, Chosen;
    SelectionIff(banks, W, a, last);
    if Fill(banks, a, last, W).Some? {
      PlannedIffChosen(banks, W, a, last);
      ExactCover(banks, W, a, last);
      var choices := Fill(banks, a, last, W).value;
      if 0 < Count(choices) && Protected(banks, choices, before, after, p) {
        forall i, s | 0 <= i < |banks| && banks[i].known && 0 <= s < |banks[i].starts| && s < |before[i]|
          ensures after[i][s] == if a <= banks[i].starts[s] && SectorEnd(banks[i], s) <= last then p else before[i][s]
        {
          ChosenIffInside(banks, W, a, last, i, s);
          assert after[i][s] == if Chosen(choices, i, s) then p else before[i][s];
        }
      }
    }
  }

  // ---------------------------------------------------------------- rounding an end address

  /** Sector `s` of bank `i` holds the address; unknown banks are not told apart here. */
  predicate Holds(banks: seq<Bank>, i: nat, s: nat, x: nat) {
    i < |banks| && s < |banks[i].starts| && InSector(banks[i], s, x)
  }

  /** flash_sect_roundb: the address moves to the end of the sector that holds it. */
  method SectRoundb(banks: seq<Bank>, addr: nat) returns (code: int, end: nat)
    ensures code == 0 || code == 1
    ensures code == 1 ==> end == addr && forall i: nat, s: nat :: !Holds(banks, i, s, addr)
    ensures code == 0 ==> exists i: nat, s: nat :: Holds(banks, i, s, addr) && end == SectorEnd(banks[i], s)
    ensures code == 0 ==> addr <= end
  {
    end := addr;
    var bank := 0;
    while bank < |banks|
      invariant bank <= |banks|
      invariant forall i: nat, s: nat :: i < bank ==> !Holds(banks, i, s, addr)
    {
      var b := banks[bank];
      var sect := 0;
      while sect < |b.starts|
        invariant sect <= |b.starts|
        invariant forall s: nat :: s < sect ==> !Holds(banks, bank, s, addr)
      {
        var last := SectorEnd(b, sect);
        if addr <= last && b.starts[sect] <= addr {
          assert Holds(banks, bank, sect, addr);
          if addr < last {
            end := last;
          }
          return 0, end;
        }
        sect := sect + 1;
      }
      bank := bank + 1;
    }
    code := 1;
  }

  /** A length given as `+len` is rounded up to an end the selection accepts. */
  lemma RoundedEndAccepted(banks: seq<Bank>, W: nat, i: nat, s: nat, x: nat)
    requires BanksOk(banks, W) && Holds(banks, i, s, x) && banks[i].known
    ensures 0 <= SectorEnd(banks[i], s) && EndsAt(banks, SectorEnd(banks[i], s))
    ensures forall y: nat :: x <= y <= SectorEnd(banks[i], s) ==> InFlash(banks, y)
  {
    var b := banks[i];
    assert BankOk(b, W);
    StartsAscend(b, W, s, s);
    StartsAscend(b, W, 0, s);
    assert BankEndsAt(b, SectorEnd(b, s));
    forall y: nat | x <= y <= SectorEnd(b, s)
      ensures InFlash(banks, y)
    {
      assert InBank(banks[i], y);
    }
  }
}
