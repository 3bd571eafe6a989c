/**
  Where the sum `b_end + 1` of flash_fill_sect_ranges wraps to address 0: a sector outside the
  range can be chosen if and only if a bank at the end of the address space comes before a bank at
  its start.
 */
module NorWrap {
  import opened TextNumbers
  import opened NorFlash

  /** Known banks share no address. */
  predicate Disjoint(banks: seq<Bank>) {
    forall i, j :: 0 <= i < j < |banks| && banks[i].known && banks[j].known &&
                   banks[i].starts != [] && banks[j].starts != [] ==>
      BankEnd(banks[i]) < banks[j].starts[0] || BankEnd(banks[j]) < banks[i].starts[0]
  }

  /** No known bank reaches the end of the address space, and `a` is not strictly inside one. */
  predicate Passable(banks: seq<Bank>, W: nat, a: nat) {
    forall i :: 0 <= i < |banks| && banks[i].known && banks[i].starts != [] ==>
      BankEnd(banks[i]) + 1 < W && !(banks[i].starts[0] < a <= BankEnd(banks[i]))
  }

  lemma First(banks: seq<Bank>, W: nat)
    requires banks != [] && BanksOk(banks, W) && Disjoint(banks)
    ensures BankOk(banks[0], W) && (banks[0].known ==> banks[0].starts != [])
    ensures BanksOk(banks[1..], W) && Disjoint(banks[1..])
  {
    assert BankOk(banks[0], W);
  }

  /** A bank that ends before the end of the range is taken whole or passed over. */
  lemma TakenWhole(b: Bank, W: nat, a: nat)
    requires BankOk(b, W) && b.known && 0 < W && BankEnd(b) + 1 < W && !(b.starts[0] < a <= BankEnd(b))
    ensures var c := Choose(b, a, W - 1);
            if a == b.starts[0] then c == Take(0, |b.starts| - 1) else c == Skip
  {
    forall s | 0 <= s < |b.starts|
      ensures SectorEnd(b, s) < W - 1 && b.starts[0] <= b.starts[s] <= BankEnd(b)
      ensures s > 0 ==> b.starts[0] < b.starts[s]
    {
      StartsAscend(b, W, s, s);
      StartsAscend(b, W, 0, s);
    }
  }

  /** Behind a bank that is taken whole the range starts on no other bank's inside. */
  lemma BehindFirst(banks: seq<Bank>, W: nat, a: nat)
    requires banks != [] && BanksOk(banks, W) && Disjoint(banks) && Passable(banks, W, a)
    ensures Passable(banks[1..], W, a)
    ensures banks[0].known && banks[0].starts != [] ==>
            BankEnd(banks[0]) + 1 < W && Passable(banks[1..], W, BankEnd(banks[0]) + 1)
  {
    if banks[0].known && banks[0].starts != [] {
      assert BankOk(banks[0], W);
      StartsAscend(banks[0], W, 0, 0);
      forall i | 0 <= i < |banks[1..]| && banks[1..][i].known && banks[1..][i].starts != []
        ensures !(banks[1..][i].starts[0] < BankEnd(banks[0]) + 1 <= BankEnd(banks[1..][i]))
      {
        assert banks[1..][i] == banks[i + 1];
      }
    }
  }

  lemma LastEnd(b: Bank, W: nat)
    requires BankOk(b, W) && b.known
    ensures b.starts != [] && SectorEnd(b, |b.starts| - 1) == BankEnd(b) && 0 <= BankEnd(b) < W
    ensures b.starts[0] <= b.starts[|b.starts| - 1] <= BankEnd(b)
  {
    StartsAscend(b, W, 0, |b.starts| - 1);
  }

  /** A range up to the end of the address space passes every bank that ends before. */
  lemma {:induction false} Passes(banks: seq<Bank>, W: nat, a: nat)
    requires BanksOk(banks, W) && 0 < W && Disjoint(banks) && Passable(banks, W, a)
    ensures Fill(banks, a, W - 1, W).Some?
    decreases |banks|
  {
    if banks != [] {
      First(banks, W);
      BehindFirst(banks, W, a);
      hide BankOk, BanksOk, Disjoint, Passable, Choose, SectorEnd;
      Passes(banks[1..], W, a);
      if banks[0].known {
        PassableFirst(banks, W, a);
        TakenWhole(banks[0], W, a);
        LastEnd(banks[0], W);
        Passes(banks[1..], W, BankEnd(banks[0]) + 1);
      }
    }
  }

  lemma PassableFirst(banks: seq<Bank>, W: nat, a: nat)
    requires banks != [] && Passable(banks, W, a) && banks[0].known && banks[0].starts != []
    ensures BankEnd(banks[0]) + 1 < W && !(banks[0].starts[0] < a <= BankEnd(banks[0]))
  {
  }

  /** From address 0, the bank at address 0 is taken. */
  lemma {:induction false} ZeroTaken(banks: seq<Bank>, W: nat, j: nat)
    requires BanksOk(banks, W) && 0 < W && Disjoint(banks) && Passable(banks, W, 0)
    requires j < |banks| && banks[j].known && banks[j].starts != [] && banks[j].starts[0] == 0
    ensures Fill(banks, 0, W - 1, W).Some? && Chosen(Fill(banks, 0, W - 1, W).value, j, 0)
    decreases |banks|
  {
    Passes(banks, W, 0);
    First(banks, W);
    BehindFirst(banks, W, 0);
    if banks[0].known {
      PassableFirst(banks, W, 0);
      TakenWhole(banks[0], W, 0);
    }
    if j == 0 {
      hide BankOk, BanksOk, Disjoint, Passable, Choose, SectorEnd, Fill;
      FillTake(banks, 0, W - 1, W);
    } else {
      OnlyOneAtZero(banks, W, j);
      hide BankOk, BanksOk, Disjoint, Passable, Choose, SectorEnd, Fill;
      ZeroTaken(banks[1..], W, j - 1);
      FillSkip(banks, 0, W - 1, W);
      ShiftedChoice(Skip, Fill(banks[1..], 0, W - 1, W).value, j);
    }
  }

  lemma OnlyOneAtZero(banks: seq<Bank>, W: nat, j: nat)
    requires BanksOk(banks, W) && Disjoint(banks) && 0 < j < |banks|
    requires banks[j].known && banks[j].starts != [] && banks[j].starts[0] == 0
    ensures banks[0].known && banks[0].starts != [] ==> banks[0].starts[0] != 0
  {
    assert BankOk(banks[0], W) && BankOk(banks[j], W);
    if banks[0].known && banks[0].starts != [] {
      LastEnd(banks[0], W);
      LastEnd(banks[j], W);
    }
  }

  /** The last sector of a bank at the end of the address space, then the bank at address 0. */
  lemma WrapsAtOnce(banks: seq<Bank>, W: nat, j: nat)
    requires BanksOk(banks, W) && 0 < W && Disjoint(banks) && 0 < j < |banks|
    requires banks[0].known && banks[0].starts != [] && BankEnd(banks[0]) + 1 == W
    requires banks[j].known && banks[j].starts != [] && banks[j].starts[0] == 0
    ensures var a := banks[0].starts[|banks[0].starts| - 1];
            Fill(banks, a, W - 1, W).Some? && Chosen(Fill(banks, a, W - 1, W).value, j, 0)
  {
    var a := banks[0].starts[|banks[0].starts| - 1];
    First(banks, W);
    TopTaken(banks[0], W);
    LastEnd(banks[0], W);
    RestPassable(banks, W);
    hide BankOk, BanksOk, Disjoint, Passable, Choose, SectorEnd, Fill;
    assert Wrap(W, W) == 0;
    assert banks[1..][j - 1] == banks[j];
    ZeroTaken(banks[1..], W, j - 1);
    FillTake(banks, a, W - 1, W);
    ShiftedChoice(Choose(banks[0], a, W - 1), Fill(banks[1..], 0, W - 1, W).value, j);
  }

  lemma ShiftedChoice(c: Choice, rest: seq<Choice>, j: nat)
    requires 0 < j && Chosen(rest, j - 1, 0)
    ensures Chosen([c] + rest, j, 0)
  {
    assert ([c] + rest)[j] == rest[j - 1];
  }

  lemma {:induction false} WrapsOnto(banks: seq<Bank>, W: nat, i: nat, j: nat)
    requires BanksOk(banks, W) && 0 < W && Disjoint(banks) && i < j < |banks|
    requires banks[i].known && banks[i].starts != [] && BankEnd(banks[i]) + 1 == W
    requires banks[j].known && banks[j].starts != [] && banks[j].starts[0] == 0
    ensures var a := banks[i].starts[|banks[i].starts| - 1];
            Fill(banks, a, W - 1, W).Some? && Chosen(Fill(banks, a, W - 1, W).value, j, 0)
    decreases |banks|
  {
    if i == 0 {
      WrapsAtOnce(banks, W, j);
    } else {
      var a := banks[i].starts[|banks[i].starts| - 1];
      First(banks, W);
      if banks[0].known {
        BeforeTop(banks, W, i);
      }
      hide BankOk, BanksOk, Disjoint, Choose, SectorEnd, Fill, Chosen;
      assert banks[1..][i - 1] == banks[i] && banks[1..][j - 1] == banks[j];
      WrapsOnto(banks[1..], W, i - 1, j - 1);
      FillSkip(banks, a, W - 1, W);
      ShiftedChoice(Skip, Fill(banks[1..], a, W - 1, W).value, j);
    }
  }

  lemma TopTaken(b: Bank, W: nat)
    requires BankOk(b, W) && b.known && 0 < W && b.starts != [] && BankEnd(b) + 1 == W
    ensures Choose(b, b.starts[|b.starts| - 1], W - 1) == Take(|b.starts| - 1, |b.starts| - 1)
    ensures b.starts[|b.starts| - 1] <= W - 1
  {
    var n := |b.starts| - 1;
    forall s | 0 <= s < n
      ensures b.starts[s] < b.starts[n] && SectorEnd(b, s) < W - 1
    {
      StartsAscend(b, W, s, n);
      StartsAscend(b, W, n, n);
    }
  }

  /** Only one bank reaches the end. */
  lemma RestPassable(banks: seq<Bank>, W: nat)
    requires banks != [] && BanksOk(banks, W) && Disjoint(banks) && banks[0].known && banks[0].starts != []
    requires BankEnd(banks[0]) + 1 == W
    ensures Passable(banks[1..], W, 0)
  {
    assert BankOk(banks[0], W);
    LastEnd(banks[0], W);
    forall i | 0 <= i < |banks[1..]| && banks[1..][i].known && banks[1..][i].starts != []
      ensures BankEnd(banks[1..][i]) + 1 < W
    {
      assert banks[1..][i] == banks[i + 1] && BankOk(banks[i + 1], W);
      LastEnd(banks[i + 1], W);
    }
  }

  /** A bank in front of the one at the end is passed over. */
  lemma BeforeTop(banks: seq<Bank>, W: nat, i: nat)
    requires BanksOk(banks, W) && 0 < W && Disjoint(banks) && 0 < i < |banks|
    requires banks[0].known && banks[0].starts != [] && banks[i].known
    requires banks[i].starts != [] && BankEnd(banks[i]) + 1 == W
    ensures Choose(banks[0], banks[i].starts[|banks[i].starts| - 1], W - 1) == Skip
    ensures banks[i].starts[|banks[i].starts| - 1] <= W - 1
  {
    assert BankOk(banks[0], W) && BankOk(banks[i], W);
    LastEnd(banks[0], W);
    LastEnd(banks[i], W);
    TakenWhole(banks[0], W, banks[i].starts[|banks[i].starts| - 1]);
  }

  ghost predicate StaysInside(banks: seq<Bank>, W: nat)
    requires BanksOk(banks, W) && 0 < W
  {
    forall a: nat, last: nat :: Fill(banks, a, last, W).Some? ==> InRange(banks, Fill(banks, a, last, W).value, a, last)
  }

  /** For banks that share no address: exactly when no range ever has a sector outside it chosen. */
  lemma NeverOutsideIff(banks: seq<Bank>, W: nat)
    requires BanksOk(banks, W) && 0 < W && Disjoint(banks)
    ensures StaysInside(banks, W) <==> NoWrap(banks, W)
  {
    if NoWrap(banks, W) {
      hide BanksOk, Disjoint, Fill, NoWrap, InRange;
      forall a: nat, last: nat | Fill(banks, a, last, W).Some?
        ensures InRange(banks, Fill(banks, a, last, W).value, a, last)
      {
        NeverOutside(banks, a, last, W, a);
      }
    } else {
      var i, j :| 0 <= i < j < |banks| && banks[i].known && banks[j].known
        && banks[i].starts != [] && banks[j].starts != []
                  && BankEnd(banks[i]) + 1 == W && banks[j].starts[0] == 0;
      WrapsOnto(banks, W, i, j);
      assert BankOk(banks[i], W) && BankOk(banks[j], W);
      LastEnd(banks[i], W);
      LastEnd(banks[j], W);
      hide Fill, SectorEnd;
      var a := banks[i].starts[|banks[i].starts| - 1];
      assert Chosen(Fill(banks, a, W - 1, W).value, j, 0) && banks[j].starts[0] < a;
      assert !InRange(banks, Fill(banks, a, W - 1, W).value, a, W - 1);
    }
  }

  /** One bank at the end of a 32-bit address space, then one at its start. */
  lemma WrapExample()
    ensures var banks := [Bank(true, [0xFFFF0000], 0x10000), Bank(true, [0], 0x10000)];
            && BanksOk(banks, TWO_32) && Disjoint(banks)
            && Fill(banks, 0xFFFF0000, 0xFFFFFFFF, TWO_32).Some?
            && Chosen(Fill(banks, 0xFFFF0000, 0xFFFFFFFF, TWO_32).value, 1, 0)
  {
    var banks := [Bank(true, [0xFFFF0000], 0x10000), Bank(true, [0], 0x10000)];
    assert BankEnd(banks[0]) == 0xFFFFFFFF && BankEnd(banks[1]) == 0xFFFF;
    hide Fill;
    WrapsOnto(banks, TWO_32, 0, 1);
  }
}
