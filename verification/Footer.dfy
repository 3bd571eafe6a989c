/** The checksum of an ARM flash image footer (boot/rpi/cmd/armflash.c): 32-bit words with end-around carry. */
module Footer {
  import Words

  const MAX32 := 0xFFFF_FFFF

  type Word = w: nat | w <= MAX32 witness 0

  /** One round of the loop; both additions are 32-bit. */
  function Add(sum: Word, val: Word): Word {
    var carried := if val as nat > MAX32 - sum as nat then (sum as nat + 1) % (MAX32 + 1) else sum as nat;
    (carried + val as nat) % (MAX32 + 1)
  }

  function Sum(words: seq<Word>): Word {
    if words == [] then 0 else Add(Sum(words[..|words| - 1]), words[|words| - 1])
  }

  /** compute_crc of whole words. */
  function Crc(words: seq<Word>): Word {
    MAX32 - Sum(words) as nat
  }

  function Total(words: seq<Word>): nat {
    if words == [] then 0 else Total(words[..|words| - 1]) + words[|words| - 1] as nat
  }

  /** The number between 1 and 2^32 - 1 that is congruent modulo 2^32 - 1; 0 for 0 only. */
  function Canonical(total: nat): Word {
    if total == 0 then 0 else 1 + (total - 1) % MAX32
  }

  lemma AddIs(sum: Word, val: Word)
    ensures Add(sum, val) as nat == if sum as nat + val as nat <= MAX32 then sum as nat + val as nat
            else sum as nat + val as nat - MAX32
  {
  }

  lemma CanonicalUnique(total: nat, q: nat, c: nat)
    requires total == q * MAX32 + c && 1 <= c <= MAX32
    ensures Canonical(total) == c
  {
    Words.DivUnique(total - 1, MAX32, q, c - 1);
  }

  lemma AddCanonical(total: nat, val: Word)
    ensures Add(Canonical(total), val) == Canonical(total + val as nat)
  {
    var c := Canonical(total) as nat;
    AddIs(Canonical(total), val);
    hide Add;
    if total == 0 {
      if val != 0 {
        CanonicalUnique(val, 0, val);
      }
    } else {
      var q := (total - 1) / MAX32;
      assert total == q * MAX32 + c;
      hide Canonical;
      if c + val as nat <= MAX32 {
        CanonicalUnique(total + val as nat, q, c + val as nat);
      } else {
        CanonicalUnique(total + val as nat, q + 1, c + val as nat - MAX32);
      }
    }
  }

  /**
    The running sum is the sum of the words reduced modulo 2^32 - 1, and 0 only when all words are.
   */
  lemma {:induction false} SumIsCanonical(words: seq<Word>)
    ensures Sum(words) == Canonical(Total(words))
    decreases |words|
  {
    if words != [] {
      SumIsCanonical(words[..|words| - 1]);
      AddCanonical(Total(words[..|words| - 1]), words[|words| - 1]);
    }
  }

  lemma SumCongruent(words: seq<Word>)
    ensures Sum(words) as nat % MAX32 == Total(words) % MAX32
    ensures Sum(words) == 0 <==> Total(words) == 0
  {
    SumIsCanonical(words);
    var t := Total(words);
    hide Sum, Total;
    if t != 0 {
      assert t == (t - 1) / MAX32 * MAX32 + (1 + (t - 1) % MAX32);
    }
  }

  predicate AllZero(words: seq<Word>) {
    forall i :: 0 <= i < |words| ==> words[i] == 0
  }

  lemma {:induction false} TotalZero(words: seq<Word>)
    ensures Total(words) == 0 <==> AllZero(words)
    decreases |words|
  {
    if words != [] {
      TotalZero(words[..|words| - 1]);
      assert words == words[..|words| - 1] + [words[|words| - 1]];
    }
  }

  /** The checksum is all ones for zeros only. */
  lemma CrcOfZeros(words: seq<Word>)
    ensures Crc(words) == MAX32 <==> AllZero(words)
  {
    SumCongruent(words);
    TotalZero(words);
    hide Sum, Total;
  }

  // ---------------------------------------------------------------- order does not matter

  lemma {:induction false} TotalWithout(words: seq<Word>, k: nat)
    requires k < |words|
    ensures Total(words) == Total(words[..k] + words[k + 1..]) + words[k] as nat
    decreases |words|
  {
    var n := |words| - 1;
    if k == n {
      assert words[..k] + words[k + 1..] == words[..n];
    } else {
      TotalWithout(words[..n], k);
      var t := words[..k] + words[k + 1..];
      assert t[..|t| - 1] == words[..n][..k] + words[..n][k + 1..];
    }
  }

  lemma {:induction false} PermutedTotal(a: seq<Word>, b: seq<Word>)
    requires multiset(a) == multiset(b)
    ensures Total(a) == Total(b)
    decreases |a|
  {
    if a == [] {
      assert |multiset(b)| == 0;
    } else {
      var n := |a| - 1;
      assert a[n] in multiset(a);
      var k :| 0 <= k < |b| && b[k] == a[n];
      Words.Without(a, n);
      Words.Without(b, k);
      assert a[..n] + a[n + 1..] == a[..n];
      PermutedTotal(a[..n], b[..k] + b[k + 1..]);
      TotalWithout(b, k);
    }
  }

  /** The checksum does not depend on the order of the words. */
  lemma CrcPermuted(a: seq<Word>, b: seq<Word>)
    requires multiset(a) == multiset(b)
    ensures Crc(a) == Crc(b)
  {
    hide Sum, Total;
    SumIsCanonical(a);
    SumIsCanonical(b);
    PermutedTotal(a, b);
  }

  // ---------------------------------------------------------------- the stored inverse

  lemma CanonicalInverse(total: nat, w: Word)
    ensures Canonical(total + w as nat) == MAX32
            <==> w as nat == MAX32 - Canonical(total) as nat || (Canonical(total) == MAX32 && w == MAX32)
  {
    var c := Canonical(total) as nat;
    AddCanonical(total, w);
    hide Canonical;
  }

  /**
    A block checks out (the checksum is 0) if and only if the word at any position is the checksum
    of the other words; where that is 0, all ones does as well.
   */
  lemma CheckIff(words: seq<Word>, k: nat)
    requires k < |words|
    ensures var others := words[..k] + words[k + 1..];
            Crc(words) == 0 <==> words[k] == Crc(others) || (Crc(others) == 0 && words[k] == MAX32)
  {
    hide Sum, Total, Canonical;
    var others := words[..k] + words[k + 1..];
    SumIsCanonical(words);
    SumIsCanonical(others);
    TotalWithout(words, k);
    CanonicalInverse(Total(others), words[k]);
  }

  // ---------------------------------------------------------------- as it runs

  function WordsAt(memory: nat -> Word, n: nat): seq<Word> {
    seq(n, i requires 0 <= i < n => memory(4 * i))
  }

  lemma SumNext(memory: nat -> Word, n: nat)
    ensures Sum(WordsAt(memory, n + 1)) == Add(Sum(WordsAt(memory, n)), memory(4 * n))
  {
    var words := WordsAt(memory, n + 1);
    assert words[..n] == WordsAt(memory, n) && words[n] == memory(4 * n);
    hide Add;
  }

  lemma SumNone(memory: nat -> Word)
    ensures Sum(WordsAt(memory, 0)) == 0
  {
  }

  /** compute_crc; a length that is not whole words is reported and yields 0. */
  method ComputeCrc(memory: nat -> Word, len: nat) returns (crc: Word)
    ensures crc == if len % 4 != 0 then 0 else Crc(WordsAt(memory, len / 4))
  {
    hide Sum, WordsAt;
    if len % 4 != 0 {
      return 0;
    }
    var sum: Word, i := 0, 0;
    ghost var n := 0;
    SumNone(memory);
    while i < len
      invariant 0 <= n && i == 4 * n <= len && sum == Sum(WordsAt(memory, n))
    {
      SumNext(memory, n);
      var val := memory(i);
      var raised: Word := if val as nat > MAX32 - sum as nat then (sum as nat + 1) % (MAX32 + 1) else sum;
      sum := (raised as nat + val as nat) % (MAX32 + 1);
      i, n := i + 4, n + 1;
    }
    crc := MAX32 - sum as nat;
  }
}
