/** Bytes, and the division facts the block and page arithmetic rests on. */
module Words {

  type Byte = b: nat | b < 256 witness 0

  lemma AtLeast(d: int, m: int)
    requires 0 <= m
    ensures 1 <= d ==> m <= d * m
    ensures d <= -1 ==> d * m <= -m
  {
  }

  /** A multiple of `m` closer to 0 than `m` is 0. */
  lemma SmallMultiple(d: int, m: int, r: int)
    requires 0 < m && d * m == r && -m < r < m
    ensures d == 0 && r == 0
  {
    AtLeast(d, m);
  }

  lemma DivUnique(x: nat, m: nat, q: int, r: nat)
    requires 0 < m && r < m && x == q * m + r
    ensures x / m == q && x % m == r
  {
    SmallMultiple(x / m - q, m, r - x % m);
  }

  lemma ModSum(a: nat, b: nat, m: nat)
    requires 0 < m && a % m == 0 && b % m == 0
    ensures (a + b) % m == 0
  {
    SmallMultiple(a / m + b / m - (a + b) / m, m, (a + b) % m);
  }

  /** Adding a multiple does not change the remainder. */
  lemma ModShift(q: nat, m: nat, x: nat)
    requires 0 < m
    ensures q * m + x >= 0 && (q * m + x) % m == x % m
  {
    assert q * m + x == (q + x / m) * m + x % m;
    DivUnique(q * m + x, m, q + x / m, x % m);
  }

  /** Memory with `data` stored from `p` on. */
  function Put(mem: seq<Byte>, p: nat, data: seq<Byte>): (r: seq<Byte>)
    requires p + |data| <= |mem|
    ensures |r| == |mem|
  {
    mem[..p] + data + mem[p + |data|..]
  }

  lemma PutAt(mem: seq<Byte>, p: nat, data: seq<Byte>, x: nat)
    requires p + |data| <= |mem| && x < |mem|
    ensures Put(mem, p, data)[x] == if p <= x < p + |data| then data[x - p] else mem[x]
  {
  }

  lemma PutGet(mem: seq<Byte>, p: nat, data: seq<Byte>)
    requires p + |data| <= |mem|
    ensures Put(mem, p, data)[p..p + |data|] == data
  {
  }

  /** A store that covers an earlier one hides it. */
  lemma PutOver(mem: seq<Byte>, p: nat, x: seq<Byte>, y: seq<Byte>)
    requires |x| <= |y| && p + |y| <= |mem|
    ensures Put(Put(mem, p, x), p, y) == Put(mem, p, y)
  {
  }

  lemma PutBehind(mem: seq<Byte>, p: nat, x: seq<Byte>, y: seq<Byte>)
    requires p + |x| + |y| <= |mem|
    ensures Put(Put(mem, p, x), p + |x|, y) == Put(mem, p, x + y)
  {
  }

  const WORD_LIMIT := 0x1_0000_0000

  /** The four bytes of a 32-bit word, highest first. */
  function WordBytes(a: nat): (r: seq<Byte>)
    requires a < WORD_LIMIT
    ensures |r| == 4
  {
    [a / 16777216, (a / 65536) % 256, (a / 256) % 256, a % 256]
  }

  function WordOf(b: seq<Byte>): (r: nat)
    requires |b| == 4
    ensures r < WORD_LIMIT
  {
    b[0] as nat * 16777216 + b[1] as nat * 65536 + b[2] as nat * 256 + b[3] as nat
  }

  lemma WordBack(a: nat)
    requires a < WORD_LIMIT
    ensures WordOf(WordBytes(a)) == a
  {
    assert a / 256 / 256 == a / 65536 && a / 65536 / 256 == a / 16777216;
  }

  lemma BytesBack(b: seq<Byte>)
    requires |b| == 4
    ensures WordBytes(WordOf(b)) == b
  {
    FromBytes(b[0], b[1], b[2], b[3]);
  }

  lemma FromBytes(x: Byte, y: Byte, z: Byte, w: Byte)
    ensures var a := x as nat * 16777216 + y as nat * 65536 + z as nat * 256 + w as nat;
            a / 16777216 == x as nat && (a / 65536) % 256 == y as nat
              && (a / 256) % 256 == z as nat && a % 256 == w as nat
  {
    var high := x as nat * 256 + y as nat;
    var top := high * 256 + z as nat;
    var a := top * 256 + w as nat;
    DivUnique(a, 256, top, w);
    DivUnique(top, 256, high, z);
    DivUnique(high, 256, x, y);
    DivUnique(a, 65536, high, z as nat * 256 + w as nat);
    DivUnique(a, 16777216, x, y as nat * 65536 + z as nat * 256 + w as nat);
  }

  /** A sequence without its element `k`, as a multiset. */
  lemma Without<T>(s: seq<T>, k: nat)
    requires k < |s|
    ensures multiset(s[..k] + s[k + 1..]) == multiset(s) - multiset{s[k]}
  {
    assert s == s[..k] + [s[k]] + s[k + 1..];
  }

  function Sum(bytes: seq<Byte>): nat {
    if bytes == [] then 0 else bytes[0] as nat + Sum(bytes[1..])
  }

  lemma {:induction false} SumAppend(a: seq<Byte>, b: seq<Byte>)
    ensures Sum(a + b) == Sum(a) + Sum(b)
    decreases |a|
  {
    if a == [] {
      assert a + b == b;
    } else {
      assert (a + b)[1..] == a[1..] + b;
      SumAppend(a[1..], b);
    }
  }
}
