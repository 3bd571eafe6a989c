/**
  Reading and writing an EEPROM in transactions that stay inside one page (boot/rpi/cmd/eeprom.c,
  devices that are not FRAM). Offsets are 32-bit.
 */
module Eeprom {
  import opened Words
  import opened TextNumbers

  const RXTX_LEN := 128

  function Pow2(n: nat): (r: nat)
    ensures 0 < r
  {
    if n == 0 then 1 else 2 * Pow2(n - 1)
  }

  /** The page size as a power of two, the address bytes sent to the chip, and the I2C address. */
  datatype Config = Config(pageBits: nat, addrLen: nat, dev: Byte)

  predicate ConfigOk(c: Config) {
    c.addrLen == 1 || c.addrLen == 2
  }

  function Page(c: Config): (r: nat)
    ensures 0 < r
  {
    Pow2(c.pageBits)
  }

  /** What one chip address covers. */
  function Span(c: Config): nat {
    if c.addrLen == 1 then 256 else 65536
  }

  // ---------------------------------------------------------------- transactions

  function Min(a: nat, b: nat): nat {
    if a < b then a else b
  }

  /** eeprom_len */
  function Len(page: nat, offset: nat, end: nat): (r: nat)
    requires offset < end && 0 < page
    ensures 0 < r <= RXTX_LEN && offset + r <= end
  {
    Min(end - offset, Min(page - (offset % 256) % page, RXTX_LEN))
  }

  predicate InOnePage(page: nat, offset: nat, len: nat)
    requires 0 < page
  {
    offset % page + len <= page
  }

  lemma {:induction false} Pow2Product(a: nat, b: nat)
    ensures Pow2(a + b) == Pow2(a) * Pow2(b)
    decreases a
  {
    if a != 0 {
      Pow2Product(a - 1, b);
      assert 2 * (Pow2(a - 1) * Pow2(b)) == (2 * Pow2(a - 1)) * Pow2(b);
    }
  }

  lemma Pow2Of8()
    ensures Pow2(8) == 256
  {
    assert Pow2(4) == 16;
    Pow2Product(4, 4);
  }

  lemma ModOfMod(p: nat, k: nat, m: nat, q: nat, r: nat)
    requires 0 < p && k * p == m
    ensures (q * m + r) % p == r % p
  {
    assert q * m == (q * k) * p;
    ModShift(q * k, p, r);
  }

  /** A page of at most 256 bytes divides a block of 256. */
  lemma BlockOffset(bits: nat, x: nat)
    requires bits <= 8
    ensures (x % 256) % Pow2(bits) == x % Pow2(bits)
  {
    Pow2Of8();
    Pow2Product(8 - bits, bits);
    hide Pow2;
    ModOfMod(Pow2(bits), Pow2(8 - bits), 256, x / 256, x % 256);
  }

  lemma LenInPage(bits: nat, offset: nat, end: nat)
    requires bits <= 8 && offset < end
    ensures InOnePage(Pow2(bits), offset, Len(Pow2(bits), offset, end))
  {
    BlockOffset(bits, offset);
  }

  lemma {:induction false} PageAbove(bits: nat)
    requires 8 < bits
    ensures exists k: nat :: 2 <= k && Pow2(bits) == k * 256
    decreases bits
  {
    Pow2Of8();
    Pow2Product(bits - 8, 8);
    var k := Pow2(bits - 8);
    assert bits - 8 >= 1;
    assert k == 2 * Pow2(bits - 9);
  }

  /** For all 32-bit offsets. */
  ghost predicate AlwaysInOnePage(page: nat)
    requires 0 < page
  {
    forall offset: nat, end: nat :: offset < end < TWO_32 ==> InOnePage(page, offset, Len(page, offset, end))
  }

  /** Two bytes at the end of a page larger than 256 bytes go out in one transaction. */
  lemma LargePageCrosses(bits: nat)
    requires 8 < bits && Pow2(bits) < TWO_32
    ensures var p := Pow2(bits); p + 1 < TWO_32 && !InOnePage(p, p - 1, Len(p, p - 1, p + 1))
  {
    PageAbove(bits);
    var p := Pow2(bits);
    var k: nat :| 2 <= k && p == k * 256;
    hide Pow2;
    assert p - 1 == (k - 1) * 256 + 255;
    DivUnique(p - 1, 256, k - 1, 255);
    DivUnique(p - 1, p, 0, p - 1);
    assert 255 % p == 255 by { DivUnique(255, p, 0, 255); }
  }

  /** Every transaction stays inside one page if and only if pages have at most 256 bytes. */
  lemma InOnePageIff(bits: nat)
    requires Pow2(bits) < TWO_32
    ensures AlwaysInOnePage(Pow2(bits)) <==> bits <= 8
  {
    hide Pow2, InOnePage, Len;
    if bits <= 8 {
      forall offset: nat, end: nat | offset < end < TWO_32
        ensures InOnePage(Pow2(bits), offset, Len(Pow2(bits), offset, end))
      {
        LenInPage(bits, offset, end);
      }
    } else {
      LargePageCrosses(bits);
    }
  }

  // ---------------------------------------------------------------- which cell an offset names

  /** Bitwise or. */
  function BitOr(a: nat, b: nat): nat
    decreases a + b
  {
    if a == 0 && b == 0 then 0
    else 2 * BitOr(a / 2, b / 2) + (if a % 2 == 1 || b % 2 == 1 then 1 else 0)
  }

  lemma {:induction false} BitOrBelow(a: nat, b: nat, k: nat)
    requires a < Pow2(k) && b < Pow2(k)
    ensures BitOr(a, b) < Pow2(k)
    decreases k
  {
    if k != 0 {
      BitOrBelow(a / 2, b / 2, k - 1);
    }
  }

  /** Bits that do not meet add up. */
  lemma {:induction false} BitOrAdds(a: nat, b: nat, k: nat)
    requires a < Pow2(k) && b % Pow2(k) == 0
    ensures BitOr(a, b) == a + b
    decreases k, b
  {
    if k == 0 {
      if b != 0 {
        BitOrAdds(0, b / 2, 0);
      }
    } else {
      HalfMultiple(b, k);
      BitOrAdds(a / 2, b / 2, k - 1);
    }
  }

  lemma HalfMultiple(b: nat, k: nat)
    requires 0 < k && b % Pow2(k) == 0
    ensures b % 2 == 0 && (b / 2) % Pow2(k - 1) == 0
  {
    var p := Pow2(k - 1);
    var q := b / (2 * p);
    assert Pow2(k) == 2 * p;
    hide Pow2;
    assert b == (2 * p) * q;
    assert b == 2 * (q * p);
    DivUnique(b / 2, p, q, 0);
  }

  /** addr[0] of eeprom_addr: the block number put into the I2C address. */
  function Chip(c: Config, offset: nat): (r: Byte)
  {
    assert BitOr((offset / Span(c)) % 256, c.dev) < 256 by {
      Pow2Of8();
      BitOrBelow((offset / Span(c)) % 256, c.dev, 8);
    }
    BitOr((offset / Span(c)) % 256, c.dev)
  }

  /** The cell the chip and the low address bytes select, counted over all chips. */
  function Cell(c: Config, offset: nat): nat {
    Chip(c, offset) * Span(c) + offset % Span(c)
  }

  /** The first cell of the chip that is addressed. */
  function Base(c: Config): nat {
    c.dev * Span(c)
  }

  /** An I2C address whose lowest `k` bits are free for block numbers makes the offsets up to there one flat memory. */
  predicate Selects(c: Config, k: nat, end: nat) {
    k <= 8 && c.dev as nat % Pow2(k) == 0 && end <= Pow2(k) * Span(c)
  }

  lemma BlockBelow(p: nat, s: nat, offset: nat)
    requires 0 < s && offset < p * s
    ensures offset / s < p
  {
    AtLeast(offset / s - p, s);
  }

  lemma ChipAdds(c: Config, k: nat, b: nat)
    requires k <= 8 && c.dev as nat % Pow2(k) == 0 && b < Pow2(k)
    ensures BitOr(b % 256, c.dev) == b + c.dev as nat
  {
    Pow2Of8();
    Pow2Product(k, 8 - k);
    AtLeast(Pow2(8 - k), Pow2(k));
    BitOrAdds(b, c.dev, k);
    hide Pow2, BitOr;
    DivUnique(b, 256, 0, b);
  }

  lemma CellIsFlat(c: Config, k: nat, end: nat, offset: nat)
    requires ConfigOk(c) && Selects(c, k, end) && offset < end
    ensures Cell(c, offset) == Base(c) + offset
  {
    var s := Span(c);
    BlockBelow(Pow2(k), s, offset);
    hide Pow2, BitOr;
    ChipAdds(c, k, offset / s);
    BlockSum(offset, s, c.dev);
  }

  lemma BlockSum(offset: nat, s: nat, dev: nat)
    requires 0 < s
    ensures (offset / s + dev) * s + offset % s == dev * s + offset
  {
  }

  // ---------------------------------------------------------------- the chip

  /** The chip's address counter: it wraps within a page. */
  function NextCell(page: nat, p: nat): nat
    requires 0 < page
  {
    if p % page == page - 1 then p + 1 - page else p + 1
  }

  function DeviceWrite(mem: seq<Byte>, page: nat, p: nat, data: seq<Byte>): (r: seq<Byte>)
    requires 0 < page
    ensures |r| == |mem|
    decreases |data|
  {
    if data == [] then mem
    else DeviceWrite(if p < |mem| then mem[p := data[0]] else mem, page, NextCell(page, p), data[1..])
  }

  /** Cells that do not exist read as 0xFF. */
  function DeviceRead(mem: seq<Byte>, page: nat, p: nat, n: nat): (r: seq<Byte>)
    requires 0 < page
    ensures |r| == n
    decreases n
  {
    if n == 0 then []
    else [if p < |mem| then mem[p] else 0xFF] + DeviceRead(mem, page, NextCell(page, p), n - 1)
  }

  lemma NextInPage(page: nat, p: nat, len: nat)
    requires 0 < page && InOnePage(page, p, len) && 1 < len
    ensures NextCell(page, p) == p + 1 && InOnePage(page, p + 1, len - 1)
  {
    var q, r := p / page, p % page;
    assert p + 1 == q * page + (r + 1);
    DivUnique(p + 1, page, q, r + 1);
  }

  lemma PutStep(mem: seq<Byte>, p: nat, data: seq<Byte>)
    requires data != [] && p + |data| <= |mem|
    ensures Put(mem, p, data) == Put(mem[p := data[0]], p + 1, data[1..])
  {
  }

  /** Inside one page the counter does not show: a write is a flat write. */
  lemma {:induction false} WriteInPage(mem: seq<Byte>, page: nat, p: nat, data: seq<Byte>)
    requires 0 < page && InOnePage(page, p, |data|) && p + |data| <= |mem|
    ensures DeviceWrite(mem, page, p, data) == Put(mem, p, data)
    decreases |data|
  {
    if |data| == 1 {
      PutStep(mem, p, data);
      assert Put(mem[p := data[0]], p + 1, data[1..]) == mem[p := data[0]];
    } else if 1 < |data| {
      NextInPage(page, p, |data|);
      PutStep(mem, p, data);
      hide Put;
      WriteInPage(mem[p := data[0]], page, p + 1, data[1..]);
    }
  }

  lemma {:induction false} ReadInPage(mem: seq<Byte>, page: nat, p: nat, n: nat)
    requires 0 < page && InOnePage(page, p, n) && p + n <= |mem|
    ensures DeviceRead(mem, page, p, n) == mem[p..p + n]
    decreases n
  {
    if 1 < n {
      NextInPage(page, p, n);
      ReadInPage(mem, page, p + 1, n - 1);
    }
    if 0 < n {
      assert mem[p..p + n] == [mem[p]] + mem[p + 1..p + n];
    }
  }

  // ---------------------------------------------------------------- eeprom_rw

  /** The write loop; `ok` says which transactions the bus carries out, a failed one changes nothing. */
  function WriteRun(c: Config, mem: seq<Byte>, offset: nat, data: seq<Byte>, ok: nat -> bool, k: nat,
                    code: int): (r: (seq<Byte>, int))
    ensures |r.0| == |mem|
    decreases |data|
  {
    if data == [] then (mem, code)
    else
      var len := Len(Page(c), offset, offset + |data|);
      WriteRun(c, if ok(k) then DeviceWrite(mem, Page(c), Cell(c, offset), data[..len]) else mem,
               offset + len, data[len..], ok, k + 1, if ok(k) then 0 else 1)
  }

  /** The read loop over what is left of the buffer. */
  function ReadRun(c: Config, mem: seq<Byte>, offset: nat, buf: seq<Byte>, ok: nat -> bool, k: nat,
                   code: int): (r: (seq<Byte>, int))
    ensures |r.0| == |buf|
    decreases |buf|
  {
    if buf == [] then ([], code)
    else
      var len := Len(Page(c), offset, offset + |buf|);
      var rest := ReadRun(c, mem, offset + len, buf[len..], ok, k + 1, if ok(k) then 0 else 1);
      ((if ok(k) then DeviceRead(mem, Page(c), Cell(c, offset), len) else buf[..len]) + rest.0, rest.1)
  }

  /** Everything from `from` on works. */
  ghost predicate AllWork(ok: nat -> bool, from: nat) {
    forall i: nat :: from <= i ==> ok(i)
  }

  /** Pages divide the blocks, and the offsets up to `end` name cells that exist, one after another. */
  predicate Flat(c: Config, mem: seq<Byte>, k: nat, end: nat) {
    ConfigOk(c) && c.pageBits <= 8 && Selects(c, k, end) && Base(c) + end <= |mem|
  }

  lemma BaseIsBlocks(c: Config)
    requires ConfigOk(c)
    ensures Base(c) == Base(c) / 256 * 256
  {
    if c.addrLen == 2 {
      assert Base(c) == (c.dev * 256) * 256;
    }
  }

  lemma CellInPage(c: Config, mem: seq<Byte>, k: nat, offset: nat, end: nat)
    requires Flat(c, mem, k, end) && offset < end
    ensures var len := Len(Page(c), offset, end);
            InOnePage(Page(c), Base(c) + offset, len) && Cell(c, offset) == Base(c) + offset
  {
    CellIsFlat(c, k, end, offset);
    LenInPage(c.pageBits, offset, end);
    Pow2Of8();
    Pow2Product(8 - c.pageBits, c.pageBits);
    hide Pow2, Len, Cell;
    BaseIsBlocks(c);
    hide Base;
    ModOfMod(Page(c), Pow2(8 - c.pageBits), 256, Base(c) / 256, offset);
  }

  /** The number of the transaction that carries byte `i` of `n` bytes from `offset`. */
  function TransactionOf(c: Config, offset: nat, n: nat, i: nat): nat
    requires i < n
    decreases n
  {
    var len := Len(Page(c), offset, offset + n);
    if i < len then 0 else 1 + TransactionOf(c, offset + len, n - len, i - len)
  }

  function Transactions(c: Config, offset: nat, n: nat): nat
    decreases n
  {
    if n == 0 then 0
    else var len := Len(Page(c), offset, offset + n); 1 + Transactions(c, offset + len, n - len)
  }

  lemma WriteStep(c: Config, mem: seq<Byte>, sel: nat, offset: nat, data: seq<Byte>, ok: nat -> bool, k: nat, code: int)
    requires data != [] && Flat(c, mem, sel, offset + |data|)
    ensures var len := Len(Page(c), offset, offset + |data|);
            var base := Base(c);
            WriteRun(c, mem, offset, data, ok, k, code)
            == WriteRun(c, if ok(k) then Put(mem, base + offset, data[..len]) else mem,
                        offset + len, data[len..], ok, k + 1, if ok(k) then 0 else 1)
  {
    hide Put, InOnePage, Len, Flat, Cell, DeviceWrite, Base, Pow2;
    var len := Len(Page(c), offset, offset + |data|);
    CellInPage(c, mem, sel, offset, offset + |data|);
    if ok(k) {
      assert Base(c) + offset + len <= |mem| by { FlatRoom(c, mem, sel, offset + |data|); }
      WriteInPage(mem, Page(c), Base(c) + offset, data[..len]);
    }
  }

  lemma FlatRoom(c: Config, mem: seq<Byte>, sel: nat, end: nat)
    requires Flat(c, mem, sel, end)
    ensures Base(c) + end <= |mem|
  {
  }

  lemma FlatShorter(c: Config, mem: seq<Byte>, sel: nat, end: nat, mem1: seq<Byte>)
    requires Flat(c, mem, sel, end) && |mem1| == |mem|
    ensures Flat(c, mem1, sel, end)
  {
  }

  /** The value of a cell after a write, whatever transactions fail. */
  ghost predicate CellAfter(c: Config, mem: seq<Byte>, offset: nat, data: seq<Byte>, ok: nat -> bool, k: nat,
                            after: seq<Byte>, x: nat)
    requires x < |mem| == |after|
  {
    var first := Base(c) + offset;
    after[x] == if first <= x < first + |data| && ok(k + TransactionOf(c, offset, |data|, x - first))
      then data[x - first] else mem[x]
  }

  lemma CellAfterStep(c: Config, mem: seq<Byte>, offset: nat, data: seq<Byte>, ok: nat -> bool, k: nat,
                      after: seq<Byte>, x: nat, mem1: seq<Byte>)
    requires x < |mem| == |after| == |mem1| && data != [] && Base(c) + offset + |data| <= |mem|
    requires var len := Len(Page(c), offset, offset + |data|);
             && mem1 == (if ok(k) then Put(mem, Base(c) + offset, data[..len]) else mem)
             && CellAfter(c, mem1, offset + len, data[len..], ok, k + 1, after, x)
    ensures CellAfter(c, mem, offset, data, ok, k, after, x)
  {
    hide Put, Len, Base, Pow2;
    var len := Len(Page(c), offset, offset + |data|);
    PutAt(mem, Base(c) + offset, data[..len], x);
  }

  /**
    What a write leaves in every cell, whatever transactions fail: the cells whose transaction was
    carried out hold the data, all others are as they were.
   */
  lemma {:induction false} WriteEffect(c: Config, mem: seq<Byte>, sel: nat, offset: nat, data: seq<Byte>,
                                       ok: nat -> bool, k: nat, code: int, x: nat)
    requires Flat(c, mem, sel, offset + |data|) && x < |mem|
    ensures CellAfter(c, mem, offset, data, ok, k, WriteRun(c, mem, offset, data, ok, k, code).0, x)
    decreases |data|
  {
    hide Put, Len, Flat, WriteRun, Base, Pow2, CellAfter;
    if data == [] {
      WriteNone(c, mem, offset, ok, k, code);
      CellAfterNone(c, mem, offset, ok, k, x);
    } else {
      var len := Len(Page(c), offset, offset + |data|);
      FlatRoom(c, mem, sel, offset + |data|);
      WriteStep(c, mem, sel, offset, data, ok, k, code);
      var mem1 := if ok(k) then Put(mem, Base(c) + offset, data[..len]) else mem;
      FlatShorter(c, mem, sel, offset + |data|, mem1);
      WriteEffect(c, mem1, sel, offset + len, data[len..], ok, k + 1, if ok(k) then 0 else 1, x);
      CellAfterStep(c, mem, offset, data, ok, k, WriteRun(c, mem, offset, data, ok, k, code).0, x, mem1);
    }
  }

  lemma CellAfterNone(c: Config, mem: seq<Byte>, offset: nat, ok: nat -> bool, k: nat, x: nat)
    requires x < |mem|
    ensures CellAfter(c, mem, offset, [], ok, k, mem, x)
  {
  }

  lemma ReadOnce(c: Config, mem: seq<Byte>, offset: nat, buf: seq<Byte>, ok: nat -> bool, k: nat, code: int)
    requires buf != []
    ensures var len := Len(Page(c), offset, offset + |buf|);
            var rest := ReadRun(c, mem, offset + len, buf[len..], ok, k + 1, if ok(k) then 0 else 1);
            ReadRun(c, mem, offset, buf, ok, k, code)
            == ((if ok(k) then DeviceRead(mem, Page(c), Cell(c, offset), len) else buf[..len]) + rest.0, rest.1)
  {
  }

  /** What a read leaves in every byte of the buffer. */
  lemma {:induction false} ReadEffect(c: Config, mem: seq<Byte>, sel: nat, offset: nat, buf: seq<Byte>,
                                      ok: nat -> bool, k: nat, code: int, i: nat)
    requires Flat(c, mem, sel, offset + |buf|) && i < |buf| && Base(c) + offset + |buf| <= |mem|
    ensures ReadRun(c, mem, offset, buf, ok, k, code).0[i]
            == if ok(k + TransactionOf(c, offset, |buf|, i)) then mem[Base(c) + offset + i] else buf[i]
    decreases |buf|
  {
    hide InOnePage, Len, Flat, Cell, DeviceRead, ReadRun, Base, Pow2;
    var first := Base(c) + offset;
    var len := Len(Page(c), offset, offset + |buf|);
    CellInPage(c, mem, sel, offset, offset + |buf|);
    ReadInPage(mem, Page(c), first, len);
    ReadOnce(c, mem, offset, buf, ok, k, code);
    if len <= i {
      ReadEffect(c, mem, sel, offset + len, buf[len..], ok, k + 1, if ok(k) then 0 else 1, i - len);
    }
  }

  /** The code returned is that of the last transaction: an earlier failure does not show. */
  lemma {:induction false} LastDecides(c: Config, mem: seq<Byte>, offset: nat, data: seq<Byte>, ok: nat -> bool,
                                       k: nat, code: int)
    ensures WriteRun(c, mem, offset, data, ok, k, code).1
            == if data == [] then code else if ok(k + Transactions(c, offset, |data|) - 1) then 0 else 1
    decreases |data|
  {
    if data != [] {
      var len := Len(Page(c), offset, offset + |data|);
      var mem1 := if ok(k) then DeviceWrite(mem, Page(c), Cell(c, offset), data[..len]) else mem;
      hide Len, DeviceWrite, Cell;
      LastDecides(c, mem1, offset + len, data[len..], ok, k + 1, if ok(k) then 0 else 1);
    }
  }

  /** The same for reading. */
  lemma {:induction false} LastDecidesRead(c: Config, mem: seq<Byte>, offset: nat, buf: seq<Byte>, ok: nat -> bool,
                                           k: nat, code: int)
    ensures ReadRun(c, mem, offset, buf, ok, k, code).1
            == if buf == [] then code else if ok(k + Transactions(c, offset, |buf|) - 1) then 0 else 1
    decreases |buf|
  {
    hide Len, DeviceRead, Cell, ReadRun;
    if buf == [] {
      ReadNone(c, mem, offset, ok, k, code);
    } else {
      var len := Len(Page(c), offset, offset + |buf|);
      ReadOnce(c, mem, offset, buf, ok, k, code);
      LastDecidesRead(c, mem, offset + len, buf[len..], ok, k + 1, if ok(k) then 0 else 1);
    }
  }

  /** With a bus that works, writing is one flat write. */
  lemma FlatWrite(c: Config, mem: seq<Byte>, sel: nat, offset: nat, data: seq<Byte>, ok: nat -> bool, k: nat)
    requires Flat(c, mem, sel, offset + |data|) && AllWork(ok, k) && Base(c) + offset + |data| <= |mem|
    ensures WriteRun(c, mem, offset, data, ok, k, 0) == (Put(mem, Base(c) + offset, data), 0)
  {
    hide WriteRun, Flat, TransactionOf, Transactions, Base, Put, Len;
    var first := Base(c) + offset;
    var run := WriteRun(c, mem, offset, data, ok, k, 0);
    LastDecides(c, mem, offset, data, ok, k, 0);
    SomeTransactions(c, offset, |data|);
    forall x | 0 <= x < |mem|
      ensures run.0[x] == Put(mem, first, data)[x]
    {
      WriteEffect(c, mem, sel, offset, data, ok, k, 0, x);
      PutAt(mem, first, data, x);
    }
    assert run.0 == Put(mem, first, data);
  }

  lemma SomeTransactions(c: Config, offset: nat, n: nat)
    ensures 0 < n ==> 0 < Transactions(c, offset, n)
  {
  }

  lemma FlatRead(c: Config, mem: seq<Byte>, sel: nat, offset: nat, buf: seq<Byte>, ok: nat -> bool, k: nat)
    requires Flat(c, mem, sel, offset + |buf|) && AllWork(ok, k) && Base(c) + offset + |buf| <= |mem|
    ensures ReadRun(c, mem, offset, buf, ok, k, 0).0 == mem[Base(c) + offset..Base(c) + offset + |buf|]
  {
    hide ReadRun, Flat, TransactionOf, Base;
    var run := ReadRun(c, mem, offset, buf, ok, k, 0);
    forall i | 0 <= i < |buf|
      ensures run.0[i] == mem[Base(c) + offset + i]
    {
      ReadEffect(c, mem, sel, offset, buf, ok, k, 0, i);
    }
  }

  /** What is written is read back. */
  lemma ReadsBack(c: Config, mem: seq<Byte>, sel: nat, offset: nat, data: seq<Byte>, buf: seq<Byte>, ok: nat -> bool,
                  j: nat, k: nat)
    requires Flat(c, mem, sel, offset + |data|) && |buf| == |data| && AllWork(ok, j) && j <= k
    ensures ReadRun(c, WriteRun(c, mem, offset, data, ok, j, 0).0, offset, buf, ok, k, 0).0 == data
  {
    hide WriteRun, ReadRun, Flat, Base, Put;
    var mem1 := WriteRun(c, mem, offset, data, ok, j, 0).0;
    FlatRoom(c, mem, sel, offset + |data|);
    FlatWrite(c, mem, sel, offset, data, ok, j);
    FlatShorter(c, mem, sel, offset + |data|, mem1);
    FlatRead(c, mem1, sel, offset, buf, ok, k);
    PutGet(mem, Base(c) + offset, data);
  }

  // ---------------------------------------------------------------- the calls

  class Bus {
    const config: Config
    /** Which transactions are carried out. */
    const ok: nat -> bool
    var mem: seq<Byte>
    var count: nat

    constructor (config: Config, ok: nat -> bool, mem: seq<Byte>)
      ensures this.config == config && this.ok == ok && this.mem == mem && count == 0
    {
      this.config, this.ok, this.mem, count := config, ok, mem, 0;
    }

    /** eeprom_addr */
    method Address(offset: nat, addr: array<Byte>) returns (alen: nat)
      requires ConfigOk(config) && addr.Length == 3
      modifies addr
      ensures alen == config.addrLen + 1
      ensures addr[0] == Chip(config, offset)
      ensures alen == 2 ==> addr[1] as nat == offset % Span(config)
      ensures alen == 3 ==> addr[1] as nat * 256 + addr[2] as nat == offset % Span(config)
    {
      if config.addrLen == 1 {
        addr[0], addr[1] := (offset / 256) % 256, offset % 256;
        alen := 2;
      } else {
        addr[0], addr[1] := (offset / 65536) % 256, (offset / 256) % 256;
        addr[2] := offset % 256;
        alen := 3;
        LowBytes(offset);
      }
      Pow2Of8();
      BitOrBelow(addr[0], config.dev, 8);
      addr[0] := BitOr(addr[0], config.dev);
    }

    /** eeprom_write: the sum of offset and count is 32-bit, so a count that leaves the range writes nothing. */
    method Write(offset: nat, data: seq<Byte>) returns (code: int)
      requires ConfigOk(config) && offset < TWO_32 && |data| < TWO_32
      modifies this`mem, this`count
      ensures offset + |data| < TWO_32 ==>
                (mem, code) == WriteRun(config, old(mem), offset, data, ok, old(count), 0)
                && count == old(count) + Transactions(config, offset, |data|)
      ensures TWO_32 <= offset + |data| ==> mem == old(mem) && code == 0 && count == old(count)
    {
      hide DeviceWrite, Chip, Len, WriteRun, Transactions;
      var end := Wrap(offset + |data|, TWO_32);
      var at, left := offset, data;
      code := 0;
      var addr := new Byte[3];
      WrapOnce(offset + |data|);
      while at < end
        invariant offset + |data| < TWO_32 ==>
                    && at + |left| == end
                    && WriteRun(config, old(mem), offset, data, ok, old(count), 0)
                       == WriteRun(config, mem, at, left, ok, count, code)
                    && count + Transactions(config, at, |left|) == old(count) + Transactions(config, offset, |data|)
        invariant TWO_32 <= offset + |data| ==> at == offset && mem == old(mem) && code == 0 && count == old(count)
        decreases end - at
      {
        var alen := Address(at, addr);
        var len := Len(Page(config), at, end);
        WriteOnce(config, mem, at, left, ok, count, code);
        if ok(count) {
          mem := DeviceWrite(mem, Page(config), addr[0] as nat * Span(config) + at % Span(config), left[..len]);
          code := 0;
        } else {
          code := 1;
        }
        count := count + 1;
        left := left[len..];
        at := at + len;
      }
      WriteNone(config, mem, at, ok, count, code);
    }

    /** One read transaction into the buffer from `pos` on. */
    method ReadBlock(at: nat, end: nat, buffer: array<Byte>, pos: nat) returns (code: int, len: nat)
      requires ConfigOk(config) && at < end && pos + (end - at) <= buffer.Length
      modifies this`count, buffer
      ensures len == Len(Page(config), at, end) && count == old(count) + 1
      ensures code == if ok(old(count)) then 0 else 1
      ensures buffer[..pos + len]
              == old(buffer[..pos]) + if ok(old(count)) then DeviceRead(mem, Page(config), Cell(config, at), len)
                else old(buffer[pos..])[..len]
      ensures buffer[pos + len..] == old(buffer[pos..])[len..]
    {
      hide DeviceRead, Chip, Len, Pow2;
      var addr := new Byte[3];
      var alen := Address(at, addr);
      len := Len(Page(config), at, end);
      if ok(count) {
        var bytes := DeviceRead(mem, Page(config), addr[0] as nat * Span(config) + at % Span(config), len);
        Store(buffer, pos, bytes);
        code := 0;
      } else {
        Kept(buffer, pos, len);
        code := 1;
      }
      count := count + 1;
    }

    /** eeprom_read into the start of a buffer. */
    method Read(offset: nat, buffer: array<Byte>) returns (code: int)
      requires ConfigOk(config) && offset < TWO_32 && buffer.Length < TWO_32
      modifies this`count, buffer
      ensures offset + buffer.Length < TWO_32 ==>
                (buffer[..], code) == ReadRun(config, mem, offset, old(buffer[..]), ok, old(count), 0)
      ensures TWO_32 <= offset + buffer.Length ==> buffer[..] == old(buffer[..]) && code == 0
    {
      hide DeviceRead, Cell, Len, ReadRun, Pow2, Wrap;
      var end := Wrap(offset + buffer.Length, TWO_32);
      var at, pos := offset, 0;
      code := 0;
      WrapOnce(offset + buffer.Length);
      Whole(buffer);
      ghost var wanted := ReadRun(config, mem, offset, buffer[..], ok, count, 0);
      Joined([], wanted.0);
      while at < end
        invariant 0 <= at && 0 <= pos <= buffer.Length
        invariant offset + buffer.Length < TWO_32 ==> at == offset + pos
        invariant offset + buffer.Length < TWO_32 ==> Reads(mem, at, buffer[..pos], buffer[pos..], count, code, wanted)
        invariant TWO_32 <= offset + buffer.Length ==> at == offset && buffer[..] == old(buffer[..]) && code == 0
        decreases if at <= end then end - at else 0
      {
        ghost var done, before, k, was := buffer[..pos], buffer[pos..], count, code;
        var len;
        code, len := ReadBlock(at, end, buffer, pos);
        ReadsOn(mem, at, done, before, k, was, wanted);
        pos, at := pos + len, at + len;
      }
      if offset + buffer.Length < TWO_32 {
        Whole(buffer);
        ReadNone(config, mem, at, ok, count, code);
        Joined(buffer[..], []);
      }
    }

    /** With `done` in the buffer, reading `left` more gives the wanted result. */
    ghost predicate Reads(mem: seq<Byte>, at: nat, done: seq<Byte>, left: seq<Byte>, k: nat, code: int,
                          wanted: (seq<Byte>, int)) {
      var rest := ReadRun(config, mem, at, left, ok, k, code);
      wanted == (done + rest.0, rest.1)
    }

    lemma ReadsOn(mem: seq<Byte>, at: nat, done: seq<Byte>, left: seq<Byte>, k: nat, code: int,
                  wanted: (seq<Byte>, int))
      requires left != [] && Reads(mem, at, done, left, k, code, wanted)
      ensures var len := Len(Page(config), at, at + |left|);
              Reads(mem, at + len,
                    done + if ok(k) then DeviceRead(mem, Page(config), Cell(config, at), len) else left[..len],
                    left[len..], k + 1, if ok(k) then 0 else 1, wanted)
    {
      hide DeviceRead, Cell, Len, ReadRun, Pow2;
      ReadOnce(config, mem, at, left, ok, k, code);
      var len := Len(Page(config), at, at + |left|);
      Regroup(done, if ok(k) then DeviceRead(mem, Page(config), Cell(config, at), len) else left[..len],
              ReadRun(config, mem, at + len, left[len..], ok, k + 1, if ok(k) then 0 else 1).0);
    }

    /** The chip's bytes arrive in the buffer. */
    method Store(buffer: array<Byte>, pos: nat, bytes: seq<Byte>)
      requires pos + |bytes| <= buffer.Length
      modifies buffer
      ensures buffer[..pos + |bytes|] == old(buffer[..pos]) + bytes
      ensures buffer[pos + |bytes|..] == old(buffer[pos + |bytes|..])
    {
      var i := 0;
      while i < |bytes|
        invariant i <= |bytes|
        invariant buffer[..pos] == old(buffer[..pos]) && buffer[pos + |bytes|..] == old(buffer[pos + |bytes|..])
        invariant forall j :: 0 <= j < i ==> buffer[pos + j] == bytes[j]
      {
        buffer[pos + i] := bytes[i];
        i := i + 1;
      }
      assert buffer[..pos + |bytes|] == buffer[..pos] + buffer[pos..pos + |bytes|];
      assert buffer[pos..pos + |bytes|] == bytes;
    }
  }

  lemma Whole(buffer: array<Byte>)
    ensures buffer[..0] == [] && buffer[0..] == buffer[..] == buffer[..buffer.Length] && buffer[buffer.Length..] == []
  {
  }

  lemma Kept(buffer: array<Byte>, pos: nat, len: nat)
    requires pos + len <= buffer.Length
    ensures buffer[..pos + len] == buffer[..pos] + buffer[pos..][..len]
  {
  }

  lemma Joined(a: seq<Byte>, b: seq<Byte>)
    ensures [] + b == b && a + [] == a
  {
  }

  lemma Regroup(a: seq<Byte>, b: seq<Byte>, d: seq<Byte>)
    ensures a + (b + d) == (a + b) + d
  {
  }

  lemma ReadNone(c: Config, mem: seq<Byte>, offset: nat, ok: nat -> bool, k: nat, code: int)
    ensures ReadRun(c, mem, offset, [], ok, k, code) == ([], code)
  {
  }

  lemma LowBytes(offset: nat)
    ensures (offset / 256) % 256 * 256 + offset % 256 == offset % 65536
  {
  }

  lemma WrapOnce(x: nat)
    requires x < 2 * TWO_32
    ensures Wrap(x, TWO_32) == if x < TWO_32 then x else x - TWO_32
  {
  }

  lemma WriteNone(c: Config, mem: seq<Byte>, offset: nat, ok: nat -> bool, k: nat, code: int)
    ensures WriteRun(c, mem, offset, [], ok, k, code) == (mem, code)
    ensures Transactions(c, offset, 0) == 0
  {
  }

  lemma WriteOnce(c: Config, mem: seq<Byte>, offset: nat, data: seq<Byte>, ok: nat -> bool, k: nat, code: int)
    requires data != []
    ensures var len := Len(Page(c), offset, offset + |data|);
            && WriteRun(c, mem, offset, data, ok, k, code)
               == WriteRun(c, if ok(k) then DeviceWrite(mem, Page(c), Cell(c, offset), data[..len]) else mem,
                           offset + len, data[len..], ok, k + 1, if ok(k) then 0 else 1)
            && Transactions(c, offset, |data|) == 1 + Transactions(c, offset + len, |data| - len)
  {
  }
}
