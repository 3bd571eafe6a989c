/**
  Writing OneNAND flash in pieces (boot/rpi/cmd/onenand.c): blocks that are bad or fail are
  skipped, and how many bytes were skipped is remembered, so that a write that goes on where the
  last one ended logically also goes on where it ended physically.
 */
module OneNand {

  import opened Words

  /**
    The chip as its driver shows it.  `bad`, `writeFails` and `readFails` answer for the block at an
    offset; behind the end of the chip every access fails.
   */
  datatype Chip = Chip(size: nat, blockSize: nat, writeSize: nat,
                       bad: nat -> bool, writeFails: nat -> bool, readFails: nat -> bool)
  {
    predicate Valid() {
      0 < blockSize && 0 < writeSize && blockSize % writeSize == 0
    }

    predicate SkippedByWrite(ofs: nat) {
      size < ofs + blockSize || bad(ofs) || writeFails(ofs)
    }

    predicate SkippedByRead(ofs: nat) {
      size < ofs + blockSize || bad(ofs) || readFails(ofs)
    }

    /** The blocks from `ofs` on can take `len` bytes: otherwise the source would search forever. */
    predicate Room(ofs: nat, len: nat)
      requires 0 < blockSize
      decreases if ofs <= size then size - ofs else 0
    {
      len < blockSize ||
      (ofs + blockSize <= size
       && Room(ofs + blockSize, if SkippedByWrite(ofs) then len else len - blockSize))
    }

    /** As many bytes can be read from `ofs` on. */
    predicate ReadRoom(ofs: nat, len: nat)
      requires 0 < blockSize
      decreases if ofs <= size then size - ofs else 0
    {
      len < blockSize ||
      (ofs + blockSize <= size
       && ReadRoom(ofs + blockSize, if SkippedByRead(ofs) then len else len - blockSize))
    }
  }

  /** Flash contents and the two offsets that live from call to call. */
  datatype State = State(flash: seq<Byte>, nextOfs: nat, skipOfs: nat)

  /** The write loop: flash afterwards and how many bytes were skipped. */
  function WriteFrom(chip: Chip, flash: seq<Byte>, ofs: nat, data: seq<Byte>): (r: (seq<Byte>, nat))
    requires chip.Valid() && |flash| == chip.size && chip.Room(ofs, |data|)
    ensures |r.0| == |flash|
    decreases if ofs <= chip.size then chip.size - ofs else 0
  {
    var bs := chip.blockSize;
    if |data| < bs then (flash, 0)
    else if chip.SkippedByWrite(ofs) then
      var r := WriteFrom(chip, flash, ofs + bs, data);
      (r.0, r.1 + bs)
    else WriteFrom(chip, Put(flash, ofs, data[..bs]), ofs + bs, data[bs..])
  }

  /** The read loop: the contents of the good blocks, as many as fit in `len` bytes. */
  function ReadFrom(chip: Chip, flash: seq<Byte>, ofs: nat, len: nat): seq<Byte>
    requires chip.Valid() && |flash| == chip.size
    decreases if ofs <= chip.size then chip.size - ofs else 0
  {
    var bs := chip.blockSize;
    if len < bs || chip.size < ofs + bs then []
    else if chip.SkippedByRead(ofs) then ReadFrom(chip, flash, ofs + bs, len)
    else flash[ofs..ofs + bs] + ReadFrom(chip, flash, ofs + bs, len - bs)
  }

  /** Where a write to `to` really starts. */
  function StartOf(st: State, to: nat): nat {
    if to == st.nextOfs then to + st.skipOfs else to
  }

  /** onenand_block_write: None when the offset is not page aligned. */
  function BlockWrite(chip: Chip, st: State, to: nat, data: seq<Byte>): State
    requires chip.Valid() && |st.flash| == chip.size
    requires to % chip.writeSize == 0 && chip.Room(StartOf(st, to), |data|)
  {
    var w := WriteFrom(chip, st.flash, StartOf(st, to), data);
    State(w.0, to + |data|, (StartOf(st, to) - to) + w.1)
  }

  // ---------------------------------------------------------------- one write after the other

  /** Data that fills whole blocks. */
  predicate Whole(chip: Chip, len: nat)
    requires chip.Valid()
  {
    len == 0 || (chip.blockSize <= len && Whole(chip, len - chip.blockSize))
  }

  /** Bytes below the start of a write stay. */
  lemma {:induction false} WriteKeepsBelow(chip: Chip, flash: seq<Byte>, ofs: nat, data: seq<Byte>)
    requires chip.Valid() && |flash| == chip.size && chip.Room(ofs, |data|) && ofs <= chip.size
    ensures WriteFrom(chip, flash, ofs, data).0[..ofs] == flash[..ofs]
    decreases chip.size - ofs
  {
    var bs := chip.blockSize;
    if bs <= |data| {
      if chip.SkippedByWrite(ofs) {
        WriteKeepsBelow(chip, flash, ofs + bs, data);
        PrefixOfPrefix(WriteFrom(chip, flash, ofs + bs, data).0, flash, ofs, ofs + bs);
      } else {
        var flash1 := Put(flash, ofs, data[..bs]);
        WriteKeepsBelow(chip, flash1, ofs + bs, data[bs..]);
        PrefixOfPrefix(WriteFrom(chip, flash1, ofs + bs, data[bs..]).0, flash1, ofs, ofs + bs);
        assert flash1[..ofs] == flash[..ofs];
      }
    }
  }

  lemma PrefixOfPrefix(a: seq<Byte>, b: seq<Byte>, i: nat, j: nat)
    requires i <= j <= |a| && j <= |b| && a[..j] == b[..j]
    ensures a[..i] == b[..i]
  {
    assert a[..j][..i] == a[..i] && b[..j][..i] == b[..i];
  }

  lemma RoomSplit(chip: Chip, flash: seq<Byte>, ofs: nat, a: seq<Byte>, b: seq<Byte>)
    requires chip.Valid() && |flash| == chip.size && Whole(chip, |a|) && chip.Room(ofs, |a| + |b|)
    ensures chip.Room(ofs, |a|)
    ensures var w := WriteFrom(chip, flash, ofs, a); chip.Room(ofs + |a| + w.1, |b|)
    decreases if ofs <= chip.size then chip.size - ofs else 0
  {
    var bs := chip.blockSize;
    if bs <= |a| {
      if chip.SkippedByWrite(ofs) {
        RoomSplit(chip, flash, ofs + bs, a, b);
      } else {
        RoomSplit(chip, Put(flash, ofs, a[..bs]), ofs + bs, a[bs..], b);
      }
    }
  }

  lemma WriteSkips(chip: Chip, flash: seq<Byte>, ofs: nat, data: seq<Byte>)
    requires chip.Valid() && |flash| == chip.size && chip.Room(ofs, |data|)
    requires chip.blockSize <= |data| && chip.SkippedByWrite(ofs)
    ensures chip.Room(ofs + chip.blockSize, |data|)
    ensures var r := WriteFrom(chip, flash, ofs + chip.blockSize, data);
            WriteFrom(chip, flash, ofs, data) == (r.0, r.1 + chip.blockSize)
  {
  }

  lemma WriteStores(chip: Chip, flash: seq<Byte>, ofs: nat, first: seq<Byte>, rest: seq<Byte>)
    requires chip.Valid() && |flash| == chip.size && chip.Room(ofs, |first + rest|)
    requires chip.blockSize == |first| && !chip.SkippedByWrite(ofs)
    ensures chip.Room(ofs + |first|, |rest|)
    ensures WriteFrom(chip, flash, ofs, first + rest) == WriteFrom(chip, Put(flash, ofs, first), ofs + |first|, rest)
  {
    hide Put;
    assert (first + rest)[..|first|] == first && (first + rest)[|first|..] == rest;
  }

  /** Less than a block: nothing is written. */
  lemma WriteShort(chip: Chip, flash: seq<Byte>, ofs: nat, data: seq<Byte>)
    requires chip.Valid() && |flash| == chip.size && |data| < chip.blockSize
    ensures chip.Room(ofs, |data|) && WriteFrom(chip, flash, ofs, data) == (flash, 0)
  {
  }

  lemma WholeStep(chip: Chip, len: nat)
    requires chip.Valid() && Whole(chip, len)
    ensures len == 0 || (chip.blockSize <= len && Whole(chip, len - chip.blockSize))
  {
  }

  /** Writing `a` and then `b` where `a` ended is writing `a + b`. */
  lemma {:induction false} WriteAppend(chip: Chip, flash: seq<Byte>, ofs: nat, a: seq<Byte>, b: seq<Byte>)
    requires chip.Valid() && |flash| == chip.size && Whole(chip, |a|) && chip.Room(ofs, |a| + |b|)
    ensures chip.Room(ofs, |a + b|) && chip.Room(ofs, |a|)
    ensures var w := WriteFrom(chip, flash, ofs, a);
            && chip.Room(ofs + |a| + w.1, |b|)
            && var v := WriteFrom(chip, w.0, ofs + |a| + w.1, b);
               WriteFrom(chip, flash, ofs, a + b) == (v.0, w.1 + v.1)
    decreases if ofs <= chip.size then chip.size - ofs else 0
  {
    hide WriteFrom, Put, Chip.Room, Whole, Chip.SkippedByWrite;
    RoomSplit(chip, flash, ofs, a, b);
    WholeStep(chip, |a|);
    var bs := chip.blockSize;
    if |a| == 0 {
      WriteShort(chip, flash, ofs, a);
      assert a + b == b;
    } else if chip.SkippedByWrite(ofs) {
      WriteSkips(chip, flash, ofs, a);
      WriteSkips(chip, flash, ofs, a + b);
      RoomInside(chip, ofs, |a + b|);
      WriteAppend(chip, flash, ofs + bs, a, b);
    } else {
      var first, rest := a[..bs], a[bs..];
      assert a == first + rest;
      Regroup(first, rest, b);
      WriteStores(chip, flash, ofs, first, rest);
      WriteStores(chip, flash, ofs, first, rest + b);
      RoomInside(chip, ofs, |a + b|);
      WriteAppend(chip, Put(flash, ofs, first), ofs + bs, rest, b);
    }
  }

  lemma RoomInside(chip: Chip, ofs: nat, len: nat)
    requires chip.Valid() && chip.Room(ofs, len) && chip.blockSize <= len
    ensures ofs + chip.blockSize <= chip.size
  {
  }

  lemma Regroup(a: seq<Byte>, b: seq<Byte>, c: seq<Byte>)
    ensures a + b + c == a + (b + c)
  {
  }

  lemma {:induction false} WholeAligned(chip: Chip, to: nat, len: nat)
    requires chip.Valid() && Whole(chip, len) && to % chip.writeSize == 0
    ensures (to + len) % chip.writeSize == 0
    decreases len
  {
    if len != 0 {
      ModSum(to, chip.blockSize, chip.writeSize);
      WholeAligned(chip, to + chip.blockSize, len - chip.blockSize);
    }
  }

  /** Going on where the last write ended logically is the same as one longer write. */
  lemma TwoWrites(chip: Chip, st: State, to: nat, a: seq<Byte>, b: seq<Byte>)
    requires chip.Valid() && |st.flash| == chip.size && to % chip.writeSize == 0
    requires Whole(chip, |a|) && chip.Room(StartOf(st, to), |a| + |b|)
    ensures chip.Room(StartOf(st, to), |a|) && chip.Room(StartOf(st, to), |a + b|)
    ensures (to + |a|) % chip.writeSize == 0
    ensures var st1 := BlockWrite(chip, st, to, a);
            && chip.Room(StartOf(st1, to + |a|), |b|)
            && BlockWrite(chip, st1, to + |a|, b) == BlockWrite(chip, st, to, a + b)
  {
    hide WriteFrom, Whole;
    WriteAppend(chip, st.flash, StartOf(st, to), a, b);
    WholeAligned(chip, to, |a|);
  }

  function Joined(chunks: seq<seq<Byte>>): seq<Byte> {
    if chunks == [] then [] else chunks[0] + Joined(chunks[1..])
  }

  predicate AllWhole(chip: Chip, chunks: seq<seq<Byte>>)
    requires chip.Valid()
  {
    forall i :: 0 <= i < |chunks| ==> Whole(chip, |chunks[i]|)
  }

  /** What the source relies on for a chain of writes: each finds room. */
  predicate ChainRoom(chip: Chip, st: State, to: nat, chunks: seq<seq<Byte>>)
    requires chip.Valid()
    decreases |chunks|
  {
    |st.flash| == chip.size && to % chip.writeSize == 0 && chip.Room(StartOf(st, to), |Joined(chunks)|)
  }

  /** A chain of writes, each starting where the one before ended logically. */
  function Chain(chip: Chip, st: State, to: nat, chunks: seq<seq<Byte>>): (r: State)
    requires chip.Valid() && AllWhole(chip, chunks) && ChainRoom(chip, st, to, chunks)
    ensures |r.flash| == chip.size
    decreases |chunks|
  {
    if chunks == [] then st
    else
      TwoWrites(chip, st, to, chunks[0], Joined(chunks[1..]));
      Chain(chip, BlockWrite(chip, st, to, chunks[0]), to + |chunks[0]|, chunks[1..])
  }

  /** Continuation: however the data is cut into whole blocks, flash and offsets end as after one write. */
  lemma {:induction false} ChainIsOneWrite(chip: Chip, st: State, to: nat, chunks: seq<seq<Byte>>)
    requires chip.Valid() && AllWhole(chip, chunks) && ChainRoom(chip, st, to, chunks) && chunks != []
    ensures Chain(chip, st, to, chunks) == BlockWrite(chip, st, to, Joined(chunks))
    decreases |chunks|
  {
    TwoWrites(chip, st, to, chunks[0], Joined(chunks[1..]));
    var st1 := BlockWrite(chip, st, to, chunks[0]);
    if |chunks| == 1 {
      assert chunks[0] + Joined(chunks[1..]) == chunks[0];
      assert Chain(chip, st1, to + |chunks[0]|, chunks[1..]) == st1;
    } else {
      hide BlockWrite, Whole, Chip.Room;
      ChainIsOneWrite(chip, st1, to + |chunks[0]|, chunks[1..]);
    }
  }

  /** The invariant behind it: physical position = next_ofs + skip_ofs. */
  lemma PhysicalPosition(chip: Chip, st: State, to: nat, data: seq<Byte>)
    requires chip.Valid() && |st.flash| == chip.size && to % chip.writeSize == 0
    requires chip.Room(StartOf(st, to), |data|)
    ensures var st1 := BlockWrite(chip, st, to, data);
            var skipped := WriteFrom(chip, st.flash, StartOf(st, to), data).1;
            && StartOf(st, to) + |data| + skipped == st1.nextOfs + st1.skipOfs
            && StartOf(st1, st1.nextOfs) == st1.nextOfs + st1.skipOfs
  {
    hide WriteFrom;
  }

  // ---------------------------------------------------------------- reading back

  /** Of the blocks that a write of `len` bytes comes to, reading skips exactly those that writing skips. */
  predicate SameSkips(chip: Chip, ofs: nat, len: nat)
    requires chip.Valid() && chip.Room(ofs, len)
    decreases if ofs <= chip.size then chip.size - ofs else 0
  {
    len < chip.blockSize ||
    ((chip.SkippedByWrite(ofs) <==> chip.SkippedByRead(ofs))
     && SameSkips(chip, ofs + chip.blockSize, if chip.SkippedByWrite(ofs) then len else len - chip.blockSize))
  }

  lemma SkipsStep(chip: Chip, ofs: nat, len: nat)
    requires chip.Valid() && chip.Room(ofs, len) && chip.blockSize <= len
    ensures var left := if chip.SkippedByWrite(ofs) then len else len - chip.blockSize;
            && chip.Room(ofs + chip.blockSize, left)
            && (SameSkips(chip, ofs, len)
                <==> chip.SkippedByWrite(ofs) == chip.SkippedByRead(ofs) && SameSkips(chip, ofs + chip.blockSize, left))
  {
  }

  lemma SkipsShort(chip: Chip, ofs: nat, len: nat)
    requires chip.Valid() && len < chip.blockSize
    ensures chip.Room(ofs, len) && SameSkips(chip, ofs, len)
  {
  }

  lemma SliceOfPrefix(a: seq<Byte>, b: seq<Byte>, i: nat, j: nat)
    requires i <= j <= |a| && j <= |b| && a[..j] == b[..j]
    ensures a[i..j] == b[i..j]
  {
    assert a[..j][i..] == a[i..j] && b[..j][i..] == b[i..j];
  }

  /** Reading from where a write started returns what was written. */
  lemma {:induction false} ReadBack(chip: Chip, flash: seq<Byte>, ofs: nat, data: seq<Byte>)
    requires chip.Valid() && |flash| == chip.size && chip.Room(ofs, |data|) && Whole(chip, |data|)
    requires SameSkips(chip, ofs, |data|)
    ensures ReadFrom(chip, WriteFrom(chip, flash, ofs, data).0, ofs, |data|) == data
    decreases if ofs <= chip.size then chip.size - ofs else 0
  {
    var bs := chip.blockSize;
    hide Put, WriteFrom, ReadFrom, Chip.Room, Whole, Chip.SkippedByWrite, Chip.SkippedByRead, SameSkips;
    WholeStep(chip, |data|);
    if |data| == 0 {
      ReadShort(chip, WriteFrom(chip, flash, ofs, data).0, ofs, |data|);
    } else {
      RoomInside(chip, ofs, |data|);
      SkipsStep(chip, ofs, |data|);
      if chip.SkippedByWrite(ofs) {
        WriteSkips(chip, flash, ofs, data);
        ReadBack(chip, flash, ofs + bs, data);
        ReadSkips(chip, WriteFrom(chip, flash, ofs, data).0, ofs, |data|);
      } else {
        var first, rest := data[..bs], data[bs..];
        assert data == first + rest;
        var flash1 := Put(flash, ofs, first);
        WriteStores(chip, flash, ofs, first, rest);
        StoredFirst(chip, flash, ofs, first, rest);
        ReadBack(chip, flash1, ofs + bs, rest);
        ReadStored(chip, WriteFrom(chip, flash1, ofs + bs, rest).0, ofs, first, rest);
      }
    }
  }

  /** The first block stays as it was stored while the rest is written behind it. */
  lemma StoredFirst(chip: Chip, flash: seq<Byte>, ofs: nat, first: seq<Byte>, rest: seq<Byte>)
    requires chip.Valid() && |flash| == chip.size && |first| == chip.blockSize && ofs + |first| <= chip.size
    requires chip.Room(ofs + chip.blockSize, |rest|)
    ensures WriteFrom(chip, Put(flash, ofs, first), ofs + chip.blockSize, rest).0[ofs..ofs + chip.blockSize] == first
  {
    hide Put, WriteFrom, Chip.Room;
    var bs := chip.blockSize;
    var flash1 := Put(flash, ofs, first);
    WriteKeepsBelow(chip, flash1, ofs + bs, rest);
    SliceOfPrefix(WriteFrom(chip, flash1, ofs + bs, rest).0, flash1, ofs, ofs + bs);
    PutGet(flash, ofs, first);
  }

  lemma ReadStored(chip: Chip, flash: seq<Byte>, ofs: nat, first: seq<Byte>, rest: seq<Byte>)
    requires chip.Valid() && |flash| == chip.size && !chip.SkippedByRead(ofs) && ofs + chip.blockSize <= chip.size
    requires |first| == chip.blockSize && flash[ofs..ofs + chip.blockSize] == first
    requires ReadFrom(chip, flash, ofs + chip.blockSize, |rest|) == rest
    ensures ReadFrom(chip, flash, ofs, |first + rest|) == first + rest
  {
    ReadOne(chip, flash, ofs, |first + rest|);
  }

  lemma ReadOne(chip: Chip, flash: seq<Byte>, ofs: nat, len: nat)
    requires chip.Valid() && |flash| == chip.size && chip.blockSize <= len && !chip.SkippedByRead(ofs)
    ensures ReadFrom(chip, flash, ofs, len)
            == flash[ofs..ofs + chip.blockSize] + ReadFrom(chip, flash, ofs + chip.blockSize, len - chip.blockSize)
  {
  }

  lemma ReadSkips(chip: Chip, flash: seq<Byte>, ofs: nat, len: nat)
    requires chip.Valid() && |flash| == chip.size && ofs + chip.blockSize <= chip.size && chip.SkippedByRead(ofs)
    requires chip.blockSize <= len
    ensures ReadFrom(chip, flash, ofs, len) == ReadFrom(chip, flash, ofs + chip.blockSize, len)
  {
  }

  lemma ReadShort(chip: Chip, flash: seq<Byte>, ofs: nat, len: nat)
    requires chip.Valid() && |flash| == chip.size && len < chip.blockSize
    ensures ReadFrom(chip, flash, ofs, len) == []
  {
  }

  // ---------------------------------------------------------------- and only then

  predicate Only(s: seq<Byte>, from: nat, allowed: set<Byte>) {
    forall i :: from <= i < |s| ==> s[i] in allowed
  }

  lemma {:induction false} ReadOnly(chip: Chip, flash: seq<Byte>, ofs: nat, len: nat, allowed: set<Byte>)
    requires chip.Valid() && |flash| == chip.size && Only(flash, ofs, allowed)
    ensures Only(ReadFrom(chip, flash, ofs, len), 0, allowed)
    decreases if ofs <= chip.size then chip.size - ofs else 0
  {
    var bs := chip.blockSize;
    if bs <= len && ofs + bs <= chip.size {
      if chip.SkippedByRead(ofs) {
        ReadOnly(chip, flash, ofs + bs, len, allowed);
      } else {
        ReadOnly(chip, flash, ofs + bs, len - bs, allowed);
      }
    }
  }

  lemma PutOnly(flash: seq<Byte>, ofs: nat, bytes: seq<Byte>, from: nat, allowed: set<Byte>)
    requires ofs + |bytes| <= |flash| && Only(flash, from, allowed) && Only(bytes, 0, allowed)
    ensures Only(Put(flash, ofs, bytes), from, allowed)
  {
  }

  lemma {:induction false} WriteOnly(chip: Chip, flash: seq<Byte>, ofs: nat, data: seq<Byte>, from: nat,
                                     allowed: set<Byte>)
    requires chip.Valid() && |flash| == chip.size && chip.Room(ofs, |data|)
    requires Only(flash, from, allowed) && Only(data, 0, allowed)
    ensures Only(WriteFrom(chip, flash, ofs, data).0, from, allowed)
    decreases if ofs <= chip.size then chip.size - ofs else 0
  {
    hide Put;
    var bs := chip.blockSize;
    if bs <= |data| {
      if chip.SkippedByWrite(ofs) {
        WriteOnly(chip, flash, ofs + bs, data, from, allowed);
      } else {
        PutOnly(flash, ofs, data[..bs], from, allowed);
        WriteOnly(chip, Put(flash, ofs, data[..bs]), ofs + bs, data[bs..], from, allowed);
      }
    }
  }

  /** A block skipped by writing only is read with what it held before. */
  lemma ReadsOld(chip: Chip, flash: seq<Byte>, ofs: nat, data: seq<Byte>)
    requires chip.Valid() && |flash| == chip.size && chip.Room(ofs, |data|) && chip.blockSize <= |data|
    requires chip.SkippedByWrite(ofs) && !chip.SkippedByRead(ofs)
    requires Only(flash, ofs, {0}) && Only(data, 0, {2})
    ensures ReadFrom(chip, WriteFrom(chip, flash, ofs, data).0, ofs, |data|) != data
  {
    hide WriteFrom, ReadFrom, Chip.Room, Chip.SkippedByRead, Chip.SkippedByWrite;
    var bs := chip.blockSize;
    RoomInside(chip, ofs, |data|);
    WriteSkips(chip, flash, ofs, data);
    var after := WriteFrom(chip, flash, ofs, data).0;
    WriteKeepsBelow(chip, flash, ofs + bs, data);
    assert after[..ofs + bs][ofs] == flash[..ofs + bs][ofs];
    assert after[ofs] == 0;
    ReadOne(chip, after, ofs, |data|);
    assert ReadFrom(chip, after, ofs, |data|)[0] == after[ofs];
    assert data[0] == 2;
  }

  /** A block skipped by reading only does not show. */
  lemma ReadsOn(chip: Chip, flash: seq<Byte>, ofs: nat, first: seq<Byte>, rest: seq<Byte>)
    requires chip.Valid() && |flash| == chip.size && chip.Room(ofs, |first + rest|) && chip.blockSize == |first|
    requires !chip.SkippedByWrite(ofs) && chip.SkippedByRead(ofs)
    requires Only(flash, ofs, {0}) && Only(first, 0, {1}) && Only(rest, 0, {2})
    ensures ReadFrom(chip, WriteFrom(chip, flash, ofs, first + rest).0, ofs, |first + rest|) != first + rest
  {
    var bs, data := chip.blockSize, first + rest;
    RoomInside(chip, ofs, |data|);
    WriteStores(chip, flash, ofs, first, rest);
    var flash1 := Put(flash, ofs, first);
    assert Only(flash1, ofs + bs, {0, 2});
    WriteOnly(chip, flash1, ofs + bs, rest, ofs + bs, {0, 2});
    var after := WriteFrom(chip, flash1, ofs + bs, rest).0;
    ReadSkips(chip, after, ofs, |data|);
    ReadOnly(chip, after, ofs + bs, |data|, {0, 2});
    hide WriteFrom, ReadFrom, Chip.Room, Put;
    var got := ReadFrom(chip, after, ofs, |data|);
    assert data[0] == 1;
    assert got != [] ==> got[0] in {0, 2};
  }

  function Filled(n: nat, b: Byte): (r: seq<Byte>)
    ensures |r| == n && Only(r, 0, {b})
  {
    seq(n, i => b)
  }

  ghost predicate Lost(chip: Chip, ofs: nat, data: seq<Byte>)
    requires chip.Valid() && chip.Room(ofs, |data|)
  {
    forall flash: seq<Byte> :: |flash| == chip.size && Only(flash, ofs, {0}) ==>
      ReadFrom(chip, WriteFrom(chip, flash, ofs, data).0, ofs, |data|) != data
  }

  lemma LostBehindSkip(chip: Chip, ofs: nat, data: seq<Byte>)
    requires chip.Valid() && chip.Room(ofs, |data|) && chip.blockSize <= |data|
    requires chip.SkippedByWrite(ofs) && chip.SkippedByRead(ofs)
    requires chip.Room(ofs + chip.blockSize, |data|) && Lost(chip, ofs + chip.blockSize, data)
    ensures Lost(chip, ofs, data)
  {
    RoomInside(chip, ofs, |data|);
    forall flash: seq<Byte> | |flash| == chip.size && Only(flash, ofs, {0})
      ensures ReadFrom(chip, WriteFrom(chip, flash, ofs, data).0, ofs, |data|) != data
    {
      hide WriteFrom, ReadFrom, Chip.Room, Chip.SkippedByRead, Chip.SkippedByWrite;
      WriteSkips(chip, flash, ofs, data);
      ReadSkips(chip, WriteFrom(chip, flash, ofs, data).0, ofs, |data|);
      assert Only(flash, ofs + chip.blockSize, {0});
    }
  }

  lemma PutAbove(flash: seq<Byte>, ofs: nat, first: seq<Byte>)
    requires ofs + |first| <= |flash| && Only(flash, ofs, {0})
    ensures Only(Put(flash, ofs, first), ofs + |first|, {0})
  {
  }

  lemma DifferBehind(a: seq<Byte>, b: seq<Byte>, c: seq<Byte>, d: seq<Byte>)
    requires |a| == |c| && b != d
    ensures a + b != c + d
  {
    assert (a + b)[|a|..] == b && (c + d)[|c|..] == d;
  }

  lemma LostBehindBlock(chip: Chip, ofs: nat, first: seq<Byte>, rest: seq<Byte>)
    requires chip.Valid() && chip.Room(ofs, |first + rest|) && chip.blockSize == |first|
    requires !chip.SkippedByWrite(ofs) && !chip.SkippedByRead(ofs)
    requires chip.Room(ofs + chip.blockSize, |rest|) && Lost(chip, ofs + chip.blockSize, rest)
    ensures Lost(chip, ofs, first + rest)
  {
    hide WriteFrom, ReadFrom, Chip.Room, Chip.SkippedByRead, Chip.SkippedByWrite, Put, Only;
    var bs, data := chip.blockSize, first + rest;
    RoomInside(chip, ofs, |data|);
    forall flash: seq<Byte> | |flash| == chip.size && Only(flash, ofs, {0})
      ensures ReadFrom(chip, WriteFrom(chip, flash, ofs, data).0, ofs, |data|) != data
    {
      PutAbove(flash, ofs, first);
      var flash1 := Put(flash, ofs, first);
      WriteStores(chip, flash, ofs, first, rest);
      var after := WriteFrom(chip, flash1, ofs + bs, rest).0;
      ReadOne(chip, after, ofs, |data|);
      DifferBehind(after[ofs..ofs + bs], ReadFrom(chip, after, ofs + bs, |rest|), first, rest);
    }
  }

  /** Where skips differ there is data that does not come back. */
  lemma {:induction false} SomeLost(chip: Chip, ofs: nat, len: nat) returns (data: seq<Byte>)
    requires chip.Valid() && chip.Room(ofs, len) && !SameSkips(chip, ofs, len)
    ensures |data| == len && Lost(chip, ofs, data)
    decreases if ofs <= chip.size then chip.size - ofs else 0
  {
    hide WriteFrom, ReadFrom, Chip.Room, Chip.SkippedByRead, Chip.SkippedByWrite, SameSkips, Only, Lost;
    var bs := chip.blockSize;
    if len < bs {
      SkipsShort(chip, ofs, len);
      assert false;
    }
    SkipsStep(chip, ofs, len);
    RoomInside(chip, ofs, len);
    if chip.SkippedByWrite(ofs) && chip.SkippedByRead(ofs) {
      data := SomeLost(chip, ofs + bs, len);
      LostBehindSkip(chip, ofs, data);
    } else if chip.SkippedByWrite(ofs) {
      data := Filled(len, 2);
      LostToOld(chip, ofs, data);
    } else if chip.SkippedByRead(ofs) {
      data := Filled(bs, 1) + Filled(len - bs, 2);
      LostUnread(chip, ofs, Filled(bs, 1), Filled(len - bs, 2));
    } else {
      var rest := SomeLost(chip, ofs + bs, len - bs);
      data := Filled(bs, 1) + rest;
      LostBehindBlock(chip, ofs, Filled(bs, 1), rest);
    }
  }

  lemma LostToOld(chip: Chip, ofs: nat, data: seq<Byte>)
    requires chip.Valid() && chip.Room(ofs, |data|) && chip.blockSize <= |data|
    requires chip.SkippedByWrite(ofs) && !chip.SkippedByRead(ofs) && Only(data, 0, {2})
    ensures Lost(chip, ofs, data)
  {
    hide WriteFrom, ReadFrom, Chip.Room, Chip.SkippedByRead, Chip.SkippedByWrite, Only;
    forall flash: seq<Byte> | |flash| == chip.size && Only(flash, ofs, {0})
      ensures ReadFrom(chip, WriteFrom(chip, flash, ofs, data).0, ofs, |data|) != data
    {
      ReadsOld(chip, flash, ofs, data);
    }
  }

  lemma LostUnread(chip: Chip, ofs: nat, first: seq<Byte>, rest: seq<Byte>)
    requires chip.Valid() && chip.Room(ofs, |first + rest|) && chip.blockSize == |first|
    requires !chip.SkippedByWrite(ofs) && chip.SkippedByRead(ofs) && Only(first, 0, {1}) && Only(rest, 0, {2})
    ensures Lost(chip, ofs, first + rest)
  {
    hide WriteFrom, ReadFrom, Chip.Room, Chip.SkippedByRead, Chip.SkippedByWrite, Only;
    var data := first + rest;
    forall flash: seq<Byte> | |flash| == chip.size && Only(flash, ofs, {0})
      ensures ReadFrom(chip, WriteFrom(chip, flash, ofs, data).0, ofs, |data|) != data
    {
      ReadsOn(chip, flash, ofs, first, rest);
    }
  }

  /** Whatever whole blocks are written there, over whatever the flash held, they are read back. */
  ghost predicate AlwaysReadBack(chip: Chip, ofs: nat, len: nat)
    requires chip.Valid() && chip.Room(ofs, len)
  {
    forall flash: seq<Byte>, data: seq<Byte> :: |flash| == chip.size && |data| == len ==>
      ReadFrom(chip, WriteFrom(chip, flash, ofs, data).0, ofs, len) == data
  }

  /** All data written to a range reads back if and only if reading skips there what writing skips. */
  lemma ReadBackIff(chip: Chip, ofs: nat, len: nat)
    requires chip.Valid() && chip.Room(ofs, len) && Whole(chip, len)
    ensures AlwaysReadBack(chip, ofs, len) <==> SameSkips(chip, ofs, len)
  {
    hide WriteFrom, ReadFrom, Chip.Room, SameSkips, Whole, Only;
    if SameSkips(chip, ofs, len) {
      forall flash: seq<Byte>, data: seq<Byte> | |flash| == chip.size && |data| == len
        ensures ReadFrom(chip, WriteFrom(chip, flash, ofs, data).0, ofs, len) == data
      {
        ReadBack(chip, flash, ofs, data);
      }
    } else {
      var data := SomeLost(chip, ofs, len);
      var flash := Filled(chip.size, 0);
      OnlyFrom(flash, ofs, {0});
    }
  }

  lemma OnlyFrom(s: seq<Byte>, from: nat, allowed: set<Byte>)
    requires Only(s, 0, allowed)
    ensures Only(s, from, allowed)
  {
  }

  lemma ReadRoomStep(chip: Chip, ofs: nat, len: nat)
    requires chip.Valid() && chip.ReadRoom(ofs, len) && chip.blockSize <= len
    ensures ofs + chip.blockSize <= chip.size
    ensures chip.ReadRoom(ofs + chip.blockSize, if chip.SkippedByRead(ofs) then len else len - chip.blockSize)
  {
  }

  lemma {:induction false} WholeSum(chip: Chip, a: nat, b: nat)
    requires chip.Valid() && Whole(chip, a) && Whole(chip, b)
    ensures Whole(chip, a + b)
    decreases a
  {
    if a != 0 {
      WholeSum(chip, a - chip.blockSize, b);
    }
  }

  lemma {:induction false} WholeJoined(chip: Chip, chunks: seq<seq<Byte>>)
    requires chip.Valid() && AllWhole(chip, chunks)
    ensures Whole(chip, |Joined(chunks)|)
    decreases |chunks|
  {
    if chunks != [] {
      WholeJoined(chip, chunks[1..]);
      WholeSum(chip, |chunks[0]|, |Joined(chunks[1..])|);
    }
  }

  /** A chain that starts afresh at `to` reads back from `to` as all its pieces in order. */
  lemma ChainReadsBack(chip: Chip, st: State, to: nat, chunks: seq<seq<Byte>>)
    requires chip.Valid() && AllWhole(chip, chunks) && ChainRoom(chip, st, to, chunks) && chunks != []
    requires to != st.nextOfs || st.skipOfs == 0
    requires SameSkips(chip, to, |Joined(chunks)|)
    ensures ReadFrom(chip, Chain(chip, st, to, chunks).flash, to, |Joined(chunks)|) == Joined(chunks)
  {
    hide Chain, ReadFrom, WriteFrom, Whole, AllWhole, SameSkips;
    WholeJoined(chip, chunks);
    ChainIsOneWrite(chip, st, to, chunks);
    ReadBack(chip, st.flash, to, Joined(chunks));
  }

  // ---------------------------------------------------------------- the commands as they run

  /** len >> erase_shift */
  function BlockCount(len: nat, bs: nat): nat
    requires 0 < bs
  {
    len / bs
  }

  /** The loop counts whole blocks. */
  lemma BlocksLeft(len: nat, bs: nat)
    requires 0 < bs
    ensures BlockCount(len, bs) == 0 <==> len < bs
    ensures bs <= len ==> BlockCount(len - bs, bs) == BlockCount(len, bs) - 1
  {
    if bs <= len {
      var q := len / bs;
      assert len - bs == (q - 1) * bs + len % bs;
      DivUnique(len - bs, bs, q - 1, len % bs);
    }
  }

  class Device {
    const chip: Chip
    var flash: seq<Byte>
    var nextOfs: nat
    var skipOfs: nat

    function Model(): State
      reads this
    {
      State(flash, nextOfs, skipOfs)
    }

    predicate Valid()
      reads this
    {
      chip.Valid() && |flash| == chip.size
    }

    constructor (chip: Chip, flash: seq<Byte>)
      requires chip.Valid() && |flash| == chip.size
      ensures Valid() && this.chip == chip && Model() == State(flash, 0, 0)
    {
      this.chip, this.flash := chip, flash;
      nextOfs, skipOfs := 0, 0;
    }

    /** The loop of onenand_block_write, from the physical offset on. */
    method WriteLoop(first: nat, buf: seq<Byte>)
      requires Valid() && chip.Room(first, |buf|)
      modifies this`flash, this`skipOfs
      ensures Valid()
      ensures flash == WriteFrom(chip, old(flash), first, buf).0
      ensures skipOfs == old(skipOfs) + WriteFrom(chip, old(flash), first, buf).1
    {
      hide Put, Chip.Room, WriteFrom, Chip.SkippedByWrite, BlockCount;
      var bs, ofs, left := chip.blockSize, first, buf;
      var blocks := BlockCount(|buf|, bs);
      BlocksLeft(|left|, bs);
      while blocks != 0
        invariant Valid() && blocks == BlockCount(|left|, bs) && (blocks == 0 <==> |left| < bs)
        invariant chip.Room(ofs, |left|)
        invariant WriteFrom(chip, old(flash), first, buf).0 == WriteFrom(chip, flash, ofs, left).0
        invariant old(skipOfs) + WriteFrom(chip, old(flash), first, buf).1
                  == skipOfs + WriteFrom(chip, flash, ofs, left).1
        decreases if ofs <= chip.size then chip.size - ofs else 0
      {
        BlocksLeft(|left|, bs);
        RoomInside(chip, ofs, |left|);
        if chip.SkippedByWrite(ofs) {
          WriteSkips(chip, flash, ofs, left);
          skipOfs := skipOfs + bs;
        } else {
          assert left == left[..bs] + left[bs..];
          WriteStores(chip, flash, ofs, left[..bs], left[bs..]);
          flash := Put(flash, ofs, left[..bs]);
          left := left[bs..];
          blocks := blocks - 1;
          BlocksLeft(|left|, bs);
        }
        ofs := ofs + bs;
      }
      WriteShort(chip, flash, ofs, left);
    }

    /** onenand_block_write */
    method Write(to: nat, buf: seq<Byte>) returns (code: int)
      requires Valid()
      requires to % chip.writeSize == 0 ==> chip.Room(StartOf(Model(), to), |buf|)
      modifies this
      ensures Valid()
      ensures code == (if to % chip.writeSize == 0 then 0 else 1)
      ensures Model() == if code == 0 then BlockWrite(chip, old(Model()), to, buf) else old(Model())
    {
      hide Chip.Room, WriteFrom;
      if to % chip.writeSize != 0 {
        return 1;
      }
      var ofs := to;
      if to == nextOfs {
        nextOfs := to + |buf|;
        ofs := to + skipOfs;
      } else {
        nextOfs := to + |buf|;
        skipOfs := 0;
      }
      WriteLoop(ofs, buf);
      code := 0;
    }

    /** onenand_block_read */
    method Read(from: nat, len: nat) returns (buf: seq<Byte>)
      requires Valid() && chip.ReadRoom(from, len)
      ensures buf == ReadFrom(chip, flash, from, len)
    {
      hide BlockCount, ReadFrom, Chip.ReadRoom, Chip.SkippedByRead;
      var bs := chip.blockSize;
      var blocks, left, ofs := BlockCount(len, bs), len, from;
      buf := [];
      BlocksLeft(left, bs);
      AppendNothing(ReadFrom(chip, flash, from, len));
      while blocks != 0
        invariant 0 <= left && blocks == BlockCount(left, bs) && (blocks == 0 <==> left < bs)
        invariant chip.ReadRoom(ofs, left)
        invariant ReadFrom(chip, flash, from, len) == buf + ReadFrom(chip, flash, ofs, left)
        decreases if ofs <= chip.size then chip.size - ofs else 0
      {
        BlocksLeft(left, bs);
        ReadRoomStep(chip, ofs, left);
        if chip.SkippedByRead(ofs) {
          ReadSkips(chip, flash, ofs, left);
        } else {
          ReadOne(chip, flash, ofs, left);
          Regroup(buf, flash[ofs..ofs + bs], ReadFrom(chip, flash, ofs + bs, left - bs));
          buf := buf + flash[ofs..ofs + bs];
          left := left - bs;
          blocks := blocks - 1;
          BlocksLeft(left, bs);
        }
        ofs := ofs + bs;
      }
      ReadShort(chip, flash, ofs, left);
      AppendNothing(buf);
    }
  }

  lemma AppendNothing(a: seq<Byte>)
    ensures a + [] == a && [] + a == a
  {
  }
}
