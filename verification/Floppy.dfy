/**
  Reading blocks from a floppy disk (boot/rpi/cmd/fdc.c): where a block lies, how a read is cut at
  the sides of a track, and the two retry counters. The controller answers every READ command, and
  every seek or recalibration, as the environment decides.
 */
module Floppy {
  import opened Words

  const RW_RETRIES := 3
  const CAL_RETRIES := 3

  /** Sectors per track and side, sides, tracks, and bytes per sector; the command holds each in a byte. */
  datatype Geometry = Geometry(sect: nat, head: nat, track: nat, size: nat)

  predicate GeometryOk(g: Geometry) {
    0 < g.sect <= 255 && 0 < g.head <= 256 && 0 < g.track <= 256 && 0 < g.size
  }

  // ---------------------------------------------------------------- where a block lies

  datatype Place = Place(track: nat, head: nat, sector: nat)

  /** The arithmetic of fdc_issue_cmd; sectors count from 1. */
  function PlaceOf(g: Geometry, b: nat): Place
    requires 0 < g.sect && 0 < g.sect * g.head
  {
    var r := b % (g.sect * g.head);
    Place(b / (g.sect * g.head), r / g.sect, r % g.sect + 1)
  }

  predicate OnDisk(g: Geometry, p: Place) {
    p.track < g.track && p.head < g.head && 1 <= p.sector <= g.sect
  }

  function BlockAt(g: Geometry, p: Place): nat
    requires 1 <= p.sector
  {
    (p.track * g.head + p.head) * g.sect + (p.sector - 1)
  }

  lemma SideFits(g: Geometry, h: nat, r: nat)
    requires h < g.head && r < g.sect
    ensures h * g.sect + r < g.sect * g.head
  {
    AtLeast(g.head - h, g.sect);
  }

  lemma PositiveProduct(a: nat, b: nat)
    requires 0 < a && 0 < b
    ensures 0 < a * b
  {
  }

  /** A place read back from its block number. */
  lemma PlaceBack(g: Geometry, p: Place)
    requires 0 < g.sect && 0 < g.head && p.head < g.head && 1 <= p.sector <= g.sect
    ensures 0 < g.sect * g.head && PlaceOf(g, BlockAt(g, p)) == p
  {
    PositiveProduct(g.sect, g.head);
    var side, r := g.sect * g.head, p.head * g.sect + (p.sector - 1);
    SideFits(g, p.head, p.sector - 1);
    Distribute(p.track, g.head, p.head, g.sect);
    DivUnique(BlockAt(g, p), side, p.track, r);
    DivUnique(r, g.sect, p.head, p.sector - 1);
  }

  lemma Distribute(t: nat, heads: nat, h: nat, s: nat)
    ensures (t * heads + h) * s == t * (s * heads) + h * s
  {
  }

  /** A block number read back from its place: no two blocks share a place, and every place has its block. */
  lemma BlockBack(g: Geometry, b: nat)
    requires 0 < g.sect && 0 < g.head
    ensures 0 < g.sect * g.head && PlaceOf(g, b).head < g.head && 1 <= PlaceOf(g, b).sector <= g.sect
    ensures BlockAt(g, PlaceOf(g, b)) == b
  {
    PositiveProduct(g.sect, g.head);
    var side := g.sect * g.head;
    var t, r := b / side, b % side;
    var h, s := r / g.sect, r % g.sect;
    Distribute(t, g.head, h, g.sect);
    assert h < g.head by { HeadBelow(g, r); }
    assert b == t * side + r && r == h * g.sect + s;
  }

  lemma HeadBelow(g: Geometry, r: nat)
    requires 0 < g.sect && r < g.sect * g.head
    ensures r / g.sect < g.head
  {
    AtLeast(r / g.sect - g.head, g.sect);
  }

  lemma PlaceInjective(g: Geometry, a: nat, b: nat)
    requires 0 < g.sect && 0 < g.sect * g.head && 0 < g.head && PlaceOf(g, a) == PlaceOf(g, b)
    ensures a == b
  {
    hide PlaceOf, BlockAt;
    BlockBack(g, a);
    BlockBack(g, b);
  }

  /** Blocks of the disk lie on the disk, so the bytes of the command hold them. */
  lemma PlaceFits(g: Geometry, b: nat)
    requires GeometryOk(g) && b < g.track * (g.sect * g.head)
    ensures 0 < g.sect * g.head && OnDisk(g, PlaceOf(g, b))
    ensures PlaceOf(g, b).track < 256 && PlaceOf(g, b).head < 256 && PlaceOf(g, b).sector < 256
  {
    BlockBack(g, b);
    AtLeast(b / (g.sect * g.head) - g.track, g.sect * g.head);
  }

  // ---------------------------------------------------------------- one READ

  /** `n` blocks from `b` on lie on one side of one track. */
  predicate OneSide(g: Geometry, b: nat, n: nat)
    requires 0 < g.sect
  {
    n <= g.sect - b % g.sect
  }

  /** The blocks of a READ are neighbouring sectors of one side of one track. */
  lemma Neighbours(g: Geometry, b: nat, n: nat, k: nat)
    requires 0 < g.sect && 0 < g.head && OneSide(g, b, n) && k < n
    ensures 0 < g.sect * g.head
    ensures var p := PlaceOf(g, b);
            PlaceOf(g, b + k) == Place(p.track, p.head, p.sector + k) && p.sector + k <= g.sect
  {
    BlockBack(g, b);
    var p := PlaceOf(g, b);
    hide PlaceOf;
    DivUnique(b, g.sect, p.track * g.head + p.head, p.sector - 1);
    PlaceBack(g, Place(p.track, p.head, p.sector + k));
  }

  /** A disk holds `size` bytes at every place. */
  ghost predicate Formatted(g: Geometry, disk: Place -> seq<Byte>) {
    forall p: Place :: |disk(p)| == g.size
  }

  /** What the controller transfers: sector after sector of the side it was sent to. */
  function Transfer(disk: Place -> seq<Byte>, p: Place, n: nat): seq<Byte>
    decreases n
  {
    if n == 0 then [] else disk(p) + Transfer(disk, p.(sector := p.sector + 1), n - 1)
  }

  /** The contents of `n` blocks from `b` on. */
  function Blocks(g: Geometry, disk: Place -> seq<Byte>, b: nat, n: nat): seq<Byte>
    requires 0 < g.sect && 0 < g.sect * g.head
    decreases n
  {
    if n == 0 then [] else disk(PlaceOf(g, b)) + Blocks(g, disk, b + 1, n - 1)
  }

  /** A READ that stays on one side transfers the blocks asked for. */
  lemma {:induction false} TransferIsBlocks(g: Geometry, disk: Place -> seq<Byte>, b: nat, n: nat)
    requires 0 < g.sect && 0 < g.head && 0 < g.sect * g.head && OneSide(g, b, n)
    ensures Transfer(disk, PlaceOf(g, b), n) == Blocks(g, disk, b, n)
    decreases n
  {
    if n == 1 {
      assert Transfer(disk, PlaceOf(g, b).(sector := PlaceOf(g, b).sector + 1), 0) == Blocks(g, disk, b + 1, 0);
    } else if 1 < n {
      Neighbours(g, b, n, 1);
      NextOnSide(g, b, n);
      hide PlaceOf;
      TransferIsBlocks(g, disk, b + 1, n - 1);
    }
  }

  lemma NextOnSide(g: Geometry, b: nat, n: nat)
    requires 0 < g.sect && OneSide(g, b, n) && 1 < n
    ensures OneSide(g, b + 1, n - 1)
  {
    var q, r := b / g.sect, b % g.sect;
    assert b + 1 == q * g.sect + (r + 1);
    DivUnique(b + 1, g.sect, q, r + 1);
  }

  // ---------------------------------------------------------------- a run

  /** How a READ ends: all bytes arrive, the command is not taken, or the transfer breaks off after some bytes. */
  datatype Event = Good | Fault | Error(bytes: seq<Byte>)

  /** The variables of fdc_read_data at the label retryrw. */
  datatype Work = Work(blnr: nat, blocks: nat, readblk: nat, offset: nat, rw: nat, cal: nat)

  datatype End = Success | Failed | Waiting

  /** The end of a run, the buffer, how many transfers broke off, and the READ commands issued. */
  datatype Run = Run(end: End, buf: seq<Byte>, errors: nat, issued: seq<(nat, nat)>)

  function Bytes(g: Geometry, n: nat): nat {
    g.size * n
  }

  lemma BytesSum(g: Geometry, a: nat, b: nat)
    ensures Bytes(g, a) + Bytes(g, b) == Bytes(g, a + b)
  {
  }

  ghost predicate Ready(g: Geometry, disk: Place -> seq<Byte>, w: Work, buf: seq<Byte>) {
    && 0 < g.sect && 0 < g.head && 0 < g.sect * g.head
    && Formatted(g, disk)
    && w.readblk <= w.blocks && w.offset + Bytes(g, w.blocks) <= |buf|
  }

  function Min(a: nat, b: nat): nat {
    if a < b then a else b
  }

  /** After a READ that went well: the next side, or what is left of it. */
  function Advance(g: Geometry, w: Work): Work
    requires w.readblk <= w.blocks
  {
    var left := w.blocks - w.readblk;
    w.(blnr := w.blnr + w.readblk, blocks := left, readblk := Min(g.sect, left),
       offset := w.offset + Bytes(g, w.readblk))
  }

  lemma AdvanceFits(g: Geometry, w: Work)
    requires w.readblk <= w.blocks
    ensures var v := Advance(g, w);
            v.readblk <= v.blocks && v.offset + Bytes(g, v.blocks) == w.offset + Bytes(g, w.blocks)
            && Bytes(g, w.readblk) <= Bytes(g, w.blocks)
  {
    BytesSum(g, w.readblk, w.blocks - w.readblk);
  }

  lemma {:induction false} TransferSize(g: Geometry, disk: Place -> seq<Byte>, p: Place, n: nat)
    requires Formatted(g, disk)
    ensures |Transfer(disk, p, n)| == Bytes(g, n)
    decreases n
  {
    if n == 0 {
      assert Bytes(g, 0) == 0;
    } else {
      TransferSize(g, disk, p.(sector := p.sector + 1), n - 1);
      BytesSum(g, 1, n - 1);
    }
  }

  /** What a broken transfer leaves in the buffer. */
  function Partial(g: Geometry, w: Work, buf: seq<Byte>, bytes: seq<Byte>): (r: seq<Byte>)
    requires w.offset + Bytes(g, w.readblk) <= |buf|
    ensures |r| == |buf|
  {
    Put(buf, w.offset, bytes[..Min(|bytes|, Bytes(g, w.readblk))])
  }

  ghost function Stored(g: Geometry, disk: Place -> seq<Byte>, w: Work, buf: seq<Byte>): (r: seq<Byte>)
    requires Ready(g, disk, w, buf)
    ensures |r| == |buf|
  {
    TransferSize(g, disk, PlaceOf(g, w.blnr), w.readblk);
    AdvanceFits(g, w);
    Put(buf, w.offset, Transfer(disk, PlaceOf(g, w.blnr), w.readblk))
  }

  /** One more READ in front of the rest of the run. */
  function After(w: Work, errors: nat, rest: Run): Run {
    rest.(errors := errors + rest.errors, issued := [(w.blnr, w.readblk)] + rest.issued)
  }

  /**
    The loop of fdc_read_data from the label retryrw: `events` are the ends of the READs, `moves`
    those of seeks and recalibrations, of which `m` have happened.
   */
  ghost function Reading(g: Geometry, disk: Place -> seq<Byte>, w: Work, buf: seq<Byte>, events: seq<Event>,
                         moves: nat -> bool, m: nat): (r: Run)
    requires Ready(g, disk, w, buf)
    ensures |r.buf| == |buf|
    decreases |events|
  {
    AdvanceFits(g, w);
    if events == [] then Run(Waiting, buf, 0, [(w.blnr, w.readblk)])
    else
      var rest := events[1..];
      match events[0]
      case Fault => Run(Failed, buf, 0, [(w.blnr, w.readblk)])
      case Error(bytes) =>
        var buf1 := Partial(g, w, buf, bytes);
        if w.rw <= RW_RETRIES then After(w, 1, Reading(g, disk, w.(rw := w.rw + 1), buf1, rest, moves, m))
        else if w.cal > CAL_RETRIES || !moves(m) || !moves(m + 1) then Run(Failed, buf1, 1, [(w.blnr, w.readblk)])
        else After(w, 1, Reading(g, disk, w.(rw := 0, cal := w.cal + 1), buf1, rest, moves, m + 2))
      case Good =>
        var buf1 := Stored(g, disk, w, buf);
        if w.blocks == w.readblk then Run(Success, buf1, 0, [(w.blnr, w.readblk)])
        else if !moves(m) then Run(Failed, buf1, 0, [(w.blnr, w.readblk)])
        else After(w, 0, Reading(g, disk, Advance(g, w), buf1, rest, moves, m + 1))
  }

  /** The first READ goes to the end of its side at most. */
  function Begin(g: Geometry, blnr: nat, blocks: nat): Work
    requires 0 < g.sect
  {
    Work(blnr, blocks, Min(g.sect - blnr % g.sect, blocks), 0, 0, 0)
  }

  /** fdc_read_data: a seek first. */
  ghost function WholeRun(g: Geometry, disk: Place -> seq<Byte>, blnr: nat, blocks: nat, buf: seq<Byte>,
                          events: seq<Event>, moves: nat -> bool): Run
    requires 0 < g.sect && 0 < g.head && 0 < g.sect * g.head && Formatted(g, disk) && Bytes(g, blocks) <= |buf|
  {
    if !moves(0) then Run(Failed, buf, 0, [])
    else Reading(g, disk, Begin(g, blnr, blocks), buf, events, moves, 1)
  }

  // ---------------------------------------------------------------- every READ stays on one side

  predicate SideOk(g: Geometry, w: Work)
    requires 0 < g.sect
  {
    OneSide(g, w.blnr, w.readblk) && (w.readblk < w.blocks ==> (w.blnr + w.readblk) % g.sect == 0)
  }

  lemma BeginSide(g: Geometry, blnr: nat, blocks: nat)
    requires 0 < g.sect
    ensures SideOk(g, Begin(g, blnr, blocks))
  {
    var q, r := blnr / g.sect, blnr % g.sect;
    assert blnr + (g.sect - r) == (q + 1) * g.sect + 0;
    DivUnique(blnr + (g.sect - r), g.sect, q + 1, 0);
  }

  lemma AdvanceSide(g: Geometry, w: Work)
    requires 0 < g.sect && w.readblk < w.blocks && SideOk(g, w)
    ensures SideOk(g, Advance(g, w))
  {
    var b := w.blnr + w.readblk;
    ModSum(b, g.sect, g.sect);
  }

  predicate AllOneSide(g: Geometry, issued: seq<(nat, nat)>)
    requires 0 < g.sect
  {
    forall i :: 0 <= i < |issued| ==> OneSide(g, issued[i].0, issued[i].1)
  }

  lemma {:induction false} ReadingSides(g: Geometry, disk: Place -> seq<Byte>, w: Work, buf: seq<Byte>,
                                        events: seq<Event>, moves: nat -> bool, m: nat)
    requires Ready(g, disk, w, buf) && SideOk(g, w)
    ensures AllOneSide(g, Reading(g, disk, w, buf, events, moves, m).issued)
    decreases |events|
  {
    hide Partial, Stored, Formatted;
    AdvanceFits(g, w);
    if events != [] {
      var rest := events[1..];
      match events[0]
      case Fault =>
      case Error(bytes) =>
        var buf1 := Partial(g, w, buf, bytes);
        if w.rw <= RW_RETRIES {
          ReadingSides(g, disk, w.(rw := w.rw + 1), buf1, rest, moves, m);
        } else {
          ReadingSides(g, disk, w.(rw := 0, cal := w.cal + 1), buf1, rest, moves, m + 2);
        }
      case Good =>
        if w.readblk < w.blocks {
          AdvanceSide(g, w);
          ReadingSides(g, disk, Advance(g, w), Stored(g, disk, w, buf), rest, moves, m + 1);
        }
    }
  }

  // ---------------------------------------------------------------- success fills the buffer

  lemma {:induction false} BlocksAppend(g: Geometry, disk: Place -> seq<Byte>, b: nat, n: nat, k: nat)
    requires 0 < g.sect && 0 < g.sect * g.head
    ensures Blocks(g, disk, b, n + k) == Blocks(g, disk, b, n) + Blocks(g, disk, b + n, k)
    decreases n
  {
    hide PlaceOf;
    if n != 0 {
      BlocksAppend(g, disk, b + 1, n - 1, k);
    }
  }

  lemma {:induction false} BlocksSize(g: Geometry, disk: Place -> seq<Byte>, b: nat, n: nat)
    requires 0 < g.sect && 0 < g.sect * g.head && Formatted(g, disk)
    ensures |Blocks(g, disk, b, n)| == Bytes(g, n)
    decreases n
  {
    if n == 0 {
      assert Bytes(g, 0) == 0;
    } else {
      BlocksSize(g, disk, b + 1, n - 1);
      BytesSum(g, 1, n - 1);
    }
  }

  /** The buffer with the blocks asked for stored from the working offset on. */
  ghost function Filled(g: Geometry, disk: Place -> seq<Byte>, w: Work, buf: seq<Byte>): (r: seq<Byte>)
    requires Ready(g, disk, w, buf)
    ensures |r| == |buf|
  {
    BlocksSize(g, disk, w.blnr, w.blocks);
    Put(buf, w.offset, Blocks(g, disk, w.blnr, w.blocks))
  }

  lemma PartialHidden(g: Geometry, disk: Place -> seq<Byte>, w: Work, buf: seq<Byte>, bytes: seq<Byte>, v: Work)
    requires Ready(g, disk, w, buf) && w.offset + Bytes(g, w.readblk) <= |buf| && v == w.(rw := v.rw, cal := v.cal)
    ensures Filled(g, disk, v, Partial(g, w, buf, bytes)) == Filled(g, disk, w, buf)
  {
    hide Put, Bytes, Blocks, Formatted;
    AdvanceFits(g, w);
    BlocksSize(g, disk, w.blnr, w.blocks);
    PutOver(buf, w.offset, bytes[..Min(|bytes|, Bytes(g, w.readblk))], Blocks(g, disk, w.blnr, w.blocks));
  }

  lemma StoredThenFilled(g: Geometry, disk: Place -> seq<Byte>, w: Work, buf: seq<Byte>)
    requires Ready(g, disk, w, buf) && SideOk(g, w)
    requires Ready(g, disk, Advance(g, w), Stored(g, disk, w, buf))
    ensures Filled(g, disk, Advance(g, w), Stored(g, disk, w, buf)) == Filled(g, disk, w, buf)
  {
    hide Put, Bytes, Blocks, Formatted, Transfer, PlaceOf;
    var left := w.blocks - w.readblk;
    TransferIsBlocks(g, disk, w.blnr, w.readblk);
    TransferSize(g, disk, PlaceOf(g, w.blnr), w.readblk);
    BlocksAppend(g, disk, w.blnr, w.readblk, left);
    BlocksSize(g, disk, w.blnr + w.readblk, left);
    AdvanceFits(g, w);
    PutBehind(buf, w.offset, Blocks(g, disk, w.blnr, w.readblk), Blocks(g, disk, w.blnr + w.readblk, left));
  }

  lemma StoredAll(g: Geometry, disk: Place -> seq<Byte>, w: Work, buf: seq<Byte>)
    requires Ready(g, disk, w, buf) && SideOk(g, w) && w.readblk == w.blocks
    ensures Stored(g, disk, w, buf) == Filled(g, disk, w, buf)
  {
    hide Put, Bytes, Blocks, Formatted, Transfer, PlaceOf;
    TransferIsBlocks(g, disk, w.blnr, w.readblk);
  }

  /**
    A run that succeeds leaves the blocks in the buffer, whatever broken transfers wrote there, and
    nothing else changes.
   */
  lemma {:induction false} ReadingFills(g: Geometry, disk: Place -> seq<Byte>, w: Work, buf: seq<Byte>,
                                        events: seq<Event>, moves: nat -> bool, m: nat)
    requires Ready(g, disk, w, buf) && SideOk(g, w)
    ensures var r := Reading(g, disk, w, buf, events, moves, m);
            r.end.Success? ==> r.buf == Filled(g, disk, w, buf)
    decreases |events|
  {
    hide Partial, Stored, Formatted, Filled, Bytes, PlaceOf, OneSide, SideOk, Advance;
    AdvanceFits(g, w);
    if events != [] {
      var rest := events[1..];
      match events[0]
      case Fault =>
      case Error(bytes) =>
        var buf1 := Partial(g, w, buf, bytes);
        var v := if w.rw <= RW_RETRIES then w.(rw := w.rw + 1) else w.(rw := 0, cal := w.cal + 1);
        SameSide(g, w, v);
        PartialHidden(g, disk, w, buf, bytes, v);
        ReadingFills(g, disk, v, buf1, rest, moves, if w.rw <= RW_RETRIES then m else m + 2);
      case Good =>
        if w.readblk == w.blocks {
          StoredAll(g, disk, w, buf);
        } else {
          AdvanceSide(g, w);
          StoredThenFilled(g, disk, w, buf);
          ReadingFills(g, disk, Advance(g, w), Stored(g, disk, w, buf), rest, moves, m + 1);
        }
    }
  }

  lemma SameSide(g: Geometry, w: Work, v: Work)
    requires 0 < g.sect && SideOk(g, w) && v == w.(rw := v.rw, cal := v.cal)
    ensures SideOk(g, v)
  {
  }

  // ---------------------------------------------------------------- how many errors a run survives

  /** The broken transfers that led to these counters: five for every recalibration. */
  function Spent(w: Work): nat {
    (RW_RETRIES + 2) * w.cal + w.rw
  }

  const LAST_ERROR := (RW_RETRIES + 2) * (CAL_RETRIES + 2)

  predicate NoFault(events: seq<Event>) {
    forall i :: 0 <= i < |events| ==> !events[i].Fault?
  }

  ghost predicate AllMove(moves: nat -> bool) {
    forall i: nat :: moves(i)
  }

  predicate CountersOk(w: Work) {
    w.rw <= RW_RETRIES + 1 && w.cal <= CAL_RETRIES + 1
  }

  /**
    A run that succeeds has seen at most 24 broken transfers; when only transfers fail, it is the 25th
    that ends it.
   */
  lemma {:induction false} ErrorBound(g: Geometry, disk: Place -> seq<Byte>, w: Work, buf: seq<Byte>,
                                      events: seq<Event>, moves: nat -> bool, m: nat)
    requires Ready(g, disk, w, buf) && CountersOk(w)
    ensures var r := Reading(g, disk, w, buf, events, moves, m);
            && Spent(w) + r.errors <= LAST_ERROR
            && (r.end.Success? ==> Spent(w) + r.errors < LAST_ERROR)
            && (r.end.Failed? && NoFault(events) && AllMove(moves) ==> Spent(w) + r.errors == LAST_ERROR)
    decreases |events|
  {
    hide Partial, Stored, Formatted, Bytes, PlaceOf, Advance;
    AdvanceFits(g, w);
    if events != [] {
      var rest := events[1..];
      assert NoFault(events) ==> NoFault(rest) && !events[0].Fault?;
      match events[0]
      case Fault =>
      case Error(bytes) =>
        var buf1 := Partial(g, w, buf, bytes);
        if w.rw <= RW_RETRIES {
          ErrorBound(g, disk, w.(rw := w.rw + 1), buf1, rest, moves, m);
        } else if w.cal <= CAL_RETRIES {
          ErrorBound(g, disk, w.(rw := 0, cal := w.cal + 1), buf1, rest, moves, m + 2);
        }
      case Good =>
        if w.readblk != w.blocks {
          AdvanceCounters(g, w);
          ErrorBound(g, disk, Advance(g, w), Stored(g, disk, w, buf), rest, moves, m + 1);
        }
    }
  }

  lemma AdvanceCounters(g: Geometry, w: Work)
    requires w.readblk <= w.blocks
    ensures Advance(g, w).rw == w.rw && Advance(g, w).cal == w.cal
  {
  }

  // ---------------------------------------------------------------- when a run gets through

  function Goods(events: seq<Event>): nat {
    if events == [] then 0 else (if events[0].Good? then 1 else 0) + Goods(events[1..])
  }

  function Errors(events: seq<Event>): nat {
    if events == [] then 0 else (if events[0].Error? then 1 else 0) + Errors(events[1..])
  }

  /** The READs still to go well. */
  function Sides(g: Geometry, w: Work): nat
    requires 0 < g.sect && w.readblk <= w.blocks && (0 < w.readblk || w.blocks == 0)
    decreases w.blocks
  {
    if w.readblk == w.blocks then 1 else 1 + Sides(g, Advance(g, w))
  }

  lemma SidesKept(g: Geometry, w: Work, v: Work)
    requires 0 < g.sect && w.readblk <= w.blocks && (0 < w.readblk || w.blocks == 0)
    requires v == w.(rw := v.rw, cal := v.cal)
    ensures Sides(g, v) == Sides(g, w)
    decreases w.blocks
  {
    if w.readblk != w.blocks {
      SidesKept(g, Advance(g, w), Advance(g, v));
    }
  }

  /** At most 24 broken transfers and enough good ones: the run succeeds. */
  lemma {:induction false} GetsThrough(g: Geometry, disk: Place -> seq<Byte>, w: Work, buf: seq<Byte>,
                                       events: seq<Event>, moves: nat -> bool, m: nat)
    requires Ready(g, disk, w, buf) && CountersOk(w) && (0 < w.readblk || w.blocks == 0)
    requires NoFault(events) && AllMove(moves) && Spent(w) + Errors(events) < LAST_ERROR && Sides(g, w) <= Goods(events)
    ensures Reading(g, disk, w, buf, events, moves, m).end.Success?
    decreases |events|
  {
    hide Partial, Stored, Formatted, Bytes, PlaceOf, NoFault;
    AdvanceFits(g, w);
    NoFaultStep(events);
    var rest := events[1..];
    if events[0].Error? {
      var buf1 := Partial(g, w, buf, events[0].bytes);
      var v := if w.rw <= RW_RETRIES then w.(rw := w.rw + 1) else w.(rw := 0, cal := w.cal + 1);
      SidesKept(g, w, v);
      GetsThrough(g, disk, v, buf1, rest, moves, if w.rw <= RW_RETRIES then m else m + 2);
    } else if w.readblk != w.blocks {
      GetsThrough(g, disk, Advance(g, w), Stored(g, disk, w, buf), rest, moves, m + 1);
    }
  }

  lemma NoFaultStep(events: seq<Event>)
    requires NoFault(events)
    ensures events != [] ==> !events[0].Fault? && NoFault(events[1..])
  {
  }

  /**
    fdc_read_data as a whole: every READ stays on one side of one track, success means the buffer
    holds exactly the blocks asked for, and at most 24 transfers have broken off.
   */
  lemma ReadDataOk(g: Geometry, disk: Place -> seq<Byte>, blnr: nat, blocks: nat, buf: seq<Byte>, events: seq<Event>,
                   moves: nat -> bool)
    requires 0 < g.sect && 0 < g.head && 0 < g.sect * g.head && Formatted(g, disk) && Bytes(g, blocks) <= |buf|
    ensures |Blocks(g, disk, blnr, blocks)| == Bytes(g, blocks)
    ensures var r := WholeRun(g, disk, blnr, blocks, buf, events, moves);
            && AllOneSide(g, r.issued)
            && (r.end.Success? ==> r.buf == Blocks(g, disk, blnr, blocks) + buf[Bytes(g, blocks)..] && r.errors <= 24)
            && (r.end.Failed? && NoFault(events) && AllMove(moves) ==> r.errors == 25)
  {
    BlocksSize(g, disk, blnr, blocks);
    if moves(0) {
      var w := Begin(g, blnr, blocks);
      BeginSide(g, blnr, blocks);
      hide Reading, Formatted, Bytes, Blocks, PlaceOf;
      ReadingSides(g, disk, w, buf, events, moves, 1);
      ReadingFills(g, disk, w, buf, events, moves, 1);
      ErrorBound(g, disk, w, buf, events, moves, 1);
      assert Put(buf, 0, Blocks(g, disk, blnr, blocks)) == Blocks(g, disk, blnr, blocks) + buf[Bytes(g, blocks)..];
    }
  }

  // ---------------------------------------------------------------- the command as it runs

  class Controller {
    const g: Geometry
    const disk: Place -> seq<Byte>
    const events: seq<Event>
    const moves: nat -> bool
    /** READs ended and movements made so far. */
    var ended: nat
    var moved: nat
    /** blnr of the command structure. */
    var blnr: nat

    constructor (g: Geometry, disk: Place -> seq<Byte>, events: seq<Event>, moves: nat -> bool, blnr: nat)
      ensures this.g == g && this.disk == disk && this.events == events && this.moves == moves
      ensures ended == 0 && moved == 0 && this.blnr == blnr
    {
      this.g, this.disk, this.events, this.moves := g, disk, events, moves;
      ended, moved, this.blnr := 0, 0, blnr;
    }

    method Fill(buffer: array<Byte>, offset: nat, bytes: seq<Byte>)
      requires offset + |bytes| <= buffer.Length
      modifies buffer
      ensures buffer[..] == Put(old(buffer[..]), offset, bytes)
    {
      var i := 0;
      while i < |bytes|
        invariant i <= |bytes|
        invariant forall j :: 0 <= j < buffer.Length ==>
                  buffer[j] == if offset <= j < offset + i then bytes[j - offset] else old(buffer[j])
      {
        buffer[offset + i] := bytes[i];
        i := i + 1;
      }
    }

    /** fdc_seek or fdc_recalibrate. */
    method Move() returns (ok: bool)
      modifies this`moved
      ensures ok == moves(old(moved)) && moved == old(moved) + 1
    {
      ok := moves(moved);
      moved := moved + 1;
    }

    /** fdc_read_data, for a controller that answers every READ of the run. */
    method ReadData(buffer: array<Byte>, blocks: nat) returns (ok: bool)
      requires 0 < g.sect && 0 < g.head && 0 < g.sect * g.head
      requires Formatted(g, disk) && Bytes(g, blocks) <= buffer.Length
      requires ended == 0 && moved == 0
      requires !WholeRun(g, disk, blnr, blocks, buffer[..], events, moves).end.Waiting?
      modifies this, buffer
      ensures var r := WholeRun(g, disk, old(blnr), blocks, old(buffer[..]), events, moves);
              buffer[..] == r.buf && (ok <==> r.end.Success?)
      ensures ok ==> blnr == old(blnr) + blocks
    {
      hide Formatted, PlaceOf, Transfer, Bytes, Put, Reading;
      ghost var whole := WholeRun(g, disk, blnr, blocks, buffer[..], events, moves);
      var start := blnr;
      ok := Move();
      if !ok {
        return false;
      }
      var left, rw, cal, offset := blocks, 0, 0, 0;
      var readblk := Min(g.sect - blnr % g.sect, blocks);
      assert events[0..] == events;
      while true
        invariant 0 <= rw && 0 <= cal && 0 <= offset && 0 <= left && 0 <= readblk && ended <= |events|
        invariant Ready(g, disk, Work(blnr, left, readblk, offset, rw, cal), buffer[..])
        invariant blnr + left == start + blocks
        invariant SameEnd(whole, Reading(g, disk, Work(blnr, left, readblk, offset, rw, cal),
                                         buffer[..], events[ended..], moves, moved))
        decreases |events| - ended
      {
        ghost var w := Work(blnr, left, readblk, offset, rw, cal);
        ReadingStep(g, disk, w, buffer[..], events[ended..], moves, moved);
        AdvanceFits(g, w);
        var event := events[ended];
        assert events[ended..][1..] == events[ended + 1..];
        ended := ended + 1;
        match event
        case Fault =>
          return false;
        case Error(bytes) =>
          Fill(buffer, offset, bytes[..Min(|bytes|, Bytes(g, readblk))]);
          if rw > RW_RETRIES {
            if cal > CAL_RETRIES {
              return false;
            }
            cal := cal + 1;
            var calibrated := Move();
            if !calibrated {
              return false;
            }
            rw := 0;
            var sought := Move();
            if !sought {
              return false;
            }
          } else {
            rw := rw + 1;
          }
        case Good =>
          TransferSize(g, disk, PlaceOf(g, blnr), readblk);
          Fill(buffer, offset, Transfer(disk, PlaceOf(g, blnr), readblk));
          offset := offset + Bytes(g, readblk);
          blnr := blnr + readblk;
          left := left - readblk;
          if left == 0 {
            return true;
          }
          readblk := Min(g.sect, left);
          var sought := Move();
          if !sought {
            return false;
          }
      }
    }
  }

  predicate SameEnd(a: Run, b: Run) {
    a.end == b.end && a.buf == b.buf
  }

  /** One READ of the run, and that a run that ends has one. */
  lemma ReadingStep(g: Geometry, disk: Place -> seq<Byte>, w: Work, buf: seq<Byte>, events: seq<Event>,
                    moves: nat -> bool, m: nat)
    requires Ready(g, disk, w, buf) && !Reading(g, disk, w, buf, events, moves, m).end.Waiting?
    ensures events != [] && w.offset + Bytes(g, w.readblk) <= |buf|
    ensures var r, rest := Reading(g, disk, w, buf, events, moves, m), events[1..];
            match events[0]
            case Fault => SameEnd(r, Run(Failed, buf, 0, []))
            case Error(bytes) =>
              var buf1 := Partial(g, w, buf, bytes);
              if w.rw <= RW_RETRIES then SameEnd(r, Reading(g, disk, w.(rw := w.rw + 1), buf1, rest, moves, m))
              else if w.cal > CAL_RETRIES || !moves(m) || !moves(m + 1) then SameEnd(r, Run(Failed, buf1, 0, []))
              else SameEnd(r, Reading(g, disk, w.(rw := 0, cal := w.cal + 1), buf1, rest, moves, m + 2))
            case Good =>
              var buf1 := Stored(g, disk, w, buf);
              if w.blocks == w.readblk then SameEnd(r, Run(Success, buf1, 0, []))
              else if !moves(m) then SameEnd(r, Run(Failed, buf1, 0, []))
              else
                && Ready(g, disk, Advance(g, w), buf1)
                && SameEnd(r, Reading(g, disk, Advance(g, w), buf1, rest, moves, m + 1))
  {
    hide Partial, Stored, Formatted, PlaceOf, Bytes;
    AdvanceFits(g, w);
  }
}
