/**
  One Kermit packet sent one or more times: what an intact copy, a copy with a readable sequence
  character (the right one or another), and a copy damaged earlier do to the receiver.
 */
module KermitCopies {
  import opened Words
  import opened KermitCoding
  import opened KermitReceiver
  import opened KermitPackets

  // ---------------------------------------------------------------- what is on the line

  /**
    One time a packet is sent: intact; found bad behind a sequence character that arrives as the
    number `seen`; or found bad up to its sequence character.
   */
  datatype Copy =
    | Good(noise: seq<Byte>, long: bool)
    | Late(noise: seq<Byte>, len: Byte, seen: nat, tail: seq<Byte>)
    | Early(noise: seq<Byte>, head: seq<Byte>, tail: seq<Byte>)

  /** The numbers a printable sequence character can stand for. */
  const NUMBERS: nat := 224

  /** The sequence character arrives as that of another packet. */
  predicate Misnumbered(n: nat, c: Copy) {
    c.Late? && c.seen != n
  }

  datatype Transmission = Transmission(n: nat, packet: Packet, copies: seq<Copy>)

  predicate CopyOk(p: Packet, c: Copy) {
    match c
    case Good(noise, long) => Quiet(noise) && PacketOk(p, long)
    case Late(noise, len, seen, tail) =>
      && Quiet(noise) && Printable(len) && seen < NUMBERS
      && FoundBad(Type(len as nat + ToChar(seen) as nat, UnChar(len) - 1), tail)
    case Early(noise, head, tail) =>
      && Quiet(noise) && Quiet(tail)
      && (if |head| == 1 then !Printable(head[0])
          else |head| == 2 && Printable(head[0]) && !Printable(head[1]))
  }

  function CopyBytes(n: nat, p: Packet, c: Copy): seq<Byte> {
    match c
    case Good(noise, long) => noise + Wire(n, p, long)
    case Late(noise, len, seen, tail) => noise + ([START_CHAR, len, ToChar(seen)] + tail)
    case Early(noise, head, tail) => noise + ([START_CHAR] + head + tail)
  }

  function CopiesBytes(n: nat, p: Packet, copies: seq<Copy>): seq<Byte> {
    if copies == [] then [] else CopyBytes(n, p, copies[0]) + CopiesBytes(n, p, copies[1..])
  }

  /** Copies up to one that arrives intact; the receiver stops at the first intact break packet. */
  predicate CopiesOk(n: nat, p: Packet, copies: seq<Copy>) {
    && n < SEQUENCES
    && (forall i :: 0 <= i < |copies| ==> CopyOk(p, copies[i]))
    && (copies != [] ==> copies[|copies| - 1].Good?)
    && (p.kind == BREAK_TYPE ==> forall i :: 0 <= i < |copies| - 1 ==> !copies[i].Good?)
  }

  /** A packet is sent until a copy arrives intact. */
  predicate TransmissionOk(t: Transmission) {
    t.copies != [] && CopiesOk(t.n, t.packet, t.copies)
  }

  // ---------------------------------------------------------------- what should arrive

  /** The bytes downloaded so far and whether a quote is pending. */
  datatype Received = Received(bytes: seq<Byte>, escape: bool)

  const NOTHING: Received := Received([], false)

  function Apply(quote: Byte, a: Received, p: Packet): Received {
    if p.kind != DATA_TYPE then a
    else
      var u := Unquote(quote, a.escape, p.data);
      Received(a.bytes + u.0, u.1)
  }

  function NextQuote(quote: Byte, p: Packet): Byte {
    if p.kind == SEND_TYPE then LineFrom(Kept([], p.data)).quote else quote
  }

  /** Every packet once and in order. */
  function Ideal(quote: Byte, a: Received, run: seq<Transmission>): Received
    decreases |run|
  {
    if run == [] then a
    else Ideal(NextQuote(quote, run[0].packet), Apply(quote, a, run[0].packet), run[1..])
  }

  // ---------------------------------------------------------------- what does arrive

  /** The packet applied `k` times. */
  function Again(quote: Byte, a: Received, p: Packet, k: nat): Received {
    if k == 0 then a else Apply(quote, Again(quote, a, p, k - 1), p)
  }

  /**
    The first copy makes the receiver fall back to its checkpoint: it is found bad up to its
    sequence character, or that character arrives as the number of the packet before.
   */
  predicate LostBy(lastN: int, t: Transmission) {
    t.copies != [] && (t.copies[0].Early? || (t.copies[0].Late? && t.copies[0].seen == lastN))
  }

  /** How often a misnumbered copy comes right behind an intact one, `applied` telling of the copy before. */
  function Repeats(n: nat, copies: seq<Copy>, applied: bool): nat {
    if copies == [] then 0
    else (if applied && Misnumbered(n, copies[0]) then 1 else 0) + Repeats(n, copies[1..], copies[0].Good?)
  }

  /**
    `base` is the download before the packet received last, `a` the download with it.  A packet
    that is lost starts over from `base`; a packet that is repeated is applied once more each time.
   */
  function Actual(quote: Byte, lastN: int, base: Received, a: Received, run: seq<Transmission>): Received
    decreases |run|
  {
    if run == [] then a
    else
      var t := run[0];
      var from := if LostBy(lastN, t) then base else a;
      var k := Repeats(t.n, t.copies, false);
      Actual(NextQuote(quote, t.packet), t.n,
             Again(quote, from, t.packet, k), Again(quote, from, t.packet, k + 1), run[1..])
  }

  // ---------------------------------------------------------------- one copy

  /** The receiver's download is `a`, its checkpoint is `base`, and memory holds both. */
  predicate Rel(r: Receiver, start: nat, base: Received, a: Received) {
    && r.cur == Download(start + |a.bytes|, a.escape)
    && r.saved == Download(start + |base.bytes|, base.escape)
    && Holds(r.mem, start, a.bytes) && Holds(r.mem, start, base.bytes)
    && |base.bytes| <= |a.bytes|
  }

  lemma RelCheckpoint(r: Receiver, start: nat, base: Received, a: Received, n: nat)
    requires Rel(r, start, base, a)
    ensures var from := if n == r.lastN then base else a;
            var t := Checkpoint(r.(parms := []), n);
            && Rel(t, start, from, from) && t.lastN == n && t.line == r.line && t.parms == []
            && t.phase == r.phase
  {
    hide Holds;
  }

  lemma ApplyRel(r: Receiver, start: nat, from: Received, p: Packet)
    requires Rel(r, start, from, from) && r.parms == []
    ensures var t := Consumed(r, p.kind, p.data);
            && Rel(t, start, from, Apply(r.line.quote, from, p))
            && t.lastN == r.lastN && t.line == r.line
            && (p.kind == SEND_TYPE ==> t.parms == Kept([], p.data))
  {
    hide Unquote, Consumed, Kept;
    if p.kind == DATA_TYPE {
      ConsumedData(r, start, from.bytes, p.data);
      var u := Unquote(r.line.quote, from.escape, p.data);
      HoldsPrefix(Consumed(r, p.kind, p.data).mem, start, from.bytes, u.0);
    } else {
      ConsumedOther(r, p.kind, p.data);
    }
  }

  lemma HoldsPrefix(mem: map<nat, Byte>, start: nat, a: seq<Byte>, b: seq<Byte>)
    requires Holds(mem, start, a + b)
    ensures Holds(mem, start, a)
  {
    forall i | 0 <= i < |a|
      ensures ByteAt(mem, start + i, a[i])
    {
      assert ByteAt(mem, start + i, (a + b)[i]);
    }
  }

  lemma HoldsSame(mem: map<nat, Byte>, later: map<nat, Byte>, start: nat, a: seq<Byte>)
    requires Holds(mem, start, a) && SameBelow(mem, later, start + |a|)
    ensures Holds(later, start, a)
  {
    forall i | 0 <= i < |a|
      ensures ByteAt(later, start + i, a[i])
    {
      assert ByteAt(mem, start + i, a[i]);
    }
  }

  /** An intact copy: the packet is applied to the download at its checkpoint. */
  lemma GoodCopy(r: Receiver, start: nat, base: Received, a: Received, n: nat, p: Packet, c: Copy)
    requires r.phase.Idle? && Rel(r, start, base, a) && n < SEQUENCES && c.Good? && CopyOk(p, c)
    ensures var from := if n == r.lastN then base else a;
            var t := Feed(r, CopyBytes(n, p, c));
            && Rel(t, start, from, Apply(r.line.quote, from, p))
            && t.lastN == n && t.line.quote == NextQuote(r.line.quote, p)
            && t.phase == (if p.kind == BREAK_TYPE then Finished else Idle)
  {
    hide Feed, Consumed, Checkpoint, Rel, Apply, Wire, PacketOk, Quiet;
    FeedAppend(r, c.noise, Wire(n, p, c.long));
    FeedQuiet(r, c.noise);
    FeedGood(r, n, p, c.long);
    var from := if n == r.lastN then base else a;
    var r1 := Checkpoint(r.(parms := []), n);
    RelCheckpoint(r, start, base, a, n);
    ApplyRel(r1, start, from, p);
    var r2 := Consumed(r1, p.kind, p.data);
    AcceptedFrame(r2, p.kind);
    RelFrame(r2, Accepted(r2, p.kind), start, from, Apply(r.line.quote, from, p));
  }

  lemma AcceptedFrame(r: Receiver, kind: Byte)
    ensures var t := Accepted(r, kind);
            && t.cur == r.cur && t.saved == r.saved && t.mem == r.mem && t.lastN == r.lastN
            && t.line == (if kind == SEND_TYPE then LineFrom(r.parms) else r.line)
            && t.phase == (if kind == BREAK_TYPE then Finished else Idle)
  {
    hide LineFrom, ParmReply, Reply;
  }

  lemma RelFrame(r: Receiver, t: Receiver, start: nat, base: Received, a: Received)
    requires Rel(r, start, base, a) && t.cur == r.cur && t.saved == r.saved && t.mem == r.mem
    ensures Rel(t, start, base, a)
  {
    hide Holds;
  }

  /** A copy found bad behind its sequence character leaves the checkpoint that character made or found. */
  lemma LateCopy(r: Receiver, start: nat, base: Received, a: Received, n: nat, p: Packet, c: Copy)
    requires r.phase.Idle? && Rel(r, start, base, a) && c.Late? && CopyOk(p, c)
    ensures var from := if c.seen == r.lastN then base else a;
            var t := Feed(r, CopyBytes(n, p, c));
            t.phase.Idle? && Rel(t, start, from, from) && t.lastN == c.seen && t.line == r.line
  {
    hide Feed, Checkpoint, Quiet, Holds, FoundBad, ToChar, UnChar;
    CharBack(c.seen);
    var head := [START_CHAR, c.len, ToChar(c.seen)];
    FeedAppend(r, c.noise, head + c.tail);
    FeedQuiet(r, c.noise);
    FeedAppend(r, head, c.tail);
    FeedStart(r, c.len, ToChar(c.seen));
    var from := if c.seen == r.lastN then base else a;
    var r1 := Checkpoint(r.(parms := []), c.seen);
    RelCheckpoint(r, start, base, a, c.seen);
    var r2 := r1.(phase := Type(c.len as nat + ToChar(c.seen) as nat, UnChar(c.len) - 1));
    FeedBad(r2, c.tail);
    HoldsSame(r1.mem, Feed(r2, c.tail).mem, start, from.bytes);
  }

  lemma StepEarly(r: Receiver, c: Byte, len: Byte)
    requires !Printable(c)
    ensures Step(r.(phase := Length), c) == Rejected(r)
    ensures Step(r.(phase := Sequence(len, UnChar(len))), c) == Rejected(r)
  {
  }

  lemma FeedEarly(r: Receiver, head: seq<Byte>)
    requires r.phase.Idle?
    requires if |head| == 1 then !Printable(head[0])
             else |head| == 2 && Printable(head[0]) && !Printable(head[1])
    ensures Feed(r, [START_CHAR] + head) == Rejected(r.(parms := []))
  {
    hide Step, UnChar, Rejected;
    var r1 := r.(parms := []);
    StepStart(r);
    FeedCons(r, START_CHAR, head);
    if |head| == 1 {
      assert head == [head[0]];
      FeedOne(r1.(phase := Length), head[0]);
      StepEarly(r1, head[0], 0);
    } else {
      assert head == [head[0]] + [head[1]];
      FeedCons(r1.(phase := Length), head[0], [head[1]]);
      StepLength(r1, head[0]);
      FeedOne(r1.(phase := Sequence(head[0], UnChar(head[0]))), head[1]);
      StepEarly(r1, head[1], head[0]);
    }
  }

  /** A copy damaged earlier falls back to the checkpoint of the packet before. */
  lemma EarlyCopy(r: Receiver, start: nat, base: Received, a: Received, n: nat, p: Packet, c: Copy)
    requires r.phase.Idle? && Rel(r, start, base, a) && c.Early? && CopyOk(p, c)
    ensures var t := Feed(r, CopyBytes(n, p, c));
            t.phase.Idle? && Rel(t, start, base, base) && t.lastN == r.lastN && t.line == r.line
  {
    hide Feed, Quiet, Holds, Reply;
    FeedAppend(r, c.noise, [START_CHAR] + c.head + c.tail);
    FeedQuiet(r, c.noise);
    FeedAppend(r, [START_CHAR] + c.head, c.tail);
    FeedEarly(r, c.head);
    FeedQuiet(Rejected(r.(parms := [])), c.tail);
  }

  // ---------------------------------------------------------------- all copies of a packet

  lemma FeedNothing(r: Receiver)
    ensures Feed(r, []) == r
  {
  }

  lemma CopiesSplit(n: nat, p: Packet, copies: seq<Copy>)
    requires copies != []
    ensures CopiesBytes(n, p, copies) == CopyBytes(n, p, copies[0]) + CopiesBytes(n, p, copies[1..])
  {
    hide CopyBytes;
  }

  /** Whether the parameters of a packet count before or after it makes no difference to the packet. */
  lemma SameApply(quote: Byte, other: Byte, base: Received, p: Packet)
    requires other == quote || other == NextQuote(quote, p)
    ensures Apply(other, base, p) == Apply(quote, base, p) && NextQuote(other, p) == NextQuote(quote, p)
  {
    hide Unquote, LineFrom, Kept;
  }

  lemma CopiesTail(n: nat, p: Packet, copies: seq<Copy>)
    requires CopiesOk(n, p, copies) && copies != []
    ensures CopyOk(p, copies[0]) && CopiesOk(n, p, copies[1..])
    ensures |copies| == 1 ==> copies[0].Good? && copies[1..] == []
    ensures 1 < |copies| && p.kind == BREAK_TYPE ==> !copies[0].Good?
  {
    hide CopyOk;
  }

  lemma AgainStep(quote: Byte, a: Received, p: Packet, k: nat)
    ensures Again(quote, a, p, 0) == a
    ensures Again(quote, a, p, k + 1) == Apply(quote, Again(quote, a, p, k), p)
  {
  }

  /**
    The receiver between two copies of the packet: `from` with the packet applied `k` times is its
    checkpoint, and its download too unless the copy before was intact.
   */
  ghost predicate Between(r: Receiver, start: nat, from: Received, n: nat, p: Packet, quote: Byte, k: nat,
                          applied: bool) {
    && Rel(r, start, Again(quote, from, p, k), Again(quote, from, p, if applied then k + 1 else k))
    && (applied ==> r.lastN == n)
    && (r.line.quote == NextQuote(quote, p) || (!applied && r.line.quote == quote))
  }

  /** One copy moves the receiver on; a misnumbered copy behind an intact one moves the checkpoint behind the packet. */
  lemma NextCopy(r: Receiver, start: nat, from: Received, n: nat, p: Packet, c: Copy, quote: Byte, k: nat,
                 applied: bool)
    requires r.phase.Idle? && Between(r, start, from, n, p, quote, k, applied) && n < SEQUENCES && CopyOk(p, c)
    ensures var t := Feed(r, CopyBytes(n, p, c));
            && Between(t, start, from, n, p, quote, if applied && Misnumbered(n, c) then k + 1 else k, c.Good?)
            && t.phase == (if c.Good? && p.kind == BREAK_TYPE then Finished else Idle)
  {
    hide Feed, Rel, CopyBytes, CopyOk, Apply, NextQuote, Again;
    var base := Again(quote, from, p, k);
    var a := Again(quote, from, p, if applied then k + 1 else k);
    AgainStep(quote, from, p, k);
    SameApply(quote, r.line.quote, base, p);
    match c
    case Good(_, _) => GoodCopy(r, start, base, a, n, p, c);
    case Late(_, _, _, _) => LateCopy(r, start, base, a, n, p, c);
    case Early(_, _, _) => EarlyCopy(r, start, base, a, n, p, c);
  }

  lemma {:induction false} RemainingCopies(r: Receiver, start: nat, from: Received, n: nat, p: Packet,
                                           copies: seq<Copy>, quote: Byte, k: nat, applied: bool)
    requires Between(r, start, from, n, p, quote, k, applied) && CopiesOk(n, p, copies) && (copies == [] ==> applied)
    requires r.phase == if copies == [] && p.kind == BREAK_TYPE then Finished else Idle
    ensures var t := Feed(r, CopiesBytes(n, p, copies));
            && Between(t, start, from, n, p, quote, k + Repeats(n, copies, applied), true)
            && t.phase == (if p.kind == BREAK_TYPE then Finished else Idle)
    decreases |copies|
  {
    hide Feed, Between, CopyBytes, CopiesBytes, CopiesOk;
    if copies == [] {
      NoCopies(n, p);
      FeedNothing(r);
    } else {
      var c := copies[0];
      CopiesTail(n, p, copies);
      CopiesSplit(n, p, copies);
      FeedAppend(r, CopyBytes(n, p, c), CopiesBytes(n, p, copies[1..]));
      assert n < SEQUENCES by { NumberOk(n, p, copies); }
      NextCopy(r, start, from, n, p, c, quote, k, applied);
      RemainingCopies(Feed(r, CopyBytes(n, p, c)), start, from, n, p, copies[1..], quote,
                      if applied && Misnumbered(n, c) then k + 1 else k, c.Good?);
    }
  }

  lemma NoCopies(n: nat, p: Packet)
    ensures CopiesBytes(n, p, []) == []
  {
  }

  lemma NumberOk(n: nat, p: Packet, copies: seq<Copy>)
    requires CopiesOk(n, p, copies)
    ensures n < SEQUENCES
  {
  }

  /** The first copy of a new packet decides where the packet starts. */
  lemma FirstOfNew(r: Receiver, start: nat, base: Received, a: Received, t: Transmission)
    requires r.phase.Idle? && Rel(r, start, base, a) && r.lastN != t.n && TransmissionOk(t)
    ensures var from := if LostBy(r.lastN, t) then base else a;
            var c := t.copies[0];
            var after := Feed(r, CopyBytes(t.n, t.packet, c));
            && Between(after, start, from, t.n, t.packet, r.line.quote, 0, c.Good?)
            && after.phase == (if c.Good? && t.packet.kind == BREAK_TYPE then Finished else Idle)
  {
    hide Feed, Rel, CopyBytes, CopyOk, Apply, NextQuote, Again;
    var c := t.copies[0];
    AgainStep(r.line.quote, if LostBy(r.lastN, t) then base else a, t.packet, 0);
    match c
    case Good(_, _) => GoodCopy(r, start, base, a, t.n, t.packet, c);
    case Late(_, _, _, _) => LateCopy(r, start, base, a, t.n, t.packet, c);
    case Early(_, _, _) => EarlyCopy(r, start, base, a, t.n, t.packet, c);
  }

  /** All copies of a new packet: where it starts, and how often it is applied. */
  lemma NewCopies(r: Receiver, start: nat, base: Received, a: Received, t: Transmission)
    requires r.phase.Idle? && Rel(r, start, base, a) && r.lastN != t.n && TransmissionOk(t)
    ensures var from := if LostBy(r.lastN, t) then base else a;
            var k := Repeats(t.n, t.copies, false);
            var last := Feed(r, CopiesBytes(t.n, t.packet, t.copies));
            && Rel(last, start, Again(r.line.quote, from, t.packet, k), Again(r.line.quote, from, t.packet, k + 1))
            && last.lastN == t.n && last.line.quote == NextQuote(r.line.quote, t.packet)
            && last.phase == (if t.packet.kind == BREAK_TYPE then Finished else Idle)
  {
    hide Feed, Rel, CopyBytes, CopiesBytes, CopyOk, Again, NextQuote;
    var c := t.copies[0];
    var from := if LostBy(r.lastN, t) then base else a;
    CopiesSplit(t.n, t.packet, t.copies);
    FeedAppend(r, CopyBytes(t.n, t.packet, c), CopiesBytes(t.n, t.packet, t.copies[1..]));
    FirstOfNew(r, start, base, a, t);
    CopiesTail(t.n, t.packet, t.copies);
    RemainingCopies(Feed(r, CopyBytes(t.n, t.packet, c)), start, from, t.n, t.packet,
                    t.copies[1..], r.line.quote, 0, c.Good?);
  }
}
