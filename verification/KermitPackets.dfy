/**
  What one packet does to the Kermit receiver: a good one, a bad one, a repeated one.
 */
module KermitPackets {
  import opened Words
  import opened KermitCoding
  import opened KermitReceiver

  datatype Packet = Packet(kind: Byte, data: seq<Byte>)

  /** Sequence numbers count modulo 64. */
  const SEQUENCES: nat := 64

  /** A packet that can be written in the short or in the extended form. */
  predicate PacketOk(p: Packet, long: bool) {
    && Printable(p.kind) && AllPrintable(p.data)
    && (if long then |p.data| + 1 < 95 * 95 else |p.data| + 3 <= 94)
  }

  function ShortHeader(n: nat, p: Packet): seq<Byte> {
    [ToChar(|p.data| + 3), ToChar(n), p.kind]
  }

  function LongHeader(n: nat, p: Packet): seq<Byte> {
    [ToChar(0), ToChar(n), p.kind, ToChar((|p.data| + 1) / 95), ToChar((|p.data| + 1) % 95)]
  }

  /** Everything between START and the data. */
  function Header(n: nat, p: Packet, long: bool): seq<Byte> {
    if long then LongHeader(n, p) + [Check(Sum(LongHeader(n, p)))] else ShortHeader(n, p)
  }

  /** The packet as a sender writes it. */
  function Wire(n: nat, p: Packet, long: bool): seq<Byte> {
    [START_CHAR] + Header(n, p, long) + p.data + [Check(Sum(Header(n, p, long)) + Sum(p.data)), END_CHAR]
  }

  // ---------------------------------------------------------------- reading a good packet

  /** The effect of the data characters, one by one. */
  function Consumed(r: Receiver, kind: Byte, data: seq<Byte>): Receiver
    decreases |data|
  {
    if data == [] then r else Consumed(Taken(r, kind, data[0]), kind, data[1..])
  }

  function Taken(r: Receiver, kind: Byte, c: Byte): Receiver {
    if kind == DATA_TYPE then DataChar(r, c)
    else if kind == SEND_TYPE then r.(parms := StoreParm(r.parms, c))
    else r
  }

  lemma {:induction false} FeedBody(r: Receiver, kind: Byte, sum: nat, data: seq<Byte>)
    requires AllPrintable(data)
    ensures Feed(r.(phase := Body(sum, kind, |data| + 1)), data)
            == Consumed(r, kind, data).(phase := Body(sum + Sum(data), kind, 1))
    decreases |data|
  {
    if data != [] {
      var c := data[0];
      StepBody(r, kind, sum, |data| + 1, c);
      FeedBody(Taken(r, kind, c), kind, sum + c, data[1..]);
      hide Step, Taken;
      assert data == [c] + data[1..];
      FeedCons(r.(phase := Body(sum, kind, |data| + 1)), c, data[1..]);
    }
  }

  lemma StepBody(r: Receiver, kind: Byte, sum: nat, len: int, c: Byte)
    requires Printable(c) && 1 < len
    ensures Step(r.(phase := Body(sum, kind, len)), c) == Taken(r, kind, c).(phase := Body(sum + c, kind, len - 1))
  {
  }

  lemma StepCheck(r: Receiver, kind: Byte, sum: nat)
    ensures Feed(r.(phase := Body(sum, kind, 1)), [Check(sum), END_CHAR]) == Accepted(r, kind)
  {
    var s := [Check(sum), END_CHAR];
    assert s[1..] == [END_CHAR] && s[1..][1..] == [];
    var r1 := r.(phase := Body(sum, kind, 1));
    assert Step(r1, s[0]) == r.(phase := End(kind));
    FeedOne(r.(phase := End(kind)), END_CHAR);
  }

  lemma CharBack(x: nat)
    requires x <= 223
    ensures ToChar(x) == x + 32 && UnChar(ToChar(x)) == x && Printable(ToChar(x))
  {
  }

  lemma StepStart(r: Receiver)
    requires r.phase.Idle?
    ensures Step(r, START_CHAR) == r.(parms := [], phase := Length)
  {
  }

  lemma StepLength(r: Receiver, c: Byte)
    requires Printable(c)
    ensures Step(r.(phase := Length), c) == r.(phase := Sequence(c, UnChar(c)))
  {
    hide UnChar;
  }

  lemma StepSequence(r: Receiver, sum: nat, len: int, c: Byte)
    requires Printable(c)
    ensures Step(r.(phase := Sequence(sum, len)), c) == Checkpoint(r, UnChar(c)).(phase := Type(sum + c, len - 1))
  {
    hide UnChar;
  }

  lemma StepType(r: Receiver, sum: nat, len: int, c: Byte)
    requires Printable(c)
    ensures Step(r.(phase := Type(sum, len)), c)
            == r.(phase := if len == -1 then LenHigh(sum + c, c) else Body(sum + c, c, len - 1))
  {
  }

  /** START, length and sequence number: the checkpoint is made. */
  lemma FeedStart(r: Receiver, len: Byte, seqChar: Byte)
    requires r.phase.Idle? && Printable(len) && Printable(seqChar)
    ensures Feed(r, [START_CHAR, len, seqChar])
            == Checkpoint(r.(parms := []), UnChar(seqChar))
              .(phase := Type(len as nat + seqChar as nat, UnChar(len) - 1))
  {
    hide Step, UnChar, Checkpoint;
    var s := [START_CHAR, len, seqChar];
    assert s[1..] == [len, seqChar] && [len, seqChar][1..] == [seqChar];
    StepStart(r);
    var r1 := r.(parms := []);
    StepLength(r1, len);
    StepSequence(r1, len, UnChar(len), seqChar);
    FeedOne(r1.(phase := Sequence(len, UnChar(len))), seqChar);
  }

  /** ... and the type. */
  lemma FeedType(r: Receiver, len: nat, n: nat, kind: Byte)
    requires r.phase.Idle? && len <= 223 && n <= 223 && Printable(kind)
    ensures var sum := ToChar(len) as nat + ToChar(n) as nat + kind as nat;
            Feed(r, [START_CHAR, ToChar(len), ToChar(n), kind])
            == Checkpoint(r.(parms := []), n)
              .(phase := if len == 0 then LenHigh(sum, kind) else Body(sum, kind, len - 2))
  {
    hide Step, ToChar, UnChar, Checkpoint, Feed;
    CharBack(len);
    CharBack(n);
    FeedStart(r, ToChar(len), ToChar(n));
    var r1 := Checkpoint(r.(parms := []), n);
    StepType(r1, ToChar(len) as nat + ToChar(n) as nat, len - 1, kind);
    var s := [START_CHAR, ToChar(len), ToChar(n)];
    FeedAppend(r, s, [kind]);
    FeedOne(Feed(r, s), kind);
    assert s + [kind] == [START_CHAR, ToChar(len), ToChar(n), kind];
  }

  lemma FeedShortHeader(r: Receiver, n: nat, p: Packet)
    requires r.phase.Idle? && n < SEQUENCES && PacketOk(p, false)
    ensures Feed(r, [START_CHAR] + ShortHeader(n, p))
            == Checkpoint(r.(parms := []), n).(phase := Body(Sum(ShortHeader(n, p)), p.kind, |p.data| + 1))
  {
    hide Feed, Checkpoint, Sum, ToChar;
    var h := ShortHeader(n, p);
    FeedType(r, |p.data| + 3, n, p.kind);
    assert [START_CHAR] + h == [START_CHAR, h[0], h[1], h[2]];
    SumThree(h);
  }

  lemma SumThree(s: seq<Byte>)
    requires |s| == 3
    ensures Sum(s) == s[0] as nat + s[1] as nat + s[2] as nat
  {
    var t := s[1..];
    var u := t[1..];
    assert u[1..] == [] && u[0] == s[2] && t[0] == s[1];
    assert Sum(u) == s[2];
  }

  lemma FeedLongHeader(r: Receiver, n: nat, p: Packet)
    requires r.phase.Idle? && n < SEQUENCES && PacketOk(p, true)
    ensures Feed(r, [START_CHAR] + LongHeader(n, p) + [Check(Sum(LongHeader(n, p)))])
            == Checkpoint(r.(parms := []), n)
               .(phase := Body(Sum(LongHeader(n, p)) + Check(Sum(LongHeader(n, p))), p.kind, |p.data| + 1))
  {
    hide Feed, Checkpoint, Sum, ToChar, UnChar, Check;
    var h := LongHeader(n, p);
    var len := |p.data| + 1;
    var start := [START_CHAR, h[0], h[1], h[2]];
    var r0 := Checkpoint(r.(parms := []), n);
    FeedType(r, 0, n, p.kind);
    SumFive(h);
    var check := Check(Sum(h));
    var sum := h[0] as nat + h[1] as nat + h[2] as nat;
    CharBack(len / 95);
    CharBack(len % 95);
    FeedExtension(r0, p.kind, sum, h[3], h[4], check);
    FeedAppend(r, start, [h[3], h[4], check]);
    LongSplit(h, check);
  }

  lemma LongSplit(h: seq<Byte>, check: Byte)
    requires |h| == 5
    ensures [START_CHAR] + h + [check] == [START_CHAR, h[0], h[1], h[2]] + [h[3], h[4], check]
  {
  }

  lemma SumFive(s: seq<Byte>)
    requires |s| == 5
    ensures Sum(s) == s[0] as nat + s[1] as nat + s[2] as nat + s[3] as nat + s[4] as nat
  {
    SumAppend(s[..3], s[3..]);
    assert s == s[..3] + s[3..];
    SumThree(s[..3]);
    var t := s[3..];
    assert t[1..] == [s[4]] && t[0] == s[3];
    SumOne(s[4]);
  }

  lemma StepExtension(r: Receiver, kind: Byte, sum: nat, c: Byte, high: nat, len: int)
    requires Printable(c)
    ensures Step(r.(phase := LenHigh(sum, kind)), c) == r.(phase := LenLow(sum + c, kind, UnChar(c)))
    ensures Step(r.(phase := LenLow(sum, kind, high)), c)
            == r.(phase := HeaderCheck(sum + c, kind, high * 95 + UnChar(c)))
    ensures c == Check(sum) ==>
            Step(r.(phase := HeaderCheck(sum, kind, len)), c) == r.(phase := Body(sum + c, kind, len))
  {
    hide UnChar, Check;
  }

  lemma FeedExtension(r: Receiver, kind: Byte, sum: nat, hi: Byte, lo: Byte, check: Byte)
    requires Printable(hi) && Printable(lo) && check == Check(sum + hi + lo)
    ensures Feed(r.(phase := LenHigh(sum, kind)), [hi, lo, check])
            == r.(phase := Body(sum + hi + lo + check, kind, UnChar(hi) * 95 + UnChar(lo)))
  {
    hide Step, UnChar;
    assert Printable(check);
    hide Check;
    var s := [hi, lo, check];
    assert s[1..] == [lo, check] && [lo, check][1..] == [check];
    var len := UnChar(hi) * 95 + UnChar(lo);
    StepExtension(r, kind, sum, hi, 0, 0);
    StepExtension(r, kind, sum + hi, lo, UnChar(hi), 0);
    StepExtension(r, kind, sum + hi + lo, check, 0, len);
    FeedOne(r.(phase := HeaderCheck(sum + hi + lo, kind, len)), check);
  }

  lemma FeedHeader(r: Receiver, n: nat, p: Packet, long: bool)
    requires r.phase.Idle? && n < SEQUENCES && PacketOk(p, long)
    ensures Feed(r, [START_CHAR] + Header(n, p, long))
            == Checkpoint(r.(parms := []), n).(phase := Body(Sum(Header(n, p, long)), p.kind, |p.data| + 1))
  {
    hide Checkpoint, Feed;
    if long {
      FeedLongHeader(r, n, p);
      var h := LongHeader(n, p);
      SumAppend(h, [Check(Sum(h))]);
      SumOne(Check(Sum(h)));
      Assoc([START_CHAR], h, [Check(Sum(h))]);
    } else {
      FeedShortHeader(r, n, p);
    }
  }

  lemma SumOne(c: Byte)
    ensures Sum([c]) == c
  {
    assert [c][1..] == [];
  }

  /** A good packet: checkpoint or restore, then its data, then the acknowledge. */
  lemma FeedGood(r: Receiver, n: nat, p: Packet, long: bool)
    requires r.phase.Idle? && n < SEQUENCES && PacketOk(p, long)
    ensures Feed(r, Wire(n, p, long)) == Accepted(Consumed(Checkpoint(r.(parms := []), n), p.kind, p.data), p.kind)
  {
    hide Feed, Header, Checkpoint, Consumed, Accepted, Check;
    var head := [START_CHAR] + Header(n, p, long);
    var sum := Sum(Header(n, p, long));
    var tail := [Check(sum + Sum(p.data)), END_CHAR];
    FeedHeader(r, n, p, long);
    FeedAppend(r, head, p.data);
    FeedBody(Checkpoint(r.(parms := []), n), p.kind, sum, p.data);
    FeedAppend(r, head + p.data, tail);
    StepCheck(Consumed(Checkpoint(r.(parms := []), n), p.kind, p.data), p.kind, sum + Sum(p.data));
  }

  // ---------------------------------------------------------------- what data leaves in memory

  predicate Holds(mem: map<nat, Byte>, start: nat, bytes: seq<Byte>) {
    forall i :: 0 <= i < |bytes| ==> ByteAt(mem, start + i, bytes[i])
  }

  predicate ByteAt(mem: map<nat, Byte>, a: nat, b: Byte) {
    a in mem && mem[a] == b
  }

  /** Memory below `limit` is as it was. */
  predicate SameBelow(mem: map<nat, Byte>, later: map<nat, Byte>, limit: nat) {
    forall a: nat :: a < limit && a in mem ==> a in later && later[a] == mem[a]
  }

  /** Only the download changes while data arrives. */
  predicate SameButData(r: Receiver, t: Receiver) {
    t == r.(cur := t.cur, mem := t.mem)
  }

  lemma {:induction false} ConsumedData(r: Receiver, start: nat, out: seq<Byte>, data: seq<Byte>)
    requires r.cur.addr == start + |out| && Holds(r.mem, start, out)
    ensures var t := Consumed(r, DATA_TYPE, data);
            var u := Unquote(r.line.quote, r.cur.escape, data);
            && SameButData(r, t)
            && t.cur == Download(start + |out + u.0|, u.1)
            && Holds(t.mem, start, out + u.0)
    decreases |data|
  {
    if data == [] {
      assert out + [] == out;
    } else {
      var c := data[0];
      var r1 := DataChar(r, c);
      if r.cur.escape || c != r.line.quote {
        var b := if r.cur.escape then KTrans(c) else c;
        HoldsOne(r.mem, start, out, b);
        ConsumedData(r1, start, out + [b], data[1..]);
        Assoc(out, [b], Unquote(r.line.quote, false, data[1..]).0);
      } else {
        ConsumedData(r1, start, out, data[1..]);
      }
    }
  }

  lemma HoldsOne(mem: map<nat, Byte>, start: nat, out: seq<Byte>, b: Byte)
    requires Holds(mem, start, out)
    ensures Holds(mem[start + |out| := b], start, out + [b])
  {
    var later, longer := mem[start + |out| := b], out + [b];
    forall i | 0 <= i < |longer|
      ensures ByteAt(later, start + i, longer[i])
    {
      if i < |out| {
        assert ByteAt(mem, start + i, out[i]);
      }
    }
  }

  lemma {:induction false} ConsumedOther(r: Receiver, kind: Byte, data: seq<Byte>)
    requires kind != DATA_TYPE
    ensures var t := Consumed(r, kind, data);
            && t == r.(parms := t.parms)
            && (kind == SEND_TYPE ==> t.parms == Kept(r.parms, data))
    decreases |data|
  {
    if data != [] {
      ConsumedOther(Taken(r, kind, data[0]), kind, data[1..]);
    }
  }

  /** The parameters that a send-initiate packet leaves in the buffer. */
  function Kept(parms: seq<Byte>, data: seq<Byte>): seq<Byte>
    decreases |data|
  {
    if data == [] then parms else Kept(StoreParm(parms, data[0]), data[1..])
  }

  // ---------------------------------------------------------------- bad packets

  /** Characters that do not start or interrupt anything. */
  predicate Quiet(s: seq<Byte>) {
    forall i :: 0 <= i < |s| ==> s[i] != START_CHAR && s[i] != ETX_CHAR
  }

  lemma {:induction false} FeedQuiet(r: Receiver, s: seq<Byte>)
    requires r.phase.Idle? && Quiet(s)
    ensures Feed(r, s) == r
    decreases |s|
  {
    if s != [] {
      FeedQuiet(r, s[1..]);
    }
  }

  /** The rest of a packet is found bad at one of its characters; what is left of it is quiet. */
  predicate FoundBad(phase: Phase, s: seq<Byte>)
    requires Reading(phase)
    decreases |s|
  {
    && s != []
    && match Control(phase, s[0])
       case Reject => Quiet(s[1..])
       case Accept(_) => false
       case Go(next) => Reading(next) && FoundBad(next, s[1..])
  }

  /** The phases behind the sequence number. */
  predicate PastSequence(phase: Phase) {
    Reading(phase) && !phase.Length? && !phase.Sequence?
  }

  /** A bad packet ends where it began: at its checkpoint, with memory below it untouched. */
  lemma {:induction false} FeedBad(r: Receiver, s: seq<Byte>)
    requires PastSequence(r.phase) && FoundBad(r.phase, s) && r.saved.addr <= r.cur.addr
    ensures var t := Feed(r, s);
            && t.phase.Idle? && t.cur == r.saved && t.saved == r.saved
            && t.lastN == r.lastN && t.line == r.line
            && SameBelow(r.mem, t.mem, r.saved.addr)
    decreases |s|
  {
    match Control(r.phase, s[0])
    case Reject =>
      FeedQuiet(Step(r, s[0]), s[1..]);
    case Go(next) =>
      StepBadEffect(r, s[0]);
      FeedBad(Step(r, s[0]), s[1..]);
  }

  lemma StepBadEffect(r: Receiver, c: Byte)
    requires PastSequence(r.phase) && Control(r.phase, c).Go? && r.saved.addr <= r.cur.addr
    ensures var t := Step(r, c);
            && PastSequence(t.phase) && t.saved == r.saved && t.saved.addr <= t.cur.addr
            && t.lastN == r.lastN && t.line == r.line
            && SameBelow(r.mem, t.mem, r.saved.addr)
  {
  }
}
