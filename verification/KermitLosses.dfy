/**
  Which packets a Kermit transfer loses and which it repeats, and exactly when it is transparent.
 */
module KermitLosses {
  import opened Words
  import opened KermitCoding
  import opened KermitReceiver
  import opened KermitPackets
  import opened KermitCopies
  import opened KermitRuns

  // ---------------------------------------------------------------- how often a packet counts

  /** The bytes a packet brings when no quote is pending. */
  function Decoded(quote: Byte, p: Packet): seq<Byte> {
    if p.kind == DATA_TYPE then Unquote(quote, false, p.data).0 else []
  }

  /** No quote is left pending at the end of a packet: senders do not split quoted characters. */
  predicate Whole(quote: Byte, run: seq<Transmission>) {
    forall i :: 0 <= i < |run| && run[i].packet.kind == DATA_TYPE ==> !Unquote(quote, false, run[i].packet.data).1
  }

  /**
    How often packet `i` is in the download at the end: once, once more for every misnumbered copy
    right behind an intact one, and once less if the first copy of the next packet falls back.
   */
  function Times(run: seq<Transmission>, i: nat): nat
    requires i < |run|
  {
    1 + Repeats(run[i].n, run[i].copies, false)
    - (if i + 1 < |run| && LostBy(run[i].n, run[i + 1]) then 1 else 0)
  }

  function Copied(bytes: seq<Byte>, k: nat): seq<Byte> {
    if k == 0 then [] else Copied(bytes, k - 1) + bytes
  }

  /** Every packet as often as it counts. */
  function Delivered(quote: Byte, run: seq<Transmission>): seq<Byte> {
    if run == [] then [] else Copied(Decoded(quote, run[0].packet), Times(run, 0)) + Delivered(quote, run[1..])
  }

  /** Every packet once. */
  function Sent(quote: Byte, run: seq<Transmission>): seq<Byte> {
    if run == [] then [] else Decoded(quote, run[0].packet) + Sent(quote, run[1..])
  }

  lemma ApplyWhole(quote: Byte, a: Received, run: seq<Transmission>)
    requires run != [] && Whole(quote, run) && !a.escape
    ensures Apply(quote, a, run[0].packet) == Received(a.bytes + Decoded(quote, run[0].packet), false)
    ensures Whole(quote, run[1..])
  {
    hide Unquote;
    assert run[0].packet.kind != DATA_TYPE ==> a.bytes + [] == a.bytes;
  }

  lemma {:induction false} AgainWhole(quote: Byte, a: Received, run: seq<Transmission>, k: nat)
    requires run != [] && Whole(quote, run) && !a.escape
    ensures Again(quote, a, run[0].packet, k) == Received(a.bytes + Copied(Decoded(quote, run[0].packet), k), false)
    decreases k
  {
    hide Apply, Decoded, Whole;
    if k == 0 {
      assert a.bytes + [] == a.bytes;
    } else {
      AgainWhole(quote, a, run, k - 1);
      ApplyWhole(quote, Again(quote, a, run[0].packet, k - 1), run);
      Assoc(a.bytes, Copied(Decoded(quote, run[0].packet), k - 1), Decoded(quote, run[0].packet));
    }
  }

  /** The download at the end: what a packet that is lost falls back to, and every packet as often as it counts. */
  lemma {:induction false} ActualDelivered(quote: Byte, lastN: int, base: Received, a: Received, run: seq<Transmission>)
    requires run != [] && NoParameters(run) && Whole(quote, run) && !base.escape && !a.escape
    ensures Actual(quote, lastN, base, a, run).bytes
            == (if LostBy(lastN, run[0]) then base else a).bytes + Delivered(quote, run)
    decreases |run|
  {
    hide Apply, Again, Decoded, Whole, LostBy, Repeats, Copied;
    var t, rest := run[0], run[1..];
    assert t.packet.kind != SEND_TYPE;
    var from := if LostBy(lastN, t) then base else a;
    var k := Repeats(t.n, t.copies, false);
    var d := Decoded(quote, t.packet);
    AgainWhole(quote, from, run, k);
    AgainWhole(quote, from, run, k + 1);
    ApplyWhole(quote, from, run);
    if rest == [] {
      assert Copied(d, k + 1) + [] == Copied(d, k + 1);
    } else {
      var base1, a1 := Again(quote, from, t.packet, k), Again(quote, from, t.packet, k + 1);
      ActualDelivered(quote, t.n, base1, a1, rest);
      Assoc(from.bytes, Copied(d, Times(run, 0)), Delivered(quote, rest));
    }
  }

  lemma {:induction false} IdealSent(quote: Byte, a: Received, run: seq<Transmission>)
    requires NoParameters(run) && Whole(quote, run) && !a.escape
    ensures Ideal(quote, a, run).bytes == a.bytes + Sent(quote, run)
    decreases |run|
  {
    hide Apply, Decoded, Whole;
    if run == [] {
      assert a.bytes + [] == a.bytes;
    } else {
      ApplyWhole(quote, a, run);
      assert run[0].packet.kind != SEND_TYPE;
      IdealSent(quote, Apply(quote, a, run[0].packet), run[1..]);
      Assoc(a.bytes, Decoded(quote, run[0].packet), Sent(quote, run[1..]));
    }
  }

  // ---------------------------------------------------------------- transfers

  /** The control prefix the data is sent with: that of the first packet, if it is a send-initiate packet. */
  function PrefixOf(run: seq<Transmission>): Byte {
    if run == [] then K_ESCAPE else NextQuote(K_ESCAPE, run[0].packet)
  }

  /** A transfer that agrees on parameters with its first packet, if at all. */
  predicate Transfer(run: seq<Transmission>) {
    RunOk(-1, run) && NoParameters(run[1..]) && Whole(PrefixOf(run), run)
  }

  lemma OpeningApplied(a: Received, p: Packet, k: nat)
    requires p.kind == SEND_TYPE
    ensures Again(K_ESCAPE, a, p, k) == a
    decreases k
  {
    if k != 0 {
      OpeningApplied(a, p, k - 1);
    }
  }

  lemma {:induction false} CopiedNothing(k: nat)
    ensures Copied([], k) == []
    decreases k
  {
    if k != 0 {
      CopiedNothing(k - 1);
    }
  }

  lemma Prepend(s: seq<Byte>)
    ensures [] + s == s
  {
  }

  lemma AfterOpening(run: seq<Transmission>)
    requires run != [] && run[1..] != [] && run[0].packet.kind == SEND_TYPE
    requires NoParameters(run[1..]) && Whole(PrefixOf(run), run)
    ensures Actual(K_ESCAPE, -1, NOTHING, NOTHING, run).bytes == Delivered(PrefixOf(run), run)
    ensures Ideal(K_ESCAPE, NOTHING, run).bytes == Sent(PrefixOf(run), run)
  {
    var t, rest, quote := run[0], run[1..], PrefixOf(run);
    assert Whole(quote, rest);
    hide Again, Delivered, Sent, LostBy, Repeats, NextQuote, Unquote, Whole, NoParameters;
    var k := Repeats(t.n, t.copies, false);
    OpeningApplied(NOTHING, t.packet, k);
    OpeningApplied(NOTHING, t.packet, k + 1);
    assert Actual(K_ESCAPE, -1, NOTHING, NOTHING, run) == Actual(quote, t.n, NOTHING, NOTHING, rest);
    IdealAfterParameters(run);
    hide Actual, Ideal;
    ActualDelivered(quote, t.n, NOTHING, NOTHING, rest);
    IdealSent(quote, NOTHING, rest);
    OpeningBringsNothing(quote, run);
    Prepend(Delivered(quote, rest));
    Prepend(Sent(quote, rest));
  }

  lemma StartsWithNothing(run: seq<Transmission>)
    requires Transfer(run)
    ensures Actual(K_ESCAPE, -1, NOTHING, NOTHING, run).bytes == Delivered(PrefixOf(run), run)
    ensures Ideal(K_ESCAPE, NOTHING, run).bytes == Sent(PrefixOf(run), run)
  {
    SomeRun(run);
    hide RunOk, Actual, Ideal, Delivered, Sent, LostBy, Whole;
    if run[0].packet.kind == SEND_TYPE {
      AfterOpening(run);
    } else {
      PlainPrefix(run);
      assert NoParameters(run);
      ActualDelivered(K_ESCAPE, -1, NOTHING, NOTHING, run);
      IdealSent(K_ESCAPE, NOTHING, run);
      Prepend(Delivered(K_ESCAPE, run));
      Prepend(Sent(K_ESCAPE, run));
    }
  }

  lemma SomeRun(run: seq<Transmission>)
    requires RunOk(-1, run)
    ensures run != [] && (run[0].packet.kind == SEND_TYPE ==> run[1..] != [])
  {
  }

  lemma PlainPrefix(run: seq<Transmission>)
    requires run != [] && run[0].packet.kind != SEND_TYPE
    ensures PrefixOf(run) == K_ESCAPE
  {
  }

  lemma OpeningBringsNothing(quote: Byte, run: seq<Transmission>)
    requires run != [] && run[0].packet.kind == SEND_TYPE
    ensures Delivered(quote, run) == Delivered(quote, run[1..]) && Sent(quote, run) == Sent(quote, run[1..])
  {
    CopiedNothing(Times(run, 0));
    hide Times;
    assert [] + Delivered(quote, run[1..]) == Delivered(quote, run[1..]);
    assert [] + Sent(quote, run[1..]) == Sent(quote, run[1..]);
  }

  /** What a transfer leaves: every packet in order, each as often as it counts. */
  lemma EachAsOftenAsItCounts(start: nat, mem: map<nat, Byte>, run: seq<Transmission>)
    requires Transfer(run)
    ensures Loaded(start, Feed(Begin(start, mem), Stream(run)), Delivered(PrefixOf(run), run))
    ensures Ideal(K_ESCAPE, NOTHING, run).bytes == Sent(PrefixOf(run), run)
  {
    hide Feed, Actual, Delivered, Sent, Ideal, RunOk, Loaded;
    WhatArrives(start, mem, run);
    StartsWithNothing(run);
  }

  // ---------------------------------------------------------------- exactly when a transfer is transparent

  /** Every packet that brings bytes counts once. */
  predicate EachOnce(quote: Byte, run: seq<Transmission>) {
    forall i :: 0 <= i < |run| && Decoded(quote, run[i].packet) != [] ==> Times(run, i) == 1
  }

  predicate NoneTwice(quote: Byte, run: seq<Transmission>) {
    forall i :: 0 <= i < |run| && Decoded(quote, run[i].packet) != [] ==> Times(run, i) <= 1
  }

  predicate NoneLost(quote: Byte, run: seq<Transmission>) {
    forall i :: 0 <= i < |run| && Decoded(quote, run[i].packet) != [] ==> 1 <= Times(run, i)
  }

  lemma {:induction false} CopiedLength(bytes: seq<Byte>, k: nat)
    ensures k == 0 || bytes == [] ==> Copied(bytes, k) == []
    ensures k == 1 ==> Copied(bytes, k) == bytes
    ensures 1 <= k ==> |bytes| <= |Copied(bytes, k)|
    ensures 2 <= k && bytes != [] ==> |bytes| < |Copied(bytes, k)|
    decreases k
  {
    if k != 0 {
      CopiedLength(bytes, k - 1);
    }
  }

  lemma TimesTail(run: seq<Transmission>, i: nat)
    requires i + 1 < |run|
    ensures Times(run[1..], i) == Times(run, i + 1)
  {
    hide Repeats, LostBy;
  }

  lemma TailOnce(quote: Byte, run: seq<Transmission>)
    requires run != []
    ensures EachOnce(quote, run)
            <==> (Decoded(quote, run[0].packet) != [] ==> Times(run, 0) == 1) && EachOnce(quote, run[1..])
    ensures NoneTwice(quote, run) ==> NoneTwice(quote, run[1..])
    ensures NoneLost(quote, run) ==> NoneLost(quote, run[1..])
  {
    hide Times, Decoded;
    forall i | 0 <= i < |run| - 1
      ensures Times(run[1..], i) == Times(run, i + 1) && run[1..][i] == run[i + 1]
    {
      TimesTail(run, i);
    }
    if EachOnce(quote, run[1..]) && (Decoded(quote, run[0].packet) != [] ==> Times(run, 0) == 1) {
      forall i | 0 <= i < |run| && Decoded(quote, run[i].packet) != []
        ensures Times(run, i) == 1
      {
        if 0 < i {
          assert run[1..][i - 1] == run[i];
        }
      }
    }
  }

  lemma {:induction false} OnceIsSent(quote: Byte, run: seq<Transmission>)
    requires EachOnce(quote, run)
    ensures Delivered(quote, run) == Sent(quote, run)
    decreases |run|
  {
    hide Times, Decoded, EachOnce, Copied;
    if run != [] {
      TailOnce(quote, run);
      CopiedLength(Decoded(quote, run[0].packet), Times(run, 0));
      OnceIsSent(quote, run[1..]);
    }
  }

  /** With losses only the download is shorter, with repetitions only it is longer, unless every packet counts once. */
  lemma {:induction false} LengthTells(quote: Byte, run: seq<Transmission>)
    ensures var got, sent := |Delivered(quote, run)|, |Sent(quote, run)|;
            && (NoneTwice(quote, run) ==> got <= sent && (got == sent ==> EachOnce(quote, run)))
            && (NoneLost(quote, run) ==> sent <= got && (got == sent ==> EachOnce(quote, run)))
    decreases |run|
  {
    hide Times, Decoded, Copied;
    if run != [] {
      TailOnce(quote, run);
      CopiedLength(Decoded(quote, run[0].packet), Times(run, 0));
      LengthTells(quote, run[1..]);
      hide EachOnce;
    }
  }

  lemma LoadedOnce(start: nat, r: Receiver, x: seq<Byte>, y: seq<Byte>)
    requires Loaded(start, r, x)
    ensures Loaded(start, r, y) <==> x == y
  {
    if Loaded(start, r, y) {
      forall i | 0 <= i < |x|
        ensures x[i] == y[i]
      {
        assert ByteAt(r.mem, start + i, x[i]) && ByteAt(r.mem, start + i, y[i]);
      }
    }
  }

  /** The file is in memory as it was sent. */
  predicate Exact(start: nat, mem: map<nat, Byte>, run: seq<Transmission>) {
    Loaded(start, Feed(Begin(start, mem), Stream(run)), Ideal(K_ESCAPE, NOTHING, run).bytes)
  }

  /**
    A transfer is exact if every packet that brings bytes counts once, and only then, as long as it
    does not both lose packets and repeat packets: then equal bytes can stand in for each other.
   */
  lemma TransparentIff(start: nat, mem: map<nat, Byte>, run: seq<Transmission>)
    requires Transfer(run)
    ensures var quote := PrefixOf(run);
            && (EachOnce(quote, run) ==> Exact(start, mem, run))
            && (NoneTwice(quote, run) || NoneLost(quote, run) ==> (Exact(start, mem, run) <==> EachOnce(quote, run)))
  {
    hide Feed, Loaded, Delivered, Sent, Ideal, RunOk, EachOnce, NoneTwice, NoneLost;
    var quote := PrefixOf(run);
    var r := Feed(Begin(start, mem), Stream(run));
    EachAsOftenAsItCounts(start, mem, run);
    LoadedOnce(start, r, Delivered(quote, run), Sent(quote, run));
    LengthTells(quote, run);
    if EachOnce(quote, run) {
      OnceIsSent(quote, run);
    }
  }

  predicate NoneMisnumbered(run: seq<Transmission>) {
    forall i :: 0 <= i < |run| ==> forall j :: 0 <= j < |run[i].copies| ==> !Misnumbered(run[i].n, run[i].copies[j])
  }

  /** No packet that brings bytes is followed by one that makes the receiver fall back. */
  predicate NothingLost(quote: Byte, run: seq<Transmission>) {
    forall i :: 0 <= i < |run| - 1 && Decoded(quote, run[i].packet) != [] ==> !LostBy(run[i].n, run[i + 1])
  }

  /** While sequence characters that arrive are the right ones, a transfer is exact if and only if nothing is lost. */
  lemma NumberedIff(start: nat, mem: map<nat, Byte>, run: seq<Transmission>)
    requires Transfer(run) && NoneMisnumbered(run)
    ensures Exact(start, mem, run) <==> NothingLost(PrefixOf(run), run)
  {
    hide Exact, Transfer, LostBy, Repeats, Decoded, PrefixOf;
    var quote := PrefixOf(run);
    forall i | 0 <= i < |run|
      ensures Times(run, i) == if i + 1 < |run| && LostBy(run[i].n, run[i + 1]) then 0 else 1
    {
      IntactRepeats(run[i].n, run[i].copies, false);
    }
    hide Times;
    assert NoneTwice(quote, run);
    assert EachOnce(quote, run) <==> NothingLost(quote, run);
    TransparentIff(start, mem, run);
  }

  // ---------------------------------------------------------------- damage that is harmless whatever is sent

  /** The same numbers, kinds and copies; only the data differs. */
  predicate SameDamage(run: seq<Transmission>, other: seq<Transmission>) {
    && |run| == |other|
    && forall i :: 0 <= i < |run| ==>
         && other[i].n == run[i].n && other[i].copies == run[i].copies && other[i].packet.kind == run[i].packet.kind
         && (run[i].packet.kind != DATA_TYPE ==> other[i].packet == run[i].packet)
  }

  ghost predicate Harmless(start: nat, mem: map<nat, Byte>, run: seq<Transmission>) {
    forall other :: SameDamage(run, other) && Transfer(other) ==> Exact(start, mem, other)
  }

  /** Every data packet counts once. */
  predicate DataOnce(run: seq<Transmission>) {
    forall i :: 0 <= i < |run| && run[i].packet.kind == DATA_TYPE ==> Times(run, i) == 1
  }

  lemma SameTimes(run: seq<Transmission>, other: seq<Transmission>, i: nat)
    requires SameDamage(run, other) && i < |run|
    ensures Times(other, i) == Times(run, i)
  {
    hide Repeats;
    if i + 1 < |run| {
      assert other[i + 1].copies == run[i + 1].copies;
    }
  }

  /** One byte in packet `k`, no data elsewhere. */
  function OneByte(run: seq<Transmission>, k: nat, b: Byte): seq<Transmission> {
    seq(|run|, i requires 0 <= i < |run| =>
      if run[i].packet.kind != DATA_TYPE then run[i]
      else run[i].(packet := Packet(DATA_TYPE, if i == k then [b] else [])))
  }

  predicate SmallData(run: seq<Transmission>) {
    forall i :: 0 <= i < |run| && run[i].packet.kind == DATA_TYPE ==>
      |run[i].packet.data| <= 1 && AllPrintable(run[i].packet.data)
  }

  lemma SmallTransmission(t: Transmission, u: Transmission)
    requires TransmissionOk(t) && SameDamage([t], [u]) && SmallData([u])
    ensures TransmissionOk(u)
  {
    assert [u][0] == u && [t][0] == t;
    forall i | 0 <= i < |u.copies|
      ensures CopyOk(u.packet, u.copies[i])
    {
      assert CopyOk(t.packet, t.copies[i]);
    }
  }

  lemma {:induction false} SmallRun(lastN: int, run: seq<Transmission>, other: seq<Transmission>)
    requires RunOk(lastN, run) && SameDamage(run, other) && SmallData(other)
    ensures RunOk(lastN, other)
    decreases |run|
  {
    assert [run[0]][0] == run[0] && [other[0]][0] == other[0];
    SmallTransmission(run[0], other[0]);
    hide TransmissionOk;
    if |run| != 1 {
      assert SameDamage(run[1..], other[1..]) && SmallData(other[1..]);
      SmallRun(run[0].n, run[1..], other[1..]);
    }
  }

  lemma OneByteDecodes(quote: Byte, b: Byte)
    requires b != quote
    ensures Unquote(quote, false, [b]) == ([b], false) && Unquote(quote, false, []) == ([], false)
  {
    assert [b][1..] == [] && [b] + [] == [b];
  }

  /** A transfer with the same damage in which packet `k` alone brings a byte. */
  lemma OneByteTransfer(run: seq<Transmission>, k: nat) returns (other: seq<Transmission>)
    requires RunOk(-1, run) && NoParameters(run[1..]) && k < |run| && run[k].packet.kind == DATA_TYPE
    ensures SameDamage(run, other) && Transfer(other)
    ensures forall i :: 0 <= i < |run| ==> (Decoded(PrefixOf(other), other[i].packet) != [] <==> i == k)
  {
    var b: Byte := if PrefixOf(run) == 65 then 66 else 65;
    other := OneByte(run, k, b);
    SmallRun(-1, run, other);
    SomeRun(run);
    hide RunOk, NextQuote, Unquote;
    assert other[0].packet.kind == run[0].packet.kind;
    SamePrefix(run, other);
    OneByteDecodes(PrefixOf(run), b);
    assert NoParameters(other[1..]) by {
      forall i | 0 <= i < |other[1..]|
        ensures other[1..][i].packet.kind != SEND_TYPE
      {
        assert other[1..][i] == other[i + 1] && run[1..][i] == run[i + 1];
      }
    }
  }

  lemma SamePrefix(run: seq<Transmission>, other: seq<Transmission>)
    requires SameDamage(run, other) && run != []
    ensures PrefixOf(other) == PrefixOf(run)
  {
    hide LineFrom, Kept;
    assert other[0].packet.kind == run[0].packet.kind;
  }

  /** Damage never shows, whatever data is sent, if and only if it makes every data packet count once. */
  lemma HarmlessIff(start: nat, mem: map<nat, Byte>, run: seq<Transmission>)
    requires RunOk(-1, run) && NoParameters(run[1..])
    ensures Harmless(start, mem, run) <==> DataOnce(run)
  {
    hide Exact, Transfer, Times, RunOk, PrefixOf;
    if DataOnce(run) {
      forall other: seq<Transmission> | SameDamage(run, other) && Transfer(other)
        ensures Exact(start, mem, other)
      {
        forall i | 0 <= i < |other| && Decoded(PrefixOf(other), other[i].packet) != []
          ensures Times(other, i) == 1
        {
          SameTimes(run, other, i);
        }
        TransparentIff(start, mem, other);
      }
    } else {
      var k :| 0 <= k < |run| && run[k].packet.kind == DATA_TYPE && Times(run, k) != 1;
      var other := OneByteTransfer(run, k);
      hide Decoded;
      SameTimes(run, other, k);
      var quote := PrefixOf(other);
      assert !EachOnce(quote, other);
      assert NoneTwice(quote, other) || NoneLost(quote, other);
      TransparentIff(start, mem, other);
    }
  }
}
