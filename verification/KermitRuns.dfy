/**
  Whole Kermit transfers: every packet is sent one or more times, copies may be damaged, and memory
  ends up with every packet as often as the damage makes the receiver apply it.  A packet is lost
  when the first copy of the next one is found bad up to its sequence character or bears the number
  of the packet before; it is repeated when a misnumbered copy comes right behind an intact one.
 */
module KermitRuns {
  import opened Words
  import opened KermitCoding
  import opened KermitReceiver
  import opened KermitPackets
  import opened KermitCopies

  // ---------------------------------------------------------------- whole transfers

  function Stream(run: seq<Transmission>): seq<Byte> {
    if run == [] then [] else CopiesBytes(run[0].n, run[0].packet, run[0].copies) + Stream(run[1..])
  }

  /** Packets follow each other with changing sequence numbers; a break packet, and only that, ends the run. */
  predicate RunOk(lastN: int, run: seq<Transmission>)
    decreases |run|
  {
    && run != [] && TransmissionOk(run[0]) && run[0].n != lastN
    && (if |run| == 1 then run[0].packet.kind == BREAK_TYPE
        else run[0].packet.kind != BREAK_TYPE && RunOk(run[0].n, run[1..]))
  }

  lemma {:induction false} RunFrom(r: Receiver, start: nat, base: Received, a: Received, run: seq<Transmission>)
    requires r.phase.Idle? && Rel(r, start, base, a) && RunOk(r.lastN, run)
    ensures var last := Feed(r, Stream(run));
            var got := Actual(r.line.quote, r.lastN, base, a, run);
            && last.phase.Finished?
            && last.cur.addr == start + |got.bytes|
            && Holds(last.mem, start, got.bytes)
    decreases |run|
  {
    hide Feed, Rel, CopiesBytes, TransmissionOk, Again, NextQuote, Repeats, LostBy;
    var t := run[0];
    var bytes := CopiesBytes(t.n, t.packet, t.copies);
    NewCopies(r, start, base, a, t);
    FeedAppend(r, bytes, Stream(run[1..]));
    var from := if LostBy(r.lastN, t) then base else a;
    var k := Repeats(t.n, t.copies, false);
    var r1 := Feed(r, bytes);
    var base1, a1 := Again(r.line.quote, from, t.packet, k), Again(r.line.quote, from, t.packet, k + 1);
    if |run| == 1 {
      FeedNothing(r1);
      RelMeans(r1, start, base1, a1);
    } else {
      RunFrom(r1, start, base1, a1, run[1..]);
    }
  }

  lemma RelMeans(r: Receiver, start: nat, base: Received, a: Received)
    requires Rel(r, start, base, a)
    ensures r.cur.addr == start + |a.bytes| && Holds(r.mem, start, a.bytes)
  {
  }

  /** k_recv has finished, returns the number of these bytes, and memory holds them from the load address on. */
  predicate Loaded(start: nat, r: Receiver, bytes: seq<Byte>) {
    r.phase.Finished? && r.cur.addr - start == |bytes| && Holds(r.mem, start, bytes)
  }

  /** Every transfer, whatever damage is found: memory holds the packets, each as often as it was applied. */
  lemma WhatArrives(start: nat, mem: map<nat, Byte>, run: seq<Transmission>)
    requires RunOk(-1, run)
    ensures Loaded(start, Feed(Begin(start, mem), Stream(run)), Actual(K_ESCAPE, -1, NOTHING, NOTHING, run).bytes)
  {
    hide Feed, Actual;
    RunFrom(Begin(start, mem), start, NOTHING, NOTHING, run);
  }

  /** Nothing is lost and nothing is repeated. */
  predicate Undisturbed(lastN: int, run: seq<Transmission>)
    decreases |run|
  {
    run == [] ||
    (!LostBy(lastN, run[0]) && Repeats(run[0].n, run[0].copies, false) == 0 && Undisturbed(run[0].n, run[1..]))
  }

  lemma {:induction false} ActualIsIdeal(quote: Byte, lastN: int, base: Received, a: Received, run: seq<Transmission>)
    requires Undisturbed(lastN, run)
    ensures Actual(quote, lastN, base, a, run) == Ideal(quote, a, run)
    decreases |run|
  {
    if run != [] {
      hide Apply, NextQuote, Again, LostBy, Repeats;
      var t := run[0];
      AgainStep(quote, a, t.packet, 0);
      ActualIsIdeal(NextQuote(quote, t.packet), t.n, a, Apply(quote, a, t.packet), run[1..]);
    }
  }

  /** Transparency: undisturbed by repeated and damaged copies, every packet arrives once and in order. */
  lemma Transparent(start: nat, mem: map<nat, Byte>, run: seq<Transmission>)
    requires RunOk(-1, run) && Undisturbed(-1, run)
    ensures Loaded(start, Feed(Begin(start, mem), Stream(run)), Ideal(K_ESCAPE, NOTHING, run).bytes)
  {
    hide Feed, Actual, Ideal, RunOk;
    WhatArrives(start, mem, run);
    ActualIsIdeal(K_ESCAPE, -1, NOTHING, NOTHING, run);
  }

  /** The sequence character of every copy arrives intact. */
  predicate NumbersIntact(run: seq<Transmission>) {
    forall i, j :: 0 <= i < |run| && 0 <= j < |run[i].copies| ==>
      !run[i].copies[j].Early? && !Misnumbered(run[i].n, run[i].copies[j])
  }

  lemma {:induction false} IntactRepeats(n: nat, copies: seq<Copy>, applied: bool)
    requires forall j :: 0 <= j < |copies| ==> !Misnumbered(n, copies[j])
    ensures Repeats(n, copies, applied) == 0
    decreases |copies|
  {
    if copies != [] {
      IntactRepeats(n, copies[1..], copies[0].Good?);
    }
  }

  /** Damage behind intact sequence characters disturbs nothing. */
  lemma {:induction false} IntactUndisturbed(lastN: int, run: seq<Transmission>)
    requires RunOk(lastN, run) && NumbersIntact(run)
    ensures Undisturbed(lastN, run)
    decreases |run|
  {
    var t := run[0];
    assert forall j :: 0 <= j < |t.copies| ==> !t.copies[j].Early? && !Misnumbered(t.n, t.copies[j]);
    IntactRepeats(t.n, t.copies, false);
    assert t.copies != [] && t.n != lastN;
    hide TransmissionOk, Repeats;
    if |run| != 1 {
      assert NumbersIntact(run[1..]);
      IntactUndisturbed(t.n, run[1..]);
    }
  }

  // ---------------------------------------------------------------- files

  /** The characters of all data packets, one after the other. */
  function Payload(run: seq<Transmission>): seq<Byte> {
    if run == [] then []
    else (if run[0].packet.kind == DATA_TYPE then run[0].packet.data else []) + Payload(run[1..])
  }

  predicate NoParameters(run: seq<Transmission>) {
    forall i :: 0 <= i < |run| ==> run[i].packet.kind != SEND_TYPE
  }

  lemma {:induction false} IdealPayload(quote: Byte, a: Received, run: seq<Transmission>)
    requires NoParameters(run)
    ensures var u := Unquote(quote, a.escape, Payload(run));
            Ideal(quote, a, run) == Received(a.bytes + u.0, u.1)
    decreases |run|
  {
    if run == [] {
      assert a.bytes + [] == a.bytes;
    } else {
      hide Unquote;
      var p := run[0].packet;
      assert p.kind != SEND_TYPE;
      IdealPayload(quote, Apply(quote, a, p), run[1..]);
      if p.kind == DATA_TYPE {
        UnquoteSplit(quote, a.escape, p.data, Payload(run[1..]));
        var u := Unquote(quote, a.escape, p.data);
        Assoc(a.bytes, u.0, Unquote(quote, u.1, Payload(run[1..])).0);
      } else {
        assert [] + Payload(run[1..]) == Payload(run[1..]);
      }
    }
  }

  lemma IdealAfterParameters(run: seq<Transmission>)
    requires run != [] && run[0].packet.kind == SEND_TYPE
    ensures Ideal(K_ESCAPE, NOTHING, run) == Ideal(NextQuote(K_ESCAPE, run[0].packet), NOTHING, run[1..])
  {
    hide NextQuote;
  }

  /**
    End to end: a file that is control-quoted with the prefix agreed on, cut into data packets
    anywhere, and sent over a line that damages and repeats packets, arrives as it was.
   */
  lemma FileArrives(start: nat, mem: map<nat, Byte>, run: seq<Transmission>, file: seq<Byte>)
    requires RunOk(-1, run) && Undisturbed(-1, run)
    requires run[0].packet.kind == SEND_TYPE && NoParameters(run[1..])
    requires var quote := NextQuote(K_ESCAPE, run[0].packet);
             IsPrefix(quote) && Payload(run[1..]) == Quote(quote, file)
    ensures Loaded(start, Feed(Begin(start, mem), Stream(run)), file)
  {
    assert run != [];
    hide Feed, RunOk, Undisturbed, Quote, Unquote, NoParameters, NextQuote, Ideal;
    Transparent(start, mem, run);
    var quote := NextQuote(K_ESCAPE, run[0].packet);
    IdealAfterParameters(run);
    IdealPayload(quote, NOTHING, run[1..]);
    UnquoteQuote(quote, file);
    assert [] + file == file;
  }
}
