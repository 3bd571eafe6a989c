/**
  k_recv of boot/rpi/cmd/load.c as it runs: characters are taken from the line, the checkpoint and
  the download are fields, data goes to memory as it arrives.  The methods are proved to be the
  automaton of KermitReceiver; what they send back is shown to be packets they would accept.
 */
module KermitTool {
  import opened Words
  import opened KermitCoding
  import opened KermitReceiver
  import opened KermitPackets

  // ---------------------------------------------------------------- replies

  lemma ReplyIsPacket(line: Line, kind: Byte, n: nat)
    requires line.eol == END_CHAR
    ensures Reply(line, kind, n) == Pads(line) + Wire(n, Packet(kind, []), false)
  {
    hide Check;
    var p := Packet(kind, []);
    var body := ShortHeader(n, p);
    assert body == [ToChar(3), ToChar(n), kind];
    assert Sum(body) + Sum(p.data) == Sum(body);
    FrameIsWire(body, [], Check(Sum(body)));
  }

  lemma FrameIsWire(head: seq<Byte>, data: seq<Byte>, check: Byte)
    ensures [START_CHAR] + (head + data) + [check] + [END_CHAR] == [START_CHAR] + head + data + [check, END_CHAR]
    ensures head + [] == head
  {
  }

  lemma ParmReplyIsPacket(line: Line, n: nat, parms: seq<Byte>)
    requires line.eol == END_CHAR
    ensures ParmReply(line, n, parms) == Pads(line) + Wire(n, Packet(ACK_TYPE, ParmFields(ParmCount(parms))), false)
  {
    hide Check, ParmFields, Sum;
    var fields := ParmFields(ParmCount(parms));
    var head := [ToChar(3 + |fields|), ToChar(n), ACK_TYPE];
    SumAppend(head, fields);
    FrameIsWire(head, fields, Check(Sum(head + fields)));
  }

  /**
    Every acknowledge, negative acknowledge and parameter acknowledge, for every sequence number and
    every set of parameters, passes the length and block check of k_recv itself.
   */
  lemma RepliesPass(r: Receiver, line: Line, n: nat, kind: Byte, parms: seq<Byte>)
    requires r.phase.Idle? && n < SEQUENCES && line.eol == END_CHAR && Quiet(Pads(line))
    requires kind == ACK_TYPE || kind == NACK_TYPE
    ensures var t := Feed(r, Reply(line, kind, n));
            t.phase.Idle? && t.sent == r.sent + Reply(r.line, ACK_TYPE, n)
    ensures var t := Feed(r, ParmReply(line, n, parms));
            t.phase.Idle? && t.sent == r.sent + Reply(r.line, ACK_TYPE, n)
  {
    hide Feed, Wire, Reply, ParmReply, Pads, Quiet, ParmFields;
    ReplyIsPacket(line, kind, n);
    ParmReplyIsPacket(line, n, parms);
    PacketPasses(r, Pads(line), n, Packet(kind, []));
    PacketPasses(r, Pads(line), n, Packet(ACK_TYPE, ParmFields(ParmCount(parms))));
  }

  lemma PacketPasses(r: Receiver, noise: seq<Byte>, n: nat, p: Packet)
    requires r.phase.Idle? && n < SEQUENCES && Quiet(noise) && PacketOk(p, false)
    requires p.kind == ACK_TYPE || p.kind == NACK_TYPE
    ensures var t := Feed(r, noise + Wire(n, p, false));
            t.phase.Idle? && t.sent == r.sent + Reply(r.line, ACK_TYPE, n)
  {
    hide Feed, Wire, Reply, Consumed, Quiet, PacketOk;
    FeedAppend(r, noise, Wire(n, p, false));
    FeedQuiet(r, noise);
    FeedGood(r, n, p, false);
    ConsumedOther(Checkpoint(r.(parms := []), n), p.kind, p.data);
  }

  // ---------------------------------------------------------------- the receiver

  /** chk1: the sum loop and the fold of its high bits. */
  method BlockCheck(s: seq<Byte>) returns (check: Byte)
    ensures check == Check(Sum(s))
  {
    var total: nat, i := 0, 0;
    while i < |s|
      invariant i <= |s|
      invariant total + Sum(s[i..]) == Sum(s)
    {
      total := total + s[i];
      assert s[i..][1..] == s[i + 1..];
      i := i + 1;
    }
    return ToChar((total + total / 64 % 4) % 64);
  }

  /** How a call of k_recv on a finite piece of the line ends. */
  datatype Result = Received(size: int) | Interrupted | Waiting

  class Kermit {
    const start: nat
    var mem: map<nat, Byte>
    var addr: nat
    var escape: bool
    var addrSaved: nat
    var escapeSaved: bool
    var n: nat
    var lastN: int
    var line: Line
    var parms: seq<Byte>
    var sent: seq<Byte>
    var input: seq<Byte>

    function Model(phase: Phase): Receiver
      reads this
    {
      Receiver(phase, n, lastN, Download(addr, escape), Download(addrSaved, escapeSaved), mem, line, parms, sent)
    }

    /** The whole run of the automaton does not depend on how much of the line has been read. */
    predicate Follows(phase: Phase, final: Receiver)
      reads this
    {
      Feed(Model(phase), input) == final
    }

    /** set_kerm_bin_mode and the initializations of k_recv */
    constructor (start: nat, mem: map<nat, Byte>, input: seq<Byte>)
      ensures this.start == start && this.input == input && Model(Idle) == Begin(start, mem)
    {
      this.start, this.mem, this.input := start, mem, input;
      addr, escape, addrSaved, escapeSaved := start, false, start, false;
      n, lastN := 0, -1;
      line, parms, sent := DEFAULT_LINE, [], [];
    }

    /** getc */
    method GetC() returns (c: Byte)
      requires input != []
      modifies this`input
      ensures c == old(input)[0] && input == old(input)[1..]
    {
      c := input[0];
      input := input[1..];
    }

    method Save()
      modifies this`addrSaved, this`escapeSaved
      ensures addrSaved == addr && escapeSaved == escape
    {
      addrSaved, escapeSaved := addr, escape;
    }

    method Restore()
      modifies this`addr, this`escape
      ensures addr == addrSaved && escape == escapeSaved
    {
      addr, escape := addrSaved, escapeSaved;
    }

    method Store(b: Byte)
      modifies this`mem, this`addr
      ensures mem == old(mem)[old(addr) := b] && addr == old(addr) + 1
    {
      mem := mem[addr := b];
      addr := addr + 1;
    }

    /** k_data_char */
    method PutData(c: Byte, ghost phase: Phase)
      modifies this`mem, this`addr, this`escape
      ensures Model(phase) == DataChar(old(Model(phase)), c)
    {
      if escape {
        Store(KTrans(c));
        escape := false;
      } else if c == line.quote {
        escape := true;
      } else {
        Store(c);
      }
    }

    method Send(bytes: seq<Byte>)
      modifies this`sent
      ensures sent == old(sent) + bytes
    {
      sent := sent + bytes;
    }

    /** packet_error */
    method Fail(ghost phase: Phase)
      modifies this`addr, this`escape, this`sent
      ensures Model(Idle) == Rejected(old(Model(phase)))
    {
      Restore();
      Send(Reply(line, NACK_TYPE, n));
    }

    /** The sequence number: the previous state is restored, or the download is checkpointed. */
    method Sequenced(number: nat, ghost phase: Phase)
      modifies this`n, this`lastN, this`addr, this`escape, this`addrSaved, this`escapeSaved
      ensures Model(phase) == Checkpoint(old(Model(phase)), number)
    {
      n := number;
      if n == lastN {
        Restore();
      } else {
        lastN := n;
        Save();
      }
    }

    /** The data characters and the block check. */
    method ReadBody(kind: Byte, sum0: nat, length0: int, ghost final: Receiver) returns (status: Status)
      requires Follows(Body(sum0, kind, length0), final)
      modifies this
      ensures status.Good? ==> status.kind == kind && Follows(End(kind), final)
      ensures status.Bad? ==> Follows(Idle, final)
      ensures status.Starved? ==> Reading(final.phase)
      ensures |input| <= |old(input)|
    {
      hide Check, Step, Taken;
      var sum: nat, length: int := sum0, length0;
      while length > 1
        invariant Follows(Body(sum, kind, length), final)
        invariant |input| <= |old(input)|
        decreases length
      {
        if input == [] {
          return Starved;
        }
        var c := GetC();
        ghost var before := Model(Body(sum, kind, length));
        if !Printable(c) {
          StepUnprintable(before, c);
          Fail(before.phase);
          return Bad;
        }
        TakeChar(kind, c, Body(sum, kind, length));
        StepBody(before, kind, sum, length, c);
        sum := sum + c;
        length := length - 1;
      }
      if input == [] {
        return Starved;
      }
      var c := GetC();
      StepCheckChar(Model(Body(sum, kind, length)), kind, sum, length, c);
      if !Printable(c) || c != Check(sum) {
        Fail(Body(sum, kind, length));
        return Bad;
      }
      return Good(kind);
    }

    /** One character of a packet: data is passed on, parameters are kept. */
    method TakeChar(kind: Byte, c: Byte, ghost phase: Phase)
      modifies this`mem, this`addr, this`escape, this`parms
      ensures Model(phase) == Taken(old(Model(phase)), kind, c)
    {
      hide DataChar;
      if kind == DATA_TYPE {
        PutData(c, phase);
      } else if kind == SEND_TYPE {
        parms := StoreParm(parms, c);
      }
    }

    /** The two length characters of an extended packet and the check of its header. */
    method ReadExtension(kind: Byte, sum0: nat, ghost final: Receiver) returns (status: Status, sum: nat, length: int)
      requires Follows(LenHigh(sum0, kind), final)
      modifies this
      ensures status.Good? ==> Follows(Body(sum, kind, length), final)
      ensures status.Bad? ==> Follows(Idle, final)
      ensures status.Starved? ==> Reading(final.phase)
      ensures |input| <= |old(input)|
    {
      hide Check, Step, UnChar;
      sum, length := sum0, 0;
      if input == [] {
        return Starved, sum, length;
      }
      var c := GetC();
      ghost var m := Model(LenHigh(sum, kind));
      if !Printable(c) {
        StepUnprintable(m, c);
        Fail(m.phase);
        return Bad, sum, length;
      }
      StepExtension(m, kind, sum, c, 0, 0);
      var high := UnChar(c);
      sum := sum + c;
      assert Follows(LenLow(sum, kind, high), final);
      if input == [] {
        return Starved, sum, length;
      }
      c := GetC();
      m := Model(LenLow(sum, kind, high));
      if !Printable(c) {
        StepUnprintable(m, c);
        Fail(m.phase);
        return Bad, sum, length;
      }
      StepExtension(m, kind, sum, c, high, 0);
      length := high * 95 + UnChar(c);
      sum := sum + c;
      assert Follows(HeaderCheck(sum, kind, length), final);
      if input == [] {
        return Starved, sum, length;
      }
      c := GetC();
      m := Model(HeaderCheck(sum, kind, length));
      StepHeaderCheck(m, kind, sum, length, c);
      if !Printable(c) || c != Check(sum) {
        Fail(m.phase);
        return Bad, sum, length;
      }
      sum := sum + c;
      return Good(kind), sum, length;
    }

    /** A packet from its length character to its block check. */
    method ReadPacket(ghost final: Receiver) returns (status: Status)
      requires Follows(Length, final)
      modifies this
      ensures status.Good? ==> Follows(End(status.kind), final)
      ensures status.Bad? ==> Follows(Idle, final)
      ensures status.Starved? ==> Reading(final.phase)
      ensures |input| <= |old(input)|
    {
      hide Check, Step, UnChar, Checkpoint;
      var sum: nat := 0;
      if input == [] {
        return Starved;
      }
      var c := GetC();
      ghost var m := Model(Length);
      if !Printable(c) {
        StepUnprintable(m, c);
        Fail(m.phase);
        return Bad;
      }
      StepLength(m, c);
      sum := sum + c;
      var length: int := UnChar(c);
      assert Follows(Sequence(sum, length), final);
      if input == [] {
        return Starved;
      }
      c := GetC();
      m := Model(Sequence(sum, length));
      if !Printable(c) {
        StepUnprintable(m, c);
        Fail(m.phase);
        return Bad;
      }
      StepSequence(m, sum, length, c);
      CheckpointPhase(m, UnChar(c), Type(sum + c, length - 1));
      Sequenced(UnChar(c), Type(sum + c, length - 1));
      sum := sum + c;
      length := length - 1;
      assert Follows(Type(sum, length), final);
      if input == [] {
        return Starved;
      }
      c := GetC();
      m := Model(Type(sum, length));
      if !Printable(c) {
        StepUnprintable(m, c);
        Fail(m.phase);
        return Bad;
      }
      StepType(m, sum, length, c);
      var kind := c;
      sum := sum + c;
      length := length - 1;
      assert Follows(if length == -2 then LenHigh(sum, kind) else Body(sum, kind, length), final);
      if length == -2 {
        var extended;
        extended, sum, length := ReadExtension(kind, sum, final);
        if !extended.Good? {
          return extended;
        }
      }
      status := ReadBody(kind, sum, length, final);
    }

    /** A complete packet is acknowledged; true when it ends the transmission. */
    method Acknowledge(kind: Byte) returns (done: bool)
      modifies this`line, this`sent
      ensures done == (kind == BREAK_TYPE)
      ensures Model(if done then Finished else Idle) == Accepted(old(Model(End(kind))), kind)
    {
      hide Reply, ParmReply, LineFrom;
      if kind == SEND_TYPE {
        line := LineFrom(parms);
        Send(ParmReply(line, n, parms));
      } else {
        Send(Reply(line, ACK_TYPE, n));
      }
      done := kind == BREAK_TYPE;
    }

    /** Waits for the start of a packet or for an interrupt. */
    method WaitForStart(ghost final: Receiver) returns (status: Status)
      requires Follows(Idle, final)
      modifies this`input, this`parms
      ensures status.Good? ==> Follows(Length, final) && |input| < |old(input)|
      ensures status.Bad? ==> final.phase.Aborted?
      ensures status.Starved? ==> final.phase.Idle?
    {
      while input != []
        invariant Follows(Idle, final) && |input| <= |old(input)| && parms == old(parms)
        decreases |input|
      {
        var c := GetC();
        if c == START_CHAR {
          parms := [];
          return Good(0);
        }
        if c == ETX_CHAR {
          FeedStopped(Model(Aborted), input);
          return Bad;
        }
      }
      return Starved;
    }

    /**
      k_recv: the result, the memory and the replies are those of the automaton fed with the whole
      line; a line that ends too soon leaves it waiting.
     */
    method Receive() returns (r: Result)
      modifies this
      ensures var final := Feed(old(Model(Idle)), old(input));
              && (r.Received? ==>
                 final.phase.Finished? && r.size == final.cur.addr - start && mem == final.mem && sent == final.sent)
              && (r.Interrupted? ==> final.phase.Aborted?)
              && (r.Waiting? ==> !final.phase.Finished? && !final.phase.Aborted?)
    {
      ghost var final := Feed(Model(Idle), input);
      hide Feed, Accepted;
      while true
        invariant Follows(Idle, final)
        decreases |input|
      {
        var found := WaitForStart(final);
        if found.Bad? {
          return Interrupted;
        }
        if found.Starved? {
          return Waiting;
        }
        var status := ReadPacket(final);
        if status.Starved? {
          return Waiting;
        }
        if status.Good? {
          if input == [] {
            StillReading(Model(End(status.kind)));
            return Waiting;
          }
          ghost var m, rest := Model(End(status.kind)), input;
          var c := GetC();
          StepEnd(m, status.kind, c, rest);
          if c != END_CHAR {
            Fail(m.phase);
          } else {
            var done := Acknowledge(status.kind);
            if done {
              FeedStopped(Model(Finished), input);
              return Received(addr - start);
            }
          }
        }
      }
    }
  }

  /** How reading a part of a packet ends. */
  datatype Status = Good(kind: Byte) | Bad | Starved

  lemma StepUnprintable(r: Receiver, c: Byte)
    requires Reading(r.phase) && !r.phase.End? && !Printable(c)
    ensures Step(r, c) == Rejected(r)
  {
  }

  lemma StepCheckChar(r: Receiver, kind: Byte, sum: nat, len: int, c: Byte)
    requires r.phase == Body(sum, kind, len) && len <= 1
    ensures Step(r, c) == if Printable(c) && c == Check(sum) then r.(phase := End(kind)) else Rejected(r)
  {
    hide Check;
  }

  lemma StepHeaderCheck(r: Receiver, kind: Byte, sum: nat, len: int, c: Byte)
    requires r.phase == HeaderCheck(sum, kind, len)
    ensures Step(r, c) == if Printable(c) && c == Check(sum) then r.(phase := Body(sum + c, kind, len)) else Rejected(r)
  {
    hide Check;
  }

  lemma StepEnd(r: Receiver, kind: Byte, c: Byte, s: seq<Byte>)
    requires r.phase == End(kind) && s != [] && s[0] == c
    ensures Feed(r, s) == Feed(if c == END_CHAR then Accepted(r, kind) else Rejected(r), s[1..])
  {
  }

  lemma StillReading(r: Receiver)
    ensures Feed(r, []) == r
  {
  }

  lemma CheckpointPhase(r: Receiver, n: nat, phase: Phase)
    ensures Checkpoint(r, n).(phase := phase) == Checkpoint(r.(phase := phase), n)
  {
  }

  /** A receiver that has stopped ignores the rest of the line. */
  lemma {:induction false} FeedStopped(r: Receiver, s: seq<Byte>)
    requires r.phase.Finished? || r.phase.Aborted?
    ensures Feed(r, s) == r
    decreases |s|
  {
    if s != [] {
      FeedStopped(r, s[1..]);
    }
  }
}
