/**
  The Kermit receiver of boot/rpi/cmd/load.c as an automaton that is fed one character at a time:
  packets are checked while they arrive, data goes straight to memory, and a checkpoint of the
  download is what a bad or a repeated packet falls back to.
 */
module KermitReceiver {
  import opened Words
  import opened KermitCoding

  /** What the other side asked for in its send-initiate packet. */
  datatype Line = Line(eol: Byte, padCount: nat, padChar: Byte, quote: Byte)

  /** Where the next byte goes and whether a quote is pending. */
  datatype Download = Download(addr: nat, escape: bool)

  /** How far the packet at hand has been read; `len` counts what is still to come, `sum` is the check so far. */
  datatype Phase =
    | Idle
    | Length
    | Sequence(sum: nat, len: int)
    | Type(sum: nat, len: int)
    | LenHigh(sum: nat, kind: Byte)
    | LenLow(sum: nat, kind: Byte, high: nat)
    | HeaderCheck(sum: nat, kind: Byte, len: int)
    | Body(sum: nat, kind: Byte, len: int)
    | End(kind: Byte)
    | Finished
    | Aborted

  datatype Receiver = Receiver(phase: Phase, n: nat, lastN: int,
                               cur: Download, saved: Download, mem: map<nat, Byte>,
                               line: Line, parms: seq<Byte>, sent: seq<Byte>)

  const DEFAULT_LINE: Line := Line(END_CHAR, 0, 0, K_ESCAPE)

  /** k_recv before the first character. */
  function Begin(start: nat, mem: map<nat, Byte>): Receiver {
    Receiver(Idle, 0, -1, Download(start, false), Download(start, false), mem, DEFAULT_LINE, [], [])
  }

  // ---------------------------------------------------------------- packets that are sent

  /** START, then `body` with its check, then the end of line the other side wants; a NUL ends the string. */
  function Framed(body: seq<Byte>, eol: Byte): seq<Byte> {
    [START_CHAR] + body + [Check(Sum(body))] + (if eol == 0 then [] else [eol])
  }

  function Pads(line: Line): seq<Byte> {
    seq(line.padCount, _ => line.padChar)
  }

  /** s1_sendpacket of what send_ack or send_nack builds */
  function Reply(line: Line, kind: Byte, n: nat): seq<Byte> {
    Pads(line) + Framed([ToChar(3), ToChar(n), kind], line.eol)
  }

  const PARM_FIELDS: seq<Byte> :=
    [ToChar(94), ToChar(1), ToChar(0), 0x40, ToChar(END_CHAR), K_ESCAPE, 'N' as nat, '1' as nat, 'N' as nat]
  const PARM_LAST: seq<Byte> := [ToChar(2), ToChar(0), ToChar(94), ToChar(94)]

  /** The fields handle_send_packet answers, one for each parameter it was given. */
  function ParmFields(bytes: nat): (s: seq<Byte>)
    ensures |s| <= 13 && AllPrintable(s)
  {
    if bytes <= 9 then PARM_FIELDS[..bytes] else PARM_FIELDS + PARM_LAST
  }

  const SEND_DATA_SIZE: nat := 20

  /** The buffer keeps its first 19 parameters. */
  function StoreParm(parms: seq<Byte>, c: Byte): seq<Byte> {
    if |parms| < SEND_DATA_SIZE - 1 then parms + [c] else parms
  }

  /** How many parameters are looked at; the last one is ignored when the buffer is full. */
  function ParmCount(parms: seq<Byte>): nat {
    if |parms| == SEND_DATA_SIZE - 1 then |parms| - 1 else |parms|
  }

  /** What the send-initiate packet sets; parameters that are missing keep their defaults. */
  function LineFrom(parms: seq<Byte>): Line {
    var n := ParmCount(parms);
    Line(if 4 < n then UnChar(parms[4]) else END_CHAR,
         if 2 < n then UnChar(parms[2]) else 0,
         if 3 < n then KTrans(parms[3]) else 0,
         if 5 < n then parms[5] else K_ESCAPE)
  }

  function ParmReply(line: Line, n: nat, parms: seq<Byte>): seq<Byte> {
    var fields := ParmFields(ParmCount(parms));
    Pads(line) + Framed([ToChar(3 + |fields|), ToChar(n), ACK_TYPE] + fields, line.eol)
  }

  // ---------------------------------------------------------------- the data

  /** k_data_char with bin_data_char: one character of a data packet. */
  function DataChar(r: Receiver, c: Byte): Receiver {
    if r.cur.escape then
      r.(mem := r.mem[r.cur.addr := KTrans(c)], cur := Download(r.cur.addr + 1, false))
    else if c == r.line.quote then
      r.(cur := r.cur.(escape := true))
    else
      r.(mem := r.mem[r.cur.addr := c], cur := Download(r.cur.addr + 1, false))
  }

  // ---------------------------------------------------------------- one character

  /** What a character of a packet decides: reading goes on, or the packet is bad, or it is complete. */
  datatype Verdict = Go(phase: Phase) | Reject | Accept(kind: Byte)

  predicate Reading(phase: Phase) {
    !phase.Idle? && !phase.Finished? && !phase.Aborted?
  }

  function Control(phase: Phase, c: Byte): Verdict
    requires Reading(phase)
  {
    if phase.End? then if c == END_CHAR then Accept(phase.kind) else Reject
    else if !Printable(c) then Reject
    else if phase.Length? then Go(Sequence(c, UnChar(c)))
    else if phase.Sequence? then Go(Type(phase.sum + c, phase.len - 1))
    else if phase.Type? then
      if phase.len - 1 == -2 then Go(LenHigh(phase.sum + c, c)) else Go(Body(phase.sum + c, c, phase.len - 1))
    else if phase.LenHigh? then Go(LenLow(phase.sum + c, phase.kind, UnChar(c)))
    else if phase.LenLow? then Go(HeaderCheck(phase.sum + c, phase.kind, phase.high * 95 + UnChar(c)))
    else if phase.HeaderCheck? then
      if c == Check(phase.sum) then Go(Body(phase.sum + c, phase.kind, phase.len)) else Reject
    else if phase.len > 1 then Go(Body(phase.sum + c, phase.kind, phase.len - 1))
    else if c == Check(phase.sum) then Go(End(phase.kind))
    else Reject
  }

  /** The sequence number decides between a repeated packet and a new one. */
  function Checkpoint(r: Receiver, n: nat): Receiver {
    if n == r.lastN then r.(n := n, cur := r.saved)
    else r.(n := n, lastN := n, saved := r.cur)
  }

  /** What a character does to the download on its way. */
  function Effect(r: Receiver, c: Byte): Receiver {
    match r.phase
    case Sequence(_, _) => Checkpoint(r, UnChar(c))
    case Body(_, kind, len) =>
      if len <= 1 then r
      else if kind == DATA_TYPE then DataChar(r, c)
      else if kind == SEND_TYPE then r.(parms := StoreParm(r.parms, c))
      else r
    case _ => r
  }

  /** packet_error: back to the checkpoint, and a negative acknowledge. */
  function Rejected(r: Receiver): Receiver {
    r.(phase := Idle, cur := r.saved, sent := r.sent + Reply(r.line, NACK_TYPE, r.n))
  }

  /** A complete packet is acknowledged; a break packet ends the transmission. */
  function Accepted(r: Receiver, kind: Byte): Receiver {
    if kind == SEND_TYPE then
      var line := LineFrom(r.parms);
      r.(phase := Idle, line := line, sent := r.sent + ParmReply(line, r.n, r.parms))
    else
      r.(phase := if kind == BREAK_TYPE then Finished else Idle, sent := r.sent + Reply(r.line, ACK_TYPE, r.n))
  }

  /** One character from the line. */
  function Step(r: Receiver, c: Byte): Receiver {
    if r.phase.Idle? then
      if c == START_CHAR then r.(phase := Length, parms := [])
      else if c == ETX_CHAR then r.(phase := Aborted)
      else r
    else if !Reading(r.phase) then r
    else
      match Control(r.phase, c)
      case Reject => Rejected(r)
      case Accept(kind) => Accepted(r, kind)
      case Go(phase) => Effect(r, c).(phase := phase)
  }

  /** All characters of `s`. */
  function Feed(r: Receiver, s: seq<Byte>): Receiver
    decreases |s|
  {
    if s == [] then r else Feed(Step(r, s[0]), s[1..])
  }

  lemma {:induction false} FeedAppend(r: Receiver, a: seq<Byte>, b: seq<Byte>)
    ensures Feed(r, a + b) == Feed(Feed(r, a), b)
    decreases |a|
  {
    if a == [] {
      assert a + b == b;
    } else {
      hide Step;
      assert (a + b)[0] == a[0] && (a + b)[1..] == a[1..] + b;
      FeedAppend(Step(r, a[0]), a[1..], b);
    }
  }

  lemma FeedOne(r: Receiver, c: Byte)
    ensures Feed(r, [c]) == Step(r, c)
  {
    hide Step;
    assert [c][1..] == [];
  }

  lemma FeedCons(r: Receiver, c: Byte, s: seq<Byte>)
    ensures Feed(r, [c] + s) == Feed(Step(r, c), s)
  {
    hide Step;
    assert ([c] + s)[1..] == s;
  }
}
