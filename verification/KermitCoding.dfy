/**
  Characters on a Kermit line (boot/rpi/cmd/load.c): control quoting, and the one-character block
  check.  Section 6 (Packet Format) of the Kermit Protocol Manual, 6th edition, defines both.
  The masks and shifts of the source are written as arithmetic on bytes.
 */
module KermitCoding {

  import opened Words

  const START_CHAR: Byte := 0x01
  const ETX_CHAR: Byte := 0x03
  const END_CHAR: Byte := 0x0D
  const SPACE: Byte := 0x20
  const K_ESCAPE: Byte := 0x23

  const SEND_TYPE: Byte := 'S' as nat
  const DATA_TYPE: Byte := 'D' as nat
  const ACK_TYPE: Byte := 'Y' as nat
  const NACK_TYPE: Byte := 'N' as nat
  const BREAK_TYPE: Byte := 'B' as nat

  /** tochar */
  function ToChar(x: nat): Byte {
    (x + SPACE) % 256
  }

  /** untochar */
  function UnChar(c: Byte): Byte {
    (c + 256 - SPACE) % 256
  }

  /** A character that an error check lets through: `(c & 0xE0) != 0`. */
  predicate Printable(c: Byte) {
    SPACE <= c
  }

  predicate AllPrintable(s: seq<Byte>) {
    forall i :: 0 <= i < |s| ==> Printable(s[i])
  }

  /** The type 1 block check of a sum of characters. */
  function Check(sum: nat): Byte {
    ToChar((sum + sum / 64 % 4) % 64)
  }

  /** ktrans: what a quoted character stands for. */
  function KTrans(c: Byte): Byte {
    if c / 32 % 4 == 2 then c - 64
    else if c % 128 == 63 then c + 64
    else c
  }

  /** k_data_char over a stretch of characters: the bytes they stand for, and whether a quote is pending. */
  function Unquote(quote: Byte, escape: bool, s: seq<Byte>): (r: (seq<Byte>, bool))
    decreases |s|
  {
    if s == [] then ([], escape)
    else if escape then
      var r := Unquote(quote, false, s[1..]);
      ([KTrans(s[0])] + r.0, r.1)
    else if s[0] == quote then Unquote(quote, true, s[1..])
    else
      var r := Unquote(quote, false, s[1..]);
      ([s[0]] + r.0, r.1)
  }

  /** The control prefixes the protocol allows. */
  predicate IsPrefix(quote: Byte) {
    33 <= quote <= 62 || 96 <= quote <= 126
  }

  /** A sender's control quoting of one byte. */
  function QuoteByte(quote: Byte, b: Byte): seq<Byte> {
    if b % 128 < 32 then [quote, b + 64]
    else if b % 128 == 127 then [quote, b - 64]
    else if b == quote then [quote, b]
    else [b]
  }

  function Quote(quote: Byte, bytes: seq<Byte>): seq<Byte> {
    if bytes == [] then [] else QuoteByte(quote, bytes[0]) + Quote(quote, bytes[1..])
  }

  /** Cutting a stretch of characters anywhere does not change what it stands for. */
  lemma {:induction false} UnquoteSplit(quote: Byte, escape: bool, a: seq<Byte>, b: seq<Byte>)
    ensures var r := Unquote(quote, escape, a);
            var t := Unquote(quote, r.1, b);
            Unquote(quote, escape, a + b) == (r.0 + t.0, t.1)
    decreases |a|
  {
    if a == [] {
      assert a + b == b;
      assert [] + Unquote(quote, escape, b).0 == Unquote(quote, escape, b).0;
    } else {
      assert (a + b)[0] == a[0] && (a + b)[1..] == a[1..] + b;
      var e := if escape then false else a[0] == quote;
      UnquoteSplit(quote, e, a[1..], b);
      var r := Unquote(quote, e, a[1..]);
      Assoc([if escape then KTrans(a[0]) else a[0]], r.0, Unquote(quote, r.1, b).0);
    }
  }

  lemma Assoc(a: seq<Byte>, b: seq<Byte>, c: seq<Byte>)
    ensures a + (b + c) == a + b + c
  {
  }

  /** Quoted characters get through a line that drops control characters. */
  lemma QuotedPrintable(quote: Byte, b: Byte)
    requires IsPrefix(quote)
    ensures AllPrintable(QuoteByte(quote, b))
  {
  }

  lemma UnquoteByte(quote: Byte, b: Byte)
    requires IsPrefix(quote)
    ensures Unquote(quote, false, QuoteByte(quote, b)) == ([b], false)
  {
    var s := QuoteByte(quote, b);
    if |s| == 2 {
      var t := s[1..];
      assert t[0] == s[1] && t[1..] == [];
      assert [KTrans(s[1])] + [] == [b];
      assert Unquote(quote, true, t) == ([b], false);
    } else {
      assert s[1..] == [];
      assert [b] + [] == [b];
    }
  }

  /** Decoding inverts control quoting, for every sequence of bytes and every legal prefix. */
  lemma {:induction false} UnquoteQuote(quote: Byte, bytes: seq<Byte>)
    requires IsPrefix(quote)
    ensures Unquote(quote, false, Quote(quote, bytes)) == (bytes, false)
    ensures AllPrintable(Quote(quote, bytes))
    decreases |bytes|
  {
    if bytes != [] {
      UnquoteByte(quote, bytes[0]);
      QuotedPrintable(quote, bytes[0]);
      UnquoteQuote(quote, bytes[1..]);
      UnquoteSplit(quote, false, QuoteByte(quote, bytes[0]), Quote(quote, bytes[1..]));
      assert [bytes[0]] + bytes[1..] == bytes;
    }
  }

  /** Also when the characters are cut into packets at arbitrary places. */
  function Joined(pieces: seq<seq<Byte>>): seq<Byte> {
    if pieces == [] then [] else pieces[0] + Joined(pieces[1..])
  }

  function UnquotePieces(quote: Byte, escape: bool, pieces: seq<seq<Byte>>): (seq<Byte>, bool)
    decreases |pieces|
  {
    if pieces == [] then ([], escape)
    else
      var r := Unquote(quote, escape, pieces[0]);
      var t := UnquotePieces(quote, r.1, pieces[1..]);
      (r.0 + t.0, t.1)
  }

  lemma {:induction false} UnquoteAnyCut(quote: Byte, escape: bool, pieces: seq<seq<Byte>>)
    ensures UnquotePieces(quote, escape, pieces) == Unquote(quote, escape, Joined(pieces))
    decreases |pieces|
  {
    if pieces != [] {
      UnquoteSplit(quote, escape, pieces[0], Joined(pieces[1..]));
      UnquoteAnyCut(quote, Unquote(quote, escape, pieces[0]).1, pieces[1..]);
    }
  }

  /** A quoted file cut into packets at any places decodes to the file. */
  lemma PacketsDecode(quote: Byte, bytes: seq<Byte>, pieces: seq<seq<Byte>>)
    requires IsPrefix(quote) && Joined(pieces) == Quote(quote, bytes)
    ensures UnquotePieces(quote, false, pieces) == (bytes, false)
  {
    UnquoteAnyCut(quote, false, pieces);
    UnquoteQuote(quote, bytes);
  }
}
