/**
  Motorola S-records: the text save_serial writes, and what load_serial does with text
  (boot/rpi/cmd/load.c, with the decoder of boot/rpi/common/s_record.c). Addresses are 32-bit.
 */
module SRecord {
  import opened Words
  import opened TextNumbers

  const BYTES_PER_RECORD := 16
  const MAX_RECORD := 516

  const HEADER := "S0030000FC"
  const TRAILER := "S70500000000FA"

  // ---------------------------------------------------------------- saving

  function Hex(bytes: seq<Byte>): string {
    if bytes == [] then "" else HexFixed(bytes[0], 2, true) + Hex(bytes[1..])
  }

  /** The checksum byte: the complement of the low byte of the sum. */
  function Complement(sum: nat): Byte {
    255 - sum % 256
  }

  /** The bytes of a data record: length, address, data, checksum. */
  function RecordBytes(a: nat, data: seq<Byte>): seq<Byte>
    requires a < TWO_32 && |data| <= 250
  {
    WithSum([(|data| + 5) as Byte] + (WordBytes(a) + data))
  }

  function WithSum(body: seq<Byte>): seq<Byte> {
    body + [Complement(Sum(body))]
  }

  /** One data record as sprintf writes it, without the line end. */
  function RecordText(a: nat, data: seq<Byte>): string
    requires a < TWO_32 && |data| <= 250
  {
    "S3" + HexFixed(|data| + 5, 2, true) + HexFixed(a, 8, true) + Hex(data)
    + HexFixed(Complement(|data| + 5 + Sum(WordBytes(a)) + Sum(data)), 2, true)
  }

  function Take(data: seq<Byte>): nat {
    if |data| <= BYTES_PER_RECORD then |data| else BYTES_PER_RECORD
  }

  function Records(a: nat, data: seq<Byte>): string
    requires a + |data| <= TWO_32
    decreases |data|
  {
    if data == [] then ""
    else RecordText(a, data[..Take(data)]) + "\n" + Records(a + Take(data), data[Take(data)..])
  }

  /** save_serial */
  function Saved(a: nat, data: seq<Byte>): string
    requires a + |data| <= TWO_32
  {
    HEADER + "\n" + Records(a, data) + (TRAILER + "\n")
  }

  // ---------------------------------------------------------------- decoding

  /** hex2_bin */
  function Hex2(s: string): (r: Option<Byte>)
  {
    var i, j := DigitValue(At(s, 0)), DigitValue(At(s, 1));
    if i < 16 && j < 16 then Some(i * 16 + j) else None
  }

  /** `n` bytes, two characters each. */
  function HexBytes(s: string, n: nat): (r: Option<seq<Byte>>)
    ensures r.Some? ==> |r.value| == n && 2 * n <= |s|
    decreases n
  {
    if n == 0 then Some([])
    else if Hex2(s).None? then None
    else
      assert |s| >= 2;
      var rest := HexBytes(s[2..], n - 1);
      if rest.None? then None else Some([Hex2(s).value] + rest.value)
  }

  datatype Kind = Start | Data | Count | End

  /** What srec_decode returns; `count` is what is left of the length field. */
  datatype Decoded = Empty | NoRecord | BadType | BadSum | Record(kind: Kind, addr: nat, data: seq<Byte>, count: int)

  function KindOf(c: char): Option<Kind> {
    if c == '0' then Some(Start)
    else if c == '1' || c == '2' || c == '3' then Some(Data)
    else if c == '5' then Some(Count)
    else if c == '7' || c == '8' || c == '9' then Some(End)
    else None
  }

  function AddressLength(c: char): nat {
    if c == '3' || c == '7' then 4 else if c == '2' || c == '8' then 3 else 2
  }

  function BigEndian(bytes: seq<Byte>): nat {
    if bytes == [] then 0 else BigEndian(bytes[..|bytes| - 1]) * 256 + bytes[|bytes| - 1] as nat
  }

  /** srec_decode */
  function Decode(line: string): Decoded {
    var at := Find(line, 'S');
    if at.None? || at.value + 1 == |line| then Empty
    else
      var kind, length := KindOf(line[at.value + 1]), Hex2(line[at.value + 2..]);
      if length.None? then NoRecord
      else if kind.None? then BadType
      else
        var a := AddressLength(line[at.value + 1]);
        var count := if kind.value.Count? then 0 else length.value as int - a - 1;
        var n := if count < 0 then 0 else count;
        assert |line[at.value + 2..]| >= 2;
        var bytes := HexBytes(line[at.value + 4..], a + n + 1);
        if bytes.None? then NoRecord
        else if bytes.value[a + n] != Complement(length.value as nat + Sum(bytes.value[..a + n])) then BadSum
        else Record(kind.value, BigEndian(bytes.value[..a]), bytes.value[a..a + n], count)
  }

  // ---------------------------------------------------------------- loading

  /** read_record: a line and the rest; None when a control character aborts or the input ends. */
  function ReadRecord(input: string, room: nat): (r: Option<(string, string)>)
    ensures r.Some? && 0 < room ==> |r.value.1| < |input|
    decreases room
  {
    if room == 0 then Some(("", input))
    else if input == "" || input[0] == '\0' || input[0] == 3 as char then None
    else if input[0] == '\r' || input[0] == '\n' then Some(("", input[1..]))
    else
      var rest := ReadRecord(input[1..], room - 1);
      if rest.None? then None else Some(([input[0]] + rest.value.0, rest.value.1))
  }

  /** Memory, and the lowest and highest address stored so far. */
  datatype Loaded = Loaded(mem: map<nat, Byte>, low: nat, high: nat)

  /** `Undefined`: a data record too short for its address makes the source copy a negative length. */
  datatype Outcome =
    | Aborted(mem: map<nat, Byte>)
    | Undefined
    | Finished(mem: map<nat, Byte>, low: nat, high: nat, size: nat, entry: nat)

  function Mod32(x: int): nat {
    x % TWO_32
  }

  function Store(mem: map<nat, Byte>, a: nat, data: seq<Byte>): map<nat, Byte>
    decreases |data|
  {
    if data == [] then mem else Store(mem[a := data[0]], a + 1, data[1..])
  }

  /** A data record arrives. */
  function StoreRecord(st: Loaded, a: nat, data: seq<Byte>): Loaded {
    var last := Mod32(a + |data| - 1);
    Loaded(Store(st.mem, a, data), if a < st.low then a else st.low, if last > st.high then last else st.high)
  }

  /** The loop of load_serial. */
  function LoadFrom(input: string, offset: int, st: Loaded): Outcome
    decreases |input|
  {
    var line := ReadRecord(input, MAX_RECORD);
    if line.None? then Aborted(st.mem)
    else
      var (text, rest) := line.value;
      match Decode(text)
      case NoRecord => Aborted(st.mem)
      case BadType => Aborted(st.mem)
      case BadSum => Aborted(st.mem)
      case Empty => LoadFrom(rest, offset, st)
      case Record(kind, addr, data, count) =>
        if kind.Data? then
          if count < 0 then Undefined
          else LoadFrom(rest, offset, StoreRecord(st, Mod32(addr + offset), data))
        else if kind.End? then
          Finished(st.mem, st.low, st.high, Mod32(st.high - st.low + 1), addr)
        else LoadFrom(rest, offset, st)
  }

  /** load_serial: the lowest address starts as ~0, the highest as 0. */
  function Load(input: string, offset: int, mem: map<nat, Byte>): Outcome {
    LoadFrom(input, offset, Loaded(mem, TWO_32 - 1, 0))
  }

  // ---------------------------------------------------------------- one byte, one field

  lemma ByteText(b: Byte)
    ensures HexFixed(b, 2, true) == [DigitChar(b as nat / 16, true), DigitChar(b as nat % 16, true)]
  {
    assert HexFixed(b, 2, true) == HexFixed(b as nat / 16, 1, true) + [DigitChar(b as nat % 16, true)];
    assert HexFixed(b as nat / 16, 1, true)
           == HexFixed(b as nat / 16 / 16, 0, true) + [DigitChar(b as nat / 16 % 16, true)];
  }

  lemma Hex2OfByte(b: Byte, rest: string)
    ensures Hex2(HexFixed(b, 2, true) + rest) == Some(b)
    ensures (HexFixed(b, 2, true) + rest)[2..] == rest
  {
    ByteText(b);
    hide HexFixed;
    var s := HexFixed(b, 2, true) + rest;
    assert s[0] == DigitChar(b as nat / 16, true) && s[1] == DigitChar(b as nat % 16, true);
  }

  lemma HexBytesStep(b: Byte, tail: string, n: nat)
    ensures HexBytes(HexFixed(b, 2, true) + tail, n + 1)
            == if HexBytes(tail, n).None? then None else Some([b] + HexBytes(tail, n).value)
  {
    Hex2OfByte(b, tail);
    hide HexFixed, Hex2;
  }

  lemma {:induction false} HexBytesOfHex(bytes: seq<Byte>, rest: string)
    ensures HexBytes(Hex(bytes) + rest, |bytes|) == Some(bytes)
    decreases |bytes|
  {
    hide HexFixed, HexBytes, Hex;
    if bytes == [] {
      HexBytesNone(Hex(bytes) + rest);
    } else {
      HexHead(bytes, rest);
      HexBytesStep(bytes[0], Hex(bytes[1..]) + rest, |bytes| - 1);
      HexBytesOfHex(bytes[1..], rest);
      assert [bytes[0]] + bytes[1..] == bytes;
    }
  }

  lemma HexBytesNone(s: string)
    ensures HexBytes(s, 0) == Some([])
  {
  }

  lemma HexHead(bytes: seq<Byte>, rest: string)
    requires bytes != []
    ensures Hex(bytes) + rest == HexFixed(bytes[0], 2, true) + (Hex(bytes[1..]) + rest)
  {
  }

  lemma {:induction false} HexAppend(a: seq<Byte>, b: seq<Byte>)
    ensures Hex(a + b) == Hex(a) + Hex(b)
    decreases |a|
  {
    if a == [] {
      assert a + b == b;
    } else {
      assert (a + b)[1..] == a[1..] + b;
      HexAppend(a[1..], b);
    }
  }

  lemma HexOne(b: Byte)
    ensures Hex([b]) == HexFixed(b, 2, true) && Sum([b]) == b as nat
  {
    assert [b][1..] == [];
    assert HexFixed(b, 2, true) + "" == HexFixed(b, 2, true);
  }

  /** Two more digits are one more byte. */
  lemma HexByte(n: nat, digits: nat)
    ensures HexFixed(n, digits + 2, true) == HexFixed(n / 256, digits, true) + HexFixed(n % 256, 2, true)
  {
    var m := n % 256;
    assert n / 16 / 16 == n / 256 && m / 16 % 16 == n / 16 % 16 && m % 16 == n % 16;
    assert HexFixed(n, digits + 2, true) == HexFixed(n / 16, digits + 1, true) + [DigitChar(n % 16, true)];
    assert HexFixed(n / 16, digits + 1, true) == HexFixed(n / 16 / 16, digits, true) + [DigitChar(n / 16 % 16, true)];
    assert HexFixed(m, 2, true) == HexFixed(m / 16, 1, true) + [DigitChar(m % 16, true)];
    assert HexFixed(m / 16, 1, true) == HexFixed(m / 16 / 16, 0, true) + [DigitChar(m / 16 % 16, true)];
  }

  lemma HexFour(b: seq<Byte>)
    requires |b| == 4
    ensures Hex(b)
            == HexFixed(b[0], 2, true) + HexFixed(b[1], 2, true) + HexFixed(b[2], 2, true) + HexFixed(b[3], 2, true)
  {
    hide Hex, HexFixed;
    assert b == [b[0]] + [b[1]] + [b[2]] + [b[3]];
    HexAppend([b[0]] + [b[1]] + [b[2]], [b[3]]);
    HexAppend([b[0]] + [b[1]], [b[2]]);
    HexAppend([b[0]], [b[1]]);
    HexOne(b[0]);
    HexOne(b[1]);
    HexOne(b[2]);
    HexOne(b[3]);
  }

  lemma AddressDigits(a: nat)
    requires a < TWO_32
    ensures a / 256 / 256 == a / 65536 && a / 65536 / 256 == a / 16777216 && a / 16777216 < 256
  {
  }

  lemma HexAddress(a: nat)
    requires a < TWO_32
    ensures HexFixed(a, 8, true) == Hex(WordBytes(a))
  {
    hide HexFixed, Hex;
    HexFour(WordBytes(a));
    AddressDigits(a);
    HexByte(a, 6);
    HexByte(a / 256, 4);
    HexByte(a / 65536, 2);
  }

  // ---------------------------------------------------------------- one record

  lemma WithSumTail(n: Byte, rest: seq<Byte>)
    ensures WithSum([n] + rest) == [n] + (rest + [Complement(n as nat + Sum(rest))])
    ensures Hex(WithSum([n] + rest))
            == HexFixed(n, 2, true) + Hex(rest) + HexFixed(Complement(n as nat + Sum(rest)), 2, true)
  {
    hide Hex, Sum, HexFixed, Complement;
    SumAppend([n], rest);
    HexOne(n);
    var check := Complement(n as nat + Sum(rest));
    HexOne(check);
    HexAppend([n] + rest, [check]);
    HexAppend([n], rest);
  }

  lemma RecordIsHex(a: nat, data: seq<Byte>)
    requires a < TWO_32 && |data| <= 250
    ensures RecordText(a, data) == "S3" + Hex(RecordBytes(a, data))
  {
    hide Hex, Sum, HexFixed, Complement, WordBytes, WithSum;
    var address := WordBytes(a);
    WithSumTail(|data| + 5, address + data);
    HexAppend(address, data);
    SumAppend(address, data);
    HexAddress(a);
  }

  lemma ComplementSum(sum: nat)
    ensures (sum + Complement(sum) as nat) % 256 == 0xFF
  {
  }

  /** All bytes of a record, the checksum included, add up to 0xFF. */
  lemma RecordSum(a: nat, data: seq<Byte>)
    requires a < TWO_32 && |data| <= 250
    ensures Sum(RecordBytes(a, data)) % 256 == 0xFF
  {
    hide Sum, Hex, Complement, WordBytes;
    var body := [(|data| + 5) as Byte] + (WordBytes(a) + data);
    SumAppend(body, [Complement(Sum(body))]);
    HexOne(Complement(Sum(body)));
    ComplementSum(Sum(body));
  }

  lemma BigEndianSnoc(b: seq<Byte>, d: Byte)
    ensures BigEndian(b + [d]) == BigEndian(b) * 256 + d as nat
  {
    assert (b + [d])[..|b|] == b;
  }

  lemma BigEndianFour(b: seq<Byte>)
    requires |b| == 4
    ensures BigEndian(b) == WordOf(b)
  {
    assert BigEndian([]) == 0;
    hide BigEndian;
    assert b == [] + [b[0]] + [b[1]] + [b[2]] + [b[3]];
    BigEndianSnoc([], b[0]);
    BigEndianSnoc([] + [b[0]], b[1]);
    BigEndianSnoc([] + [b[0]] + [b[1]], b[2]);
    BigEndianSnoc([] + [b[0]] + [b[1]] + [b[2]], b[3]);
  }

  lemma AddressBack(a: nat)
    requires a < TWO_32
    ensures BigEndian(WordBytes(a)) == a
  {
    hide BigEndian;
    BigEndianFour(WordBytes(a));
    WordBack(a);
  }

  /** The sum the checksum byte is compared with. */
  predicate ChecksOut(length: Byte, bytes: seq<Byte>)
    requires bytes != []
  {
    bytes[|bytes| - 1] == Complement(length as nat + Sum(bytes[..|bytes| - 1]))
  }

  /** A line with the right length field decodes to its address and data, or is refused for its checksum. */
  lemma DecodeHex(c: char, length: Byte, bytes: seq<Byte>)
    requires KindOf(c).Some? && !KindOf(c).value.Count?
    requires |bytes| == length as nat && AddressLength(c) < |bytes|
    ensures var a := AddressLength(c);
            Decode(['S', c] + Hex([length] + bytes))
            == if ChecksOut(length, bytes)
               then Record(KindOf(c).value, BigEndian(bytes[..a]), bytes[a..|bytes| - 1], |bytes| - 1 - a)
               else BadSum
  {
    hide Hex, Sum, HexFixed, Complement, BigEndian, HexBytes, Hex2, KindOf, AddressLength;
    var line := ['S', c] + Hex([length] + bytes);
    FindFirst(line);
    LineFields(c, length, bytes);
    Hex2OfByte(length, Hex(bytes));
    HexBytesOfHex(bytes, "");
  }

  lemma ComplementIff(x: Byte, sum: nat)
    ensures x == Complement(sum) <==> (sum + x as nat) % 256 == 0xFF
  {
    Words.ModShift(sum / 256, 256, sum % 256 + x as nat);
    assert sum + x as nat == sum / 256 * 256 + (sum % 256 + x as nat);
  }

  /** The decoder accepts such a line if and only if all its bytes, length and checksum included, add up to 0xFF. */
  lemma AcceptedIff(c: char, length: Byte, bytes: seq<Byte>)
    requires KindOf(c).Some? && !KindOf(c).value.Count?
    requires |bytes| == length as nat && AddressLength(c) < |bytes|
    ensures Decode(['S', c] + Hex([length] + bytes)).Record? <==> Sum([length] + bytes) % 256 == 0xFF
  {
    hide Hex, Sum, HexFixed, Complement, BigEndian, Decode, KindOf, AddressLength;
    var n := |bytes| - 1;
    DecodeHex(c, length, bytes);
    ComplementIff(bytes[n], length as nat + Sum(bytes[..n]));
    SumAppend([length], bytes);
    SumAppend(bytes[..n], [bytes[n]]);
    assert bytes == bytes[..n] + [bytes[n]];
    HexOne(length);
    HexOne(bytes[n]);
  }

  lemma LineFields(c: char, length: Byte, bytes: seq<Byte>)
    ensures var line := ['S', c] + Hex([length] + bytes);
            |line| >= 4 && line[1] == c && line[2..] == HexFixed(length, 2, true) + Hex(bytes)
              && line[4..] == Hex(bytes) + ""
  {
    hide Hex, HexFixed;
    HexAppend([length], bytes);
    HexOne(length);
  }

  lemma FindFirst(line: string)
    requires line != "" && line[0] == 'S'
    ensures Find(line, 'S') == Some(0)
  {
  }

  lemma DecodeRecord(a: nat, data: seq<Byte>)
    requires a < TWO_32 && |data| <= 250
    ensures Decode(RecordText(a, data)) == Record(Data, a, data, |data|)
  {
    hide Sum, Hex, Complement, WordBytes, Decode, BigEndian, RecordText, WithSum;
    RecordIsHex(a, data);
    AddressBack(a);
    WithSumTail(|data| + 5, WordBytes(a) + data);
    var n: Byte := |data| + 5;
    var address := WordBytes(a);
    var bytes := address + data + [Complement(n as nat + Sum(address + data))];
    assert bytes[..|bytes| - 1] == address + data && bytes[..4] == address && bytes[4..|bytes| - 1] == data;
    DecodeHex('3', n, bytes);
  }

  lemma DecodeHeader()
    ensures Decode(HEADER) == Record(Start, 0, [], 0)
  {
    hide Hex, Sum, Decode, BigEndian, HexFixed;
    HexThree(3, [0, 0, 0xFC]);
    DecodeZeros('0', 3, [0, 0, 0xFC]);
  }

  /** A record with address 0 and no data. */
  lemma DecodeZeros(c: char, length: Byte, bytes: seq<Byte>)
    requires KindOf(c).Some? && !KindOf(c).value.Count?
    requires |bytes| == length as nat == AddressLength(c) + 1
    requires forall i :: 0 <= i < |bytes| - 1 ==> bytes[i] == 0
    requires bytes[|bytes| - 1] as nat == 255 - length as nat
    ensures Decode(['S', c] + Hex([length] + bytes)) == Record(KindOf(c).value, 0, [], 0)
  {
    hide Hex, Decode, HexFixed, Sum, BigEndian, KindOf;
    var a := AddressLength(c);
    ZeroSum(bytes[..a]);
    ZeroAddress(bytes[..a]);
    DecodeHex(c, length, bytes);
  }

  lemma ByteDigits(b: Byte, text: string)
    requires text == [DigitChar(b as nat / 16, true), DigitChar(b as nat % 16, true)]
    ensures Hex([b]) == text
  {
    HexOne(b);
    ByteText(b);
  }

  lemma HexThree(n: Byte, bytes: seq<Byte>)
    requires n == 3 && bytes == [0, 0, 0xFC]
    ensures ['S', '0'] + Hex([n] + bytes) == HEADER
  {
    hide Hex, HexFixed;
    ByteDigits(3, "03");
    ByteDigits(0, "00");
    ByteDigits(0xFC, "FC");
    assert [n] + bytes == [3] + [0] + [0] + [0xFC];
    HexAppend([3] + [0] + [0], [0xFC]);
    HexAppend([3] + [0], [0]);
    HexAppend([3], [0]);
  }

  lemma {:induction false} ZeroSum(bytes: seq<Byte>)
    requires forall i :: 0 <= i < |bytes| ==> bytes[i] == 0
    ensures Sum(bytes) == 0
    decreases |bytes|
  {
    if bytes != [] {
      ZeroSum(bytes[1..]);
    }
  }

  lemma {:induction false} ZeroAddress(bytes: seq<Byte>)
    requires forall i :: 0 <= i < |bytes| ==> bytes[i] == 0
    ensures BigEndian(bytes) == 0
    decreases |bytes|
  {
    if bytes != [] {
      ZeroAddress(bytes[..|bytes| - 1]);
    }
  }

  lemma DecodeTrailer()
    ensures Decode(TRAILER) == Record(End, 0, [], 0)
  {
    hide Hex, Sum, Decode, BigEndian, HexFixed;
    HexFive([0, 0, 0, 0, 0xFA]);
    DecodeZeros('7', 5, [0, 0, 0, 0, 0xFA]);
  }

  lemma HexFive(bytes: seq<Byte>)
    requires bytes == [0, 0, 0, 0, 0xFA]
    ensures ['S', '7'] + Hex([5] + bytes) == TRAILER
  {
    hide Hex, HexFixed;
    ByteDigits(5, "05");
    ByteDigits(0, "00");
    ByteDigits(0xFA, "FA");
    assert [5] + bytes == [5] + [0] + [0] + [0] + [0] + [0xFA];
    HexAppend([5] + [0] + [0] + [0] + [0], [0xFA]);
    HexAppend([5] + [0] + [0] + [0], [0]);
    HexAppend([5] + [0] + [0], [0]);
    HexAppend([5] + [0], [0]);
    HexAppend([5], [0]);
  }

  // ---------------------------------------------------------------- lines

  predicate Clean(s: string) {
    forall i :: 0 <= i < |s| ==> s[i] != '\0' && s[i] != 3 as char && s[i] != '\r' && s[i] != '\n'
  }

  lemma {:induction false} ReadLine(line: string, rest: string, room: nat)
    requires Clean(line) && |line| < room
    ensures ReadRecord(line + "\n" + rest, room) == Some((line, rest))
    decreases |line|
  {
    var input := line + "\n" + rest;
    if line == "" {
      assert input == "\n" + rest;
    } else {
      assert input[1..] == line[1..] + "\n" + rest && input[0] == line[0];
      ReadLine(line[1..], rest, room - 1);
      assert [line[0]] + line[1..] == line;
    }
  }

  lemma {:induction false} HexClean(bytes: seq<Byte>)
    ensures Clean(Hex(bytes)) && |Hex(bytes)| == 2 * |bytes|
    decreases |bytes|
  {
    if bytes != [] {
      HexClean(bytes[1..]);
      var head := HexFixed(bytes[0], 2, true);
      assert forall i :: 0 <= i < 2 ==> DigitValue(head[i]) < 16;
      hide HexFixed;
    }
  }

  lemma RecordClean(a: nat, data: seq<Byte>)
    requires a < TWO_32 && |data| <= 250
    ensures Clean(RecordText(a, data)) && |RecordText(a, data)| == 2 * |data| + 14
  {
    RecordIsHex(a, data);
    HexClean(RecordBytes(a, data));
    hide Hex, RecordText;
  }
}
