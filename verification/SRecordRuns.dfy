/** What is saved as S-records and loaded again, and the two commands as they run. */
module SRecordRuns {
  import opened Words
  import opened TextNumbers
  import opened SRecord

  // ---------------------------------------------------------------- memory

  lemma {:induction false} StoreAppend(mem: map<nat, Byte>, a: nat, x: seq<Byte>, y: seq<Byte>)
    ensures Store(Store(mem, a, x), a + |x|, y) == Store(mem, a, x + y)
    decreases |x|
  {
    if x == [] {
      assert x + y == y;
    } else {
      assert (x + y)[1..] == x[1..] + y;
      StoreAppend(mem[a := x[0]], a + 1, x[1..], y);
    }
  }

  /** What memory holds after a store. */
  lemma {:induction false} Stored(mem: map<nat, Byte>, a: nat, data: seq<Byte>, k: nat)
    ensures k in Store(mem, a, data) <==> k in mem || a <= k < a + |data|
    ensures a <= k < a + |data| ==> Store(mem, a, data)[k] == data[k - a]
    ensures k in mem && !(a <= k < a + |data|) ==> Store(mem, a, data)[k] == mem[k]
    decreases |data|
  {
    if data != [] {
      Stored(mem[a := data[0]], a + 1, data[1..], k);
    }
  }

  lemma StoreTwo(st: Loaded, base: nat, x: seq<Byte>, y: seq<Byte>)
    requires x != [] && y != [] && base + |x| + |y| <= TWO_32
    ensures StoreRecord(StoreRecord(st, base, x), base + |x|, y) == StoreRecord(st, base, x + y)
  {
    hide Store;
    StoreAppend(st.mem, base, x, y);
  }

  // ---------------------------------------------------------------- the records one by one

  lemma LoadLine(line: string, rest: string, offset: int, st: Loaded)
    requires Clean(line) && |line| < MAX_RECORD
    ensures LoadFrom(line + "\n" + rest, offset, st)
            == match Decode(line)
               case NoRecord => Aborted(st.mem)
               case BadType => Aborted(st.mem)
               case BadSum => Aborted(st.mem)
               case Empty => LoadFrom(rest, offset, st)
               case Record(kind, addr, data, count) =>
                 if kind.Data? then if count < 0 then Undefined
                   else LoadFrom(rest, offset, StoreRecord(st, Mod32(addr + offset), data))
                 else if kind.End? then Finished(st.mem, st.low, st.high, Mod32(st.high - st.low + 1), addr)
                 else LoadFrom(rest, offset, st)
  {
    hide Decode, ReadRecord, Clean;
    ReadLine(line, rest, MAX_RECORD);
  }

  lemma LoadData(a: nat, data: seq<Byte>, rest: string, offset: int, st: Loaded)
    requires a < TWO_32 && |data| <= 250 && 0 <= a + offset < TWO_32
    ensures LoadFrom(RecordText(a, data) + "\n" + rest, offset, st)
            == LoadFrom(rest, offset, StoreRecord(st, a + offset, data))
  {
    hide Decode, LoadFrom, RecordText, Clean, StoreRecord;
    RecordClean(a, data);
    DecodeRecord(a, data);
    LoadLine(RecordText(a, data), rest, offset, st);
  }

  lemma RecordsStep(a: nat, data: seq<Byte>, rest: string)
    requires data != [] && a + |data| <= TWO_32
    ensures Records(a, data) + rest
            == RecordText(a, data[..Take(data)]) + "\n" + (Records(a + Take(data), data[Take(data)..]) + rest)
  {
    hide RecordText;
  }

  lemma RecordsNone(a: nat, rest: string)
    requires a <= TWO_32
    ensures Records(a, []) + rest == rest
  {
  }

  /** Loading the records of a range is storing the range. */
  lemma {:induction false} LoadRecords(a: nat, data: seq<Byte>, rest: string, offset: int, st: Loaded)
    requires data != [] && a + |data| <= TWO_32 && 0 <= a + offset && a + offset + |data| <= TWO_32
    ensures LoadFrom(Records(a, data) + rest, offset, st) == LoadFrom(rest, offset, StoreRecord(st, a + offset, data))
    decreases |data|
  {
    hide LoadFrom, RecordText, Records, StoreRecord;
    var n := Take(data);
    var first, others := data[..n], data[n..];
    assert data == first + others;
    var st1 := StoreRecord(st, a + offset, first);
    RecordsStep(a, data, rest);
    LoadData(a, first, Records(a + n, others) + rest, offset, st);
    if others == [] {
      RecordsNone(a + n, rest);
      assert data == first;
    } else {
      LoadRecords(a + n, others, rest, offset, st1);
      StoreTwo(st, a + offset, first, others);
    }
  }

  lemma CleanEnds()
    ensures Clean(HEADER) && Clean(TRAILER)
  {
  }

  lemma SavedParts(a: nat, data: seq<Byte>, more: string)
    requires a + |data| <= TWO_32
    ensures Saved(a, data) + more == HEADER + "\n" + (Records(a, data) + (TRAILER + "\n" + more))
  {
    hide Records;
  }

  lemma LoadEnds(a: nat, data: seq<Byte>, more: string, offset: int, mem: map<nat, Byte>)
    requires a + |data| <= TWO_32
    ensures Load(Saved(a, data) + more, offset, mem)
            == LoadFrom(Records(a, data) + (TRAILER + "\n" + more), offset, Loaded(mem, TWO_32 - 1, 0))
  {
    hide LoadFrom, Records, Decode, Clean, Saved;
    CleanEnds();
    SavedParts(a, data, more);
    DecodeHeader();
    LoadLine(HEADER, Records(a, data) + (TRAILER + "\n" + more), offset, Loaded(mem, TWO_32 - 1, 0));
  }

  lemma LoadTrailer(more: string, offset: int, st: Loaded)
    ensures LoadFrom(TRAILER + "\n" + more, offset, st)
            == Finished(st.mem, st.low, st.high, Mod32(st.high - st.low + 1), 0)
  {
    hide LoadFrom, Decode, Clean;
    CleanEnds();
    DecodeTrailer();
    LoadLine(TRAILER, more, offset, st);
  }

  /**
    Loading what was saved, `offset` further on, stores exactly the bytes saved and reports where
    they lie.  The size is computed in 32 bits.
   */
  lemma LoadsWhatWasSaved(a: nat, data: seq<Byte>, more: string, offset: int, mem: map<nat, Byte>)
    requires data != [] && a + |data| <= TWO_32 && 0 <= a + offset && a + offset + |data| <= TWO_32
    ensures Load(Saved(a, data) + more, offset, mem)
            == Finished(Store(mem, a + offset, data), a + offset, a + offset + |data| - 1, Mod32(|data|), 0)
  {
    hide LoadFrom, Records, Store, Saved;
    var st := Loaded(mem, TWO_32 - 1, 0);
    LoadEnds(a, data, more, offset, mem);
    LoadRecords(a, data, TRAILER + "\n" + more, offset, st);
    LoadTrailer(more, offset, StoreRecord(st, a + offset, data));
  }

  /** Nothing saved: the loader stores nothing, yet the size it computes is 2. */
  lemma LoadsNothing(a: nat, more: string, offset: int, mem: map<nat, Byte>)
    requires a <= TWO_32
    ensures Load(Saved(a, []) + more, offset, mem) == Finished(mem, TWO_32 - 1, 0, 2, 0)
  {
    hide LoadFrom, Records, Saved;
    LoadEnds(a, [], more, offset, mem);
    RecordsNone(a, TRAILER + "\n" + more);
    LoadTrailer(more, offset, Loaded(mem, TWO_32 - 1, 0));
  }

  /** The size reported is the count saved if and only if the count is neither 0 nor all of memory. */
  lemma SizeIff(a: nat, data: seq<Byte>, more: string, offset: int, mem: map<nat, Byte>)
    requires a + |data| <= TWO_32 && 0 <= a + offset && a + offset + |data| <= TWO_32
    ensures Load(Saved(a, data) + more, offset, mem).Finished?
    ensures Load(Saved(a, data) + more, offset, mem).size == |data| <==> 1 <= |data| < TWO_32
  {
    hide Load, Saved, Store;
    if data == [] {
      LoadsNothing(a, more, offset, mem);
    } else {
      LoadsWhatWasSaved(a, data, more, offset, mem);
    }
  }

  // ---------------------------------------------------------------- how the range is cut

  function Joined(chunks: seq<seq<Byte>>): seq<Byte> {
    if chunks == [] then [] else chunks[0] + Joined(chunks[1..])
  }

  /** The records of a run of chunks that lie one after another from `a` on. */
  function ChunkRecords(a: nat, chunks: seq<seq<Byte>>): string
    requires a + |Joined(chunks)| <= TWO_32 && forall i :: 0 <= i < |chunks| ==> 1 <= |chunks[i]| <= BYTES_PER_RECORD
    decreases |chunks|
  {
    if chunks == [] then ""
    else RecordText(a, chunks[0]) + "\n" + ChunkRecords(a + |chunks[0]|, chunks[1..])
  }

  /** The records tile the range: in order, without gap, 1 to 16 bytes each. */
  lemma {:induction false} RecordsTile(a: nat, data: seq<Byte>) returns (chunks: seq<seq<Byte>>)
    requires a + |data| <= TWO_32
    ensures forall i :: 0 <= i < |chunks| ==> 1 <= |chunks[i]| <= BYTES_PER_RECORD
    ensures Joined(chunks) == data && Records(a, data) == ChunkRecords(a, chunks)
    decreases |data|
  {
    hide RecordText;
    if data == [] {
      chunks := [];
    } else {
      var n := Take(data);
      var rest := RecordsTile(a + n, data[n..]);
      chunks := [data[..n]] + rest;
      assert chunks[1..] == rest && data == data[..n] + data[n..];
    }
  }

  // ---------------------------------------------------------------- the commands as they run

  lemma HexSnoc(bytes: seq<Byte>, b: Byte)
    ensures Hex(bytes + [b]) == Hex(bytes) + HexFixed(b, 2, true) && Sum(bytes + [b]) == Sum(bytes) + b as nat
  {
    hide Hex, Sum, HexFixed;
    HexAppend(bytes, [b]);
    SumAppend(bytes, [b]);
    HexOne(b);
  }

  lemma SumAddress(a: nat)
    requires a < TWO_32
    ensures Sum(WordBytes(a)) == a % 256 + a / 256 % 256 + a / 65536 % 256 + a / 16777216
  {
    var b := WordBytes(a);
    assert b == [] + [b[0]] + [b[1]] + [b[2]] + [b[3]];
    HexSnoc([], b[0]);
    HexSnoc([] + [b[0]], b[1]);
    HexSnoc([] + [b[0]] + [b[1]], b[2]);
    HexSnoc([] + [b[0]] + [b[1]] + [b[2]], b[3]);
  }

  /** What has been written, with the rest still to come, is the whole text. */
  ghost predicate Pending(whole: string, out: string, a: nat, left: seq<Byte>) {
    a + |left| <= TWO_32 && whole == out + Records(a, left)
  }

  lemma WriteOne(whole: string, out: string, a: nat, left: seq<Byte>, n: nat)
    requires Pending(whole, out, a, left) && left != [] && n == Take(left)
    ensures Pending(whole, out + (RecordText(a, left[..n]) + "\n"), a + n, left[n..])
  {
    hide RecordText, Records;
    RecordsStep(a, left, "");
    Unchanged(Records(a, left));
    Unchanged(Records(a + n, left[n..]));
    Regrouped(out, RecordText(a, left[..n]), "\n", Records(a + n, left[n..]));
  }

  lemma Unchanged(s: string)
    ensures s + "" == s
  {
  }

  lemma Regrouped(a: string, b: string, c: string, d: string)
    ensures a + (b + c + d) == a + (b + c) + d
  {
  }

  /** The buffers hold the bytes from `start` to `pos`. */
  ghost predicate Collected(data: seq<Byte>, start: int, pos: int, text: string, sum: nat) {
    0 <= start <= pos <= |data| && text == Hex(data[start..pos]) && sum == Sum(data[start..pos])
  }

  /** The record in the buffers is written out. */
  method DumpRecord(a: nat, ghost data: seq<Byte>, ghost start: nat, ghost pos: nat, reclen: nat, text: string,
                    sum: nat) returns (record: string)
    requires a < TWO_32 && Collected(data, start, pos, text, sum) && reclen == pos - start <= BYTES_PER_RECORD
    ensures record == RecordText(a, data[start..pos]) + "\n"
  {
    hide Hex, HexFixed, Sum;
    var length := 4 + reclen + 1;
    SumAddress(a);
    var check := Complement(sum + length % 256 + length / 256 % 256
                            + (a % 256 + a / 256 % 256 + a / 65536 % 256 + a / 16777216));
    record := "S3" + HexFixed(length, 2, true) + HexFixed(a, 8, true) + text + HexFixed(check, 2, true) + "\n";
  }

  lemma CollectOne(data: seq<Byte>, start: nat, pos: nat, text: string, sum: nat)
    requires Collected(data, start, pos, text, sum) && pos < |data|
    ensures Collected(data, start, pos + 1, text + HexFixed(data[pos], 2, true), sum + data[pos] as nat)
  {
    hide Hex, Sum, HexFixed;
    HexSnoc(data[start..pos], data[pos]);
    assert data[start..pos + 1] == data[start..pos] + [data[pos]];
  }

  lemma CollectNone(data: seq<Byte>, pos: nat)
    requires pos <= |data|
    ensures Collected(data, pos, pos, "", 0)
  {
  }

  lemma DumpOne(whole: string, out: string, a: nat, data: seq<Byte>, start: nat, pos: nat)
    requires start < pos <= |data| && Pending(whole, out, a, data[start..])
    requires pos - start == BYTES_PER_RECORD || (pos == |data| && pos - start < BYTES_PER_RECORD)
    ensures a < TWO_32 && Pending(whole, out + (RecordText(a, data[start..pos]) + "\n"), a + (pos - start), data[pos..])
  {
    hide RecordText, Records;
    var left, n := data[start..], pos - start;
    assert left[..n] == data[start..pos] && left[n..] == data[pos..];
    WriteOne(whole, out, a, left, n);
  }

  /** save_serial: bytes are collected one by one, sixteen make a record. */
  method SaveSerial(address: nat, data: seq<Byte>) returns (out: string)
    requires address + |data| <= TWO_32
    ensures out == Saved(address, data)
  {
    hide Hex, HexFixed, Sum, Records, RecordText, Pending, Collected;
    out := HEADER + "\n";
    ghost var whole := out + Records(address, data);
    var a, pos, reclen, text, sum := address, 0, 0, "", 0;
    CollectNone(data, 0);
    PendingAll(whole, out, address, data);
    var again := true;
    while again
      invariant 0 <= reclen <= pos <= |data| && reclen < BYTES_PER_RECORD && 0 <= a && 0 <= sum
      invariant Collected(data, pos - reclen, pos, text, sum)
      invariant Pending(whole, out, a, data[pos - reclen..])
      invariant if again then pos < |data| || (pos == 0 && reclen == 0) else pos == |data| && reclen == 0
      decreases |data| - pos, if again then 1 else 0
    {
      if pos < |data| {
        CollectOne(data, pos - reclen, pos, text, sum);
        sum := sum + data[pos] as nat;
        text := text + HexFixed(data[pos], 2, true);
        reclen, pos := reclen + 1, pos + 1;
      }
      if reclen == BYTES_PER_RECORD || pos == |data| {
        if reclen != 0 {
          DumpOne(whole, out, a, data, pos - reclen, pos);
          var record := DumpRecord(a, data, pos - reclen, pos, reclen, text, sum);
          out := out + record;
        }
        a, reclen, text, sum := a + reclen, 0, "", 0;
        CollectNone(data, pos);
      }
      again := pos < |data|;
    }
    PendingNone(whole, out, a, data);
    out := out + (TRAILER + "\n");
  }

  lemma PendingAll(whole: string, out: string, a: nat, data: seq<Byte>)
    requires a + |data| <= TWO_32 && whole == out + Records(a, data)
    ensures Pending(whole, out, a, data[0..])
  {
    assert data[0..] == data;
  }

  lemma PendingNone(whole: string, out: string, a: nat, data: seq<Byte>)
    requires Pending(whole, out, a, data[|data|..])
    ensures whole == out
  {
    RecordsNone(a, "");
    Unchanged(Records(a, []));
    Unchanged(out);
  }

  /** The characters already read, put in front of the line. */
  ghost function Behind(line: string, r: Option<(string, string)>): Option<(string, string)> {
    if r.None? then None else Some((line + r.value.0, r.value.1))
  }

  /** read_record: characters are collected until the line ends. */
  method ReadLineFrom(input: string) returns (ok: bool, line: string, rest: string)
    ensures ok <==> ReadRecord(input, MAX_RECORD).Some?
    ensures ok ==> ReadRecord(input, MAX_RECORD) == Some((line, rest))
  {
    line, rest := "", input;
    var room := MAX_RECORD;
    BehindNothing(ReadRecord(input, MAX_RECORD));
    while 0 < room
      invariant 0 <= room <= MAX_RECORD
      invariant ReadRecord(input, MAX_RECORD) == Behind(line, ReadRecord(rest, room))
    {
      if rest == "" || rest[0] == '\0' || rest[0] == 3 as char {
        return false, line, rest;
      }
      if rest[0] == '\r' || rest[0] == '\n' {
        rest := rest[1..];
        Unchanged(line);
        return true, line, rest;
      }
      MoveOne(line, rest, room);
      line, rest, room := line + [rest[0]], rest[1..], room - 1;
    }
    Unchanged(line);
    ok := true;
  }

  lemma BehindNothing(r: Option<(string, string)>)
    ensures r == Behind("", r)
  {
    if r.Some? {
      assert "" + r.value.0 == r.value.0;
    }
  }

  lemma MoveOne(line: string, rest: string, room: nat)
    requires 0 < room && rest != "" && rest[0] != '\0' && rest[0] != 3 as char && rest[0] != '\r' && rest[0] != '\n'
    ensures Behind(line, ReadRecord(rest, room)) == Behind(line + [rest[0]], ReadRecord(rest[1..], room - 1))
  {
    var r := ReadRecord(rest[1..], room - 1);
    if r.Some? {
      assert line + ([rest[0]] + r.value.0) == (line + [rest[0]]) + r.value.0;
    }
  }

  class Machine {
    var mem: map<nat, Byte>

    constructor (mem: map<nat, Byte>)
      ensures this.mem == mem
    {
      this.mem := mem;
    }

    /** load_serial: the entry address, or nothing when the download is aborted. */
    method LoadSerial(input: string, offset: int) returns (entry: Option<nat>, low: nat, high: nat, size: nat)
      requires !Load(input, offset, mem).Undefined?
      modifies this
      ensures var o := Load(input, offset, old(mem));
              && mem == o.mem
              && (entry.Some? <==> o.Finished?)
              && (o.Finished? ==> entry == Some(o.entry) && low == o.low && high == o.high && size == o.size)
    {
      hide Decode, ReadRecord, Store;
      var rest := input;
      low, high, size := TWO_32 - 1, 0, 0;
      while true
        invariant LoadFrom(input, offset, Loaded(old(mem), TWO_32 - 1, 0))
                  == LoadFrom(rest, offset, Loaded(mem, low, high))
        decreases |rest|
      {
        var ok, line, next := ReadLineFrom(rest);
        if !ok {
          return None, low, high, size;
        }
        var record := Decode(line);
        if record.NoRecord? || record.BadType? || record.BadSum? {
          return None, low, high, size;
        }
        if record.Record? && record.kind.Data? {
          var at := Mod32(record.addr + offset);
          mem := Store(mem, at, record.data);
          if at < low {
            low := at;
          }
          if Mod32(at + |record.data| - 1) > high {
            high := Mod32(at + |record.data| - 1);
          }
        } else if record.Record? && record.kind.End? {
          size := Mod32(high - low + 1);
          return Some(record.addr), low, high, size;
        }
        rest := next;
      }
    }
  }
}
