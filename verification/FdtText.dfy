/**
  Device tree property values as text (boot/rpi/cmd/fdt.c): print_data shows them as cells or
  bytes, fdt_parse_prop reads them back from one or more command arguments.
 */
module FdtText {
  import opened Words
  import opened TextNumbers

  const MAX_DUMP := 64

  // ---------------------------------------------------------------- showing

  /** isprint, over the Latin-1 table of boot/rpi/lib/ctype.c. */
  predicate IsPrint(c: Byte) {
    32 <= c <= 126 || 160 <= c
  }

  predicate IsSpace(c: Byte) {
    9 <= c <= 13 || c == 32 || c == 160
  }

  predicate ScanString(s: seq<Byte>, after: Byte) {
    if s == [] then after == 0
    else if s[0] == 0 then |s| == 1 || (s[1] != 0 && ScanString(s[1..], after))
    else (IsPrint(s[0]) || IsSpace(s[0])) && ScanString(s[1..], after)
  }

  /** is_printable_string; `after` is the byte behind the data, which a final newline makes it look at. */
  predicate IsPrintableString(data: seq<Byte>, after: Byte) {
    data != [] && (data[|data| - 1] == 0 || data[|data| - 1] == 10) && ScanString(data, after)
  }

  function CellText(b: seq<Byte>): string
    requires |b| == 4
  {
    "0x" + HexFixed(WordOf(b), 8, false)
  }

  /** Cells separated by spaces. */
  function Cells(data: seq<Byte>): string
    requires 4 <= |data| && |data| % 4 == 0
    decreases |data|
  {
    if |data| == 4 then CellText(data) else CellText(data[..4]) + " " + Cells(data[4..])
  }

  function ByteText(b: Byte): string {
    HexFixed(b, 2, false)
  }

  function Bytes(data: seq<Byte>): string
    requires data != []
    decreases |data|
  {
    if |data| == 1 then ByteText(data[0]) else ByteText(data[0]) + " " + Bytes(data[1..])
  }

  /** print_data of 1 to 64 bytes that are not a string. */
  function Shown(data: seq<Byte>, after: Byte): string
    requires 1 <= |data| <= MAX_DUMP && !IsPrintableString(data, after)
  {
    if |data| % 4 == 0 then "<" + Cells(data) + ">" else "[" + Bytes(data) + "]"
  }

  // ---------------------------------------------------------------- parsing

  /** `Undefined`: the arguments end before the closing bracket. */
  datatype Parsed = Value(bytes: seq<Byte>) | Strings(args: seq<string>) | Failed | Undefined

  function SkipSpaces(s: string): (r: string)
    ensures |r| <= |s| && (r != "" ==> r[0] != ' ')
  {
    if s != "" && s[0] == ' ' then SkipSpaces(s[1..]) else s
  }

  function Total(s: string, rest: seq<string>): nat
    decreases |rest|
  {
    |s| + |rest| + if rest == [] then 0 else Total(rest[0], rest[1..])
  }

  lemma {:induction false} TotalShrinks(s: string, t: string, rest: seq<string>)
    requires |t| < |s|
    ensures Total(t, rest) < Total(s, rest)
  {
  }

  /** The cell loop: `s` is what is left of the argument, `buffer` what the buffer held. */
  function ParseCells(s: string, rest: seq<string>, buffer: nat -> Byte, acc: seq<Byte>): Parsed
    decreases Total(s, rest)
  {
    if s == "" then if rest == [] then Undefined else ParseCells(rest[0], rest[1..], buffer, acc)
    else if s[0] == '>' then Value(acc)
    else
      var skip := s[0] == '?';
      var (v, s1) := StrToU(s, 0, TWO_32);
      var s2 := if skip then s[1..] else s1;
      if |s2| >= |s| then Failed
      else
        var kept: seq<Byte> := [buffer(|acc|), buffer(|acc| + 1), buffer(|acc| + 2), buffer(|acc| + 3)];
        TotalShrinks(s, SkipSpaces(s2), rest);
        ParseCells(SkipSpaces(s2), rest, buffer, acc + if skip then kept else WordBytes(v))
  }

  lemma HexAdvances(s: string)
    requires s != "" && DigitValue(s[0]) < 16
    ensures |StrToU(s, 16, TWO_32).1| < |s|
  {
    var t := SkipPrefix(s, 16);
    if t == s {
      assert DigitRun(s, 16, 0) == DigitRun(s[1..], 16, DigitValue(s[0]));
    }
  }

  /** The byte loop. */
  function ParseBytes(s: string, rest: seq<string>, acc: seq<Byte>): Parsed
    decreases Total(s, rest)
  {
    var t := SkipSpaces(s);
    if t == "" then
      if rest == [] then Undefined else ParseBytes(rest[0], rest[1..], acc)
    else if t[0] == ']' then Value(acc)
    else if DigitValue(t[0]) >= 16 then Failed
    else
      HexAdvances(t);
      var (v, t1) := StrToU(t, 16, TWO_32);
      TotalShrinks(s, t1, rest);
      ParseBytes(t1, rest, acc + [v % 256])
  }

  /** fdt_parse_prop */
  function Parse(args: seq<string>, buffer: nat -> Byte): Parsed
    requires args != []
  {
    var s := args[0];
    if At(s, 0) == '<' then ParseCells(s[1..], args[1..], buffer, [])
    else if At(s, 0) == '[' then ParseBytes(s[1..], args[1..], [])
    else Strings(args)
  }

  // ---------------------------------------------------------------- one number

  lemma {:induction false} DigitsSpaceless(n: nat, digits: nat)
    ensures ' ' !in HexFixed(n, digits, false)
  {
    var s := HexFixed(n, digits, false);
    forall i | 0 <= i < |s|
      ensures s[i] != ' '
    {
      assert DigitValue(s[i]) < 16;
    }
  }

  lemma PowOf8()
    ensures Pow16(2) == 256 && Pow16(8) == TWO_32
  {
    assert Pow16(1) == 16;
    assert Pow16(2) == 256;
    assert Pow16(3) == 4096;
    assert Pow16(4) == 65536;
    assert Pow16(5) == 1048576;
    assert Pow16(6) == 16777216;
    assert Pow16(7) == 268435456;
  }

  lemma CellRead(b: seq<Byte>, rest: string)
    requires |b| == 4 && EndsNumber(rest)
    ensures StrToU(CellText(b) + rest, 0, TWO_32) == (WordOf(b), rest)
  {
    var n := WordOf(b);
    var digits := HexFixed(n, 8, false) + rest;
    var s := CellText(b) + rest;
    assert s[2..] == digits && s[0] == '0' && s[1] == 'x';
    RunOfHexFixed(n, 8, false, rest);
    assert Pow16(8) == TWO_32 by { PowOf8(); }
    RunStops(rest, 16, n);
    assert DigitValue(digits[0]) < 16 by { assert digits[0] == HexFixed(n, 8, false)[0]; }
    hide HexFixed, DigitRun, StrToU;
    ReadHex(n, s, digits, 0, rest, TWO_32);
  }

  lemma ByteRead(b: Byte, rest: string)
    requires EndsNumber(rest)
    ensures StrToU(ByteText(b) + rest, 16, TWO_32) == (b as nat, rest)
  {
    var s := ByteText(b) + rest;
    PowOf8();
    RunOfHexFixed(b, 2, false, rest);
    RunStops(rest, 16, b);
    assert s[1] == ByteText(b)[1] && DigitValue(s[1]) < 16;
    hide DigitRun, HexFixed;
    assert !HexPrefix(s);
  }

  // ---------------------------------------------------------------- cutting the text at spaces

  /** The rest of an argument and the arguments behind it, as they stood before they were split at spaces. */
  function Joined(s: string, rest: seq<string>): string
    decreases |rest|
  {
    if rest == [] then s else s + " " + Joined(rest[0], rest[1..])
  }

  /** A token in front of a space: the cut is there, or behind it. */
  lemma CutStep(tok: string, more: string, s: string, rest: seq<string>) returns (t: string)
    requires tok != "" && ' ' !in tok && more != "" && more[0] != ' '
    requires Joined(s, rest) == tok + " " + more
    ensures if t == "" then s == tok && rest != [] && Joined(rest[0], rest[1..]) == more
            else s == tok + " " + t && t[0] != ' ' && Joined(t, rest) == more
  {
    var text, n := tok + " " + more, |tok|;
    assert text[n] == ' ' && text[n + 1] == more[0] && text[n + 1..] == more;
    if rest == [] {
      t := more;
    } else {
      var tail := Joined(rest[0], rest[1..]);
      assert text == s + " " + tail;
      assert text[|s|] == ' ';
      BehindToken(tok, more, |s|);
      if |s| == n {
        t := "";
        assert s == text[..n] == tok && tail == text[n + 1..];
      } else {
        t := s[n + 1..];
        assert s == text[..|s|];
        assert text[..|s|] == tok + " " + more[..|s| - n - 1];
        assert more == t + " " + tail;
      }
    }
  }

  lemma BehindToken(tok: string, more: string, k: nat)
    requires more != "" && k < |tok + " " + more|
    ensures k < |tok| ==> (tok + " " + more)[k] == tok[k]
    ensures k == |tok| + 1 ==> (tok + " " + more)[k] == more[0]
  {
  }

  lemma HasSpace(s: string, rest: seq<string>)
    requires rest != []
    ensures ' ' in Joined(s, rest)
  {
    assert Joined(s, rest)[|s|] == ' ';
  }

  /** The last token has no space behind it, so it is not cut. */
  lemma NoCut(text: string, s: string, rest: seq<string>)
    requires ' ' !in text && Joined(s, rest) == text
    ensures rest == [] && s == text
  {
    if rest != [] {
      HasSpace(s, rest);
    }
  }

  // ---------------------------------------------------------------- cells

  lemma CellShape(b: seq<Byte>)
    requires |b| == 4
    ensures ' ' !in CellText(b) && CellText(b) != "" && CellText(b)[0] == '0'
  {
    DigitsSpaceless(WordOf(b), 8);
    hide HexFixed, WordOf;
  }

  /** A cell at the front of what is left is read and stored. */
  lemma CellStep(b: seq<Byte>, tail: string, rest: seq<string>, buffer: nat -> Byte, acc: seq<Byte>)
    requires |b| == 4 && EndsNumber(tail)
    ensures ParseCells(CellText(b) + tail, rest, buffer, acc) == ParseCells(SkipSpaces(tail), rest, buffer, acc + b)
  {
    CellRead(b, tail);
    BytesBack(b);
    CellShape(b);
    hide CellText, StrToU, WordOf, WordBytes, SkipSpaces;
    var s := CellText(b) + tail;
    assert s[0] == '0';
  }

  lemma CellsShape(data: seq<Byte>)
    requires 4 <= |data| && |data| % 4 == 0
    ensures Cells(data) != "" && Cells(data)[0] == '0'
  {
    CellShape(data[..4]);
    hide CellText;
    assert |data| == 4 ==> data[..4] == data;
  }

  /** However the text is cut at spaces, the cells come back. */
  lemma {:induction false} CellsBack(data: seq<Byte>, s: string, rest: seq<string>, buffer: nat -> Byte, acc: seq<Byte>)
    requires 4 <= |data| && |data| % 4 == 0 && Joined(s, rest) == Cells(data) + ">"
    ensures ParseCells(s, rest, buffer, acc) == Value(acc + data)
    decreases |data|
  {
    hide CellText, ParseCells, Joined;
    if |data| == 4 {
      CellShape(data);
      NoCut(CellText(data) + ">", s, rest);
      CellStep(data, ">", rest, buffer, acc);
      CellsEnd(rest, buffer, acc + data);
    } else {
      var first, others := data[..4], data[4..];
      assert data == first + others;
      var tok, more := CellText(first), Cells(others) + ">";
      CellShape(first);
      CellsShape(others);
      assert Cells(data) + ">" == tok + " " + more;
      hide Cells;
      assert acc + data == acc + first + others;
      var t := CutStep(tok, more, s, rest);
      if t == "" {
        assert tok + "" == tok;
        CellStep(first, "", rest, buffer, acc);
        CellsNext(rest, buffer, acc + first);
        CellsBack(others, rest[0], rest[1..], buffer, acc + first);
      } else {
        assert s == tok + (" " + t);
        CellStep(first, " " + t, rest, buffer, acc);
        SkipOne(t);
        CellsBack(others, t, rest, buffer, acc + first);
      }
    }
  }

  lemma CellsEnd(rest: seq<string>, buffer: nat -> Byte, acc: seq<Byte>)
    ensures ParseCells(SkipSpaces(">"), rest, buffer, acc) == Value(acc)
  {
  }

  lemma CellsNext(rest: seq<string>, buffer: nat -> Byte, acc: seq<Byte>)
    requires rest != []
    ensures ParseCells(SkipSpaces(""), rest, buffer, acc) == ParseCells(rest[0], rest[1..], buffer, acc)
  {
  }

  lemma SkipOne(t: string)
    requires t != "" && t[0] != ' '
    ensures SkipSpaces(" " + t) == t == SkipSpaces(t)
  {
    assert (" " + t)[1..] == t;
  }

  // ---------------------------------------------------------------- bytes

  lemma ByteShape(b: Byte)
    ensures ' ' !in ByteText(b) && |ByteText(b)| == 2 && DigitValue(ByteText(b)[0]) < 16 && ByteText(b)[0] != ']'
  {
    DigitsSpaceless(b, 2);
    assert DigitValue(HexFixed(b, 2, false)[0]) < 16;
    hide HexFixed;
  }

  lemma ByteStep(b: Byte, tail: string, rest: seq<string>, acc: seq<Byte>)
    requires EndsNumber(tail)
    ensures ParseBytes(ByteText(b) + tail, rest, acc) == ParseBytes(tail, rest, acc + [b])
  {
    ByteRead(b, tail);
    ByteShape(b);
    hide ByteText, StrToU;
    var s := ByteText(b) + tail;
    assert s[0] == ByteText(b)[0];
    NoSpaces(s);
  }

  lemma NoSpaces(t: string)
    requires t != "" && t[0] != ' '
    ensures SkipSpaces(t) == t
  {
  }

  lemma BytesShape(data: seq<Byte>)
    requires data != []
    ensures Bytes(data) != "" && Bytes(data)[0] != ' '
  {
    ByteShape(data[0]);
    hide ByteText;
  }

  /** However the text is cut at spaces, the bytes come back. */
  lemma {:induction false} ByteStreamBack(data: seq<Byte>, s: string, rest: seq<string>, acc: seq<Byte>)
    requires data != [] && Joined(s, rest) == Bytes(data) + "]"
    ensures ParseBytes(s, rest, acc) == Value(acc + data)
    decreases |data|
  {
    hide ByteText, ParseBytes, Joined;
    ByteShape(data[0]);
    var tok := ByteText(data[0]);
    if |data| == 1 {
      NoCut(tok + "]", s, rest);
      ByteStep(data[0], "]", rest, acc);
      BytesEnd(rest, acc + [data[0]]);
      assert data == [data[0]];
    } else {
      var others := data[1..];
      var more := Bytes(others) + "]";
      BytesShape(others);
      assert Bytes(data) + "]" == tok + " " + more;
      hide Bytes;
      assert acc + data == acc + [data[0]] + others;
      var t := CutStep(tok, more, s, rest);
      if t == "" {
        assert tok + "" == tok;
        ByteStep(data[0], "", rest, acc);
        BytesNext(rest, acc + [data[0]]);
        ByteStreamBack(others, rest[0], rest[1..], acc + [data[0]]);
      } else {
        assert s == tok + (" " + t);
        ByteStep(data[0], " " + t, rest, acc);
        BytesSkip(t, rest, acc + [data[0]]);
        ByteStreamBack(others, t, rest, acc + [data[0]]);
      }
    }
  }

  lemma BytesEnd(rest: seq<string>, acc: seq<Byte>)
    ensures ParseBytes("]", rest, acc) == Value(acc)
  {
  }

  lemma BytesNext(rest: seq<string>, acc: seq<Byte>)
    requires rest != []
    ensures ParseBytes("", rest, acc) == ParseBytes(rest[0], rest[1..], acc)
  {
  }

  lemma BytesSkip(t: string, rest: seq<string>, acc: seq<Byte>)
    requires t != "" && t[0] != ' '
    ensures ParseBytes(" " + t, rest, acc) == ParseBytes(t, rest, acc)
  {
    SkipOne(t);
  }

  // ---------------------------------------------------------------- the round trip

  /**
    What print_data shows of 1 to 64 bytes that are not a string, handed over in any number of
    arguments cut at its spaces, is parsed to the same bytes.
   */
  lemma ShownReadsBack(data: seq<Byte>, after: Byte, args: seq<string>, buffer: nat -> Byte)
    requires 1 <= |data| <= MAX_DUMP && !IsPrintableString(data, after)
    requires args != [] && Joined(args[0], args[1..]) == Shown(data, after)
    ensures Parse(args, buffer) == Value(data)
  {
    hide IsPrintableString, ParseCells, ParseBytes, Cells, Bytes;
    var s, rest := args[0], args[1..];
    var open := if |data| % 4 == 0 then "<" else "[";
    var inner := if |data| % 4 == 0 then Cells(data) + ">" else Bytes(data) + "]";
    assert Shown(data, after) == open + inner;
    FirstChar(s, rest, open, inner);
    if |data| % 4 == 0 {
      CellsBack(data, s[1..], rest, buffer, []);
    } else {
      ByteStreamBack(data, s[1..], rest, []);
    }
    assert [] + data == data;
  }

  lemma Leading(s: string, tail: string)
    ensures (s + " " + tail)[0] == if s == "" then ' ' else s[0]
  {
  }

  lemma FirstChar(s: string, rest: seq<string>, open: string, inner: string)
    requires |open| == 1 && open[0] != ' ' && Joined(s, rest) == open + inner
    ensures s != "" && s[0] == open[0] && Joined(s[1..], rest) == inner
  {
    var text := Joined(s, rest);
    assert text[0] == open[0] && text[1..] == inner;
    if rest != [] {
      var tail := Joined(rest[0], rest[1..]);
      assert text == s + " " + tail;
      Leading(s, tail);
      assert text[1..] == s[1..] + " " + tail;
    }
  }

  // ---------------------------------------------------------------- the loops as they run

  /** is_printable_string */
  method LooksLikeString(data: seq<Byte>, after: Byte) returns (yes: bool)
    ensures yes == IsPrintableString(data, after)
  {
    if |data| == 0 || (data[|data| - 1] != 0 && data[|data| - 1] != 10) {
      return false;
    }
    var i := 0;
    while i < |data| && (data[i] == 0 || IsPrint(data[i]) || IsSpace(data[i]))
      invariant i <= |data| && ScanString(data, after) == ScanString(data[i..], after)
    {
      assert data[i..][1..] == data[i + 1..];
      if data[i] == 0 {
        if i + 1 == |data| {
          return true;
        }
        if data[i + 1] == 0 {
          return false;
        }
      }
      i := i + 1;
    }
    return i == |data| && after == 0;
  }

  /** The cell loop of print_data. */
  method ShowCells(data: seq<Byte>) returns (out: string)
    requires 4 <= |data| && |data| % 4 == 0
    ensures out == Cells(data)
  {
    hide CellText;
    out := "";
    var j, n := 0, |data| / 4;
    assert data[0..] == data && "" + Cells(data) == Cells(data);
    while j < n
      invariant j <= n && Cells(data) == out + if j == n then "" else Cells(data[4 * j..])
    {
      var left := data[4 * j..];
      var cell := CellText(data[4 * j..4 * j + 4]);
      assert left[..4] == data[4 * j..4 * j + 4] && left[4..] == data[4 * (j + 1)..];
      if j < n - 1 {
        After(out, cell, " ", Cells(data[4 * (j + 1)..]));
        out := out + (cell + " ");
      } else {
        assert left[..4] == left;
        out := out + cell;
        assert out + "" == out;
      }
      j := j + 1;
    }
    assert out + "" == out;
  }

  lemma After(a: string, b: string, c: string, d: string)
    ensures a + (b + c + d) == a + (b + c) + d
  {
  }

  /** The byte loop of print_data. */
  method ShowBytes(data: seq<Byte>) returns (out: string)
    requires data != []
    ensures out == Bytes(data)
  {
    hide ByteText;
    out := "";
    var j := 0;
    assert data[0..] == data && "" + Bytes(data) == Bytes(data);
    while j < |data|
      invariant j <= |data| && Bytes(data) == out + if j == |data| then "" else Bytes(data[j..])
    {
      assert data[j..][1..] == data[j + 1..];
      if j < |data| - 1 {
        After(out, ByteText(data[j]), " ", Bytes(data[j + 1..]));
        out := out + (ByteText(data[j]) + " ");
      } else {
        out := out + ByteText(data[j]);
        assert out + "" == out;
      }
      j := j + 1;
    }
    assert out + "" == out;
  }

  /** print_data, for data that is not a string and not too long to dump. */
  method PrintData(data: seq<Byte>, after: Byte) returns (out: string)
    requires 1 <= |data| <= MAX_DUMP && !IsPrintableString(data, after)
    ensures out == Shown(data, after)
  {
    hide IsPrintableString, Cells, Bytes;
    if |data| % 4 == 0 {
      var cells := ShowCells(data);
      out := "<" + cells + ">";
    } else {
      var bytes := ShowBytes(data);
      out := "[" + bytes + "]";
    }
  }

  /** fdt_parse_prop, the cell branch: `k` is the argument being read, `s` what is left of it. */
  method ParseCellArgs(args: seq<string>, buffer: nat -> Byte) returns (ok: bool, data: seq<Byte>)
    requires args != [] && At(args[0], 0) == '<' && !Parse(args, buffer).Undefined?
    ensures ok <==> Parse(args, buffer).Value?
    ensures ok ==> Parse(args, buffer) == Value(data)
  {
    hide StrToU;
    data := [];
    var k, s := 0, args[0][1..];
    while At(s, 0) != '>'
      invariant k < |args| && Parse(args, buffer) == ParseCells(s, args[k + 1..], buffer, data)
      decreases Total(s, args[k + 1..])
    {
      if s == "" {
        assert args[k + 1..] != [];
        assert args[k + 1..][0] == args[k + 1] && args[k + 1..][1..] == args[k + 2..];
        k := k + 1;
        s := args[k];
      } else {
        var (v, next) := StrToU(s, 0, TWO_32);
        if s[0] != '?' {
          data := data + WordBytes(v);
        } else {
          data := data + [buffer(|data|), buffer(|data| + 1), buffer(|data| + 2), buffer(|data| + 3)];
          next := s[1..];
        }
        if |next| >= |s| {
          return false, data;
        }
        TotalShrinks(s, SkipSpaces(next), args[k + 1..]);
        s := SkipSpaces(next);
      }
    }
    ok := true;
  }

  /** fdt_parse_prop, the byte branch. */
  method ParseByteArgs(args: seq<string>, buffer: nat -> Byte) returns (ok: bool, data: seq<Byte>)
    requires args != [] && At(args[0], 0) == '[' && !Parse(args, buffer).Undefined?
    ensures ok <==> Parse(args, buffer).Value?
    ensures ok ==> Parse(args, buffer) == Value(data)
  {
    hide StrToU;
    data := [];
    var k, s := 0, args[0][1..];
    while At(s, 0) != ']'
      invariant k < |args| && Parse(args, buffer) == ParseBytes(s, args[k + 1..], data)
      decreases Total(s, args[k + 1..])
    {
      var t := SkipSpaces(s);
      if t == "" {
        assert args[k + 1..] != [];
        assert args[k + 1..][0] == args[k + 1] && args[k + 1..][1..] == args[k + 2..];
        k := k + 1;
        s := args[k];
      } else if DigitValue(t[0]) >= 16 {
        return t[0] == ']', data;
      } else {
        HexAdvances(t);
        var (v, next) := StrToU(t, 16, TWO_32);
        TotalShrinks(s, next, args[k + 1..]);
        data := data + [v % 256];
        s := next;
      }
    }
    ok := true;
  }
}
