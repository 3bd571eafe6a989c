/**
  C strings and the numbers written in them.

  A C string is a `string` without its terminator; a `char *` that walks through one is the suffix
  still to be read.  Reading at the end yields the terminator, as it does in C.
  The digit loop is that of boot/rpi/lib/strto.c; `limit` is the modulus of the C type the
  result is accumulated in, so that wrap-around is explicit.
 */
module TextNumbers {

  const TWO_32: nat := 0x1_0000_0000
  const TWO_64: nat := 0x1_0000_0000_0000_0000

  datatype Option<+T> = None | Some(value: T)

  /** The character a pointer at the start of `s` sees. */
  function At(s: string, i: nat): char {
    if i < |s| then s[i] else '\0'
  }

  /** strncmp(s, prefix, |prefix|) == 0 */
  predicate StartsWith(s: string, prefix: string) {
    |prefix| <= |s| && s[..|prefix|] == prefix
  }

  /** strchr: the index of the first `c` in `s`. */
  function Find(s: string, c: char): (r: Option<nat>)
    ensures r.Some? ==> r.value < |s| && s[r.value] == c && c !in s[..r.value]
    ensures r.None? <==> c !in s
  {
    if s == [] then None
    else if s[0] == c then Some(0)
    else
      match Find(s[1..], c)
      case None => None
      case Some(i) => assert s[..i + 1] == [s[0]] + s[1..][..i]; Some(i + 1)
  }

  lemma {:induction false} FindSplit(a: string, c: char, b: string)
    requires c !in a
    ensures Find(a + [c] + b, c) == Some(|a|)
  {
    var s := a + [c] + b;
    if a == [] {
      assert s[0] == c;
    } else {
      assert s[1..] == a[1..] + [c] + b;
      FindSplit(a[1..], c, b);
    }
  }

  const NOT_A_DIGIT: nat := 99

  /** The value of a digit of any base up to 16; NOT_A_DIGIT for every other character. */
  function DigitValue(c: char): nat {
    if '0' <= c <= '9' then c as nat - '0' as nat
    else if 'a' <= c <= 'f' then c as nat - 'a' as nat + 10
    else if 'A' <= c <= 'F' then c as nat - 'A' as nat + 10
    else NOT_A_DIGIT
  }

  /** The digit loop: consumes digits below `base`, returns the value and the unread suffix. */
  function DigitRun(s: string, base: nat, acc: nat): (r: (nat, string))
    ensures |r.1| <= |s|
    ensures |r.1| == |s| ==> r.0 == acc
    decreases |s|
  {
    if s != [] && DigitValue(s[0]) < base
    then DigitRun(s[1..], base, acc * base + DigitValue(s[0]))
    else (acc, s)
  }

  predicate HexPrefix(s: string) {
    At(s, 0) == '0' && (At(s, 1) == 'x' || At(s, 1) == 'X')
  }

  /** The radix that base 0 stands for. */
  function DetectBase(s: string, base: nat): nat {
    if base != 0 then base
    else if At(s, 0) != '0' then 10
    else if HexPrefix(s) && DigitValue(At(s, 2)) < 16 then 16
    else 8
  }

  /** Reduction to an unsigned C type with `limit` values. */
  function Wrap(v: nat, limit: nat): (r: nat)
    requires 0 < limit
    ensures r < limit && (v < limit ==> r == v)
  {
    if v < limit then v else v % limit
  }

  /** The part of `s` that holds digits. */
  function SkipPrefix(s: string, base: nat): string {
    if base == 16 && HexPrefix(s) then s[2..] else s
  }

  /**
    simple_strtoul / simple_strtoull: the value and the unread suffix.  C reduces after every digit;
    reducing once at the end gives the same number.
   */
  function StrToU(s: string, base: nat, limit: nat): (r: (nat, string))
    requires 0 < limit
    ensures r.0 < limit
    ensures |r.1| <= |s|
    ensures |r.1| == |s| ==> r.0 == 0
  {
    var b := DetectBase(s, base);
    var (v, rest) := DigitRun(SkipPrefix(s, b), b, 0);
    (Wrap(v, limit), rest)
  }

  /** The lower-case (or upper-case) digit of value `d`, as printf writes it. */
  function DigitChar(d: nat, upper: bool): (c: char)
    requires d < 16
    ensures DigitValue(c) == d
    ensures c == '0' <==> d == 0
    ensures '0' <= c <= '9' || 'a' <= c <= 'f' || 'A' <= c <= 'F'
  {
    if d < 10 then ('0' as nat + d) as char
    else if upper then ('A' as nat + d - 10) as char
    else ('a' as nat + d - 10) as char
  }

  /** "%llu" (base 10) and "%llx" / "%lX" (base 16). */
  function Print(n: nat, base: nat, upper: bool): (s: string)
    requires 2 <= base <= 16
    ensures s != ""
    ensures forall i :: 0 <= i < |s| ==> DigitValue(s[i]) < base
    ensures s[0] == '0' ==> n == 0 && s == "0"
  {
    if n < base then [DigitChar(n, upper)]
    else
      DivShrinks(n, base);
      Print(n / base, base, upper) + [DigitChar(n % base, upper)]
  }

  lemma DivShrinks(n: nat, base: nat)
    requires 2 <= base <= n
    ensures 0 < n / base < n
  {
  }

  /** Exactly `digits` hexadecimal digits: "%08x" and "%02X" of values that fit. */
  function HexFixed(n: nat, digits: nat, upper: bool): (s: string)
    ensures |s| == digits
    ensures forall i :: 0 <= i < |s| ==> DigitValue(s[i]) < 16
  {
    if digits == 0 then ""
    else HexFixed(n / 16, digits - 1, upper) + [DigitChar(n % 16, upper)]
  }

  /** What printf's zero padding does: at least `width` digits. */
  function PrintPadded(n: nat, width: nat, base: nat): (s: string)
    requires 2 <= base <= 16
  {
    var s := Print(n, base, false);
    if |s| < width then seq(width - |s|, _ => '0') + s else s
  }

  lemma DivMod(n: nat, base: nat)
    requires 2 <= base
    ensures n / base * base + n % base == n
    ensures n / base <= n
  {
  }

  /** One digit is consumed by the loop and added to the value. */
  lemma RunStep(acc: nat, d: nat, upper: bool, rest: string, base: nat)
    requires d < base <= 16
    ensures DigitRun([DigitChar(d, upper)] + rest, base, acc) == DigitRun(rest, base, acc * base + d)
  {
    var s := [DigitChar(d, upper)] + rest;
    assert s[1..] == rest;
  }

  /** Reading printed digits leaves exactly the number, whatever follows. */
  lemma {:induction false} RunOfPrint(n: nat, base: nat, upper: bool, rest: string)
    requires 2 <= base <= 16
    ensures DigitRun(Print(n, base, upper) + rest, base, 0) == DigitRun(rest, base, n)
    decreases n
  {
    hide DigitRun;
    var last := [DigitChar(n % base, upper)];
    if n < base {
      RunStep(0, n, upper, rest, base);
    } else {
      DivShrinks(n, base);
      var high := Print(n / base, base, upper);
      assert high + last + rest == high + (last + rest);
      RunOfPrint(n / base, base, upper, last + rest);
      RunStep(n / base, n % base, upper, rest, base);
      DivMod(n, base);
    }
  }

  function Pow16(k: nat): (p: nat)
    ensures 0 < p
  {
    if k == 0 then 1 else 16 * Pow16(k - 1)
  }

  lemma {:induction false} RunOfHexFixed(n: nat, digits: nat, upper: bool, rest: string)
    requires n < Pow16(digits)
    ensures DigitRun(HexFixed(n, digits, upper) + rest, 16, 0) == DigitRun(rest, 16, n)
    decreases digits
  {
    hide DigitRun, DigitChar;
    if digits == 0 {
      assert HexFixed(n, digits, upper) + rest == rest;
    } else {
      var last := [DigitChar(n % 16, upper)];
      var high := HexFixed(n / 16, digits - 1, upper);
      assert high + last + rest == high + (last + rest);
      RunOfHexFixed(n / 16, digits - 1, upper, last + rest);
      RunStep(n / 16, n % 16, upper, rest, 16);
    }
  }

  /** A suffix at which reading a number of any base stops, and that cannot turn "0" into "0x". */
  predicate EndsNumber(rest: string) {
    DigitValue(At(rest, 0)) == NOT_A_DIGIT && At(rest, 0) != 'x' && At(rest, 0) != 'X'
  }

  lemma RunStops(rest: string, base: nat, n: nat)
    requires base <= 16 && EndsNumber(rest)
    ensures DigitRun(rest, base, n) == (n, rest)
  {
  }

  /** Base detection reads every printed decimal back, and leaves the pointer right behind it. */
  lemma ReadDecimal(n: nat, rest: string, limit: nat)
    requires n < limit
    requires EndsNumber(rest)
    ensures StrToU(Print(n, 10, false) + rest, 0, limit) == (n, rest)
  {
    var s := Print(n, 10, false) + rest;
    if n == 0 {
      assert s == ['0'] + rest;
      assert At(s, 1) == At(rest, 0);
      RunStep(0, 0, false, rest, 8);
      RunStops(rest, 8, 0);
    } else {
      assert s[0] == Print(n, 10, false)[0];
      RunOfPrint(n, 10, false, rest);
      RunStops(rest, 10, n);
    }
  }

  /** "0x" followed by hexadecimal digits reads back, with or without base detection. */
  lemma ReadHex(n: nat, s: string, digits: string, base: nat, rest: string, limit: nat)
    requires base == 0 || base == 16
    requires 2 < |s| && s[0] == '0' && s[1] == 'x' && s[2..] == digits && DigitValue(digits[0]) < 16
    requires n < limit && DigitRun(digits, 16, 0) == (n, rest)
    ensures StrToU(s, base, limit) == (n, rest)
  {
    hide DigitRun;
    assert s[2] == digits[0];
  }
}
