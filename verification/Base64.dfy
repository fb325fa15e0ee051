// Base64 with padding (RFC 4648, section 4): the text form of `cosmwasm_std::Binary`.

module Base64 {
  import opened Prelude

  type sextet = n: nat | n < 64

  // ----- Bytes and groups of six bits -----

  /** Three bytes make four groups; one or two left over make two or three, filled with zeros. */
  function ToSextets(bs: seq<byte>): seq<sextet> {
    if bs == [] then []
    else if |bs| == 1 then [bs[0] / 4, bs[0] % 4 * 16]
    else if |bs| == 2 then [bs[0] / 4, bs[0] % 4 * 16 + bs[1] / 16, bs[1] % 16 * 4]
    else
      [bs[0] / 4, bs[0] % 4 * 16 + bs[1] / 16, bs[1] % 16 * 4 + bs[2] / 64, bs[2] % 64]
      + ToSextets(bs[3..])
  }

  function Bytes(a: sextet, b: sextet, c: sextet, d: sextet): seq<byte> {
    [4 * (a as int) + b / 16, 16 * (b % 16 as int) + c / 4, 64 * (c % 4 as int) + d]
  }

  /** Unused bits must be zero. */
  function OfSextets(ss: seq<sextet>): Option<seq<byte>> {
    if ss == [] then Some([])
    else if |ss| == 1 then None
    else if |ss| == 2 then
      if ss[1] % 16 == 0 then Some(Bytes(ss[0], ss[1], 0, 0)[..1]) else None
    else if |ss| == 3 then
      if ss[2] % 4 == 0 then Some(Bytes(ss[0], ss[1], ss[2], 0)[..2]) else None
    else
      var rest :- OfSextets(ss[4..]);
      Some(Bytes(ss[0], ss[1], ss[2], ss[3]) + rest)
  }

  lemma OfSextetsStep(a: sextet, b: sextet, c: sextet, d: sextet, ss: seq<sextet>)
    ensures OfSextets([a, b, c, d] + ss) == var rest :- OfSextets(ss); Some(Bytes(a, b, c, d) + rest)
  {
    assert ([a, b, c, d] + ss)[4..] == ss;
  }

  lemma OneByteBack(x: byte)
    ensures OfSextets([x / 4, x % 4 * 16]) == Some([x])
  {
    var ss: seq<sextet> := [x / 4, x % 4 * 16];
    assert ss[1] % 16 == 0 && Bytes(ss[0], ss[1], 0, 0)[0] == x;
    assert Bytes(ss[0], ss[1], 0, 0)[..1] == [x];
  }

  lemma TwoBytesBack(x: byte, y: byte)
    ensures OfSextets([x / 4, x % 4 * 16 + y / 16, y % 16 * 4]) == Some([x, y])
  {
    var ss: seq<sextet> := [x / 4, x % 4 * 16 + y / 16, y % 16 * 4];
    var bs := Bytes(ss[0], ss[1], ss[2], 0);
    assert ss[1] / 16 == x % 4 && ss[1] % 16 == y / 16 && ss[2] / 4 == y % 16 && ss[2] % 4 == 0;
    assert bs[0] == x && bs[1] == y;
    assert bs[..2] == [x, y];
  }

  lemma FewSextets(bs: seq<byte>)
    ensures |bs| == 1 ==> ToSextets(bs) == [bs[0] / 4, bs[0] % 4 * 16]
    ensures |bs| == 2 ==> ToSextets(bs) == [bs[0] / 4, bs[0] % 4 * 16 + bs[1] / 16, bs[1] % 16 * 4]
  {
  }

  lemma ThreeBytesBack(x: byte, y: byte, z: byte)
    ensures Bytes(x / 4, x % 4 * 16 + y / 16, y % 16 * 4 + z / 64, z % 64) == [x, y, z]
  {
    var b: sextet, c: sextet := x % 4 * 16 + y / 16, y % 16 * 4 + z / 64;
    assert b / 16 == x % 4 && b % 16 == y / 16;
    assert c / 4 == y % 16 && c % 4 == z / 64;
  }

  lemma BytesStep(x: byte, y: byte, z: byte, rest: seq<byte>)
    requires OfSextets(ToSextets(rest)) == Some(rest)
    ensures OfSextets(ToSextets([x, y, z] + rest)) == Some([x, y, z] + rest)
  {
    var a, b, c, d := x / 4, x % 4 * 16 + y / 16, y % 16 * 4 + z / 64, z % 64;
    assert ([x, y, z] + rest)[3..] == rest;
    assert ToSextets([x, y, z] + rest) == [a, b, c, d] + ToSextets(rest);
    ThreeBytesBack(x, y, z);
    OfSextetsStep(a, b, c, d, ToSextets(rest));
  }

  lemma {:induction false} OfSextetsToSextets(bs: seq<byte>)
    ensures OfSextets(ToSextets(bs)) == Some(bs)
  {
    if |bs| >= 3 {
      OfSextetsToSextets(bs[3..]);
      BytesStep(bs[0], bs[1], bs[2], bs[3..]);
      assert bs == [bs[0], bs[1], bs[2]] + bs[3..];
    } else if |bs| == 2 {
      FewSextets(bs);
      TwoBytesBack(bs[0], bs[1]);
      assert bs == [bs[0], bs[1]];
    } else if |bs| == 1 {
      FewSextets(bs);
      OneByteBack(bs[0]);
      assert bs == [bs[0]];
    }
  }

  // ----- Digits and padding -----

  function Digit(v: sextet): char {
    if v < 26 then ('A' as int + v) as char
    else if v < 52 then ('a' as int + (v - 26)) as char
    else if v < 62 then ('0' as int + (v - 52)) as char
    else if v == 62 then '+'
    else '/'
  }

  function DigitValue(c: char): Option<sextet> {
    if 'A' <= c <= 'Z' then Some(c as int - 'A' as int)
    else if 'a' <= c <= 'z' then Some(c as int - 'a' as int + 26)
    else if '0' <= c <= '9' then Some(c as int - '0' as int + 52)
    else if c == '+' then Some(62)
    else if c == '/' then Some(63)
    else None
  }

  function Digits(ss: seq<sextet>): (s: string)
    ensures |s| == |ss|
  {
    if ss == [] then "" else [Digit(ss[0])] + Digits(ss[1..])
  }

  function DigitValues(s: string): (r: Option<seq<sextet>>)
    ensures r.Some? ==> |r.value| == |s|
  {
    if s == "" then Some([])
    else
      var v :- DigitValue(s[0]);
      var rest :- DigitValues(s[1..]);
      Some([v] + rest)
  }

  lemma {:induction false} DigitValuesOfDigits(ss: seq<sextet>)
    ensures DigitValues(Digits(ss)) == Some(ss)
  {
    if ss != [] {
      assert DigitValue(Digit(ss[0])) == Some(ss[0]);
      DigitValuesOfDigits(ss[1..]);
      assert ss == [ss[0]] + ss[1..];
    }
  }

  lemma {:induction false} DigitsOfDigitValues(s: string)
    requires DigitValues(s).Some?
    ensures Digits(DigitValues(s).value) == s
    ensures forall i | 0 <= i < |s| :: s[i] != '='
  {
    if s != "" {
      DigitsOfDigitValues(s[1..]);
      assert Digit(DigitValue(s[0]).value) == s[0];
      assert s == [s[0]] + s[1..];
    }
  }

  /** The padding that makes the length a multiple of four. */
  function Padding(n: nat): (p: string)
    requires n % 4 != 1
    ensures (n + |p|) % 4 == 0
  {
    if n % 4 == 2 then "==" else if n % 4 == 3 then "=" else ""
  }

  function PaddingLength(s: string): (n: nat)
    ensures n <= |s|
  {
    if |s| < 2 || s[|s| - 1] != '=' then 0 else if s[|s| - 2] != '=' then 1 else 2
  }

  lemma {:induction false} ToSextetsLength(bs: seq<byte>)
    ensures |ToSextets(bs)| % 4 != 1
    ensures bs != [] ==> |ToSextets(bs)| >= 2
  {
    if |bs| >= 3 {
      ToSextetsLength(bs[3..]);
    }
  }

  function Encode(bs: seq<byte>): string {
    ToSextetsLength(bs);
    Digits(ToSextets(bs)) + Padding(|ToSextets(bs)|)
  }

  function Decode(s: string): Option<seq<byte>> {
    if |s| % 4 != 0 then None
    else
      var ss :- DigitValues(s[..|s| - PaddingLength(s)]);
      OfSextets(ss)
  }

  /** Every byte string comes back from its text. */
  lemma DecodeEncode(bs: seq<byte>)
    ensures Decode(Encode(bs)) == Some(bs)
  {
    var ss := ToSextets(bs);
    ToSextetsLength(bs);
    DigitValuesOfDigits(ss);
    DigitsOfDigitValues(Digits(ss));
    assert Encode(bs)[..|Encode(bs)| - PaddingLength(Encode(bs))] == Digits(ss);
    OfSextetsToSextets(bs);
  }

  // ----- The encoding itself -----

  /** RFC 4648, table 1. */
  lemma Alphabet(v: sextet)
    ensures v < 26 ==> Digit(v) == "ABCDEFGHIJKLMNOPQRSTUVWXYZ"[v]
    ensures 26 <= v < 52 ==> Digit(v) == "abcdefghijklmnopqrstuvwxyz"[v - 26]
    ensures 52 <= v < 62 ==> Digit(v) == "0123456789"[v - 52]
    ensures v == 62 ==> Digit(v) == '+'
    ensures v == 63 ==> Digit(v) == '/'
  {
  }

  /** Test vectors of RFC 4648, section 10: the text of "f", "fo" and "foo". */
  lemma Vectors()
    ensures Encode([0x66]) == "Zg==" && Encode([0x66, 0x6F]) == "Zm8=" && Encode([0x66, 0x6F, 0x6F]) == "Zm9v"
  {
    assert ToSextets([0x66]) == [25, 32];
    FourDigits(25, 32, 0, 0);
    assert ToSextets([0x66, 0x6F]) == [25, 38, 60];
    FourDigits(25, 38, 60, 0);
    var bs: seq<byte> := [0x66, 0x6F, 0x6F];
    assert bs[3..] == [];
    assert ToSextets(bs) == [25, 38, 61, 47];
    FourDigits(25, 38, 61, 47);
  }

  lemma FourDigits(a: sextet, b: sextet, c: sextet, d: sextet)
    ensures Digits([a, b]) == [Digit(a), Digit(b)]
    ensures Digits([a, b, c]) == [Digit(a), Digit(b), Digit(c)]
    ensures Digits([a, b, c, d]) == [Digit(a), Digit(b), Digit(c), Digit(d)]
  {
    DigitsStep(a, [b]);
    DigitsStep(b, []);
    DigitsStep(a, [b, c]);
    DigitsStep(b, [c]);
    DigitsStep(c, []);
    DigitsStep(a, [b, c, d]);
    DigitsStep(b, [c, d]);
    DigitsStep(c, [d]);
    DigitsStep(d, []);
  }

  lemma DigitsStep(v: sextet, ss: seq<sextet>)
    ensures Digits([v] + ss) == [Digit(v)] + Digits(ss)
  {
    assert ([v] + ss)[1..] == ss;
  }
}
