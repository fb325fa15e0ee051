// UTF-8 (RFC 3629): the bytes of a Rust string, and the strict decoder.

module Utf8 {
  import opened Prelude

  /** The low six bits of `n` as a continuation byte. */
  function Continuation(n: nat): byte {
    0x80 + n % 64
  }

  function EncodeChar(c: char): (bs: seq<byte>)
    ensures 1 <= |bs| <= 4
  {
    var n := c as int;
    if n < 0x80 then [n]
    else if n < 0x800 then [0xC0 + n / 64, Continuation(n)]
    else if n < 0x1_0000 then [0xE0 + n / 64 / 64, Continuation(n / 64), Continuation(n)]
    else [0xF0 + n / 64 / 64 / 64, Continuation(n / 64 / 64), Continuation(n / 64), Continuation(n)]
  }

  /** `String::into_bytes` */
  function Encode(s: string): seq<byte> {
    if s == "" then [] else EncodeChar(s[0]) + Encode(s[1..])
  }

  predicate IsContinuation(b: byte) {
    0x80 <= b < 0xC0
  }

  /** The number whose leading bits are `high` and whose next six bits are those of `b`. */
  function Shift(high: nat, b: byte): (n: nat)
    requires IsContinuation(b)
    ensures n / 64 == high && Continuation(n) == b
  {
    64 * high + (b - 0x80)
  }

  /** The code point at the head of `bs`, in the number of bytes its lead byte announces. */
  function DecodePoint(bs: seq<byte>): Option<nat> {
    if |bs| >= 1 && bs[0] < 0x80 then
      Some(bs[0])
    else if |bs| >= 2 && 0xC0 <= bs[0] < 0xE0 && IsContinuation(bs[1]) then
      var n := Shift(bs[0] - 0xC0, bs[1]);
      if n < 0x80 then None else Some(n)
    else if |bs| >= 3 && 0xE0 <= bs[0] < 0xF0 && IsContinuation(bs[1]) && IsContinuation(bs[2]) then
      var n := Shift(Shift(bs[0] - 0xE0, bs[1]), bs[2]);
      if n < 0x800 then None else Some(n)
    else if |bs| >= 4 && 0xF0 <= bs[0] < 0xF8
      && IsContinuation(bs[1]) && IsContinuation(bs[2]) && IsContinuation(bs[3]) then
      var n := Shift(Shift(Shift(bs[0] - 0xF0, bs[1]), bs[2]), bs[3]);
      if n < 0x1_0000 then None else Some(n)
    else None
  }

  /** The first character of `bs`; overlong forms and surrogates are rejected. */
  function DecodeChar(bs: seq<byte>): (c: Option<char>)
    ensures c.Some? ==> EncodeChar(c.value) <= bs
  {
    var n :- DecodePoint(bs);
    if n < 0xD800 || 0xE000 <= n < 0x11_0000 then Some(n as char) else None
  }

  /** `String::from_utf8` */
  function Decode(bs: seq<byte>): Option<string> {
    if bs == [] then Some("")
    else
      var c :- DecodeChar(bs);
      var rest :- Decode(bs[|EncodeChar(c)|..]);
      Some([c] + rest)
  }

  lemma DecodeCharOfEncode(c: char, rest: seq<byte>)
    ensures DecodeChar(EncodeChar(c) + rest) == Some(c)
  {
    var n := c as int;
    ShiftBack(n);
    ShiftBack(n / 64);
    ShiftBack(n / 64 / 64);
    assert DecodePoint(EncodeChar(c) + rest) == Some(n);
  }

  lemma ShiftBack(n: nat)
    ensures IsContinuation(Continuation(n)) && Shift(n / 64, Continuation(n)) == n
  {
  }

  lemma DecodeStep(c: char, rest: seq<byte>)
    ensures Decode(EncodeChar(c) + rest) == var s :- Decode(rest); Some([c] + s)
  {
    DecodeCharOfEncode(c, rest);
    assert (EncodeChar(c) + rest)[|EncodeChar(c)|..] == rest;
  }

  /** Every string survives the trip through its bytes. */
  lemma {:induction false} DecodeEncode(s: string)
    ensures Decode(Encode(s)) == Some(s)
  {
    if s != "" {
      DecodeStep(s[0], Encode(s[1..]));
      DecodeEncode(s[1..]);
      assert s == [s[0]] + s[1..];
    }
  }

  // ----- The encoding itself -----

  /** Characters of one to four bytes; the last three are from the examples of RFC 3629, section 7. */
  lemma Examples()
    ensures EncodeChar('A') == [0x41] && EncodeChar('\U{0391}') == [0xCE, 0x91]
    ensures EncodeChar('\U{2262}') == [0xE2, 0x89, 0xA2] && EncodeChar('\U{233B4}') == [0xF0, 0xA3, 0x8E, 0xB4]
    ensures Encode("A\U{0391}") == [0x41, 0xCE, 0x91]
  {
    var s := "A\U{0391}";
    assert s[1..] == ['\U{0391}'] && s[1..][1..] == [];
    assert Encode(s[1..]) == [0xCE, 0x91];
  }

  /** Overlong forms begin no text (RFC 3629, section 10). */
  lemma OverlongRejected(bs: seq<byte>)
    requires |bs| >= 2 && (bs[0] == 0xC0 || bs[0] == 0xC1 || (bs[0] == 0xE0 && bs[1] < 0xA0))
    ensures Decode(bs) == None
  {
    if |bs| >= 3 && bs[0] == 0xE0 && IsContinuation(bs[1]) && IsContinuation(bs[2]) {
      assert Shift(Shift(0, bs[1]), bs[2]) < 0x800;
    }
    assert DecodePoint(bs) == None;
  }

  /** Surrogates neither (section 3). */
  lemma SurrogatesRejected(bs: seq<byte>)
    requires |bs| >= 3 && bs[0] == 0xED && 0xA0 <= bs[1] < 0xC0 && IsContinuation(bs[2])
    ensures Decode(bs) == None
  {
    var n := Shift(Shift(0xD, bs[1]), bs[2]);
    assert 0xD800 <= n < 0xE000 && DecodePoint(bs) == Some(n);
  }

  /** Nor bytes that lead no character. */
  lemma StrayBytesRejected(bs: seq<byte>)
    requires bs != [] && (IsContinuation(bs[0]) || bs[0] >= 0xF8)
    ensures Decode(bs) == None
  {
    assert DecodePoint(bs) == None;
  }
}
