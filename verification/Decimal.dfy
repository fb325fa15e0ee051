// Decimal numerals: printing naturals, and the checked parse of a u128.

module Decimal {
  import opened Prelude

  predicate IsDigit(c: char) {
    '0' <= c <= '9'
  }

  function DigitChar(d: nat): (c: char)
    requires d < 10
    ensures IsDigit(c) && DigitValue(c) == d
  {
    ('0' as int + d) as char
  }

  function DigitValue(c: char): (d: nat)
    requires IsDigit(c)
    ensures d < 10
  {
    c as int - '0' as int
  }

  predicate AllDigits(s: string) {
    forall i | 0 <= i < |s| :: IsDigit(s[i])
  }

  /** The numeral of `n` without sign or leading zeros. */
  function Show(n: nat): (s: string)
    ensures s != "" && AllDigits(s)
  {
    if n < 10 then [DigitChar(n)] else Show(n / 10) + [DigitChar(n % 10)]
  }

  /** The number that the digits `s` denote when they follow digits denoting `acc`. */
  function Denote(s: string, acc: nat := 0): (n: nat)
    requires AllDigits(s)
    ensures acc <= n
  {
    if s == "" then acc else Denote(s[1..], 10 * acc + DigitValue(s[0]))
  }

  /** A numeral without redundant leading zeros. */
  predicate Canonical(s: string) {
    s != "" && AllDigits(s) && (s[0] == '0' ==> |s| == 1)
  }

  /** The digits of an amount once the optional plus is dropped. */
  function WithoutPlus(s: string): string {
    if s != "" && s[0] == '+' then s[1..] else s
  }

  /** `str::parse::<u128>`: an optional plus, then digits, every step overflow-checked. */
  function ParseU128(s: string): Option<uint128> {
    if WithoutPlus(s) == "" then None else CheckedDigits(WithoutPlus(s), 0)
  }

  function CheckedDigits(s: string, acc: uint128): Option<uint128> {
    if s == "" then Some(acc)
    else if !IsDigit(s[0]) then None
    else
      var scaled := 10 * acc;
      if scaled >= TWO_TO_THE_128 then None
      else if scaled + DigitValue(s[0]) >= TWO_TO_THE_128 then None
      else CheckedDigits(s[1..], scaled + DigitValue(s[0]))
  }

  lemma {:induction false} DenoteSnoc(s: string, c: char, acc: nat)
    requires AllDigits(s) && IsDigit(c)
    ensures Denote(s + [c], acc) == 10 * Denote(s, acc) + DigitValue(c)
  {
    if s == "" {
      assert s + [c] == [c];
      assert Denote([c], acc) == Denote([c][1..], 10 * acc + DigitValue(c));
    } else {
      assert (s + [c])[1..] == s[1..] + [c];
      DenoteSnoc(s[1..], c, 10 * acc + DigitValue(s[0]));
    }
  }

  /** Printing loses nothing. */
  lemma {:induction false} DenoteShow(n: nat)
    ensures Denote(Show(n)) == n
  {
    if n < 10 {
      assert Denote(Show(n)) == Denote(Show(n)[1..], n);
    } else {
      DenoteShow(n / 10);
      DenoteSnoc(Show(n / 10), DigitChar(n % 10), 0);
    }
  }

  lemma {:induction false} ShowCanonical(n: nat)
    ensures Canonical(Show(n))
    ensures n > 0 ==> Show(n)[0] != '0'
  {
    if n >= 10 {
      ShowCanonical(n / 10);
    }
  }

  lemma ShowStep(n: nat, d: nat)
    requires d < 10
    ensures Show(10 * n + d) == if n == 0 then [DigitChar(d)] else Show(n) + [DigitChar(d)]
  {
    assert (10 * n + d) / 10 == n && (10 * n + d) % 10 == d;
  }

  lemma DigitCharOfValue(c: char)
    requires IsDigit(c)
    ensures DigitChar(DigitValue(c)) == c
  {
  }

  /** Only the numeral `0` denotes zero. */
  lemma CanonicalPositive(s: string)
    requires Canonical(s) && s[0] != '0'
    ensures Denote(s) > 0
  {
    assert Denote(s) == Denote(s[1..], DigitValue(s[0]));
  }

  /** A canonical numeral is the one printed for the number it denotes. */
  lemma {:induction false} ShowDenote(s: string)
    requires Canonical(s)
    ensures Show(Denote(s)) == s
  {
    var init, last := s[..|s| - 1], s[|s| - 1];
    assert s == init + [last];
    DenoteSnoc(init, last, 0);
    DigitCharOfValue(last);
    ShowStep(Denote(init), DigitValue(last));
    if init != "" {
      ShowDenote(init);
      CanonicalPositive(init);
    }
  }

  lemma {:induction false} CheckedDigitsExact(s: string, acc: uint128, n: nat)
    ensures CheckedDigits(s, acc) == Some(n)
            <==> AllDigits(s) && Denote(s, acc) == n && n < 0x1_0000_0000_0000_0000_0000_0000_0000_0000
  {
    if s != "" && IsDigit(s[0]) {
      assert AllDigits(s) <==> AllDigits(s[1..]) by {
        assert forall i | 0 <= i < |s[1..]| :: s[1..][i] == s[i + 1];
        assert forall i | 1 <= i < |s| :: s[i] == s[1..][i - 1];
      }
      var next := 10 * acc + DigitValue(s[0]);
      if next < TWO_TO_THE_128 {
        CheckedDigitsExact(s[1..], next, n);
      }
    }
  }

  /** The amounts accepted are an optional plus followed by digits denoting a value below 2^128. */
  lemma ParseU128Exact(s: string, n: nat)
    ensures ParseU128(s) == Some(n)
            <==> WithoutPlus(s) != "" && AllDigits(WithoutPlus(s))
                 && Denote(WithoutPlus(s)) == n && n < 0x1_0000_0000_0000_0000_0000_0000_0000_0000
  {
    CheckedDigitsExact(WithoutPlus(s), 0, n);
  }

  /** A printed amount reads back. */
  lemma ParseU128OfShow(n: uint128)
    ensures ParseU128(Show(n)) == Some(n)
  {
    DenoteShow(n);
    ParseU128Exact(Show(n), n);
  }

  // ----- The digits themselves -----

  /** The ten digits and their values. */
  lemma DigitTable()
    ensures DigitChar(0) == '0' && DigitChar(1) == '1' && DigitChar(2) == '2' && DigitChar(3) == '3'
    ensures DigitChar(4) == '4' && DigitChar(5) == '5' && DigitChar(6) == '6' && DigitChar(7) == '7'
    ensures DigitChar(8) == '8' && DigitChar(9) == '9'
    ensures forall c :: IsDigit(c) <==> c in "0123456789"
    ensures forall c | IsDigit(c) :: DigitChar(DigitValue(c)) == c
  {
  }

  /** Numerals have base ten and their highest digit first. */
  lemma Numerals()
    ensures Show(0) == "0" && Show(7) == "7" && Show(1203) == "1203"
    ensures Denote("1203") == 1203 && Denote("0012") == 12
    ensures ParseU128("12") == Some(12) && ParseU128("+12") == Some(12) && ParseU128("012") == Some(12)
    ensures ParseU128("") == None && ParseU128("+") == None && ParseU128("-1") == None && ParseU128("1 ") == None
  {
  }
}
