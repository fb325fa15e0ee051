// The parser undoes the printer, whatever follows the printed value.

module JsonRoundTrip {
  import opened Prelude
  import opened Decimal
  import opened Json

  /** Every number inside `v` is one RFC 8259 allows. Nothing else can go wrong in print. */
  predicate Printable(v: JsonValue)
    decreases v
  {
    match v
    case Number(lexeme) => IsNumber(lexeme)
    case Array(items) => forall i | 0 <= i < |items| :: Printable(items[i])
    case Object(members) => forall i | 0 <= i < |members| :: Printable(members[i].value)
    case _ => true
  }

  /** Text that may follow a number without being taken for part of it. */
  predicate EndsNumber(rest: string) {
    rest != "" ==> !IsNumberChar(rest[0])
  }

  // ----- Numbers -----

  lemma {:induction false} SkipDigitsTakesDigits(s: string)
    ensures SkipDigits(s) == s[|s| - |SkipDigits(s)|..]
    ensures forall i | 0 <= i < |s| - |SkipDigits(s)| :: IsDigit(s[i])
  {
    if s != "" && IsDigit(s[0]) {
      SkipDigitsTakesDigits(s[1..]);
      forall i | 0 <= i < |s| - |SkipDigits(s)| ensures IsDigit(s[i]) {
        if i > 0 {
          assert s[i] == s[1..][i - 1];
        }
      }
    }
  }

  lemma {:induction false} ExponentChars(s: string)
    requires IsExponent(s)
    ensures forall i | 0 <= i < |s| :: IsNumberChar(s[i])
  {
    if s != "" {
      var signed := |s| > 1 && (s[1] == '+' || s[1] == '-');
      var digits := if signed then s[2..] else s[1..];
      SkipDigitsTakesDigits(digits);
      forall i | 0 <= i < |s| ensures IsNumberChar(s[i]) {
        var skip := |s| - |digits|;
        if i >= skip {
          assert s[i] == digits[i - skip];
        }
      }
    }
  }

  /** Characters of `s` after its leading digits are those of `SkipDigits(s)`. */
  lemma {:induction false} DigitsThenRest(s: string)
    requires forall i | 0 <= i < |SkipDigits(s)| :: IsNumberChar(SkipDigits(s)[i])
    ensures forall i | 0 <= i < |s| :: IsNumberChar(s[i])
  {
    SkipDigitsTakesDigits(s);
    var n := |s| - |SkipDigits(s)|;
    forall i | 0 <= i < |s| ensures IsNumberChar(s[i]) {
      if i >= n {
        assert s[i] == SkipDigits(s)[i - n];
      }
    }
  }

  lemma {:induction false} FractionChars(s: string)
    requires IsFraction(s)
    ensures forall i | 0 <= i < |s| :: IsNumberChar(s[i])
  {
    if s != "" && s[0] == '.' {
      ExponentChars(SkipDigits(s[1..]));
      DigitsThenRest(s[1..]);
      assert forall i | 1 <= i < |s| :: s[i] == s[1..][i - 1];
    } else {
      ExponentChars(s);
    }
  }

  lemma {:induction false} NumberChars(s: string)
    requires IsNumber(s)
    ensures s != "" && forall i | 0 <= i < |s| :: IsNumberChar(s[i])
  {
    var signed := s[0] == '-';
    var u := if signed then s[1..] else s;
    if u[0] == '0' {
      FractionChars(u[1..]);
      assert forall i | 1 <= i < |u| :: u[i] == u[1..][i - 1];
    } else {
      FractionChars(SkipDigits(u));
      DigitsThenRest(u);
    }
    assert forall i | 0 <= i < |u| :: u[i] == s[|s| - |u| + i];
  }

  lemma {:induction false} TakeNumberOf(lexeme: string, rest: string)
    requires forall i | 0 <= i < |lexeme| :: IsNumberChar(lexeme[i])
    requires EndsNumber(rest)
    ensures TakeNumber(lexeme + rest) == Parsed(lexeme, rest)
  {
    if lexeme == "" {
      assert lexeme + rest == rest;
    } else {
      assert (lexeme + rest)[1..] == lexeme[1..] + rest;
      TakeNumberOf(lexeme[1..], rest);
      assert lexeme == [lexeme[0]] + lexeme[1..];
    }
  }

  // ----- Strings -----

  lemma HexRoundTrip(n: nat)
    requires n < 16
    ensures HexValue(HexChar(n)) == Some(n)
  {
  }

  lemma ParseEscapeOf(c: char, rest: string)
    requires EscapeChar(c) != [c]
    ensures ParseEscape(EscapeChar(c) + rest) == Some(Parsed(c, rest))
  {
    var s := EscapeChar(c) + rest;
    if SimpleEscape(EscapeChar(c)[1]).Some? && |EscapeChar(c)| == 2 {
      assert s[2..] == rest;
    } else {
      var n := c as int;
      HexRoundTrip(n / 16);
      HexRoundTrip(n % 16);
      assert s[0..6] == "\\u00" + [HexChar(n / 16), HexChar(n % 16)];
      assert s[0] == '\\' && s[1] == 'u' && s[2] == '0' && s[3] == '0';
      assert s[4] == HexChar(n / 16) && s[5] == HexChar(n % 16);
      assert ParseUnit(s) == Some(n);
      assert s[6..] == rest;
    }
  }

  lemma ParseCharsStep(c: char, after: string)
    ensures ParseChars(EscapeChar(c) + after) == var p :- ParseChars(after); Some(Parsed([c] + p.value, p.rest))
  {
    var s := EscapeChar(c) + after;
    if EscapeChar(c) == [c] {
      assert s[0] == c && s[1..] == after;
    } else {
      assert s[0] == '\\';
      ParseEscapeOf(c, after);
    }
  }

  lemma {:induction false} ParseCharsOf(text: string, rest: string)
    ensures ParseChars(Escape(text) + "\"" + rest) == Some(Parsed(text, rest))
    decreases |text|
  {
    if text == "" {
      assert ("\"" + rest)[1..] == rest;
      assert Escape(text) + "\"" + rest == "\"" + rest;
    } else {
      var after := Escape(text[1..]) + "\"" + rest;
      assert Escape(text) + "\"" + rest == EscapeChar(text[0]) + after;
      ParseCharsOf(text[1..], rest);
      ParseCharsStep(text[0], after);
      assert text == [text[0]] + text[1..];
    }
  }

  lemma ParseQuoted(text: string, rest: string)
    ensures StartsWith(Quote(text) + rest, '"')
    ensures ParseChars((Quote(text) + rest)[1..]) == Some(Parsed(text, rest))
  {
    assert (Quote(text) + rest)[1..] == Escape(text) + "\"" + rest;
    ParseCharsOf(text, rest);
  }

  // ----- Values -----

  /** Printed text begins with a character that is no white space and closes nothing. */
  lemma PrintHead(v: JsonValue)
    requires Printable(v)
    ensures Print(v) != ""
    ensures var c := Print(v)[0]; !IsSpace(c) && c != ']' && c != '}' && c != ','
  {
    if v.Number? {
      NumberChars(v.lexeme);
    }
  }

  lemma ParsePrintLiteral(v: JsonValue, rest: string)
    requires v.Null? || v.Bool?
    ensures ParseScalar(Print(v) + rest) == Some(Parsed(v, rest))
  {
    var s := Print(v) + rest;
    assert s[|Print(v)|..] == rest;
  }

  lemma ParsePrintNumber(lexeme: string, rest: string)
    requires IsNumber(lexeme) && EndsNumber(rest)
    ensures ParseScalar(lexeme + rest) == Some(Parsed(Number(lexeme), rest))
  {
    NumberChars(lexeme);
    TakeNumberOf(lexeme, rest);
    assert lexeme[0] == (lexeme + rest)[0];
  }

  lemma ParsePrintScalar(v: JsonValue, rest: string)
    requires Printable(v) && !v.Array? && !v.Object? && EndsNumber(rest)
    ensures ParseScalar(Print(v) + rest) == Some(Parsed(v, rest))
  {
    match v
    case Number(lexeme) => ParsePrintNumber(lexeme, rest);
    case String(text) => ParseQuoted(text, rest);
    case _ => ParsePrintLiteral(v, rest);
  }

  /** A value that starts at once, without white space. */
  lemma ParseValueAtOnce(s: string)
    requires s != "" && !IsSpace(s[0])
    ensures s[0] == '[' ==> ParseValue(s) == var p :- ParseArrayTail(s[1..]); Some(Parsed(Array(p.value), p.rest))
    ensures s[0] == '{' ==> ParseValue(s) == var p :- ParseObjectTail(s[1..]); Some(Parsed(Object(p.value), p.rest))
    ensures s[0] != '[' && s[0] != '{' ==> ParseValue(s) == ParseScalar(s)
  {
    assert SkipSpace(s) == s;
  }

  lemma ParseOpenedArray(tail: string, items: seq<JsonValue>, rest: string)
    requires ParseArrayTail(tail) == Some(Parsed(items, rest))
    ensures ParseValue("[" + tail) == Some(Parsed(Array(items), rest))
  {
    assert ("[" + tail)[1..] == tail;
    ParseValueAtOnce("[" + tail);
  }

  lemma ParseOpenedObject(tail: string, members: seq<Member>, rest: string)
    requires ParseObjectTail(tail) == Some(Parsed(members, rest))
    ensures ParseValue("{" + tail) == Some(Parsed(Object(members), rest))
  {
    assert ("{" + tail)[1..] == tail;
    ParseValueAtOnce("{" + tail);
  }

  lemma ParsePrintedScalar(v: JsonValue, rest: string)
    requires Printable(v) && !v.Array? && !v.Object? && EndsNumber(rest)
    ensures ParseValue(Print(v) + rest) == Some(Parsed(v, rest))
  {
    PrintHead(v);
    ParseValueAtOnce(Print(v) + rest);
    ParsePrintScalar(v, rest);
    if v.Number? {
      NumberChars(v.lexeme);
    }
  }

  lemma {:induction false} ParsePrintValue(v: JsonValue, rest: string)
    requires Printable(v) && EndsNumber(rest)
    ensures ParseValue(Print(v) + rest) == Some(Parsed(v, rest))
    decreases v, 0
  {
    if v.Array? {
      ParsePrintArrayTail(v.items, rest);
      ParseOpenedArray(PrintArrayTail(v.items) + rest, v.items, rest);
      Regroup("[", PrintArrayTail(v.items), rest);
    } else if v.Object? {
      ParsePrintObjectTail(v.members, rest);
      ParseOpenedObject(PrintObjectTail(v.members) + rest, v.members, rest);
      Regroup("{", PrintObjectTail(v.members), rest);
    } else {
      ParsePrintedScalar(v, rest);
    }
  }

  lemma {:induction false} ParsePrintArrayTail(items: seq<JsonValue>, rest: string)
    requires forall i | 0 <= i < |items| :: Printable(items[i])
    ensures ParseArrayTail(PrintArrayTail(items) + rest) == Some(Parsed(items, rest))
    decreases items, 2
  {
    var s := PrintArrayTail(items) + rest;
    if items == [] {
      assert s[1..] == rest;
    } else {
      PrintHead(items[0]);
      ParsePrintItems(items, rest);
    }
  }

  lemma PrintItemsSplit(items: seq<JsonValue>, rest: string)
    requires items != []
    ensures |items| == 1 ==> PrintItems(items) + rest == Print(items[0]) + ("]" + rest)
    ensures |items| > 1 ==> PrintItems(items) + rest == Print(items[0]) + ("," + (PrintItems(items[1..]) + rest))
  {
    if |items| == 1 {
      Regroup(Print(items[0]), "]", rest);
    } else {
      var more := PrintItems(items[1..]);
      Regroup(Print(items[0]), "," + more, rest);
      Regroup(",", more, rest);
    }
  }

  lemma OneItem(items: seq<JsonValue>, rest: string)
    requires |items| == 1 && ParseValue(Print(items[0]) + ("]" + rest)) == Some(Parsed(items[0], "]" + rest))
    ensures ParseItems(PrintItems(items) + rest) == Some(Parsed(items, rest))
  {
    LastItem(Print(items[0]) + ("]" + rest), items[0], rest);
    PrintItemsSplit(items, rest);
    assert items == [items[0]];
  }

  lemma MoreItems(items: seq<JsonValue>, rest: string, after: string)
    requires |items| > 1 && after == PrintItems(items[1..]) + rest
    requires ParseValue(Print(items[0]) + ("," + after)) == Some(Parsed(items[0], "," + after))
    requires ParseItems(after) == Some(Parsed(items[1..], rest))
    ensures ParseItems(PrintItems(items) + rest) == Some(Parsed(items, rest))
  {
    FirstOfItems(Print(items[0]) + ("," + after), items[0], after);
    PrintItemsSplit(items, rest);
    assert items == [items[0]] + items[1..];
  }

  lemma {:induction false} ParsePrintItems(items: seq<JsonValue>, rest: string)
    requires items != [] && forall i | 0 <= i < |items| :: Printable(items[i])
    ensures ParseItems(PrintItems(items) + rest) == Some(Parsed(items, rest))
    decreases items, 1
  {
    if |items| == 1 {
      ParsePrintValue(items[0], "]" + rest);
      OneItem(items, rest);
    } else {
      var after := PrintItems(items[1..]) + rest;
      ParsePrintItems(items[1..], rest);
      ParsePrintValue(items[0], "," + after);
      MoreItems(items, rest, after);
    }
  }

  lemma {:induction false} ParsePrintMember(m: Member, rest: string)
    requires Printable(m.value) && EndsNumber(rest)
    ensures ParseMember(PrintMember(m) + rest) == Some(Parsed(m, rest))
    decreases m, 1
  {
    var after := ":" + (Print(m.value) + rest);
    assert PrintMember(m) + rest == Quote(m.key) + after;
    ParsePrintValue(m.value, rest);
    assert after[1..] == Print(m.value) + rest;
    ParseMemberAtOnce(m.key, after);
  }

  /** A member whose key and colon come without white space. */
  lemma ParseMemberAtOnce(key: string, after: string)
    requires StartsWith(after, ':')
    ensures ParseMember(Quote(key) + after)
         == var p :- ParseValue(after[1..]); Some(Parsed(Member(key, p.value), p.rest))
  {
    var s := Quote(key) + after;
    ParseQuoted(key, after);
    assert SkipSpace(s) == s && SkipSpace(after) == after;
  }

  lemma {:induction false} ParsePrintObjectTail(members: seq<Member>, rest: string)
    requires forall i | 0 <= i < |members| :: Printable(members[i].value)
    ensures ParseObjectTail(PrintObjectTail(members) + rest) == Some(Parsed(members, rest))
    decreases members, 2
  {
    var s := PrintObjectTail(members) + rest;
    if members == [] {
      assert s[1..] == rest;
    } else {
      assert PrintMember(members[0])[0] == '"';
      assert PrintMember(members[0])[0] == PrintMembers(members)[0];
      assert StartsWith(s, '"');
      assert SkipSpace(s) == s;
      ParsePrintMembers(members, rest);
    }
  }

  lemma PrintMembersSplit(members: seq<Member>, rest: string)
    requires members != []
    ensures |members| == 1 ==> PrintMembers(members) + rest == PrintMember(members[0]) + ("}" + rest)
    ensures |members| > 1
        ==> PrintMembers(members) + rest == PrintMember(members[0]) + ("," + (PrintMembers(members[1..]) + rest))
  {
    if |members| == 1 {
      Regroup(PrintMember(members[0]), "}", rest);
    } else {
      var more := PrintMembers(members[1..]);
      Regroup(PrintMember(members[0]), "," + more, rest);
      Regroup(",", more, rest);
    }
  }

  lemma OneMember(members: seq<Member>, rest: string)
    requires |members| == 1
    requires ParseMember(PrintMember(members[0]) + ("}" + rest)) == Some(Parsed(members[0], "}" + rest))
    ensures ParseMembers(PrintMembers(members) + rest) == Some(Parsed(members, rest))
  {
    LastMember(PrintMember(members[0]) + ("}" + rest), members[0], rest);
    PrintMembersSplit(members, rest);
    assert members == [members[0]];
  }

  lemma MoreMembers(members: seq<Member>, rest: string, after: string)
    requires |members| > 1 && after == PrintMembers(members[1..]) + rest
    requires ParseMember(PrintMember(members[0]) + ("," + after)) == Some(Parsed(members[0], "," + after))
    requires ParseMembers(after) == Some(Parsed(members[1..], rest))
    ensures ParseMembers(PrintMembers(members) + rest) == Some(Parsed(members, rest))
  {
    FirstOfMembers(PrintMember(members[0]) + ("," + after), members[0], after);
    PrintMembersSplit(members, rest);
    assert members == [members[0]] + members[1..];
  }

  lemma {:induction false} ParsePrintMembers(members: seq<Member>, rest: string)
    requires members != [] && forall i | 0 <= i < |members| :: Printable(members[i].value)
    ensures ParseMembers(PrintMembers(members) + rest) == Some(Parsed(members, rest))
    decreases members, 1
  {
    if |members| == 1 {
      ParsePrintMember(members[0], "}" + rest);
      OneMember(members, rest);
    } else {
      var after := PrintMembers(members[1..]) + rest;
      ParsePrintMembers(members[1..], rest);
      ParsePrintMember(members[0], "," + after);
      MoreMembers(members, rest, after);
    }
  }

  /** A value with the closing bracket right behind it. */
  lemma LastItem(s: string, v: JsonValue, rest: string)
    requires ParseValue(s) == Some(Parsed(v, "]" + rest))
    ensures ParseItems(s) == Some(Parsed([v], rest))
  {
    assert SkipSpace("]" + rest) == "]" + rest && ("]" + rest)[1..] == rest;
  }

  /** A value with a comma right behind it. */
  lemma FirstOfItems(s: string, v: JsonValue, more: string)
    requires ParseValue(s) == Some(Parsed(v, "," + more))
    ensures ParseItems(s) == var q :- ParseItems(more); Some(Parsed([v] + q.value, q.rest))
  {
    assert SkipSpace("," + more) == "," + more && ("," + more)[1..] == more;
  }

  /** A member with the closing brace right behind it. */
  lemma LastMember(s: string, m: Member, rest: string)
    requires ParseMember(s) == Some(Parsed(m, "}" + rest))
    ensures ParseMembers(s) == Some(Parsed([m], rest))
  {
    assert SkipSpace("}" + rest) == "}" + rest && ("}" + rest)[1..] == rest;
  }

  /** A member with a comma right behind it. */
  lemma FirstOfMembers(s: string, m: Member, more: string)
    requires ParseMember(s) == Some(Parsed(m, "," + more))
    ensures ParseMembers(s) == var q :- ParseMembers(more); Some(Parsed([m] + q.value, q.rest))
  {
    assert SkipSpace("," + more) == "," + more && ("," + more)[1..] == more;
  }

  /** Parsing printed text returns the value that was printed. */
  lemma ParsePrint(v: JsonValue)
    requires Printable(v)
    ensures Parse(Print(v)) == Some(v)
  {
    assert Print(v) + "" == Print(v);
    ParsePrintValue(v, "");
  }
}
