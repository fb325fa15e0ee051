// A scanner that tracks nesting depth, open strings and escapes, without parsing values.

module Scanner {
  import opened Prelude
  import opened Json

  /** Between characters of a text: the nesting depth, and whether a string or an escape is open. */
  datatype ScanState = Outside(depth: nat) | Inside(depth: nat, escaped: bool)

  /** One character on; none when it is a separator or a closing bracket of the scanned level. */
  function Next(st: ScanState, c: char): Option<ScanState> {
    match st
    case Inside(d, escaped) =>
      if escaped then Some(Inside(d, false))
      else if c == '\\' then Some(Inside(d, true))
      else if c == '"' then Some(Outside(d))
      else Some(st)
    case Outside(d) =>
      if c == '"' then Some(Inside(d, false))
      else if c == '[' || c == '{' then Some(Outside(d + 1))
      else if c == ']' || c == '}' then if d == 0 then None else Some(Outside(d - 1))
      else if c == ',' && d == 0 then None
      else Some(st)
  }

  function Run(st: ScanState, s: string): Option<ScanState>
    decreases s
  {
    if s == "" then Some(st)
    else
      var next :- Next(st, s[0]);
      Run(next, s[1..])
  }

  // ----- Well-formed texts are balanced -----

  lemma {:induction false} RunConcat(st: ScanState, a: string, b: string)
    requires Run(st, a).Some?
    ensures Run(st, a + b) == Run(Run(st, a).value, b)
    decreases a
  {
    if a == "" {
      assert a + b == b;
    } else {
      assert (a + b)[1..] == a[1..] + b;
      RunConcat(Next(st, a[0]).value, a[1..], b);
    }
  }

  /** One step of the scanner. */
  lemma RunStep(st: ScanState, c: char, s: string)
    requires Next(st, c).Some?
    ensures Run(st, [c] + s) == Run(Next(st, c).value, s)
  {
    assert ([c] + s)[1..] == s;
  }

  /** A character that means nothing to the scanner outside strings. */
  predicate IsPlain(c: char) {
    c != '"' && c != ',' && c != '[' && c != ']' && c != '{' && c != '}'
  }

  lemma {:induction false} RunPlain(s: string, d: nat)
    requires forall i | 0 <= i < |s| :: IsPlain(s[i])
    ensures Run(Outside(d), s) == Some(Outside(d))
  {
    if s != "" {
      RunPlain(s[1..], d);
    }
  }

  lemma {:induction false} BalancedSpace(s: string, d: nat) returns (p: string)
    ensures s == p + SkipSpace(s) && Run(Outside(d), p) == Some(Outside(d))
  {
    if s != "" && IsSpace(s[0]) {
      var q := BalancedSpace(s[1..], d);
      p := [s[0]] + q;
      assert p[1..] == q;
    } else {
      p := "";
    }
  }

  /** The six characters of a `\\uXXXX` unit leave the scanner inside its string. */
  lemma BalancedUnit(s: string, d: nat)
    requires ParseUnit(s).Some?
    ensures Run(Inside(d, false), s[..6]) == Some(Inside(d, false))
  {
    var hex := s[..6][2..];
    assert hex == s[2..6];
    BalancedHex(hex, d);
    RunStep(Inside(d, false), '\\', "u" + hex);
    RunStep(Inside(d, true), 'u', hex);
    assert s[..6] == "\\" + ("u" + hex);
  }

  lemma BalancedEscape(s: string, d: nat) returns (p: string)
    requires s != "" && s[0] == '\\' && ParseEscape(s).Some?
    ensures s == p + ParseEscape(s).value.rest
    ensures Run(Inside(d, false), p) == Some(Inside(d, false))
  {
    if s[1] != 'u' {
      p := s[..2];
      RunStep(Inside(d, false), '\\', [s[1]]);
      RunStep(Inside(d, true), s[1], "");
      assert p == "\\" + [s[1]] && [s[1]] == [s[1]] + "";
    } else {
      BalancedUnit(s, d);
      p := s[..6];
      if ParseEscape(s).value.rest != s[6..] {
        var low := s[6..];
        BalancedUnit(low, d);
        RunConcat(Inside(d, false), s[..6], low[..6]);
        p := s[..6] + low[..6];
        assert s == p + s[12..];
      }
    }
  }

  lemma {:induction false} BalancedHex(s: string, d: nat)
    requires forall i | 0 <= i < |s| :: HexValue(s[i]).Some?
    ensures Run(Inside(d, false), s) == Some(Inside(d, false))
  {
    if s != "" {
      assert s[0] != '\\' && s[0] != '"';
      BalancedHex(s[1..], d);
    }
  }

  lemma {:induction false} BalancedChars(s: string, d: nat) returns (p: string)
    requires ParseChars(s).Some?
    ensures s == p + ParseChars(s).value.rest
    ensures Run(Inside(d, false), p) == Some(Outside(d))
    decreases |s|
  {
    if s[0] == '"' {
      p := [s[0]];
      assert p[1..] == "";
    } else {
      var q: string;
      var head := if s[0] == '\\' then ParseEscape(s).value else Parsed(s[0], s[1..]);
      if s[0] == '\\' {
        q := BalancedEscape(s, d);
      } else {
        q := [s[0]];
        assert q[1..] == "";
      }
      var r := BalancedChars(head.rest, d);
      p := q + r;
      RunConcat(Inside(d, false), q, r);
    }
  }

  /** A string, from its opening to its closing quote. */
  lemma BalancedString(s: string, d: nat) returns (p: string)
    requires StartsWith(s, '"') && ParseChars(s[1..]).Some?
    ensures s == p + ParseChars(s[1..]).value.rest
    ensures Run(Outside(d), p) == Some(Outside(d))
  {
    var q := BalancedChars(s[1..], d);
    p := [s[0]] + q;
    assert p[1..] == q;
  }

  lemma PlainLiteral(t: string, word: string, v: JsonValue)
    requires word != "" && ParseLiteral(t, word, v).Some?
    ensures t == word + ParseLiteral(t, word, v).value.rest
  {
  }

  /** Literals and numbers have only plain characters. */
  lemma PlainScalar(t: string) returns (p: string)
    requires t != "" && t[0] != '"' && ParseScalar(t).Some?
    ensures t == p + ParseScalar(t).value.rest
    ensures forall i | 0 <= i < |p| :: IsPlain(p[i])
  {
    match t[0]
    case 'n' =>
      p := "null";
      PlainLiteral(t, p, Null);
    case 't' =>
      p := "true";
      PlainLiteral(t, p, Bool(true));
    case 'f' =>
      p := "false";
      PlainLiteral(t, p, Bool(false));
    case _ =>
      p := TakeNumber(t).value;
  }

  lemma BalancedScalar(t: string, d: nat) returns (p: string)
    requires t != "" && ParseScalar(t).Some?
    ensures t == p + ParseScalar(t).value.rest
    ensures Run(Outside(d), p) == Some(Outside(d))
  {
    if t[0] == '"' {
      p := BalancedString(t, d);
    } else {
      p := PlainScalar(t);
      RunPlain(p, d);
    }
  }

  lemma {:induction false} BalancedValue(s: string, d: nat) returns (p: string)
    requires ParseValue(s).Some?
    ensures s == p + ParseValue(s).value.rest
    ensures Run(Outside(d), p) == Some(Outside(d))
    decreases |s|, 0
  {
    var space := BalancedSpace(s, d);
    var t := SkipSpace(s);
    var body: string;
    if t[0] == '[' {
      var inner := BalancedArrayTail(t[1..], d + 1);
      body := [t[0]] + inner;
      Regroup([t[0]], inner, ParseValue(s).value.rest);
      RunStep(Outside(d), t[0], inner);
    } else if t[0] == '{' {
      var inner := BalancedObjectTail(t[1..], d + 1);
      body := [t[0]] + inner;
      Regroup([t[0]], inner, ParseValue(s).value.rest);
      RunStep(Outside(d), t[0], inner);
    } else {
      body := BalancedScalar(t, d);
    }
    p := space + body;
    RunConcat(Outside(d), space, body);
    Regroup(space, body, ParseValue(s).value.rest);
  }

  lemma {:induction false} BalancedArrayTail(s: string, d: nat) returns (p: string)
    requires d > 0 && ParseArrayTail(s).Some?
    ensures s == p + ParseArrayTail(s).value.rest
    ensures Run(Outside(d), p) == Some(Outside(d - 1))
    decreases |s|, 2
  {
    if StartsWith(SkipSpace(s), ']') {
      p := BalancedClose(s, ']', d);
    } else {
      p := BalancedItems(s, d);
    }
  }

  lemma {:induction false} BalancedObjectTail(s: string, d: nat) returns (p: string)
    requires d > 0 && ParseObjectTail(s).Some?
    ensures s == p + ParseObjectTail(s).value.rest
    ensures Run(Outside(d), p) == Some(Outside(d - 1))
    decreases |s|, 2
  {
    if StartsWith(SkipSpace(s), '}') {
      p := BalancedClose(s, '}', d);
    } else {
      p := BalancedMembers(s, d);
    }
  }

  /** White space and the character `c` after it, inside a container. */
  lemma BalancedClose(s: string, c: char, d: nat) returns (p: string)
    requires d > 0 && StartsWith(SkipSpace(s), c)
    requires c == ']' || c == '}' || c == ',' || c == ':'
    ensures s == p + SkipSpace(s)[1..]
    ensures Run(Outside(d), p) == Next(Outside(d), c)
  {
    var space := BalancedSpace(s, d);
    p := space + [c];
    RunConcat(Outside(d), space, [c]);
    RunStep(Outside(d), c, "");
    assert [c] + "" == [c];
  }

  /** Items are a value and what follows it. */
  lemma ItemsParts(s: string)
    requires ParseItems(s).Some?
    ensures ParseValue(s).Some?
    ensures var t := SkipSpace(ParseValue(s).value.rest);
            if StartsWith(t, ']') then ParseItems(s).value.rest == t[1..]
            else StartsWith(t, ',') && ParseItems(t[1..]).Some?
                 && ParseItems(s).value.rest == ParseItems(t[1..]).value.rest
  {
  }

  lemma {:induction false} BalancedItems(s: string, d: nat) returns (p: string)
    requires d > 0 && ParseItems(s).Some?
    ensures s == p + ParseItems(s).value.rest
    ensures Run(Outside(d), p) == Some(Outside(d - 1))
    decreases |s|, 1
  {
    ItemsParts(s);
    var first := BalancedValue(s, d);
    var more := BalancedItemsRest(ParseValue(s).value.rest, d);
    p := first + more;
    RunConcat(Outside(d), first, more);
  }

  /** The closing bracket, or a comma and further values, after a value. */
  lemma {:induction false} BalancedItemsRest(t: string, d: nat) returns (p: string)
    requires d > 0
    requires StartsWith(SkipSpace(t), ']') || (StartsWith(SkipSpace(t), ',') && ParseItems(SkipSpace(t)[1..]).Some?)
    ensures var u := SkipSpace(t);
            t == p + (if StartsWith(u, ']') then u[1..] else ParseItems(u[1..]).value.rest)
    ensures Run(Outside(d), p) == Some(Outside(d - 1))
    decreases |t|, 2
  {
    if StartsWith(SkipSpace(t), ']') {
      p := BalancedClose(t, ']', d);
    } else {
      var comma := BalancedClose(t, ',', d);
      var more := BalancedItems(SkipSpace(t)[1..], d);
      var rest := ParseItems(SkipSpace(t)[1..]).value.rest;
      p := comma + more;
      RunConcat(Outside(d), comma, more);
      Regroup(comma, more, rest);
    }
  }

  lemma {:induction false} BalancedMember(s: string, d: nat) returns (p: string)
    requires d > 0 && ParseMember(s).Some?
    ensures s == p + ParseMember(s).value.rest
    ensures Run(Outside(d), p) == Some(Outside(d))
    decreases |s|, 0
  {
    var space := BalancedSpace(s, d);
    var t := SkipSpace(s);
    var key := BalancedString(t, d);
    var value := BalancedKeyed(ParseChars(t[1..]).value.rest, d);
    p := space + (key + value);
    RunConcat(Outside(d), space, key + value);
    RunConcat(Outside(d), key, value);
    var rest := ParseMember(s).value.rest;
    Regroup(space, key + value, rest);
    Regroup(key, value, rest);
  }

  /** The colon and the value after a key. */
  lemma {:induction false} BalancedKeyed(s: string, d: nat) returns (p: string)
    requires d > 0 && StartsWith(SkipSpace(s), ':') && ParseValue(SkipSpace(s)[1..]).Some?
    ensures s == p + ParseValue(SkipSpace(s)[1..]).value.rest
    ensures Run(Outside(d), p) == Some(Outside(d))
    decreases |s|, 1
  {
    var colon := BalancedClose(s, ':', d);
    var value := BalancedValue(SkipSpace(s)[1..], d);
    p := colon + value;
    RunConcat(Outside(d), colon, value);
    Regroup(colon, value, ParseValue(SkipSpace(s)[1..]).value.rest);
  }

  /** Members are a member and what follows it. */
  lemma MembersParts(s: string)
    requires ParseMembers(s).Some?
    ensures ParseMember(s).Some?
    ensures var t := SkipSpace(ParseMember(s).value.rest);
            if StartsWith(t, '}') then ParseMembers(s).value.rest == t[1..]
            else StartsWith(t, ',') && ParseMembers(t[1..]).Some?
                 && ParseMembers(s).value.rest == ParseMembers(t[1..]).value.rest
  {
  }

  lemma {:induction false} BalancedMembers(s: string, d: nat) returns (p: string)
    requires d > 0 && ParseMembers(s).Some?
    ensures s == p + ParseMembers(s).value.rest
    ensures Run(Outside(d), p) == Some(Outside(d - 1))
    decreases |s|, 1
  {
    MembersParts(s);
    var first := BalancedMember(s, d);
    var t := ParseMember(s).value.rest;
    var more := BalancedMembersRest(t, d);
    p := first + more;
    RunConcat(Outside(d), first, more);
  }

  /** The closing brace, or a comma and further members, after a member. */
  lemma {:induction false} BalancedMembersRest(t: string, d: nat) returns (p: string)
    requires d > 0
    requires StartsWith(SkipSpace(t), '}') || (StartsWith(SkipSpace(t), ',') && ParseMembers(SkipSpace(t)[1..]).Some?)
    ensures var u := SkipSpace(t);
            t == p + (if StartsWith(u, '}') then u[1..] else ParseMembers(u[1..]).value.rest)
    ensures Run(Outside(d), p) == Some(Outside(d - 1))
    decreases |t|, 2
  {
    if StartsWith(SkipSpace(t), '}') {
      p := BalancedClose(t, '}', d);
    } else {
      var comma := BalancedClose(t, ',', d);
      var more := BalancedMembers(SkipSpace(t)[1..], d);
      var rest := ParseMembers(SkipSpace(t)[1..]).value.rest;
      p := comma + more;
      RunConcat(Outside(d), comma, more);
      Regroup(comma, more, rest);
    }
  }

  /** A well-formed text never closes more than it opened, and has no comma of its own. */
  lemma WellFormedIsBalanced(text: string)
    requires Parse(text).Some?
    ensures Run(Outside(0), text) == Some(Outside(0))
  {
    var p := BalancedValue(text, 0);
    var rest := ParseValue(text).value.rest;
    var space := BalancedSpace(rest, 0);
    assert rest == space;
    RunConcat(Outside(0), p, space);
  }
}
