// A parser's verdict does not depend on the text after what it read. Only a number that ends
// the text could grow, so what is appended behind one must not start with a number character.

module JsonExtend {
  import opened Prelude
  import opened Json
  import opened JsonRoundTrip

  lemma {:induction false} ExtendSpace(s: string, t: string)
    ensures SkipSpace(s + t) == if SkipSpace(s) == "" then SkipSpace(t) else SkipSpace(s) + t
  {
    if s == "" {
      assert s + t == t;
    } else if IsSpace(s[0]) {
      assert (s + t)[1..] == s[1..] + t;
      ExtendSpace(s[1..], t);
    }
  }

  /** Text in front of which a value may end. */
  predicate Separates<T>(p: Parsed<T>, t: string) {
    p.rest == "" ==> EndsNumber(t)
  }

  /** What was read, with more text behind it. */
  function Followed<T>(p: Parsed<T>, t: string): Parsed<T> {
    Parsed(p.value, p.rest + t)
  }

  lemma ExtendUnit(s: string, t: string)
    requires ParseUnit(s).Some?
    ensures ParseUnit(s + t) == ParseUnit(s)
  {
    assert forall i | 0 <= i < 6 :: (s + t)[i] == s[i];
  }

  lemma ExtendEscape(s: string, t: string)
    requires s != "" && s[0] == '\\' && ParseEscape(s).Some?
    ensures ParseEscape(s + t) == Some(Followed(ParseEscape(s).value, t))
  {
    assert (s + t)[0] == s[0] && (s + t)[1] == s[1];
    if s[1] == 'u' {
      ExtendUnit(s, t);
      assert (s + t)[6..] == s[6..] + t;
      var unit := ParseUnit(s).value;
      if !(unit < 0xD800 || 0xE000 <= unit) {
        ExtendUnit(s[6..], t);
        assert (s + t)[12..] == s[12..] + t;
      }
    } else {
      assert (s + t)[2..] == s[2..] + t;
    }
  }

  lemma {:induction false} ExtendChars(s: string, t: string)
    requires ParseChars(s).Some?
    ensures ParseChars(s + t) == Some(Followed(ParseChars(s).value, t))
    decreases |s|
  {
    assert (s + t)[0] == s[0] && (s + t)[1..] == s[1..] + t;
    if s[0] != '"' {
      if s[0] == '\\' {
        ExtendEscape(s, t);
        ExtendChars(ParseEscape(s).value.rest, t);
      } else {
        ExtendChars(s[1..], t);
      }
    }
  }

  lemma ExtendLiteral(s: string, word: string, v: JsonValue, t: string)
    requires word != "" && ParseLiteral(s, word, v).Some?
    ensures ParseLiteral(s + t, word, v) == Some(Followed(ParseLiteral(s, word, v).value, t))
  {
    assert (s + t)[|word|..] == s[|word|..] + t;
  }

  lemma ExtendNumber(s: string, t: string)
    requires ParseNumber(s).Some? && Separates(ParseNumber(s).value, t)
    ensures ParseNumber(s + t) == Some(Followed(ParseNumber(s).value, t))
  {
    var p := TakeNumber(s);
    assert s + t == p.value + (p.rest + t);
    TakeNumberOf(p.value, p.rest + t);
  }

  lemma ExtendScalar(s: string, t: string)
    requires s != "" && ParseScalar(s).Some? && Separates(ParseScalar(s).value, t)
    ensures ParseScalar(s + t) == Some(Followed(ParseScalar(s).value, t))
  {
    assert (s + t)[0] == s[0];
    match s[0]
    case '"' =>
      assert (s + t)[1..] == s[1..] + t;
      ExtendChars(s[1..], t);
    case 'n' => ExtendLiteral(s, "null", Null, t);
    case 't' => ExtendLiteral(s, "true", Bool(true), t);
    case 'f' => ExtendLiteral(s, "false", Bool(false), t);
    case _ => ExtendNumber(s, t);
  }

  lemma {:induction false} ExtendValue(s: string, t: string)
    requires ParseValue(s).Some? && Separates(ParseValue(s).value, t)
    ensures ParseValue(s + t) == Some(Followed(ParseValue(s).value, t))
    decreases |s|, 0
  {
    ExtendSpace(s, t);
    var u := SkipSpace(s);
    assert (u + t)[0] == u[0] && (u + t)[1..] == u[1..] + t;
    if u[0] == '[' {
      ExtendArrayTail(u[1..], t);
    } else if u[0] == '{' {
      ExtendObjectTail(u[1..], t);
    } else {
      ExtendScalar(u, t);
    }
  }

  lemma {:induction false} ExtendArrayTail(s: string, t: string)
    requires ParseArrayTail(s).Some?
    ensures ParseArrayTail(s + t) == Some(Followed(ParseArrayTail(s).value, t))
    decreases |s|, 2
  {
    ExtendSpace(s, t);
    var u := SkipSpace(s);
    if StartsWith(u, ']') {
      assert (u + t)[1..] == u[1..] + t;
    } else {
      assert u != "";
      assert (u + t)[0] == u[0];
      ExtendItems(s, t);
    }
  }

  lemma {:induction false} ExtendItems(s: string, t: string)
    requires ParseItems(s).Some?
    ensures ParseItems(s + t) == Some(Followed(ParseItems(s).value, t))
    decreases |s|, 1
  {
    ExtendValue(s, t);
    var rest := ParseValue(s).value.rest;
    ExtendSpace(rest, t);
    var u := SkipSpace(rest);
    assert (u + t)[0] == u[0] && (u + t)[1..] == u[1..] + t;
    if !StartsWith(u, ']') {
      ExtendItems(u[1..], t);
    }
  }

  lemma {:induction false} ExtendMember(s: string, t: string)
    requires ParseMember(s).Some? && Separates(ParseMember(s).value, t)
    ensures ParseMember(s + t) == Some(Followed(ParseMember(s).value, t))
    decreases |s|, 0
  {
    ExtendSpace(s, t);
    var u := SkipSpace(s);
    assert (u + t)[0] == u[0] && (u + t)[1..] == u[1..] + t;
    ExtendChars(u[1..], t);
    ExtendKeyed(ParseChars(u[1..]).value.rest, t);
  }

  /** The colon and the value after a key. */
  lemma {:induction false} ExtendKeyed(s: string, t: string)
    requires StartsWith(SkipSpace(s), ':') && ParseValue(SkipSpace(s)[1..]).Some?
    requires Separates(ParseValue(SkipSpace(s)[1..]).value, t)
    ensures StartsWith(SkipSpace(s + t), ':')
    ensures ParseValue(SkipSpace(s + t)[1..]) == Some(Followed(ParseValue(SkipSpace(s)[1..]).value, t))
    decreases |s|, 1
  {
    ExtendSpace(s, t);
    var w := SkipSpace(s);
    assert (w + t)[0] == w[0] && (w + t)[1..] == w[1..] + t;
    ExtendValue(w[1..], t);
  }

  lemma {:induction false} ExtendObjectTail(s: string, t: string)
    requires ParseObjectTail(s).Some?
    ensures ParseObjectTail(s + t) == Some(Followed(ParseObjectTail(s).value, t))
    decreases |s|, 2
  {
    ExtendSpace(s, t);
    var u := SkipSpace(s);
    if StartsWith(u, '}') {
      assert (u + t)[1..] == u[1..] + t;
    } else {
      assert u != "";
      assert (u + t)[0] == u[0];
      ExtendMembers(s, t);
    }
  }

  lemma {:induction false} ExtendMembers(s: string, t: string)
    requires ParseMembers(s).Some?
    ensures ParseMembers(s + t) == Some(Followed(ParseMembers(s).value, t))
    decreases |s|, 1
  {
    ExtendMember(s, t);
    var rest := ParseMember(s).value.rest;
    ExtendSpace(rest, t);
    var u := SkipSpace(rest);
    assert (u + t)[0] == u[0] && (u + t)[1..] == u[1..] + t;
    if !StartsWith(u, '}') {
      ExtendMembers(u[1..], t);
    }
  }
}
