// What a JSON reader sees in a frame: one `messages` array holding the values of the texts.

module FrameMeaning {
  import opened Prelude
  import opened Json
  import opened JsonRoundTrip
  import opened JsonExtend
  import opened Framing

  /** The values of a list of JSON texts; none unless every text is well-formed. */
  function ParseAll(texts: seq<string>): (r: Option<seq<JsonValue>>)
    ensures r.Some? ==> |r.value| == |texts|
  {
    if texts == [] then Some([])
    else
      var v :- Parse(texts[0]);
      var rest :- ParseAll(texts[1..]);
      Some([v] + rest)
  }

  function FrameValue(values: seq<JsonValue>): JsonValue {
    Object([Member(FRAME_KEY, Array(values))])
  }

  lemma NoNumber(u: string)
    requires u != "" && !IsNumberChar(u[0])
    ensures ParseNumber(u).None?
  {
    assert TakeNumber(u).value == "";
  }

  lemma ValueHead(s: string)
    requires ParseValue(s).Some?
    ensures SkipSpace(s) != "" && SkipSpace(s)[0] != ']'
  {
    if !IsNumberChar(SkipSpace(s)[0]) {
      NoNumber(SkipSpace(s));
    }
  }

  /** A whole text in front of a separator or a bracket is read as its value. */
  lemma TextThen(text: string, after: string)
    requires Parse(text).Some? && (StartsWith(after, ',') || StartsWith(after, ']'))
    ensures ParseValue(text + after).Some?
    ensures ParseValue(text + after).value.value == Parse(text).value
    ensures SkipSpace(ParseValue(text + after).value.rest) == after
  {
    ExtendValue(text, after);
    ExtendSpace(ParseValue(text).value.rest, after);
    assert SkipSpace(after) == after;
  }

  lemma LeadingSpace(s: string)
    ensures ParseItems(" " + s) == ParseItems(s)
  {
    assert (" " + s)[1..] == s;
    assert SkipSpace(" " + s) == SkipSpace(s);
    assert ParseValue(" " + s) == ParseValue(s);
  }

  lemma FirstItem(text: string, more: string)
    requires Parse(text).Some? && ParseItems(more).Some?
    ensures var q := ParseItems(more).value;
            ParseItems(text + (", " + more)) == Some(Parsed([Parse(text).value] + q.value, q.rest))
  {
    var after := ", " + more;
    assert after[1..] == " " + more;
    LeadingSpace(more);
    TextThen(text, after);
  }

  lemma {:induction false} ParseItemsOfJoin(texts: seq<string>, rest: string)
    requires texts != [] && ParseAll(texts).Some?
    ensures ParseItems(Join(texts) + ("]" + rest)) == Some(Parsed(ParseAll(texts).value, rest))
  {
    var close := "]" + rest;
    if |texts| == 1 {
      TextThen(texts[0], close);
      assert close[1..] == rest;
      assert ParseAll(texts).value == [Parse(texts[0]).value];
    } else {
      ParseItemsOfJoin(texts[1..], rest);
      FirstItem(texts[0], Join(texts[1..]) + close);
      Regroup(texts[0], ", " + Join(texts[1..]), close);
      Regroup(texts[0], ", ", Join(texts[1..]));
      Regroup(", ", Join(texts[1..]), close);
    }
  }

  lemma {:induction false} EscapePlain(s: string)
    requires forall i | 0 <= i < |s| :: 'a' <= s[i] <= 'z'
    ensures Escape(s) == s
  {
    if s != "" {
      EscapePlain(s[1..]);
    }
  }

  lemma QuotePlain(s: string)
    requires forall i | 0 <= i < |s| :: 'a' <= s[i] <= 'z'
    ensures Quote(s) == "\"" + s + "\""
  {
    EscapePlain(s);
  }

  lemma ParseArrayTailOfJoin(texts: seq<string>, rest: string)
    requires ParseAll(texts).Some?
    ensures ParseArrayTail(Join(texts) + ("]" + rest)) == Some(Parsed(ParseAll(texts).value, rest))
  {
    var s := Join(texts) + ("]" + rest);
    if texts == [] {
      assert s == "]" + rest && s[1..] == rest;
    } else {
      ParseItemsOfJoin(texts, rest);
      ValueHead(s);
    }
  }

  /** A reader of the frame gets exactly the values of the messages, in order. */
  lemma ParseFrame(texts: seq<string>)
    requires ParseAll(texts).Some?
    ensures Parse(Frame(texts)) == Some(FrameValue(ParseAll(texts).value))
  {
    var values := ParseAll(texts).value;
    var tail := Join(texts) + ("]" + "}");
    var body := Quote(FRAME_KEY) + (": [" + tail);
    ParseArrayTailOfJoin(texts, "}");
    ParseArrayMember(FRAME_KEY, tail, values, "}");
    ParseFrameObject(body, values);
    FrameText(texts);
  }

  lemma FrameOpenText()
    ensures FRAME_OPEN == "{" + (Quote(FRAME_KEY) + ": [")
  {
    QuotePlain(FRAME_KEY);
    FrameOpening(FRAME_KEY);
  }

  lemma FrameOpening(key: string)
    ensures "{\"" + key + "\": [" == "{" + ("\"" + key + "\"" + ": [")
  {
    assert "{\"" == "{" + "\"" && "\": [" == "\"" + ": [";
  }

  lemma FrameText(texts: seq<string>)
    ensures Frame(texts) == "{" + (Quote(FRAME_KEY) + (": [" + (Join(texts) + ("]" + "}"))))
  {
    FrameOpenText();
    assert FRAME_CLOSE == "]" + "}";
    Regroup("{", Quote(FRAME_KEY) + ": [", Join(texts));
    Regroup("{", (Quote(FRAME_KEY) + ": [") + Join(texts), FRAME_CLOSE);
    Regroup(Quote(FRAME_KEY), ": [", Join(texts));
    Regroup(Quote(FRAME_KEY), ": [" + Join(texts), FRAME_CLOSE);
    Regroup(": [", Join(texts), FRAME_CLOSE);
  }

  lemma ParseFrameObject(body: string, values: seq<JsonValue>)
    requires StartsWith(body, '"')
    requires ParseMember(body) == Some(Parsed(Member(FRAME_KEY, Array(values)), "}"))
    ensures Parse("{" + body) == Some(FrameValue(values))
  {
    assert "}" == "}" + "";
    LastMember(body, Member(FRAME_KEY, Array(values)), "");
    assert SkipSpace(body) == body;
    assert ("{" + body)[1..] == body;
    ParseValueAtOnce("{" + body);
  }

  lemma ParseFrameArray(tail: string, values: seq<JsonValue>, rest: string)
    requires ParseArrayTail(tail) == Some(Parsed(values, rest))
    ensures ParseValue(" [" + tail) == Some(Parsed(Array(values), rest))
  {
    var s := " [" + tail;
    assert s[1..] == "[" + tail;
    assert SkipSpace(s) == SkipSpace("[" + tail) == "[" + tail;
    assert ("[" + tail)[1..] == tail;
  }

  /** A member whose value is an array behind one space, in front of any text. */
  lemma ParseArrayMember(key: string, tail: string, values: seq<JsonValue>, rest: string)
    requires ParseArrayTail(tail) == Some(Parsed(values, rest))
    ensures ParseMember(Quote(key) + (": [" + tail)) == Some(Parsed(Member(key, Array(values)), rest))
  {
    var after := ": [" + tail;
    ParseFrameArray(tail, values, rest);
    assert after[1..] == " [" + tail;
    ParseMemberAtOnce(key, after);
  }
}
