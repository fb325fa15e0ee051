// The JSON grammar on literal texts: what the printer writes and what the parser takes and refuses.

module JsonGrammar {
  import opened Prelude
  import opened Json
  import opened JsonRoundTrip

  /** The two-character escapes of RFC 8259, section 7, as they are read. */
  lemma EscapesRead()
    ensures SimpleEscape('"') == Some('"') && SimpleEscape('\\') == Some('\\') && SimpleEscape('/') == Some('/')
    ensures SimpleEscape('b') == Some('\U{0008}') && SimpleEscape('f') == Some('\U{000C}')
    ensures SimpleEscape('n') == Some('\U{000A}') && SimpleEscape('r') == Some('\U{000D}')
    ensures SimpleEscape('t') == Some('\U{0009}')
    ensures forall c | c !in "\"\\/bfnrt" :: SimpleEscape(c) == None
  {
  }

  /** As they are written; other control characters are written in hexadecimal. */
  lemma EscapesWritten()
    ensures EscapeChar('"') == "\\\"" && EscapeChar('\\') == "\\\\" && EscapeChar('/') == "/"
    ensures EscapeChar('\U{0008}') == "\\b" && EscapeChar('\U{000C}') == "\\f"
    ensures EscapeChar('\U{000A}') == "\\n" && EscapeChar('\U{000D}') == "\\r" && EscapeChar('\U{0009}') == "\\t"
    ensures EscapeChar('\U{0000}') == "\\u0000" && EscapeChar('\U{001F}') == "\\u001F"
    ensures forall c | ' ' <= c && c != '"' && c != '\\' :: EscapeChar(c) == [c]
  {
  }

  /** Hexadecimal digits, in either case. */
  lemma HexTable()
    ensures HexValue('0') == Some(0) && HexValue('1') == Some(1) && HexValue('2') == Some(2) && HexValue('3') == Some(3)
    ensures HexValue('4') == Some(4) && HexValue('5') == Some(5) && HexValue('6') == Some(6) && HexValue('7') == Some(7)
    ensures HexValue('8') == Some(8) && HexValue('9') == Some(9)
    ensures HexValue('a') == HexValue('A') == Some(10) && HexValue('b') == HexValue('B') == Some(11)
    ensures HexValue('c') == HexValue('C') == Some(12) && HexValue('d') == HexValue('D') == Some(13)
    ensures HexValue('e') == HexValue('E') == Some(14) && HexValue('f') == HexValue('F') == Some(15)
    ensures forall c | c !in "0123456789abcdefABCDEF" :: HexValue(c) == None
  {
  }

  /** Code units in hexadecimal, and the surrogate pair of RFC 8259, section 7. */
  lemma UnitsRead()
    ensures ParseEscape("\\u00e9") == Some(Parsed('\U{00E9}', ""))
    ensures ParseEscape("\\uABCDx") == Some(Parsed('\U{ABCD}', "x"))
    ensures ParseEscape("\\uD834\\uDD1E\"") == Some(Parsed('\U{1D11E}', "\""))
    ensures ParseEscape("\\uD834") == None && ParseEscape("\\uDD1E\\uD834") == None
    ensures ParseEscape("\\x") == None && ParseEscape("\\u12") == None
  {
  }

  /** The number grammar of RFC 8259, section 6. */
  lemma Numbers()
    ensures IsNumber("0") && IsNumber("-0") && IsNumber("10") && IsNumber("-1.50")
  {
  }

  lemma NumbersWithExponent()
    ensures IsNumber("1e5") && IsNumber("2E+07") && IsNumber("3.1e-2")
  {
  }

  lemma NoNumbers()
    ensures !IsNumber("") && !IsNumber("-") && !IsNumber("+1") && !IsNumber("01") && !IsNumber("1.")
    ensures !IsNumber(".5")
  {
  }

  lemma NoExponents()
    ensures !IsNumber("1e") && !IsNumber("1e+") && !IsNumber("1-")
  {
  }

  /** The compact text of every kind of value. */
  lemma Printed(text: string, v: JsonValue, w: JsonValue, k: string, l: string)
    ensures Print(Null) == "null" && Print(Bool(true)) == "true" && Print(Bool(false)) == "false"
    ensures Print(Number(text)) == text && Print(String(text)) == "\"" + Escape(text) + "\""
    ensures Print(Array([])) == "[]" && Print(Object([])) == "{}"
    ensures Print(Array([v, w])) == "[" + (Print(v) + ("," + (Print(w) + "]")))
    ensures Print(Object([Member(k, v), Member(l, w)]))
         == "{" + ((Quote(k) + ":" + Print(v)) + ("," + ((Quote(l) + ":" + Print(w)) + "}")))
  {
    var items, members := [v, w], [Member(k, v), Member(l, w)];
    assert items[1..] == [w] && members[1..] == [Member(l, w)];
    assert PrintItems([w]) == Print(w) + "]";
    assert PrintItems(items) == Print(v) + ("," + PrintItems([w]));
    assert PrintMembers([Member(l, w)]) == (Quote(l) + ":" + Print(w)) + "}";
    assert PrintMembers(members) == (Quote(k) + ":" + Print(v)) + ("," + PrintMembers([Member(l, w)]));
  }

  lemma Spaces(c: char)
    ensures IsSpace(c) <==> c == ' ' || c == '\t' || c == '\r' || c == '\n'
  {
  }

  predicate AllSpaces(s: string) {
    forall i | 0 <= i < |s| :: s[i] == ' ' || s[i] == '\t' || s[i] == '\r' || s[i] == '\n'
  }

  lemma {:induction false} SkipAllSpaces(space: string, s: string)
    requires AllSpaces(space) && (s != "" ==> !IsSpace(s[0]))
    ensures SkipSpace(space + s) == s
  {
    if space == "" {
      assert space + s == s;
    } else {
      assert (space + s)[1..] == space[1..] + s;
      SkipAllSpaces(space[1..], s);
    }
  }

  /** White space around a value is skipped; any other text behind it is refused. */
  lemma TextAround(before: string, v: JsonValue, after: string)
    requires Printable(v) && AllSpaces(before) && EndsNumber(after)
    ensures AllSpaces(after) ==> Parse(before + (Print(v) + after)) == Some(v)
    ensures SkipSpace(after) != "" ==> Parse(before + (Print(v) + after)) == None
  {
    PrintHead(v);
    var s := Print(v) + after;
    SkipAllSpaces(before, s);
    assert SkipSpace(s) == s;
    ParsePrintValue(v, after);
    assert ParseValue(before + s) == ParseValue(s);
    if AllSpaces(after) {
      SkipAllSpaces(after, "");
      assert after + "" == after;
    }
  }

  lemma NoValue(s: string)
    requires s != "" && (s[0] == ']' || s[0] == '}' || s[0] == ',' || s[0] == ':')
    ensures ParseValue(s) == None
  {
    assert SkipSpace(s) == s;
    assert TakeNumber(s).value == "";
  }

  /** No comma may stand before a closing bracket. */
  lemma TrailingCommaRefused(v: JsonValue, rest: string)
    requires Printable(v)
    ensures ParseItems(Print(v) + (",]" + rest)) == None
  {
    var after := ",]" + rest;
    ParsePrintValue(v, after);
    assert SkipSpace(after) == after && after[1..] == "]" + rest;
    NoValue("]" + rest);
  }

  /** Control characters and unknown escapes may not stand in a string. */
  lemma CharsRefused(c: char, s: string)
    ensures c < ' ' ==> ParseChars([c] + s) == None
    ensures c !in "\"\\/bfnrtu" ==> ParseChars(['\\', c] + s) == None
    ensures ParseChars("") == None
  {
    assert c !in "\"\\/bfnrtu" ==> SimpleEscape(c) == None;
  }
}
