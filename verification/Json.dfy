// JSON texts after RFC 8259: values, the compact printer and a recursive-descent parser.
// Strings are sequences of Unicode scalar values, as Rust strings are.

module Json {
  import opened Prelude
  import opened Decimal

  /** A number is kept as its lexeme, so that every RFC 8259 number is a value here. */
  datatype JsonValue =
    | Null
    | Bool(b: bool)
    | Number(lexeme: string)
    | String(text: string)
    | Array(items: seq<JsonValue>)
    | Object(members: seq<Member>)

  datatype Member = Member(key: string, value: JsonValue)

  /** What a parser read, and the text it left. */
  datatype Parsed<+T> = Parsed(value: T, rest: string)

  // ----- Lexical rules -----

  predicate IsSpace(c: char) {
    c == ' ' || c == '\t' || c == '\n' || c == '\r'
  }

  function SkipSpace(s: string): (r: string)
    ensures |r| <= |s|
    ensures r != "" ==> !IsSpace(r[0])
  {
    if s != "" && IsSpace(s[0]) then SkipSpace(s[1..]) else s
  }

  /** The characters that occur in numbers; none of them may follow a number. */
  predicate IsNumberChar(c: char) {
    IsDigit(c) || c == '+' || c == '-' || c == '.' || c == 'e' || c == 'E'
  }

  function SkipDigits(s: string): (r: string)
    ensures |r| <= |s|
  {
    if s != "" && IsDigit(s[0]) then SkipDigits(s[1..]) else s
  }

  /** RFC 8259, section 6: `[ minus ] int [ frac ] [ exp ]`. */
  predicate IsNumber(s: string) {
    var unsigned := if s != "" && s[0] == '-' then s[1..] else s;
    && unsigned != ""
    && IsDigit(unsigned[0])
    && IsFraction(if unsigned[0] == '0' then unsigned[1..] else SkipDigits(unsigned))
  }

  predicate IsFraction(s: string) {
    if s != "" && s[0] == '.' then
      |s| > 1 && IsDigit(s[1]) && IsExponent(SkipDigits(s[1..]))
    else
      IsExponent(s)
  }

  predicate IsExponent(s: string) {
    s == ""
    || ((s[0] == 'e' || s[0] == 'E')
        && var digits := if |s| > 1 && (s[1] == '+' || s[1] == '-') then s[2..] else s[1..];
        digits != "" && SkipDigits(digits) == "")
  }

  /** The longest prefix of `s` made of number characters, and the rest. */
  function TakeNumber(s: string): (p: Parsed<string>)
    ensures s == p.value + p.rest
    ensures forall i | 0 <= i < |p.value| :: IsNumberChar(p.value[i])
    ensures p.rest != "" ==> !IsNumberChar(p.rest[0])
  {
    if s != "" && IsNumberChar(s[0]) then
      var p := TakeNumber(s[1..]);
      Parsed([s[0]] + p.value, p.rest)
    else
      Parsed("", s)
  }

  // ----- Strings -----

  function HexChar(n: nat): char
    requires n < 16
  {
    if n < 10 then ('0' as int + n) as char else ('A' as int + (n - 10)) as char
  }

  function HexValue(c: char): Option<nat> {
    if '0' <= c <= '9' then Some(c as int - '0' as int)
    else if 'A' <= c <= 'F' then Some(c as int - 'A' as int + 10)
    else if 'a' <= c <= 'f' then Some(c as int - 'a' as int + 10)
    else None
  }

  /** The code unit written `\uXXXX` at the head of `s`. */
  function ParseUnit(s: string): (u: Option<nat>)
    ensures u.Some? ==> u.value < 0x1_0000 && |s| >= 6 && s[0] == '\\' && s[1] == 'u'
  {
    if |s| >= 6 && s[0] == '\\' && s[1] == 'u' then
      var h3 :- HexValue(s[2]);
      var h2 :- HexValue(s[3]);
      var h1 :- HexValue(s[4]);
      var h0 :- HexValue(s[5]);
      Some(4096 * h3 + 256 * h2 + 16 * h1 + h0)
    else None
  }

  function SimpleEscape(c: char): Option<char> {
    match c
    case '"' => Some('"')
    case '\\' => Some('\\')
    case '/' => Some('/')
    case 'b' => Some('\U{0008}')
    case 'f' => Some('\U{000C}')
    case 'n' => Some('\n')
    case 'r' => Some('\r')
    case 't' => Some('\t')
    case _ => None
  }

  function ParseEscape(s: string): (r: Option<Parsed<char>>)
    requires s != "" && s[0] == '\\'
    ensures r.Some? ==> |r.value.rest| + 2 <= |s|
  {
    if |s| < 2 then None
    else if s[1] == 'u' then
      var unit :- ParseUnit(s);
      if unit < 0xD800 || 0xE000 <= unit then Some(Parsed(unit as char, s[6..]))
      else
        var low :- ParseUnit(s[6..]);
        if unit < 0xDC00 && 0xDC00 <= low < 0xE000 then
          Some(Parsed((0x1_0000 + 0x400 * (unit - 0xD800) + (low - 0xDC00)) as char, s[12..]))
        else None
    else
      var c :- SimpleEscape(s[1]);
      Some(Parsed(c, s[2..]))
  }

  /** The inside of a string, up to and including the closing quote. */
  function ParseChars(s: string): (r: Option<Parsed<string>>)
    ensures r.Some? ==> |r.value.rest| < |s|
    decreases |s|
  {
    if s == "" then None
    else if s[0] == '"' then Some(Parsed("", s[1..]))
    else if s[0] < ' ' then None
    else
      var head :- if s[0] == '\\' then ParseEscape(s) else Some(Parsed(s[0], s[1..]));
      var tail :- ParseChars(head.rest);
      Some(Parsed([head.value] + tail.value, tail.rest))
  }

  /** The shortest escape of a character; all other characters stand for themselves. */
  function EscapeChar(c: char): string {
    match c
    case '"' => "\\\""
    case '\\' => "\\\\"
    case '\U{0008}' => "\\b"
    case '\U{000C}' => "\\f"
    case '\n' => "\\n"
    case '\r' => "\\r"
    case '\t' => "\\t"
    case _ => if c < ' ' then "\\u00" + [HexChar(c as int / 16), HexChar(c as int % 16)] else [c]
  }

  function Escape(s: string): string {
    if s == "" then "" else EscapeChar(s[0]) + Escape(s[1..])
  }

  function Quote(s: string): string {
    "\"" + Escape(s) + "\""
  }

  // ----- Printer -----

  function Print(v: JsonValue): string
    decreases v, 0
  {
    match v
    case Null => "null"
    case Bool(b) => if b then "true" else "false"
    case Number(lexeme) => lexeme
    case String(text) => Quote(text)
    case Array(items) => "[" + PrintArrayTail(items)
    case Object(members) => "{" + PrintObjectTail(members)
  }

  /** What follows an opening bracket, up to and including the closing one. */
  function PrintArrayTail(items: seq<JsonValue>): string
    decreases items, 2
  {
    if items == [] then "]" else PrintItems(items)
  }

  /** What follows an opening brace, up to and including the closing one. */
  function PrintObjectTail(members: seq<Member>): string
    decreases members, 2
  {
    if members == [] then "}" else PrintMembers(members)
  }

  function PrintItems(items: seq<JsonValue>): string
    requires items != []
    decreases items, 1
  {
    Print(items[0]) + (if |items| == 1 then "]" else "," + PrintItems(items[1..]))
  }

  function PrintMembers(members: seq<Member>): string
    requires members != []
    decreases members, 1
  {
    PrintMember(members[0]) + (if |members| == 1 then "}" else "," + PrintMembers(members[1..]))
  }

  function PrintMember(m: Member): string
    decreases m, 1
  {
    Quote(m.key) + ":" + Print(m.value)
  }

  // ----- Parser -----

  predicate StartsWith(s: string, c: char) {
    s != "" && s[0] == c
  }

  function ParseLiteral(s: string, word: string, v: JsonValue): (r: Option<Parsed<JsonValue>>)
    requires word != ""
    ensures r.Some? ==> |r.value.rest| < |s|
  {
    if word <= s then Some(Parsed(v, s[|word|..])) else None
  }

  function ParseNumber(s: string): (r: Option<Parsed<JsonValue>>)
    ensures r.Some? ==> |r.value.rest| < |s|
  {
    var p := TakeNumber(s);
    if IsNumber(p.value) then Some(Parsed(Number(p.value), p.rest)) else None
  }

  /** A string, a literal or a number. */
  function ParseScalar(t: string): (r: Option<Parsed<JsonValue>>)
    requires t != ""
    ensures r.Some? ==> |r.value.rest| < |t|
  {
    match t[0]
    case '"' =>
      var p :- ParseChars(t[1..]);
      Some(Parsed(String(p.value), p.rest))
    case 'n' => ParseLiteral(t, "null", Null)
    case 't' => ParseLiteral(t, "true", Bool(true))
    case 'f' => ParseLiteral(t, "false", Bool(false))
    case _ => ParseNumber(t)
  }

  function ParseValue(s: string): (r: Option<Parsed<JsonValue>>)
    ensures r.Some? ==> |r.value.rest| < |s|
    decreases |s|, 0
  {
    var t := SkipSpace(s);
    if t == "" then None
    else if t[0] == '[' then
      var p :- ParseArrayTail(t[1..]);
      Some(Parsed(Array(p.value), p.rest))
    else if t[0] == '{' then
      var p :- ParseObjectTail(t[1..]);
      Some(Parsed(Object(p.value), p.rest))
    else ParseScalar(t)
  }

  /** What follows an opening bracket, up to and including the closing one. */
  function ParseArrayTail(s: string): (r: Option<Parsed<seq<JsonValue>>>)
    ensures r.Some? ==> |r.value.rest| < |s|
    decreases |s|, 2
  {
    if StartsWith(SkipSpace(s), ']') then Some(Parsed([], SkipSpace(s)[1..])) else ParseItems(s)
  }

  /** What follows an opening brace, up to and including the closing one. */
  function ParseObjectTail(s: string): (r: Option<Parsed<seq<Member>>>)
    ensures r.Some? ==> |r.value.rest| < |s|
    decreases |s|, 2
  {
    if StartsWith(SkipSpace(s), '}') then Some(Parsed([], SkipSpace(s)[1..])) else ParseMembers(s)
  }

  function ParseItems(s: string): (r: Option<Parsed<seq<JsonValue>>>)
    ensures r.Some? ==> |r.value.rest| < |s|
    decreases |s|, 1
  {
    var p :- ParseValue(s);
    var t := SkipSpace(p.rest);
    if StartsWith(t, ']') then Some(Parsed([p.value], t[1..]))
    else if StartsWith(t, ',') then
      var q :- ParseItems(t[1..]);
      Some(Parsed([p.value] + q.value, q.rest))
    else None
  }

  function ParseMember(s: string): (r: Option<Parsed<Member>>)
    ensures r.Some? ==> |r.value.rest| < |s|
    decreases |s|, 0
  {
    var t := SkipSpace(s);
    if StartsWith(t, '"') then
      var k :- ParseChars(t[1..]);
      var u := SkipSpace(k.rest);
      if StartsWith(u, ':') then
        var p :- ParseValue(u[1..]);
        Some(Parsed(Member(k.value, p.value), p.rest))
      else None
    else None
  }

  function ParseMembers(s: string): (r: Option<Parsed<seq<Member>>>)
    ensures r.Some? ==> |r.value.rest| < |s|
    decreases |s|, 1
  {
    var p :- ParseMember(s);
    var t := SkipSpace(p.rest);
    if StartsWith(t, '}') then Some(Parsed([p.value], t[1..]))
    else if StartsWith(t, ',') then
      var q :- ParseMembers(t[1..]);
      Some(Parsed([p.value] + q.value, q.rest))
    else None
  }

  /** A JSON text is one value between optional white space. */
  function Parse(text: string): Option<JsonValue> {
    var p :- ParseValue(text);
    if SkipSpace(p.rest) == "" then Some(p.value) else None
  }
}
