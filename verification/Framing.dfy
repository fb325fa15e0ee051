// The hand-built frame around JSON messages, and the scanner that takes it apart again.

module Framing {
  import opened Prelude
  import opened Json
  import opened JsonRoundTrip
  import opened Scanner

  /** `messages.join(", ")` */
  function Join(texts: seq<string>): string {
    if texts == [] then ""
    else if |texts| == 1 then texts[0]
    else texts[0] + ", " + Join(texts[1..])
  }

  const FRAME_KEY := "messages"
  const FRAME_OPEN := "{\"" + FRAME_KEY + "\": ["
  const FRAME_CLOSE := "]}"

  /** The text of `IcaPacketData::from_json_strings`. */
  function Frame(texts: seq<string>): string {
    FRAME_OPEN + Join(texts) + FRAME_CLOSE
  }

  /** The pieces between top-level commas up to the closing bracket, and the text after it. */
  function SplitItems(s: string, st: ScanState): (r: Option<Parsed<seq<string>>>)
    ensures r.Some? ==> r.value.value != []
  {
    if s == "" then None
    else
      match Next(st, s[0])
      case Some(next) =>
        var p :- SplitItems(s[1..], next);
        Some(Parsed([[s[0]] + p.value[0]] + p.value[1..], p.rest))
      case None =>
        if s[0] == ',' then
          var p :- SplitItems(s[1..], Outside(0));
          Some(Parsed([""] + p.value, p.rest))
        else if s[0] == ']' then Some(Parsed([""], s[1..]))
        else None
  }

  /** Removes the one space that follows each separating comma. */
  function DropSpaces(pieces: seq<string>): Option<seq<string>> {
    if pieces == [] then Some([])
    else if StartsWith(pieces[0], ' ') then
      var rest :- DropSpaces(pieces[1..]);
      Some([pieces[0][1..]] + rest)
    else None
  }

  /** Takes a frame apart into the message texts. */
  function Unframe(s: string): Option<seq<string>> {
    if FRAME_OPEN <= s then
      var p :- SplitItems(s[|FRAME_OPEN|..], Outside(0));
      if p.rest != "}" then None
      else if p.value == [""] then Some([])
      else
        var rest :- DropSpaces(p.value[1..]);
        Some([p.value[0]] + rest)
    else None
  }

  // ----- The frame is lossless -----

  /** A balanced text in front of a separator or the closing bracket becomes one piece. */
  lemma {:induction false} SplitPrepends(s: string, rest: string, st: ScanState)
    requires Run(st, s) == Some(Outside(0)) && SplitItems(rest, Outside(0)).Some?
    ensures SplitItems(s + rest, st).Some?
    ensures var p := SplitItems(rest, Outside(0)).value;
            SplitItems(s + rest, st) == Some(Parsed([s + p.value[0]] + p.value[1..], p.rest))
  {
    var p := SplitItems(rest, Outside(0)).value;
    if s == "" {
      assert s + rest == rest;
      assert p.value == [p.value[0]] + p.value[1..];
      assert s + p.value[0] == p.value[0];
    } else {
      assert (s + rest)[1..] == s[1..] + rest;
      SplitPrepends(s[1..], rest, Next(st, s[0]).value);
      assert [s[0]] + (s[1..] + p.value[0]) == s + p.value[0];
    }
  }

  /** A joined list after its first text. */
  function JoinedTail(texts: seq<string>): string {
    if texts == [] then "" else ", " + (texts[0] + JoinedTail(texts[1..]))
  }

  lemma {:induction false} JoinHeadTail(texts: seq<string>)
    requires texts != []
    ensures Join(texts) == texts[0] + JoinedTail(texts[1..])
  {
    if |texts| > 1 {
      JoinHeadTail(texts[1..]);
      assert texts[0] + ", " + Join(texts[1..]) == texts[0] + (", " + Join(texts[1..]));
    }
  }

  function Spaced(texts: seq<string>): seq<string> {
    if texts == [] then [] else [" " + texts[0]] + Spaced(texts[1..])
  }

  lemma {:induction false} DropSpacesOfSpaced(texts: seq<string>)
    ensures DropSpaces(Spaced(texts)) == Some(texts)
  {
    if texts != [] {
      DropSpacesOfSpaced(texts[1..]);
      assert (" " + texts[0])[1..] == texts[0];
      assert texts == [texts[0]] + texts[1..];
    }
  }

  lemma {:induction false} SplitTail(texts: seq<string>, rest: string)
    requires forall i | 0 <= i < |texts| :: Run(Outside(0), texts[i]) == Some(Outside(0))
    ensures SplitItems(JoinedTail(texts) + ("]" + rest), Outside(0)) == Some(Parsed([""] + Spaced(texts), rest))
  {
    if texts == [] {
      SplitClose(rest);
      assert JoinedTail(texts) + ("]" + rest) == "]" + rest;
      assert [""] + Spaced(texts) == [""];
    } else {
      var after := JoinedTail(texts[1..]) + ("]" + rest);
      var piece := " " + texts[0];
      SplitTail(texts[1..], rest);
      assert Run(Outside(0), piece) == Some(Outside(0)) by {
        RunPlain(" ", 0);
        RunConcat(Outside(0), " ", texts[0]);
      }
      SplitPiece(piece, after, Spaced(texts[1..]), rest);
      SplitComma(piece + after);
      JoinedTailStep(texts, "]" + rest);
    }
  }

  lemma JoinedTailStep(texts: seq<string>, rest: string)
    requires texts != []
    ensures JoinedTail(texts) + rest == "," + ((" " + texts[0]) + (JoinedTail(texts[1..]) + rest))
  {
    var tail := JoinedTail(texts[1..]);
    assert ", " + (texts[0] + tail) == "," + ((" " + texts[0]) + tail);
    Regroup(",", (" " + texts[0]) + tail, rest);
    Regroup(" " + texts[0], tail, rest);
  }

  lemma SplitClose(rest: string)
    ensures SplitItems("]" + rest, Outside(0)) == Some(Parsed([""], rest))
  {
    assert ("]" + rest)[1..] == rest;
  }

  lemma SplitComma(s: string)
    requires SplitItems(s, Outside(0)).Some?
    ensures var p := SplitItems(s, Outside(0)).value;
            SplitItems("," + s, Outside(0)) == Some(Parsed([""] + p.value, p.rest))
  {
    assert ("," + s)[1..] == s;
  }

  lemma SplitPiece(s: string, after: string, pieces: seq<string>, rest: string)
    requires Run(Outside(0), s) == Some(Outside(0))
    requires SplitItems(after, Outside(0)) == Some(Parsed([""] + pieces, rest))
    ensures SplitItems(s + after, Outside(0)) == Some(Parsed([s] + pieces, rest))
  {
    SplitPrepends(s, after, Outside(0));
    assert s + "" == s && ([""] + pieces)[1..] == pieces;
  }

  /** Every list of well-formed messages, the empty one too, comes back from its frame. */
  lemma UnframeFrame(texts: seq<string>)
    requires forall i | 0 <= i < |texts| :: Parse(texts[i]).Some?
    ensures Unframe(Frame(texts)) == Some(texts)
  {
    forall i | 0 <= i < |texts| ensures Run(Outside(0), texts[i]) == Some(Outside(0)) {
      WellFormedIsBalanced(texts[i]);
    }
    assert Frame(texts)[|FRAME_OPEN|..] == Join(texts) + FRAME_CLOSE;
    assert FRAME_CLOSE == "]" + "}";
    if texts == [] {
      SplitClose("}");
      assert Join(texts) + FRAME_CLOSE == "]" + "}";
    } else {
      SplitFrame(texts, "}");
      DropSpacesOfSpaced(texts[1..]);
      assert texts[0] != "" && texts == [texts[0]] + texts[1..];
    }
  }

  lemma SplitFrame(texts: seq<string>, rest: string)
    requires texts != []
    requires forall i | 0 <= i < |texts| :: Run(Outside(0), texts[i]) == Some(Outside(0))
    ensures SplitItems(Join(texts) + ("]" + rest), Outside(0)) == Some(Parsed([texts[0]] + Spaced(texts[1..]), rest))
  {
    var more := texts[1..];
    SplitTail(more, rest);
    SplitPiece(texts[0], JoinedTail(more) + ("]" + rest), Spaced(more), rest);
    JoinHeadTail(texts);
    Regroup(texts[0], JoinedTail(more), "]" + rest);
  }

  /** Different lists of messages have different frames. */
  lemma FrameInjective(a: seq<string>, b: seq<string>)
    requires forall i | 0 <= i < |a| :: Parse(a[i]).Some?
    requires forall i | 0 <= i < |b| :: Parse(b[i]).Some?
    requires Frame(a) == Frame(b)
    ensures a == b
  {
    UnframeFrame(a);
    UnframeFrame(b);
  }

  /** The very text around the messages: no space before the colon, one after it and after each comma. */
  lemma FrameShape(first: string, second: string)
    ensures Frame([]) == "{\"messages\": []}"
    ensures Frame([first]) == "{\"messages\": [" + first + "]}"
    ensures Frame([first, second]) == "{\"messages\": [" + (first + ", " + second) + "]}"
  {
    assert FRAME_OPEN == "{\"messages\": [";
    assert [first, second][1..] == [second];
    assert Join([first, second]) == first + ", " + second;
    assert "{\"messages\": [" + "" + "]}" == "{\"messages\": []}";
  }
}
