// Packet data and acknowledgements (src/ibc/types/packet.rs).

module Packet {
  import opened Prelude
  import opened Outcomes
  import opened Json
  import opened JsonRoundTrip
  import opened Fields
  import opened Framing
  import opened FrameMeaning
  import Base64
  import Decimal
  import CosmosMsg
  import Proto
  import Utf8

  const DEFAULT_TIMEOUT_SECONDS: uint64 := 600
  const NANOS_PER_SECOND: uint64 := 1_000_000_000

  datatype IcaPacketData = IcaPacketData(kind: uint32, data: seq<byte>, memo: Option<string>)

  /** `IbcMsg::SendPacket` with a timestamp timeout, in nanoseconds. */
  datatype SendPacket = SendPacket(channelId: string, data: seq<byte>, timeout: uint64)

  datatype AcknowledgementData = Result(result: seq<byte>) | Error(message: string)

  // ----- Building packets -----

  function New(data: seq<byte>, memo: Option<string>): IcaPacketData {
    IcaPacketData(1, data, memo)
  }

  function FromJsonStrings(messages: seq<string>, memo: Option<string>): IcaPacketData {
    New(Utf8.Encode(Frame(messages)), memo)
  }

  function FromProtoAnys(messages: seq<Proto.ProtoAny>, memo: Option<string>): IcaPacketData {
    New(Proto.EncodeCosmosTx(messages), memo)
  }

  /** `Timestamp::plus_seconds` with overflow checks. */
  function PlusSeconds(time: uint64, seconds: uint64): Outcome<uint64> {
    var nanos := seconds * NANOS_PER_SECOND;
    if nanos >= TWO_TO_THE_64 then Abort
    else if time + nanos >= TWO_TO_THE_64 then Abort
    else Ok(time + nanos)
  }

  function TimeoutSeconds(seconds: Option<uint64>): uint64 {
    match seconds
    case Some(s) => s
    case None => DEFAULT_TIMEOUT_SECONDS
  }

  function ToIbcMsg(p: IcaPacketData, time: uint64, channelId: string, seconds: Option<uint64>): Outcome<SendPacket> {
    var timeout :- PlusSeconds(time, TimeoutSeconds(seconds));
    Ok(SendPacket(channelId, ToBinary(p), timeout))
  }

  // ----- The JSON of a packet -----

  function ByteItems(bs: seq<byte>): seq<JsonValue> {
    if bs == [] then [] else [NatValue(bs[0])] + ByteItems(bs[1..])
  }

  function PacketMembers(p: IcaPacketData): seq<Member> {
    [Member("type", NatValue(p.kind)), Member("data", Array(ByteItems(p.data)))]
    + OptionalMember("memo", p.memo)
  }

  /** `to_binary` of packet data */
  function ToBinary(p: IcaPacketData): seq<byte> {
    Utf8.Encode(Print(Object(PacketMembers(p))))
  }

  function AsBytes(items: seq<JsonValue>): Option<seq<byte>> {
    if items == [] then Some([])
    else
      var b :- AsNat(items[0], 256);
      var rest :- AsBytes(items[1..]);
      Some([b] + rest)
  }

  function PacketOfMembers(ms: seq<Member>): Option<IcaPacketData> {
    if !OnlyKeys(ms, {"type", "data", "memo"}) then None
    else
      var kindValue :- Required(ms, "type");
      var kind :- AsNat(kindValue, TWO_TO_THE_32);
      var items :- Required(ms, "data");
      if !items.Array? then None
      else
        var data :- AsBytes(items.items);
        var memo :- OptionalString(ms, "memo");
        Some(IcaPacketData(kind, data, memo))
  }

  function ParseBytes(bs: seq<byte>): Option<JsonValue> {
    var text :- Utf8.Decode(bs);
    Parse(text)
  }

  function FromBinary(bs: seq<byte>): Option<IcaPacketData> {
    var v :- ParseBytes(bs);
    if v.Object? then PacketOfMembers(v.members) else None
  }

  // ----- What the host reads -----

  function AsMessages(values: seq<JsonValue>): Option<seq<CosmosMsg.CosmosMessage>> {
    if values == [] then Some([])
    else
      var m :- CosmosMsg.AsMessage(values[0]);
      var rest :- AsMessages(values[1..]);
      Some([m] + rest)
  }

  /** The messages of JSON packet data. */
  function MessagesOf(data: seq<byte>): Option<seq<CosmosMsg.CosmosMessage>> {
    var v :- ParseBytes(data);
    if !v.Object? then None
    else
      var list :- Required(v.members, "messages");
      if list.Array? then AsMessages(list.items) else None
  }

  function Texts(messages: seq<CosmosMsg.CosmosMessage>): seq<string> {
    if messages == [] then [] else [CosmosMsg.ToText(messages[0])] + Texts(messages[1..])
  }

  // ----- Acknowledgements -----

  function AckMembers(a: AcknowledgementData): seq<Member> {
    match a
    case Result(bytes) => [Member("result", String(Base64.Encode(bytes)))]
    case Error(message) => [Member("error", String(message))]
  }

  function AckToBinary(a: AcknowledgementData): seq<byte> {
    Utf8.Encode(Print(Object(AckMembers(a))))
  }

  /** `from_binary::<AcknowledgementData>`: one member that names the variant. */
  function AckOfBinary(bs: seq<byte>): Option<AcknowledgementData> {
    var v :- ParseBytes(bs);
    if !v.Object? || |v.members| != 1 then None
    else if v.members[0].key == "result" then
      var text :- AsString(v.members[0].value);
      var bytes :- Base64.Decode(text);
      Some(Result(bytes))
    else if v.members[0].key == "error" then
      var message :- AsString(v.members[0].value);
      Some(Error(message))
    else None
  }

  // ----- Round trips -----

  lemma ParseBytesOfPrint(v: JsonValue)
    requires Printable(v)
    ensures ParseBytes(Utf8.Encode(Print(v))) == Some(v)
  {
    Utf8.DecodeEncode(Print(v));
    ParsePrint(v);
  }

  lemma {:induction false} BytesRead(bs: seq<byte>)
    ensures forall i | 0 <= i < |ByteItems(bs)| :: Printable(ByteItems(bs)[i])
    ensures AsBytes(ByteItems(bs)) == Some(bs)
  {
    if bs != [] {
      NatValueReads(bs[0], 256);
      BytesRead(bs[1..]);
      assert bs == [bs[0]] + bs[1..];
    }
  }

  lemma PacketMembersRead(p: IcaPacketData)
    ensures var ms := PacketMembers(p);
            && Values(ms, "type") == [NatValue(p.kind)]
            && Values(ms, "data") == [Array(ByteItems(p.data))]
            && Values(ms, "memo") == (match p.memo case None => [] case Some(text) => [String(text)])
  {
    var ms := PacketMembers(p);
    assert "type"[0] == 't' && "data"[0] == 'd' && "memo"[0] == 'm';
    ValuesAt(ms, 0);
    ValuesAt(ms, 1);
    if p.memo.Some? {
      ValuesAt(ms, 2);
    } else {
      ValuesAbsent(ms, "memo");
    }
  }

  lemma PacketOfMembersReads(p: IcaPacketData)
    ensures Printable(Object(PacketMembers(p)))
    ensures PacketOfMembers(PacketMembers(p)) == Some(p)
  {
    PacketMembersRead(p);
    BytesRead(p.data);
    NatValueReads(p.kind, TWO_TO_THE_32);
  }

  /** A packet comes back from its bytes; its memo is absent exactly when there is none. */
  lemma FromBinaryToBinary(p: IcaPacketData)
    ensures FromBinary(ToBinary(p)) == Some(p)
    ensures Values(PacketMembers(p), "memo") == [] <==> p.memo.None?
  {
    PacketMembersRead(p);
    PacketOfMembersReads(p);
    ParseBytesOfPrint(Object(PacketMembers(p)));
  }

  /** An acknowledgement comes back from its bytes. */
  lemma AckOfBinaryAckToBinary(a: AcknowledgementData)
    ensures AckOfBinary(AckToBinary(a)) == Some(a)
  {
    ParseBytesOfPrint(Object(AckMembers(a)));
    assert |"result"| == 6 && |"error"| == 5;
    match a
    case Result(bytes) => Base64.DecodeEncode(bytes);
    case Error(_) =>
  }

  lemma {:induction false} TextsRead(messages: seq<CosmosMsg.CosmosMessage>)
    ensures ParseAll(Texts(messages)).Some?
    ensures AsMessages(ParseAll(Texts(messages)).value) == Some(messages)
  {
    if messages != [] {
      CosmosMsg.MessageReads(messages[0]);
      ParsePrint(CosmosMsg.MessageValue(messages[0]));
      TextsRead(messages[1..]);
      assert messages == [messages[0]] + messages[1..];
    }
  }

  lemma MessagesMember(values: seq<JsonValue>)
    ensures Required([Member(FRAME_KEY, Array(values))], "messages") == Some(Array(values))
  {
    ValuesAt([Member(FRAME_KEY, Array(values))], 0);
  }

  lemma MessagesOfFrame(texts: seq<string>, memo: Option<string>)
    requires ParseAll(texts).Some?
    ensures MessagesOf(FromJsonStrings(texts, memo).data) == AsMessages(ParseAll(texts).value)
  {
    ParseFrame(texts);
    Utf8.DecodeEncode(Frame(texts));
    MessagesMember(ParseAll(texts).value);
  }

  /** The host reads from framed messages exactly the messages that were framed. */
  lemma MessagesOfFramed(messages: seq<CosmosMsg.CosmosMessage>, memo: Option<string>)
    ensures MessagesOf(FromJsonStrings(Texts(messages), memo).data) == Some(messages)
  {
    TextsRead(messages);
    MessagesOfFrame(Texts(messages), memo);
  }

  /** The timeout is the exact sum, and exists exactly when that sum fits in 64 bits. */
  lemma ToIbcMsgExact(p: IcaPacketData, time: uint64, channelId: string, seconds: Option<uint64>)
    ensures var sum := time + (match seconds case Some(s) => s * 1_000_000_000 case None => 600_000_000_000);
            && (ToIbcMsg(p, time, channelId, seconds).Ok? <==> sum < 0x1_0000_0000_0000_0000)
            && (sum < 0x1_0000_0000_0000_0000 ==>
                  ToIbcMsg(p, time, channelId, seconds) == Ok(SendPacket(channelId, ToBinary(p), sum)))
            && (sum >= 0x1_0000_0000_0000_0000 ==> ToIbcMsg(p, time, channelId, seconds) == Abort)
  {
  }

  // ----- The texts themselves -----

  lemma {:induction false} ByteNumbers(bs: seq<byte>)
    ensures |ByteItems(bs)| == |bs|
    ensures forall i | 0 <= i < |bs| :: ByteItems(bs)[i] == Number(Decimal.Show(bs[i]))
  {
    if bs != [] {
      ByteNumbers(bs[1..]);
    }
  }

  /** A packet is an object of its type, its bytes as an array of decimal numbers, and a memo if there is one. */
  lemma PacketText(p: IcaPacketData) returns (numbers: seq<JsonValue>)
    ensures |numbers| == |p.data|
    ensures forall i | 0 <= i < |p.data| :: numbers[i] == Number(Decimal.Show(p.data[i]))
    ensures ParseBytes(ToBinary(p))
         == Some(Object([Member("type", Number(Decimal.Show(p.kind))), Member("data", Array(numbers))]
                        + (match p.memo case None => [] case Some(text) => [Member("memo", String(text))])))
  {
    numbers := ByteItems(p.data);
    ByteNumbers(p.data);
    PacketOfMembersReads(p);
    ParseBytesOfPrint(Object(PacketMembers(p)));
  }

  /** The two acknowledgements: an object of one member, `result` in base64 or `error` in plain text. */
  lemma AckTexts(bytes: seq<byte>, message: string)
    ensures AckOfBinary(Utf8.Encode(Print(Object([Member("result", String(Base64.Encode(bytes)))]))))
         == Some(Result(bytes))
    ensures AckOfBinary(Utf8.Encode(Print(Object([Member("error", String(message))])))) == Some(Error(message))
  {
    ParseBytesOfPrint(Object([Member("result", String(Base64.Encode(bytes)))]));
    ParseBytesOfPrint(Object([Member("error", String(message))]));
    assert |"result"| == 6 && |"error"| == 5;
    Base64.DecodeEncode(bytes);
  }

  /** Anything else is no acknowledgement. */
  lemma AckRefused(ms: seq<Member>)
    requires Printable(Object(ms)) && (|ms| != 1 || (ms[0].key != "result" && ms[0].key != "error"))
    ensures AckOfBinary(Utf8.Encode(Print(Object(ms)))) == None
  {
    ParseBytesOfPrint(Object(ms));
  }
}
