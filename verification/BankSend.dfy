// Sends from end to end: when they go through, and what the host decodes from the packet the
// controller emits.

module BankSend {
  import opened Prelude
  import opened Outcomes
  import opened Metadata
  import opened State
  import opened Handlers
  import opened Decimal
  import opened Json
  import CosmosMsg
  import FrameMeaning
  import Framing
  import Packet
  import Proto
  import Utf8

  /** The sends in JSON packet data, amounts written as numerals; none if anything else is there. */
  function SendsOfMessages(messages: seq<CosmosMsg.CosmosMessage>): Option<seq<Proto.ProtoMsgSend>> {
    if messages == [] then Some([])
    else if !messages[0].MsgSend? then None
    else
      var rest :- SendsOfMessages(messages[1..]);
      Some([Proto.ProtoMsgSend(messages[0].fromAddress, messages[0].toAddress, Numerals(messages[0].amount))] + rest)
  }

  function Numerals(coins: seq<CosmosMsg.Coin>): seq<Proto.ProtoCoin> {
    if coins == [] then [] else [Proto.ProtoCoin(coins[0].denom, Show(coins[0].amount))] + Numerals(coins[1..])
  }

  /** The sends in protobuf packet data. */
  function SendsOfAnys(anys: seq<Proto.ProtoAny>): Option<seq<Proto.ProtoMsgSend>> {
    if anys == [] then Some([])
    else if anys[0].typeUrl != Proto.MSG_SEND_URL then None
    else
      var m :- Proto.DecodeMsgSend(anys[0].value);
      var rest :- SendsOfAnys(anys[1..]);
      Some([m] + rest)
  }

  /** What a host that negotiated `encoding` executes for packet data. */
  function HostSends(encoding: TxEncoding, data: seq<byte>): Option<seq<Proto.ProtoMsgSend>> {
    match encoding
    case Protobuf =>
      var anys :- Proto.DecodeCosmosTx(data);
      SendsOfAnys(anys)
    case Proto3Json =>
      var messages :- Packet.MessagesOf(data);
      SendsOfMessages(messages)
  }

  /** What a host that negotiated `encoding` executes for the bytes of a packet. */
  function HostExecutes(encoding: TxEncoding, bytes: seq<byte>): Option<seq<Proto.ProtoMsgSend>> {
    var packet :- Packet.FromBinary(bytes);
    if packet.kind != 1 then None else HostSends(encoding, packet.data)
  }

  /** The deadline of a packet can be represented. */
  predicate Fits(time: uint64, seconds: Option<uint64>) {
    time + (match seconds case Some(s) => s * 1_000_000_000 case None => 600_000_000_000) < 0x1_0000_0000_0000_0000
  }

  /**
   * A custom send goes through exactly when the admin asks, an account is negotiated and the
   * deadline fits; the host then reads the very messages and memo that were given.
   */
  lemma CustomSendExact(
    s: Storage, time: uint64, sender: string, messages: seq<byte>, memo: Option<string>, seconds: Option<uint64>)
    ensures var r := SendCustomIcaMessages(s, time, sender, messages, memo, seconds);
            var deadline := time + (match seconds case Some(n) => n * 1_000_000_000 case None => 600_000_000_000);
            && (r.Ok? <==> sender == s.admin && s.icaInfo.Some? && deadline < 0x1_0000_0000_0000_0000)
            && (r.Ok? ==>
                  && r.value.channelId == s.icaInfo.value.channelId
                  && r.value.timeout == deadline
                  && Packet.FromBinary(r.value.data) == Some(Packet.IcaPacketData(1, messages, memo)))
  {
    if sender == s.admin && s.icaInfo.Some? {
      assert VerifyAdmin(s, sender).Ok? && GetIcaInfo(s) == Ok(s.icaInfo.value);
      Packet.FromBinaryToBinary(Packet.New(messages, memo));
      Packet.ToIbcMsgExact(Packet.New(messages, memo), time, s.icaInfo.value.channelId, seconds);
    }
  }

  /** The JSON of the packet of a custom send: type 1, the bytes as decimal numbers, and the memo if there is one. */
  lemma CustomSendText(
    s: Storage, time: uint64, sender: string, messages: seq<byte>, memo: Option<string>, seconds: Option<uint64>)
    returns (numbers: seq<JsonValue>)
    requires SendCustomIcaMessages(s, time, sender, messages, memo, seconds).Ok?
    ensures |numbers| == |messages|
    ensures forall i | 0 <= i < |messages| :: numbers[i] == Number(Show(messages[i]))
    ensures Packet.ParseBytes(SendCustomIcaMessages(s, time, sender, messages, memo, seconds).value.data)
         == Some(Object([Member("type", Number("1")), Member("data", Array(numbers))]
                        + (match memo case None => [] case Some(text) => [Member("memo", String(text))])))
  {
    numbers := Packet.PacketText(Packet.New(messages, memo));
    assert Show(1) == "1";
  }

  lemma BankSendGate(s: Storage, time: uint64, sender: string, amount: string, denom: string, toAddress: string)
    ensures IcaBankSend(s, time, sender, amount, denom, toAddress).Ok?
        <==> sender == s.admin && s.icaInfo.Some? && Fits(time, None)
             && BankPacket(s.icaInfo.value, amount, denom, toAddress).Ok?
  {
    if sender != s.admin {
      assert VerifyAdmin(s, sender).IsFailure();
    } else if s.icaInfo.None? {
      assert GetIcaInfo(s).IsFailure();
    } else {
      var info := s.icaInfo.value;
      var packet := BankPacket(info, amount, denom, toAddress);
      assert GetIcaInfo(s) == Ok(info);
      if packet.Ok? {
        Packet.ToIbcMsgExact(packet.value, time, info.channelId, None);
      } else {
        assert packet.IsFailure();
      }
    }
  }

  /**
   * A bank send goes through exactly when the admin asks, an account is negotiated, the amount can
   * be sent in its encoding and the deadline fits; the host then executes exactly that send.
   */
  lemma BankSendExact(s: Storage, time: uint64, sender: string, amount: string, denom: string, toAddress: string)
    ensures var r := IcaBankSend(s, time, sender, amount, denom, toAddress);
            && (r.Ok? <==> sender == s.admin && s.icaInfo.Some? && time + 600_000_000_000 < 0x1_0000_0000_0000_0000
                           && SentAmount(s.icaInfo.value.encoding, amount).Some?)
            && (r.Ok? ==>
                  var info := s.icaInfo.value;
                  && r.value.channelId == info.channelId && r.value.timeout == time + 600_000_000_000
                  && HostExecutes(info.encoding, r.value.data)
                  == Some([Proto.ProtoMsgSend(info.icaAddress, toAddress,
                                              [Proto.ProtoCoin(denom, SentAmount(info.encoding, amount).value)])]))
  {
    BankSendGate(s, time, sender, amount, denom, toAddress);
    if s.icaInfo.Some? {
      BankPacketDelivered(s.icaInfo.value, amount, denom, toAddress);
    }
    if IcaBankSend(s, time, sender, amount, denom, toAddress).Ok? {
      SendMeans(s, time, sender, amount, denom, toAddress);
    }
  }

  /** A successful send and the conditions it met. */
  lemma SendMeans(s: Storage, time: uint64, sender: string, amount: string, denom: string, toAddress: string)
    requires IcaBankSend(s, time, sender, amount, denom, toAddress).Ok?
    ensures s.icaInfo.Some? && sender == s.admin
    ensures BankPacket(s.icaInfo.value, amount, denom, toAddress).Ok?
    ensures var msg := IcaBankSend(s, time, sender, amount, denom, toAddress).value;
            && msg.channelId == s.icaInfo.value.channelId
            && msg.timeout == time + 600_000_000_000
            && msg.data == Packet.ToBinary(BankPacket(s.icaInfo.value, amount, denom, toAddress).value)
  {
  }

  lemma JsonPacketRead(info: IcaInfo, n: uint128, denom: string, toAddress: string)
    ensures var send := CosmosMsg.MsgSend(info.icaAddress, toAddress, [CosmosMsg.Coin(denom, n)]);
            Packet.MessagesOf(Packet.FromJsonStrings([CosmosMsg.ToText(send)], None).data) == Some([send])
  {
    var send := CosmosMsg.MsgSend(info.icaAddress, toAddress, [CosmosMsg.Coin(denom, n)]);
    Packet.MessagesOfFramed([send], None);
    assert Packet.Texts([send]) == [CosmosMsg.ToText(send)];
  }

  lemma OneText(text: string)
    requires Parse(text).Some?
    ensures FrameMeaning.ParseAll([text]) == Some([Parse(text).value])
  {
    assert FrameMeaning.ParseAll([text][1..]) == Some([]);
    assert [Parse(text).value] + [] == [Parse(text).value];
  }

  /** The JSON of a frame around one bank send. */
  lemma SendFrame(sender: string, recipient: string, coin: CosmosMsg.Coin)
    ensures var send := CosmosMsg.MsgSend(sender, recipient, [coin]);
            Packet.ParseBytes(Packet.FromJsonStrings([CosmosMsg.ToText(send)], None).data)
            == Some(Object([
                 Member("messages", Array([
                   Object([Member("@type", String("/cosmos.bank.v1beta1.MsgSend")),
                           Member("from_address", String(sender)),
                           Member("to_address", String(recipient)),
                           Member("amount", Array([
                             Object([Member("denom", String(coin.denom)),
                                     Member("amount", String(Show(coin.amount)))])]))])]))]))
  {
    var text := CosmosMsg.ToText(CosmosMsg.MsgSend(sender, recipient, [coin]));
    var coins := CosmosMsg.SendText(sender, recipient, [coin]);
    var amount := Object([Member("denom", String(coin.denom)), Member("amount", String(Show(coin.amount)))]);
    assert coins == [amount];
    OneText(text);
    FrameMeaning.ParseFrame([text]);
    Utf8.DecodeEncode(Framing.Frame([text]));
  }

  /** Protobuf encoding, byte by byte: one Any with the type URL and the two fields of the send and its coin. */
  lemma ProtoSendBytes(info: IcaInfo, amount: string, denom: string, toAddress: string)
    requires info.encoding == Protobuf
    ensures var coin := Proto.Record(0x0A, Utf8.Encode(denom)) + Proto.Record(0x12, Utf8.Encode(amount));
            var send := (Proto.Record(0x0A, Utf8.Encode(info.icaAddress)) + Proto.Record(0x12, Utf8.Encode(toAddress)))
                        + ([0x1A] + (Proto.EncodeVarint(|coin|) + coin));
            var any := Proto.Record(0x0A, Utf8.Encode("/cosmos.bank.v1beta1.MsgSend")) + Proto.Record(0x12, send);
            BankPacket(info, amount, denom, toAddress)
            == Ok(Packet.IcaPacketData(1, [0x0A] + (Proto.EncodeVarint(|any|) + any), None))
  {
    var coin := Proto.ProtoCoin(denom, amount);
    Proto.CoinBytes(coin);
    Proto.MsgSendBytes(info.icaAddress, toAddress, coin);
    Proto.CosmosTxBytes(Proto.ProtoMsgSend(info.icaAddress, toAddress, [coin]));
  }

  /**
   * JSON encoding: the bytes of a successful send decode, through packet, byte array, UTF-8,
   * frame and tagged message, to exactly one MsgSend with the stored address and the number that
   * `amount` denotes, whatever characters the strings hold. The JSON in the packet is written out.
   */
  lemma JsonSendDelivered(s: Storage, time: uint64, sender: string, amount: string, denom: string, toAddress: string)
    requires IcaBankSend(s, time, sender, amount, denom, toAddress).Ok?
    requires s.icaInfo.Some? && s.icaInfo.value.encoding == Proto3Json
    ensures ParseU128(amount).Some? && WithoutPlus(amount) != "" && AllDigits(WithoutPlus(amount))
    ensures ParseU128(amount).value == Denote(WithoutPlus(amount))
    ensures var msg := IcaBankSend(s, time, sender, amount, denom, toAddress).value;
            var packet := Packet.FromBinary(msg.data);
            && msg.channelId == s.icaInfo.value.channelId
            && packet.Some? && packet.value.kind == 1 && packet.value.memo == None
            && Packet.MessagesOf(packet.value.data)
               == Some([CosmosMsg.MsgSend(s.icaInfo.value.icaAddress, toAddress,
                                          [CosmosMsg.Coin(denom, ParseU128(amount).value)])])
            && Packet.ParseBytes(packet.value.data)
               == Some(Object([
                    Member("messages", Array([
                      Object([Member("@type", String("/cosmos.bank.v1beta1.MsgSend")),
                              Member("from_address", String(s.icaInfo.value.icaAddress)),
                              Member("to_address", String(toAddress)),
                              Member("amount", Array([
                                Object([Member("denom", String(denom)),
                                        Member("amount", String(Show(ParseU128(amount).value)))])]))])]))]))
  {
    SendMeans(s, time, sender, amount, denom, toAddress);
    var info := s.icaInfo.value;
    ParseU128Exact(amount, ParseU128(amount).value);
    SendFrame(info.icaAddress, toAddress, CosmosMsg.Coin(denom, ParseU128(amount).value));
    JsonPacketRead(info, ParseU128(amount).value, denom, toAddress);
    Packet.FromBinaryToBinary(BankPacket(info, amount, denom, toAddress).value);
  }

  lemma OneAny(send: Proto.ProtoMsgSend)
    ensures SendsOfAnys([Proto.MsgSendToAny(send)]) == Some([send])
  {
    Proto.DecodeEncodeMsgSend(send);
    assert SendsOfAnys([Proto.MsgSendToAny(send)][1..]) == Some([]);
    assert [send] + [] == [send];
  }

  lemma ProtoPacketSends(info: IcaInfo, amount: string, denom: string, toAddress: string)
    requires info.encoding == Protobuf
    ensures HostSends(Protobuf, BankPacket(info, amount, denom, toAddress).value.data)
         == Some([Proto.ProtoMsgSend(info.icaAddress, toAddress, [Proto.ProtoCoin(denom, amount)])])
  {
    var send := Proto.ProtoMsgSend(info.icaAddress, toAddress, [Proto.ProtoCoin(denom, amount)]);
    Proto.DecodeEncodeCosmosTx([Proto.MsgSendToAny(send)]);
    OneAny(send);
  }

  lemma OneMessage(sender: string, recipient: string, coin: CosmosMsg.Coin)
    ensures SendsOfMessages([CosmosMsg.MsgSend(sender, recipient, [coin])])
         == Some([Proto.ProtoMsgSend(sender, recipient, [Proto.ProtoCoin(coin.denom, Show(coin.amount))])])
  {
    var numeral := Proto.ProtoCoin(coin.denom, Show(coin.amount));
    assert Numerals([coin][1..]) == [] && [numeral] + [] == [numeral];
    assert Numerals([coin]) == [numeral];
    var send := Proto.ProtoMsgSend(sender, recipient, [numeral]);
    assert SendsOfMessages([CosmosMsg.MsgSend(sender, recipient, [coin])][1..]) == Some([]);
    assert [send] + [] == [send];
  }

  lemma JsonPacketSends(info: IcaInfo, n: uint128, amount: string, denom: string, toAddress: string)
    requires info.encoding == Proto3Json && ParseU128(amount) == Some(n)
    ensures HostSends(Proto3Json, BankPacket(info, amount, denom, toAddress).value.data)
         == Some([Proto.ProtoMsgSend(info.icaAddress, toAddress, [Proto.ProtoCoin(denom, Show(n))])])
  {
    JsonPacketRead(info, n, denom, toAddress);
    OneMessage(info.icaAddress, toAddress, CosmosMsg.Coin(denom, n));
  }

  lemma HostReads(encoding: TxEncoding, packet: Packet.IcaPacketData)
    requires packet.kind == 1
    ensures HostExecutes(encoding, Packet.ToBinary(packet)) == HostSends(encoding, packet.data)
  {
    Packet.FromBinaryToBinary(packet);
  }

  /** The numeral that the host sees for `amount`: as given, or canonical. */
  function SentAmount(encoding: TxEncoding, amount: string): Option<string> {
    match encoding
    case Protobuf => Some(amount)
    case Proto3Json =>
      var n :- ParseU128(amount);
      Some(Show(n))
  }

  /**
   * In either encoding the packet is built exactly when the amount can be sent, and the host
   * executes exactly one send from the account to the recipient with that amount.
   */
  lemma BankPacketDelivered(info: IcaInfo, amount: string, denom: string, toAddress: string)
    ensures var r := BankPacket(info, amount, denom, toAddress);
            var sent := SentAmount(info.encoding, amount);
            && (r.Ok? <==> sent.Some?)
            && (!r.Ok? ==> r == Err(UnknownDataType(amount)))
            && (r.Ok? ==>
                  HostExecutes(info.encoding, Packet.ToBinary(r.value))
                  == Some([Proto.ProtoMsgSend(info.icaAddress, toAddress, [Proto.ProtoCoin(denom, sent.value)])]))
  {
    var r := BankPacket(info, amount, denom, toAddress);
    if r.Ok? {
      HostReads(info.encoding, r.value);
      match info.encoding
      case Protobuf => ProtoPacketSends(info, amount, denom, toAddress);
      case Proto3Json => JsonPacketSends(info, ParseU128(amount).value, amount, denom, toAddress);
    }
  }

  /**
   * The two encodings carry the same transfer exactly for canonical numerals below 2^128; the
   * JSON branch rejects exactly what is not an optional plus and digits denoting such a number.
   */
  lemma EncodingsAgreeExactly(info: IcaInfo, amount: string, denom: string, toAddress: string)
    ensures var json := BankPacket(info.(encoding := Proto3Json), amount, denom, toAddress);
            var proto := BankPacket(info.(encoding := Protobuf), amount, denom, toAddress);
            && proto.Ok?
            && (json.Ok? <==> WithoutPlus(amount) != "" && AllDigits(WithoutPlus(amount))
                              && Denote(WithoutPlus(amount)) < 0x1_0000_0000_0000_0000_0000_0000_0000_0000)
            && ((json.Ok? && HostExecutes(Proto3Json, Packet.ToBinary(json.value))
                             == HostExecutes(Protobuf, Packet.ToBinary(proto.value)))
                <==> Canonical(amount) && Denote(amount) < 0x1_0000_0000_0000_0000_0000_0000_0000_0000)
  {
    BankPacketDelivered(info.(encoding := Proto3Json), amount, denom, toAddress);
    BankPacketDelivered(info.(encoding := Protobuf), amount, denom, toAddress);
    AcceptedAmounts(amount);
    SameNumeralExactly(amount);
  }

  lemma AcceptedAmounts(amount: string)
    ensures ParseU128(amount).Some?
        <==> WithoutPlus(amount) != "" && AllDigits(WithoutPlus(amount))
             && Denote(WithoutPlus(amount)) < 0x1_0000_0000_0000_0000_0000_0000_0000_0000
  {
    var digits := WithoutPlus(amount);
    if ParseU128(amount).Some? {
      ParseU128Exact(amount, ParseU128(amount).value);
    }
    if digits != "" && AllDigits(digits) {
      ParseU128Exact(amount, Denote(digits));
    }
  }

  lemma SameNumeralExactly(amount: string)
    ensures SentAmount(Proto3Json, amount) == Some(amount)
        <==> Canonical(amount) && Denote(amount) < 0x1_0000_0000_0000_0000_0000_0000_0000_0000
  {
    if ParseU128(amount).Some? && Show(ParseU128(amount).value) == amount {
      ShowCanonical(ParseU128(amount).value);
      DenoteShow(ParseU128(amount).value);
    }
    if Canonical(amount) && Denote(amount) < 0x1_0000_0000_0000_0000_0000_0000_0000_0000 {
      assert WithoutPlus(amount) == amount;
      ParseU128Exact(amount, Denote(amount));
      ShowDenote(amount);
    }
  }
}
