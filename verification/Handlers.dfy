// What every entry point does to the storage value: the specification that the controller
// object implements and that runs are made of.

module Handlers {
  import opened Prelude
  import opened Outcomes
  import opened Ibc
  import opened Metadata
  import opened State
  import CosmosMsg
  import Decimal
  import Packet
  import Proto

  const CANNOT_UNMARSHAL := "cannot unmarshal ICS-27 interchain accounts metadata"

  function Instantiate(admin: string): Storage {
    Storage(admin, None, None, Counts(0, 0, 0))
  }

  // ----- Channel handshake (src/ibc/handshake.rs) -----

  function MetadataOf(version: string): Outcome<IcaMetadata> {
    match OfText(version)
    case Some(m) => Ok(m)
    case None => Err(UnknownDataType(CANNOT_UNMARSHAL))
  }

  function StoredChannel(s: Storage): Option<IbcChannel> {
    match s.channel
    case Some(record) => Some(record.channel)
    case None => None
  }

  /** OpenInit writes nothing; it answers with the version to propose. */
  function OpenInit(s: Storage, channel: IbcChannel, queried: Option<string>): Outcome<string> {
    if channel.order != Ordered then Err(InvalidChannelOrdering)
    else if channel.counterpartyEndpoint.portId != HOST_PORT_ID then Err(InvalidHostPort)
    else
      var m :- if channel.version == "" then Ok(FromChannel(StoredChannel(s), channel, queried))
               else MetadataOf(channel.version);
      var _ :- Validate(m, channel);
      match s.channel
      case None => Ok(ToText(m))
      case Some(record) =>
        if record.status == Open then Err(ActiveChannelAlreadySet)
        else if !IsPreviousVersionEqual(m, record.channel.version) then
          Err(InvalidVersion(record.channel.version, ToText(m)))
        else Ok(ToText(m))
  }

  /** OpenAck's first write. */
  function WithIcaInfo(s: Storage, info: IcaInfo): Storage {
    s.(icaInfo := Some(info))
  }

  /** OpenAck's second write. */
  function WithOpenChannel(s: Storage, channel: IbcChannel): Storage {
    s.(channel := Some(ChannelRecord(channel, Open)))
  }

  function OpenAck(s: Storage, channel: IbcChannel, counterpartyVersion: string): Outcome<Storage> {
    if channel.endpoint.portId == HOST_PORT_ID then Err(InvalidControllerPort)
    else
      var m :- MetadataOf(counterpartyVersion);
      var _ :- Validate(m, channel);
      if m.address == "" then Err(InvalidAddress)
      else
        var info := IcaInfo(m.address, channel.endpoint.channelId, m.encoding);
        Ok(WithOpenChannel(WithIcaInfo(s, info), channel))
  }

  function WithClosedChannel(s: Storage): Storage
    requires s.channel.Some?
  {
    s.(channel := Some(ChannelRecord(s.channel.value.channel, Closed)))
  }

  function CloseConfirm(s: Storage, channel: IbcChannel): Outcome<Storage> {
    if s.channel.None? then Err(Std)
    else if s.channel.value.channel != channel then Err(InvalidChannelInContractState)
    else Ok(WithClosedChannel(s))
  }

  // ----- Packet callbacks (src/ibc/relay.rs) -----

  function CountSuccess(s: Storage): Outcome<Storage> {
    if s.counts.success + 1 >= TWO_TO_THE_32 then Abort
    else Ok(s.(counts := s.counts.(success := s.counts.success + 1)))
  }

  function CountError(s: Storage): Outcome<Storage> {
    if s.counts.error + 1 >= TWO_TO_THE_32 then Abort
    else Ok(s.(counts := s.counts.(error := s.counts.error + 1)))
  }

  /** The timeout handler's first write. */
  function CountTimeout(s: Storage): Outcome<Storage> {
    if s.counts.timeout + 1 >= TWO_TO_THE_32 then Abort
    else Ok(s.(counts := s.counts.(timeout := s.counts.timeout + 1)))
  }

  function PacketAck(s: Storage, acknowledgement: seq<byte>): Outcome<Storage> {
    match Packet.AckOfBinary(acknowledgement)
    case None => Err(Std)
    case Some(Result(_)) => CountSuccess(s)
    case Some(Error(_)) => CountError(s)
  }

  /** The packet that timed out is not looked at: whatever channel is stored is closed. */
  function PacketTimeout(s: Storage): Outcome<Storage> {
    var counted :- CountTimeout(s);
    if counted.channel.None? then Err(Std) else Ok(WithClosedChannel(counted))
  }

  // ----- Sending (src/contract.rs) -----

  function VerifyAdmin(s: Storage, sender: string): Outcome<()> {
    if s.admin == sender then Ok(()) else Err(Unauthorized)
  }

  function GetIcaInfo(s: Storage): Outcome<IcaInfo> {
    match s.icaInfo
    case Some(info) => Ok(info)
    case None => Err(IcaInfoNotSet)
  }

  function SendCustomIcaMessages(
    s: Storage, time: uint64, sender: string, messages: seq<byte>, memo: Option<string>, seconds: Option<uint64>)
    : Outcome<Packet.SendPacket>
  {
    var _ :- VerifyAdmin(s, sender);
    var info :- GetIcaInfo(s);
    Packet.ToIbcMsg(Packet.New(messages, memo), time, info.channelId, seconds)
  }

  /** The packet of a bank send in the negotiated encoding. */
  function BankPacket(info: IcaInfo, amount: string, denom: string, toAddress: string): Outcome<Packet.IcaPacketData> {
    match info.encoding
    case Protobuf =>
      var send := Proto.ProtoMsgSend(info.icaAddress, toAddress, [Proto.ProtoCoin(denom, amount)]);
      Ok(Packet.FromProtoAnys([Proto.MsgSendToAny(send)], None))
    case Proto3Json =>
      match Decimal.ParseU128(amount)
      case None => Err(UnknownDataType(amount))
      case Some(n) =>
        var send := CosmosMsg.MsgSend(info.icaAddress, toAddress, [CosmosMsg.Coin(denom, n)]);
        Ok(Packet.FromJsonStrings([CosmosMsg.ToText(send)], None))
  }

  function IcaBankSend(
    s: Storage, time: uint64, sender: string, amount: string, denom: string, toAddress: string)
    : Outcome<Packet.SendPacket>
  {
    var _ :- VerifyAdmin(s, sender);
    var info :- GetIcaInfo(s);
    var packet :- BankPacket(info, amount, denom, toAddress);
    Packet.ToIbcMsg(packet, time, info.channelId, None)
  }

  // ----- All entry points -----

  /** The callbacks after the channel is proposed, with the parts a handler looks at. */
  datatype CallbackMessage =
    | ChannelOpenAck(channel: IbcChannel, counterpartyVersion: string)
    | ChannelOpenConfirm(channel: IbcChannel)
    | ChannelCloseInit(channel: IbcChannel)
    | ChannelCloseConfirm(channel: IbcChannel)
    | PacketAcknowledged(acknowledgement: seq<byte>)
    | PacketTimedOut
    | PacketReceived

  datatype ExecuteMessage =
    | SendCustom(sender: string, time: uint64, messages: seq<byte>, memo: Option<string>, seconds: Option<uint64>)
    | SendBank(sender: string, time: uint64, amount: string, denom: string, toAddress: string)

  datatype Message =
    | ChannelOpenInit(channel: IbcChannel, queried: Option<string>)
    | ChannelOpenTry(channel: IbcChannel)
    | CalledBack(callback: CallbackMessage)
    | Executed(execute: ExecuteMessage)

  datatype Response = Empty | Version(version: string) | Send(packet: Packet.SendPacket)

  function Callback(s: Storage, msg: CallbackMessage): Outcome<Storage> {
    match msg
    case ChannelOpenAck(channel, version) => OpenAck(s, channel, version)
    case ChannelOpenConfirm(_) => Abort
    case ChannelCloseInit(_) => Abort
    case ChannelCloseConfirm(channel) => CloseConfirm(s, channel)
    case PacketAcknowledged(acknowledgement) => PacketAck(s, acknowledgement)
    case PacketTimedOut => PacketTimeout(s)
    case PacketReceived => Abort
  }

  function Execute(s: Storage, msg: ExecuteMessage): Outcome<Packet.SendPacket> {
    match msg
    case SendCustom(sender, time, messages, memo, seconds) =>
      SendCustomIcaMessages(s, time, sender, messages, memo, seconds)
    case SendBank(sender, time, amount, denom, toAddress) =>
      IcaBankSend(s, time, sender, amount, denom, toAddress)
  }

  /** What a call answers. */
  function Answer(s: Storage, msg: Message): Outcome<Response> {
    match msg
    case ChannelOpenInit(channel, queried) =>
      var version :- OpenInit(s, channel, queried);
      Ok(Version(version))
    case ChannelOpenTry(_) => Abort
    case CalledBack(callback) =>
      var _ :- Callback(s, callback);
      Ok(Empty)
    case Executed(execute) =>
      var packet :- Execute(s, execute);
      Ok(Send(packet))
  }

  /** The storage after a transaction: only callbacks write, and one that fails changes nothing. */
  function Commit(s: Storage, msg: Message): Storage {
    if msg.CalledBack? && Callback(s, msg.callback).Ok? then Callback(s, msg.callback).value else s
  }

  /** The storage after a run of transactions, failed ones included. */
  function RunAll(s: Storage, msgs: seq<Message>): Storage
    decreases |msgs|
  {
    if msgs == [] then s else RunAll(Commit(s, msgs[0]), msgs[1..])
  }
}
