// The contract as an object. Handlers write the stored records in place and in the order of the
// source; a transaction restores them when a handler ends in an error or a panic.

module Controllers {
  import opened Prelude
  import opened Outcomes
  import opened Ibc
  import opened State
  import Decimal
  import CosmosMsg
  import Handlers
  import Metadata
  import Packet
  import Proto

  class Controller {
    var state: ContractState
    var channelState: ChannelState?
    var counter: CallbackCounter

    ghost function Repr(): set<object>
      reads this
    {
      {this, state, counter} + (if channelState == null then {} else {channelState as ChannelState})
    }

    /** The storage value that the records hold. */
    ghost function View(): Storage
      reads this, Repr()
    {
      Storage(
        state.admin,
        state.icaInfo,
        if channelState == null then None else Some(channelState.Value()),
        counter.Value())
    }

    /** `instantiate`: the admin is the one named, or else the sender. */
    constructor (sender: string, admin: Option<string>)
      ensures fresh(Repr())
      ensures View() == Handlers.Instantiate(match admin case Some(a) => a case None => sender)
    {
      state := new ContractState(match admin case Some(a) => a case None => sender);
      channelState := null;
      counter := new CallbackCounter.Default();
    }

    // ----- Channel handshake -----

    method OpenInit(channel: IbcChannel, queried: Option<string>) returns (r: Outcome<string>)
      ensures r == Handlers.OpenInit(View(), channel, queried)
    {
      if channel.order != Ordered {
        return Err(InvalidChannelOrdering);
      }
      if channel.counterpartyEndpoint.portId != HOST_PORT_ID {
        return Err(InvalidHostPort);
      }
      var metadata;
      if channel.version == "" {
        var stored := if channelState == null then None else Some(channelState.channel);
        metadata := Metadata.FromChannel(stored, channel, queried);
      } else {
        var parsed := Metadata.OfText(channel.version);
        if parsed.None? {
          return Err(UnknownDataType(Handlers.CANNOT_UNMARSHAL));
        }
        metadata := parsed.value;
      }
      var _ :- Metadata.Validate(metadata, channel);
      if channelState != null {
        if channelState.IsOpen() {
          return Err(ActiveChannelAlreadySet);
        }
        var appVersion := channelState.channel.version;
        if !Metadata.IsPreviousVersionEqual(metadata, appVersion) {
          return Err(InvalidVersion(appVersion, Metadata.ToText(metadata)));
        }
      }
      return Ok(Metadata.ToText(metadata));
    }

    method OnAcknowledgement(channel: IbcChannel, counterpartyVersion: string) returns (r: Outcome<()>)
      modifies Repr()
      ensures fresh(Repr() - old(Repr())) && state == old(state) && counter == old(counter)
      ensures !r.Ok? ==> channelState == old(channelState)
      ensures r.Ok? ==> Handlers.OpenAck(old(View()), channel, counterpartyVersion) == Ok(View())
      ensures !r.Ok? ==> View() == old(View())
      ensures r == Handlers.OpenAck(old(View()), channel, counterpartyVersion).Ending()
    {
      if channel.endpoint.portId == HOST_PORT_ID {
        return Err(InvalidControllerPort);
      }
      var parsed := Metadata.OfText(counterpartyVersion);
      if parsed.None? {
        return Err(UnknownDataType(Handlers.CANNOT_UNMARSHAL));
      }
      var metadata := parsed.value;
      var _ :- Metadata.Validate(metadata, channel);
      if metadata.address == "" {
        return Err(InvalidAddress);
      }
      state.SetIcaInfo(metadata.address, channel.endpoint.channelId, metadata.encoding);
      ghost var info := IcaInfo(metadata.address, channel.endpoint.channelId, metadata.encoding);
      assert View() == Handlers.WithIcaInfo(old(View()), info);
      channelState := new ChannelState.NewOpenChannel(channel);
      return Ok(());
    }

    method CloseConfirm(channel: IbcChannel) returns (r: Outcome<()>)
      modifies Repr()
      ensures state == old(state) && counter == old(counter) && channelState == old(channelState)
      ensures r.Ok? ==> Handlers.CloseConfirm(old(View()), channel) == Ok(View())
      ensures !r.Ok? ==> View() == old(View())
      ensures r == Handlers.CloseConfirm(old(View()), channel).Ending()
    {
      if channelState == null {
        return Err(Std);
      }
      if channelState.channel != channel {
        return Err(InvalidChannelInContractState);
      }
      channelState.Close();
      return Ok(());
    }

    // ----- Packet callbacks -----

    method PacketAck(acknowledgement: seq<byte>) returns (r: Outcome<()>)
      modifies Repr()
      ensures state == old(state) && counter == old(counter) && channelState == old(channelState)
      ensures r.Ok? ==> Handlers.PacketAck(old(View()), acknowledgement) == Ok(View())
      ensures !r.Ok? ==> View() == old(View())
      ensures r == Handlers.PacketAck(old(View()), acknowledgement).Ending()
    {
      var parsed := Packet.AckOfBinary(acknowledgement);
      match parsed
      case None => return Err(Std);
      case Some(Result(_)) => r := counter.Success();
      case Some(Error(_)) => r := counter.Error();
    }

    /**
     * Two writes: the counter, then the channel. With no channel stored, the second fails after
     * the first has been made, and the counter is left one too high for the transaction to undo.
     */
    method PacketTimeout() returns (r: Outcome<()>)
      modifies Repr()
      ensures state == old(state) && counter == old(counter) && channelState == old(channelState)
      ensures r.Ok? ==> Handlers.PacketTimeout(old(View())) == Ok(View())
      ensures r == Handlers.PacketTimeout(old(View())).Ending()
      ensures r.Err? ==> Handlers.CountTimeout(old(View())) == Ok(View())
      ensures r.Abort? ==> View() == old(View())
    {
      r := counter.Timeout();
      if r.Abort? {
        return;
      }
      if channelState == null {
        return Err(Std);
      }
      channelState.Close();
    }

    // ----- Sending -----

    method SendCustomIcaMessages(
      time: uint64, sender: string, messages: seq<byte>, memo: Option<string>, seconds: Option<uint64>)
      returns (r: Outcome<Packet.SendPacket>)
      ensures r == Handlers.SendCustomIcaMessages(View(), time, sender, messages, memo, seconds)
    {
      var _ :- state.VerifyAdmin(sender);
      var info :- state.GetIcaInfo();
      r := Packet.ToIbcMsg(Packet.New(messages, memo), time, info.channelId, seconds);
    }

    method IcaBankSend(time: uint64, sender: string, amount: string, denom: string, toAddress: string)
      returns (r: Outcome<Packet.SendPacket>)
      ensures r == Handlers.IcaBankSend(View(), time, sender, amount, denom, toAddress)
    {
      var _ :- state.VerifyAdmin(sender);
      var info :- state.GetIcaInfo();
      var packet :- BankPacket(info, amount, denom, toAddress);
      r := Packet.ToIbcMsg(packet, time, info.channelId, None);
    }

    static method BankPacket(info: IcaInfo, amount: string, denom: string, toAddress: string)
      returns (r: Outcome<Packet.IcaPacketData>)
      ensures r == Handlers.BankPacket(info, amount, denom, toAddress)
    {
      match info.encoding {
        case Protobuf =>
          var send := Proto.ProtoMsgSend(info.icaAddress, toAddress, [Proto.ProtoCoin(denom, amount)]);
          return Ok(Packet.FromProtoAnys([Proto.MsgSendToAny(send)], None));
        case Proto3Json =>
          var parsed := Decimal.ParseU128(amount);
          if parsed.None? {
            return Err(UnknownDataType(amount));
          }
          var send := CosmosMsg.MsgSend(info.icaAddress, toAddress, [CosmosMsg.Coin(denom, parsed.value)]);
          return Ok(Packet.FromJsonStrings([CosmosMsg.ToText(send)], None));
      }
    }

    // ----- Transactions -----

    /** `execute` */
    method Execute(msg: Handlers.ExecuteMessage) returns (r: Outcome<Packet.SendPacket>)
      ensures r == Handlers.Execute(View(), msg)
    {
      match msg {
        case SendCustom(sender, time, messages, memo, seconds) =>
          r := SendCustomIcaMessages(time, sender, messages, memo, seconds);
        case SendBank(sender, time, amount, denom, toAddress) =>
          r := IcaBankSend(time, sender, amount, denom, toAddress);
      }
    }

    /** The callbacks of the IBC module; on failure their writes may be half done. */
    method Callback(msg: Handlers.CallbackMessage) returns (r: Outcome<()>)
      modifies Repr()
      ensures fresh(Repr() - old(Repr())) && state == old(state) && counter == old(counter)
      ensures !r.Ok? ==> channelState == old(channelState)
      ensures r == Handlers.Callback(old(View()), msg).Ending()
      ensures r.Ok? ==> Handlers.Callback(old(View()), msg) == Ok(View())
    {
      match msg {
        case ChannelOpenAck(channel, version) => r := OnAcknowledgement(channel, version);
        case ChannelCloseConfirm(channel) => r := CloseConfirm(channel);
        case PacketAcknowledged(acknowledgement) => r := PacketAck(acknowledgement);
        case PacketTimedOut => r := PacketTimeout();
        case _ => r := Abort;
      }
    }

    /** A callback as a transaction: all of its writes are kept, or none. */
    method TransactCallback(msg: Handlers.CallbackMessage) returns (r: Outcome<()>)
      modifies Repr()
      ensures fresh(Repr() - old(Repr()))
      ensures r.Ok? ==> Handlers.Callback(old(View()), msg) == Ok(View())
      ensures !r.Ok? ==> View() == old(View())
      ensures r == Handlers.Callback(old(View()), msg).Ending()
    {
      var admin, icaInfo := state.admin, state.icaInfo;
      var success, error, timeout := counter.success, counter.error, counter.timeout;
      var record: Option<ChannelRecord> :=
        if channelState == null then None else Some(ChannelRecord(channelState.channel, channelState.status));
      r := Callback(msg);
      if !r.Ok? {
        state.admin, state.icaInfo := admin, icaInfo;
        counter.success, counter.error, counter.timeout := success, error, timeout;
        if channelState != null {
          channelState.channel, channelState.status := record.value.channel, record.value.status;
        }
      }
    }

    /** Any message as a transaction. */
    method Transact(msg: Handlers.Message) returns (r: Outcome<Handlers.Response>)
      modifies Repr()
      ensures fresh(Repr() - old(Repr()))
      ensures View() == Handlers.Commit(old(View()), msg)
      ensures r == Handlers.Answer(old(View()), msg)
    {
      match msg {
        case ChannelOpenInit(channel, queried) =>
          var version :- OpenInit(channel, queried);
          r := Ok(Handlers.Version(version));
        case ChannelOpenTry(_) =>
          r := Abort;
        case Executed(execute) =>
          var packet :- Execute(execute);
          r := Ok(Handlers.Send(packet));
        case CalledBack(callback) =>
          var _ :- TransactCallback(callback);
          r := Ok(Handlers.Empty);
      }
    }
  }
}
