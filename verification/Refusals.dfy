// Which error each call ends in: the first of its checks that fails.

module Refusals {
  import opened Prelude
  import opened Outcomes
  import opened Ibc
  import opened Metadata
  import opened State
  import opened Handlers
  import opened BankSend
  import Decimal
  import Packet

  /** The error of metadata that does not suit the channel. */
  lemma ValidationErrors(m: IcaMetadata, channel: IbcChannel)
    ensures Validate(m, channel)
         == if m.version != "ics27-1" then Err(InvalidVersion("ics27-1", m.version))
            else if m.controllerConnectionId != channel.connectionId then Err(InvalidConnection)
            else if m.address != "" && !IsIcaAddress(m.address) then Err(InvalidAddress)
            else if m.txType != "sdk_multi_msg" then Err(UnsupportedTxType(m.txType))
            else Ok(())
    ensures Validate(m, channel).Ok? <==> Acceptable(m, channel)
  {
  }

  lemma OpenInitErrors(s: Storage, channel: IbcChannel, queried: Option<string>)
    ensures var r := OpenInit(s, channel, queried);
            && (channel.order != Ordered ==> r == Err(InvalidChannelOrdering))
            && (channel.order == Ordered && channel.counterpartyEndpoint.portId != "icahost"
                ==> r == Err(InvalidHostPort))
            && (channel.order == Ordered && channel.counterpartyEndpoint.portId == "icahost"
                && channel.version != "" && OfText(channel.version).None?
                ==> r == Err(UnknownDataType("cannot unmarshal ICS-27 interchain accounts metadata")))
  {
  }

  /** Once the metadata is known, validation comes first, then the open channel, then the stored version. */
  lemma OpenInitErrorsAfterParsing(s: Storage, channel: IbcChannel, queried: Option<string>, m: IcaMetadata)
    requires channel.order == Ordered && channel.counterpartyEndpoint.portId == "icahost"
    requires channel.version != "" && OfText(channel.version) == Some(m)
    ensures var r := OpenInit(s, channel, queried);
            if !Acceptable(m, channel) then Validate(m, channel).Err? && r == Err(Validate(m, channel).error)
            else if s.channel.Some? && s.channel.value.status == Open then r == Err(ActiveChannelAlreadySet)
            else if s.channel.Some? && !IsPreviousVersionEqual(m, s.channel.value.channel.version) then
              r == Err(InvalidVersion(s.channel.value.channel.version, ToText(m)))
            else r == Ok(ToText(m))
  {
  }

  lemma OpenAckErrors(s: Storage, channel: IbcChannel, answer: string)
    ensures var r := OpenAck(s, channel, answer);
            && (channel.endpoint.portId == "icahost" ==> r == Err(InvalidControllerPort))
            && (channel.endpoint.portId != "icahost" ==>
                  match OfText(answer)
                  case None => r == Err(UnknownDataType("cannot unmarshal ICS-27 interchain accounts metadata"))
                  case Some(m) =>
                    if !Acceptable(m, channel) then Validate(m, channel).Err? && r == Err(Validate(m, channel).error)
                    else if m.address == "" then r == Err(InvalidAddress)
                    else r.Ok?)
  {
  }

  /**
   * With an empty version, the metadata is that of the stored channel, or fresh if there is none that
   * parses. Fresh metadata always suits the channel, but never agrees with a version that does not parse.
   */
  lemma EmptyVersionErrors(s: Storage, channel: IbcChannel, queried: Option<string>)
    requires channel.order == Ordered && channel.counterpartyEndpoint.portId == "icahost" && channel.version == ""
    requires s.channel.Some? && OfText(s.channel.value.channel.version).None?
    ensures var host := match queried case Some(id) => id case None => "";
            var blank := IcaMetadata("ics27-1", channel.connectionId, host, "", Proto3Json, "sdk_multi_msg");
            OpenInit(s, channel, queried)
            == if s.channel.value.status == Open then Err(ActiveChannelAlreadySet)
               else Err(InvalidVersion(s.channel.value.channel.version, ToText(blank)))
  {
  }

  /** A close is confirmed for the stored channel alone; a timeout closes it whatever packet it was for. */
  lemma CloseAndTimeoutOutcomes(s: Storage, channel: IbcChannel)
    ensures s.channel.None? ==> CloseConfirm(s, channel) == Err(Std)
    ensures s.channel.Some? && s.channel.value.channel != channel
        ==> CloseConfirm(s, channel) == Err(InvalidChannelInContractState)
    ensures s.channel.Some? && s.channel.value.channel == channel
        ==> CloseConfirm(s, channel) == Ok(s.(channel := Some(ChannelRecord(channel, Closed))))
    ensures s.channel == Some(ChannelRecord(channel, Open)) && s.counts.timeout < 0xFFFF_FFFF
        ==> PacketTimeout(s) == Ok(s.(channel := Some(ChannelRecord(channel, Closed)),
                                      counts := s.counts.(timeout := s.counts.timeout + 1)))
    ensures s.counts.timeout == 0xFFFF_FFFF ==> PacketTimeout(s) == Abort
    ensures s.counts.timeout < 0xFFFF_FFFF && s.channel.None? ==> PacketTimeout(s) == Err(Std)
  {
  }

  /** The calls that a controller never receives panic. */
  lemma NeverReceived(s: Storage, channel: IbcChannel)
    ensures Answer(s, ChannelOpenTry(channel)) == Abort
    ensures Callback(s, ChannelOpenConfirm(channel)) == Abort && Callback(s, ChannelCloseInit(channel)) == Abort
    ensures Callback(s, PacketReceived) == Abort
  {
  }

  lemma SendErrors(s: Storage, msg: ExecuteMessage)
    ensures msg.sender != s.admin ==> Execute(s, msg) == Err(Unauthorized)
    ensures msg.sender == s.admin && s.icaInfo.None? ==> Execute(s, msg) == Err(IcaInfoNotSet)
    ensures msg.SendBank? && msg.sender == s.admin && s.icaInfo.Some? && s.icaInfo.value.encoding == Proto3Json
            && Decimal.ParseU128(msg.amount).None?
        ==> Execute(s, msg) == Err(UnknownDataType(msg.amount))
  {
    match msg
    case SendCustom(_, _, _, _, _) =>
    case SendBank(sender, time, amount, denom, toAddress) =>
      if sender != s.admin {
        assert VerifyAdmin(s, sender) == Err(Unauthorized);
      } else if s.icaInfo.None? {
        assert GetIcaInfo(s) == Err(IcaInfoNotSet);
      } else {
        assert GetIcaInfo(s) == Ok(s.icaInfo.value);
        BankPacketDelivered(s.icaInfo.value, amount, denom, toAddress);
      }
  }

  /** A deadline that does not fit 64 bits is a panic. */
  lemma DeadlineOverflow(s: Storage, msg: ExecuteMessage)
    requires msg.SendCustom? && msg.sender == s.admin && s.icaInfo.Some?
    requires msg.time + (match msg.seconds case Some(n) => n * 1_000_000_000 case None => 600_000_000_000)
             >= 0x1_0000_0000_0000_0000
    ensures Execute(s, msg) == Abort
  {
    Packet.ToIbcMsgExact(Packet.New(msg.messages, msg.memo), msg.time, s.icaInfo.value.channelId, msg.seconds);
  }
}
