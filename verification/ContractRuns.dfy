// What every run of the contract keeps, whatever calls it receives, and what a handshake needs.

module ContractRuns {
  import opened Prelude
  import opened Outcomes
  import opened Ibc
  import opened Metadata
  import opened State
  import opened Handlers
  import Base64
  import Json
  import Packet
  import Utf8

  /** The channel and the account info are set together and agree. */
  ghost predicate Invariant(s: Storage) {
    && (s.channel.Some? <==> s.icaInfo.Some?)
    && (s.channel.Some? ==>
          && (s.channel.value.status == Open || s.channel.value.status == Closed)
          && s.channel.value.channel.endpoint.portId != "icahost"
          && s.icaInfo.value.channelId == s.channel.value.channel.endpoint.channelId
          && s.icaInfo.value.icaAddress != ""
          && |Utf8.Encode(s.icaInfo.value.icaAddress)| <= 128
          && IsIcaAddress(s.icaInfo.value.icaAddress))
  }

  lemma {:induction false} RunKeepsInvariant(s: Storage, msgs: seq<Message>)
    requires Invariant(s)
    ensures Invariant(RunAll(s, msgs)) && RunAll(s, msgs).admin == s.admin
    decreases |msgs|
  {
    if msgs != [] {
      RunKeepsInvariant(Commit(s, msgs[0]), msgs[1..]);
    }
  }

  /** Every state that any sequence of calls can reach satisfies the invariant; the admin is fixed. */
  lemma ReachableInvariant(admin: string, msgs: seq<Message>)
    ensures Invariant(RunAll(Instantiate(admin), msgs))
    ensures RunAll(Instantiate(admin), msgs).admin == admin
  {
    RunKeepsInvariant(Instantiate(admin), msgs);
  }

  // ----- Two-write handlers -----

  /**
   * Between its two writes a committing OpenAck is in a state of its own: the invariant holds
   * there exactly when the same channel was stored already.
   */
  lemma BetweenOpenAckWrites(s: Storage, channel: IbcChannel, counterpartyVersion: string, info: IcaInfo)
    requires Invariant(s) && OpenAck(s, channel, counterpartyVersion).Ok?
    requires OpenAck(s, channel, counterpartyVersion).value.icaInfo == Some(info)
    ensures OpenAck(s, channel, counterpartyVersion) == Ok(WithOpenChannel(WithIcaInfo(s, info), channel))
    ensures Invariant(WithIcaInfo(s, info))
        <==> s.channel.Some? && s.channel.value.channel.endpoint.channelId == channel.endpoint.channelId
    ensures Invariant(WithOpenChannel(WithIcaInfo(s, info), channel))
  {
  }

  // ----- Handshakes -----

  /** What an accepted OpenInit proposes. */
  lemma AcceptedProposal(s: Storage, channel: IbcChannel, queried: Option<string>) returns (m: IcaMetadata)
    requires OpenInit(s, channel, queried).Ok?
    ensures OpenInit(s, channel, queried) == Ok(ToText(m)) && OfText(ToText(m)) == Some(m)
    ensures Acceptable(m, channel)
    ensures channel.order == Ordered && channel.counterpartyEndpoint.portId == "icahost"
    ensures s.channel.Some? ==>
              && s.channel.value.status != Open
              && OfText(s.channel.value.channel.version).Some?
              && WithoutAddress(OfText(s.channel.value.channel.version).value) == WithoutAddress(m)
  {
    m := if channel.version == "" then FromChannel(StoredChannel(s), channel, queried)
         else OfText(channel.version).value;
    OfTextToText(m);
  }

  /**
   * With nothing stored, an empty version is accepted on every ordered channel to a host, and
   * proposes JSON encoding and whatever host connection the query found.
   */
  lemma FreshProposal(s: Storage, channel: IbcChannel, queried: Option<string>)
    requires s.channel.None? && channel.version == ""
    ensures var r := OpenInit(s, channel, queried);
            var host := match queried case Some(id) => id case None => "";
            && (r.Ok? <==> channel.order == Ordered && channel.counterpartyEndpoint.portId == "icahost")
            && (r.Ok? ==> OfText(r.value)
                          == Some(IcaMetadata("ics27-1", channel.connectionId, host, "", Proto3Json, "sdk_multi_msg")))
            && (r.Ok? ==>
                  r.value == Json.Print(Json.Object([
                    Json.Member("version", Json.String("ics27-1")),
                    Json.Member("controller_connection_id", Json.String(channel.connectionId)),
                    Json.Member("host_connection_id", Json.String(host)),
                    Json.Member("address", Json.String("")),
                    Json.Member("encoding", Json.String("proto3json")),
                    Json.Member("tx_type", Json.String("sdk_multi_msg"))])))
  {
    OfTextToText(FromChannel(None, channel, queried));
    WireText("ics27-1", channel.connectionId, match queried case Some(id) => id case None => "", "", "sdk_multi_msg");
  }

  /**
   * A handshake completes: when the host echoes an accepted proposal with an address filled in,
   * OpenAck succeeds, whatever happened in between, exactly when the address is valid and not
   * empty and the controller port is not the host's; the account info is then the negotiated one.
   */
  lemma HandshakeCompletes(
    before: Storage, channel: IbcChannel, queried: Option<string>, proposal: string,
    after: Storage, acknowledged: IbcChannel, address: string)
    requires OpenInit(before, channel, queried) == Ok(proposal)
    requires acknowledged.connectionId == channel.connectionId
    ensures OfText(proposal).Some?
    ensures var m := OfText(proposal).value;
            var r := OpenAck(after, acknowledged, ToText(m.(address := address)));
            && ToText(m.(address := address)) == Json.Print(Json.Object([
                 Json.Member("version", Json.String("ics27-1")),
                 Json.Member("controller_connection_id", Json.String(channel.connectionId)),
                 Json.Member("host_connection_id", Json.String(m.hostConnectionId)),
                 Json.Member("address", Json.String(address)),
                 Json.Member("encoding", Json.String(if m.encoding == Proto3Json then "proto3json" else "proto3")),
                 Json.Member("tx_type", Json.String("sdk_multi_msg"))]))
            && (r.Ok? <==> acknowledged.endpoint.portId != "icahost" && address != "" && IsIcaAddress(address))
            && (r.Ok? ==>
                  && |Utf8.Encode(address)| <= 128
                  && GetIcaInfo(r.value) == Ok(IcaInfo(address, acknowledged.endpoint.channelId, m.encoding))
                  && r.value.channel == Some(ChannelRecord(acknowledged, Open)))
  {
    var m := AcceptedProposal(before, channel, queried);
    OpenAckOf(after, acknowledged, m.(address := address));
    WireText(m.version, m.controllerConnectionId, m.hostConnectionId, address, m.txType);
  }

  /**
   * OpenAck on any answer that is metadata: it commits exactly when the answer has the supported
   * version and transaction type, this connection and a valid address, and then stores that address,
   * the channel id and the encoding the answer names.
   */
  lemma OpenAckExact(
    s: Storage, channel: IbcChannel, version: string, controller: string, host: string, address: string,
    encoding: TxEncoding, txType: string)
    ensures var name := if encoding == Proto3Json then "proto3json" else "proto3";
            var answer := Json.Print(Json.Object([
                            Json.Member("version", Json.String(version)),
                            Json.Member("controller_connection_id", Json.String(controller)),
                            Json.Member("host_connection_id", Json.String(host)),
                            Json.Member("address", Json.String(address)),
                            Json.Member("encoding", Json.String(name)),
                            Json.Member("tx_type", Json.String(txType))]));
            var r := OpenAck(s, channel, answer);
            && (r.Ok? <==>
                  && channel.endpoint.portId != "icahost"
                  && version == "ics27-1" && controller == channel.connectionId && txType == "sdk_multi_msg"
                  && address != "" && IsIcaAddress(address))
            && (r.Ok? ==>
                  r.value == s.(icaInfo := Some(IcaInfo(address, channel.endpoint.channelId, encoding)),
                                channel := Some(ChannelRecord(channel, Open))))
  {
    WireText(version, controller, host, address, txType);
    OpenAckOf(s, channel, IcaMetadata(version, controller, host, address, encoding, txType));
  }

  lemma OpenAckOf(s: Storage, channel: IbcChannel, m: IcaMetadata)
    ensures OpenAck(s, channel, ToText(m)).Ok?
        <==> channel.endpoint.portId != "icahost" && Acceptable(m, channel) && m.address != ""
    ensures OpenAck(s, channel, ToText(m)).Ok? ==>
              OpenAck(s, channel, ToText(m))
              == Ok(s.(icaInfo := Some(IcaInfo(m.address, channel.endpoint.channelId, m.encoding)),
                       channel := Some(ChannelRecord(channel, Open))))
  {
    OfTextToText(m);
  }

  /**
   * OpenInit on an explicit version that is metadata: with nothing stored, or with a stored version
   * that is metadata, it commits exactly when order and port are right, the metadata suits the
   * channel, and a stored channel is not open and agrees on the five fields; it answers the text.
   */
  lemma ExplicitProposalExact(
    s: Storage, channel: IbcChannel, queried: Option<string>, m: IcaMetadata, stored: IcaMetadata)
    requires channel.version == ToText(m)
    requires s.channel.Some? ==> s.channel.value.channel.version == ToText(stored)
    ensures var r := OpenInit(s, channel, queried);
            && (r.Ok? <==>
                  && channel.order == Ordered && channel.counterpartyEndpoint.portId == "icahost"
                  && m.version == "ics27-1" && m.controllerConnectionId == channel.connectionId
                  && m.txType == "sdk_multi_msg" && (m.address == "" || IsIcaAddress(m.address))
                  && (s.channel.Some? ==>
                        && s.channel.value.status != Open
                        && stored.version == m.version
                        && stored.controllerConnectionId == m.controllerConnectionId
                        && stored.hostConnectionId == m.hostConnectionId
                        && stored.encoding == m.encoding && stored.txType == m.txType))
            && (r.Ok? ==> r == Ok(channel.version))
  {
    OfTextToText(m);
    OfTextToText(stored);
  }

  // ----- Acknowledgements -----

  /** `{"result": …}` counts a success and `{"error": …}` an error, unless that count is full. */
  lemma PacketAckCounts(s: Storage, bytes: seq<byte>, message: string)
    ensures PacketAck(s, Utf8.Encode(Json.Print(Json.Object([
              Json.Member("result", Json.String(Base64.Encode(bytes)))]))))
         == if s.counts.success == 0xFFFF_FFFF then Abort
            else Ok(s.(counts := s.counts.(success := s.counts.success + 1)))
    ensures PacketAck(s, Utf8.Encode(Json.Print(Json.Object([
              Json.Member("error", Json.String(message))]))))
         == if s.counts.error == 0xFFFF_FFFF then Abort
            else Ok(s.(counts := s.counts.(error := s.counts.error + 1)))
  {
    Packet.AckTexts(bytes, message);
  }

  // ----- Which stored versions allow a reopening -----

  /** A stored version that a later OpenInit can agree with. */
  predicate Reopenable(version: string) {
    match OfText(version)
    case Some(m) => m.version == "ics27-1" && m.txType == "sdk_multi_msg"
    case None => false
  }

  /** Nothing is stored, or a closed channel on this connection with a version that can be met again. */
  predicate CanProposeOn(s: Storage, connectionId: string) {
    match s.channel
    case None => true
    case Some(record) =>
      && record.status != Open
      && Reopenable(record.channel.version)
      && OfText(record.channel.version).value.controllerConnectionId == connectionId
  }

  /** A version that OpenInit accepts if it accepts any: the stored one, without its address. */
  function VersionToPropose(s: Storage, connectionId: string): string {
    match s.channel
    case Some(record) =>
      (match OfText(record.channel.version)
       case Some(m) => ToText(WithoutAddress(m))
       case None => "")
    case None => ToText(IcaMetadata(ICA_VERSION, connectionId, "", "", Proto3Json, SDK_MULTI_MSG))
  }

  lemma VersionAccepted(s: Storage, channel: IbcChannel)
    requires channel.order == Ordered && channel.counterpartyEndpoint.portId == "icahost"
    requires CanProposeOn(s, channel.connectionId)
    ensures OpenInit(s, channel.(version := VersionToPropose(s, channel.connectionId)), None).Ok?
  {
    match s.channel
    case Some(record) => OfTextToText(WithoutAddress(OfText(record.channel.version).value));
    case None => OfTextToText(IcaMetadata(ICA_VERSION, channel.connectionId, "", "", Proto3Json, SDK_MULTI_MSG));
  }

  lemma OnlyProposableAccepted(s: Storage, channel: IbcChannel, queried: Option<string>)
    requires OpenInit(s, channel, queried).Ok?
    ensures channel.order == Ordered && channel.counterpartyEndpoint.portId == "icahost"
    ensures CanProposeOn(s, channel.connectionId)
  {
    var m := AcceptedProposal(s, channel, queried);
  }

  /** A channel can be proposed with some version exactly when order, port and the stored channel allow it. */
  lemma ProposalExact(s: Storage, channel: IbcChannel)
    ensures (exists version, queried :: OpenInit(s, channel.(version := version), queried).Ok?)
        <==> channel.order == Ordered && channel.counterpartyEndpoint.portId == "icahost"
             && CanProposeOn(s, channel.connectionId)
  {
    if channel.order == Ordered && channel.counterpartyEndpoint.portId == "icahost"
      && CanProposeOn(s, channel.connectionId) {
      VersionAccepted(s, channel);
    }
    forall version, queried | OpenInit(s, channel.(version := version), queried).Ok?
      ensures channel.order == Ordered && channel.counterpartyEndpoint.portId == "icahost"
      ensures CanProposeOn(s, channel.connectionId)
    {
      OnlyProposableAccepted(s, channel.(version := version), queried);
    }
  }

  /** Some OpenInit would succeed. */
  ghost predicate CanPropose(s: Storage) {
    exists channel, queried :: OpenInit(s, channel, queried).Ok?
  }

  function HostChannel(connectionId: string, version: string): IbcChannel {
    IbcChannel(IbcEndpoint("", ""), IbcEndpoint("icahost", ""), Ordered, version, connectionId)
  }

  lemma SomeConnection(s: Storage, connectionId: string)
    requires CanProposeOn(s, connectionId)
    ensures CanPropose(s)
  {
    VersionAccepted(s, HostChannel(connectionId, ""));
    assert OpenInit(s, HostChannel(connectionId, VersionToPropose(s, connectionId)), None).Ok?;
  }

  /**
   * Some OpenInit succeeds exactly when no channel is stored, or a closed one whose version is
   * metadata with the ICS-27 version and the supported transaction type.
   */
  lemma CanProposeExact(s: Storage)
    ensures CanPropose(s)
        <==> (s.channel.Some? ==>
                s.channel.value.status != Open && Reopenable(s.channel.value.channel.version))
  {
    if CanPropose(s) {
      var channel, queried :| OpenInit(s, channel, queried).Ok?;
      OnlyProposableAccepted(s, channel, queried);
    }
    if s.channel.None? {
      SomeConnection(s, "");
    } else if s.channel.value.status != Open && Reopenable(s.channel.value.channel.version) {
      SomeConnection(s, OfText(s.channel.value.channel.version).value.controllerConnectionId);
    }
  }

  // ----- Along runs -----

  predicate IsOpenAck(msg: Message) {
    msg.CalledBack? && msg.callback.ChannelOpenAck?
  }

  /** No OpenAck among `msgs` commits when they are run from `s`. */
  predicate NoOpenAckCommits(s: Storage, msgs: seq<Message>)
    decreases |msgs|
  {
    msgs == []
    || (!(IsOpenAck(msgs[0]) && Callback(s, msgs[0].callback).Ok?)
        && NoOpenAckCommits(Commit(s, msgs[0]), msgs[1..]))
  }

  lemma {:induction false} VersionStays(s: Storage, msgs: seq<Message>)
    requires s.channel.Some? && NoOpenAckCommits(s, msgs)
    ensures RunAll(s, msgs).channel.Some?
    ensures RunAll(s, msgs).channel.value.channel == s.channel.value.channel
    ensures RunAll(s, msgs).icaInfo == s.icaInfo
    decreases |msgs|
  {
    if msgs != [] {
      VersionStays(Commit(s, msgs[0]), msgs[1..]);
    }
  }

  lemma {:induction false} NothingBeforeOpenAck(s: Storage, msgs: seq<Message>)
    requires s.channel.None? && s.icaInfo.None? && NoOpenAckCommits(s, msgs)
    ensures var after := RunAll(s, msgs);
            after.channel.None? && after.icaInfo.None? && after.counts.timeout == s.counts.timeout
    decreases |msgs|
  {
    if msgs != [] {
      NothingBeforeOpenAck(Commit(s, msgs[0]), msgs[1..]);
    }
  }

  /**
   * Whatever calls come before the first committed OpenAck, nothing can be sent, and a timeout has
   * counted itself by the time it fails, of which the transaction keeps nothing.
   */
  lemma BeforeOpenAck(admin: string, msgs: seq<Message>)
    requires NoOpenAckCommits(Instantiate(admin), msgs)
    ensures var s := RunAll(Instantiate(admin), msgs);
            && GetIcaInfo(s) == Err(IcaInfoNotSet)
            && CountTimeout(s).Ok? && CountTimeout(s).value.counts.timeout == 1
            && PacketTimeout(s) == Err(Std)
            && Commit(s, CalledBack(PacketTimedOut)) == s && s.counts.timeout == 0
  {
    NothingBeforeOpenAck(Instantiate(admin), msgs);
  }

  /**
   * Reopening with an empty version, however many calls after the OpenAck: with the channel closed
   * and its version metadata, it is accepted exactly when order, port and the stored metadata suit
   * the new channel, and proposes that metadata again.
   */
  lemma ReopenExact(s: Storage, msgs: seq<Message>, channel: IbcChannel, queried: Option<string>, m: IcaMetadata)
    requires s.channel.Some? && OfText(s.channel.value.channel.version) == Some(m)
    requires NoOpenAckCommits(s, msgs) && channel.version == ""
    ensures var after := RunAll(s, msgs);
            var r := OpenInit(after, channel, queried);
            && after.channel.Some?
            && (r.Ok? <==> after.channel.value.status != Open && channel.order == Ordered
                           && channel.counterpartyEndpoint.portId == "icahost" && Acceptable(m, channel))
            && (r.Ok? ==> r == Ok(ToText(m)))
  {
    VersionStays(s, msgs);
  }

  /**
   * As long as no OpenAck commits, a channel can be proposed exactly when the stored one is closed
   * and its version can be met again; that version never changes meanwhile.
   */
  lemma CanProposeAlongRuns(s: Storage, msgs: seq<Message>)
    requires s.channel.Some? && NoOpenAckCommits(s, msgs)
    ensures RunAll(s, msgs).channel.Some?
    ensures CanPropose(RunAll(s, msgs))
        <==> RunAll(s, msgs).channel.value.status != Open && Reopenable(s.channel.value.channel.version)
  {
    VersionStays(s, msgs);
    CanProposeExact(RunAll(s, msgs));
  }

  /** Some sequence of calls leads to a successful OpenInit without another OpenAck. */
  ghost predicate CanReopen(s: Storage) {
    exists msgs :: NoOpenAckCommits(s, msgs) && CanPropose(RunAll(s, msgs))
  }

  /** The confirmed close of the stored channel, as a run. */
  lemma AfterClose(s: Storage) returns (msgs: seq<Message>)
    requires s.channel.Some?
    ensures NoOpenAckCommits(s, msgs)
    ensures RunAll(s, msgs).channel == Some(ChannelRecord(s.channel.value.channel, Closed))
  {
    var close := CalledBack(ChannelCloseConfirm(s.channel.value.channel));
    msgs := [close];
    assert msgs[1..] == [];
    assert RunAll(s, msgs) == RunAll(Commit(s, close), []);
  }

  /**
   * The stored version alone decides whether the contract can ever propose a channel again short of
   * another OpenAck: exactly when it is metadata with the ICS-27 version and the supported
   * transaction type. Any other version blocks every OpenInit, of any version, for good.
   */
  lemma ReopeningExact(s: Storage)
    requires s.channel.Some?
    ensures CanReopen(s) <==> Reopenable(s.channel.value.channel.version)
  {
    if CanReopen(s) {
      var msgs :| NoOpenAckCommits(s, msgs) && CanPropose(RunAll(s, msgs));
      CanProposeAlongRuns(s, msgs);
    }
    if Reopenable(s.channel.value.channel.version) {
      var msgs := AfterClose(s);
      CanProposeAlongRuns(s, msgs);
    }
  }
}
