// What each committed event does to the world, in terms of its records only: the invariants of
// runs are proved from these effects, without looking into handlers and codecs again.

module Effects {
  import opened Prelude
  import opened Outcomes
  import opened Ibc
  import opened State
  import opened World
  import Handlers
  import BankSend
  import Packet

  /** The counters moved by one committed callback. */
  predicate Counted(before: Counts, after: Counts, fate: Fate) {
    && after.success == before.success + (if fate == Succeeded then 1 else 0)
    && after.error == before.error + (if fate == Failed then 1 else 0)
    && after.timeout == before.timeout + (if fate == TimedOut then 1 else 0)
  }

  predicate ProposeEffect(w: World, next: World, channel: IbcChannel) {
    var id := channel.endpoint.channelId;
    && id !in w.ends
    && id in next.ends
    && next == w.(ends := w.ends[id := End(channel.(version := next.ends[id].channel.version), Proposed, |w.history|)],
                  history := w.history + [Began(id)])
  }

  predicate AcknowledgeEffect(
    w: World, next: World, id: string, counterpartyChannelId: string, version: string, answer: string)
  {
    && id in w.ends && w.ends[id].status == Proposed
    && next.store.icaInfo.Some?
    && var channel := AcknowledgedChannel(w.ends[id], counterpartyChannelId, version);
       var info := next.store.icaInfo.value;
       && channel.endpoint.portId != "icahost"
       && info.channelId == channel.endpoint.channelId
       && info.icaAddress != "" && IsIcaAddress(info.icaAddress)
       && next == w.(store := w.store.(icaInfo := Some(info), channel := Some(ChannelRecord(channel, Open))),
                     ends := w.ends[id := w.ends[id].(channel := channel.(version := answer), status := Live)],
                     history := w.history + [Opened(channel, answer)])
  }

  predicate ConfirmEffect(w: World, next: World, id: string) {
    && id in w.ends && w.ends[id].status == Live
    && Handlers.StoredChannel(w.store) == Some(w.ends[id].channel)
    && next == w.(store := Handlers.WithClosedChannel(w.store), ends := EndOf(w.ends, id),
                  history := w.history + [Confirmed(id)])
  }

  predicate AckEffect(w: World, next: World, index: nat) {
    && IsPending(w, index) && |next.fates| == |w.fates|
    && var fate := next.fates[index];
       && (fate == Succeeded || fate == Failed)
       && Counted(w.store.counts, next.store.counts, fate)
       && next == w.(store := w.store.(counts := next.store.counts), fates := w.fates[index := fate],
                     history := w.history + [Resolved(index, fate)])
  }

  predicate TimeoutEffect(w: World, next: World, index: nat) {
    && IsPending(w, index) && w.packets[index].sent.channelId in w.ends
    && w.store.channel.Some?
    && Counted(w.store.counts, next.store.counts, TimedOut)
    && next == w.(store := Handlers.WithClosedChannel(w.store).(counts := next.store.counts),
                  fates := w.fates[index := TimedOut],
                  ends := EndOf(w.ends, w.packets[index].sent.channelId),
                  history := w.history + [Resolved(index, TimedOut)])
  }

  predicate ExecuteEffect(w: World, next: World, msg: Handlers.ExecuteMessage) {
    && msg.time == w.now && msg.sender == w.store.admin && w.store.icaInfo.Some?
    && |next.packets| == |w.packets| + 1
    && var packet := next.packets[|w.packets|].sent;
       && packet.channelId == w.store.icaInfo.value.channelId
       && packet.timeout == w.now + (match Seconds(msg) case Some(s) => s * 1_000_000_000 case None => 600_000_000_000)
       && packet.channelId in w.ends && w.ends[packet.channelId].status == Live
       && next == w.(packets := w.packets + [SentPacket(packet, w.now, Seconds(msg))],
                     fates := w.fates + [Unresolved],
                     history := w.history + [Emitted(|w.packets|, msg.sender, packet.channelId)])
  }

  predicate Effect(w: World, next: World, e: Event) {
    match e
    case Tick(now) => w.now <= now && next == w.(now := now)
    case Propose(channel, _) => ProposeEffect(w, next, channel)
    case Acknowledge(id, counterparty, version, answer) =>
      AcknowledgeEffect(w, next, id, counterparty, version, answer)
    case ConfirmClose(id) => ConfirmEffect(w, next, id)
    case DeliverAck(index, _) => AckEffect(w, next, index)
    case DeliverTimeout(index) => TimeoutEffect(w, next, index)
    case Execute(msg) => ExecuteEffect(w, next, msg)
  }

  /** A send that goes through was asked for by the admin and goes to the stored channel. */
  lemma SenderAndTarget(s: Storage, msg: Handlers.ExecuteMessage)
    requires Handlers.Execute(s, msg).Ok?
    ensures msg.sender == s.admin && s.icaInfo.Some?
    ensures Handlers.Execute(s, msg).value.channelId == s.icaInfo.value.channelId
  {
    match msg
    case SendCustom(sender, time, messages, memo, seconds) =>
      BankSend.CustomSendExact(s, time, sender, messages, memo, seconds);
    case SendBank(sender, time, amount, denom, toAddress) =>
      BankSend.SendMeans(s, time, sender, amount, denom, toAddress);
  }

  /** Its timeout is the exact sum of block time and seconds. */
  lemma ExecuteTimeout(s: Storage, msg: Handlers.ExecuteMessage)
    requires Handlers.Execute(s, msg).Ok?
    ensures Handlers.Execute(s, msg).value.timeout
         == msg.time + (match Seconds(msg) case Some(s) => s * 1_000_000_000 case None => 600_000_000_000)
  {
    match msg
    case SendCustom(sender, time, messages, memo, seconds) =>
      BankSend.CustomSendExact(s, time, sender, messages, memo, seconds);
    case SendBank(sender, time, amount, denom, toAddress) =>
      BankSend.SendMeans(s, time, sender, amount, denom, toAddress);
  }

  lemma ExecuteHasEffect(w: World, msg: Handlers.ExecuteMessage)
    requires StepExecute(w, msg).Some?
    ensures ExecuteEffect(w, StepExecute(w, msg).value, msg)
  {
    SenderAndTarget(w.store, msg);
    ExecuteTimeout(w.store, msg);
  }

  lemma AcknowledgeHasEffect(w: World, id: string, counterparty: string, version: string, counterpartyVersion: string)
    requires StepAcknowledge(w, id, counterparty, version, counterpartyVersion).Some?
    ensures AcknowledgeEffect(
              w, StepAcknowledge(w, id, counterparty, version, counterpartyVersion).value,
              id, counterparty, version, counterpartyVersion)
  {
  }

  lemma AckHasEffect(w: World, index: nat, acknowledgement: seq<byte>)
    requires StepAck(w, index, acknowledgement).Some?
    ensures AckEffect(w, StepAck(w, index, acknowledgement).value, index)
  {
  }

  lemma TimeoutHasEffect(w: World, index: nat)
    requires StepTimeout(w, index).Some?
    ensures TimeoutEffect(w, StepTimeout(w, index).value, index)
  {
  }

  /** Every committed event has its effect. */
  lemma StepHasEffect(w: World, e: Event)
    requires Step(w, e).Some?
    ensures Effect(w, Step(w, e).value, e)
  {
    match e
    case Acknowledge(id, cp, version, cpVersion) => AcknowledgeHasEffect(w, id, cp, version, cpVersion);
    case DeliverAck(index, acknowledgement) => AckHasEffect(w, index, acknowledgement);
    case DeliverTimeout(index) => TimeoutHasEffect(w, index);
    case Execute(msg) => ExecuteHasEffect(w, msg);
    case _ =>
  }
}
