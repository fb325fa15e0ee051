// The contract inside its environment: core IBC's own channel ends, the packets it carries and
// the block time. An event is one transaction; it commits completely or changes nothing.

module World {
  import opened Prelude
  import opened Outcomes
  import opened Ibc
  import opened State
  import Handlers
  import Packet

  /** A channel end in core IBC: after OpenInit, after OpenAck, and after it is closed. */
  datatype EndStatus = Proposed | Live | Ended

  /**
   * `channel.version` is what OpenInit answered and, from OpenAck on, what the counterparty answered
   * (ICS-04, `chanOpenAck`); `begun` is the length of the history when the end was proposed.
   */
  datatype End = End(channel: IbcChannel, status: EndStatus, begun: nat)

  datatype SentPacket = SentPacket(
    sent: Packet.SendPacket,
    sentAt: uint64,
    seconds: Option<uint64>)

  /** Core IBC resolves a packet at most once. */
  datatype Fate = Unresolved | Succeeded | Failed | TimedOut

  /** The committed steps, in order. */
  datatype Entry =
    | Began(channelId: string)
    | Opened(channel: IbcChannel, answer: string)
    | Confirmed(channelId: string)
    | Resolved(index: nat, fate: Fate)
    | Emitted(index: nat, sender: string, channelId: string)

  datatype World = World(
    store: Storage,
    ends: map<string, End>,
    packets: seq<SentPacket>,
    fates: seq<Fate>,
    now: uint64,
    history: seq<Entry>)

  /**
   * Core IBC passes its own record of a channel; only the version that comes with OpenAck is left
   * open (the proposal and the answer are both in use), as is everything the counterparty answers.
   */
  datatype Event =
    | Tick(now: uint64)
    | Propose(channel: IbcChannel, queried: Option<string>)
    | Acknowledge(channelId: string, counterpartyChannelId: string, version: string, counterpartyVersion: string)
    | ConfirmClose(channelId: string)
    | DeliverAck(index: nat, acknowledgement: seq<byte>)
    | DeliverTimeout(index: nat)
    | Execute(msg: Handlers.ExecuteMessage)

  function Start(admin: string, now: uint64): World {
    World(Handlers.Instantiate(admin), map[], [], [], now, [])
  }

  /** Time does not run backwards. */
  function StepTick(w: World, now: uint64): Option<World> {
    if now < w.now then None else Some(w.(now := now))
  }

  /** A new end, with a channel id that was never used. */
  function StepPropose(w: World, channel: IbcChannel, queried: Option<string>): Option<World> {
    var id := channel.endpoint.channelId;
    if id in w.ends then None
    else
      match Handlers.OpenInit(w.store, channel, queried)
      case Ok(version) =>
        Some(w.(ends := w.ends[id := End(channel.(version := version), Proposed, |w.history|)],
                history := w.history + [Began(id)]))
      case _ => None
  }

  /** The channel as OpenAck passes it to the contract. */
  function AcknowledgedChannel(end: End, counterpartyChannelId: string, version: string): IbcChannel {
    end.channel.(counterpartyEndpoint := end.channel.counterpartyEndpoint.(channelId := counterpartyChannelId),
                 version := version)
  }

  function StepAcknowledge(
    w: World, id: string, counterpartyChannelId: string, version: string, counterpartyVersion: string)
    : Option<World>
  {
    if id !in w.ends || w.ends[id].status != Proposed then None
    else
      var channel := AcknowledgedChannel(w.ends[id], counterpartyChannelId, version);
      match Handlers.OpenAck(w.store, channel, counterpartyVersion)
      case Ok(store) =>
        Some(w.(store := store,
                ends := w.ends[id := w.ends[id].(channel := channel.(version := counterpartyVersion), status := Live)],
                history := w.history + [Opened(channel, counterpartyVersion)]))
      case _ => None
  }

  function EndOf(ends: map<string, End>, id: string): map<string, End>
    requires id in ends
  {
    ends[id := ends[id].(status := Ended)]
  }

  function StepConfirmClose(w: World, id: string): Option<World> {
    if id !in w.ends || w.ends[id].status != Live then None
    else
      match Handlers.CloseConfirm(w.store, w.ends[id].channel)
      case Ok(store) =>
        Some(w.(store := store, ends := EndOf(w.ends, id), history := w.history + [Confirmed(id)]))
      case _ => None
  }

  function AckFate(acknowledgement: seq<byte>): Fate {
    match Packet.AckOfBinary(acknowledgement)
    case Some(Error(_)) => Failed
    case _ => Succeeded
  }

  predicate IsPending(w: World, index: nat) {
    index < |w.fates| && index < |w.packets| && w.fates[index] == Unresolved
  }

  function StepAck(w: World, index: nat, acknowledgement: seq<byte>): Option<World> {
    if !IsPending(w, index) then None
    else
      match Handlers.PacketAck(w.store, acknowledgement)
      case Ok(store) =>
        var fate := AckFate(acknowledgement);
        Some(w.(store := store, fates := w.fates[index := fate],
                history := w.history + [Resolved(index, fate)]))
      case _ => None
  }

  /** The channels are ordered: core IBC ends the one whose packet timed out. */
  function StepTimeout(w: World, index: nat): Option<World> {
    if !IsPending(w, index) || w.packets[index].sent.channelId !in w.ends then None
    else
      match Handlers.PacketTimeout(w.store)
      case Ok(store) =>
        Some(w.(store := store, fates := w.fates[index := TimedOut],
                ends := EndOf(w.ends, w.packets[index].sent.channelId),
                history := w.history + [Resolved(index, TimedOut)]))
      case _ => None
  }

  function Seconds(msg: Handlers.ExecuteMessage): Option<uint64> {
    if msg.SendCustom? then msg.seconds else None
  }

  /** Core IBC takes a packet only on a channel it has open. */
  function StepExecute(w: World, msg: Handlers.ExecuteMessage): Option<World> {
    if msg.time != w.now then None
    else
      match Handlers.Execute(w.store, msg)
      case Ok(packet) =>
        if packet.channelId !in w.ends || w.ends[packet.channelId].status != Live then None
        else
          Some(w.(packets := w.packets + [SentPacket(packet, w.now, Seconds(msg))],
                  fates := w.fates + [Unresolved],
                  history := w.history + [Emitted(|w.packets|, msg.sender, packet.channelId)]))
      case _ => None
  }

  /** The world after an event, if the event can happen and commits. */
  function Step(w: World, e: Event): Option<World> {
    match e
    case Tick(now) => StepTick(w, now)
    case Propose(channel, queried) => StepPropose(w, channel, queried)
    case Acknowledge(id, counterparty, version, counterpartyVersion) =>
      StepAcknowledge(w, id, counterparty, version, counterpartyVersion)
    case ConfirmClose(id) => StepConfirmClose(w, id)
    case DeliverAck(index, acknowledgement) => StepAck(w, index, acknowledgement)
    case DeliverTimeout(index) => StepTimeout(w, index)
    case Execute(msg) => StepExecute(w, msg)
  }

  function After(w: World, e: Event): World {
    match Step(w, e)
    case Some(next) => next
    case None => w
  }

  function Run(w: World, events: seq<Event>): World
    decreases |events|
  {
    if events == [] then w else Run(After(w, events[0]), events[1..])
  }
}
