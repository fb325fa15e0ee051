// Concrete runs: those on which a claim fails when one of its provisos is dropped, and those that
// show that the provisos can be met, or are more than is needed. Each is built event by event, for
// any channel ids and any terms, and its lemma returns its events.

module CounterRuns {
  import opened Prelude
  import opened Outcomes
  import opened Ibc
  import opened Metadata
  import opened State
  import opened World
  import opened WorldInvariants
  import opened Stability
  import ContractRuns
  import Handlers
  import Packet
  import Utf8

  /** Terms that a controller on `connection` may propose. */
  predicate Proposable(m: IcaMetadata, connection: string) {
    m.version == "ics27-1" && m.txType == "sdk_multi_msg" && m.address == "" && m.controllerConnectionId == connection
  }

  predicate Fillable(address: string) {
    address != "" && IsIcaAddress(address)
  }

  /** There are such terms, in both encodings, and such an address. */
  lemma ProposableExists(connection: string, encoding: TxEncoding)
    ensures Proposable(IcaMetadata("ics27-1", connection, "", "", encoding, "sdk_multi_msg"), connection)
    ensures Fillable("a")
  {
    assert Utf8.Encode("a"[1..]) == [];
    assert ALPHANUMERIC('a');
  }

  // ----- Building runs -----

  /** A run in the making: its events so far, and the provisos that they meet. */
  datatype Trace = Trace(start: World, events: seq<Event>, provisos: Provisos)

  predicate At(t: Trace, v: World) {
    Run(t.start, t.events) == v && RunMeets(t.start, t.events, t.provisos)
  }

  /** One event more. */
  predicate Extends(t: Trace, t': Trace) {
    t'.start == t.start && t'.provisos == t.provisos && |t'.events| == |t.events| + 1 && t.events <= t'.events
  }

  lemma {:induction false} RunSnoc(w: World, events: seq<Event>, e: Event, p: Provisos)
    ensures Run(w, events + [e]) == After(Run(w, events), e)
    ensures RunMeets(w, events + [e], p)
        <==> RunMeets(w, events, p) && (Step(Run(w, events), e).Some? ==> Meets(Run(w, events), e, p))
    decreases |events|
  {
    if events == [] {
      assert [] + [e] == [e] && [e][1..] == [];
    } else {
      assert (events + [e])[1..] == events[1..] + [e];
      RunSnoc(After(w, events[0]), events[1..], e, p);
    }
  }

  /** One committed event more. */
  lemma Extend(t: Trace, v: World, e: Event) returns (t': Trace)
    requires At(t, v) && Step(v, e).Some? && Meets(v, e, t.provisos)
    ensures t' == t.(events := t.events + [e]) && At(t', Step(v, e).value) && Extends(t, t')
  {
    RunSnoc(t.start, t.events, e, t.provisos);
    t' := t.(events := t.events + [e]);
  }

  lemma {:induction false} ThroughoutSnoc(w: World, events: seq<Event>, e: Event)
    ensures Throughout(w, events + [e]) <==> Throughout(w, events) && OnFirstTerms(Run(w, events + [e]))
    decreases |events|
  {
    if events == [] {
      assert [] + [e] == [e] && [e][1..] == [];
    } else {
      assert (events + [e])[1..] == events[1..] + [e];
      ThroughoutSnoc(After(w, events[0]), events[1..], e);
    }
  }

  /** A run stays on the first terms when its new state is on them. */
  lemma StaysOnTerms(t: Trace, t': Trace, v': World)
    requires Extends(t, t') && At(t', v') && OnFirstTerms(v') && Throughout(t.start, t.events)
    ensures Throughout(t'.start, t'.events)
  {
    ThroughoutSnoc(t.start, t.events, t'.events[|t.events|]);
    assert t'.events == t.events + [t'.events[|t.events|]];
  }

  /** So is one that takes in an OpenAck on the first terms. */
  lemma StaysByAcknowledge(
    t: Trace, v: World, t': Trace, v': World, channel: IbcChannel, answer: string, m: IcaMetadata)
    requires At(t, v) && At(t', v') && Extends(t, t') && Throughout(t.start, t.events)
    requires v'.history == v.history + [Opened(channel, answer)]
    requires Handlers.StoredChannel(v'.store) == Some(channel)
    requires v'.store.icaInfo.Some? && v'.store.icaInfo.value.encoding == m.encoding
    requires Terms(channel.version) == Some(m)
    requires FirstOpened(v.history).Some? ==> FirstTerms(v.history) == Some(m)
    ensures Throughout(t'.start, t'.events) && FirstTerms(v'.history) == Some(m)
  {
    ThroughoutEnds(t.start, t.events);
    OpenedOnTerms(v, v', channel, answer);
    StaysOnTerms(t, t', v');
  }

  function NewChannel(id: string, connection: string, version: string): IbcChannel {
    IbcChannel(IbcEndpoint("wasm", id), IbcEndpoint("icahost", ""), Ordered, version, connection)
  }

  /** The end of `id` after a proposal of `m`. */
  ghost predicate ProposedAs(v: World, id: string, connection: string, m: IcaMetadata, begun: nat) {
    && id in v.ends && v.ends[id].status == Proposed && v.ends[id].begun == begun
    && v.ends[id].channel.endpoint == IbcEndpoint("wasm", id)
    && v.ends[id].channel.connectionId == connection
    && v.ends[id].channel.version == ToText(m) && Terms(ToText(m)) == Some(m)
  }

  lemma ProposalAccepted(s: Storage, id: string, connection: string, m: IcaMetadata)
    requires Proposable(m, connection)
    requires s.channel.Some? ==>
               s.channel.value.status == Closed && Terms(s.channel.value.channel.version) == Some(m)
    ensures Handlers.OpenInit(s, NewChannel(id, connection, ToText(m)), None) == Ok(ToText(m))
  {
    OfTextToText(m);
  }

  /** A proposal: with nothing stored, or of the terms of a closed stored channel. */
  lemma ThenPropose(t: Trace, v: World, id: string, connection: string, m: IcaMetadata) returns (t': Trace, v': World)
    requires At(t, v) && id !in v.ends && Proposable(m, connection)
    requires v.store.channel.Some? ==>
               v.store.channel.value.status == Closed && Terms(v.store.channel.value.channel.version) == Some(m)
    ensures At(t', v') && Extends(t, t')
    ensures v' == v.(ends := v'.ends, history := v.history + [Began(id)])
    ensures ProposedAs(v', id, connection, m, |v.history|)
    ensures v'.ends == v.ends[id := v'.ends[id]]
    ensures FirstOpened(v'.history) == FirstOpened(v.history)
  {
    FirstOpenedSnoc(v.history, Began(id));
    var e := Propose(NewChannel(id, connection, ToText(m)), None);
    ProposalAccepted(v.store, id, connection, m);
    OfTextToText(m);
    v' := Step(v, e).value;
    t' := Extend(t, v, e);
  }

  lemma AnswerAccepted(s: Storage, channel: IbcChannel, m: IcaMetadata, address: string)
    requires Proposable(m, channel.connectionId) && Fillable(address) && channel.endpoint.portId == "wasm"
    ensures Handlers.OpenAck(s, channel, ToText(m.(address := address)))
         == Ok(s.(icaInfo := Some(IcaInfo(address, channel.endpoint.channelId, m.encoding)),
                  channel := Some(ChannelRecord(channel, Open))))
    ensures Terms(ToText(m.(address := address))) == Some(m)
  {
    OfTextToText(m.(address := address));
  }

  /** What a host answers to the terms `m`: it fills in the address. */
  function Answer(m: IcaMetadata, address: string): string {
    ToText(m.(address := address))
  }

  /** The world after that answer to `id`, when OpenAck comes with `version`. */
  ghost predicate OpenedFrom(v: World, v': World, id: string, version: string, m: IcaMetadata, address: string) {
    && id in v.ends
    && v'.store.channel.Some?
    && var channel := v'.store.channel.value.channel;
       && channel.version == version && channel.endpoint == IbcEndpoint("wasm", id)
       && v' == v.(store := v.store.(icaInfo := Some(IcaInfo(address, id, m.encoding)),
                                     channel := Some(ChannelRecord(channel, Open))),
                   ends := v.ends[id := End(channel.(version := Answer(m, address)), Live, v.ends[id].begun)],
                   history := v.history + [Opened(channel, Answer(m, address))])
  }

  /** The world after it, when nothing happened before that handshake. */
  ghost predicate OpenedFirst(start: World, v: World, id: string, version: string, m: IcaMetadata, address: string) {
    && v.store.channel.Some? && v.store.channel.value.status == Open
    && var channel := v.store.channel.value.channel;
       && channel.version == version && channel.endpoint.channelId == id
       && v.store == start.store.(icaInfo := Some(IcaInfo(address, id, m.encoding)),
                                  channel := Some(ChannelRecord(channel, Open)))
       && id in v.ends && v.ends.Keys == {id}
       && v.ends[id] == End(channel.(version := Answer(m, address)), Live, 0)
       && v.history == [Began(id), Opened(channel, Answer(m, address))]
       && v.now == start.now && v.packets == start.packets && v.fates == start.fates
  }

  lemma FirstOpening(
    start: World, w: World, v: World, id: string, connection: string, version: string, m: IcaMetadata, address: string)
    requires ProposedAs(w, id, connection, m, 0) && w == start.(ends := map[id := w.ends[id]], history := [Began(id)])
    requires OpenedFrom(w, v, id, version, m, address)
    ensures OpenedFirst(start, v, id, version, m, address)
  {
  }

  /** An OpenAck on `id` that comes with `version` and a host that answers the terms `m`. */
  lemma ThenAcknowledge(t: Trace, v: World, id: string, version: string, m: IcaMetadata, address: string)
    returns (t': Trace, v': World)
    requires At(t, v) && id in v.ends && v.ends[id].status == Proposed
    requires v.ends[id].channel.endpoint == IbcEndpoint("wasm", id)
    requires Proposable(m, v.ends[id].channel.connectionId) && Fillable(address)
    requires t.provisos.carriesProposal ==> Terms(version) == Terms(v.ends[id].channel.version)
    requires t.provisos.hostEchoes ==> Terms(version) == Some(m)
    requires t.provisos.noOverlap && FirstOpened(v.history).Some? ==> FirstOpened(v.history).value < v.ends[id].begun
    ensures At(t', v') && Extends(t, t')
    ensures OpenedFrom(v, v', id, version, m, address)
    ensures FirstOpened(v'.history)
         == if FirstOpened(v.history).Some? then FirstOpened(v.history) else Some(|v.history|)
    ensures !NoOverlap(v, t'.events[|t.events|]) ==> !RunMeets(t'.start, t'.events, ALL_PROVISOS)
    ensures FirstOpened(v.history).Some? && v.ends[id].begun <= FirstOpened(v.history).value
        ==> !NoOverlap(v, t'.events[|t.events|])
  {
    var e := Acknowledge(id, "", version, Answer(m, address));
    AnswerAccepted(v.store, AcknowledgedChannel(v.ends[id], "", version), m, address);
    v' := Step(v, e).value;
    t' := Extend(t, v, e);
    RunSnoc(t.start, t.events, e, ALL_PROVISOS);
    FirstOpenedSnoc(v.history, v'.history[|v.history|]);
  }

  /** Core IBC confirms that the stored channel was closed. */
  lemma ThenClose(t: Trace, v: World, id: string) returns (t': Trace, v': World)
    requires At(t, v) && id in v.ends && v.ends[id].status == Live
    requires v.store.channel == Some(ChannelRecord(v.ends[id].channel, Open))
    ensures At(t', v') && Extends(t, t')
    ensures v' == v.(store := v.store.(channel := Some(ChannelRecord(v.ends[id].channel, Closed))),
                     ends := EndOf(v.ends, id), history := v.history + [Confirmed(id)])
    ensures FirstOpened(v'.history) == FirstOpened(v.history)
  {
    FirstOpenedSnoc(v.history, Confirmed(id));
    v' := Step(v, ConfirmClose(id)).value;
    t' := Extend(t, v, ConfirmClose(id));
  }

  /** A packet with the default timeout can be sent now. */
  predicate CanSend(now: uint64) {
    now + 600_000_000_000 < 0x1_0000_0000_0000_0000
  }

  /** The admin sends an empty batch with the default timeout. */
  lemma ThenSend(t: Trace, v: World) returns (t': Trace, v': World)
    requires At(t, v) && v.store.icaInfo.Some? && CanSend(v.now)
    requires var id := v.store.icaInfo.value.channelId; id in v.ends && v.ends[id].status == Live
    ensures At(t', v') && Extends(t, t')
    ensures |v'.packets| == |v.packets| + 1 && v'.packets[|v.packets|].sent.channelId == v.store.icaInfo.value.channelId
    ensures v' == v.(packets := v'.packets, fates := v.fates + [Unresolved],
                     history := v.history + [Emitted(|v.packets|, v.store.admin, v.store.icaInfo.value.channelId)])
    ensures FirstOpened(v'.history) == FirstOpened(v.history)
  {
    var e := Execute(Handlers.SendCustom(v.store.admin, v.now, [], None, None));
    v' := Step(v, e).value;
    t' := Extend(t, v, e);
    FirstOpenedSnoc(v.history, v'.history[|v.history|]);
  }

  lemma ThenTimeout(t: Trace, v: World, index: nat) returns (t': Trace, v': World)
    requires At(t, v) && IsPending(v, index) && v.packets[index].sent.channelId in v.ends
    requires v.store.channel.Some? && v.store.counts.timeout == 0
    ensures At(t', v') && Extends(t, t')
    ensures v'.store == Handlers.WithClosedChannel(v.store).(counts := v.store.counts.(timeout := 1))
    ensures v' == v.(store := v'.store, fates := v.fates[index := TimedOut],
                     ends := EndOf(v.ends, v.packets[index].sent.channelId),
                     history := v.history + [Resolved(index, TimedOut)])
    ensures FirstOpened(v'.history) == FirstOpened(v.history)
  {
    v' := Step(v, DeliverTimeout(index)).value;
    t' := Extend(t, v, DeliverTimeout(index));
    FirstOpenedSnoc(v.history, Resolved(index, TimedOut));
  }

  /** A packet on the stored channel times out, and with it the channel is closed. */
  lemma ThenLapse(t: Trace, v: World) returns (t': Trace, v': World)
    requires At(t, v) && v.store.icaInfo.Some? && CanSend(v.now)
    requires var id := v.store.icaInfo.value.channelId; id in v.ends && v.ends[id].status == Live
    requires v.store.channel.Some? && v.store.counts.timeout == 0 && |v.fates| == |v.packets|
    ensures At(t', v') && t'.start == t.start && t'.provisos == t.provisos && |t'.events| == |t.events| + 2
    ensures v'.store.channel == Some(ChannelRecord(v.store.channel.value.channel, Closed))
    ensures v'.ends == EndOf(v.ends, v.store.icaInfo.value.channelId)
    ensures v.history <= v'.history && |v'.history| == |v.history| + 2
    ensures FirstOpened(v'.history) == FirstOpened(v.history)
  {
    var t1, v1 := ThenSend(t, v);
    t', v' := ThenTimeout(t1, v1, |v.packets|);
  }

  // ----- The runs -----

  /** Two handshakes that are begun before either completes. */
  lemma ProposeTwo(t: Trace, a: string, b: string, connection: string, m: IcaMetadata, n: IcaMetadata)
    returns (t': Trace, v': World)
    requires Fresh(t)
    requires !t.provisos.noOverlap && a != b && Proposable(m, connection) && Proposable(n, connection)
    ensures At(t', v') && t'.start == t.start && t'.provisos == t.provisos && |t'.events| == 2
    ensures ProposedAs(v', a, connection, m, 0) && ProposedAs(v', b, connection, n, 1)
    ensures v'.store == t.start.store && v'.now == t.start.now && v'.packets == t.start.packets
    ensures v'.fates == t.start.fates
    ensures FirstOpened(v'.history).None? && |v'.history| == 2
    ensures Throughout(t'.start, t'.events)
  {
    var t1, v1 := ProposeFirst(t, a, connection, m);
    t', v' := ThenPropose(t1, v1, b, connection, n);
    StaysOnTerms(t1, t', v');
  }

  /**
   * Two first handshakes overlap: everything is carried and echoed faithfully, and yet the second
   * OpenAck replaces the encoding of the first.
   */
  lemma OverlapBreaksStability(
    admin: string, now: uint64, connection: string, a: string, b: string, m: IcaMetadata, n: IcaMetadata,
    address: string)
    returns (events: seq<Event>)
    requires a != b && Proposable(m, connection) && Proposable(n, connection) && Fillable(address)
    requires m.encoding != n.encoding
    ensures |events| == 4 && RunMeets(Start(admin, now), events, FAITHFUL)
    ensures var w := Run(Start(admin, now), events);
            && FirstTerms(w.history) == Some(m)
            && w.store.icaInfo == Some(IcaInfo(address, b, n.encoding))
  {
    var t2, w2 := ProposeTwo(Trace(Start(admin, now), [], FAITHFUL), a, b, connection, m, n);
    var t3, w3 := ThenAcknowledge(t2, w2, a, w2.ends[a].channel.version, m, address);
    var t4, w4 := ThenAcknowledge(t3, w3, b, w3.ends[b].channel.version, n, address);
    events := t4.events;
  }

  /** A host that answers another encoding than it was offered gets it, though the version says otherwise. */
  lemma HostChoiceBreaksStability(
    admin: string, now: uint64, connection: string, a: string, m: IcaMetadata, n: IcaMetadata, address: string)
    returns (events: seq<Event>)
    requires Proposable(m, connection) && Proposable(n, connection) && Fillable(address)
    requires m.encoding != n.encoding
    ensures |events| == 2 && RunMeets(Start(admin, now), events, Provisos(true, false, true))
    ensures var w := Run(Start(admin, now), events);
            && FirstTerms(w.history) == Some(m)
            && w.store.icaInfo == Some(IcaInfo(address, a, n.encoding))
  {
    var w0 := Start(admin, now);
    var t1, w1 := ThenPropose(Trace(w0, [], Provisos(true, false, true)), w0, a, connection, m);
    var t2, w2 := ThenAcknowledge(t1, w1, a, w1.ends[a].channel.version, n, address);
    events := t2.events;
  }

  /** Nothing has happened yet. */
  predicate Fresh(t: Trace) {
    t.events == [] && t.start.ends == map[] && t.start.store.channel.None? && t.start.history == []
  }

  /** A first proposal. */
  lemma ProposeFirst(t: Trace, id: string, connection: string, m: IcaMetadata) returns (t': Trace, v': World)
    requires Fresh(t) && Proposable(m, connection)
    ensures At(t', v') && Extends(t, t') && ProposedAs(v', id, connection, m, 0)
    ensures v' == t.start.(ends := map[id := v'.ends[id]], history := [Began(id)])
    ensures FirstOpened(v'.history).None? && Throughout(t'.start, t'.events)
  {
    t', v' := ThenPropose(t, t.start, id, connection, m);
    StaysOnTerms(t, t', v');
    assert FirstOpened([]).None?;
  }

  /** A first handshake, on terms that the host echoes, whose OpenAck comes with `version`. */
  lemma OpenFirst(t: Trace, id: string, connection: string, m: IcaMetadata, address: string, version: string)
    returns (t': Trace, v': World)
    requires Fresh(t) && Proposable(m, connection) && Fillable(address)
    requires t.provisos.carriesProposal || t.provisos.hostEchoes ==> Terms(version) == Some(m)
    ensures At(t', v') && t'.start == t.start && t'.provisos == t.provisos && |t'.events| == 2
    ensures OpenedFirst(t.start, v', id, version, m, address)
    ensures FirstOpened(v'.history) == Some(1)
  {
    var t1, w1 := ProposeFirst(t, id, connection, m);
    t', v' := ThenAcknowledge(t1, w1, id, version, m, address);
    FirstOpening(t.start, w1, v', id, connection, version, m, address);
  }

  /** A reopening whose OpenAck comes with other terms than were proposed changes the terms. */
  lemma OtherVersionBreaksStability(
    admin: string, now: uint64, connection: string, a: string, b: string, m: IcaMetadata, n: IcaMetadata,
    address: string)
    returns (events: seq<Event>)
    requires a != b && Proposable(m, connection) && Proposable(n, connection) && Fillable(address)
    requires m.encoding != n.encoding && CanSend(now)
    ensures |events| == 6 && RunMeets(Start(admin, now), events, Provisos(false, true, true))
    ensures var w := Run(Start(admin, now), events);
            && FirstTerms(w.history) == Some(m)
            && w.store.icaInfo == Some(IcaInfo(address, b, n.encoding))
  {
    OfTextToText(m);
    OfTextToText(n);
    var t0 := Trace(Start(admin, now), [], Provisos(false, true, true));
    var t2, w2 := OpenFirst(t0, a, connection, m, address, ToText(m));
    var t4, w4 := ThenLapse(t2, w2);
    var t5, w5 := ThenPropose(t4, w4, b, connection, m);
    var t6, w6 := ThenAcknowledge(t5, w5, b, ToText(n), n, address);
    events := t6.events;
  }

  /**
   * A packet of an older channel times out late: the contract marks the new channel closed, while
   * core IBC has it open.
   */
  lemma LateTimeoutBreaksAgreement(
    admin: string, now: uint64, connection: string, a: string, b: string, m: IcaMetadata, address: string)
    returns (events: seq<Event>)
    requires a != b && Proposable(m, connection) && Fillable(address)
    requires CanSend(now)
    ensures |events| == 6
    ensures var w := Run(Start(admin, now), events);
            && w.store.channel.Some? && StoredId(w) == b && w.store.channel.value.status == Closed
            && b in w.ends && w.ends[b].status == Live
            && !Agrees(w)
  {
    var t2, w2 := ProposeTwo(Trace(Start(admin, now), [], Provisos(false, false, false)), a, b, connection, m, m);
    var t3, w3 := ThenAcknowledge(t2, w2, a, w2.ends[a].channel.version, m, address);
    var t4, w4 := ThenSend(t3, w3);
    var t5, w5 := ThenAcknowledge(t4, w4, b, w4.ends[b].channel.version, m, address);
    var t6, w6 := ThenTimeout(t5, w5, 0);
    events := t6.events;
  }

  /**
   * OpenAck stores whatever version it comes with. When that cannot be met again and the channel is
   * closed later, no channel can be proposed any more, short of another OpenAck.
   */
  lemma BlockingVersionReachable(
    admin: string, now: uint64, connection: string, a: string, m: IcaMetadata, address: string, version: string)
    returns (events: seq<Event>)
    requires Proposable(m, connection) && Fillable(address) && !ContractRuns.Reopenable(version) && CanSend(now)
    ensures |events| == 4 && RunMeets(Start(admin, now), events, Provisos(false, false, true))
    ensures var w := Run(Start(admin, now), events);
            && w.store.channel.Some?
            && w.store.channel.value.channel.version == version && w.store.channel.value.status == Closed
            && !ContractRuns.CanReopen(w.store)
            && forall channel, queried :: StepPropose(w, channel, queried).None?
  {
    var t0 := Trace(Start(admin, now), [], Provisos(false, false, true));
    var t2, w2 := OpenFirst(t0, a, connection, m, address, version);
    var t4, w4 := ThenLapse(t2, w2);
    events := t4.events;
    ContractRuns.ReopeningExact(w4.store);
    forall channel, queried ensures StepPropose(w4, channel, queried).None? {
      NothingProposed(w4, channel, queried);
    }
  }

  lemma NothingProposed(w: World, channel: IbcChannel, queried: Option<string>)
    requires w.store.channel.Some? && !ContractRuns.Reopenable(w.store.channel.value.channel.version)
    ensures StepPropose(w, channel, queried).None?
  {
    if Handlers.OpenInit(w.store, channel, queried).Ok? {
      ContractRuns.OnlyProposableAccepted(w.store, channel, queried);
    }
  }

  /** Both kinds of such versions exist: text that is no metadata, and metadata of another type or version. */
  lemma BlockingVersions(m: IcaMetadata)
    requires m.txType != "sdk_multi_msg" || m.version != "ics27-1"
    ensures OfText("").None? && !ContractRuns.Reopenable("")
    ensures OfText(ToText(m)) == Some(m) && !ContractRuns.Reopenable(ToText(m))
  {
    OfTextToText(m);
  }

  /** Overlapping first handshakes on the same terms do no harm, though they break the third proviso. */
  lemma HarmlessOverlap(
    admin: string, now: uint64, connection: string, a: string, b: string, m: IcaMetadata, address: string)
    returns (events: seq<Event>)
    requires a != b && Proposable(m, connection) && Fillable(address)
    ensures |events| == 4 && RunMeets(Start(admin, now), events, FAITHFUL)
    ensures !RunMeets(Start(admin, now), events, ALL_PROVISOS)
    ensures Throughout(Start(admin, now), events)
  {
    var t2, w2 := ProposeTwo(Trace(Start(admin, now), [], FAITHFUL), a, b, connection, m, m);
    var t3, w3 := ThenAcknowledge(t2, w2, a, w2.ends[a].channel.version, m, address);
    StaysByAcknowledge(t2, w2, t3, w3, w3.store.channel.value.channel, Answer(m, address), m);
    var t4, w4 := ThenAcknowledge(t3, w3, b, w3.ends[b].channel.version, m, address);
    StaysByAcknowledge(t3, w3, t4, w4, w4.store.channel.value.channel, Answer(m, address), m);
    events := t4.events;
  }

  /**
   * The provisos can be met: a faithful handshake whose OpenAck comes with the proposal, a close by
   * timeout, and a faithful reopening.
   */
  lemma FaithfulReopening(
    admin: string, now: uint64, connection: string, a: string, b: string, m: IcaMetadata, address: string)
    returns (events: seq<Event>)
    requires a != b && Proposable(m, connection) && Fillable(address) && CanSend(now)
    ensures |events| == 6 && RunMeets(Start(admin, now), events, ALL_PROVISOS)
    ensures var w := Run(Start(admin, now), events);
            && FirstTerms(w.history) == Some(m)
            && w.store.icaInfo == Some(IcaInfo(address, b, m.encoding))
            && w.store.channel.Some? && StoredId(w) == b && w.store.channel.value.status == Open
  {
    OfTextToText(m);
    var t2, w2 := OpenFirst(Trace(Start(admin, now), [], ALL_PROVISOS), a, connection, m, address, ToText(m));
    var t4, w4 := ThenLapse(t2, w2);
    var t5, w5 := ThenPropose(t4, w4, b, connection, m);
    var t6, w6 := ThenAcknowledge(t5, w5, b, ToText(m), m, address);
    events := t6.events;
  }

  /** They can be met with a confirmed close as well, when OpenAck comes with the host's answer. */
  lemma ConfirmedReopening(
    admin: string, now: uint64, connection: string, a: string, b: string, m: IcaMetadata, address: string)
    returns (events: seq<Event>)
    requires a != b && Proposable(m, connection) && Fillable(address)
    ensures |events| == 5 && RunMeets(Start(admin, now), events, ALL_PROVISOS)
    ensures var w := Run(Start(admin, now), events);
            && FirstTerms(w.history) == Some(m)
            && w.store.icaInfo == Some(IcaInfo(address, b, m.encoding))
            && w.store.channel.Some? && StoredId(w) == b && w.store.channel.value.status == Open
  {
    OfTextToText(m.(address := address));
    var answer := Answer(m, address);
    var t2, w2 := OpenFirst(Trace(Start(admin, now), [], ALL_PROVISOS), a, connection, m, address, answer);
    var t3, w3 := ThenClose(t2, w2, a);
    var t4, w4 := ThenPropose(t3, w3, b, connection, m);
    var t5, w5 := ThenAcknowledge(t4, w4, b, answer, m, address);
    events := t5.events;
  }

  /**
   * The ordinary handshake, whose OpenAck comes with the proposal while the host fills in the
   * address: the channel is open on both sides, and no close of any channel can be confirmed.
   */
  lemma ProposalCarriedCannotClose(
    admin: string, now: uint64, connection: string, a: string, m: IcaMetadata, address: string)
    returns (events: seq<Event>)
    requires Proposable(m, connection) && Fillable(address)
    ensures |events| == 2 && RunMeets(Start(admin, now), events, ALL_PROVISOS)
    ensures var w := Run(Start(admin, now), events);
            && w.store.channel.Some? && StoredId(w) == a && w.store.channel.value.status == Open
            && a in w.ends && w.ends[a].status == Live
            && forall id :: Step(w, ConfirmClose(id)).None?
  {
    OfTextToText(m);
    var t2, w2 := OpenFirst(Trace(Start(admin, now), [], ALL_PROVISOS), a, connection, m, address, ToText(m));
    events := t2.events;
    HistorySnoc([w2.history[0]], w2.history[1]);
    forall id ensures Step(w2, ConfirmClose(id)).None? {
      UnfilledVersionNeverCloses(admin, now, events, id);
    }
  }
}
