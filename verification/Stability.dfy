// When the negotiated metadata stays that of the first handshake, through any number of close and
// reopen cycles: exactly, for every environment and for one that carries and echoes versions.

module Stability {
  import opened Prelude
  import opened Outcomes
  import opened Ibc
  import opened Metadata
  import opened State
  import opened World
  import opened Effects
  import Handlers
  import ContractRuns

  // ----- The first handshake in a history -----

  /** The position of the first committed OpenAck. */
  function FirstOpened(h: seq<Entry>): (k: Option<nat>)
    ensures k.Some? ==> k.value < |h| && h[k.value].Opened?
  {
    if h == [] then None
    else
      match FirstOpened(h[..|h| - 1])
      case Some(k) => Some(k)
      case None => if h[|h| - 1].Opened? then Some(|h| - 1) else None
  }

  lemma FirstOpenedSnoc(h: seq<Entry>, e: Entry)
    ensures FirstOpened(h + [e])
         == if FirstOpened(h).Some? then FirstOpened(h) else if e.Opened? then Some(|h|) else None
  {
    assert (h + [e])[..|h|] == h;
  }

  lemma {:induction false} NoneOpened(h: seq<Entry>)
    requires FirstOpened(h).None?
    ensures forall k | 0 <= k < |h| :: !h[k].Opened?
  {
    if h != [] {
      NoneOpened(h[..|h| - 1]);
    }
  }

  /** The metadata of a version text, address aside. */
  function Terms(version: string): Option<IcaMetadata> {
    var m :- OfText(version);
    Some(WithoutAddress(m))
  }

  /** The terms of the first handshake. */
  function FirstTerms(h: seq<Entry>): Option<IcaMetadata> {
    var k :- FirstOpened(h);
    Terms(h[k].channel.version)
  }

  // ----- The provisos -----

  /** OpenAck comes with the version that OpenInit answered, up to the address. */
  predicate CarriesProposal(w: World, e: Event) {
    e.Acknowledge? && e.channelId in w.ends ==> Terms(e.version) == Terms(w.ends[e.channelId].channel.version)
  }

  /** The host echoes every field of the version but the address. */
  predicate HostEchoes(e: Event) {
    e.Acknowledge? ==> Terms(e.counterpartyVersion) == Terms(e.version)
  }

  /** No handshake begun before the first OpenAck completes after it. */
  predicate NoOverlap(w: World, e: Event) {
    e.Acknowledge? && e.channelId in w.ends && FirstOpened(w.history).Some?
    ==> FirstOpened(w.history).value < w.ends[e.channelId].begun
  }

  /** Which of the provisos a run is held to. */
  datatype Provisos = Provisos(carriesProposal: bool, hostEchoes: bool, noOverlap: bool)

  const ALL_PROVISOS := Provisos(true, true, true)
  const FAITHFUL := Provisos(true, true, false)

  predicate Meets(w: World, e: Event, p: Provisos) {
    && (p.carriesProposal ==> CarriesProposal(w, e))
    && (p.hostEchoes ==> HostEchoes(e))
    && (p.noOverlap ==> NoOverlap(w, e))
  }

  /** Every event of the run that commits meets the provisos. */
  predicate RunMeets(w: World, events: seq<Event>, p: Provisos)
    decreases |events|
  {
    events != [] ==>
      && (Step(w, events[0]).Some? ==> Meets(w, events[0], p))
      && RunMeets(After(w, events[0]), events[1..], p)
  }

  // ----- Stability -----

  /** Once a handshake has completed, all that was opened since, and what is stored, has its terms. */
  ghost predicate OnFirstTerms(w: World) {
    FirstOpened(w.history).Some? ==>
      var first := FirstTerms(w.history);
      var stored := Handlers.StoredChannel(w.store);
      && first.Some?
      && stored.Some? && Terms(stored.value.version) == first
      && w.store.icaInfo.Some? && w.store.icaInfo.value.encoding == first.value.encoding
      && (forall k | 0 <= k < |w.history| ::
            w.history[k].Opened? ==> Terms(w.history[k].channel.version) == first)
  }

  predicate SameEncoding(a: Option<IcaMetadata>, b: Option<IcaMetadata>) {
    a.Some? && b.Some? && a.value.encoding == b.value.encoding
  }

  /** The terms an OpenAck has to meet: those of the first handshake, or its own if it is the first. */
  function ExpectedTerms(w: World, version: string): Option<IcaMetadata> {
    if FirstOpened(w.history).Some? then FirstTerms(w.history) else Terms(version)
  }

  /** An OpenAck that comes with other terms, or with an answer in another encoding. */
  predicate Departs(w: World, e: Event) {
    && e.Acknowledge?
    && Step(w, e).Some?
    && !(Terms(e.version) == ExpectedTerms(w, e.version)
         && SameEncoding(Terms(e.counterpartyVersion), ExpectedTerms(w, e.version)))
  }

  /** A step that adds an entry other than OpenAck's leaves the first handshake and what is stored. */
  predicate Quiet(w: World, next: World, entry: Entry) {
    && !entry.Opened? && next.history == w.history + [entry]
    && next.store.icaInfo == w.store.icaInfo
    && Handlers.StoredChannel(next.store) == Handlers.StoredChannel(w.store)
  }

  lemma QuietKeepsTerms(w: World, next: World, entry: Entry)
    requires Quiet(w, next, entry)
    ensures FirstOpened(next.history) == FirstOpened(w.history) && FirstTerms(next.history) == FirstTerms(w.history)
    ensures OnFirstTerms(w) ==> OnFirstTerms(next)
  {
    FirstOpenedSnoc(w.history, entry);
    assert forall k | 0 <= k < |w.history| :: next.history[k] == w.history[k];
  }

  /** An OpenAck stays on the first terms exactly when it brings them, in version and in encoding. */
  lemma OpenedOnTerms(w: World, next: World, channel: IbcChannel, answer: string)
    requires OnFirstTerms(w) && next.history == w.history + [Opened(channel, answer)]
    requires Handlers.StoredChannel(next.store) == Some(channel) && next.store.icaInfo.Some?
    ensures FirstOpened(next.history)
         == if FirstOpened(w.history).Some? then FirstOpened(w.history) else Some(|w.history|)
    ensures FirstTerms(next.history) == ExpectedTerms(w, channel.version)
    ensures var first := ExpectedTerms(w, channel.version);
            OnFirstTerms(next) <==>
              first.Some? && Terms(channel.version) == first
              && next.store.icaInfo.value.encoding == first.value.encoding
  {
    FirstOpenedSnoc(w.history, Opened(channel, answer));
    assert forall k | 0 <= k < |w.history| :: next.history[k] == w.history[k];
    if FirstOpened(w.history).None? {
      NoneOpened(w.history);
    }
  }

  /** OpenAck negotiates the encoding of the version the host answers. */
  lemma AcknowledgedTerms(s: Storage, channel: IbcChannel, counterpartyVersion: string)
    requires Handlers.OpenAck(s, channel, counterpartyVersion).Ok?
    ensures Terms(counterpartyVersion).Some?
    ensures var after := Handlers.OpenAck(s, channel, counterpartyVersion).value;
            && after.channel == Some(ChannelRecord(channel, Open))
            && after.icaInfo.Some?
            && after.icaInfo.value.encoding == Terms(counterpartyVersion).value.encoding
    ensures Acceptable(Terms(counterpartyVersion).value, channel)
  {
  }

  /** What a committed OpenAck does to the world, without its handler. */
  lemma AcknowledgedWorld(w: World, e: Event) returns (channel: IbcChannel)
    requires e.Acknowledge? && Step(w, e).Some?
    ensures e.channelId in w.ends && w.ends[e.channelId].status == Proposed && channel.version == e.version
    ensures Terms(e.counterpartyVersion).Some?
    ensures var next := Step(w, e).value;
            && e.channelId in next.ends
            && next.history == w.history + [Opened(channel, e.counterpartyVersion)]
            && Handlers.StoredChannel(next.store) == Some(channel)
            && next.store.icaInfo.Some?
            && next.store.icaInfo.value.encoding == Terms(e.counterpartyVersion).value.encoding
            && next.ends == w.ends[e.channelId := next.ends[e.channelId]]
            && next.ends[e.channelId].status == Live && next.ends[e.channelId].begun == w.ends[e.channelId].begun
  {
    StepHasEffect(w, e);
    channel := AcknowledgedChannel(w.ends[e.channelId], e.counterpartyChannelId, e.version);
    AcknowledgedTerms(w.store, channel, e.counterpartyVersion);
  }

  /** What any other committed event does to it. */
  lemma QuietWorld(w: World, e: Event) returns (entry: Entry)
    requires !e.Acknowledge? && !e.Tick? && Step(w, e).Some?
    ensures Quiet(w, Step(w, e).value, entry)
    ensures var next := Step(w, e).value;
            forall id | id in next.ends && !(e.Propose? && id == e.channel.endpoint.channelId) ::
              && id in w.ends && next.ends[id].begun == w.ends[id].begun
              && (next.ends[id].status == Proposed ==> next.ends[id] == w.ends[id])
  {
    StepHasEffect(w, e);
    entry := Step(w, e).value.history[|w.history|];
  }

  /** A step ends the stability exactly when it departs. */
  lemma StepOnTerms(w: World, e: Event)
    requires OnFirstTerms(w)
    ensures OnFirstTerms(After(w, e)) <==> !Departs(w, e)
  {
    if Step(w, e).Some? {
      var next := Step(w, e).value;
      if e.Acknowledge? {
        var channel := AcknowledgedWorld(w, e);
        OpenedOnTerms(w, next, channel, e.counterpartyVersion);
      } else if !e.Tick? {
        var entry := QuietWorld(w, e);
        QuietKeepsTerms(w, next, entry);
      }
    }
  }

  ghost predicate Throughout(w: World, events: seq<Event>)
    decreases |events|
  {
    OnFirstTerms(w) && (events != [] ==> Throughout(After(w, events[0]), events[1..]))
  }

  predicate NoDeparture(w: World, events: seq<Event>)
    decreases |events|
  {
    events != [] ==> !Departs(w, events[0]) && NoDeparture(After(w, events[0]), events[1..])
  }

  lemma {:induction false} RunOnTerms(w: World, events: seq<Event>)
    requires OnFirstTerms(w)
    ensures Throughout(w, events) <==> NoDeparture(w, events)
    decreases |events|
  {
    if events != [] {
      StepOnTerms(w, events[0]);
      if OnFirstTerms(After(w, events[0])) {
        RunOnTerms(After(w, events[0]), events[1..]);
      } else {
        assert !Throughout(After(w, events[0]), events[1..]);
      }
    }
  }

  /**
   * Encoding stability, exactly: in every state of a run all terms and the encoding are those of
   * the first handshake if and only if no OpenAck comes with other terms or another encoding.
   */
  lemma StabilityExact(admin: string, now: uint64, events: seq<Event>)
    ensures Throughout(Start(admin, now), events) <==> NoDeparture(Start(admin, now), events)
  {
    RunOnTerms(Start(admin, now), events);
  }

  // ----- Stability in a faithful environment -----

  /** Whatever was proposed after the first OpenAck, and still waits, has the first terms. */
  ghost predicate LateOnTerms(w: World) {
    forall id | id in w.ends ::
      && w.ends[id].begun <= |w.history|
      && (FirstOpened(w.history).Some? && w.ends[id].status == Proposed
          && FirstOpened(w.history).value < w.ends[id].begun
          ==> Terms(w.ends[id].channel.version) == FirstTerms(w.history))
  }

  /** What is proposed while a channel is stored has the stored terms. */
  lemma ProposedTerms(s: Storage, channel: IbcChannel, queried: Option<string>)
    requires Handlers.OpenInit(s, channel, queried).Ok? && s.channel.Some?
    ensures Terms(Handlers.OpenInit(s, channel, queried).value).Some?
    ensures Terms(Handlers.OpenInit(s, channel, queried).value) == Terms(s.channel.value.channel.version)
  {
    var m := ContractRuns.AcceptedProposal(s, channel, queried);
  }

  lemma ProposedEnd(w: World, e: Event)
    requires e.Propose? && Step(w, e).Some?
    ensures var id := e.channel.endpoint.channelId;
            var ends := Step(w, e).value.ends;
            && id in ends && ends[id].begun == |w.history|
            && (w.store.channel.Some? ==>
                  Terms(ends[id].channel.version) == Terms(w.store.channel.value.channel.version))
  {
    if w.store.channel.Some? {
      ProposedTerms(w.store, e.channel, e.queried);
    }
  }

  lemma StepLateOnTerms(w: World, e: Event)
    requires OnFirstTerms(w) && LateOnTerms(w) && Step(w, e).Some?
    ensures LateOnTerms(Step(w, e).value)
  {
    var next := Step(w, e).value;
    if e.Acknowledge? {
      var channel := AcknowledgedWorld(w, e);
      OpenedOnTerms(w, next, channel, e.counterpartyVersion);
    } else if !e.Tick? {
      var entry := QuietWorld(w, e);
      QuietKeepsTerms(w, next, entry);
      if e.Propose? {
        ProposedEnd(w, e);
      }
    }
  }

  /** The OpenAck of a handshake that was begun before the first one completed, on other terms. */
  predicate Conflicts(w: World, e: Event) {
    && e.Acknowledge?
    && Step(w, e).Some?
    && e.channelId in w.ends
    && FirstOpened(w.history).Some?
    && w.ends[e.channelId].begun <= FirstOpened(w.history).value
    && Terms(w.ends[e.channelId].channel.version) != FirstTerms(w.history)
  }

  predicate NoConflict(w: World, events: seq<Event>)
    decreases |events|
  {
    events != [] ==> !Conflicts(w, events[0]) && NoConflict(After(w, events[0]), events[1..])
  }

  /** When versions are carried and echoed, departing means conflicting. */
  lemma DepartsByConflict(w: World, e: Event)
    requires OnFirstTerms(w) && LateOnTerms(w)
    requires Step(w, e).Some? ==> Meets(w, e, FAITHFUL)
    ensures Departs(w, e) <==> Conflicts(w, e)
  {
    if e.Acknowledge? && Step(w, e).Some? {
      var channel := AcknowledgedWorld(w, e);
    }
  }

  lemma {:induction false} RunFaithful(w: World, events: seq<Event>)
    requires OnFirstTerms(w) && LateOnTerms(w) && RunMeets(w, events, FAITHFUL)
    ensures Throughout(w, events) <==> NoConflict(w, events)
    decreases |events|
  {
    if events != [] {
      StepOnTerms(w, events[0]);
      DepartsByConflict(w, events[0]);
      if OnFirstTerms(After(w, events[0])) {
        if Step(w, events[0]).Some? {
          StepLateOnTerms(w, events[0]);
        }
        RunFaithful(After(w, events[0]), events[1..]);
      } else {
        assert !Throughout(After(w, events[0]), events[1..]);
      }
    }
  }

  /**
   * When OpenAck carries the proposed version and the host echoes all of it but the address, the
   * terms stay those of the first handshake exactly when no handshake that was begun before the
   * first OpenAck on other terms completes after it.
   */
  lemma FaithfulStability(admin: string, now: uint64, events: seq<Event>)
    requires RunMeets(Start(admin, now), events, FAITHFUL)
    ensures Throughout(Start(admin, now), events) <==> NoConflict(Start(admin, now), events)
  {
    RunFaithful(Start(admin, now), events);
  }

  lemma {:induction false} NoOverlapNoConflict(w: World, events: seq<Event>)
    requires RunMeets(w, events, ALL_PROVISOS)
    ensures RunMeets(w, events, FAITHFUL) && NoConflict(w, events)
    decreases |events|
  {
    if events != [] {
      NoOverlapNoConflict(After(w, events[0]), events[1..]);
    }
  }

  lemma {:induction false} ThroughoutEnds(w: World, events: seq<Event>)
    requires Throughout(w, events)
    ensures OnFirstTerms(Run(w, events))
    decreases |events|
  {
    if events != [] {
      ThroughoutEnds(After(w, events[0]), events[1..]);
    }
  }

  /**
   * In particular, when no handshake begun before the first OpenAck completes after it, then
   * version, both connection ids, encoding and transaction type of every later handshake are those
   * of the first, and sends are encoded as the first handshake negotiated.
   */
  lemma EncodingStability(admin: string, now: uint64, events: seq<Event>)
    requires RunMeets(Start(admin, now), events, ALL_PROVISOS)
    ensures Throughout(Start(admin, now), events)
    ensures var w := Run(Start(admin, now), events);
            FirstOpened(w.history).Some? ==>
              && FirstTerms(w.history).Some?
              && (forall k | 0 <= k < |w.history| ::
                    w.history[k].Opened? ==> Terms(w.history[k].channel.version) == FirstTerms(w.history))
              && w.store.channel.Some? && w.store.icaInfo.Some?
              && Terms(w.store.channel.value.channel.version) == FirstTerms(w.history)
              && w.store.icaInfo.value.encoding == FirstTerms(w.history).value.encoding
  {
    NoOverlapNoConflict(Start(admin, now), events);
    FaithfulStability(admin, now, events);
    ThroughoutEnds(Start(admin, now), events);
  }
}
