// What every run of the contract in its environment keeps.

module WorldInvariants {
  import opened Prelude
  import opened Outcomes
  import opened Ibc
  import opened State
  import opened World
  import opened Effects
  import Base64
  import Handlers
  import Json
  import Metadata
  import Packet
  import ContractRuns
  import Utf8

  // ----- Agreement with core IBC -----

  function StoredId(w: World): string
    requires w.store.channel.Some?
  {
    w.store.channel.value.channel.endpoint.channelId
  }

  function StoredVersion(w: World): string
    requires w.store.channel.Some?
  {
    w.store.channel.value.channel.version
  }

  /**
   * Up to its version, what the contract stores is a channel end that core IBC has, and one that it
   * has open if stored as open.
   */
  ghost predicate Consistent(w: World) {
    && ContractRuns.Invariant(w.store)
    && (forall id | id in w.ends :: w.ends[id].channel.endpoint.channelId == id)
    && (w.store.channel.Some? ==>
          && StoredId(w) in w.ends
          && w.store.channel.value.channel == w.ends[StoredId(w)].channel.(version := StoredVersion(w))
          && w.ends[StoredId(w)].status != Proposed
          && (w.store.channel.value.status == Open ==> w.ends[StoredId(w)].status == Live))
    && (forall i | 0 <= i < |w.packets| ::
          && w.packets[i].sent.channelId in w.ends
          && w.ends[w.packets[i].sent.channelId].status != Proposed)
    && (w.packets != [] ==> w.store.channel.Some?)
  }

  lemma AcknowledgeConsistent(
    w: World, next: World, id: string, counterparty: string, version: string, answer: string)
    requires Consistent(w) && AcknowledgeEffect(w, next, id, counterparty, version, answer)
    ensures Consistent(next)
  {
  }

  lemma TimeoutConsistent(w: World, next: World, index: nat)
    requires Consistent(w) && TimeoutEffect(w, next, index)
    ensures Consistent(next)
  {
  }

  lemma ConfirmConsistent(w: World, next: World, id: string)
    requires Consistent(w) && ConfirmEffect(w, next, id)
    ensures Consistent(next)
  {
    assert StoredId(w) == id;
  }

  lemma EffectConsistent(w: World, next: World, e: Event)
    requires Consistent(w) && Effect(w, next, e)
    ensures Consistent(next)
  {
    match e
    case Acknowledge(id, cp, version, answer) => AcknowledgeConsistent(w, next, id, cp, version, answer);
    case ConfirmClose(id) => ConfirmConsistent(w, next, id);
    case DeliverTimeout(index) => TimeoutConsistent(w, next, index);
    case _ =>
  }

  lemma StepConsistent(w: World, e: Event)
    requires Consistent(w) && Step(w, e).Some?
    ensures Consistent(Step(w, e).value)
  {
    StepHasEffect(w, e);
    EffectConsistent(w, Step(w, e).value, e);
  }

  lemma {:induction false} RunConsistent(w: World, events: seq<Event>)
    requires Consistent(w)
    ensures Consistent(Run(w, events))
    decreases |events|
  {
    if events != [] {
      if Step(w, events[0]).Some? {
        StepConsistent(w, events[0]);
      }
      RunConsistent(After(w, events[0]), events[1..]);
    }
  }

  /** In every reachable state a channel stored as open really is open. */
  lemma StoredOpenIsLive(admin: string, now: uint64, events: seq<Event>)
    ensures var w := Run(Start(admin, now), events);
            w.store.channel.Some? && w.store.channel.value.status == Open
            ==> StoredId(w) in w.ends && w.ends[StoredId(w)].status == Live
  {
    RunConsistent(Start(admin, now), events);
  }

  /** The contract and core IBC say the same of the stored channel. */
  ghost predicate Agrees(w: World) {
    w.store.channel.Some? ==>
      StoredId(w) in w.ends
      && (w.store.channel.value.status == Open <==> w.ends[StoredId(w)].status == Live)
  }

  /** A timeout that is about to be delivered while another channel is stored as open. */
  predicate ForeignTimeout(w: World, e: Event) {
    && e.DeliverTimeout?
    && Step(w, e).Some?
    && w.store.channel.Some?
    && w.store.channel.value.status == Open
    && w.packets[e.index].sent.channelId != StoredId(w)
  }

  lemma EffectAgrees(w: World, next: World, e: Event)
    requires Consistent(w) && Agrees(w) && Effect(w, next, e)
    ensures Agrees(next)
        <==> !(e.DeliverTimeout? && w.store.channel.value.status == Open
               && w.packets[e.index].sent.channelId != StoredId(w))
  {
  }

  /** Exactly a foreign timeout destroys the agreement. */
  lemma StepAgrees(w: World, e: Event)
    requires Consistent(w) && Agrees(w)
    ensures Agrees(After(w, e)) <==> !ForeignTimeout(w, e)
  {
    if Step(w, e).Some? {
      StepHasEffect(w, e);
      EffectAgrees(w, Step(w, e).value, e);
    }
  }

  ghost predicate AgreesThroughout(w: World, events: seq<Event>)
    decreases |events|
  {
    Agrees(w) && (events != [] ==> AgreesThroughout(After(w, events[0]), events[1..]))
  }

  predicate NoForeignTimeout(w: World, events: seq<Event>)
    decreases |events|
  {
    events != [] ==> !ForeignTimeout(w, events[0]) && NoForeignTimeout(After(w, events[0]), events[1..])
  }

  lemma {:induction false} AgreementExact(w: World, events: seq<Event>)
    requires Consistent(w) && Agrees(w)
    ensures AgreesThroughout(w, events) <==> NoForeignTimeout(w, events)
    decreases |events|
  {
    if events != [] {
      StepAgrees(w, events[0]);
      if Step(w, events[0]).Some? {
        StepConsistent(w, events[0]);
      }
      if !ForeignTimeout(w, events[0]) {
        AgreementExact(After(w, events[0]), events[1..]);
      } else {
        var next := After(w, events[0]);
        assert !Agrees(next) && !AgreesThroughout(next, events[1..]);
      }
    }
  }

  /**
   * Along a run the contract and core IBC agree on the stored channel in every state exactly when
   * no timeout is delivered for another channel while the stored one is open.
   */
  lemma AgreementAlongRuns(admin: string, now: uint64, events: seq<Event>)
    ensures AgreesThroughout(Start(admin, now), events) <==> NoForeignTimeout(Start(admin, now), events)
  {
    AgreementExact(Start(admin, now), events);
  }

  // ----- Closing -----

  /** The latest committed OpenAck. */
  function LatestOpened(h: seq<Entry>): (latest: Option<Entry>)
    ensures latest.Some? ==> latest.value.Opened?
  {
    if h == [] then None
    else if h[|h| - 1].Opened? then Some(h[|h| - 1])
    else LatestOpened(h[..|h| - 1])
  }

  /** The channel it opened. */
  function LatestId(h: seq<Entry>): Option<string> {
    var latest :- LatestOpened(h);
    Some(latest.channel.endpoint.channelId)
  }

  /** A confirmed close commits exactly for the live stored channel, and only if the versions agree. */
  lemma ConfirmExact(w: World, id: string)
    requires Consistent(w)
    ensures Step(w, ConfirmClose(id)).Some?
        <==> id in w.ends && w.ends[id].status == Live && w.store.channel.Some? && StoredId(w) == id
             && StoredVersion(w) == w.ends[id].channel.version
  {
  }

  /** The contract stores what the latest OpenAck came with, core IBC what the counterparty answered. */
  predicate FollowsLatest(w: World) {
    match LatestOpened(w.history)
    case None => w.store.channel.None?
    case Some(latest) =>
      var id := latest.channel.endpoint.channelId;
      && Handlers.StoredChannel(w.store) == Some(latest.channel)
      && id in w.ends && w.ends[id].channel == latest.channel.(version := latest.answer)
      && w.ends[id].status != Proposed
  }

  lemma OpenedFollowsLatest(
    w: World, next: World, id: string, counterparty: string, version: string, answer: string)
    requires Consistent(w) && AcknowledgeEffect(w, next, id, counterparty, version, answer)
    ensures FollowsLatest(next)
  {
    HistorySnoc(w.history, next.history[|w.history|]);
  }

  lemma QuietFollowsLatest(w: World, next: World, entry: Entry)
    requires FollowsLatest(w) && next.history == w.history + [entry] && !entry.Opened?
    requires Handlers.StoredChannel(next.store) == Handlers.StoredChannel(w.store)
    requires forall id | id in w.ends && w.ends[id].status != Proposed ::
               id in next.ends && next.ends[id].channel == w.ends[id].channel && next.ends[id].status != Proposed
    ensures FollowsLatest(next)
  {
    HistorySnoc(w.history, entry);
  }

  lemma EffectFollowsLatest(w: World, next: World, e: Event)
    requires Consistent(w) && FollowsLatest(w) && Effect(w, next, e)
    ensures FollowsLatest(next)
  {
    match e
    case Tick(_) =>
    case Acknowledge(id, cp, version, answer) => OpenedFollowsLatest(w, next, id, cp, version, answer);
    case _ => QuietFollowsLatest(w, next, next.history[|w.history|]);
  }

  lemma {:induction false} RunFollowsLatest(w: World, events: seq<Event>)
    requires Consistent(w) && FollowsLatest(w)
    ensures Consistent(Run(w, events)) && FollowsLatest(Run(w, events))
    decreases |events|
  {
    if events != [] {
      if Step(w, events[0]).Some? {
        StepConsistent(w, events[0]);
        StepHasEffect(w, events[0]);
        EffectFollowsLatest(w, Step(w, events[0]).value, events[0]);
      }
      RunFollowsLatest(After(w, events[0]), events[1..]);
    }
  }

  /**
   * In every reachable state a channel can be confirmed closed exactly when it is live, no other
   * was opened after it, and its OpenAck came with the very version that the counterparty answered.
   */
  lemma ClosingExact(admin: string, now: uint64, events: seq<Event>, id: string)
    ensures var w := Run(Start(admin, now), events);
            var latest := LatestOpened(w.history);
            Step(w, ConfirmClose(id)).Some?
            <==> id in w.ends && w.ends[id].status == Live
                 && LatestId(w.history) == Some(id) && latest.value.channel.version == latest.value.answer
  {
    RunFollowsLatest(Start(admin, now), events);
    ConfirmExact(Run(Start(admin, now), events), id);
  }

  /** Right after an OpenAck, that is a matter of the versions alone. */
  lemma OpenAckDecidesClosing(w: World, id: string, counterparty: string, version: string, answer: string)
    requires Consistent(w) && StepAcknowledge(w, id, counterparty, version, answer).Some?
    ensures Step(StepAcknowledge(w, id, counterparty, version, answer).value, ConfirmClose(id)).Some?
        <==> version == answer
  {
    var e := Acknowledge(id, counterparty, version, answer);
    StepConsistent(w, e);
    StepHasEffect(w, e);
    ConfirmExact(Step(w, e).value, id);
  }

  /** Metadata in which the host has filled in the address. */
  predicate NamesAddress(version: string) {
    match Metadata.OfText(version)
    case Some(m) => m.address != ""
    case None => false
  }

  ghost predicate AnswersNameAddresses(w: World) {
    forall k | 0 <= k < |w.history| :: w.history[k].Opened? ==> NamesAddress(w.history[k].answer)
  }

  lemma AnswerNamesAddress(w: World, e: Event)
    requires e.Acknowledge? && Step(w, e).Some?
    ensures NamesAddress(e.counterpartyVersion)
  {
  }

  lemma EntriesNameAddresses(w: World, next: World, e: Event)
    requires AnswersNameAddresses(w) && Effect(w, next, e)
    requires e.Acknowledge? ==> NamesAddress(e.counterpartyVersion)
    ensures AnswersNameAddresses(next)
  {
  }

  lemma {:induction false} RunNamesAddresses(w: World, events: seq<Event>)
    requires AnswersNameAddresses(w)
    ensures AnswersNameAddresses(Run(w, events))
    decreases |events|
  {
    if events != [] {
      var e := events[0];
      if Step(w, e).Some? {
        StepHasEffect(w, e);
        if e.Acknowledge? {
          AnswerNamesAddress(w, e);
        }
        EntriesNameAddresses(w, Step(w, e).value, e);
      }
      RunNamesAddresses(After(w, e), events[1..]);
    }
  }

  lemma {:induction false} LatestIsInHistory(h: seq<Entry>)
    requires LatestOpened(h).Some?
    ensures LatestOpened(h).value in h
  {
    if !h[|h| - 1].Opened? {
      LatestIsInHistory(h[..|h| - 1]);
    }
  }

  /**
   * When the latest OpenAck came with a version that names no address, such as the proposal of a
   * first handshake, no channel at all can be confirmed closed: the host's answer names one.
   */
  lemma UnfilledVersionNeverCloses(admin: string, now: uint64, events: seq<Event>, id: string)
    requires var latest := LatestOpened(Run(Start(admin, now), events).history);
             latest.Some? && !NamesAddress(latest.value.channel.version)
    ensures Step(Run(Start(admin, now), events), ConfirmClose(id)).None?
  {
    RunNamesAddresses(Start(admin, now), events);
    LatestIsInHistory(Run(Start(admin, now), events).history);
    ClosingExact(admin, now, events, id);
  }

  // ----- Conservation of callbacks -----

  /** How many committed steps resolved a packet with `fate`. */
  function Resolutions(h: seq<Entry>, fate: Fate): nat {
    if h == [] then 0
    else
      var last := h[|h| - 1];
      Resolutions(h[..|h| - 1], fate) + (if last.Resolved? && last.fate == fate then 1 else 0)
  }

  lemma ResolutionsSnoc(h: seq<Entry>, e: Entry, fate: Fate)
    ensures Resolutions(h + [e], fate) == Resolutions(h, fate) + (if e.Resolved? && e.fate == fate then 1 else 0)
  {
    assert (h + [e])[..|h|] == h;
  }

  /** The counters, the ledger and the history tell the same numbers. */
  ghost predicate Balanced(w: World) {
    && |w.fates| == |w.packets|
    && w.store.counts.success == multiset(w.fates)[Succeeded] == Resolutions(w.history, Succeeded)
    && w.store.counts.error == multiset(w.fates)[Failed] == Resolutions(w.history, Failed)
    && w.store.counts.timeout == multiset(w.fates)[TimedOut] == Resolutions(w.history, TimedOut)
  }

  /** One more packet resolved, in the ledger, the counters and the history. */
  lemma ResolveBalanced(w: World, next: World, index: nat, fate: Fate)
    requires Balanced(w) && IsPending(w, index) && fate != Unresolved
    requires next.packets == w.packets && next.fates == w.fates[index := fate]
    requires next.history == w.history + [Resolved(index, fate)]
    requires Counted(w.store.counts, next.store.counts, fate)
    ensures Balanced(next)
  {
    ResolutionsSnoc(w.history, Resolved(index, fate), Succeeded);
    ResolutionsSnoc(w.history, Resolved(index, fate), Failed);
    ResolutionsSnoc(w.history, Resolved(index, fate), TimedOut);
  }

  lemma EffectBalanced(w: World, next: World, e: Event)
    requires Balanced(w) && Effect(w, next, e)
    ensures Balanced(next)
  {
    if e.DeliverAck? {
      ResolveBalanced(w, next, e.index, next.fates[e.index]);
    } else if e.DeliverTimeout? {
      ResolveBalanced(w, next, e.index, TimedOut);
    } else if !e.Tick? {
      var entry := next.history[|w.history|];
      ResolutionsSnoc(w.history, entry, Succeeded);
      ResolutionsSnoc(w.history, entry, Failed);
      ResolutionsSnoc(w.history, entry, TimedOut);
    }
  }

  lemma StepBalanced(w: World, e: Event)
    requires Balanced(w) && Step(w, e).Some?
    ensures Balanced(Step(w, e).value)
  {
    StepHasEffect(w, e);
    EffectBalanced(w, Step(w, e).value, e);
  }

  lemma {:induction false} RunBalanced(w: World, events: seq<Event>)
    requires Balanced(w)
    ensures Balanced(Run(w, events))
    decreases |events|
  {
    if events != [] {
      if Step(w, events[0]).Some? {
        StepBalanced(w, events[0]);
      }
      RunBalanced(After(w, events[0]), events[1..]);
    }
  }

  lemma {:induction false} FatesTotal(fates: seq<Fate>)
    ensures var m := multiset(fates);
            m[Unresolved] + m[Succeeded] + m[Failed] + m[TimedOut] == |fates|
  {
    if fates != [] {
      var n := |fates| - 1;
      FatesTotal(fates[..n]);
      assert fates == fates[..n] + [fates[n]];
      var before := multiset(fates[..n]);
      assert multiset(fates) == before + multiset{fates[n]};
      assert forall f :: multiset(fates)[f] == before[f] + (if f == fates[n] then 1 else 0);
      assert fates[n] in {Unresolved, Succeeded, Failed, TimedOut};
    }
  }

  /** If this acknowledgement commits, its packet ends as `fate` and is counted so. */
  predicate EndsAs(w: World, index: nat, acknowledgement: seq<byte>, fate: Fate) {
    match StepAck(w, index, acknowledgement)
    case None => true
    case Some(next) =>
      AckEffect(w, next, index) && next.fates[index] == fate && Counted(w.store.counts, next.store.counts, fate)
  }

  lemma AckIsFate(w: World, index: nat, acknowledgement: seq<byte>, a: Packet.AcknowledgementData)
    requires Packet.AckOfBinary(acknowledgement) == Some(a)
    ensures EndsAs(w, index, acknowledgement, if a.Result? then Succeeded else Failed)
  {
    if StepAck(w, index, acknowledgement).Some? {
      StepHasEffect(w, DeliverAck(index, acknowledgement));
    }
  }

  /** What a delivered acknowledgement does is written in it: `result` is a success, `error` an error. */
  lemma AckOutcome(w: World, index: nat, bytes: seq<byte>, message: string)
    ensures EndsAs(w, index, Utf8.Encode(Json.Print(Json.Object([
              Json.Member("result", Json.String(Base64.Encode(bytes)))]))), Succeeded)
    ensures EndsAs(w, index, Utf8.Encode(Json.Print(Json.Object([
              Json.Member("error", Json.String(message))]))), Failed)
  {
    Packet.AckTexts(bytes, message);
    AckIsFate(w, index, Utf8.Encode(Json.Print(Json.Object([
                          Json.Member("result", Json.String(Base64.Encode(bytes)))]))), Packet.Result(bytes));
    AckIsFate(w, index, Utf8.Encode(Json.Print(Json.Object([
                          Json.Member("error", Json.String(message))]))), Packet.Error(message));
  }

  /**
   * Over any run the counters are the numbers of committed success acknowledgements, error
   * acknowledgements and timeouts, and with the unresolved packets they add up to those sent.
   */
  lemma CallbacksConserved(admin: string, now: uint64, events: seq<Event>)
    ensures var w := Run(Start(admin, now), events);
            && w.store.counts.success == Resolutions(w.history, Succeeded)
            && w.store.counts.error == Resolutions(w.history, Failed)
            && w.store.counts.timeout == Resolutions(w.history, TimedOut)
            && w.store.counts.success + w.store.counts.error + w.store.counts.timeout
               + multiset(w.fates)[Unresolved] == |w.packets|
  {
    RunBalanced(Start(admin, now), events);
    FatesTotal(Run(Start(admin, now), events).fates);
  }

  /** A timeout of this packet commits exactly when its counter has room. */
  predicate TimeoutBarredByCountOnly(w: World, index: nat) {
    StepTimeout(w, index).Some? <==> w.store.counts.timeout < 0xFFFF_FFFF
  }

  /** An acknowledgement of it commits exactly when it can be read and its counter has room. */
  predicate AckBarredByCountOnly(w: World, index: nat, acknowledgement: seq<byte>) {
    StepAck(w, index, acknowledgement).Some?
    <==> match Packet.AckOfBinary(acknowledgement)
         case None => false
         case Some(Result(_)) => w.store.counts.success < 0xFFFF_FFFF
         case Some(Error(_)) => w.store.counts.error < 0xFFFF_FFFF
  }

  lemma TimeoutResolves(w: World, index: nat)
    requires Consistent(w) && IsPending(w, index)
    ensures TimeoutBarredByCountOnly(w, index)
  {
    assert w.packets[index].sent.channelId in w.ends && w.store.channel.Some?;
  }

  lemma AckResolves(w: World, index: nat, acknowledgement: seq<byte>)
    requires IsPending(w, index)
    ensures AckBarredByCountOnly(w, index, acknowledgement)
  {
  }

  /**
   * In every reachable state a packet in flight can be resolved either way: of the contract's own
   * checks, only a full counter or an unreadable acknowledgement keeps it from being resolved.
   */
  lemma CallbacksResolve(admin: string, now: uint64, events: seq<Event>, index: nat, acknowledgement: seq<byte>)
    requires IsPending(Run(Start(admin, now), events), index)
    ensures TimeoutBarredByCountOnly(Run(Start(admin, now), events), index)
    ensures AckBarredByCountOnly(Run(Start(admin, now), events), index, acknowledgement)
  {
    RunConsistent(Start(admin, now), events);
    TimeoutResolves(Run(Start(admin, now), events), index);
    AckResolves(Run(Start(admin, now), events), index, acknowledgement);
  }

  function CountOf(counts: Counts, fate: Fate): nat {
    match fate
    case Unresolved => 0
    case Succeeded => counts.success
    case Failed => counts.error
    case TimedOut => counts.timeout
  }

  /** All packets in the ledger of `later` that ended as `fate` had ended so in that of `w`. */
  ghost predicate NoMoreOf(w: World, later: World, fate: Fate) {
    && |w.fates| <= |later.fates|
    && (forall i | 0 <= i < |later.fates| :: later.fates[i] == fate ==> i < |w.fates| && w.fates[i] == fate)
  }

  lemma EffectAtFullCounter(w: World, next: World, e: Event, fate: Fate)
    requires CountOf(w.store.counts, fate) == 0xFFFF_FFFF && Effect(w, next, e)
    ensures CountOf(next.store.counts, fate) == 0xFFFF_FFFF && NoMoreOf(w, next, fate)
  {
  }

  /** What a callback does at a full counter: it panics, and its packet stays as it was. */
  lemma FullCounterBlocks(w: World, index: nat, acknowledgement: seq<byte>)
    ensures w.store.counts.timeout == 0xFFFF_FFFF
        ==> Handlers.PacketTimeout(w.store) == Abort && After(w, DeliverTimeout(index)) == w
    ensures Packet.AckOfBinary(acknowledgement).Some? && Packet.AckOfBinary(acknowledgement).value.Result?
            && w.store.counts.success == 0xFFFF_FFFF
        ==> Handlers.PacketAck(w.store, acknowledgement) == Abort && After(w, DeliverAck(index, acknowledgement)) == w
    ensures Packet.AckOfBinary(acknowledgement).Some? && Packet.AckOfBinary(acknowledgement).value.Error?
            && w.store.counts.error == 0xFFFF_FFFF
        ==> Handlers.PacketAck(w.store, acknowledgement) == Abort && After(w, DeliverAck(index, acknowledgement)) == w
  {
  }

  /**
   * A counter that is full stays full over any run, and no further packet ever ends the way it
   * counts; a timeout at a full timeout counter panics in every state of the run.
   */
  lemma {:induction false} FullCounterStays(w: World, events: seq<Event>, fate: Fate)
    requires CountOf(w.store.counts, fate) == 0xFFFF_FFFF
    ensures CountOf(Run(w, events).store.counts, fate) == 0xFFFF_FFFF
    ensures NoMoreOf(w, Run(w, events), fate)
    ensures fate == TimedOut ==> Handlers.PacketTimeout(Run(w, events).store) == Abort
    decreases |events|
  {
    if events != [] {
      if Step(w, events[0]).Some? {
        StepHasEffect(w, events[0]);
        EffectAtFullCounter(w, Step(w, events[0]).value, events[0], fate);
      }
      FullCounterStays(After(w, events[0]), events[1..], fate);
    } else {
      FullCounterBlocks(w, 0, []);
    }
  }

  // ----- Sends follow history -----

  function EmittedCount(h: seq<Entry>): nat {
    if h == [] then 0 else EmittedCount(h[..|h| - 1]) + (if h[|h| - 1].Emitted? then 1 else 0)
  }

  lemma HistorySnoc(h: seq<Entry>, e: Entry)
    ensures LatestOpened(h + [e]) == if e.Opened? then Some(e) else LatestOpened(h)
    ensures EmittedCount(h + [e]) == EmittedCount(h) + (if e.Emitted? then 1 else 0)
  {
    assert (h + [e])[..|h|] == h;
  }

  /** The entry at `k`, if it is a send, was allowed by what came before it. */
  ghost predicate SendJustified(w: World, admin: string, k: nat)
    requires k < |w.history|
  {
    var e := w.history[k];
    e.Emitted? ==>
      && e.sender == admin
      && LatestId(w.history[..k]) == Some(e.channelId)
      && e.index == EmittedCount(w.history[..k])
      && e.index < |w.packets|
      && w.packets[e.index].sent.channelId == e.channelId
  }

  ghost predicate SendsJustified(w: World, admin: string) {
    && w.store.admin == admin
    && LatestId(w.history) == (match w.store.icaInfo case Some(info) => Some(info.channelId) case None => None)
    && EmittedCount(w.history) == |w.packets|
    && forall k | 0 <= k < |w.history| :: SendJustified(w, admin, k)
  }

  /** Earlier entries stay justified when the history and the packets only grow. */
  lemma StillJustified(w: World, next: World, admin: string, entry: Entry)
    requires forall k | 0 <= k < |w.history| :: SendJustified(w, admin, k)
    requires next.history == w.history + [entry] && w.packets <= next.packets
    requires SendJustified(next, admin, |w.history|)
    ensures forall k | 0 <= k < |next.history| :: SendJustified(next, admin, k)
  {
    forall k | 0 <= k < |w.history| ensures SendJustified(next, admin, k) {
      assert next.history[..k] == w.history[..k];
      assert SendJustified(w, admin, k);
    }
  }

  lemma QuietJustified(w: World, next: World, admin: string, entry: Entry)
    requires SendsJustified(w, admin) && next.history == w.history + [entry] && !entry.Emitted?
    requires next.packets == w.packets && next.store.admin == admin
    requires if entry.Opened?
             then next.store.icaInfo.Some? && next.store.icaInfo.value.channelId == entry.channel.endpoint.channelId
             else next.store.icaInfo == w.store.icaInfo
    ensures SendsJustified(next, admin)
  {
    HistorySnoc(w.history, entry);
    StillJustified(w, next, admin, entry);
  }

  lemma ExecuteJustified(w: World, next: World, msg: Handlers.ExecuteMessage, admin: string)
    requires SendsJustified(w, admin) && ExecuteEffect(w, next, msg)
    ensures SendsJustified(next, admin)
  {
    var entry := next.history[|w.history|];
    HistorySnoc(w.history, entry);
    assert next.history[..|w.history|] == w.history;
    StillJustified(w, next, admin, entry);
  }

  lemma EffectJustified(w: World, next: World, e: Event, admin: string)
    requires SendsJustified(w, admin) && Effect(w, next, e)
    ensures SendsJustified(next, admin)
  {
    if e.Execute? {
      ExecuteJustified(w, next, e.msg, admin);
    } else if e.Tick? {
      assert forall k | 0 <= k < |w.history| :: SendJustified(w, admin, k) ==> SendJustified(next, admin, k);
    } else {
      QuietJustified(w, next, admin, next.history[|w.history|]);
    }
  }

  lemma StepSendsJustified(w: World, e: Event, admin: string)
    requires SendsJustified(w, admin) && Step(w, e).Some?
    ensures SendsJustified(Step(w, e).value, admin)
  {
    StepHasEffect(w, e);
    EffectJustified(w, Step(w, e).value, e, admin);
  }

  lemma {:induction false} RunSendsJustified(w: World, events: seq<Event>, admin: string)
    requires SendsJustified(w, admin)
    ensures SendsJustified(Run(w, events), admin)
    decreases |events|
  {
    if events != [] {
      if Step(w, events[0]).Some? {
        StepSendsJustified(w, events[0], admin);
      }
      RunSendsJustified(After(w, events[0]), events[1..], admin);
    }
  }

  /**
   * Over any run each packet has one entry in the history; its sender is the admin of the
   * instantiation, and its channel the one of the latest OpenAck before it.
   */
  lemma SendsFollowHistory(admin: string, now: uint64, events: seq<Event>)
    ensures SendsJustified(Run(Start(admin, now), events), admin)
  {
    RunSendsJustified(Start(admin, now), events, admin);
  }

  // ----- Timeouts -----

  ghost predicate Timed(w: World) {
    && (forall i | 0 <= i < |w.packets| ::
          && w.packets[i].sentAt <= w.now
          && w.packets[i].sent.timeout
             == w.packets[i].sentAt
                + (match w.packets[i].seconds case Some(s) => s * 1_000_000_000 case None => 600_000_000_000))
    && (forall i, j | 0 <= i < j < |w.packets| :: w.packets[i].sentAt <= w.packets[j].sentAt)
  }

  lemma StepTimed(w: World, e: Event)
    requires Timed(w) && Step(w, e).Some?
    ensures Timed(Step(w, e).value)
  {
    StepHasEffect(w, e);
    EffectTimed(w, Step(w, e).value, e);
  }

  lemma EffectTimed(w: World, next: World, e: Event)
    requires Timed(w) && Effect(w, next, e)
    ensures Timed(next)
  {
  }

  lemma {:induction false} RunTimed(w: World, events: seq<Event>)
    requires Timed(w)
    ensures Timed(Run(w, events))
    decreases |events|
  {
    if events != [] {
      if Step(w, events[0]).Some? {
        StepTimed(w, events[0]);
      }
      RunTimed(After(w, events[0]), events[1..]);
    }
  }

  /**
   * Packets with the default timeout expire in the order they were sent, each strictly after the
   * time of the block that sent it.
   */
  lemma DefaultTimeoutsInOrder(admin: string, now: uint64, events: seq<Event>, i: nat, j: nat)
    requires i <= j < |Run(Start(admin, now), events).packets|
    requires var w := Run(Start(admin, now), events); w.packets[i].seconds.None? && w.packets[j].seconds.None?
    ensures var w := Run(Start(admin, now), events);
            && w.packets[i].sent.timeout <= w.packets[j].sent.timeout
            && w.packets[i].sentAt < w.packets[i].sent.timeout == w.packets[i].sentAt + 600_000_000_000
  {
    RunTimed(Start(admin, now), events);
  }
}
