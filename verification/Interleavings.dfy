// A handshake that was begun survives whatever else happens before its OpenAck.

module Interleavings {
  import opened Prelude
  import opened Outcomes
  import opened Ibc
  import opened Metadata
  import opened State
  import opened World
  import opened Effects
  import opened WorldInvariants
  import Handlers
  import ContractRuns

  /** The end of `id` waits for its OpenAck as `end`. */
  predicate Waits(w: World, id: string, end: End) {
    id in w.ends && w.ends[id] == end && end.status == Proposed
  }

  /** No OpenAck for `id` commits along the run. */
  predicate NotAcknowledged(w: World, events: seq<Event>, id: string)
    decreases |events|
  {
    events != [] ==>
      && !(events[0].Acknowledge? && events[0].channelId == id && Step(w, events[0]).Some?)
      && NotAcknowledged(After(w, events[0]), events[1..], id)
  }

  lemma EffectWaits(w: World, next: World, e: Event, id: string, end: End)
    requires Consistent(w) && Waits(w, id, end) && Effect(w, next, e)
    requires !(e.Acknowledge? && e.channelId == id)
    ensures Waits(next, id, end)
  {
    if e.DeliverTimeout? {
      assert w.packets[e.index].sent.channelId != id;
    }
  }

  lemma StepWaits(w: World, e: Event, id: string, end: End)
    requires Consistent(w) && Waits(w, id, end) && Step(w, e).Some?
    requires !(e.Acknowledge? && e.channelId == id)
    ensures Waits(Step(w, e).value, id, end)
  {
    StepHasEffect(w, e);
    EffectWaits(w, Step(w, e).value, e, id, end);
  }

  lemma {:induction false} RunWaits(w: World, events: seq<Event>, id: string, end: End)
    requires Consistent(w) && Waits(w, id, end) && NotAcknowledged(w, events, id)
    ensures Consistent(Run(w, events)) && Waits(Run(w, events), id, end)
    decreases |events|
  {
    if events != [] {
      if Step(w, events[0]).Some? {
        StepConsistent(w, events[0]);
        StepWaits(w, events[0], id, end);
      }
      RunWaits(After(w, events[0]), events[1..], id, end);
    }
  }

  /**
   * A handshake completes in every interleaving: after a committed OpenInit, however many other
   * events come first, an OpenAck whose host echoed the proposal with an address commits, whatever
   * version it comes with, exactly when the address is valid and not empty and the controller port is not the host's.
   */
  lemma HandshakeCompletesInterleaved(
    w: World, channel: IbcChannel, queried: Option<string>, events: seq<Event>,
    counterparty: string, version: string, address: string)
    requires Consistent(w) && StepPropose(w, channel, queried).Some?
    requires NotAcknowledged(StepPropose(w, channel, queried).value, events, channel.endpoint.channelId)
    ensures var id := channel.endpoint.channelId;
            var proposal := Handlers.OpenInit(w.store, channel, queried).value;
            && OfText(proposal).Some?
            && var m := OfText(proposal).value;
               var before := Run(StepPropose(w, channel, queried).value, events);
               var after := StepAcknowledge(before, id, counterparty, version, ToText(m.(address := address)));
               && (after.Some? <==>
                     channel.endpoint.portId != "icahost" && address != "" && IsIcaAddress(address))
               && (after.Some? ==>
                     Handlers.GetIcaInfo(after.value.store) == Ok(IcaInfo(address, id, m.encoding)))
  {
    var id := channel.endpoint.channelId;
    var proposal := Handlers.OpenInit(w.store, channel, queried).value;
    var proposed := StepPropose(w, channel, queried).value;
    var end := proposed.ends[id];
    StepConsistent(w, Propose(channel, queried));
    RunWaits(proposed, events, id, end);
    var before := Run(proposed, events);
    ContractRuns.HandshakeCompletes(
      w.store, channel, queried, proposal, before.store, AcknowledgedChannel(end, counterparty, version), address);
  }
}
