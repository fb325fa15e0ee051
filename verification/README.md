# The interchain-accounts controller, modelled and proved

The contract is an ICS-27 controller: it negotiates an account with a host chain in a channel
handshake, sends packets of encoded messages over that channel, and counts what comes back. This
project models its two halves in Dafny and proves what they promise.

**The controller.** `Controllers.Controller` is the contract as an object over the three stored
records of `State` (`ContractState`, `ChannelState`, `CallbackCounter`), which its methods write in
place and in the source's order. Each method is proved against a function of `Handlers` on the
value of the storage. `Transact` adds the transaction around a call: an error or a panic
(`Outcome.Abort`) leaves all three records as they were. `ContractRuns` proves what every sequence
of calls keeps, with no assumption on the caller.

**The environment.** `World` puts the contract beside core IBC's own channel ends, the packets in
flight with their fates, the block time, and a history of committed steps. Events come in any order
and any number; the counterparty may answer anything. `Effects` says what each committed event does to
the records, and from that `WorldInvariants`, `Stability` and `Interleavings` prove what holds over
all such runs. Where a natural claim is false, `CounterRuns`
builds the run on which it fails, event by event, for any channel ids and terms.

**The codecs.** `Json` holds a printer and a parser after RFC 8259; the round trip is proved in
`JsonRoundTrip`, that a parser's verdict does not depend on later text in `JsonExtend`. On it stand
the handshake metadata (`Metadata`), the recursive message enum (`CosmosMsg`), and the packet and
its acknowledgement (`Packet`). `Framing` and `Scanner` deal with the hand-built `messages` array,
`FrameMeaning` with what a JSON reader sees in it. `Utf8` (RFC 3629), `Base64` (RFC 4648, section 4),
`Decimal` and `Proto` (Protocol Buffers encoding, "Base 128 Varints" and "Length-Delimited Records")
are the remaining layers. `BankSend` composes all of them: from the `amount` a caller gives to the
send the host executes.

**Texts and constants.** A reader and a printer that agree can be wrong together. So each layer also
says what stands on the wire: the JSON of metadata, messages, packets and acknowledgements with its
keys, tags and names spelled out, the bytes of a protobuf send, the published examples of UTF-8,
base64 and varints, and the JSON grammar (`JsonGrammar`). The main results are stated with the port,
the version, the 600 seconds and the integer bounds as literals. `Refusals` says which error each call
ends in.

What a reader may not expect:

- A channel stored as open is always open in core IBC. The converse fails exactly when a timeout is
  delivered for another channel while the stored one is open, because the timeout handler closes
  whatever is stored. Other late timeouts do no harm.
- The encoding stays that of the first handshake exactly as long as no OpenAck commits that comes
  with other terms, or with an answer in another encoding. In an environment that carries and echoes
  versions faithfully, that can only be the OpenAck of a handshake on other terms that was begun
  before the first OpenAck. So stability holds when no such handshake overlaps the first one; a
  faithless relayer or host breaks it in its own way, and an overlap on equal terms does no harm.
- OpenAck stores whatever version it comes with, and that version alone decides whether the contract
  can ever propose a channel again short of another OpenAck: exactly when it is metadata with the
  ICS-27 version and the `sdk_multi_msg` type. For text that is no metadata
  (src/ibc/types/metadata.rs:76-79) an empty version falls back to fresh metadata, which the
  comparison with the stored version then refuses; metadata of another type fails validation
  whenever it agrees with the stored version.
- A close can be confirmed exactly for a live channel that no other was opened after, and only if its
  OpenAck came with the very version that the counterparty answered. `confirm` compares the whole
  channel (src/ibc/handshake.rs:165), the contract keeps the version that came with OpenAck, and core
  IBC the answer (ICS-04, `chanOpenAck`). So when OpenAck comes with the proposal while the host fills
  in the address, the close of that channel is never confirmed; only a timeout closes it.
- The two encodings of a bank send carry the same transfer exactly for canonical numerals below
  2^128: the protobuf branch passes the amount on as it is, the JSON branch parses and reprints it.
- A packet in flight is never stuck for want of a stored channel: of the contract's own checks, only
  an unreadable acknowledgement or a full 32-bit counter keeps its callback from committing.

src/ibc/types/metadata.rs:30 says that only JSON encoding is supported, while the code handles both
encodings; the model follows the code.

## Model

| member | source | states |
|---|---|---|
| Controllers.Controller.constructor | src/contract.rs:19-39 | A new contract has the named admin, or else the sender; no account, no channel, zero counts |
| Controllers.Controller.OpenInit | src/ibc/handshake.rs:64-110 | The answer for every storage and channel: order, host port, version text, validation, the stored channel; nothing is written |
| Controllers.Controller.OnAcknowledgement | src/ibc/handshake.rs:113-156 | On success both writes are made in place, on failure neither; every error case |
| Controllers.Controller.CloseConfirm | src/ibc/handshake.rs:162-175 | Closes exactly the stored channel; fails for an absent or a different one |
| Controllers.Controller.PacketAck | src/ibc/relay.rs:22-32 | Counts a success or an error by the acknowledgement's tag; a full counter panics; unreadable bytes are an error |
| Controllers.Controller.PacketTimeout | src/ibc/relay.rs:36-56 | Count, then close; with no channel stored it fails with the count already written |
| Controllers.Controller.SendCustomIcaMessages | src/contract.rs:94-110 | Only the admin, only with an account; the packet goes to the stored channel id |
| Controllers.Controller.IcaBankSend | src/contract.rs:113-151 | The same for a bank send with the default timeout |
| Controllers.Controller.BankPacket | src/contract.rs:125-147 | The packet data in the negotiated encoding, or the error for an amount that is no u128 |
| Controllers.Controller.Execute | src/contract.rs:43-66 | Dispatches the two sends |
| Controllers.Controller.Callback | src/ibc/handshake.rs:33-58 | Dispatches the callbacks; the ones a controller never receives panic |
| Controllers.Controller.TransactCallback | src/ibc/relay.rs:36-56 | A failing callback, half done or not, leaves all three records as they were |
| Controllers.Controller.Transact | src/ibc/handshake.rs:19-58 | Every message as a transaction: its answer and the whole new storage |
| State.ContractState.VerifyAdmin | src/types/state.rs:47-53 | Accepts the admin and nobody else |
| State.ContractState.GetIcaInfo | src/types/state.rs:56-62 | The stored account info, or the error when none is set |
| State.ContractState.SetIcaInfo | src/types/state.rs:65-72 | Replaces the account info and leaves the admin alone |
| State.ContractState.DeleteIcaInfo | src/types/state.rs:75-77 | Removes the account info only |
| State.ChannelState.NewOpenChannel | src/types/state.rs:164-169 | A stored channel starts open |
| State.ChannelState.Close | src/types/state.rs:177-179 | Closes the record and keeps its channel |
| State.CallbackCounter.Success | src/types/state.rs:118-120 | Adds one to this count only, or panics at 2^32 - 1 and changes nothing |
| State.CallbackCounter.Error | src/types/state.rs:123-125 | The same for error acknowledgements |
| State.CallbackCounter.Timeout | src/types/state.rs:128-130 | The same for timeouts |
| ContractRuns.ReachableInvariant | src/ibc/handshake.rs:113-156 | After any sequence of calls: channel and account info are set together and name one channel, the status is Open or Closed, the port is not `icahost`, the address is valid, not empty and at most 128 bytes long, the admin is the original one |
| ContractRuns.RunKeepsInvariant | src/types/state.rs:28-78 | The same from any storage that satisfies the invariant |
| ContractRuns.BetweenOpenAckWrites | src/ibc/handshake.rs:139-152 | Between OpenAck's two writes the invariant holds exactly when the same channel was stored already; after both it holds |
| ContractRuns.BeforeOpenAck | src/ibc/relay.rs:41-53 | Whatever calls come before the first committed OpenAck, nothing can be sent, and a timeout has counted itself when it fails, of which the transaction keeps nothing |
| ContractRuns.AcceptedProposal | src/ibc/handshake.rs:77-109 | Whatever OpenInit accepts is printed metadata with the ICS-27 version, the channel's own connection, the supported tx type and no or a valid address; with a channel stored, that channel is not open and the metadata agrees with the stored version on all but the address |
| ContractRuns.FreshProposal | src/ibc/types/metadata.rs:87-101 | With nothing stored, an empty version is accepted exactly on an ordered channel to port `icahost`; the text proposed is written out, with "ics27-1", "proto3json", "sdk_multi_msg", no address and the queried host connection or none |
| ContractRuns.ExplicitProposalExact | src/ibc/handshake.rs:68-109 | An explicit version that is metadata is accepted exactly when order, port `icahost`, version `ics27-1`, connection, tx type and address are right and a stored channel is not open and agrees on the five fields; the very text is answered |
| ContractRuns.OpenAckExact | src/ibc/handshake.rs:113-156 | OpenAck on an answer, its six members written out, commits exactly when version, connection, tx type and address are right and the port is not `icahost`; it stores that address, the channel id, and JSON for "proto3json" or protobuf for "proto3" |
| ContractRuns.PacketAckCounts | src/ibc/relay.rs:22-32 | The bytes of `{"result": base64}` add one to the successes and those of `{"error": text}` one to the errors, and panic at 2^32 - 1 |
| ContractRuns.HandshakeCompletes | src/ibc/handshake.rs:77-156 | After an accepted OpenInit and a host that echoes it with an address, OpenAck succeeds exactly when the address is valid and not empty and the port is not the host's; then the account info is the negotiated one |
| ContractRuns.ReopenExact | src/ibc/handshake.rs:78-104 | However many calls after the OpenAck, an empty version is accepted exactly when the stored channel is not open and order, port and the stored metadata suit the new channel, and that metadata is proposed again |
| ContractRuns.ProposalExact | src/ibc/handshake.rs:68-104 | On a given channel some version is accepted exactly when order and host port are right and nothing is stored, or a closed channel on the same connection whose version is metadata with the ICS-27 version and the supported tx type |
| ContractRuns.CanProposeExact | src/ibc/handshake.rs:90-104 | Some OpenInit at all succeeds exactly when nothing is stored, or a closed channel with such a version |
| ContractRuns.OnlyProposableAccepted | src/ibc/types/metadata.rs:75-126 | Every other stored version makes each OpenInit fail, with fresh, stored or explicit metadata |
| ContractRuns.CanProposeAlongRuns | src/ibc/types/metadata.rs:105-142 | Along any sequence of calls in which no OpenAck commits, some OpenInit succeeds exactly when the stored channel is closed by then and its version, unchanged, is such metadata |
| ContractRuns.ReopeningExact | src/ibc/handshake.rs:90-104 | Some sequence of calls without another OpenAck leads to a successful OpenInit exactly when the stored version is metadata with the ICS-27 version and the supported tx type |
| ContractRuns.VersionStays | src/ibc/handshake.rs:139-152 | Only a committed OpenAck changes the stored channel or the account info |
| WorldInvariants.StoredOpenIsLive | src/ibc/handshake.rs:91-96 | In every reachable state a channel stored as open is open in core IBC |
| WorldInvariants.RunConsistent | src/ibc/handshake.rs:151-152 | Over all runs the stored channel is, up to its version, core IBC's own record of an end that was opened, and packets are only on such ends |
| WorldInvariants.StepAgrees | src/ibc/relay.rs:47-53 | From a state of agreement, a step ends it exactly when it is a timeout of another channel while the stored one is open |
| WorldInvariants.AgreementAlongRuns | src/ibc/relay.rs:47-53 | Contract and core IBC agree on the stored channel in every state of a run exactly when no such timeout is delivered in it |
| CounterRuns.LateTimeoutBreaksAgreement | src/ibc/relay.rs:36-56 | A run of six events after which the open channel is stored as closed |
| WorldInvariants.ClosingExact | src/ibc/handshake.rs:162-168 | In every reachable state a channel can be confirmed closed exactly when it is live, the latest OpenAck was its own, and that came with the very version the counterparty answered |
| WorldInvariants.UnfilledVersionNeverCloses | src/ibc/handshake.rs:134-168 | While the latest OpenAck is one that came with a version without an address, such as a first proposal, no close of any channel can be confirmed |
| WorldInvariants.OpenAckDecidesClosing | src/ibc/handshake.rs:151-168 | Right after an OpenAck its channel can be confirmed closed exactly when the version it came with equals the answer |
| WorldInvariants.RunFollowsLatest | src/ibc/handshake.rs:151-152 | Over all runs the contract stores the channel as the latest OpenAck passed it, and core IBC has it with the answer as its version |
| CounterRuns.ProposalCarriedCannotClose | src/ibc/handshake.rs:113-168 | The ordinary handshake, in two events: open on both sides, and no close can be confirmed |
| Effects.StepHasEffect | src/ibc/relay.rs:22-56 | What each committed event changes in the world, record by record, and that it changes nothing else |
| WorldInvariants.CallbacksConserved | src/ibc/relay.rs:79-105 | Over any run the counters are the numbers of committed success acks, error acks and timeouts, and with the unresolved packets they sum to those sent |
| WorldInvariants.RunBalanced | src/types/state.rs:116-131 | Counters, ledger and history stay in balance over any run |
| WorldInvariants.AckOutcome | src/ibc/relay.rs:28-31 | A delivered `{"result": base64}` that commits ends its packet as a success and counts it so, a delivered `{"error": text}` as an error |
| WorldInvariants.CallbacksResolve | src/ibc/relay.rs:22-56 | In every reachable state a packet in flight can be resolved by ack or timeout exactly when the counter concerned is not full and the ack can be read |
| WorldInvariants.FullCounterStays | Cargo.toml:26 | A count of 2^32 - 1 stays over any run, and no packet that had not ended the way it counts ever does |
| WorldInvariants.SendsFollowHistory | src/contract.rs:102-109 | Over any run every packet was requested by the instantiation's admin, after an OpenAck, and targets the channel of the latest OpenAck before it |
| Effects.SenderAndTarget | src/contract.rs:121-150 | A send that goes through was asked for by the admin and goes to the stored channel id |
| WorldInvariants.DefaultTimeoutsInOrder | src/ibc/types/packet.rs:96-111 | Over any run default timeouts are non-decreasing in send order, each 600 seconds after its block time |
| Effects.ExecuteTimeout | src/contract.rs:107-148 | The timeout of a packet is block time plus seconds times 1,000,000,000, or plus 600,000,000,000 without seconds |
| Packet.ToIbcMsgExact | src/ibc/types/packet.rs:96-111 | The message is built exactly when that sum is below 2^64, and panics otherwise |
| Stability.StabilityExact | src/ibc/handshake.rs:64-156 | Over all runs: version, both connection ids, encoding and tx_type of all that is opened and stored, and the account's encoding, are those of the first handshake in every state exactly when no OpenAck commits with other terms or an answer in another encoding |
| Stability.FaithfulStability | src/ibc/handshake.rs:64-156 | When OpenAck carries the terms of the proposal and the host echoes all but the address, that is exactly when no handshake on other terms, begun before the first OpenAck, completes after it |
| Stability.EncodingStability | src/ibc/handshake.rs:90-104 | So without overlapping first handshakes it holds through any close and reopen cycles |
| Stability.StepOnTerms | src/ibc/handshake.rs:139-152 | A step ends the stability exactly when it is such an OpenAck |
| Stability.DepartsByConflict | src/ibc/types/metadata.rs:129-142 | In a faithful environment a handshake begun after the first OpenAck cannot depart: its proposal was compared with the stored version |
| Stability.ProposedTerms | src/ibc/types/metadata.rs:129-142 | What OpenInit accepts while a channel is stored has the stored terms |
| Stability.AcknowledgedTerms | src/ibc/handshake.rs:126-152 | OpenAck succeeds only on acceptable metadata, and takes the encoding from the host's answer |
| CounterRuns.OverlapBreaksStability | src/ibc/handshake.rs:113-156 | Two overlapping first handshakes, faithful otherwise, replace the first encoding |
| CounterRuns.HostChoiceBreaksStability | src/ibc/handshake.rs:126-149 | A host that answers another encoding gets it, against the stored version |
| CounterRuns.OtherVersionBreaksStability | src/ibc/handshake.rs:151-152 | A reopening whose OpenAck comes with other terms than were proposed changes the terms |
| CounterRuns.BlockingVersionReachable | src/ibc/handshake.rs:151-152 | For any other version, a run of four events, the close being a timeout, after which no channel can be proposed any more |
| CounterRuns.BlockingVersions | src/ibc/types/metadata.rs:105-126 | Both kinds of such versions: text that is no metadata, and metadata of another version or tx type |
| CounterRuns.HarmlessOverlap | src/ibc/handshake.rs:64-156 | Two overlapping first handshakes on the same terms keep every state on the first terms |
| CounterRuns.FaithfulReopening | src/ibc/handshake.rs:64-156 | A run of six events that meets every proviso of EncodingStability: a handshake that carries the proposal, a close by timeout, and a reopening on the first terms |
| CounterRuns.ConfirmedReopening | src/ibc/handshake.rs:64-175 | One of five events in which OpenAck carries the answer, and the close is confirmed |
| CounterRuns.ProposableExists | src/ibc/types/metadata.rs:105-126 | Terms and an address as these runs need them exist, in both encodings and on every connection |
| Interleavings.HandshakeCompletesInterleaved | src/ibc/handshake.rs:64-156 | A begun handshake completes, under the same exact condition, however many other events come between OpenInit and OpenAck, and whatever version OpenAck comes with |
| Interleavings.RunWaits | src/ibc/handshake.rs:105-109 | A proposed end is left untouched by all events but its own OpenAck |
| Metadata.OfTextToText | src/ibc/types/metadata.rs:145-149 | Printed metadata parses to itself and is never empty |
| Metadata.OfMembersExact | src/ibc/types/metadata.rs:17-46 | Exactly the permutations of the six members read as the metadata |
| Metadata.AnyMemberOrder | src/ibc/types/metadata.rs:17-35 | The members of a text may come in any order |
| Metadata.PreviousVersionEqualExact | src/ibc/types/metadata.rs:129-142 | Against printed metadata, the comparison is equality of the five fields other than the address |
| Metadata.PreviousVersionEqualEquivalence | src/ibc/types/metadata.rs:129-142 | So it is reflexive, symmetric and transitive |
| Metadata.WireText | src/ibc/types/metadata.rs:17-46 | The text of metadata is the object of its six strings under these keys, the encoding being "proto3json" or "proto3" |
| Ibc.AddressRule | src/ibc/types/metadata.rs:158-164 | An address has at most 128 bytes of UTF-8; an ASCII one is valid exactly when it has at most 128 characters, all digits or letters |
| CosmosMsg.OfTextToText | src/types/cosmos_msg.rs:20-109 | Every message, proposals nested to any depth, parses back from its text |
| CosmosMsg.MessageReads | src/types/cosmos_msg.rs:20-103 | The same on the JSON value, by induction on the nesting; the tag decides the variant |
| CosmosMsg.TransferMemoReads | src/types/cosmos_msg.rs:99-101 | The memo member is absent exactly when there is no memo |
| CosmosMsg.KindOfTypeUrl | src/types/cosmos_msg.rs:22-83 | The seven tags are told apart |
| CosmosMsg.TagDecides | src/types/cosmos_msg.rs:22-83 | Whatever is read has one `@type`, and its variant is the one of that literal tag |
| CosmosMsg.SendText | src/types/cosmos_msg.rs:25-33 | The JSON of a MsgSend, member by member with tag and keys written out, each coin a denom and a decimal string |
| CosmosMsg.DelegateText | src/types/cosmos_msg.rs:35-43 | The JSON of a MsgDelegate, the same way |
| CosmosMsg.VoteText | src/types/cosmos_msg.rs:45-53 | The JSON of a MsgVote, its id and option as numbers |
| CosmosMsg.SubmitProposalText | src/types/cosmos_msg.rs:55-63 | The JSON of a legacy proposal, around the JSON of its content |
| CosmosMsg.ProposalText | src/types/cosmos_msg.rs:65-71 | The JSON of a TextProposal |
| CosmosMsg.DepositText | src/types/cosmos_msg.rs:73-81 | The JSON of a MsgDeposit |
| CosmosMsg.TransferText | src/types/cosmos_msg.rs:83-117 | The JSON of a MsgTransfer, with its height and its memo if there is one |
| Framing.UnframeFrame | src/ibc/types/packet.rs:78-86 | Splitting a frame at its top-level commas gives back the list of JSON texts, the empty list too |
| Framing.FrameInjective | src/ibc/types/packet.rs:82-83 | Different lists of JSON texts have different frames |
| Framing.FrameShape | src/ibc/types/packet.rs:82-83 | The very text of a frame around none, one or two messages |
| Scanner.WellFormedIsBalanced | src/ibc/types/packet.rs:82-83 | A JSON text closes what it opens and has no top-level comma, by depth, strings and escapes |
| FrameMeaning.ParseFrame | src/ibc/types/packet.rs:53-86 | A JSON reader finds in the frame one object whose `messages` are the values of the texts, in order |
| Packet.MessagesOfFramed | src/ibc/types/packet.rs:78-86 | From framed messages the host reads exactly those messages |
| Packet.FromBinaryToBinary | src/ibc/types/packet.rs:22-51 | A packet comes back from its JSON bytes; the memo is omitted exactly when there is none |
| Packet.AckOfBinaryAckToBinary | src/ibc/types/packet.rs:120-128 | An acknowledgement, result or error, comes back from its bytes |
| Packet.AckTexts | src/ibc/types/packet.rs:120-128 | `{"result": base64}` reads as a result and `{"error": text}` as an error, for all bytes and texts |
| Packet.AckRefused | src/ibc/types/packet.rs:120-128 | An object with another key, or not just one member, is no acknowledgement |
| Packet.PacketText | src/ibc/types/packet.rs:22-41 | The JSON of a packet: `type`, `data` as an array of decimal numbers, and `memo` if there is one |
| Packet.BytesRead | src/ibc/types/packet.rs:36 | A byte array printed as decimal numbers reads back, whatever its length |
| Proto.DecodeEncodeCosmosTx | src/ibc/types/packet.rs:89-93 | Every list of Any messages comes back from its CosmosTx bytes, in order |
| Proto.DecodeEncodeFields | src/ibc/types/packet.rs:90-91 | Length-delimited records read back, field by field |
| Proto.DecodeEncodeVarint | src/ibc/types/packet.rs:91 | A varint reads back in front of any bytes |
| Proto.DecodeEncodeMsgSend | src/contract.rs:127-135 | A bank send comes back from its protobuf bytes, whatever strings it holds |
| Proto.MsgSendBytes | src/contract.rs:127-134 | The bytes of a bank send of one coin: key bytes 0x0A, 0x12 and 0x1A, lengths and UTF-8 |
| Proto.CosmosTxBytes | src/ibc/types/packet.rs:89-93 | The bytes of a transaction of one bank send, with its type URL |
| Proto.Varints | src/ibc/types/packet.rs:91 | The varints of the encoding guide |
| BankSend.JsonSendDelivered | src/contract.rs:137-150 | JSON encoding, end to end: the emitted bytes decode to one MsgSend from the stored address to `to_address` with `denom` and the number that the digits of `amount` denote; the JSON in the packet is written out, tag and keys included |
| BankSend.BankPacketDelivered | src/contract.rs:125-147 | In either encoding a packet is built exactly when the amount can be sent, and the host executes exactly that one send |
| BankSend.ProtoSendBytes | src/contract.rs:126-136 | Protobuf encoding: the packet data byte by byte, of type 1 and without memo |
| BankSend.BankSendExact | src/contract.rs:113-151 | A bank send goes through exactly when the admin asks, an account is set, the amount can be sent in its encoding and the deadline fits 64 bits; the host then executes exactly that send |
| BankSend.CustomSendExact | src/contract.rs:94-110 | A custom send goes through exactly when the admin asks, an account is set and the deadline fits 64 bits; the host reads the very messages and memo that were given |
| BankSend.CustomSendText | src/contract.rs:106-107 | The JSON of its packet: `type` 1, the given bytes as numbers, and the memo if there is one |
| BankSend.EncodingsAgreeExactly | src/contract.rs:125-147 | The two encodings carry the same transfer exactly for canonical numerals below 2^128 |
| BankSend.AcceptedAmounts | src/contract.rs:138 | The JSON branch accepts exactly an optional plus and digits denoting a number below 2^128 |
| BankSend.SameNumeralExactly | src/contract.rs:138-142 | Parsing and reprinting leaves exactly the canonical numerals below 2^128 as they are |
| BankSend.SendMeans | src/contract.rs:121-150 | What a successful bank send tells about its sender, its channel, its timeout and its bytes |
| Decimal.ParseU128Exact | src/contract.rs:138 | The overflow-checked parse returns n exactly when the digits denote n and n is below 2^128 |
| Decimal.ShowDenote | src/contract.rs:142 | A canonical numeral is the one printed for the number it denotes |
| Decimal.Numerals | src/contract.rs:138-142 | Base ten, highest digit first; what is parsed as an amount and what is not, on examples |
| JsonGrammar.Printed | src/types/cosmos_msg.rs:105-109 | The compact text of every kind of JSON value |
| JsonGrammar.TextAround | src/ibc/types/metadata.rs:131 | White space around a value is skipped, any other text behind it refused |
| JsonGrammar.UnitsRead | src/ibc/types/metadata.rs:131 | Escapes in hexadecimal of either case, and surrogate pairs, are read as RFC 8259 says |
| JsonGrammar.EscapesWritten | src/types/cosmos_msg.rs:105-109 | The escape of each character that needs one |
| Utf8.Examples | src/ibc/types/packet.rs:84 | Characters of one to four bytes, after RFC 3629 |
| Base64.Vectors | src/ibc/types/packet.rs:124 | Test vectors of RFC 4648 |
| Refusals.ValidationErrors | src/ibc/types/metadata.rs:105-126 | The error of metadata that does not suit the channel, in the order of the checks |
| Refusals.OpenInitErrors | src/ibc/handshake.rs:68-87 | The errors of OpenInit up to the parsing of the version |
| Refusals.OpenInitErrorsAfterParsing | src/ibc/handshake.rs:88-104 | Its errors after that, in their order |
| Refusals.EmptyVersionErrors | src/ibc/types/metadata.rs:75-102 | With an empty version and a stored one that does not parse: which error, with fresh metadata in it |
| Refusals.OpenAckErrors | src/ibc/handshake.rs:118-137 | The errors of OpenAck in their order |
| Refusals.CloseAndTimeoutOutcomes | src/ibc/handshake.rs:162-175 | When a close or a timeout fails, and the storage when it does not |
| Refusals.NeverReceived | src/ibc/handshake.rs:26-55 | OpenTry, OpenConfirm, CloseInit and packet receipt panic |
| Refusals.SendErrors | src/contract.rs:102-138 | The errors of the two sends in their order |
| Refusals.DeadlineOverflow | src/ibc/types/packet.rs:102-105 | A deadline of 2^64 or more is a panic |

## Left out

- The connection query behind an empty version (src/ibc/types/stargate.rs): its answer is an arbitrary optional string.
- Events, query entry points and schema generation: they change no state.
- Controllers.Controller.constructor: does not model the contract-version write and the validation of a named admin, which are library calls; the validated admin is taken as given.
- Controllers.Controller.PacketAck: reads acknowledgements strictly, by RFC 8259 and padded base64. The base64 decoder that Cargo.lock:35 pins is not part of this model; should it take text without padding, the contract counts such a `result`, which is unreadable here.
- Storage serialisation: the three items are objects; only an absent channel item is modelled.
- Controllers.Controller.TransactCallback: rollback is modelled by writing the saved values back, where the chain discards the transaction's writes.
- Light clients, proofs and relayer timing: the environment delivers any allowed step in any order. It does not ask whether a timeout has really elapsed, and lets packets be acknowledged out of order and on ended channels, which core IBC refuses on an ordered one; the results hold over these runs too.
- Core IBC's steps for calls that always panic (OpenTry, OpenConfirm, CloseInit, packet receipt): they never commit, so they are calls of `ContractRuns` but not events of `World`.
- Core IBC passes its own record of a channel to the contract, from OpenAck on with the counterparty's answer as its version; only the version that comes with OpenAck and the answers are free in `World`. Middleware that wraps versions is not modelled. `ContractRuns` has no such restriction.
- The Unicode table behind `is_alphanumeric`: an arbitrary table that is right on ASCII.
- Parser specifics of the JSON library beyond RFC 8259 (other spellings of an enum value, limits of nesting, texts of parse errors); every parse error of an acknowledgement or a missing item is the one `Std` error.
- The reader of printed messages follows the derive that the source enables for its own tests (src/types/cosmos_msg.rs:21); the contract itself only prints them.
- Proto.DecodeEncodeVarint: varints and lengths are unbounded naturals, so no 64-bit overflow of a length is modelled; only length-delimited fields are decoded, the only kind these messages have.
- That only one real channel is ever open, or that sends happen only while the channel is open: OpenAck does not look for an open channel, and sends look at the account info only.
