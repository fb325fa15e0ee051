// The recursive message enum tagged by `@type` (src/types/cosmos_msg.rs) and its JSON text.

module CosmosMsg {
  import opened Prelude
  import opened Json
  import opened JsonRoundTrip
  import opened Fields
  import Decimal

  /** `cosmwasm_std::Coin`; the amount is a decimal string in JSON. */
  datatype Coin = Coin(denom: string, amount: uint128)

  datatype Height = Height(revisionNumber: uint64, revisionHeight: uint64)

  datatype CosmosMessage =
    | MsgSend(fromAddress: string, toAddress: string, amount: seq<Coin>)
    | MsgDelegate(delegatorAddress: string, validatorAddress: string, delegation: Coin)
    | MsgVote(voter: string, voteProposalId: uint64, option: uint32)
    | MsgSubmitProposalLegacy(content: CosmosMessage, initialDeposit: seq<Coin>, proposer: string)
    | TextProposal(title: string, description: string)
    | MsgDeposit(depositProposalId: uint64, depositor: string, deposit: seq<Coin>)
    | MsgTransfer(
        sourcePort: string, sourceChannel: string, token: Coin, sender: string, receiver: string,
        timeoutHeight: Height, timeoutTimestamp: uint64, memo: Option<string>)

  // ----- Printing -----

  function CoinValue(c: Coin): JsonValue {
    Object([Member("denom", String(c.denom)), Member("amount", String(Decimal.Show(c.amount)))])
  }

  function CoinsItems(cs: seq<Coin>): seq<JsonValue> {
    if cs == [] then [] else [CoinValue(cs[0])] + CoinsItems(cs[1..])
  }

  function HeightValue(h: Height): JsonValue {
    Object([Member("revision_number", NatValue(h.revisionNumber)),
            Member("revision_height", NatValue(h.revisionHeight))])
  }

  datatype MessageKind = Send | Delegate | Vote | SubmitProposal | Text | Deposit | Transfer

  function Kind(m: CosmosMessage): MessageKind {
    match m
    case MsgSend(_, _, _) => Send
    case MsgDelegate(_, _, _) => Delegate
    case MsgVote(_, _, _) => Vote
    case MsgSubmitProposalLegacy(_, _, _) => SubmitProposal
    case TextProposal(_, _) => Text
    case MsgDeposit(_, _, _) => Deposit
    case MsgTransfer(_, _, _, _, _, _, _, _) => Transfer
  }

  function TypeUrl(k: MessageKind): string {
    match k
    case Send => "/cosmos.bank.v1beta1.MsgSend"
    case Delegate => "/cosmos.staking.v1beta1.MsgDelegate"
    case Vote => "/cosmos.gov.v1beta1.MsgVote"
    case SubmitProposal => "/cosmos.gov.v1beta1.MsgSubmitProposal"
    case Text => "/cosmos.gov.v1beta1.TextProposal"
    case Deposit => "/cosmos.gov.v1beta1.MsgDeposit"
    case Transfer => "/ibc.applications.transfer.v1.MsgTransfer"
  }

  /** The kind a tag names. */
  function KindOfUrl(url: string): (k: Option<MessageKind>)
    ensures k.Some? ==> TypeUrl(k.value) == url
  {
    if url == TypeUrl(Send) then Some(Send)
    else if url == TypeUrl(Delegate) then Some(Delegate)
    else if url == TypeUrl(Vote) then Some(Vote)
    else if url == TypeUrl(SubmitProposal) then Some(SubmitProposal)
    else if url == TypeUrl(Text) then Some(Text)
    else if url == TypeUrl(Deposit) then Some(Deposit)
    else if url == TypeUrl(Transfer) then Some(Transfer)
    else None
  }

  function TagMember(k: MessageKind): Member {
    Member("@type", String(TypeUrl(k)))
  }

  /** All members, the tag first; `content` is the value of the message inside a proposal. */
  function Members(m: CosmosMessage, content: JsonValue): seq<Member> {
    var tag := TagMember(Kind(m));
    match m
    case MsgSend(f, t, amount) =>
      [tag, Member("from_address", String(f)), Member("to_address", String(t)),
       Member("amount", Array(CoinsItems(amount)))]
    case MsgDelegate(d, v, amount) =>
      [tag, Member("delegator_address", String(d)), Member("validator_address", String(v)),
       Member("amount", CoinValue(amount))]
    case MsgVote(voter, id, option) =>
      [tag, Member("voter", String(voter)), Member("proposal_id", NatValue(id)),
       Member("option", NatValue(option))]
    case MsgSubmitProposalLegacy(_, deposit, proposer) =>
      [tag, Member("content", content), Member("initial_deposit", Array(CoinsItems(deposit))),
       Member("proposer", String(proposer))]
    case TextProposal(title, description) =>
      [tag, Member("title", String(title)), Member("description", String(description))]
    case MsgDeposit(id, depositor, amount) =>
      [tag, Member("proposal_id", NatValue(id)), Member("depositor", String(depositor)),
       Member("amount", Array(CoinsItems(amount)))]
    case MsgTransfer(port, channel, token, sender, receiver, height, timestamp, memo) =>
      [tag, Member("source_port", String(port)), Member("source_channel", String(channel)),
       Member("token", CoinValue(token)), Member("sender", String(sender)),
       Member("receiver", String(receiver)), Member("timeout_height", HeightValue(height)),
       Member("timeout_timestamp", NatValue(timestamp))] + OptionalMember("memo", memo)
  }

  function MessageValue(m: CosmosMessage): JsonValue {
    Object(Members(m, if m.MsgSubmitProposalLegacy? then MessageValue(m.content) else Null))
  }

  /** `ExampleCosmosMessages::to_string` */
  function ToText(m: CosmosMessage): string {
    Print(MessageValue(m))
  }

  // ----- Reading -----

  function AsCoin(v: JsonValue): Option<Coin> {
    if !v.Object? then None
    else
      var denom :- RequiredString(v.members, "denom");
      var text :- RequiredString(v.members, "amount");
      var amount :- Decimal.ParseU128(text);
      Some(Coin(denom, amount))
  }

  function AsCoins(items: seq<JsonValue>): Option<seq<Coin>> {
    if items == [] then Some([])
    else
      var c :- AsCoin(items[0]);
      var rest :- AsCoins(items[1..]);
      Some([c] + rest)
  }

  function RequiredNat(ms: seq<Member>, key: string, bound: nat): (r: Option<nat>)
    ensures r.Some? ==> r.value < bound
  {
    var v :- Required(ms, key);
    AsNat(v, bound)
  }

  function RequiredCoin(ms: seq<Member>, key: string): Option<Coin> {
    var v :- Required(ms, key);
    AsCoin(v)
  }

  function RequiredCoins(ms: seq<Member>, key: string): Option<seq<Coin>> {
    var v :- Required(ms, key);
    if v.Array? then AsCoins(v.items) else None
  }

  function RequiredHeight(ms: seq<Member>, key: string): Option<Height> {
    var v :- Required(ms, key);
    if !v.Object? then None
    else
      var number :- RequiredNat(v.members, "revision_number", TWO_TO_THE_64);
      var height :- RequiredNat(v.members, "revision_height", TWO_TO_THE_64);
      Some(Height(number, height))
  }

  /** The `content` of a proposal: a value nested inside the object. */
  function ContentOf(ms: seq<Member>): (r: Option<JsonValue>)
    ensures r.Some? ==> exists i | 0 <= i < |ms| :: ms[i] == Member("content", r.value)
  {
    var v :- Required(ms, "content");
    ValuesCount(ms, "content", v);
    Some(v)
  }

  /** The tag decides the variant; the tag and the fields may come in any order. */
  function AsMessage(v: JsonValue): Option<CosmosMessage>
    decreases v
  {
    if !v.Object? then None
    else
      var ms := v.members;
      var tag :- RequiredString(ms, "@type");
      var kind :- KindOfUrl(tag);
      if kind == SubmitProposal then
        var inner :- ContentOf(ms);
        assert exists i | 0 <= i < |ms| :: ms[i].value == inner;
        var content :- AsMessage(inner);
        var deposit :- RequiredCoins(ms, "initial_deposit");
        var proposer :- RequiredString(ms, "proposer");
        Some(MsgSubmitProposalLegacy(content, deposit, proposer))
      else AsFlatMessage(kind, ms)
  }

  function AsFlatMessage(kind: MessageKind, ms: seq<Member>): Option<CosmosMessage>
    requires kind != SubmitProposal
  {
    match kind
    case Send =>
      var sender :- RequiredString(ms, "from_address");
      var recipient :- RequiredString(ms, "to_address");
      var amount :- RequiredCoins(ms, "amount");
      Some(MsgSend(sender, recipient, amount))
    case Delegate =>
      var delegator :- RequiredString(ms, "delegator_address");
      var validator :- RequiredString(ms, "validator_address");
      var amount :- RequiredCoin(ms, "amount");
      Some(MsgDelegate(delegator, validator, amount))
    case Vote =>
      var voter :- RequiredString(ms, "voter");
      var id :- RequiredNat(ms, "proposal_id", TWO_TO_THE_64);
      var option :- RequiredNat(ms, "option", TWO_TO_THE_32);
      Some(MsgVote(voter, id, option))
    case Text =>
      var title :- RequiredString(ms, "title");
      var description :- RequiredString(ms, "description");
      Some(TextProposal(title, description))
    case Deposit =>
      var id :- RequiredNat(ms, "proposal_id", TWO_TO_THE_64);
      var depositor :- RequiredString(ms, "depositor");
      var amount :- RequiredCoins(ms, "amount");
      Some(MsgDeposit(id, depositor, amount))
    case Transfer => AsTransfer(ms)
  }

  function AsTransfer(ms: seq<Member>): Option<CosmosMessage> {
    var port :- RequiredString(ms, "source_port");
    var channel :- RequiredString(ms, "source_channel");
    var token :- RequiredCoin(ms, "token");
    var sender :- RequiredString(ms, "sender");
    var receiver :- RequiredString(ms, "receiver");
    var height :- RequiredHeight(ms, "timeout_height");
    var timestamp :- RequiredNat(ms, "timeout_timestamp", TWO_TO_THE_64);
    var memo :- OptionalString(ms, "memo");
    Some(MsgTransfer(port, channel, token, sender, receiver, height, timestamp, memo))
  }

  /** Reads a message from its text. */
  function OfText(s: string): Option<CosmosMessage> {
    var v :- Parse(s);
    AsMessage(v)
  }

  // ----- Round trip -----

  lemma CoinReads(c: Coin)
    ensures Printable(CoinValue(c)) && AsCoin(CoinValue(c)) == Some(c)
  {
    var ms := CoinValue(c).members;
    ValuesAt(ms, 0);
    ValuesAt(ms, 1);
    Decimal.ParseU128OfShow(c.amount);
  }

  lemma {:induction false} CoinsRead(cs: seq<Coin>)
    ensures forall i | 0 <= i < |CoinsItems(cs)| :: Printable(CoinsItems(cs)[i])
    ensures AsCoins(CoinsItems(cs)) == Some(cs)
  {
    if cs != [] {
      CoinReads(cs[0]);
      CoinsRead(cs[1..]);
      assert cs == [cs[0]] + cs[1..];
    }
  }

  lemma HeightReads(h: Height)
    ensures Printable(HeightValue(h))
    ensures Values(HeightValue(h).members, "revision_number") == [NatValue(h.revisionNumber)]
    ensures Values(HeightValue(h).members, "revision_height") == [NatValue(h.revisionHeight)]
    ensures AsNat(NatValue(h.revisionNumber), TWO_TO_THE_64) == Some(h.revisionNumber)
    ensures AsNat(NatValue(h.revisionHeight), TWO_TO_THE_64) == Some(h.revisionHeight)
  {
    var ms := HeightValue(h).members;
    assert "revision_number"[9] == 'n' && "revision_height"[9] == 'h';
    ValuesAt(ms, 0);
    ValuesAt(ms, 1);
    NatValueReads(h.revisionNumber, TWO_TO_THE_64);
    NatValueReads(h.revisionHeight, TWO_TO_THE_64);
  }

  lemma KindOfTypeUrl(k: MessageKind)
    ensures KindOfUrl(TypeUrl(k)) == Some(k)
  {
    assert |TypeUrl(Send)| == 28 && |TypeUrl(Delegate)| == 35 && |TypeUrl(Vote)| == 27;
    assert |TypeUrl(SubmitProposal)| == 37;
    assert |TypeUrl(Text)| == 32 && |TypeUrl(Deposit)| == 30 && |TypeUrl(Transfer)| == 41;
  }

  lemma MembersDistinct(m: CosmosMessage, content: JsonValue)
    requires !m.MsgTransfer?
    ensures DistinctKeys(Members(m, content))
  {
    assert "title"[0] == 't' && "voter"[0] == 'v' && "@type"[0] == '@';
    assert "delegator_address"[0] == 'd' && "validator_address"[0] == 'v';
  }

  lemma TransferDistinct(m: CosmosMessage, content: JsonValue)
    requires m.MsgTransfer?
    ensures DistinctKeys(Members(m, content))
  {
    var ms := Members(m, content);
    assert |ms| == if m.memo.Some? then 9 else 8;
    assert |ms[0].key| == 5 && |ms[1].key| == 11 && |ms[2].key| == 14 && |ms[3].key| == 5;
    assert |ms[4].key| == 6 && |ms[5].key| == 8 && |ms[6].key| == 14 && |ms[7].key| == 17;
    assert ms[0].key[0] == '@' && ms[3].key[0] == 't' && ms[2].key[0] == 's' && ms[6].key[0] == 't';
    assert m.memo.Some? ==> |ms[8].key| == 4;
  }

  /** Each member of a message is found under its key. */
  lemma MemberFound(m: CosmosMessage, content: JsonValue, i: nat)
    requires i < |Members(m, content)|
    ensures var ms := Members(m, content); Required(ms, ms[i].key) == Some(ms[i].value)
  {
    if m.MsgTransfer? {
      TransferDistinct(m, content);
    } else {
      MembersDistinct(m, content);
    }
    ValuesAt(Members(m, content), i);
  }

  predicate AllPrintable(ms: seq<Member>) {
    forall i | 0 <= i < |ms| :: Printable(ms[i].value)
  }

  lemma SendReads(m: CosmosMessage)
    requires m.MsgSend?
    ensures AllPrintable(Members(m, Null)) && AsFlatMessage(Send, Members(m, Null)) == Some(m)
  {
    MemberFound(m, Null, 1);
    MemberFound(m, Null, 2);
    MemberFound(m, Null, 3);
    CoinsRead(m.amount);
  }

  lemma DelegateReads(m: CosmosMessage)
    requires m.MsgDelegate?
    ensures AllPrintable(Members(m, Null)) && AsFlatMessage(Delegate, Members(m, Null)) == Some(m)
  {
    MemberFound(m, Null, 1);
    MemberFound(m, Null, 2);
    MemberFound(m, Null, 3);
    CoinReads(m.delegation);
  }

  lemma VoteReads(m: CosmosMessage)
    requires m.MsgVote?
    ensures AllPrintable(Members(m, Null)) && AsFlatMessage(Vote, Members(m, Null)) == Some(m)
  {
    MemberFound(m, Null, 1);
    MemberFound(m, Null, 2);
    MemberFound(m, Null, 3);
    NatValueReads(m.voteProposalId, TWO_TO_THE_64);
    NatValueReads(m.option, TWO_TO_THE_32);
  }

  lemma TextReads(m: CosmosMessage)
    requires m.TextProposal?
    ensures AllPrintable(Members(m, Null)) && AsFlatMessage(Text, Members(m, Null)) == Some(m)
  {
    MemberFound(m, Null, 1);
    MemberFound(m, Null, 2);
  }

  lemma DepositValuesRead(m: CosmosMessage)
    requires m.MsgDeposit?
    ensures var ms := Members(m, Null);
            && RequiredNat(ms, "proposal_id", TWO_TO_THE_64) == Some(m.depositProposalId)
            && RequiredCoins(ms, "amount") == Some(m.deposit)
  {
    MemberFound(m, Null, 1);
    MemberFound(m, Null, 3);
    NatValueReads(m.depositProposalId, TWO_TO_THE_64);
    CoinsRead(m.deposit);
  }

  lemma DepositPrintable(m: CosmosMessage)
    requires m.MsgDeposit?
    ensures AllPrintable(Members(m, Null))
  {
    NatValueReads(m.depositProposalId, TWO_TO_THE_64);
    CoinsRead(m.deposit);
  }

  lemma DepositReads(m: CosmosMessage)
    requires m.MsgDeposit?
    ensures AllPrintable(Members(m, Null)) && AsFlatMessage(Deposit, Members(m, Null)) == Some(m)
  {
    DepositPrintable(m);
    DepositValuesRead(m);
    MemberFound(m, Null, 2);
  }

  lemma TransferStringsRead(m: CosmosMessage)
    requires m.MsgTransfer?
    ensures var ms := Members(m, Null);
            && RequiredString(ms, "source_port") == Some(m.sourcePort)
            && RequiredString(ms, "source_channel") == Some(m.sourceChannel)
            && RequiredString(ms, "sender") == Some(m.sender)
            && RequiredString(ms, "receiver") == Some(m.receiver)
  {
    MemberFound(m, Null, 1);
    MemberFound(m, Null, 2);
    MemberFound(m, Null, 4);
    MemberFound(m, Null, 5);
  }

  lemma TransferValuesRead(m: CosmosMessage)
    requires m.MsgTransfer?
    ensures var ms := Members(m, Null);
            && RequiredCoin(ms, "token") == Some(m.token)
            && RequiredNat(ms, "timeout_timestamp", TWO_TO_THE_64) == Some(m.timeoutTimestamp)
  {
    MemberFound(m, Null, 3);
    MemberFound(m, Null, 7);
    CoinReads(m.token);
    NatValueReads(m.timeoutTimestamp, TWO_TO_THE_64);
  }

  lemma TransferHeightReads(m: CosmosMessage)
    requires m.MsgTransfer?
    ensures RequiredHeight(Members(m, Null), "timeout_height") == Some(m.timeoutHeight)
  {
    MemberFound(m, Null, 6);
    HeightReads(m.timeoutHeight);
  }

  lemma TransferPrintable(m: CosmosMessage)
    requires m.MsgTransfer?
    ensures AllPrintable(Members(m, Null))
  {
    CoinReads(m.token);
    HeightReads(m.timeoutHeight);
    NatValueReads(m.timeoutTimestamp, TWO_TO_THE_64);
  }

  lemma TransferReads(m: CosmosMessage)
    requires m.MsgTransfer?
    ensures AllPrintable(Members(m, Null)) && AsTransfer(Members(m, Null)) == Some(m)
  {
    TransferPrintable(m);
    TransferStringsRead(m);
    TransferValuesRead(m);
    TransferHeightReads(m);
    TransferMemoReads(m);
  }

  /** The memo is absent exactly when there is none. */
  lemma TransferMemoReads(m: CosmosMessage)
    requires m.MsgTransfer?
    ensures Values(Members(m, Null), "memo") == [] <==> m.memo.None?
    ensures OptionalString(Members(m, Null), "memo") == Some(m.memo)
  {
    if m.memo.Some? {
      MemberFound(m, Null, 8);
    } else {
      var ms := Members(m, Null);
      assert forall i | 0 <= i < |ms| :: |ms[i].key| != 4;
      ValuesAbsent(ms, "memo");
    }
  }

  lemma ProposalReads(m: CosmosMessage, content: JsonValue)
    requires m.MsgSubmitProposalLegacy? && AsMessage(content) == Some(m.content)
    requires Printable(content)
    ensures AllPrintable(Members(m, content))
    ensures AsMessage(Object(Members(m, content))) == Some(m)
  {
    KindOfTypeUrl(SubmitProposal);
    MemberFound(m, content, 0);
    MemberFound(m, content, 1);
    MemberFound(m, content, 2);
    MemberFound(m, content, 3);
    CoinsRead(m.initialDeposit);
  }

  lemma FlatReads(m: CosmosMessage)
    requires !m.MsgSubmitProposalLegacy?
    ensures AllPrintable(Members(m, Null))
    ensures AsFlatMessage(Kind(m), Members(m, Null)) == Some(m)
  {
    match m
    case MsgSend(_, _, _) => SendReads(m);
    case MsgDelegate(_, _, _) => DelegateReads(m);
    case MsgVote(_, _, _) => VoteReads(m);
    case TextProposal(_, _) => TextReads(m);
    case MsgDeposit(_, _, _) => DepositReads(m);
    case MsgTransfer(_, _, _, _, _, _, _, _) => TransferReads(m);
  }

  lemma {:induction false} MessageReads(m: CosmosMessage)
    ensures Printable(MessageValue(m)) && AsMessage(MessageValue(m)) == Some(m)
  {
    if m.MsgSubmitProposalLegacy? {
      MessageReads(m.content);
      ProposalReads(m, MessageValue(m.content));
    } else {
      KindOfTypeUrl(Kind(m));
      MemberFound(m, Null, 0);
      FlatReads(m);
    }
  }

  /** Parsing a printed message returns it, however deeply proposals are nested. */
  lemma OfTextToText(m: CosmosMessage)
    ensures OfText(ToText(m)) == Some(m)
  {
    MessageReads(m);
    ParsePrint(MessageValue(m));
  }

  // ----- The tag -----

  lemma FlatKind(kind: MessageKind, ms: seq<Member>)
    requires kind != SubmitProposal && AsFlatMessage(kind, ms).Some?
    ensures Kind(AsFlatMessage(kind, ms).value) == kind
  {
  }

  lemma TagOfKind(ms: seq<Member>)
    requires AsMessage(Object(ms)).Some?
    ensures Values(ms, "@type") == [String(TypeUrl(Kind(AsMessage(Object(ms)).value)))]
  {
    var tag := RequiredString(ms, "@type").value;
    var kind := KindOfUrl(tag).value;
    assert Values(ms, "@type") == [String(tag)] && TypeUrl(kind) == tag;
    if kind != SubmitProposal {
      FlatKind(kind, ms);
      assert AsMessage(Object(ms)) == AsFlatMessage(kind, ms);
    }
  }

  /** Whatever message is read, its variant is the one its tag names, and the tag occurs once. */
  lemma TagDecides(ms: seq<Member>)
    requires AsMessage(Object(ms)).Some?
    ensures var m := AsMessage(Object(ms)).value;
            exists url :: Values(ms, "@type") == [String(url)]
              && (m.MsgSend? <==> url == "/cosmos.bank.v1beta1.MsgSend")
              && (m.MsgDelegate? <==> url == "/cosmos.staking.v1beta1.MsgDelegate")
              && (m.MsgVote? <==> url == "/cosmos.gov.v1beta1.MsgVote")
              && (m.MsgSubmitProposalLegacy? <==> url == "/cosmos.gov.v1beta1.MsgSubmitProposal")
              && (m.TextProposal? <==> url == "/cosmos.gov.v1beta1.TextProposal")
              && (m.MsgDeposit? <==> url == "/cosmos.gov.v1beta1.MsgDeposit")
              && (m.MsgTransfer? <==> url == "/ibc.applications.transfer.v1.MsgTransfer")
  {
    TagOfKind(ms);
    var k := Kind(AsMessage(Object(ms)).value);
    TypeUrls(k);
    assert Values(ms, "@type") == [String(TypeUrl(k))];
  }

  lemma TypeUrls(k: MessageKind)
    ensures k == Send <==> TypeUrl(k) == "/cosmos.bank.v1beta1.MsgSend"
    ensures k == Delegate <==> TypeUrl(k) == "/cosmos.staking.v1beta1.MsgDelegate"
    ensures k == Vote <==> TypeUrl(k) == "/cosmos.gov.v1beta1.MsgVote"
    ensures k == SubmitProposal <==> TypeUrl(k) == "/cosmos.gov.v1beta1.MsgSubmitProposal"
    ensures k == Text <==> TypeUrl(k) == "/cosmos.gov.v1beta1.TextProposal"
    ensures k == Deposit <==> TypeUrl(k) == "/cosmos.gov.v1beta1.MsgDeposit"
    ensures k == Transfer <==> TypeUrl(k) == "/ibc.applications.transfer.v1.MsgTransfer"
  {
    KindOfTypeUrl(k);
    KindOfTypeUrl(Send);
    KindOfTypeUrl(Delegate);
    KindOfTypeUrl(Vote);
    KindOfTypeUrl(SubmitProposal);
    KindOfTypeUrl(Text);
    KindOfTypeUrl(Deposit);
    KindOfTypeUrl(Transfer);
  }

  // ----- The texts themselves -----

  /** The objects of a list of coins. */
  lemma {:induction false} CoinObjects(cs: seq<Coin>)
    ensures |CoinsItems(cs)| == |cs|
    ensures forall i | 0 <= i < |cs| ::
              CoinsItems(cs)[i] == Object([Member("denom", String(cs[i].denom)),
                                           Member("amount", String(Decimal.Show(cs[i].amount)))])
  {
    if cs != [] {
      CoinObjects(cs[1..]);
    }
  }

  /** A message is printed as the object of its members. */
  lemma TextObject(m: CosmosMessage)
    ensures Parse(ToText(m)) == Some(MessageValue(m))
  {
    MessageReads(m);
    ParsePrint(MessageValue(m));
  }

  /** The one JSON text of a list of coins: objects of a denom and an amount, a decimal string. */
  ghost predicate AreCoins(items: seq<JsonValue>, cs: seq<Coin>) {
    && |items| == |cs|
    && forall i | 0 <= i < |cs| ::
         items[i] == Object([Member("denom", String(cs[i].denom)),
                             Member("amount", String(Decimal.Show(cs[i].amount)))])
  }

  lemma SendText(sender: string, recipient: string, amount: seq<Coin>) returns (coins: seq<JsonValue>)
    ensures AreCoins(coins, amount)
    ensures Parse(ToText(MsgSend(sender, recipient, amount)))
         == Some(Object([Member("@type", String("/cosmos.bank.v1beta1.MsgSend")),
                         Member("from_address", String(sender)),
                         Member("to_address", String(recipient)),
                         Member("amount", Array(coins))]))
  {
    coins := CoinsItems(amount);
    CoinObjects(amount);
    TextObject(MsgSend(sender, recipient, amount));
  }

  lemma DelegateText(delegator: string, validator: string, c: Coin)
    ensures Parse(ToText(MsgDelegate(delegator, validator, c)))
         == Some(Object([Member("@type", String("/cosmos.staking.v1beta1.MsgDelegate")),
                         Member("delegator_address", String(delegator)),
                         Member("validator_address", String(validator)),
                         Member("amount", Object([Member("denom", String(c.denom)),
                                                  Member("amount", String(Decimal.Show(c.amount)))]))]))
  {
    TextObject(MsgDelegate(delegator, validator, c));
  }

  lemma VoteText(voter: string, id: uint64, option: uint32)
    ensures Parse(ToText(MsgVote(voter, id, option)))
         == Some(Object([Member("@type", String("/cosmos.gov.v1beta1.MsgVote")),
                         Member("voter", String(voter)),
                         Member("proposal_id", Number(Decimal.Show(id))),
                         Member("option", Number(Decimal.Show(option)))]))
  {
    TextObject(MsgVote(voter, id, option));
  }

  /** A legacy proposal holds the object of its content. */
  lemma SubmitProposalText(content: CosmosMessage, deposit: seq<Coin>, proposer: string)
    returns (inner: JsonValue, coins: seq<JsonValue>)
    ensures Parse(ToText(content)) == Some(inner) && AreCoins(coins, deposit)
    ensures Parse(ToText(MsgSubmitProposalLegacy(content, deposit, proposer)))
         == Some(Object([Member("@type", String("/cosmos.gov.v1beta1.MsgSubmitProposal")),
                         Member("content", inner),
                         Member("initial_deposit", Array(coins)),
                         Member("proposer", String(proposer))]))
  {
    inner, coins := MessageValue(content), CoinsItems(deposit);
    TextObject(content);
    CoinObjects(deposit);
    TextObject(MsgSubmitProposalLegacy(content, deposit, proposer));
  }

  lemma ProposalText(title: string, description: string)
    ensures Parse(ToText(TextProposal(title, description)))
         == Some(Object([Member("@type", String("/cosmos.gov.v1beta1.TextProposal")),
                         Member("title", String(title)),
                         Member("description", String(description))]))
  {
    TextObject(TextProposal(title, description));
  }

  lemma DepositText(id: uint64, depositor: string, amount: seq<Coin>) returns (coins: seq<JsonValue>)
    ensures AreCoins(coins, amount)
    ensures Parse(ToText(MsgDeposit(id, depositor, amount)))
         == Some(Object([Member("@type", String("/cosmos.gov.v1beta1.MsgDeposit")),
                         Member("proposal_id", Number(Decimal.Show(id))),
                         Member("depositor", String(depositor)),
                         Member("amount", Array(coins))]))
  {
    coins := CoinsItems(amount);
    CoinObjects(amount);
    TextObject(MsgDeposit(id, depositor, amount));
  }

  lemma TransferText(
    port: string, channel: string, c: Coin, sender: string, receiver: string, height: Height, timestamp: uint64,
    memo: Option<string>)
    ensures Parse(ToText(MsgTransfer(port, channel, c, sender, receiver, height, timestamp, memo)))
         == Some(Object([Member("@type", String("/ibc.applications.transfer.v1.MsgTransfer")),
                         Member("source_port", String(port)),
                         Member("source_channel", String(channel)),
                         Member("token", Object([Member("denom", String(c.denom)),
                                                 Member("amount", String(Decimal.Show(c.amount)))])),
                         Member("sender", String(sender)),
                         Member("receiver", String(receiver)),
                         Member("timeout_height", Object([
                           Member("revision_number", Number(Decimal.Show(height.revisionNumber))),
                           Member("revision_height", Number(Decimal.Show(height.revisionHeight)))])),
                         Member("timeout_timestamp", Number(Decimal.Show(timestamp)))]
                        + (match memo case None => [] case Some(text) => [Member("memo", String(text))])))
  {
    TextObject(MsgTransfer(port, channel, c, sender, receiver, height, timestamp, memo));
  }
}
