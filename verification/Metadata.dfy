// The metadata negotiated in the channel handshake (src/ibc/types/metadata.rs): its JSON text
// and the comparison that ignores the account address.

module Metadata {
  import opened Prelude
  import opened Json
  import opened JsonRoundTrip
  import opened Fields
  import opened Outcomes
  import opened Ibc

  datatype TxEncoding = Protobuf | Proto3Json

  datatype IcaMetadata = IcaMetadata(
    version: string,
    controllerConnectionId: string,
    hostConnectionId: string,
    address: string,
    encoding: TxEncoding,
    txType: string)

  function EncodingName(e: TxEncoding): string {
    match e
    case Protobuf => "proto3"
    case Proto3Json => "proto3json"
  }

  function EncodingOfName(s: string): Option<TxEncoding> {
    if s == "proto3" then Some(Protobuf)
    else if s == "proto3json" then Some(Proto3Json)
    else None
  }

  const METADATA_KEYS :=
    {"version", "controller_connection_id", "host_connection_id", "address", "encoding", "tx_type"}

  function Members(m: IcaMetadata): seq<Member> {
    [ Member("version", String(m.version)),
      Member("controller_connection_id", String(m.controllerConnectionId)),
      Member("host_connection_id", String(m.hostConnectionId)),
      Member("address", String(m.address)),
      Member("encoding", String(EncodingName(m.encoding))),
      Member("tx_type", String(m.txType)) ]
  }

  function OfMembers(ms: seq<Member>): Option<IcaMetadata> {
    if !OnlyKeys(ms, METADATA_KEYS) then None
    else
      var version :- RequiredString(ms, "version");
      var controller :- RequiredString(ms, "controller_connection_id");
      var host :- RequiredString(ms, "host_connection_id");
      var address :- RequiredString(ms, "address");
      var name :- RequiredString(ms, "encoding");
      var encoding :- EncodingOfName(name);
      var txType :- RequiredString(ms, "tx_type");
      Some(IcaMetadata(version, controller, host, address, encoding, txType))
  }

  /** `IcaMetadata::to_string` */
  function ToText(m: IcaMetadata): string {
    Print(Object(Members(m)))
  }

  /** `serde_json_wasm::from_str::<IcaMetadata>` */
  function OfText(s: string): Option<IcaMetadata> {
    var v :- Parse(s);
    if v.Object? then OfMembers(v.members) else None
  }

  /** `is_previous_version_equal`: all fields of the previous version except the address. */
  predicate IsPreviousVersionEqual(m: IcaMetadata, previousVersion: string) {
    match OfText(previousVersion)
    case Some(previous) =>
      && m.version == previous.version
      && m.controllerConnectionId == previous.controllerConnectionId
      && m.hostConnectionId == previous.hostConnectionId
      && m.encoding == previous.encoding
      && m.txType == previous.txType
    case None => false
  }

  /** `IcaMetadata::validate` */
  function Validate(m: IcaMetadata, channel: IbcChannel): Outcome<()> {
    if m.version != ICA_VERSION then Err(InvalidVersion(ICA_VERSION, m.version))
    else if m.controllerConnectionId != channel.connectionId then Err(InvalidConnection)
    else if m.address != "" && !IsIcaAddress(m.address) then Err(InvalidAddress)
    else if m.txType != SDK_MULTI_MSG then Err(UnsupportedTxType(m.txType))
    else Ok(())
  }

  /**
   * `IcaMetadata::from_channel`: the metadata of the stored channel if there is one and it parses,
   * else fresh metadata with what the connection query answered, or nothing.
   */
  function FromChannel(stored: Option<IbcChannel>, channel: IbcChannel, queried: Option<string>): IcaMetadata {
    match (match stored case Some(c) => OfText(c.version) case None => None)
    case Some(previous) => previous
    case None =>
      var host := match queried case Some(id) => id case None => "";
      IcaMetadata(ICA_VERSION, channel.connectionId, host, "", Proto3Json, SDK_MULTI_MSG)
  }

  /** What a host may be offered on `channel`. */
  predicate Acceptable(m: IcaMetadata, channel: IbcChannel) {
    && m.version == "ics27-1"
    && m.txType == "sdk_multi_msg"
    && m.controllerConnectionId == channel.connectionId
    && (m.address == "" || IsIcaAddress(m.address))
  }

  /** The metadata as the comparison sees it. */
  function WithoutAddress(m: IcaMetadata): IcaMetadata {
    m.(address := "")
  }

  lemma MembersDistinct(m: IcaMetadata)
    ensures DistinctKeys(Members(m)) && OnlyKeys(Members(m), METADATA_KEYS)
  {
    assert "version"[0] == 'v' && "address"[0] == 'a' && "tx_type"[0] == 't';
  }

  lemma MembersValues(m: IcaMetadata)
    ensures forall i | 0 <= i < 6 :: Values(Members(m), Members(m)[i].key) == [Members(m)[i].value]
    ensures forall key | key !in METADATA_KEYS :: Values(Members(m), key) == []
  {
    MembersDistinct(m);
    forall i | 0 <= i < 6 ensures Values(Members(m), Members(m)[i].key) == [Members(m)[i].value] {
      ValuesAt(Members(m), i);
    }
    forall key | key !in METADATA_KEYS ensures Values(Members(m), key) == [] {
      ValuesAbsent(Members(m), key);
    }
  }

  lemma EncodingNames(e: TxEncoding)
    ensures EncodingOfName(EncodingName(e)) == Some(e)
  {
  }

  /** Exactly the permutations of its six members denote a metadata value. */
  lemma OfMembersExact(ms: seq<Member>, m: IcaMetadata)
    ensures OfMembers(ms) == Some(m) <==> multiset(ms) == multiset(Members(m))
  {
    MembersValues(m);
    if OfMembers(ms) == Some(m) {
      forall key ensures Values(ms, key) == Values(Members(m), key) {
        if key !in METADATA_KEYS {
          ValuesAbsent(ms, key);
        } else {
          SameValue(ms, m, key);
        }
      }
      PermutedValues(ms, Members(m));
    }
    if multiset(ms) == multiset(Members(m)) {
      MembersDistinct(m);
      forall i | 0 <= i < |ms| ensures ms[i].key in METADATA_KEYS {
        assert ms[i] in multiset(Members(m));
      }
      forall i | 0 <= i < 6
        ensures Values(ms, Members(m)[i].key) == [Members(m)[i].value]
      {
        ValuesPermuted(ms, Members(m), Members(m)[i].key);
      }
      OfValues(ms, m);
    }
  }

  /** A list that gives each of the six keys the value `m` gives it reads as `m`. */
  lemma OfValues(ms: seq<Member>, m: IcaMetadata)
    requires OnlyKeys(ms, METADATA_KEYS)
    requires forall i | 0 <= i < 6 :: Values(ms, Members(m)[i].key) == [Members(m)[i].value]
    ensures OfMembers(ms) == Some(m)
  {
    var all := Members(m);
    assert Values(ms, all[0].key) == [all[0].value];
    assert Values(ms, all[1].key) == [all[1].value];
    assert Values(ms, all[2].key) == [all[2].value];
    assert Values(ms, all[3].key) == [all[3].value];
    assert Values(ms, all[4].key) == [all[4].value];
    assert Values(ms, all[5].key) == [all[5].value];
    EncodingNames(m.encoding);
  }

  lemma SameValue(ms: seq<Member>, m: IcaMetadata, key: string)
    requires OfMembers(ms) == Some(m) && key in METADATA_KEYS
    ensures Values(ms, key) == Values(Members(m), key)
  {
    MembersValues(m);
    var all := Members(m);
    assert Values(all, all[0].key) == [all[0].value] && Values(all, all[1].key) == [all[1].value];
    assert Values(all, all[2].key) == [all[2].value] && Values(all, all[3].key) == [all[3].value];
    assert Values(all, all[4].key) == [all[4].value] && Values(all, all[5].key) == [all[5].value];
  }

  /** Printing and parsing metadata loses nothing. */
  lemma OfTextToText(m: IcaMetadata)
    ensures OfText(ToText(m)) == Some(m)
    ensures ToText(m) != ""
  {
    ParsePrint(Object(Members(m)));
    OfMembersExact(Members(m), m);
  }

  /** The members of a metadata text may come in any order. */
  lemma AnyMemberOrder(ms: seq<Member>, m: IcaMetadata)
    requires multiset(ms) == multiset(Members(m))
    ensures OfText(Print(Object(ms))) == Some(m)
  {
    forall i | 0 <= i < |ms| ensures Printable(ms[i].value) {
      assert ms[i] in multiset(Members(m));
    }
    ParsePrint(Object(ms));
    OfMembersExact(ms, m);
  }

  /** Against printed metadata, the comparison is equality of everything but the address. */
  lemma PreviousVersionEqualExact(a: IcaMetadata, b: IcaMetadata)
    ensures IsPreviousVersionEqual(a, ToText(b)) <==> WithoutAddress(a) == WithoutAddress(b)
  {
    OfTextToText(b);
  }

  /** Hence it is an equivalence relation on metadata. */
  lemma PreviousVersionEqualEquivalence(a: IcaMetadata, b: IcaMetadata, c: IcaMetadata)
    ensures IsPreviousVersionEqual(a, ToText(a))
    ensures IsPreviousVersionEqual(a, ToText(b)) ==> IsPreviousVersionEqual(b, ToText(a))
    ensures IsPreviousVersionEqual(a, ToText(b)) && IsPreviousVersionEqual(b, ToText(c))
        ==> IsPreviousVersionEqual(a, ToText(c))
  {
    OfTextToText(a);
    OfTextToText(b);
    OfTextToText(c);
  }

  // ----- The text itself -----

  /** The text of metadata, and what that text means: six strings under these keys. */
  lemma WireText(version: string, controller: string, host: string, address: string, txType: string)
    ensures ToText(IcaMetadata(version, controller, host, address, Proto3Json, txType))
         == Print(Object([Member("version", String(version)),
                          Member("controller_connection_id", String(controller)),
                          Member("host_connection_id", String(host)),
                          Member("address", String(address)),
                          Member("encoding", String("proto3json")),
                          Member("tx_type", String(txType))]))
    ensures ToText(IcaMetadata(version, controller, host, address, Protobuf, txType))
         == Print(Object([Member("version", String(version)),
                          Member("controller_connection_id", String(controller)),
                          Member("host_connection_id", String(host)),
                          Member("address", String(address)),
                          Member("encoding", String("proto3")),
                          Member("tx_type", String(txType))]))
  {
  }
}
