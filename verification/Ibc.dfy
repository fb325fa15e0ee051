// The IBC values a contract receives, and the rules for account addresses.

module Ibc {
  import opened Prelude
  import Utf8

  datatype IbcEndpoint = IbcEndpoint(portId: string, channelId: string)

  datatype IbcOrder = Ordered | Unordered

  datatype IbcChannel = IbcChannel(
    endpoint: IbcEndpoint,
    counterpartyEndpoint: IbcEndpoint,
    order: IbcOrder,
    version: string,
    connectionId: string)

  const ICA_VERSION := "ics27-1"
  const HOST_PORT_ID := "icahost"
  const SDK_MULTI_MSG := "sdk_multi_msg"
  const MAX_ADDRESS_LENGTH := 128

  predicate IsAsciiAlphanumeric(c: char) {
    '0' <= c <= '9' || 'A' <= c <= 'Z' || 'a' <= c <= 'z'
  }

  /** A table of alphanumeric characters that is right on ASCII. */
  type AlphanumericTable = t: char -> bool
    | forall c: char :: c < '\U{0080}' ==> (t(c) <==> IsAsciiAlphanumeric(c))
    witness IsAsciiAlphanumeric

  /** The Unicode table behind `char::is_alphanumeric`; nothing is known of it outside ASCII. */
  const ALPHANUMERIC: AlphanumericTable

  /** `validate_ica_address`: at most 128 bytes of UTF-8, every character alphanumeric. */
  predicate IsIcaAddress(address: string) {
    && |Utf8.Encode(address)| <= MAX_ADDRESS_LENGTH
    && forall i | 0 <= i < |address| :: ALPHANUMERIC(address[i])
  }

  lemma {:induction false} AsciiLength(s: string)
    requires forall i | 0 <= i < |s| :: s[i] < '\U{0080}'
    ensures |Utf8.Encode(s)| == |s|
  {
    if s != "" {
      AsciiLength(s[1..]);
    }
  }

  /** Over ASCII the rule is exact; beyond it, the 128 bytes still are. */
  lemma AddressRule(address: string)
    ensures IsIcaAddress(address) ==> |Utf8.Encode(address)| <= 128
    ensures (forall i | 0 <= i < |address| :: address[i] < '\U{0080}') ==>
              (IsIcaAddress(address) <==>
                |address| <= 128
                && forall i | 0 <= i < |address| ::
                     '0' <= address[i] <= '9' || 'A' <= address[i] <= 'Z' || 'a' <= address[i] <= 'z')
  {
    if forall i | 0 <= i < |address| :: address[i] < '\U{0080}' {
      AsciiLength(address);
      forall i | 0 <= i < |address|
        ensures ALPHANUMERIC(address[i]) <==>
                '0' <= address[i] <= '9' || 'A' <= address[i] <= 'Z' || 'a' <= address[i] <= 'z'
      {
        assert ALPHANUMERIC(address[i]) <==> IsAsciiAlphanumeric(address[i]);
      }
    }
  }
}
