// Protocol Buffers framing of the messages a controller sends: records of length-delimited
// fields (encoding guide, "Base 128 Varints" and "Length-Delimited Records").

module Proto {
  import opened Prelude
  import Utf8

  datatype Read<+T> = Read(value: T, rest: seq<byte>)

  /** A field of wire type 2. */
  datatype Field = Field(number: nat, payload: seq<byte>)

  datatype ProtoAny = ProtoAny(typeUrl: string, value: seq<byte>)

  datatype ProtoCoin = ProtoCoin(denom: string, amount: string)

  datatype ProtoMsgSend = ProtoMsgSend(fromAddress: string, toAddress: string, amount: seq<ProtoCoin>)

  // ----- Varints and fields -----

  function EncodeVarint(n: nat): (bs: seq<byte>)
    ensures bs != []
  {
    if n < 128 then [n] else [128 + n % 128] + EncodeVarint(n / 128)
  }

  function DecodeVarint(bs: seq<byte>): (r: Option<Read<nat>>)
    ensures r.Some? ==> |r.value.rest| < |bs|
  {
    if bs == [] then None
    else if bs[0] < 128 then Some(Read(bs[0], bs[1..]))
    else
      var high :- DecodeVarint(bs[1..]);
      var low: int := bs[0];
      Some(Read(low - 128 + 128 * high.value, high.rest))
  }

  function EncodeField(f: Field): (bs: seq<byte>)
    ensures bs != []
  {
    EncodeVarint(8 * f.number + 2) + (EncodeVarint(|f.payload|) + f.payload)
  }

  function EncodeFields(fs: seq<Field>): seq<byte> {
    if fs == [] then [] else EncodeField(fs[0]) + EncodeFields(fs[1..])
  }

  function DecodeField(bs: seq<byte>): (r: Option<Read<Field>>)
    ensures r.Some? ==> |r.value.rest| < |bs|
  {
    var key :- DecodeVarint(bs);
    var length :- DecodeVarint(key.rest);
    if key.value % 8 != 2 || |length.rest| < length.value then None
    else Some(Read(Field(key.value / 8, length.rest[..length.value]), length.rest[length.value..]))
  }

  function DecodeFields(bs: seq<byte>): Option<seq<Field>>
    decreases |bs|
  {
    if bs == [] then Some([])
    else
      var f :- DecodeField(bs);
      var rest :- DecodeFields(f.rest);
      Some([f.value] + rest)
  }

  // ----- Messages -----

  /** A singular field; the empty value is left out. */
  function Singular(number: nat, payload: seq<byte>): seq<Field> {
    if payload == [] then [] else [Field(number, payload)]
  }

  /** The value of a singular field: its last occurrence, or the empty value. */
  function LastPayload(fs: seq<Field>, number: nat): seq<byte> {
    if fs == [] then []
    else if fs[|fs| - 1].number == number then fs[|fs| - 1].payload
    else LastPayload(fs[..|fs| - 1], number)
  }

  /** The values of a repeated field, in order. */
  function AllPayloads(fs: seq<Field>, number: nat): seq<seq<byte>> {
    if fs == [] then []
    else if fs[0].number == number then [fs[0].payload] + AllPayloads(fs[1..], number)
    else AllPayloads(fs[1..], number)
  }

  function Repeated(number: nat, payloads: seq<seq<byte>>): seq<Field> {
    if payloads == [] then [] else [Field(number, payloads[0])] + Repeated(number, payloads[1..])
  }

  function EncodeAny(a: ProtoAny): seq<byte> {
    EncodeFields(Singular(1, Utf8.Encode(a.typeUrl)) + Singular(2, a.value))
  }

  function DecodeAny(bs: seq<byte>): Option<ProtoAny> {
    var fs :- DecodeFields(bs);
    var typeUrl :- Utf8.Decode(LastPayload(fs, 1));
    Some(ProtoAny(typeUrl, LastPayload(fs, 2)))
  }

  function EncodeAnys(anys: seq<ProtoAny>): seq<seq<byte>> {
    if anys == [] then [] else [EncodeAny(anys[0])] + EncodeAnys(anys[1..])
  }

  function DecodeAnys(payloads: seq<seq<byte>>): Option<seq<ProtoAny>> {
    if payloads == [] then Some([])
    else
      var a :- DecodeAny(payloads[0]);
      var rest :- DecodeAnys(payloads[1..]);
      Some([a] + rest)
  }

  /** `CosmosTx { messages }.encode_to_vec()` */
  function EncodeCosmosTx(messages: seq<ProtoAny>): seq<byte> {
    EncodeFields(Repeated(1, EncodeAnys(messages)))
  }

  function DecodeCosmosTx(bs: seq<byte>): Option<seq<ProtoAny>> {
    var fs :- DecodeFields(bs);
    DecodeAnys(AllPayloads(fs, 1))
  }

  function EncodeCoin(c: ProtoCoin): seq<byte> {
    EncodeFields(Singular(1, Utf8.Encode(c.denom)) + Singular(2, Utf8.Encode(c.amount)))
  }

  function DecodeCoin(bs: seq<byte>): Option<ProtoCoin> {
    var fs :- DecodeFields(bs);
    var denom :- Utf8.Decode(LastPayload(fs, 1));
    var amount :- Utf8.Decode(LastPayload(fs, 2));
    Some(ProtoCoin(denom, amount))
  }

  function EncodeCoins(cs: seq<ProtoCoin>): seq<seq<byte>> {
    if cs == [] then [] else [EncodeCoin(cs[0])] + EncodeCoins(cs[1..])
  }

  function DecodeCoins(payloads: seq<seq<byte>>): Option<seq<ProtoCoin>> {
    if payloads == [] then Some([])
    else
      var c :- DecodeCoin(payloads[0]);
      var rest :- DecodeCoins(payloads[1..]);
      Some([c] + rest)
  }

  function MsgSendFields(m: ProtoMsgSend): seq<Field> {
    (Singular(1, Utf8.Encode(m.fromAddress)) + Singular(2, Utf8.Encode(m.toAddress)))
    + Repeated(3, EncodeCoins(m.amount))
  }

  function EncodeMsgSend(m: ProtoMsgSend): seq<byte> {
    EncodeFields(MsgSendFields(m))
  }

  function DecodeMsgSend(bs: seq<byte>): Option<ProtoMsgSend> {
    var fs :- DecodeFields(bs);
    var sender :- Utf8.Decode(LastPayload(fs, 1));
    var recipient :- Utf8.Decode(LastPayload(fs, 2));
    var amount :- DecodeCoins(AllPayloads(fs, 3));
    Some(ProtoMsgSend(sender, recipient, amount))
  }

  const MSG_SEND_URL := "/cosmos.bank.v1beta1.MsgSend"

  /** `MessageExt::to_any` */
  function MsgSendToAny(m: ProtoMsgSend): ProtoAny {
    ProtoAny(MSG_SEND_URL, EncodeMsgSend(m))
  }

  // ----- Round trips -----

  lemma {:induction false} DecodeEncodeVarint(n: nat, rest: seq<byte>)
    ensures DecodeVarint(EncodeVarint(n) + rest) == Some(Read(n, rest))
  {
    var bs := EncodeVarint(n) + rest;
    if n < 128 {
      assert bs[1..] == rest;
    } else {
      assert bs[1..] == EncodeVarint(n / 128) + rest;
      DecodeEncodeVarint(n / 128, rest);
      assert bs[0] == 128 + n % 128;
    }
  }

  lemma DecodeEncodeField(f: Field, rest: seq<byte>)
    ensures DecodeField(EncodeField(f) + rest) == Some(Read(f, rest))
  {
    var key, length := EncodeVarint(8 * f.number + 2), EncodeVarint(|f.payload|);
    var body := f.payload + rest;
    Regroup(key, length + f.payload, rest);
    Regroup(length, f.payload, rest);
    DecodeEncodeVarint(8 * f.number + 2, length + body);
    DecodeEncodeVarint(|f.payload|, body);
    assert body[..|f.payload|] == f.payload && body[|f.payload|..] == rest;
  }

  /** A record of length-delimited fields reads back, field by field. */
  lemma {:induction false} DecodeEncodeFields(fs: seq<Field>)
    ensures DecodeFields(EncodeFields(fs)) == Some(fs)
  {
    if fs != [] {
      DecodeEncodeField(fs[0], EncodeFields(fs[1..]));
      DecodeEncodeFields(fs[1..]);
      assert fs == [fs[0]] + fs[1..];
    }
  }

  lemma TwoSingulars(p: seq<byte>, q: seq<byte>)
    ensures LastPayload(Singular(1, p) + Singular(2, q), 1) == p
    ensures LastPayload(Singular(1, p) + Singular(2, q), 2) == q
  {
    var fs := Singular(1, p) + Singular(2, q);
    if q == [] {
      assert fs == Singular(1, p);
      assert p != [] ==> fs[..0] == [];
    } else {
      assert fs[..|fs| - 1] == Singular(1, p);
      assert LastPayload(Singular(1, p), 1) == p;
    }
  }

  lemma {:induction false} LastPayloadBefore(fs: seq<Field>, more: seq<Field>, number: nat)
    requires forall i | 0 <= i < |more| :: more[i].number != number
    ensures LastPayload(fs + more, number) == LastPayload(fs, number)
    decreases |more|
  {
    if more == [] {
      assert fs + more == fs;
    } else {
      assert (fs + more)[..|fs + more| - 1] == fs + more[..|more| - 1];
      LastPayloadBefore(fs, more[..|more| - 1], number);
    }
  }

  lemma {:induction false} AllPayloadsAfter(fs: seq<Field>, more: seq<Field>, number: nat)
    requires forall i | 0 <= i < |fs| :: fs[i].number != number
    ensures AllPayloads(fs + more, number) == AllPayloads(more, number)
  {
    if fs == [] {
      assert fs + more == more;
    } else {
      assert (fs + more)[1..] == fs[1..] + more;
      AllPayloadsAfter(fs[1..], more, number);
    }
  }

  lemma {:induction false} RepeatedPayloads(number: nat, payloads: seq<seq<byte>>)
    ensures AllPayloads(Repeated(number, payloads), number) == payloads
    ensures forall i | 0 <= i < |Repeated(number, payloads)| :: Repeated(number, payloads)[i].number == number
  {
    if payloads != [] {
      RepeatedPayloads(number, payloads[1..]);
      assert payloads == [payloads[0]] + payloads[1..];
    }
  }

  lemma DecodeEncodeAny(a: ProtoAny)
    ensures DecodeAny(EncodeAny(a)) == Some(a)
  {
    DecodeEncodeFields(Singular(1, Utf8.Encode(a.typeUrl)) + Singular(2, a.value));
    TwoSingulars(Utf8.Encode(a.typeUrl), a.value);
    Utf8.DecodeEncode(a.typeUrl);
  }

  lemma {:induction false} DecodeEncodeAnys(anys: seq<ProtoAny>)
    ensures DecodeAnys(EncodeAnys(anys)) == Some(anys)
  {
    if anys != [] {
      DecodeEncodeAny(anys[0]);
      DecodeEncodeAnys(anys[1..]);
      assert anys == [anys[0]] + anys[1..];
    }
  }

  /** Every list of messages comes back from its CosmosTx bytes, in order. */
  lemma DecodeEncodeCosmosTx(messages: seq<ProtoAny>)
    ensures DecodeCosmosTx(EncodeCosmosTx(messages)) == Some(messages)
  {
    DecodeEncodeFields(Repeated(1, EncodeAnys(messages)));
    RepeatedPayloads(1, EncodeAnys(messages));
    DecodeEncodeAnys(messages);
  }

  lemma DecodeEncodeCoin(c: ProtoCoin)
    ensures DecodeCoin(EncodeCoin(c)) == Some(c)
  {
    var denom, amount := Utf8.Encode(c.denom), Utf8.Encode(c.amount);
    DecodeEncodeFields(Singular(1, denom) + Singular(2, amount));
    TwoSingulars(denom, amount);
    Utf8.DecodeEncode(c.denom);
    Utf8.DecodeEncode(c.amount);
  }

  lemma {:induction false} DecodeEncodeCoins(cs: seq<ProtoCoin>)
    ensures DecodeCoins(EncodeCoins(cs)) == Some(cs)
  {
    if cs != [] {
      DecodeEncodeCoin(cs[0]);
      DecodeEncodeCoins(cs[1..]);
      assert cs == [cs[0]] + cs[1..];
    }
  }

  /** A bank send comes back from its bytes, whatever strings it holds. */
  lemma DecodeEncodeMsgSend(m: ProtoMsgSend)
    ensures DecodeMsgSend(EncodeMsgSend(m)) == Some(m)
  {
    var sender, recipient := Utf8.Encode(m.fromAddress), Utf8.Encode(m.toAddress);
    var head := Singular(1, sender) + Singular(2, recipient);
    var coins := Repeated(3, EncodeCoins(m.amount));
    DecodeEncodeFields(MsgSendFields(m));
    TwoSingulars(sender, recipient);
    RepeatedPayloads(3, EncodeCoins(m.amount));
    LastPayloadBefore(head, coins, 1);
    LastPayloadBefore(head, coins, 2);
    AllPayloadsAfter(head, coins, 3);
    Utf8.DecodeEncode(m.fromAddress);
    Utf8.DecodeEncode(m.toAddress);
    DecodeEncodeCoins(m.amount);
  }

  // ----- The bytes themselves -----

  /** A length-delimited record behind its key byte; a record of zero bytes is left out. */
  function Record(key: byte, payload: seq<byte>): seq<byte> {
    if payload == [] then [] else [key] + (EncodeVarint(|payload|) + payload)
  }

  /** The encoding guide's examples of varints. */
  lemma Varints()
    ensures EncodeVarint(0) == [0] && EncodeVarint(127) == [0x7F] && EncodeVarint(150) == [0x96, 0x01]
    ensures EncodeVarint(300) == [0xAC, 0x02]
  {
  }

  lemma FieldBytes(f: Field)
    ensures f.number == 1 ==> EncodeField(f) == [0x0A] + (EncodeVarint(|f.payload|) + f.payload)
    ensures f.number == 2 ==> EncodeField(f) == [0x12] + (EncodeVarint(|f.payload|) + f.payload)
    ensures f.number == 3 ==> EncodeField(f) == [0x1A] + (EncodeVarint(|f.payload|) + f.payload)
  {
  }

  lemma {:induction false} FieldsConcat(fs: seq<Field>, more: seq<Field>)
    ensures EncodeFields(fs + more) == EncodeFields(fs) + EncodeFields(more)
  {
    if fs == [] {
      assert fs + more == more;
    } else {
      assert (fs + more)[1..] == fs[1..] + more;
      FieldsConcat(fs[1..], more);
    }
  }

  lemma SingularBytes(p: seq<byte>)
    ensures EncodeFields(Singular(1, p)) == Record(0x0A, p) && EncodeFields(Singular(2, p)) == Record(0x12, p)
  {
    FieldBytes(Field(1, p));
    FieldBytes(Field(2, p));
    assert EncodeFields([Field(1, p)][1..]) == [] && EncodeFields([Field(2, p)][1..]) == [];
  }

  lemma TwoRecords(p: seq<byte>, q: seq<byte>)
    ensures EncodeFields(Singular(1, p) + Singular(2, q)) == Record(0x0A, p) + Record(0x12, q)
  {
    FieldsConcat(Singular(1, p), Singular(2, q));
    SingularBytes(p);
    SingularBytes(q);
  }

  lemma OneRepeated(p: seq<byte>)
    ensures EncodeFields(Repeated(1, [p])) == [0x0A] + (EncodeVarint(|p|) + p)
    ensures EncodeFields(Repeated(3, [p])) == [0x1A] + (EncodeVarint(|p|) + p)
  {
    FieldBytes(Field(1, p));
    FieldBytes(Field(3, p));
    assert [p][1..] == [] && Repeated(1, [p]) == [Field(1, p)] && Repeated(3, [p]) == [Field(3, p)];
    assert EncodeFields([Field(1, p)][1..]) == [] && EncodeFields([Field(3, p)][1..]) == [];
  }

  /** The bytes of a coin, with the field numbers of `cosmos.base.v1beta1.Coin`. */
  lemma CoinBytes(c: ProtoCoin)
    ensures EncodeCoin(c) == Record(0x0A, Utf8.Encode(c.denom)) + Record(0x12, Utf8.Encode(c.amount))
  {
    TwoRecords(Utf8.Encode(c.denom), Utf8.Encode(c.amount));
  }

  /** The bytes of a bank send of one coin, with the field numbers of `cosmos.bank.v1beta1.MsgSend`. */
  lemma MsgSendBytes(sender: string, recipient: string, c: ProtoCoin)
    ensures EncodeMsgSend(ProtoMsgSend(sender, recipient, [c]))
         == (Record(0x0A, Utf8.Encode(sender)) + Record(0x12, Utf8.Encode(recipient)))
            + ([0x1A] + (EncodeVarint(|EncodeCoin(c)|) + EncodeCoin(c)))
  {
    var m := ProtoMsgSend(sender, recipient, [c]);
    var head := Singular(1, Utf8.Encode(sender)) + Singular(2, Utf8.Encode(recipient));
    assert [c][1..] == [] && EncodeCoins([c]) == [EncodeCoin(c)];
    FieldsConcat(head, Repeated(3, EncodeCoins([c])));
    TwoRecords(Utf8.Encode(sender), Utf8.Encode(recipient));
    OneRepeated(EncodeCoin(c));
  }

  lemma OneAnyBytes(a: ProtoAny)
    ensures var any := Record(0x0A, Utf8.Encode(a.typeUrl)) + Record(0x12, a.value);
            EncodeCosmosTx([a]) == [0x0A] + (EncodeVarint(|any|) + any)
  {
    TwoRecords(Utf8.Encode(a.typeUrl), a.value);
    assert [a][1..] == [] && EncodeAnys([a]) == [EncodeAny(a)];
    OneRepeated(EncodeAny(a));
  }

  /** The bytes of a transaction of one bank send, under the type URL of that message. */
  lemma CosmosTxBytes(m: ProtoMsgSend)
    ensures var any := Record(0x0A, Utf8.Encode("/cosmos.bank.v1beta1.MsgSend")) + Record(0x12, EncodeMsgSend(m));
            EncodeCosmosTx([MsgSendToAny(m)]) == [0x0A] + (EncodeVarint(|any|) + any)
  {
    OneAnyBytes(MsgSendToAny(m));
  }
}
