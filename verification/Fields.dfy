// Reading structures out of JSON objects as serde does: members in any order, no member twice.

module Fields {
  import opened Prelude
  import opened Json
  import opened JsonRoundTrip
  import Decimal

  /** The values that `key` has in an object, in order. */
  function Values(ms: seq<Member>, key: string): seq<JsonValue> {
    if ms == [] then []
    else if ms[0].key == key then [ms[0].value] + Values(ms[1..], key)
    else Values(ms[1..], key)
  }

  function AsString(v: JsonValue): Option<string> {
    if v.String? then Some(v.text) else None
  }

  function NatValue(n: nat): JsonValue {
    Number(Decimal.Show(n))
  }

  /** An unsigned integer below `bound`. */
  function AsNat(v: JsonValue, bound: nat): (r: Option<nat>)
    ensures r.Some? ==> r.value < bound
  {
    if v.Number? && Decimal.Canonical(v.lexeme) && Decimal.Denote(v.lexeme) < bound
    then Some(Decimal.Denote(v.lexeme)) else None
  }

  /** A required member; one that is missing or repeated is an error. */
  function Required(ms: seq<Member>, key: string): (r: Option<JsonValue>)
    ensures r.Some? ==> Values(ms, key) == [r.value]
  {
    if |Values(ms, key)| == 1 then Some(Values(ms, key)[0]) else None
  }

  function RequiredString(ms: seq<Member>, key: string): Option<string> {
    var v :- Required(ms, key);
    AsString(v)
  }

  /** An `Option<String>`: absent and null both mean none. */
  function OptionalString(ms: seq<Member>, key: string): Option<Option<string>> {
    if Values(ms, key) == [] || Values(ms, key) == [Null] then Some(None)
    else
      var s :- RequiredString(ms, key);
      Some(Some(s))
  }

  /** `deny_unknown_fields` */
  predicate OnlyKeys(ms: seq<Member>, keys: set<string>) {
    forall i | 0 <= i < |ms| :: ms[i].key in keys
  }

  /** The member that `skip_serializing_if = "Option::is_none"` leaves out for none. */
  function OptionalMember(key: string, s: Option<string>): seq<Member> {
    match s
    case None => []
    case Some(text) => [Member(key, String(text))]
  }

  predicate DistinctKeys(ms: seq<Member>) {
    forall i, j | 0 <= i < j < |ms| :: ms[i].key != ms[j].key
  }

  lemma {:induction false} ValuesAbsent(ms: seq<Member>, key: string)
    requires forall i | 0 <= i < |ms| :: ms[i].key != key
    ensures Values(ms, key) == []
  {
    if ms != [] {
      ValuesAbsent(ms[1..], key);
    }
  }

  lemma {:induction false} ValuesAt(ms: seq<Member>, i: nat)
    requires DistinctKeys(ms) && i < |ms|
    ensures Values(ms, ms[i].key) == [ms[i].value]
  {
    if i == 0 {
      ValuesAbsent(ms[1..], ms[0].key);
    } else {
      assert ms[1..][i - 1] == ms[i];
      ValuesAt(ms[1..], i - 1);
    }
  }

  /** `Values` sees each member as often as it occurs, and nothing else. */
  lemma {:induction false} ValuesCount(ms: seq<Member>, key: string, v: JsonValue)
    ensures multiset(Values(ms, key))[v] == multiset(ms)[Member(key, v)]
  {
    if ms != [] {
      ValuesCount(ms[1..], key, v);
      assert ms == [ms[0]] + ms[1..];
    }
  }

  /** Objects with the same members in another order give every key the same single value. */
  lemma ValuesPermuted(a: seq<Member>, b: seq<Member>, key: string)
    requires multiset(a) == multiset(b) && |Values(b, key)| <= 1
    ensures Values(a, key) == Values(b, key)
  {
    forall v ensures multiset(Values(a, key))[v] == multiset(Values(b, key))[v] {
      ValuesCount(a, key, v);
      ValuesCount(b, key, v);
    }
    assert multiset(Values(a, key)) == multiset(Values(b, key));
    assert |Values(a, key)| == |multiset(Values(a, key))|;
    assert |Values(b, key)| == |multiset(Values(b, key))|;
    if Values(a, key) != [] {
      assert Values(a, key)[0] in multiset(Values(b, key));
    }
  }

  /** Objects that give every key the same values have the same members. */
  lemma PermutedValues(a: seq<Member>, b: seq<Member>)
    requires forall key :: Values(a, key) == Values(b, key)
    ensures multiset(a) == multiset(b)
  {
    forall m: Member ensures multiset(a)[m] == multiset(b)[m] {
      ValuesCount(a, m.key, m.value);
      ValuesCount(b, m.key, m.value);
    }
  }

  lemma {:induction false} SkipAllDigits(s: string)
    requires Decimal.AllDigits(s)
    ensures SkipDigits(s) == ""
  {
    if s != "" {
      SkipAllDigits(s[1..]);
    }
  }

  /** Printed naturals are JSON numbers and read back. */
  lemma NatValueReads(n: nat, bound: nat)
    requires n < bound
    ensures Printable(NatValue(n)) && AsNat(NatValue(n), bound) == Some(n)
  {
    var s := Decimal.Show(n);
    Decimal.ShowCanonical(n);
    Decimal.DenoteShow(n);
    SkipAllDigits(s);
    assert s[0] == '0' ==> s[1..] == "";
    assert IsFraction("");
  }
}
