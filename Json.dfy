/**
 * Parsed JSON values and the three JavaScript operations the converter applies to them:
 * `Object.keys(item)`, the property read `item[key]` and the string coercion `String(value)`.
 */
module Json {
  import opened Wrappers

  /** A value produced by `JSON.parse`. Numbers are kept as their mathematical value; the
      members of an object are listed in the order `Object.keys` enumerates them. */
  datatype JsonValue =
    | JNull
    | JBool(b: bool)
    | JNum(n: real)
    | JStr(s: string)
    | JArray(elems: seq<JsonValue>)
    | JObject(members: seq<(string, JsonValue)>)

  /** How JavaScript renders a number as text (`Number.prototype.toString`). It is left
      uninterpreted: every operation that needs it takes it as a parameter. */
  type NumberText = real -> string

  function DigitChar(d: nat): (c: char)
    requires d < 10
    ensures '0' <= c <= '9'
  {
    (48 + d) as char
  }

  /** Decimal rendering of a natural number, as JavaScript prints array indices and counters. */
  function NatToString(n: nat): (r: string)
    ensures |r| > 0
    ensures forall i :: 0 <= i < |r| ==> '0' <= r[i] <= '9'
    ensures n < 10 <==> |r| == 1
  {
    if n < 10 then [DigitChar(n)] else NatToString(n / 10) + [DigitChar(n % 10)]
  }

  /** The value of a decimal digit; other characters count as zero. */
  function DigitValue(c: char): nat
  {
    if '0' <= c <= '9' then c as int - 48 else 0
  }

  /** The number a digit string denotes, read from left to right. */
  function DecimalValue(s: string): nat
  {
    if s == [] then 0 else 10 * DecimalValue(s[..|s| - 1]) + DigitValue(s[|s| - 1])
  }

  /** The rendering of `n` denotes `n`. */
  lemma {:induction false} NatToStringValue(n: nat)
    ensures DecimalValue(NatToString(n)) == n
  {
    var r := NatToString(n);
    if n < 10 {
      assert r[..0] == [];
    } else {
      NatToStringValue(n / 10);
      assert r[..|r| - 1] == NatToString(n / 10);
      assert r[|r| - 1] == DigitChar(n % 10);
    }
  }

  /** Distinct numbers render differently. */
  lemma NatToStringInjective(m: nat, n: nat)
    ensures NatToString(m) == NatToString(n) <==> m == n
  {
    NatToStringValue(m);
    NatToStringValue(n);
  }

  /** The index `i < n` whose decimal rendering is `key`, if there is one: how a property name
      addresses an element of an array or a character of a string. */
  function IndexKey(key: string, n: nat): (r: Option<nat>)
    ensures r.Some? ==> r.value < n && NatToString(r.value) == key
    ensures r.None? ==> forall i :: 0 <= i < n ==> NatToString(i) != key
  {
    if n == 0 then None
    else match IndexKey(key, n - 1)
      case Some(i) => Some(i)
      case None => if NatToString(n - 1) == key then Some(n - 1) else None
  }

  /** The property names "0", "1", …, of an array or a string of length `n`. */
  function IndexKeys(n: nat): (r: seq<string>)
    ensures |r| == n
    ensures forall i :: 0 <= i < n ==> r[i] == NatToString(i)
  {
    if n == 0 then [] else IndexKeys(n - 1) + [NatToString(n - 1)]
  }

  function MemberNames(members: seq<(string, JsonValue)>): (r: seq<string>)
    ensures |r| == |members|
    ensures forall i :: 0 <= i < |members| ==> r[i] == members[i].0
  {
    if members == [] then [] else MemberNames(members[..|members| - 1]) + [members[|members| - 1].0]
  }

  /** `Object.keys(v)`. `None` stands for the TypeError it throws on `null`; numbers and
      booleans have no own enumerable properties; arrays and strings list their indices. */
  function OwnKeys(v: JsonValue): (r: Option<seq<string>>)
    ensures r.None? <==> v.JNull?
  {
    match v
    case JNull => None
    case JBool(_) => Some([])
    case JNum(_) => Some([])
    case JStr(s) => Some(IndexKeys(|s|))
    case JArray(es) => Some(IndexKeys(|es|))
    case JObject(ms) => Some(MemberNames(ms))
  }

  /** The value of the first member named `key`. */
  function FindMember(members: seq<(string, JsonValue)>, key: string): (r: Option<JsonValue>)
    ensures r.None? <==> key !in MemberNames(members)
    ensures r.Some? ==> exists i :: 0 <= i < |members| && members[i] == (key, r.value) &&
                                    forall j :: 0 <= j < i ==> members[j].0 != key
  {
    if members == [] then None
    else if members[0].0 == key then Some(members[0].1)
    else
      assert MemberNames(members) == [members[0].0] + MemberNames(members[1..]);
      FindMember(members[1..], key)
  }

  /** The property read `v[key]` of an own property; `None` stands for `undefined`. */
  function Lookup(v: JsonValue, key: string): (r: Option<JsonValue>)
  {
    match v
    case JObject(ms) => FindMember(ms, key)
    case JArray(es) =>
      (match IndexKey(key, |es|) case Some(i) => Some(es[i]) case None => None)
    case JStr(s) =>
      (match IndexKey(key, |s|) case Some(i) => Some(JStr([s[i]])) case None => None)
    case _ => None
  }

  /** Every name `Object.keys` reports can be read back with `v[key]`, and every own
      property that can be read is reported. */
  lemma LookupOwnKeys(v: JsonValue, key: string)
    requires OwnKeys(v).Some?
    ensures Lookup(v, key).Some? <==> key in OwnKeys(v).value
  {
    match v
    case JStr(s) =>
      if key in IndexKeys(|s|) {
        var i :| 0 <= i < |s| && IndexKeys(|s|)[i] == key;
        assert NatToString(i) == key;
      }
    case JArray(es) =>
      if key in IndexKeys(|es|) {
        var i :| 0 <= i < |es| && IndexKeys(|es|)[i] == key;
        assert NatToString(i) == key;
      }
    case _ =>
  }

  /** Joins already converted array elements with ","; `None` if any element failed. */
  function JoinParts(parts: seq<Option<string>>): (r: Option<string>)
    ensures r.None? <==> None in parts
  {
    if parts == [] then Some("")
    else if |parts| == 1 then parts[0]
    else match (parts[0], JoinParts(parts[1..]))
      case (Some(a), Some(b)) => Some(a + "," + b)
      case _ => None
  }

  /** `String(v)`. `None` stands for the TypeError thrown for an object whose own member
      `toString` hides the inherited method (a parsed value can hold no function). Arrays are
      joined with "," with `null` elements rendered empty, as `Array.prototype.join` does. */
  function Coerce(v: JsonValue, numberText: NumberText): (r: Option<string>)
    ensures v.JStr? ==> r == Some(v.s)
    ensures r.None? ==> v.JObject? || v.JArray?
    ensures v.JObject? ==> (r.None? <==> "toString" in MemberNames(v.members))
  {
    match v
    case JNull => Some("null")
    case JBool(b) => Some(if b then "true" else "false")
    case JNum(n) => Some(numberText(n))
    case JStr(s) => Some(s)
    case JArray(es) =>
      JoinParts(seq(|es|, i requires 0 <= i < |es| =>
        if es[i].JNull? then Some("") else Coerce(es[i], numberText)))
    case JObject(ms) =>
      if "toString" in MemberNames(ms) then None else Some("[object Object]")
  }
}
