/** A value produced by `JSON.parse`, with the two JavaScript judgements the
    tracker makes about it: truthiness and `typeof v === "object"`. */
module Json {
  import opened Wrappers
  import Strings

  /** JSON numbers are finite, so no NaN or infinity appears here. An object's
      keys are distinct (a later duplicate key replaces an earlier one). */
  datatype Json =
    | JNull
    | JBool(b: bool)
    | JNumber(n: real)
    | JString(s: string)
    | JArray(items: seq<Json>)
    | JObject(fields: map<string, Json>)

  /** `!!v`: false exactly for null, false, 0 and the empty string. */
  predicate Truthy(v: Json)
  {
    match v
    case JNull => false
    case JBool(b) => b
    case JNumber(n) => n != 0.0
    case JString(s) => s != ""
    case JArray(_) => true
    case JObject(_) => true
  }

  /** An absent property (`undefined`) is falsy. */
  predicate TruthyOpt(v: Option<Json>)
  {
    v.Some? && Truthy(v.value)
  }

  /** `typeof v === "object"`: true for null, arrays and objects. */
  predicate IsObjectType(v: Json)
  {
    v.JNull? || v.JArray? || v.JObject?
  }

  /** `v.name` for a property read from parsed JSON: an object's own field.
      Arrays, strings, numbers and booleans carry no property with a name
      other than their index or length, so a lookup of such a name is absent. */
  function Property(v: Json, name: string): (r: Option<Json>)
    ensures r.Some? <==> v.JObject? && name in v.fields
  {
    if v.JObject? && name in v.fields then Some(v.fields[name]) else None
  }

  /** `Object.entries(v)` as a key-to-value map: an object's fields, or an
      array's elements under the decimal strings of their indices. */
  function Entries(v: Json): (m: map<string, Json>)
    requires v.JArray? || v.JObject?
    ensures v.JObject? ==> m == v.fields
    ensures v.JArray? ==> forall i :: 0 <= i < |v.items| ==>
      Strings.IntToString(i) in m && m[Strings.IntToString(i)] == v.items[i]
    ensures v.JArray? ==> forall k :: k in m ==>
      exists i :: 0 <= i < |v.items| && k == Strings.IntToString(i)
  {
    if v.JObject? then v.fields
    else
      IndexKeysDistinct(|v.items|);
      map i | 0 <= i < |v.items| :: Strings.IntToString(i) := v.items[i]
  }

  lemma IndexKeysDistinct(n: nat)
    ensures forall i, j :: 0 <= i < n && 0 <= j < n && i != j ==>
      Strings.IntToString(i) != Strings.IntToString(j)
  {
    forall i, j | 0 <= i < n && 0 <= j < n && i != j
      ensures Strings.IntToString(i) != Strings.IntToString(j)
    {
      Strings.IntToStringInjective(i, j);
    }
  }
}
