/**
 * Parsed JSON request bodies, and the two checks every body schema here
 * makes on an object: which keys it may have and which string it holds
 * under a key.
 */
module Json {
  import opened Basics

  /** Numbers are kept as integers: the schemas only ask whether a value is a string or a boolean. */
  datatype Json =
    | JNull
    | JBool(b: bool)
    | JNumber(n: int)
    | JString(s: string)
    | JArray(elems: seq<Json>)
    | JObject(fields: map<string, Json>)

  /** `additionalProperties: false`: no key outside `allowed`. */
  predicate OnlyKeys(fields: map<string, Json>, allowed: set<string>) {
    fields.Keys <= allowed
  }

  /** The string under `key`, or None if the key is absent or holds another type. */
  function StringAt(fields: map<string, Json>, key: string): (r: Option<string>)
    ensures r.Some? <==> key in fields && fields[key].JString?
    ensures r.Some? ==> fields[key] == JString(r.value)
  {
    if key in fields && fields[key].JString? then Some(fields[key].s) else None
  }

  /** `{ type: "string", minLength: lo, maxLength: hi }` on the value under `key`. */
  predicate StringWithin(fields: map<string, Json>, key: string, lo: nat, hi: nat) {
    StringAt(fields, key).Some? && lo <= |StringAt(fields, key).value| <= hi
  }
}
