/**
 * The status-update body schema: an object whose only, required property
 * `status` is one of the record's two status strings.
 */
module ItemStatusSchema {
  import opened Basics
  import opened Json
  import opened ListRecords

  function Encode(s: ItemStatus): Json {
    JObject(map["status" := JString(StatusName(s))])
  }

  /** Accepts exactly the encodings of the two statuses. */
  function Validate(body: Json): (r: Option<ItemStatus>)
    ensures r.Some? ==> body == Encode(r.value)
  {
    if body.JObject? && OnlyKeys(body.fields, {"status"}) && StringAt(body.fields, "status").Some? then
      var s := ParseStatus(StringAt(body.fields, "status").value);
      if s.Some? then
        assert body.fields == map["status" := JString(StatusName(s.value))];
        s
      else None
    else None
  }

  /** Both statuses are accepted, so an item can be switched either way. */
  lemma ValidateEncode(s: ItemStatus)
    ensures Validate(Encode(s)) == Some(s)
  {
    assert Encode(s).fields.Keys == {"status"};
  }

  /** A status outside the enum, a missing status, a non-string status and an extra property are rejected. */
  lemma RejectedBodies()
    ensures Validate(JObject(map["status" := JString("INVALID_STATUS")])).None?
    ensures Validate(JObject(map[])).None?
    ensures Validate(JObject(map["status" := JBool(true)])).None?
    ensures Validate(JObject(map["status" := JString("SOLVED"), "name" := JString("Milk")])).None?
  {
    var extra := JObject(map["status" := JString("SOLVED"), "name" := JString("Milk")]);
    assert "name" in extra.fields.Keys;
  }
}
