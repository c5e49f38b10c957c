/**
 * The create-list body schema: an object with exactly one property,
 * `name`, a string of 3 to 30 characters.
 */
module ShoppingListSchema {
  import opened Basics
  import opened Json
  import opened ListRecords

  datatype CreateListBody = CreateListBody(name: string)

  function Encode(b: CreateListBody): Json {
    JObject(map["name" := JString(b.name)])
  }

  /**
   * Accepts a body iff it is `{ "name": <string of 3..30> }`; the accepted
   * name is one the list record accepts, and the body is exactly its
   * encoding (nothing else was in it).
   */
  function Validate(body: Json): (r: Option<CreateListBody>)
    ensures r.Some? ==> ValidListName(r.value.name) && body == Encode(r.value)
  {
    if body.JObject? && OnlyKeys(body.fields, {"name"}) && StringWithin(body.fields, "name", 3, 30) then
      var b := CreateListBody(StringAt(body.fields, "name").value);
      assert body.fields == map["name" := JString(b.name)];
      Some(b)
    else
      None
  }

  /** Every name the list record accepts is accepted when sent alone. */
  lemma ValidateEncode(b: CreateListBody)
    requires ValidListName(b.name)
    ensures Validate(Encode(b)) == Some(b)
  {
    assert Encode(b).fields.Keys == {"name"};
  }

  /** An empty body, a non-string name, a too-short name and an extra property are all rejected. */
  lemma RejectedBodies()
    ensures Validate(JObject(map[])).None?
    ensures Validate(JObject(map["name" := JNumber(12345)])).None?
    ensures Validate(JObject(map["name" := JString("ab")])).None?
    ensures Validate(JObject(map["name" := JString("Groceries"), "ownerUserId" := JString("u1")])).None?
  {
    var extra := JObject(map["name" := JString("Groceries"), "ownerUserId" := JString("u1")]);
    assert "ownerUserId" in extra.fields.Keys;
  }
}
