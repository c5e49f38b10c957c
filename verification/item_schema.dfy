/**
 * The add-item body schema: an object with a required `name` (a string of
 * 1 to 30 characters) and an optional `status` from a fixed enum, filled
 * with a default when missing; no other property.
 *
 * The schema file spells the enum SOLVED/USOLVED and the default USOLVED,
 * while the item record's enum is SOLVED/UNSOLVED. `ValidateWith` takes the
 * enum and default as parameters: `Validate` is the schema as written,
 * `ValidateIntended` the one that agrees with the record.
 */
module ItemSchema {
  import opened Basics
  import opened Json
  import opened ListRecords

  /** The body after validation, with the default filled in. */
  datatype ItemBody = ItemBody(name: string, status: string)

  const ItemNameMinLength: nat := 1
  const ItemNameMaxLength: nat := 30

  const WrittenStatuses: set<string> := {"SOLVED", "USOLVED"}
  const WrittenDefault: string := "USOLVED"

  const IntendedStatuses: set<string> := {"SOLVED", "UNSOLVED"}
  const IntendedDefault: string := "UNSOLVED"

  /** The body that spells out both properties. */
  function Encode(b: ItemBody): Json {
    JObject(map["name" := JString(b.name), "status" := JString(b.status)])
  }

  /** The body that leaves `status` out. */
  function EncodeNameOnly(b: ItemBody): Json {
    JObject(map["name" := JString(b.name)])
  }

  /** What a validated body satisfies for the given enum. */
  predicate Conforms(statuses: set<string>, b: ItemBody) {
    ItemNameMinLength <= |b.name| <= ItemNameMaxLength && b.status in statuses
  }

  /**
   * Validation with defaults: a missing `status` is filled with `default`
   * first and then checked against the enum like a sent one. An accepted
   * body is the encoding of the result, or its name-only encoding when the
   * default was used.
   */
  function ValidateWith(statuses: set<string>, default: string, body: Json): (r: Option<ItemBody>)
    ensures r.Some? ==> Conforms(statuses, r.value)
    ensures r.Some? ==> body == Encode(r.value) || (body == EncodeNameOnly(r.value) && r.value.status == default)
  {
    if !body.JObject? || !OnlyKeys(body.fields, {"name", "status"}) then None
    else if !StringWithin(body.fields, "name", ItemNameMinLength, ItemNameMaxLength) then None
    else
      var name := StringAt(body.fields, "name").value;
      if "status" in body.fields then
        var status := StringAt(body.fields, "status");
        if status.Some? && status.value in statuses then
          assert body.fields == map["name" := JString(name), "status" := JString(status.value)];
          Some(ItemBody(name, status.value))
        else None
      else if default in statuses then
        assert body.fields == map["name" := JString(name)];
        Some(ItemBody(name, default))
      else None
  }

  /** Every conforming body is accepted as sent, and a name-only body gets the default. */
  lemma ValidateWithEncode(statuses: set<string>, default: string, b: ItemBody)
    requires Conforms(statuses, b)
    ensures ValidateWith(statuses, default, Encode(b)) == Some(b)
    ensures default in statuses ==>
      ValidateWith(statuses, default, EncodeNameOnly(b)) == Some(b.(status := default))
  {
    assert Encode(b).fields.Keys == {"name", "status"};
    assert EncodeNameOnly(b).fields.Keys == {"name"};
  }

  /** The schema as written. */
  function Validate(body: Json): (r: Option<ItemBody>)
    ensures r.Some? ==> r.value.status == "SOLVED" || r.value.status == "USOLVED"
  {
    ValidateWith(WrittenStatuses, WrittenDefault, body)
  }

  /** The schema with the record's enum and default. */
  function ValidateIntended(body: Json): (r: Option<ItemBody>)
    ensures r.Some? ==> IsRecordStatus(r.value.status)
    ensures r.Some? ==> RequiredString(r.value.name)
  {
    ValidateWith(IntendedStatuses, IntendedDefault, body)
  }

  /**
   * As written, an item sent without a status is accepted with status
   * "USOLVED", a value outside the record's enum, and the record's own
   * "UNSOLVED" is refused.
   */
  lemma WrittenDefaultLeavesRecordEnum()
    ensures Validate(JObject(map["name" := JString("Milk")])) == Some(ItemBody("Milk", "USOLVED"))
    ensures !IsRecordStatus("USOLVED")
    ensures Validate(JObject(map["name" := JString("Milk"), "status" := JString("UNSOLVED")])).None?
  {
    ValidateWithEncode(WrittenStatuses, WrittenDefault, ItemBody("Milk", "SOLVED"));
    assert EncodeNameOnly(ItemBody("Milk", "SOLVED")) == JObject(map["name" := JString("Milk")]);
  }

  /**
   * With the record's enum, every record status is accepted for any valid
   * name, and a name-only body gets "UNSOLVED", a record status.
   */
  lemma IntendedAcceptsRecordStatuses(name: string, s: ItemStatus)
    requires ItemNameMinLength <= |name| <= ItemNameMaxLength
    ensures ValidateIntended(Encode(ItemBody(name, StatusName(s)))) == Some(ItemBody(name, StatusName(s)))
    ensures ValidateIntended(JObject(map["name" := JString(name)])) == Some(ItemBody(name, "UNSOLVED"))
    ensures IsRecordStatus(IntendedDefault)
  {
    var b := ItemBody(name, StatusName(s));
    ValidateWithEncode(IntendedStatuses, IntendedDefault, b);
    assert EncodeNameOnly(b) == JObject(map["name" := JString(name)]);
  }

  /** A missing name, an empty name and an extra property are rejected by either enum. */
  lemma RejectedBodies(statuses: set<string>, default: string)
    ensures ValidateWith(statuses, default, JObject(map["status" := JString("SOLVED")])).None?
    ensures ValidateWith(statuses, default, JObject(map["name" := JString("")])).None?
    ensures ValidateWith(statuses, default, JObject(map["name" := JString("Milk"), "count" := JNumber(2)])).None?
  {
    var extra := JObject(map["name" := JString("Milk"), "count" := JNumber(2)]);
    assert "count" in extra.fields.Keys;
  }
}
