/**
 * The register body schema: required `name` (3 to 30 characters),
 * `userName` (an e-mail address by the shared pattern) and `password`
 * (6 to 50 characters), an optional boolean `isAdmin` defaulting to false,
 * and no other property.
 */
module UserSchema {
  import opened Basics
  import opened Json
  import opened Users
  import EmailPattern

  /** The body after validation, with the default filled in. */
  datatype RegisterBody = RegisterBody(name: string, userName: string, password: string, isAdmin: bool)

  function Encode(b: RegisterBody): Json {
    JObject(map[
      "name" := JString(b.name), "userName" := JString(b.userName),
      "password" := JString(b.password), "isAdmin" := JBool(b.isAdmin)])
  }

  /** The body that leaves `isAdmin` out. */
  function EncodeWithoutFlag(b: RegisterBody): Json {
    JObject(map[
      "name" := JString(b.name), "userName" := JString(b.userName),
      "password" := JString(b.password)])
  }

  /** The constraints on the three string properties. */
  predicate Conforms(b: RegisterBody) {
    && NameMinLength <= |b.name| <= NameMaxLength
    && PasswordMinLength <= |b.password| <= PasswordMaxLength
    && EmailPattern.MatchesEmail(b.userName)
  }

  /**
   * An accepted body conforms and is the encoding of the result, or its
   * encoding without `isAdmin`, in which case the flag is false.
   */
  function Validate(body: Json): (r: Option<RegisterBody>)
    ensures r.Some? ==> Conforms(r.value)
    ensures r.Some? ==> body == Encode(r.value) || (body == EncodeWithoutFlag(r.value) && !r.value.isAdmin)
  {
    if !body.JObject? || !OnlyKeys(body.fields, {"name", "userName", "password", "isAdmin"}) then None
    else if !StringWithin(body.fields, "name", NameMinLength, NameMaxLength) then None
    else if !StringWithin(body.fields, "password", PasswordMinLength, PasswordMaxLength) then None
    else if StringAt(body.fields, "userName").None? then None
    else if !EmailPattern.MatchesEmail(StringAt(body.fields, "userName").value) then None
    else
      var name := StringAt(body.fields, "name").value;
      var userName := StringAt(body.fields, "userName").value;
      var password := StringAt(body.fields, "password").value;
      if "isAdmin" in body.fields then
        if body.fields["isAdmin"].JBool? then
          var b := RegisterBody(name, userName, password, body.fields["isAdmin"].b);
          assert body.fields == Encode(b).fields;
          Some(b)
        else None
      else
        var b := RegisterBody(name, userName, password, false);
        assert body.fields == EncodeWithoutFlag(b).fields;
        Some(b)
  }

  /** Every conforming body is accepted as sent, and without the flag it is accepted as a non-admin. */
  lemma ValidateEncode(b: RegisterBody)
    requires Conforms(b)
    ensures Validate(Encode(b)) == Some(b)
    ensures Validate(EncodeWithoutFlag(b)) == Some(b.(isAdmin := false))
  {
    assert Encode(b).fields.Keys == {"name", "userName", "password", "isAdmin"};
    assert EncodeWithoutFlag(b).fields.Keys == {"name", "userName", "password"};
  }

  /**
   * A validated body meets every field constraint of the user record, the
   * user name in the sense of the anchored regular expression; only the
   * uniqueness of the user name is left to the store.
   */
  lemma AcceptedBodyFitsUserRecord(body: Json)
    requires Validate(body).Some?
    ensures EmailPattern.Matches(Validate(body).value.userName)
    ensures NameMinLength <= |Validate(body).value.name| <= NameMaxLength
    ensures PasswordMinLength <= |Validate(body).value.password| <= PasswordMaxLength
  {
    EmailPattern.MatchesEmailCorrect(Validate(body).value.userName);
  }

  /** A non-boolean `isAdmin` is rejected even when every other property conforms. */
  lemma NonBooleanFlagRejected()
    ensures Validate(JObject(map[
      "name" := JString("Alice"), "userName" := JString("a@test.com"),
      "password" := JString("secret1"), "isAdmin" := JString("yes")])).None?
  {
  }

  /** A missing password and a two-character name are rejected. */
  lemma RejectedBodies()
    ensures Validate(JObject(map["name" := JString("Alice"), "userName" := JString("a@test.com")])).None?
    ensures Validate(JObject(map[
      "name" := JString("Al"), "userName" := JString("a@test.com"), "password" := JString("secret1")])).None?
  {
  }
}
