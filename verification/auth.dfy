/**
 * The authentication gate in front of every shopping-list route: the token
 * is the Authorization header with its first "Bearer"+whitespace removed,
 * token verification is an oracle, and the outcome is either the verified
 * claims copied onto the request or a 401 with a message that classifies
 * the failure.
 */
module AuthorizeRequest {
  import opened Basics
  import opened ListRecords

  /** The claims a token carries: what the user controller signs. */
  datatype Claims = Claims(id: UserId, userName: string, name: string)

  /** What token verification reports: the payload, an expired token, or any other failure. */
  datatype Verification = Verified(payload: Claims) | Expired | Invalid

  /** The characters the regular-expression class `\s` matches. */
  predicate IsJsWhitespace(c: char) {
    c == '\t' || c == '\n' || c == '\U{000B}' || c == '\U{000C}' || c == '\r' || c == ' '
    || c == '\U{00A0}' || c == '\U{1680}' || ('\U{2000}' <= c <= '\U{200A}')
    || c == '\U{2028}' || c == '\U{2029}' || c == '\U{202F}' || c == '\U{205F}'
    || c == '\U{3000}' || c == '\U{FEFF}'
  }

  /** `/Bearer\s+/` can start matching at position i. */
  predicate BearerAt(h: string, i: nat) {
    i + 7 <= |h| && h[i..i + 6] == "Bearer" && IsJsWhitespace(h[i + 6])
  }

  /** The end of the maximal run of whitespace starting at j (`\s+` is greedy). */
  function WhitespaceEnd(h: string, j: nat): (e: nat)
    requires j <= |h|
    ensures j <= e <= |h|
    ensures forall k :: j <= k < e ==> IsJsWhitespace(h[k])
    ensures e < |h| ==> !IsJsWhitespace(h[e])
    decreases |h| - j
  {
    if j < |h| && IsJsWhitespace(h[j]) then WhitespaceEnd(h, j + 1) else j
  }

  /** The leftmost match position at or after `from`, or |h| when there is none. */
  function FirstBearer(h: string, from: nat): (i: nat)
    requires from <= |h|
    ensures from <= i <= |h|
    ensures i < |h| ==> BearerAt(h, i)
    ensures forall k :: from <= k < i ==> !BearerAt(h, k)
    decreases |h| - from
  {
    if from == |h| then |h|
    else if BearerAt(h, from) then from
    else FirstBearer(h, from + 1)
  }

  /**
   * `header.replace(/Bearer\s+/, '')`: a non-global replace removes the
   * leftmost match only, and the match extends over the whole whitespace run.
   */
  function StripBearer(h: string): (t: string)
    ensures (forall k: nat :: k < |h| ==> !BearerAt(h, k)) ==> t == h
    ensures forall i: nat :: i < |h| && BearerAt(h, i) && (forall k: nat :: k < i ==> !BearerAt(h, k)) ==>
      t == h[..i] + h[WhitespaceEnd(h, i + 6)..]
    ensures |t| <= |h|
  {
    var i := FirstBearer(h, 0);
    if i < |h| then h[..i] + h[WhitespaceEnd(h, i + 6)..] else h
  }

  /** "Bearer", one or more blanks, then a token that does not start with a blank: the token is recovered. */
  lemma StripBearerPrefix(blanks: string, token: string)
    requires |blanks| >= 1 && forall k :: 0 <= k < |blanks| ==> IsJsWhitespace(blanks[k])
    requires token == [] || !IsJsWhitespace(token[0])
    ensures StripBearer("Bearer" + blanks + token) == token
  {
    var h := "Bearer" + blanks + token;
    assert h[0..6] == "Bearer";
    assert h[6] == blanks[0];
    assert BearerAt(h, 0);
    WhitespaceEndIs(h, 6, 6 + |blanks|);
    assert h[6 + |blanks|..] == token;
  }

  lemma {:induction false} WhitespaceEndIs(h: string, j: nat, e: nat)
    requires j <= e <= |h|
    requires forall k :: j <= k < e ==> IsJsWhitespace(h[k])
    requires e < |h| ==> !IsJsWhitespace(h[e])
    ensures WhitespaceEnd(h, j) == e
    decreases e - j
  {
    if j < e {
      WhitespaceEndIs(h, j + 1, e);
    }
  }

  /** A header with no whitespace in it (a bare token) is taken as the token, unchanged. */
  lemma BareTokenUnchanged(h: string)
    requires forall k :: 0 <= k < |h| ==> !IsJsWhitespace(h[k])
    ensures StripBearer(h) == h
  {
    forall k: nat | k < |h|
      ensures !BearerAt(h, k)
    {
      if k + 7 <= |h| {
        assert !IsJsWhitespace(h[k + 6]);
      }
    }
  }

  /** The outcome of the gate: go on with the verified claims, or answer with a status and message. */
  datatype AuthDecision = Proceed(claims: Claims) | Reject(status: int, message: string)

  const MissingHeaderMessage := "Missing header \"Authorization\"."
  const ExpiredMessage := "Token is expired."
  const WrongAuthorizationMessage := "Wrong authorization."

  /** The token the gate verifies, or None when the header is absent or leaves nothing after stripping. */
  function TokenOf(header: Option<string>): (r: Option<string>)
    ensures r.Some? <==> header.Some? && StripBearer(header.value) != []
    ensures r.Some? ==> r.value == StripBearer(header.value)
  {
    if header.Some? && StripBearer(header.value) != [] then Some(StripBearer(header.value)) else None
  }

  /**
   * The decision for a request with the given Authorization header: every
   * rejection is a 401, a missing token is reported before verification,
   * and the claims passed on are exactly the verified payload.
   */
  function Authenticate(header: Option<string>, verify: string -> Verification): (d: AuthDecision)
    ensures d.Reject? ==> d.status == 401
    ensures TokenOf(header).None? ==> d == Reject(401, MissingHeaderMessage)
    ensures TokenOf(header).Some? ==>
      match verify(TokenOf(header).value)
      case Verified(c) => d == Proceed(c)
      case Expired => d == Reject(401, ExpiredMessage)
      case Invalid => d == Reject(401, WrongAuthorizationMessage)
  {
    match TokenOf(header)
    case None => Reject(401, MissingHeaderMessage)
    case Some(token) =>
      match verify(token)
      case Verified(c) => Proceed(c)
      case Expired => Reject(401, ExpiredMessage)
      case Invalid => Reject(401, WrongAuthorizationMessage)
  }

  /** A request proceeds iff its token verifies, and then it carries that token's claims. */
  lemma ProceedsIffVerified(header: Option<string>, verify: string -> Verification)
    ensures Authenticate(header, verify).Proceed? <==>
      TokenOf(header).Some? && verify(TokenOf(header).value).Verified?
    ensures Authenticate(header, verify).Proceed? ==>
      verify(TokenOf(header).value) == Verified(Authenticate(header, verify).claims)
  {
  }

  /** A header of just "Bearer " is treated as a missing header. */
  lemma BearerAloneIsMissing(verify: string -> Verification)
    ensures Authenticate(Some("Bearer "), verify) == Reject(401, MissingHeaderMessage)
  {
    assert "Bearer " == "Bearer" + " " + "";
    StripBearerPrefix(" ", "");
    assert TokenOf(Some("Bearer ")).None?;
  }

  /**
   * A token issued for some claims, sent as "Bearer <token>", lets the
   * request through with those claims, provided the oracle verifies it.
   */
  lemma IssuedTokenAuthenticates(c: Claims, token: string, verify: string -> Verification)
    requires token != [] && !IsJsWhitespace(token[0])
    requires verify(token) == Verified(c)
    ensures Authenticate(Some("Bearer " + token), verify) == Proceed(c)
  {
    var h := "Bearer " + token;
    assert h == "Bearer" + " " + token;
    StripBearerPrefix(" ", token);
    assert TokenOf(Some(h)) == Some(token);
  }

  /** The request as the middleware sees it: the header it arrived with and the fields the gate sets. */
  class Request {
    const authorization: Option<string>
    var id: Option<UserId>
    var userName: Option<string>
    var name: Option<string>

    constructor (authorization: Option<string>)
      ensures this.authorization == authorization
      ensures id.None? && userName.None? && name.None?
    {
      this.authorization := authorization;
      id := None;
      userName := None;
      name := None;
    }

    /**
     * `authorizeRequest`: on success the three identity fields are copied
     * from the verified payload and the request goes on (`Proceed`); on
     * every failure the request is left as it was and answered with 401.
     */
    method Authorize(verify: string -> Verification) returns (d: AuthDecision)
      modifies this
      ensures d == Authenticate(authorization, verify)
      ensures d.Proceed? ==>
        id == Some(d.claims.id) && userName == Some(d.claims.userName) && name == Some(d.claims.name)
      ensures d.Reject? ==> id == old(id) && userName == old(userName) && name == old(name)
    {
      var token := TokenOf(authorization);
      if token.None? {
        return Reject(401, MissingHeaderMessage);
      }
      var v := verify(token.value);
      match v {
        case Expired =>
          return Reject(401, ExpiredMessage);
        case Invalid =>
          return Reject(401, WrongAuthorizationMessage);
        case Verified(payload) =>
          id := Some(payload.id);
          userName := Some(payload.userName);
          name := Some(payload.name);
          d := Proceed(payload);
      }
    }
  }
}
