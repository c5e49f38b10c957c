/**
 * Role resolution and the role gate: a user's role on a list is computed
 * from a snapshot of the list and a snapshot of the user, by fixed
 * precedence (admin, owner, member, visitor), and the gate admits a request
 * when that role stands at least as high as the required one in the role
 * hierarchy.
 */
module Roles {
  import opened Basics
  import opened ListRecords
  import opened Users

  datatype Role = Visitor | Member | Owner | Admin

  /** The role hierarchy, lowest first. */
  const RoleHierarchy: seq<Role> := [Visitor, Member, Owner, Admin]

  /** The spelling of each role in messages. */
  function RoleName(r: Role): string {
    match r
    case Visitor => "visitor"
    case Member => "member"
    case Owner => "owner"
    case Admin => "admin"
  }

  /** `indexOf`: the first position of `r` in `s`, or -1. */
  function IndexOf(s: seq<Role>, r: Role): (i: int)
    ensures -1 <= i < |s|
    ensures i >= 0 ==> s[i] == r && forall k :: 0 <= k < i ==> s[k] != r
    ensures i == -1 <==> r !in s
  {
    if s == [] then -1
    else if s[0] == r then 0
    else
      var j := IndexOf(s[1..], r);
      if j == -1 then -1 else j + 1
  }

  /** A role's position in the hierarchy. */
  function Rank(r: Role): (k: nat)
    ensures k < |RoleHierarchy| && RoleHierarchy[k] == r
  {
    IndexOf(RoleHierarchy, r)
  }

  /** The hierarchy is the strict chain visitor < member < owner < admin. */
  lemma RankOrder()
    ensures Rank(Visitor) == 0 && Rank(Member) == 1 && Rank(Owner) == 2 && Rank(Admin) == 3
  {
  }

  /** Distinct roles have distinct ranks, so comparing ranks is a total order on roles. */
  lemma RankInjective(a: Role, b: Role)
    ensures Rank(a) == Rank(b) <==> a == b
  {
  }

  /** A failure of role resolution: the thrown error's optional status code and its message. */
  datatype RoleError = RoleError(statusCode: Option<int>, message: string)

  const ListNotFound := RoleError(Some(404), "Shopping list not found")

  /** Reading `isAdmin` of a missing user record throws a plain error without status code. */
  const UserRecordMissing := RoleError(None, "Cannot read properties of null (reading 'isAdmin')")

  /**
   * `determineRole`: `list` and `user` are what the two lookups returned.
   * A missing list fails with 404 whatever the user lookup gave; then the
   * first matching rule wins: admin flag, ownership, membership, visitor.
   */
  function DetermineRole(userId: UserId, list: Option<ShoppingList>, user: Option<User>): (r: Result<Role, RoleError>)
    ensures list.None? ==> r == Err(ListNotFound)
    ensures list.Some? && user.None? ==> r == Err(UserRecordMissing)
    ensures r == Ok(Admin) <==> list.Some? && user.Some? && user.value.isAdmin
    ensures r == Ok(Owner) <==>
      list.Some? && user.Some? && !user.value.isAdmin && list.value.ownerUserId == userId
    ensures r == Ok(Member) <==>
      list.Some? && user.Some? && !user.value.isAdmin && list.value.ownerUserId != userId
      && userId in list.value.members
    ensures r == Ok(Visitor) <==>
      list.Some? && user.Some? && !user.value.isAdmin && list.value.ownerUserId != userId
      && userId !in list.value.members
  {
    if list.None? then Err(ListNotFound)
    else if user.None? then Err(UserRecordMissing)
    else if user.value.isAdmin then Ok(Admin)
    else if list.value.ownerUserId == userId then Ok(Owner)
    else if userId in list.value.members then Ok(Member)
    else Ok(Visitor)
  }

  /** The admin flag wins whether or not the user owns or belongs to the list. */
  lemma AdminAlwaysWins(userId: UserId, l: ShoppingList, u: User)
    requires u.isAdmin
    ensures DetermineRole(userId, Some(l), Some(u)) == Ok(Admin)
    ensures forall owner, members ::
      DetermineRole(userId, Some(l.(ownerUserId := owner, members := members)), Some(u)) == Ok(Admin)
  {
  }

  /** For a non-admin, ownership takes precedence over membership. */
  lemma OwnerBeforeMember(l: ShoppingList, u: User)
    requires !u.isAdmin && l.ownerUserId in l.members
    ensures DetermineRole(l.ownerUserId, Some(l), Some(u)) == Ok(Owner)
  {
  }

  /**
   * The resolved role depends only on the user's admin flag and the list's
   * owner and members: name and items never change it.
   */
  lemma RoleDependsOnlyOnOwnerMembersAndFlag(userId: UserId, l1: ShoppingList, l2: ShoppingList, u1: User, u2: User)
    requires l1.ownerUserId == l2.ownerUserId && l1.members == l2.members && u1.isAdmin == u2.isAdmin
    ensures DetermineRole(userId, Some(l1), Some(u1)) == DetermineRole(userId, Some(l2), Some(u2))
  {
  }

  /** What the gate does with the request. */
  datatype GateOutcome = Next | Deny(status: int, message: string)

  function ForbiddenMessage(required: Role): string {
    "Forbidden: This action requires " + RoleName(required) + " privileges."
  }

  /** `error.statusCode || 500`: a missing (or zero) status code falls back to 500. */
  function StatusOf(e: RoleError): (code: int)
    ensures e.statusCode.Some? && e.statusCode.value != 0 ==> code == e.statusCode.value
    ensures e.statusCode.None? ==> code == 500
  {
    if e.statusCode.Some? && e.statusCode.value != 0 then e.statusCode.value else 500
  }

  /**
   * `authorizeRole(required)` after resolution: admit iff the resolved rank
   * is at least the required rank; a too-low role gets 403 naming the
   * required role; a resolution error is answered with its own status.
   */
  function AuthorizeRole(required: Role, resolved: Result<Role, RoleError>): (g: GateOutcome)
    ensures g == Next <==> resolved.Ok? && Rank(resolved.value) >= Rank(required)
    ensures resolved.Ok? && Rank(resolved.value) < Rank(required) ==>
      g == Deny(403, ForbiddenMessage(required))
    ensures resolved.Err? ==> g == Deny(StatusOf(resolved.error), resolved.error.message)
  {
    match resolved
    case Err(e) => Deny(StatusOf(e), e.message)
    case Ok(role) =>
      if IndexOf(RoleHierarchy, role) >= IndexOf(RoleHierarchy, required) then Next
      else Deny(403, ForbiddenMessage(required))
  }

  /** The gate is monotone: a role that passes lets every higher role pass too. */
  lemma GateMonotone(required: Role, lower: Role, higher: Role)
    requires Rank(lower) <= Rank(higher)
    requires AuthorizeRole(required, Ok(lower)) == Next
    ensures AuthorizeRole(required, Ok(higher)) == Next
  {
  }

  /** Admins pass every gate; routes that require `owner` therefore admit admins. */
  lemma AdminPassesEveryGate(required: Role)
    ensures AuthorizeRole(required, Ok(Admin)) == Next
  {
    RankOrder();
  }

  /** A missing list is answered 404 "Shopping list not found" at every gate. */
  lemma MissingListIs404(required: Role, userId: UserId, user: Option<User>)
    ensures AuthorizeRole(required, DetermineRole(userId, None, user)) == Deny(404, "Shopping list not found")
  {
  }

  /** A missing user record on an existing list is answered 500. */
  lemma MissingUserIs500(required: Role, userId: UserId, l: ShoppingList)
    ensures AuthorizeRole(required, DetermineRole(userId, Some(l), None)).status == 500
  {
  }

  /** The two forbidden messages the routes can produce. */
  lemma ForbiddenMessages()
    ensures ForbiddenMessage(Member) == "Forbidden: This action requires member privileges."
    ensures ForbiddenMessage(Owner) == "Forbidden: This action requires owner privileges."
  {
  }

  /**
   * The `member` gate on an existing list and user admits exactly admins,
   * the owner and the listed members; everybody else gets 403.
   */
  lemma MemberGateAdmits(userId: UserId, l: ShoppingList, u: User)
    ensures AuthorizeRole(Member, DetermineRole(userId, Some(l), Some(u))) == Next <==>
      u.isAdmin || l.ownerUserId == userId || userId in l.members
    ensures AuthorizeRole(Member, DetermineRole(userId, Some(l), Some(u))) != Next ==>
      AuthorizeRole(Member, DetermineRole(userId, Some(l), Some(u))) == Deny(403, ForbiddenMessage(Member))
  {
    RankOrder();
    var role := DetermineRole(userId, Some(l), Some(u));
    if !(u.isAdmin || l.ownerUserId == userId || userId in l.members) {
      assert role == Ok(Visitor);
    }
  }

  /** The `owner` gate admits exactly admins and the owner, not plain members. */
  lemma OwnerGateAdmits(userId: UserId, l: ShoppingList, u: User)
    ensures AuthorizeRole(Owner, DetermineRole(userId, Some(l), Some(u))) == Next <==>
      u.isAdmin || l.ownerUserId == userId
    ensures AuthorizeRole(Owner, DetermineRole(userId, Some(l), Some(u))) != Next ==>
      AuthorizeRole(Owner, DetermineRole(userId, Some(l), Some(u))) == Deny(403, ForbiddenMessage(Owner))
  {
    RankOrder();
    var role := DetermineRole(userId, Some(l), Some(u));
    if !(u.isAdmin || l.ownerUserId == userId) {
      assert role == Ok(Visitor) || role == Ok(Member);
    }
  }
}
