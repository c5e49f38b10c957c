/**
 * The shopping-list handlers: each runs store calls in sequence with early
 * returns and answers with a status, an optional message and data. The
 * store's invariant that a list's owner is never among its members is
 * kept by every handler: the member handler refuses to add the owner.
 */
module ShoppingListController {
  import opened Basics
  import opened ListRecords
  import opened Users
  import opened Roles
  import opened ShoppingListDao

  /** The `data` of a reply. */
  datatype Data = NoData | ListData(list: Option<ShoppingList>) | ListsData(lists: seq<ShoppingList>, page: int, limit: int) | EmptyObject

  datatype Reply = Reply(status: int, message: Option<string>, data: Data)

  const ListCreatedMessage := "Shopping list created successfully"
  const ListDeletedMessage := "Shopping list deleted successfully"
  const OwnerCannotBeMemberMessage := "Owner cannot be added as a member."
  const UserDoesNotExistMessage := "User does not exist."
  const MemberAddedMessage := "Member added successfully to the list!"
  const MembersRemoveOnlyThemselvesMessage := "Forbidden: Members can only remove themselves."
  const MemberNotInListMessage := "Member is not in the list."
  const MemberDeletedMessage := "Member deleted successfully!"
  const ItemAddedMessage := "Item added successfully to the list!"
  const ItemDoesNotExistMessage := "Item does not exist."
  const ItemDeletedMessage := "Item deleted successfully!"
  const ItemUpdatedMessage := "Item updated successfully!"

  /** Reading `ownerUserId` of a missing list throws, and the handler answers 500 with the error's message. */
  const MissingListOwnerMessage := "Cannot read properties of null (reading 'ownerUserId')"

  const DefaultPage: int := 1
  const DefaultLimit: int := 10

  /**
   * `parseInt(q) || d`: the query value parsed as an integer (None when
   * absent or not a number), with the default taking the place of a
   * missing, non-numeric or zero value.
   */
  function QueryOrDefault(q: Option<int>, d: int): (v: int)
    ensures v == d || (q == Some(v) && v != 0)
    ensures q.Some? && q.value != 0 ==> v == q.value
  {
    if q.Some? && q.value != 0 then q.value else d
  }

  /** A missing, non-numeric or zero page or limit takes the defaults, so neither is ever 0. */
  lemma PaginationDefaults(pageQuery: Option<int>, limitQuery: Option<int>)
    ensures pageQuery.None? || pageQuery == Some(0) ==> QueryOrDefault(pageQuery, DefaultPage) == 1
    ensures limitQuery.None? || limitQuery == Some(0) ==> QueryOrDefault(limitQuery, DefaultLimit) == 10
    ensures QueryOrDefault(pageQuery, DefaultPage) != 0 && QueryOrDefault(limitQuery, DefaultLimit) != 0
  {
  }

  /** No stored list has its owner among its members. */
  ghost predicate OwnerNeverMember(lists: map<ListId, ShoppingList>) {
    forall id :: id in lists ==> lists[id].ownerUserId !in lists[id].members
  }

  /**
   * `create`: stores `{ name, ownerUserId }` with the caller as owner.
   * A record the list schema rejects is answered 500 and nothing is stored.
   */
  method Create(store: ListStore, callerId: UserId, name: string, newId: ListId) returns (reply: Reply)
    requires store.Valid() && newId !in store.lists
    modifies store
    ensures store.Valid()
    ensures reply.status == 201 <==> NewList(newId, name, callerId).Some?
    ensures reply.status == 201 ==>
      && store.lists == old(store.lists)[newId := NewList(newId, name, callerId).value]
      && store.lists[newId].ownerUserId == callerId && store.lists[newId].members == []
      && reply == Reply(201, Some(ListCreatedMessage), ListData(Some(store.lists[newId])))
    ensures reply.status != 201 ==>
      reply == Reply(500, Some(CreateFailed), NoData) && store.lists == old(store.lists) && store.order == old(store.order)
    ensures old(OwnerNeverMember(store.lists)) ==> OwnerNeverMember(store.lists)
  {
    var r := store.Create(newId, name, callerId);
    if r.Err? {
      return Reply(500, Some(r.error.message), NoData);
    }
    reply := Reply(201, Some(ListCreatedMessage), ListData(Some(r.value)));
  }

  /**
   * `list`: the caller's page of lists with the defaulted page and limit;
   * a store failure is answered 500 with its message. With no query at all
   * a known caller gets at most ten lists, all of them visible to them.
   */
  method List(store: ListStore, users: seq<User>, callerId: UserId, pageQuery: Option<int>, limitQuery: Option<int>)
    returns (reply: Reply)
    requires store.Valid()
    ensures var page := QueryOrDefault(pageQuery, DefaultPage);
      var limit := QueryOrDefault(limitQuery, DefaultLimit);
      var result := store.GetAll(users, callerId, page, limit);
      (reply.status == 200 <==> result.Ok?)
      && (result.Ok? ==> reply == Reply(200, None, ListsData(result.value, page, limit)))
      && (result.Err? ==> reply == Reply(500, Some(result.error.message), NoData))
    ensures pageQuery.None? && limitQuery.None? && FindById(users, callerId).Some? ==>
      reply.status == 200 && |reply.data.lists| <= 10
      && forall l :: l in reply.data.lists ==> l.id in store.lists
  {
    var page := QueryOrDefault(pageQuery, DefaultPage);
    var limit := QueryOrDefault(limitQuery, DefaultLimit);
    var result := store.GetAll(users, callerId, page, limit);
    if result.Err? {
      return Reply(500, Some(result.error.message), NoData);
    }
    reply := Reply(200, None, ListsData(result.value, page, limit));
  }

  /** `get`: always 200, with the stored list or null. */
  method Get(store: ListStore, id: ListId) returns (reply: Reply)
    ensures reply.status == 200 && reply.message.None?
    ensures reply.data == ListData(if id in store.lists then Some(store.lists[id]) else None)
  {
    var l := store.GetById(id);
    reply := Reply(200, None, ListData(l));
  }

  /** `delete`: removes the list and answers 200 whether or not it was there. */
  method Delete(store: ListStore, id: ListId) returns (reply: Reply)
    requires store.Valid()
    modifies store
    ensures store.Valid()
    ensures reply == Reply(200, Some(ListDeletedMessage), EmptyObject)
    ensures store.lists == old(store.lists) - {id} && id !in store.lists
    ensures old(OwnerNeverMember(store.lists)) ==> OwnerNeverMember(store.lists)
  {
    var _ := store.DeleteById(id);
    reply := Reply(200, Some(ListDeletedMessage), EmptyObject);
  }

  /**
   * `member.create`: the owner is refused before the user lookup, an
   * unknown user is refused next, and only then is the member added (once).
   * Every refusal leaves the store as it was.
   */
  method MemberCreate(store: ListStore, users: seq<User>, id: ListId, member: UserId) returns (reply: Reply)
    requires store.Valid()
    modifies store
    ensures store.Valid() && store.order == old(store.order)
    ensures id !in old(store.lists) ==>
      reply == Reply(500, Some(MissingListOwnerMessage), NoData)
    ensures id in old(store.lists) && old(store.lists)[id].ownerUserId == member ==>
      reply == Reply(400, Some(OwnerCannotBeMemberMessage), NoData)
    ensures id in old(store.lists) && old(store.lists)[id].ownerUserId != member && FindById(users, member).None? ==>
      reply == Reply(400, Some(UserDoesNotExistMessage), NoData)
    ensures reply.status == 201 <==>
      id in old(store.lists) && old(store.lists)[id].ownerUserId != member && FindById(users, member).Some?
    ensures reply.status == 201 ==>
      && store.lists == old(store.lists)[id := old(store.lists)[id].(members := AddToSet(old(store.lists)[id].members, member))]
      && Count(store.lists[id].members, member) == 1
      && reply == Reply(201, Some(MemberAddedMessage), ListData(Some(store.lists[id])))
    ensures reply.status != 201 ==> store.lists == old(store.lists)
    ensures old(OwnerNeverMember(store.lists)) ==> OwnerNeverMember(store.lists)
  {
    var list := store.GetById(id);
    if list.None? {
      return Reply(500, Some(MissingListOwnerMessage), NoData);
    }
    if list.value.ownerUserId == member {
      return Reply(400, Some(OwnerCannotBeMemberMessage), NoData);
    }
    var valid := FindById(users, member);
    if valid.None? {
      return Reply(400, Some(UserDoesNotExistMessage), NoData);
    }
    var r := store.AddMember(id, member);
    reply := Reply(201, Some(MemberAddedMessage), ListData(r));
  }

  /** Whether the self-only rule refuses the removal: a plain member removing someone else. */
  predicate RemovesOther(role: Result<Role, RoleError>, callerId: UserId, idMember: UserId) {
    role == Ok(Member) && callerId != idMember
  }

  /**
   * `member.delete` as written: the caller's role is resolved, the member
   * is removed, and only then is the self-only rule checked. A failed
   * role resolution is answered 500 and nothing changes; otherwise the
   * store loses the member whatever the reply, including the 403.
   */
  method MemberDelete(store: ListStore, users: seq<User>, callerId: UserId, id: ListId, idMember: UserId)
    returns (reply: Reply)
    requires store.Valid()
    modifies store
    ensures store.Valid() && store.order == old(store.order)
    ensures var role := DetermineRole(callerId, old(store.GetById(id)), FindById(users, callerId));
      && (role.Err? ==> reply == Reply(500, Some(role.error.message), NoData) && store.lists == old(store.lists))
      && (role.Ok? && idMember in old(store.lists)[id].members ==>
            store.lists == old(store.lists)[id := old(store.lists)[id].(members := Pull(old(store.lists)[id].members, idMember))])
      && (role.Ok? && idMember !in old(store.lists)[id].members ==> store.lists == old(store.lists))
      && (role.Ok? && RemovesOther(role, callerId, idMember) ==>
            reply == Reply(403, Some(MembersRemoveOnlyThemselvesMessage), NoData))
      && (role.Ok? && !RemovesOther(role, callerId, idMember) && idMember !in old(store.lists)[id].members ==>
            reply == Reply(400, Some(MemberNotInListMessage), NoData))
      && (reply.status == 200 <==>
            role.Ok? && !RemovesOther(role, callerId, idMember) && idMember in old(store.lists)[id].members)
    ensures reply.status == 200 ==> reply == Reply(200, Some(MemberDeletedMessage), ListData(Some(store.lists[id])))
    ensures old(OwnerNeverMember(store.lists)) ==> OwnerNeverMember(store.lists)
  {
    var role := DetermineRole(callerId, store.GetById(id), FindById(users, callerId));
    if role.Err? {
      return Reply(500, Some(role.error.message), NoData);
    }
    var removed := store.RemoveMember(id, idMember);
    if RemovesOther(role, callerId, idMember) {
      return Reply(403, Some(MembersRemoveOnlyThemselvesMessage), NoData);
    }
    if removed.None? {
      return Reply(400, Some(MemberNotInListMessage), NoData);
    }
    reply := Reply(200, Some(MemberDeletedMessage), ListData(removed));
  }

  /**
   * `member.delete` with the self-only rule checked before the removal:
   * the replies are the same as in `MemberDelete`, but every reply other
   * than 200 leaves the store unchanged.
   */
  method MemberDeleteAuthorizeFirst(store: ListStore, users: seq<User>, callerId: UserId, id: ListId, idMember: UserId)
    returns (reply: Reply)
    requires store.Valid()
    modifies store
    ensures store.Valid() && store.order == old(store.order)
    ensures var role := DetermineRole(callerId, old(store.GetById(id)), FindById(users, callerId));
      && (role.Err? ==> reply == Reply(500, Some(role.error.message), NoData))
      && (role.Ok? && RemovesOther(role, callerId, idMember) ==>
            reply == Reply(403, Some(MembersRemoveOnlyThemselvesMessage), NoData))
      && (role.Ok? && !RemovesOther(role, callerId, idMember) && idMember !in old(store.lists)[id].members ==>
            reply == Reply(400, Some(MemberNotInListMessage), NoData))
      && (reply.status == 200 <==>
            role.Ok? && !RemovesOther(role, callerId, idMember) && idMember in old(store.lists)[id].members)
    ensures reply.status == 200 ==>
      && store.lists == old(store.lists)[id := old(store.lists)[id].(members := Pull(old(store.lists)[id].members, idMember))]
      && reply == Reply(200, Some(MemberDeletedMessage), ListData(Some(store.lists[id])))
    ensures reply.status != 200 ==> store.lists == old(store.lists)
    ensures old(OwnerNeverMember(store.lists)) ==> OwnerNeverMember(store.lists)
  {
    var role := DetermineRole(callerId, store.GetById(id), FindById(users, callerId));
    if role.Err? {
      return Reply(500, Some(role.error.message), NoData);
    }
    if RemovesOther(role, callerId, idMember) {
      return Reply(403, Some(MembersRemoveOnlyThemselvesMessage), NoData);
    }
    var removed := store.RemoveMember(id, idMember);
    if removed.None? {
      return Reply(400, Some(MemberNotInListMessage), NoData);
    }
    reply := Reply(200, Some(MemberDeletedMessage), ListData(removed));
  }

  /**
   * `item.create`: appends the item under a fresh identity and answers 201,
   * with null data when the list does not exist.
   */
  method ItemCreate(store: ListStore, id: ListId, name: string, status: string, newItemId: ItemId) returns (reply: Reply)
    requires store.Valid()
    requires id in store.lists ==> !HasItem(store.lists[id].items, newItemId)
    modifies store
    ensures store.Valid() && store.order == old(store.order)
    ensures id in old(store.lists) ==>
      store.lists == old(store.lists)[id := old(store.lists)[id].(items := old(store.lists)[id].items + [Item(newItemId, name, status)])]
    ensures id !in old(store.lists) ==> store.lists == old(store.lists)
    ensures reply == Reply(201, Some(ItemAddedMessage), ListData(if id in store.lists then Some(store.lists[id]) else None))
    ensures old(OwnerNeverMember(store.lists)) ==> OwnerNeverMember(store.lists)
  {
    var r := store.AddItem(id, newItemId, name, status);
    reply := Reply(201, Some(ItemAddedMessage), ListData(r));
  }

  /** `item.delete`: 400 "Item does not exist." when no item matches, the store then unchanged. */
  method ItemDelete(store: ListStore, id: ListId, idItem: ItemId) returns (reply: Reply)
    requires store.Valid()
    modifies store
    ensures store.Valid() && store.order == old(store.order)
    ensures reply.status == 200 <==> id in old(store.lists) && HasItem(old(store.lists)[id].items, idItem)
    ensures reply.status == 200 ==>
      && store.lists == old(store.lists)[id := old(store.lists)[id].(items := PullItem(old(store.lists)[id].items, idItem))]
      && !HasItem(store.lists[id].items, idItem)
      && reply == Reply(200, Some(ItemDeletedMessage), ListData(Some(store.lists[id])))
    ensures reply.status != 200 ==>
      reply == Reply(400, Some(ItemDoesNotExistMessage), NoData) && store.lists == old(store.lists)
    ensures old(OwnerNeverMember(store.lists)) ==> OwnerNeverMember(store.lists)
  {
    var r := store.RemoveItem(id, idItem);
    if r.None? {
      return Reply(400, Some(ItemDoesNotExistMessage), NoData);
    }
    PullItemRemovesAll(old(store.lists)[id].items, idItem);
    reply := Reply(200, Some(ItemDeletedMessage), ListData(r));
  }

  /** `item.update`: 400 "Item does not exist." when no item matches, the store then unchanged. */
  method ItemUpdate(store: ListStore, id: ListId, idItem: ItemId, status: string) returns (reply: Reply)
    requires store.Valid()
    modifies store
    ensures store.Valid() && store.order == old(store.order)
    ensures reply.status == 200 <==> id in old(store.lists) && HasItem(old(store.lists)[id].items, idItem)
    ensures reply.status == 200 ==>
      && store.lists == old(store.lists)[id := old(store.lists)[id].(items := SetFirstStatus(old(store.lists)[id].items, idItem, status))]
      && reply == Reply(200, Some(ItemUpdatedMessage), ListData(Some(store.lists[id])))
    ensures reply.status != 200 ==>
      reply == Reply(400, Some(ItemDoesNotExistMessage), NoData) && store.lists == old(store.lists)
    ensures old(OwnerNeverMember(store.lists)) ==> OwnerNeverMember(store.lists)
  {
    var r := store.UpdateItemStatus(id, idItem, status);
    if r.None? {
      return Reply(400, Some(ItemDoesNotExistMessage), NoData);
    }
    reply := Reply(200, Some(ItemUpdatedMessage), ListData(r));
  }

  /** A store holding one list owned by "owner" with members "alice" and "bob". */
  method TwoMemberStore() returns (store: ListStore)
    ensures fresh(store) && store.Valid()
    ensures "list1" in store.lists && store.lists["list1"].ownerUserId == "owner"
    ensures store.lists["list1"].members == ["alice", "bob"]
  {
    store := new ListStore();
    var created := store.Create("list1", "Groceries", "owner");
    var _ := store.AddMember("list1", "alice");
    var _ := store.AddMember("list1", "bob");
  }

  /**
   * Member "alice" asks to remove member "bob". Both handlers refuse with
   * 403, but as written "bob" is gone from the list afterwards, while with
   * the check first the list still has both members.
   */
  method ForbiddenRemovalExample()
    returns (asWritten: Reply, membersAsWritten: seq<UserId>, checkedFirst: Reply, membersCheckedFirst: seq<UserId>)
    ensures asWritten == Reply(403, Some(MembersRemoveOnlyThemselvesMessage), NoData)
    ensures membersAsWritten == ["alice"]
    ensures checkedFirst == Reply(403, Some(MembersRemoveOnlyThemselvesMessage), NoData)
    ensures membersCheckedFirst == ["alice", "bob"]
  {
    var users := [
      User("owner", "owner@test.com", "h0", "Owner", false),
      User("alice", "alice@test.com", "h1", "Alice", false),
      User("bob", "bob@test.com", "h2", "Bob", false)];
    assert FindById(users, "alice") == Some(users[1]);
    var store := TwoMemberStore();
    asWritten := MemberDelete(store, users, "alice", "list1", "bob");
    membersAsWritten := store.lists["list1"].members;
    assert Pull(["alice", "bob"], "bob") == ["alice"];
    var other := TwoMemberStore();
    checkedFirst := MemberDeleteAuthorizeFirst(other, users, "alice", "list1", "bob");
    membersCheckedFirst := other.lists["list1"].members;
  }
}
