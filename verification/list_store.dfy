/**
 * The shopping-list data-access object as an in-memory store: a map from
 * list identity to list document, plus the order in which the documents were
 * inserted (the order queries return them in). Each update either matches
 * and changes one document, returning it as it is after the update, or
 * matches nothing, returns null and changes nothing.
 */
module ShoppingListDao {
  import opened Basics
  import opened ListRecords
  import opened Users

  /** A thrown store error; the message starts with the operation's prefix. */
  datatype StoreError = StoreError(message: string)

  const CreateFailed := "Failed to create shopping list: "
  const FetchFailed := "Failed to fetch shopping lists: "
  /** The database's own reason text is not modelled; only the prefix is. */
  const WindowRejected := StoreError(FetchFailed)
  const UserNotFound := StoreError(FetchFailed + "User not found")

  function Min(a: int, b: int): int {
    if a <= b then a else b
  }

  /** `.skip(skip).limit(limit)` over a sequence of documents. */
  function Window<T>(s: seq<T>, skip: nat, limit: nat): (r: seq<T>)
    ensures |r| <= limit
    ensures |r| == if skip >= |s| then 0 else Min(limit, |s| - skip)
    ensures forall k :: 0 <= k < |r| ==> r[k] == s[skip + k]
  {
    if skip >= |s| then [] else s[skip..skip + Min(limit, |s| - skip)]
  }

  /** Every document of a window comes from the windowed sequence. */
  lemma WindowWithin<T(!new)>(s: seq<T>, skip: nat, limit: nat)
    ensures forall x :: x in Window(s, skip, limit) ==> x in s
  {
    var w := Window(s, skip, limit);
    forall x | x in w ensures x in s {
      var k :| 0 <= k < |w| && w[k] == x;
      assert s[skip + k] == x;
    }
  }

  /** The skip `(page - 1) * limit` is negative exactly when the page is below one, for a positive limit. */
  lemma SkipSign(page: int, limit: int)
    requires limit >= 1
    ensures (page - 1) * limit >= 0 <==> page >= 1
  {
    if page >= 1 {
      assert (page - 1) * limit >= 0 * limit;
    } else {
      assert (page - 1) * limit <= -1 * limit;
    }
  }

  /** Two consecutive pages of the same size are the double-size window. */
  lemma ConsecutiveWindows<T>(s: seq<T>, skip: nat, limit: nat)
    ensures Window(s, skip, limit) + Window(s, skip + limit, limit) == Window(s, skip, 2 * limit)
  {
  }

  /** Element `k` is on page `k / limit + 1`, at position `k % limit`. */
  lemma {:induction false} ElementOnItsPage<T>(s: seq<T>, limit: nat, k: nat)
    requires limit >= 1 && k < |s|
    ensures var w := Window(s, (k / limit) * limit, limit);
      k % limit < |w| && w[k % limit] == s[k]
  {
    var q, m := k / limit, k % limit;
    assert q * limit + m == k;
    assert 0 <= m < limit;
  }

  /** Page number `page` (counted from one) of `s`, `limit` documents per page. */
  function Page<T>(s: seq<T>, page: int, limit: int): seq<T>
    requires page >= 1 && limit >= 1
  {
    SkipSign(page, limit);
    Window(s, (page - 1) * limit, limit)
  }

  /** Whatever is in `s` is on some page of it, for any positive page size. */
  lemma OnSomePage<T>(s: seq<T>, x: T, limit: int)
    requires x in s && limit >= 1
    ensures exists page :: page >= 1 && x in Page(s, page, limit)
  {
    var k :| 0 <= k < |s| && s[k] == x;
    ElementOnItsPage(s, limit, k);
    var page := k / limit + 1;
    assert (page - 1) * limit == (k / limit) * limit;
    var w := Window(s, (k / limit) * limit, limit);
    assert w[k % limit] == x;
    assert x in Page(s, page, limit);
  }

  /** The documents a non-admin sees: those they own or are a member of, in store order. */
  function OwnedOrJoined(ls: seq<ShoppingList>, userId: UserId): (r: seq<ShoppingList>)
    ensures IsSubsequence(r, ls)
    ensures forall l :: l in r <==> l in ls && (l.ownerUserId == userId || userId in l.members)
  {
    if ls == [] then []
    else
      var rest := OwnedOrJoined(ls[1..], userId);
      assert ls == [ls[0]] + ls[1..];
      if ls[0].ownerUserId == userId || userId in ls[0].members then
        [ls[0]] + rest
      else
        SubsequenceOfTail(rest, ls);
        rest
  }

  /** The documents named by `ids`, in that order. */
  function Records(ids: seq<ListId>, lists: map<ListId, ShoppingList>): (r: seq<ShoppingList>)
    requires forall k :: 0 <= k < |ids| ==> ids[k] in lists
    ensures |r| == |ids|
    ensures forall k :: 0 <= k < |ids| ==> r[k] == lists[ids[k]]
  {
    if ids == [] then [] else [lists[ids[0]]] + Records(ids[1..], lists)
  }

  /** The item sub-documents with identity `itemId` (`'items.itemId': itemId`). */
  function FirstItemIndex(items: seq<Item>, itemId: ItemId): (i: nat)
    ensures i <= |items|
    ensures i < |items| ==> items[i].itemId == itemId
    ensures forall k :: 0 <= k < i ==> items[k].itemId != itemId
    ensures i < |items| <==> HasItem(items, itemId)
  {
    if items == [] then 0
    else if items[0].itemId == itemId then 0
    else 1 + FirstItemIndex(items[1..], itemId)
  }

  /** `$pull: { items: { itemId } }`: every item with that identity goes, the others stay in order. */
  function PullItem(items: seq<Item>, itemId: ItemId): (r: seq<Item>)
    ensures forall it :: it in r <==> it in items && it.itemId != itemId
    ensures IsSubsequence(r, items)
  {
    if items == [] then []
    else
      var rest := PullItem(items[1..], itemId);
      assert items == [items[0]] + items[1..];
      if items[0].itemId == itemId then
        SubsequenceOfTail(rest, items);
        rest
      else
        [items[0]] + rest
  }

  /** After the pull no item with that identity is left. */
  lemma PullItemRemovesAll(items: seq<Item>, itemId: ItemId)
    ensures !HasItem(PullItem(items, itemId), itemId)
  {
    var r := PullItem(items, itemId);
    forall k | 0 <= k < |r| ensures r[k].itemId != itemId {
      assert r[k] in r;
    }
  }

  /** Pulling keeps item identities unique. */
  lemma {:induction false} PullItemKeepsDistinct(items: seq<Item>, itemId: ItemId)
    requires DistinctItemIds(items)
    ensures DistinctItemIds(PullItem(items, itemId))
  {
    if items != [] {
      assert DistinctItemIds(items[1..]) by {
        forall i, j | 0 <= i < j < |items[1..]|
          ensures items[1..][i].itemId != items[1..][j].itemId
        {
          assert items[1..][i] == items[i + 1] && items[1..][j] == items[j + 1];
        }
      }
      PullItemKeepsDistinct(items[1..], itemId);
      var rest := PullItem(items[1..], itemId);
      if items[0].itemId != itemId {
        forall k | 0 <= k < |rest| ensures rest[k].itemId != items[0].itemId {
          assert rest[k] in rest;
          var m :| 0 <= m < |items[1..]| && items[1..][m] == rest[k];
          assert items[m + 1] == rest[k];
        }
        assert PullItem(items, itemId) == [items[0]] + rest;
      }
    }
  }

  /**
   * `$set: { 'items.$.status': status }`: the positional operator sets the
   * status of the first item with that identity; every other item, and
   * every other field, stays as it was.
   */
  function SetFirstStatus(items: seq<Item>, itemId: ItemId, status: string): (r: seq<Item>)
    ensures |r| == |items|
    ensures forall k :: 0 <= k < |items| ==> r[k].itemId == items[k].itemId && r[k].name == items[k].name
    ensures forall k :: 0 <= k < |items| ==>
      r[k] == if k == FirstItemIndex(items, itemId) then items[k].(status := status) else items[k]
  {
    if items == [] then []
    else if items[0].itemId == itemId then [items[0].(status := status)] + items[1..]
    else
      var rest := SetFirstStatus(items[1..], itemId, status);
      var i := FirstItemIndex(items, itemId);
      assert i == 1 + FirstItemIndex(items[1..], itemId);
      var r := [items[0]] + rest;
      assert forall k :: 1 <= k < |items| ==> r[k] == rest[k - 1] && items[k] == items[1..][k - 1];
      r
  }

  /** Setting the same status twice is the same as setting it once. */
  lemma SetFirstStatusIdempotent(items: seq<Item>, itemId: ItemId, status: string)
    ensures SetFirstStatus(SetFirstStatus(items, itemId, status), itemId, status)
         == SetFirstStatus(items, itemId, status)
  {
    var once := SetFirstStatus(items, itemId, status);
    var i := FirstItemIndex(items, itemId);
    assert forall k :: 0 <= k < |items| ==> once[k].itemId == items[k].itemId;
    assert FirstItemIndex(once, itemId) == i by {
      SameIdsSameFirstIndex(items, once, itemId);
    }
  }

  /** The status update keeps item ids unique. */
  lemma SetFirstStatusKeepsDistinct(items: seq<Item>, itemId: ItemId, status: string)
    requires DistinctItemIds(items)
    ensures DistinctItemIds(SetFirstStatus(items, itemId, status))
  {
    var r := SetFirstStatus(items, itemId, status);
    assert forall k :: 0 <= k < |items| ==> r[k].itemId == items[k].itemId;
  }

  lemma {:induction false} SameIdsSameFirstIndex(a: seq<Item>, b: seq<Item>, itemId: ItemId)
    requires |a| == |b| && forall k :: 0 <= k < |a| ==> a[k].itemId == b[k].itemId
    ensures FirstItemIndex(a, itemId) == FirstItemIndex(b, itemId)
  {
    if a != [] && a[0].itemId != itemId {
      SameIdsSameFirstIndex(a[1..], b[1..], itemId);
    }
  }

  class ListStore {
    var lists: map<ListId, ShoppingList>
    /** Identities in insertion order. */
    var order: seq<ListId>

    ghost predicate Valid()
      reads this
    {
      && NoDup(order)
      && (forall id :: id in lists <==> id in order)
      && (forall id :: id in lists ==> lists[id].id == id && WellFormedList(lists[id]))
    }

    constructor ()
      ensures Valid() && lists == map[] && order == []
    {
      lists := map[];
      order := [];
    }

    /** All documents in insertion order (an unfiltered `find()`). */
    function Collection(): (r: seq<ShoppingList>)
      reads this
      requires Valid()
      ensures |r| == |order|
      ensures forall l :: l in r <==> l.id in lists && lists[l.id] == l
    {
      Records(order, lists)
    }

    /** `findById`: the document, or null. */
    function GetById(id: ListId): (r: Option<ShoppingList>)
      reads this
      ensures r.Some? <==> id in lists
      ensures r.Some? ==> r.value == lists[id]
    {
      if id in lists then Some(lists[id]) else None
    }

    /**
     * `getAll(userId, page, limit)`: look the user up (failing with "User
     * not found"), then skip `(page - 1) * limit` documents and return at most
     * `limit`: out of all documents for an admin, out of the ones the user
     * owns or belongs to otherwise. A negative skip or a limit below one is
     * refused by the database.
     */
    function GetAll(users: seq<User>, userId: UserId, page: int, limit: int): (r: Result<seq<ShoppingList>, StoreError>)
      reads this
      requires Valid()
      ensures FindById(users, userId).None? ==> r == Err(UserNotFound)
      ensures r.Ok? <==> FindById(users, userId).Some? && page >= 1 && limit >= 1
      ensures r.Ok? ==> |r.value| <= limit
      ensures r.Ok? ==> forall l :: l in r.value ==>
        l.id in lists && lists[l.id] == l
        && (FindById(users, userId).value.isAdmin || l.ownerUserId == userId || userId in l.members)
      ensures r.Ok? ==>
        && (page - 1) * limit >= 0
        && r.value == Window(Visible(FindById(users, userId).value), (page - 1) * limit, limit)
    {
      var skip := (page - 1) * limit;
      var user := FindById(users, userId);
      if user.None? then Err(UserNotFound)
      else if limit < 1 || skip < 0 then
        assert limit >= 1 ==> page < 1 by {
          if limit >= 1 { SkipSign(page, limit); }
        }
        Err(WindowRejected)
      else
        SkipSign(page, limit);
        var source := Visible(user.value);
        WindowWithin(source, skip, limit);
        Ok(Window(source, skip, limit))
    }

    /** The stored lists a user may see, in collection order: all of them for an admin, the owned and joined ones otherwise. */
    function Visible(user: User): (r: seq<ShoppingList>)
      reads this
      requires Valid()
      ensures forall l :: l in r <==> l in Collection() && (user.isAdmin || l.ownerUserId == user.id || user.id in l.members)
    {
      if user.isAdmin then Collection() else OwnedOrJoined(Collection(), user.id)
    }

    /**
     * Every document the user may see is returned on some page: any
     * document for an admin, the owned and joined ones otherwise.
     */
    lemma EveryVisibleListIsListed(users: seq<User>, userId: UserId, id: ListId, limit: int)
      requires Valid() && id in lists && limit >= 1
      requires FindById(users, userId).Some?
      requires FindById(users, userId).value.isAdmin
        || lists[id].ownerUserId == userId || userId in lists[id].members
      ensures exists page :: (page >= 1 && GetAll(users, userId, page, limit).Ok?
        && lists[id] in GetAll(users, userId, page, limit).value)
    {
      var l := lists[id];
      assert l in Collection();
      var source := if FindById(users, userId).value.isAdmin then Collection() else OwnedOrJoined(Collection(), userId);
      assert l in source;
      OnSomePage(source, l, limit);
      var page :| page >= 1 && l in Page(source, page, limit);
      assert GetAll(users, userId, page, limit) == Ok(Page(source, page, limit));
    }

    method Create(id: ListId, name: string, ownerUserId: UserId) returns (r: Result<ShoppingList, StoreError>)
      requires Valid() && id !in lists
      modifies this
      ensures Valid()
      ensures r.Ok? <==> NewList(id, name, ownerUserId).Some?
      ensures r.Ok? ==> (r.value == NewList(id, name, ownerUserId).value
        && lists == old(lists)[id := r.value] && order == old(order) + [id])
      ensures r.Err? ==> r.error == StoreError(CreateFailed) && lists == old(lists) && order == old(order)
    {
      var doc := NewList(id, name, ownerUserId);
      if doc.None? {
        return Err(StoreError(CreateFailed));
      }
      NoDupAppend(order, id);
      lists := lists[id := doc.value];
      order := order + [id];
      r := Ok(doc.value);
    }

    /** `findByIdAndDelete`: the deleted document, or null; afterwards `getById` finds nothing. */
    method DeleteById(id: ListId) returns (r: Option<ShoppingList>)
      requires Valid()
      modifies this
      ensures Valid()
      ensures r == old(GetById(id))
      ensures lists == old(lists) - {id} && order == Pull(old(order), id)
      ensures GetById(id).None?
    {
      r := GetById(id);
      lists := lists - {id};
      order := Pull(order, id);
    }

    /** `findByIdAndUpdate(id, { $addToSet: { members } })`. */
    method AddMember(id: ListId, memberId: UserId) returns (r: Option<ShoppingList>)
      requires Valid()
      modifies this
      ensures Valid() && order == old(order)
      ensures r.Some? <==> id in old(lists)
      ensures id in old(lists) ==>
        lists == old(lists)[id := old(lists)[id].(members := AddToSet(old(lists)[id].members, memberId))]
        && r == Some(lists[id]) && Count(lists[id].members, memberId) == 1
      ensures id !in old(lists) ==> lists == old(lists)
    {
      if id !in lists {
        return None;
      }
      var l := lists[id];
      var updated := l.(members := AddToSet(l.members, memberId));
      lists := lists[id := updated];
      r := Some(updated);
    }

    /** `findOneAndUpdate({ _id: id, members: memberId }, { $pull: { members: memberId } })`. */
    method RemoveMember(id: ListId, memberId: UserId) returns (r: Option<ShoppingList>)
      requires Valid()
      modifies this
      ensures Valid() && order == old(order)
      ensures r.Some? <==> id in old(lists) && memberId in old(lists)[id].members
      ensures r.Some? ==>
        lists == old(lists)[id := old(lists)[id].(members := Pull(old(lists)[id].members, memberId))]
        && r == Some(lists[id]) && memberId !in lists[id].members
      ensures r.None? ==> lists == old(lists)
    {
      if id !in lists || memberId !in lists[id].members {
        return None;
      }
      var l := lists[id];
      var updated := l.(members := Pull(l.members, memberId));
      lists := lists[id := updated];
      r := Some(updated);
    }

    /**
     * `findByIdAndUpdate(id, { $addToSet: { items: { name, status } } })`.
     * The item gets a fresh `itemId` by default, so it is never equal to
     * an item already there and is always appended.
     */
    method AddItem(id: ListId, itemId: ItemId, name: string, status: string) returns (r: Option<ShoppingList>)
      requires Valid()
      requires id in lists ==> !HasItem(lists[id].items, itemId)
      modifies this
      ensures Valid() && order == old(order)
      ensures r.Some? <==> id in old(lists)
      ensures id in old(lists) ==>
        lists == old(lists)[id := old(lists)[id].(items := old(lists)[id].items + [Item(itemId, name, status)])]
        && r == Some(lists[id])
      ensures id !in old(lists) ==> lists == old(lists)
    {
      if id !in lists {
        return None;
      }
      var l := lists[id];
      var item := Item(itemId, name, status);
      assert item !in l.items;
      var updated := l.(items := AddToSet(l.items, item));
      assert updated.items == l.items + [item];
      lists := lists[id := updated];
      r := Some(updated);
    }

    /** `findOneAndUpdate({ _id: id, 'items.itemId': itemId }, { $pull: { items: { itemId } } })`. */
    method RemoveItem(id: ListId, itemId: ItemId) returns (r: Option<ShoppingList>)
      requires Valid()
      modifies this
      ensures Valid() && order == old(order)
      ensures r.Some? <==> id in old(lists) && HasItem(old(lists)[id].items, itemId)
      ensures r.Some? ==>
        lists == old(lists)[id := old(lists)[id].(items := PullItem(old(lists)[id].items, itemId))]
        && r == Some(lists[id])
      ensures r.None? ==> lists == old(lists)
    {
      if id !in lists || !HasItem(lists[id].items, itemId) {
        return None;
      }
      var l := lists[id];
      var updated := l.(items := PullItem(l.items, itemId));
      PullItemKeepsDistinct(l.items, itemId);
      lists := lists[id := updated];
      r := Some(updated);
    }

    /** `findOneAndUpdate({ _id: id, 'items.itemId': itemId }, { $set: { 'items.$.status': status } })`. */
    method UpdateItemStatus(id: ListId, itemId: ItemId, status: string) returns (r: Option<ShoppingList>)
      requires Valid()
      modifies this
      ensures Valid() && order == old(order)
      ensures r.Some? <==> id in old(lists) && HasItem(old(lists)[id].items, itemId)
      ensures r.Some? ==>
        lists == old(lists)[id := old(lists)[id].(items := SetFirstStatus(old(lists)[id].items, itemId, status))]
        && r == Some(lists[id])
      ensures r.None? ==> lists == old(lists)
    {
      if id !in lists || !HasItem(lists[id].items, itemId) {
        return None;
      }
      var l := lists[id];
      var updated := l.(items := SetFirstStatus(l.items, itemId, status));
      SetFirstStatusKeepsDistinct(l.items, itemId, status);
      assert WellFormedList(updated);
      lists := lists[id := updated];
      r := Some(updated);
    }
  }
}
