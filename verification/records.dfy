/**
 * The shopping-list document and its item sub-document, with the record
 * schema's field constraints, defaults and status enum.
 */
module ListRecords {
  import opened Basics

  type ListId = string
  type UserId = string
  type ItemId = string

  /** The two values the record schema's item `status` enum admits. */
  datatype ItemStatus = Solved | Unsolved

  /** The spelling the record schema uses for each status. */
  function StatusName(s: ItemStatus): (name: string)
    ensures name == "SOLVED" || name == "UNSOLVED"
    ensures name == "SOLVED" <==> s == Solved
  {
    match s
    case Solved => "SOLVED"
    case Unsolved => "UNSOLVED"
  }

  /** Reads a stored status string back into the enum, if it is one of its values. */
  function ParseStatus(text: string): (r: Option<ItemStatus>)
    ensures r.Some? ==> StatusName(r.value) == text
    ensures r.None? <==> text != "SOLVED" && text != "UNSOLVED"
  {
    if text == "SOLVED" then Some(Solved)
    else if text == "UNSOLVED" then Some(Unsolved)
    else None
  }

  /** Naming a status and reading it back gives the same status. */
  lemma StatusRoundTrip(s: ItemStatus)
    ensures ParseStatus(StatusName(s)) == Some(s)
  {
  }

  /** Whether a status string belongs to the record schema's enum. */
  predicate IsRecordStatus(text: string) {
    ParseStatus(text).Some?
  }

  /**
   * An item as stored. The status is kept as the string that was written:
   * updates that bypass record validation can store a string outside the
   * enum, and `IsRecordStatus` says whether it is inside.
   */
  datatype Item = Item(itemId: ItemId, name: string, status: string)

  datatype ShoppingList = ShoppingList(
    id: ListId,
    name: string,
    ownerUserId: UserId,
    members: seq<UserId>,
    items: seq<Item>)

  const ListNameMinLength: nat := 3
  const ListNameMaxLength: nat := 30

  /** The list `name` constraint: required, between 3 and 30 characters. */
  predicate ValidListName(name: string) {
    ListNameMinLength <= |name| <= ListNameMaxLength
  }

  /** A required string field: present and not empty. */
  predicate RequiredString(s: string) {
    s != ""
  }

  /** Item identities that occur in `items`. */
  predicate HasItem(items: seq<Item>, itemId: ItemId) {
    exists i :: 0 <= i < |items| && items[i].itemId == itemId
  }

  /** Item identities are unique within a list. */
  predicate DistinctItemIds(items: seq<Item>) {
    forall i, j :: 0 <= i < j < |items| ==> items[i].itemId != items[j].itemId
  }

  /** What the store keeps true of every list: members and item identities are unique. */
  predicate WellFormedList(l: ShoppingList) {
    NoDup(l.members) && DistinctItemIds(l.items)
  }

  /**
   * The document that saving `{name, ownerUserId}` produces: record
   * validation rejects a bad name or a missing owner, and otherwise
   * `members` and `items` take their empty defaults.
   */
  function NewList(id: ListId, name: string, ownerUserId: UserId): (r: Option<ShoppingList>)
    ensures r.Some? <==> ValidListName(name) && RequiredString(ownerUserId)
    ensures r.Some? ==> r.value.id == id && r.value.name == name && r.value.ownerUserId == ownerUserId
    ensures r.Some? ==> r.value.members == [] && r.value.items == [] && WellFormedList(r.value)
  {
    if ValidListName(name) && RequiredString(ownerUserId) then
      Some(ShoppingList(id, name, ownerUserId, [], []))
    else
      None
  }
}
