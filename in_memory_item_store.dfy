/**
 * The in-memory item store of the legacy tree whose items name their owner by id: a primary map
 * from id to item, a secondary index from owner id to the owner's items, and an id counter.
 */
module InMemoryItemStore {
  import opened Common
  import opened Text
  import opened Tables
  import opened HashMaps

  /** An item whose owner is a plain user id; equality of stored items is by id. */
  datatype LegacyItem = LegacyItem(
    id: nat,
    name: string,
    description: string,
    available: bool,
    owner: nat,
    request: Option<nat>)

  /** The search condition of the store: the text is expected lower-cased already. */
  predicate Matches(i: LegacyItem, text: string) {
    (Contains(ToLower(i.name), text) || Contains(ToLower(i.description), text)) && i.available
  }

  function MatchesText(text: string): LegacyItem -> bool {
    (i: LegacyItem) => Matches(i, text)
  }

  /** Ids are keys and come from the counter; the owner index holds exactly the stored items. */
  ghost predicate Indexed(items: map<nat, LegacyItem>, ownerItems: map<nat, map<nat, LegacyItem>>, idCounter: nat) {
    && (forall id :: id in items ==> items[id].id == id && 0 < id <= idCounter)
    && (forall o :: o in ownerItems ==>
          forall id :: id in ownerItems[o] ==> id in items && items[id] == ownerItems[o][id] && items[id].owner == o)
    && (forall id :: id in items ==> items[id].owner in ownerItems && id in ownerItems[items[id].owner])
  }

  /** Adding an item under the next id, to the primary map and to its owner's set, keeps the index exact. */
  lemma CreateKeepsIndex(items: map<nat, LegacyItem>, ownerItems: map<nat, map<nat, LegacyItem>>, idCounter: nat, r: LegacyItem)
    requires Indexed(items, ownerItems, idCounter) && r.id == idCounter + 1
    ensures r.id !in items && r.id !in SetOf(ownerItems, r.owner)
    ensures Indexed(items[r.id := r], ownerItems[r.owner := SetOf(ownerItems, r.owner)[r.id := r]], idCounter + 1)
  {
  }

  /** Replacing a stored item by one with the same id and owner keeps the index exact. */
  lemma UpdateKeepsIndex(items: map<nat, LegacyItem>, ownerItems: map<nat, map<nat, LegacyItem>>, idCounter: nat, i: LegacyItem)
    requires Indexed(items, ownerItems, idCounter)
    requires i.id in items && items[i.id].owner == i.owner
    ensures i.owner in ownerItems
    ensures Indexed(items[i.id := i], ownerItems[i.owner := SetOf(ownerItems, i.owner)[i.id := i]], idCounter)
  {
  }

  class InMemoryItemRepository {
    var idCounter: nat
    var items: map<nat, LegacyItem>
    /** A HashSet of items compared by id is modelled as a map from item id to item. */
    var ownerItems: map<nat, map<nat, LegacyItem>>

    /** Ids are keys and come from the counter; the owner index holds exactly the stored items. */
    ghost predicate Valid()
      reads this
    {
      Indexed(items, ownerItems, idCounter)
    }

    constructor ()
      ensures Valid() && idCounter == 0 && items == map[] && ownerItems == map[]
    {
      idCounter := 0;
      items := map[];
      ownerItems := map[];
    }

    /** getById: Optional.ofNullable(items.get(id)). */
    function GetById(id: nat): (r: Option<LegacyItem>)
      reads this
      ensures r.None? <==> id !in items
      ensures r.Some? ==> r.value == items[id]
    {
      if id in items then Some(items[id]) else None
    }

    /** create: the item gets the next id and joins both maps, its owner's set made if absent. */
    method Create(item: LegacyItem) returns (r: LegacyItem)
      requires Valid()
      modifies this
      ensures Valid()
      ensures idCounter == old(idCounter) + 1 && r == item.(id := idCounter)
      ensures r.id !in old(items)
      ensures items == old(items)[r.id := r]
      ensures ownerItems == old(ownerItems)[item.owner := SetOf(old(ownerItems), item.owner)[r.id := r]]
      ensures GetById(r.id) == Some(r)
    {
      r := item.(id := idCounter + 1);
      CreateKeepsIndex(items, ownerItems, idCounter, r);
      idCounter := idCounter + 1;
      AddNew(SetOf(ownerItems, r.owner), r.id, r);
      ownerItems := ownerItems[r.owner := Add(SetOf(ownerItems, r.owner), r.id, r)];
      items := items[r.id := r];
    }

    /**
     * update: removing and then adding puts the item in place of its namesake in its owner's set,
     * and the primary map is overwritten. The owner's set must exist. The index stays exact when
     * the item was stored before under the same owner.
     */
    method Update(item: LegacyItem) returns (r: LegacyItem)
      requires Valid()
      requires item.owner in ownerItems
      modifies this
      ensures r == item && idCounter == old(idCounter)
      ensures items == old(items)[item.id := item]
      ensures ownerItems == old(ownerItems)[item.owner := SetOf(old(ownerItems), item.owner)[item.id := item]]
      ensures item.id in old(items) && old(items)[item.id].owner == item.owner ==> Valid()
      ensures GetById(item.id) == Some(item)
    {
      var owned := Add(ownerItems[item.owner] - {item.id}, item.id, item);
      RemoveThenAdd(ownerItems[item.owner], item.id, item);
      if item.id in items && items[item.id].owner == item.owner {
        UpdateKeepsIndex(items, ownerItems, idCounter, item);
      }
      ownerItems := ownerItems[item.owner := owned];
      items := items[item.id := item];
      r := item;
    }

    /** getByOwner: a list of the owner's set; the owner must have a set. */
    method GetByOwner(ownerId: nat) returns (r: seq<LegacyItem>)
      requires ownerId in ownerItems
      ensures |r| == |ownerItems[ownerId]|
      ensures forall i :: i in r <==> i in ownerItems[ownerId].Values
    {
      var ids;
      ids, r := Values(ownerItems[ownerId]);
    }

    /** search: the stored items that are available and whose lower-cased name or description contains text. */
    method Search(text: string) returns (r: seq<LegacyItem>)
      ensures forall i :: i in r <==> i in items.Values && Matches(i, text)
      ensures |r| == |KeysPassing(items, MatchesText(text))|
    {
      var ids, all := Values(items);
      r := Filter(all, MatchesText(text));
      FilterValues(items, ids, MatchesText(text));
    }
  }

  /** On a valid store, the owner's listing is exactly the stored items of that owner. */
  lemma OwnerIndexExact(store: InMemoryItemRepository, ownerId: nat, i: LegacyItem)
    requires store.Valid() && ownerId in store.ownerItems
    ensures i in store.ownerItems[ownerId].Values <==> i in store.items.Values && i.owner == ownerId
  {
    if i in store.items.Values && i.owner == ownerId {
      var id :| id in store.items && store.items[id] == i;
      assert store.ownerItems[ownerId][id] == i;
    }
  }
}
