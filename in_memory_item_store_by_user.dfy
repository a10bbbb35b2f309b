/**
 * The in-memory item store of the legacy tree whose items hold their owner: the same primary map,
 * owner index and id counter, with the index keyed by the owner's id.
 */
module InMemoryItemStoreByUser {
  import opened Common
  import opened Model
  import opened Tables
  import opened Items
  import opened HashMaps

  /** Ids are keys and come from the counter; the owner index holds exactly the stored items. */
  ghost predicate Indexed(items: map<nat, Item>, ownerItems: map<nat, map<nat, Item>>, idCounter: nat) {
    && (forall id :: id in items ==> items[id].id == id && 0 < id <= idCounter)
    && (forall o :: o in ownerItems ==>
          forall id :: id in ownerItems[o] ==> id in items && items[id] == ownerItems[o][id] && items[id].owner.id == o)
    && (forall id :: id in items ==> items[id].owner.id in ownerItems && id in ownerItems[items[id].owner.id])
  }

  /** Adding an item under the next id, to the primary map and to its owner's set, keeps the index exact. */
  lemma CreateKeepsIndex(items: map<nat, Item>, ownerItems: map<nat, map<nat, Item>>, idCounter: nat, r: Item)
    requires Indexed(items, ownerItems, idCounter) && r.id == idCounter + 1
    ensures r.id !in items && r.id !in SetOf(ownerItems, r.owner.id)
    ensures Indexed(items[r.id := r], ownerItems[r.owner.id := SetOf(ownerItems, r.owner.id)[r.id := r]], idCounter + 1)
  {
  }

  /** Replacing a stored item by one with the same id and owner keeps the index exact. */
  lemma UpdateKeepsIndex(items: map<nat, Item>, ownerItems: map<nat, map<nat, Item>>, idCounter: nat, i: Item)
    requires Indexed(items, ownerItems, idCounter)
    requires i.id in items && items[i.id].owner.id == i.owner.id
    ensures i.owner.id in ownerItems
    ensures Indexed(items[i.id := i], ownerItems[i.owner.id := SetOf(ownerItems, i.owner.id)[i.id := i]], idCounter)
  {
  }

  class InMemoryItemRepository {
    var idCounter: nat
    var items: map<nat, Item>
    /** A HashSet of items compared by id is modelled as a map from item id to item. */
    var ownerItems: map<nat, map<nat, Item>>

    /** Ids are keys and come from the counter; the owner index holds exactly the stored items. */
    ghost predicate Valid()
      reads this
    {
      Indexed(items, ownerItems, idCounter)
    }

    constructor ()
      ensures Valid() && idCounter == 0 && items == map[] && ownerItems == map[]
    {
      idCounter := 0;
      items := map[];
      ownerItems := map[];
    }

    /** getById: Optional.ofNullable(items.get(id)). */
    function GetById(id: nat): (r: Option<Item>)
      reads this
      ensures r.None? <==> id !in items
      ensures r.Some? ==> r.value == items[id]
    {
      if id in items then Some(items[id]) else None
    }

    /** create: the item gets the next id and joins both maps, its owner's set made if absent. */
    method Create(item: Item) returns (r: Item)
      requires Valid()
      modifies this
      ensures Valid()
      ensures idCounter == old(idCounter) + 1 && r == item.(id := idCounter)
      ensures r.id !in old(items)
      ensures items == old(items)[r.id := r]
      ensures ownerItems == old(ownerItems)[item.owner.id := SetOf(old(ownerItems), item.owner.id)[r.id := r]]
      ensures GetById(r.id) == Some(r)
    {
      r := item.(id := idCounter + 1);
      CreateKeepsIndex(items, ownerItems, idCounter, r);
      idCounter := idCounter + 1;
      AddNew(SetOf(ownerItems, r.owner.id), r.id, r);
      ownerItems := ownerItems[r.owner.id := Add(SetOf(ownerItems, r.owner.id), r.id, r)];
      items := items[r.id := r];
    }

    /**
     * update: removing and then adding puts the item in place of its namesake in its owner's set,
     * and the primary map is overwritten. The owner's set must exist. The index stays exact when
     * the item was stored before under the same owner.
     */
    method Update(item: Item) returns (r: Item)
      requires Valid()
      requires item.owner.id in ownerItems
      modifies this
      ensures r == item && idCounter == old(idCounter)
      ensures items == old(items)[item.id := item]
      ensures ownerItems == old(ownerItems)[item.owner.id := SetOf(old(ownerItems), item.owner.id)[item.id := item]]
      ensures item.id in old(items) && old(items)[item.id].owner.id == item.owner.id ==> Valid()
      ensures GetById(item.id) == Some(item)
    {
      var owned := Add(ownerItems[item.owner.id] - {item.id}, item.id, item);
      RemoveThenAdd(ownerItems[item.owner.id], item.id, item);
      if item.id in items && items[item.id].owner.id == item.owner.id {
        UpdateKeepsIndex(items, ownerItems, idCounter, item);
      }
      ownerItems := ownerItems[item.owner.id := owned];
      items := items[item.id := item];
      r := item;
    }

    /** getByOwner: a list of the owner's set; the owner must have a set. */
    method GetByOwner(ownerId: nat) returns (r: seq<Item>)
      requires ownerId in ownerItems
      ensures |r| == |ownerItems[ownerId]|
      ensures forall i :: i in r <==> i in ownerItems[ownerId].Values
    {
      var ids;
      ids, r := Values(ownerItems[ownerId]);
    }

    /** search: the stored items that are available and whose lower-cased name or description contains text. */
    method Search(text: string) returns (r: seq<Item>)
      ensures forall i :: i in r <==> i in items.Values && Matches(i, text)
      ensures |r| == |KeysPassing(items, MatchesQuery(text))|
    {
      var ids, all := Values(items);
      r := Filter(all, MatchesQuery(text));
      FilterValues(items, ids, MatchesQuery(text));
    }
  }

  /** On a valid store, the owner's listing is exactly the stored items of that owner. */
  lemma OwnerIndexExact(store: InMemoryItemRepository, ownerId: nat, i: Item)
    requires store.Valid() && ownerId in store.ownerItems
    ensures i in store.ownerItems[ownerId].Values <==> i in store.items.Values && i.owner.id == ownerId
  {
    if i in store.items.Values && i.owner.id == ownerId {
      var id :| id in store.items && store.items[id] == i;
      assert store.ownerItems[ownerId][id] == i;
    }
  }
}
