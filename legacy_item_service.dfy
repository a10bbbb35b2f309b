/**
 * The legacy item service over the in-memory item store: creation for an existing owner, the
 * owner-checked partial update, lookup and search.
 */
module LegacyItemService {
  import opened Common
  import opened Text
  import opened Items
  import opened InMemoryItemStore
  import opened InMemoryUserStore
  import opened HashMaps

  datatype LegacyItemDto = LegacyItemDto(id: nat, name: string, description: string, available: bool, request: Option<nat>)

  /** The body of a creation: the mapper copies name, description and availability, and no request. */
  datatype LegacyItemCreateDto = LegacyItemCreateDto(name: string, description: string, available: bool)

  function ToDto(i: LegacyItem): (r: LegacyItemDto)
    ensures r.id == i.id && r.name == i.name && r.description == i.description
    ensures r.available == i.available && r.request == i.request
  {
    LegacyItemDto(i.id, i.name, i.description, i.available, i.request)
  }

  /** The update's setters on a stored item: a present field replaces the stored one; id, owner and request stay. */
  function PatchLegacy(existed: LegacyItem, dto: ItemUpdateDto): (r: LegacyItem)
    ensures r.id == existed.id && r.owner == existed.owner && r.request == existed.request
    ensures dto.name.None? ==> r.name == existed.name
    ensures dto.name.Some? ==> r.name == dto.name.value
    ensures dto.description.None? ==> r.description == existed.description
    ensures dto.description.Some? ==> r.description == dto.description.value
    ensures dto.available.None? ==> r.available == existed.available
    ensures dto.available.Some? ==> r.available == dto.available.value
  {
    existed.(name := OrElse(dto.name, existed.name),
             description := OrElse(dto.description, existed.description),
             available := OrElse(dto.available, existed.available))
  }

  /** Applying the same update twice is applying it once. */
  lemma PatchLegacyIdempotent(existed: LegacyItem, dto: ItemUpdateDto)
    ensures PatchLegacy(PatchLegacy(existed, dto), dto) == PatchLegacy(existed, dto)
  {
  }

  class ItemServiceImpl {
    const repository: InMemoryItemRepository

    ghost predicate Valid()
      reads this, repository
    {
      repository.Valid()
    }

    constructor (repository: InMemoryItemRepository)
      requires repository.Valid()
      ensures this.repository == repository && Valid()
    {
      this.repository := repository;
    }

    /** findById: NotFound when the store has no item with the id. */
    function FindById(id: nat): (r: Result<LegacyItem>)
      reads this, repository
      ensures r.Err? <==> id !in repository.items
      ensures r.Err? ==> r.error == NotFound(ItemEntity)
      ensures r.Ok? ==> r.value == repository.items[id]
    {
      match repository.GetById(id)
      case None => Err(NotFound(ItemEntity))
      case Some(i) => Ok(i)
    }

    function GetById(id: nat): (r: Result<LegacyItemDto>)
      reads this, repository
      ensures r.Err? <==> id !in repository.items
      ensures r.Err? ==> r.error == NotFound(ItemEntity)
      ensures r.Ok? ==> r.value == ToDto(repository.items[id])
    {
      match FindById(id)
      case Err(e) => Err(e)
      case Ok(i) => Ok(ToDto(i))
    }

    /** create: the owner must exist; the stored item carries the owner's id and a fresh id. */
    method Create(users: InMemoryUserRepository, dto: LegacyItemCreateDto, ownerId: nat) returns (r: Result<LegacyItemDto>)
      requires Valid()
      modifies repository
      ensures Valid()
      ensures users.FindById(ownerId).None? ==>
                r == Err(NotFound(UserEntity)) && repository.items == old(repository.items)
                && repository.ownerItems == old(repository.ownerItems) && repository.idCounter == old(repository.idCounter)
      ensures users.FindById(ownerId).Some? ==>
                var stored := LegacyItem(repository.idCounter, dto.name, dto.description, dto.available, ownerId, None);
                && repository.idCounter == old(repository.idCounter) + 1
                && stored.id !in old(repository.items)
                && repository.items == old(repository.items)[stored.id := stored]
                && r == Ok(ToDto(stored))
                && FindById(stored.id) == Ok(stored)
    {
      if users.FindById(ownerId).None? {
        r := Err(NotFound(UserEntity));
        return;
      }
      var item := LegacyItem(0, dto.name, dto.description, dto.available, ownerId, None);
      var stored := repository.Create(item);
      r := Ok(ToDto(stored));
    }

    /** update: only the stored owner may update; present fields are set, and the store's index stays exact. */
    method Update(dto: ItemUpdateDto, ownerId: nat, id: nat) returns (r: Result<LegacyItemDto>)
      requires Valid()
      modifies repository
      ensures Valid() && repository.idCounter == old(repository.idCounter)
      ensures id !in old(repository.items) ==>
                r == Err(NotFound(ItemEntity)) && repository.items == old(repository.items)
                && repository.ownerItems == old(repository.ownerItems)
      ensures id in old(repository.items) && old(repository.items)[id].owner != ownerId ==>
                r == Err(Forbidden) && repository.items == old(repository.items)
                && repository.ownerItems == old(repository.ownerItems)
      ensures id in old(repository.items) && old(repository.items)[id].owner == ownerId ==>
                var patched := PatchLegacy(old(repository.items)[id], dto);
                && repository.items == old(repository.items)[id := patched]
                && r == Ok(ToDto(patched))
    {
      var found := FindById(id);
      if found.Err? {
        r := Err(found.error);
        return;
      }
      var existed := found.value;
      if existed.owner != ownerId {
        r := Err(Forbidden);
        return;
      }
      var patched := PatchLegacy(existed, dto);
      var saved := repository.Update(patched);
      r := Ok(ToDto(saved));
    }

    /** search: nothing for blank text; otherwise the store's matches for the lower-cased text. */
    method Search(text: string) returns (r: seq<LegacyItemDto>)
      ensures IsBlank(text) ==> r == []
      ensures !IsBlank(text) ==>
                forall d :: d in r <==> exists i :: i in repository.items.Values && InMemoryItemStore.Matches(i, ToLower(text)) && d == ToDto(i)
      ensures !IsBlank(text) ==> |r| == |KeysPassing(repository.items, MatchesText(ToLower(text)))|
    {
      if IsBlank(text) {
        return [];
      }
      var found := repository.Search(ToLower(text));
      r := seq(|found|, k requires 0 <= k < |found| => ToDto(found[k]));
      forall d | d in r
        ensures exists i :: i in repository.items.Values && InMemoryItemStore.Matches(i, ToLower(text)) && d == ToDto(i)
      {
        var k :| 0 <= k < |r| && r[k] == d;
        assert found[k] in found;
      }
      forall i | i in repository.items.Values && InMemoryItemStore.Matches(i, ToLower(text))
        ensures ToDto(i) in r
      {
        var k :| 0 <= k < |found| && found[k] == i;
        assert r[k] == ToDto(i);
      }
    }
  }
}
