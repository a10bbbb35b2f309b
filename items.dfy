/**
 * The item table's queries (findAllByOwner_id, searchByNameAndDescription, findByRequest_IdIn,
 * findByRequest_Id) and the partial update shared by both item services.
 */
module Items {
  import opened Common
  import opened Model
  import opened Tables
  import opened Text

  /** The body of an item creation: request id absent when the item answers no request. */
  datatype ItemCreateDto = ItemCreateDto(name: string, description: string, available: bool, requestId: Option<nat>)

  /** The body of an item update: an absent field is left as it is. */
  datatype ItemUpdateDto = ItemUpdateDto(name: Option<string>, description: Option<string>, available: Option<bool>)

  /** The search condition: available, and the lower-cased name or description contains q. */
  predicate Matches(i: Item, q: string) {
    i.available && (Contains(ToLower(i.name), q) || Contains(ToLower(i.description), q))
  }

  function MatchesQuery(q: string): Item -> bool {
    (i: Item) => Matches(i, q)
  }

  /** searchByNameAndDescription: `lower(...) like lower(concat('%', ?1, '%'))` lower-cases the text too. */
  function SearchByNameAndDescription(store: seq<Item>, text: string): (r: seq<Item>)
    ensures forall i :: i in r <==> i in store && Matches(i, ToLower(text))
    ensures forall i :: multiset(r)[i] == if Matches(i, ToLower(text)) then multiset(store)[i] else 0
  {
    Filter(store, MatchesQuery(ToLower(text)))
  }

  /**
   * An empty text matches every name, as `like '%%'` does: without the service's blank check
   * the query would return every available item.
   */
  lemma EmptyTextSelectsAllAvailable(store: seq<Item>)
    ensures forall i :: multiset(SearchByNameAndDescription(store, ""))[i] == if i.available then multiset(store)[i] else 0
  {
  }

  /** The query does not see the case of the text: lower-casing it first changes nothing. */
  lemma SearchIgnoresCase(store: seq<Item>, text: string)
    ensures SearchByNameAndDescription(store, ToLower(text)) == SearchByNameAndDescription(store, text)
  {
    ToLowerIdempotent(text);
  }

  function OwnedBy(ownerId: nat): Item -> bool {
    (i: Item) => i.owner.id == ownerId
  }

  /** findAllByOwner_id, in table order. */
  function FindAllByOwnerId(store: seq<Item>, ownerId: nat): (r: seq<Item>)
    ensures forall i :: multiset(r)[i] == if i.owner.id == ownerId then multiset(store)[i] else 0
  {
    Filter(store, OwnedBy(ownerId))
  }

  function AnswersAny(requestIds: set<nat>): Item -> bool {
    (i: Item) => i.request.Some? && i.request.value in requestIds
  }

  function Answers(requestId: nat): Item -> bool {
    (i: Item) => i.request == Some(requestId)
  }

  /** findByRequest_IdIn: the items answering any of the requests. */
  function FindByRequestIdIn(store: seq<Item>, requestIds: set<nat>): (r: seq<Item>)
    ensures forall i :: multiset(r)[i] ==
                          if i.request.Some? && i.request.value in requestIds then multiset(store)[i] else 0
  {
    Filter(store, AnswersAny(requestIds))
  }

  /** findByRequest_Id: the items answering one request, in table order. */
  function FindByRequestId(store: seq<Item>, requestId: nat): (r: seq<Item>)
    ensures forall i :: multiset(r)[i] == if i.request == Some(requestId) then multiset(store)[i] else 0
  {
    Filter(store, Answers(requestId))
  }

  /** The update's setters: a present field replaces the stored one; id, owner and request stay. */
  function Patch(existed: Item, dto: ItemUpdateDto): (r: Item)
    ensures r.id == existed.id && r.owner == existed.owner && r.request == existed.request
    ensures dto.name.None? ==> r.name == existed.name
    ensures dto.name.Some? ==> r.name == dto.name.value
    ensures dto.description.None? ==> r.description == existed.description
    ensures dto.description.Some? ==> r.description == dto.description.value
    ensures dto.available.None? ==> r.available == existed.available
    ensures dto.available.Some? ==> r.available == dto.available.value
  {
    existed.(name := OrElse(dto.name, existed.name),
             description := OrElse(dto.description, existed.description),
             available := OrElse(dto.available, existed.available))
  }

  /** Applying the same update twice is applying it once. */
  lemma PatchIdempotent(existed: Item, dto: ItemUpdateDto)
    ensures Patch(Patch(existed, dto), dto) == Patch(existed, dto)
  {
  }

  /** An update with every field absent changes nothing. */
  lemma EmptyPatchKeepsItem(existed: Item)
    ensures Patch(existed, ItemUpdateDto(None, None, None)) == existed
  {
  }
}
