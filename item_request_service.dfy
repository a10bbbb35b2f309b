/**
 * The server's item-request service: requests recorded for an existing user, the user's own
 * requests with the items answering each, everyone else's requests, and lookup.
 */
module ItemRequestService {
  import opened Common
  import opened Model
  import opened Tables
  import opened Sorting
  import opened Items

  datatype ItemForRequestDto = ItemForRequestDto(id: nat, name: string, ownerId: nat)
  datatype ItemRequestDto = ItemRequestDto(id: nat, description: string, created: int)
  datatype ItemRequestWithItemsDto = ItemRequestWithItemsDto(
    id: nat,
    description: string,
    created: int,
    items: seq<ItemForRequestDto>)

  function ToItemForRequestDto(i: Item): (r: ItemForRequestDto)
    ensures r.id == i.id && r.name == i.name && r.ownerId == i.owner.id
  {
    ItemForRequestDto(i.id, i.name, i.owner.id)
  }

  function ToItemRequestDto(q: ItemRequest): (r: ItemRequestDto)
    ensures r.id == q.id && r.description == q.description && r.created == q.created
  {
    ItemRequestDto(q.id, q.description, q.created)
  }

  /** toItemRequestWithItemsDto: the request's fields and one entry per item, in order. */
  function WithItems(q: ItemRequest, items: seq<Item>): (r: ItemRequestWithItemsDto)
    ensures r.id == q.id && r.description == q.description && r.created == q.created
    ensures |r.items| == |items| && forall k :: 0 <= k < |items| ==> r.items[k] == ToItemForRequestDto(items[k])
  {
    ItemRequestWithItemsDto(q.id, q.description, q.created,
                            seq(|items|, k requires 0 <= k < |items| => ToItemForRequestDto(items[k])))
  }

  function CreatedOf(q: ItemRequest): int { q.created }

  function RequestedBy(userId: nat): ItemRequest -> bool { (q: ItemRequest) => q.requestor.id == userId }
  function NotRequestedBy(userId: nat): ItemRequest -> bool { (q: ItemRequest) => q.requestor.id != userId }

  /** findAllByRequestor_Id with Sort.by(DESC, "created"). */
  function RequestsOf(requests: seq<ItemRequest>, userId: nat): (r: seq<ItemRequest>)
    ensures forall q :: multiset(r)[q] == if q.requestor.id == userId then multiset(requests)[q] else 0
    ensures SortedDesc(r, CreatedOf)
  {
    SortDesc(Filter(requests, RequestedBy(userId)), CreatedOf)
  }

  /** findAllByRequestor_IdNot with Sort.by(DESC, "created"). */
  function RequestsOfOthers(requests: seq<ItemRequest>, userId: nat): (r: seq<ItemRequest>)
    ensures forall q :: multiset(r)[q] == if q.requestor.id != userId then multiset(requests)[q] else 0
    ensures SortedDesc(r, CreatedOf)
  {
    SortDesc(Filter(requests, NotRequestedBy(userId)), CreatedOf)
  }

  /** The groups of groupingBy(item -> item.getRequest().getId()) over the answering items are the per-request queries. */
  lemma GroupOfAnswering(items: seq<Item>, requestIds: set<nat>)
    ensures forall id :: id in requestIds ==>
                           Filter(FindByRequestIdIn(items, requestIds), Answers(id)) == FindByRequestId(items, id)
  {
    forall id | id in requestIds
      ensures Filter(FindByRequestIdIn(items, requestIds), Answers(id)) == FindByRequestId(items, id)
    {
      FilterOfFilter(items, AnswersAny(requestIds), Answers(id));
    }
  }

  /** Each request with its group of the answering items. */
  function AttachItems(mine: seq<ItemRequest>, answering: seq<Item>): (r: seq<ItemRequestWithItemsDto>)
    ensures |r| == |mine|
    ensures forall k :: 0 <= k < |mine| ==> r[k] == WithItems(mine[k], Filter(answering, Answers(mine[k].id)))
  {
    seq(|mine|, k requires 0 <= k < |mine| => WithItems(mine[k], Filter(answering, Answers(mine[k].id))))
  }

  class ItemRequestServiceImpl {
    var requests: seq<ItemRequest>
    var lastId: nat

    ghost predicate Valid()
      reads this
    {
      WellFormed(requests, RequestId, lastId)
    }

    constructor ()
      ensures Valid() && requests == [] && lastId == 0
    {
      requests := [];
      lastId := 0;
    }

    /** findById: NotFound when no request has the id. */
    function FindById(id: nat): (r: Result<ItemRequest>)
      reads this
      ensures r.Ok? ==> r.value in requests && r.value.id == id
      ensures r.Err? <==> forall k :: 0 <= k < |requests| ==> requests[k].id != id
      ensures r.Err? ==> r.error == NotFound(RequestEntity)
    {
      match Find(requests, id, RequestId)
      case None => Err(NotFound(RequestEntity))
      case Some(q) => Ok(q)
    }

    /** getById: the request with exactly the items answering it. */
    function GetById(id: nat, items: seq<Item>): (r: Result<ItemRequestWithItemsDto>)
      reads this
      ensures r.Err? <==> FindById(id).Err?
      ensures r.Err? ==> r.error == NotFound(RequestEntity)
      ensures r.Ok? ==> r.value == WithItems(FindById(id).value, FindByRequestId(items, id))
    {
      match FindById(id)
      case Err(e) => Err(e)
      case Ok(q) => Ok(WithItems(q, FindByRequestId(items, id)))
    }

    /** getByRequestor: the user must exist; their requests newest first, each with exactly its items. */
    function GetByRequestor(users: seq<User>, userId: nat, items: seq<Item>): (r: Result<seq<ItemRequestWithItemsDto>>)
      reads this
      ensures r.Err? <==> Find(users, userId, UserId).None?
      ensures r.Err? ==> r.error == NotFound(UserEntity)
      ensures r.Ok? ==> var mine := RequestsOf(requests, userId);
                && |r.value| == |mine|
                && forall k :: 0 <= k < |mine| ==> r.value[k] == WithItems(mine[k], FindByRequestId(items, mine[k].id))
    {
      if Find(users, userId, UserId).None? then Err(NotFound(UserEntity))
      else
        var mine := RequestsOf(requests, userId);
        var ids := IdsOf(mine, RequestId);
        var answering := FindByRequestIdIn(items, ids);
        GroupOfAnswering(items, ids);
        Ok(AttachItems(mine, answering))
    }

    /** getAll: everyone else's requests, newest first; the caller is not looked up. */
    function GetAll(userId: nat): (r: seq<ItemRequestDto>)
      reads this
      ensures |r| == |RequestsOfOthers(requests, userId)|
      ensures forall k :: 0 <= k < |r| ==> r[k] == ToItemRequestDto(RequestsOfOthers(requests, userId)[k])
    {
      var others := RequestsOfOthers(requests, userId);
      seq(|others|, k requires 0 <= k < |others| => ToItemRequestDto(others[k]))
    }

    /** create: the user must exist; the request is appended with them as requestor, created now. */
    method Create(users: seq<User>, description: string, userId: nat, now: int) returns (r: Result<ItemRequestDto>)
      requires Valid()
      modifies this
      ensures Valid()
      ensures Find(users, userId, UserId).None? ==>
                r == Err(NotFound(UserEntity)) && requests == old(requests) && lastId == old(lastId)
      ensures Find(users, userId, UserId).Some? ==>
                && lastId == old(lastId) + 1
                && requests == old(requests) + [ItemRequest(lastId, description, Find(users, userId, UserId).value, now)]
                && r == Ok(ToItemRequestDto(requests[|requests| - 1]))
                && FindById(lastId) == Ok(requests[|requests| - 1])
    {
      var requestor := Find(users, userId, UserId);
      if requestor.None? {
        r := Err(NotFound(UserEntity));
        return;
      }
      var q := ItemRequest(lastId + 1, description, requestor.value, now);
      FindAfterAppend(requests, RequestId, lastId, q, lastId + 1);
      requests := requests + [q];
      lastId := lastId + 1;
      r := Ok(ToItemRequestDto(q));
    }
  }

  /** The user's own requests and everyone else's split the table: each stored request is in exactly one. */
  lemma OwnAndOthersPartition(requests: seq<ItemRequest>, userId: nat)
    ensures multiset(RequestsOf(requests, userId)) + multiset(RequestsOfOthers(requests, userId)) == multiset(requests)
  {
    var a := multiset(RequestsOf(requests, userId));
    var b := multiset(RequestsOfOthers(requests, userId));
    assert forall q :: (a + b)[q] == multiset(requests)[q];
  }
}
