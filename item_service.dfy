/**
 * The server's item service: item views annotated with the last and next booking, the owner's
 * listing grouped per item, comments by past bookers, the owner's partial update, and search.
 */
module ItemService {
  import opened Common
  import opened Model
  import opened Tables
  import opened Text
  import opened Streams
  import opened Items
  import opened BookingMapper
  import opened BookingRepository

  datatype CommentDto = CommentDto(id: nat, text: string, itemId: nat, authorName: string, created: int)

  /** An item as its views show it: its fields, its comments, and its last and next booking windows. */
  datatype ItemView = ItemView(
    id: nat,
    name: string,
    description: string,
    available: bool,
    comments: seq<CommentDto>,
    lastBooking: Option<BookingDate>,
    nextBooking: Option<BookingDate>)

  function ToCommentDto(c: Comment): (r: CommentDto)
    ensures r.id == c.id && r.text == c.text && r.itemId == c.item.id
    ensures r.authorName == c.author.name && r.created == c.created
  {
    CommentDto(c.id, c.text, c.item.id, c.author.name, c.created)
  }

  function ToCommentDtos(cs: seq<Comment>): (r: seq<CommentDto>)
    ensures |r| == |cs|
    ensures forall k :: 0 <= k < |cs| ==> r[k] == ToCommentDto(cs[k])
  {
    seq(|cs|, k requires 0 <= k < |cs| => ToCommentDto(cs[k]))
  }

  // ---- the last/next booking annotator ----

  /** The filter of lastBooking: start before now and end after now, both strict, whatever the status. */
  predicate InProgress(b: Booking, now: int) { b.start < now && now < b.end }

  /** The filter of nextBooking: start after now. */
  predicate Upcoming(b: Booking, now: int) { b.start > now }

  function InProgressAt(now: int): Booking -> bool { (b: Booking) => InProgress(b, now) }
  function UpcomingAt(now: int): Booking -> bool { (b: Booking) => Upcoming(b, now) }

  /** min(comparing(start)) is max on the negated start. */
  function NegatedStartOf(b: Booking): int { -b.start }

  /** lastBooking: among the bookings in progress, the first one with the greatest end; none if there is none. */
  function LastBooking(bookings: seq<Booking>, now: int): (r: Option<Booking>)
    ensures r.None? <==> forall k :: 0 <= k < |bookings| ==> !InProgress(bookings[k], now)
    ensures r.Some? ==> InProgress(r.value, now)
    ensures r.Some? ==> exists i :: && 0 <= i < |bookings| && bookings[i] == r.value
                                    && (forall k :: 0 <= k < |bookings| && InProgress(bookings[k], now)
                                                    ==> bookings[k].end <= r.value.end)
                                    && (forall k :: 0 <= k < i && InProgress(bookings[k], now)
                                                    ==> bookings[k].end < r.value.end)
  {
    MaxSpec(bookings, InProgressAt(now), EndOf);
    Max(bookings, InProgressAt(now), EndOf)
  }

  /** nextBooking: among the upcoming bookings, the first one with the least start; none if there is none. */
  function NextBooking(bookings: seq<Booking>, now: int): (r: Option<Booking>)
    ensures r.None? <==> forall k :: 0 <= k < |bookings| ==> !Upcoming(bookings[k], now)
    ensures r.Some? ==> Upcoming(r.value, now)
    ensures r.Some? ==> exists i :: && 0 <= i < |bookings| && bookings[i] == r.value
                                    && (forall k :: 0 <= k < |bookings| && Upcoming(bookings[k], now)
                                                    ==> bookings[k].start >= r.value.start)
                                    && (forall k :: 0 <= k < i && Upcoming(bookings[k], now)
                                                    ==> bookings[k].start > r.value.start)
  {
    MaxSpec(bookings, UpcomingAt(now), NegatedStartOf);
    Max(bookings, UpcomingAt(now), NegatedStartOf)
  }

  /** getItemWithBookingsAndComments: the item's fields with the windows the annotator picks from `bookings`. */
  function Annotate(item: Item, bookings: seq<Booking>, comments: seq<Comment>, now: int): (r: ItemView)
    ensures r.id == item.id && r.name == item.name && r.description == item.description
    ensures r.available == item.available && r.comments == ToCommentDtos(comments)
    ensures r.lastBooking.None? <==> forall k :: 0 <= k < |bookings| ==> !InProgress(bookings[k], now)
    ensures r.nextBooking.None? <==> forall k :: 0 <= k < |bookings| ==> !Upcoming(bookings[k], now)
    ensures r.lastBooking.Some? ==> r.lastBooking == ToBookingDateDto(LastBooking(bookings, now))
    ensures r.nextBooking.Some? ==> r.nextBooking == ToBookingDateDto(NextBooking(bookings, now))
  {
    ItemView(item.id, item.name, item.description, item.available, ToCommentDtos(comments),
             ToBookingDateDto(LastBooking(bookings, now)), ToBookingDateDto(NextBooking(bookings, now)))
  }

  // ---- grouping per item ----

  function OfItem(itemId: nat): Booking -> bool { (b: Booking) => b.item.id == itemId }

  /** The list groupingBy(booking -> booking.getItem().getId()) holds for one item, in encounter order. */
  function BookingsOfItem(bookings: seq<Booking>, itemId: nat): (r: seq<Booking>)
    ensures forall b :: multiset(r)[b] == if b.item.id == itemId then multiset(bookings)[b] else 0
    ensures forall b :: b in r <==> b in bookings && b.item.id == itemId
  {
    Filter(bookings, OfItem(itemId))
  }

  function CommentOn(itemId: nat): Comment -> bool { (c: Comment) => c.item.id == itemId }
  function CommentOnAny(itemIds: set<nat>): Comment -> bool { (c: Comment) => c.item.id in itemIds }

  /** commentRepository.findAllByItem_Id (and one group of findAllByItem_IdIn). */
  function CommentsOfItem(comments: seq<Comment>, itemId: nat): (r: seq<Comment>)
    ensures forall c :: multiset(r)[c] == if c.item.id == itemId then multiset(comments)[c] else 0
    ensures forall c :: c in r <==> c in comments && c.item.id == itemId
  {
    Filter(comments, CommentOn(itemId))
  }

  /** Grouping the bookings of a set of items gives, for each of them, exactly that item's bookings. */
  lemma GroupOfPrefiltered(bookings: seq<Booking>, comments: seq<Comment>, itemIds: set<nat>)
    ensures forall id :: id in itemIds ==>
                           BookingsOfItem(FindAllByItemIdIn(bookings, itemIds), id) == BookingsOfItem(bookings, id)
    ensures forall id :: id in itemIds ==>
                           CommentsOfItem(Filter(comments, CommentOnAny(itemIds)), id) == CommentsOfItem(comments, id)
  {
    forall id | id in itemIds
      ensures BookingsOfItem(FindAllByItemIdIn(bookings, itemIds), id) == BookingsOfItem(bookings, id)
      ensures CommentsOfItem(Filter(comments, CommentOnAny(itemIds)), id) == CommentsOfItem(comments, id)
    {
      FilterOfFilter(bookings, ItemIn(itemIds), OfItem(id));
      FilterOfFilter(comments, CommentOnAny(itemIds), CommentOn(id));
    }
  }

  /** An item annotated with its own group shows only windows of bookings of that item. */
  lemma GroupedAnnotationOwnItem(bookings: seq<Booking>, itemId: nat, now: int)
    ensures LastBooking(BookingsOfItem(bookings, itemId), now).Some? ==>
              LastBooking(BookingsOfItem(bookings, itemId), now).value.item.id == itemId
    ensures NextBooking(BookingsOfItem(bookings, itemId), now).Some? ==>
              NextBooking(BookingsOfItem(bookings, itemId), now).value.item.id == itemId
    ensures (forall b :: b in bookings ==> b.item.id != itemId) ==>
              LastBooking(BookingsOfItem(bookings, itemId), now).None?
              && NextBooking(BookingsOfItem(bookings, itemId), now).None?
  {
  }

  /**
   * getById annotates an item with the bookings of all the items of its owner. A booking that is in
   * progress on the owner's other item shows up as this item's last booking.
   */
  lemma GetByIdShowsOtherItemsBooking(owner: User, booker: User)
    ensures var mine := Item(1, "drill", "", true, owner, None);
            var other := Item(2, "saw", "", true, owner, None);
            var b := Booking(7, 10, 20, other, booker, Approved);
            var shown := Annotate(mine, FindAllByItemOwnerId([b], owner.id), [], 15);
            shown.lastBooking == Some(BookingDate(10, 20)) && b.item.id != mine.id
  {
    var other := Item(2, "saw", "", true, owner, None);
    var b := Booking(7, 10, 20, other, booker, Approved);
    assert FindAllByItemOwnerId([b], owner.id) == [b];
  }

  // ---- comment eligibility ----

  /**
   * addComment's checks, in order: the item exists, the author exists, the author has a booking of
   * the item (a second one makes the Optional query fail), and that booking has ended before now.
   */
  function CheckComment(items: seq<Item>, users: seq<User>, bookings: seq<Booking>, itemId: nat, authorId: nat, now: int)
    : (r: Result<(Item, User)>)
    ensures Find(items, itemId, ItemId).None? ==> r == Err(NotFound(ItemEntity))
    ensures Find(items, itemId, ItemId).Some? && Find(users, authorId, UserId).None? ==> r == Err(NotFound(UserEntity))
    ensures Find(items, itemId, ItemId).Some? && Find(users, authorId, UserId).Some? ==>
              match FindByBookerIdAndItemId(bookings, authorId, itemId)
              case NoRow => r == Err(Forbidden)
              case ManyRows => r == Err(Unhandled)
              case OneRow(b) => if b.end < now then r.Ok? else r == Err(BadRequest(BookingNotFinished))
    ensures r.Ok? ==> Some(r.value.0) == Find(items, itemId, ItemId) && Some(r.value.1) == Find(users, authorId, UserId)
    ensures r.Ok? ==> exists b :: b in bookings && BookingOf(b, authorId, itemId) && b.end < now
  {
    match Find(items, itemId, ItemId)
    case None => Err(NotFound(ItemEntity))
    case Some(item) =>
      match Find(users, authorId, UserId)
      case None => Err(NotFound(UserEntity))
      case Some(author) =>
        match FindByBookerIdAndItemId(bookings, authorId, itemId)
        case NoRow => Err(Forbidden)
        case ManyRows => Err(Unhandled)
        case OneRow(b) => if !(b.end < now) then Err(BadRequest(BookingNotFinished)) else Ok((item, author))
  }

  /** Commenting fails with Forbidden exactly when the author has no booking of the item at all. */
  lemma CommentNeedsBooking(items: seq<Item>, users: seq<User>, bookings: seq<Booking>, itemId: nat, authorId: nat, now: int)
    requires Find(items, itemId, ItemId).Some? && Find(users, authorId, UserId).Some?
    ensures CheckComment(items, users, bookings, itemId, authorId, now) == Err(Forbidden)
            <==> forall b :: b in bookings ==> !BookingOf(b, authorId, itemId)
  {
  }

  /** create's checks: the owner exists, then the request exists when one is named. */
  function CheckItemCreate(users: seq<User>, requests: seq<ItemRequest>, dto: ItemCreateDto, ownerId: nat)
    : (r: Result<User>)
    ensures Find(users, ownerId, UserId).None? ==> r == Err(NotFound(UserEntity))
    ensures Find(users, ownerId, UserId).Some? && dto.requestId.Some? && Find(requests, dto.requestId.value, RequestId).None?
            ==> r == Err(NotFound(RequestEntity))
    ensures r.Ok? <==> (Find(users, ownerId, UserId).Some?
                        && (dto.requestId.Some? ==> Find(requests, dto.requestId.value, RequestId).Some?))
    ensures r.Ok? ==> Some(r.value) == Find(users, ownerId, UserId)
  {
    match Find(users, ownerId, UserId)
    case None => Err(NotFound(UserEntity))
    case Some(owner) =>
      if dto.requestId.Some? && Find(requests, dto.requestId.value, RequestId).None? then Err(NotFound(RequestEntity))
      else Ok(owner)
  }

  // ---- the service ----

  class ItemServiceImpl {
    /** The item and comment tables in storage order, each with its identity counter. */
    var items: seq<Item>
    var lastItemId: nat
    var comments: seq<Comment>
    var lastCommentId: nat

    ghost predicate Valid()
      reads this
    {
      WellFormed(items, ItemId, lastItemId) && WellFormed(comments, CommentId, lastCommentId)
    }

    constructor ()
      ensures Valid() && items == [] && comments == [] && lastItemId == 0 && lastCommentId == 0
    {
      items := [];
      lastItemId := 0;
      comments := [];
      lastCommentId := 0;
    }

    /** findById: NotFound when no item has the id. */
    function FindById(id: nat): (r: Result<Item>)
      reads this
      ensures r.Ok? ==> r.value in items && r.value.id == id
      ensures r.Err? <==> forall k :: 0 <= k < |items| ==> items[k].id != id
      ensures r.Err? ==> r.error == NotFound(ItemEntity)
    {
      match Find(items, id, ItemId)
      case None => Err(NotFound(ItemEntity))
      case Some(i) => Ok(i)
    }

    /** getById: the item, its comments, and windows chosen among the bookings of all its owner's items. */
    function GetById(id: nat, bookings: seq<Booking>, now: int): (r: Result<ItemView>)
      reads this
      ensures r.Err? <==> FindById(id).Err?
      ensures r.Err? ==> r.error == NotFound(ItemEntity)
      ensures r.Ok? ==> r.value.id == id
      ensures r.Ok? ==> r.value.comments == ToCommentDtos(CommentsOfItem(comments, id))
      ensures r.Ok? ==> var item := FindById(id).value;
                r.value.lastBooking == ToBookingDateDto(LastBooking(FindAllByItemOwnerId(bookings, item.owner.id), now))
                && r.value.nextBooking == ToBookingDateDto(NextBooking(FindAllByItemOwnerId(bookings, item.owner.id), now))
    {
      match FindById(id)
      case Err(e) => Err(e)
      case Ok(item) => Ok(Annotate(item, FindAllByItemOwnerId(bookings, item.owner.id), CommentsOfItem(comments, id), now))
    }

    /** getByOwner: the owner must exist; each of their items is annotated with its own bookings and comments only. */
    function GetByOwner(users: seq<User>, ownerId: nat, bookings: seq<Booking>, now: int): (r: Result<seq<ItemView>>)
      reads this
      ensures r.Err? <==> Find(users, ownerId, UserId).None?
      ensures r.Err? ==> r.error == NotFound(UserEntity)
      ensures r.Ok? ==> var owned := FindAllByOwnerId(items, ownerId);
                && |r.value| == |owned|
                && forall k :: 0 <= k < |owned| ==>
                     r.value[k] == Annotate(owned[k], BookingsOfItem(bookings, owned[k].id),
                                            CommentsOfItem(comments, owned[k].id), now)
    {
      if Find(users, ownerId, UserId).None? then Err(NotFound(UserEntity))
      else
        var owned := FindAllByOwnerId(items, ownerId);
        var ids := IdsOf(owned, ItemId);
        var ownedBookings := FindAllByItemIdIn(bookings, ids);
        var ownedComments := Filter(comments, CommentOnAny(ids));
        GroupOfPrefiltered(bookings, comments, ids);
        Ok(seq(|owned|, k requires 0 <= k < |owned| =>
                 Annotate(owned[k], BookingsOfItem(ownedBookings, owned[k].id),
                          CommentsOfItem(ownedComments, owned[k].id), now)))
    }

    /** search: nothing for blank text; otherwise the query's items for the lower-cased text. */
    function Search(text: string): (r: seq<ItemDto>)
      reads this
      ensures IsBlank(text) ==> r == []
      ensures !IsBlank(text) ==> |r| == |SearchByNameAndDescription(items, text)|
      ensures !IsBlank(text) ==> forall k :: 0 <= k < |r| ==>
                                   && r[k] == ToItemDto(SearchByNameAndDescription(items, text)[k])
                                   && SearchByNameAndDescription(items, text)[k] in items
                                   && Matches(SearchByNameAndDescription(items, text)[k], ToLower(text))
    {
      if IsBlank(text) then []
      else
        SearchIgnoresCase(items, text);
        var found := SearchByNameAndDescription(items, ToLower(text));
        seq(|found|, k requires 0 <= k < |found| => ToItemDto(found[k]))
    }

    /** create: on success exactly one item is appended, owned by the owner, answering the named request. */
    method Create(users: seq<User>, requests: seq<ItemRequest>, dto: ItemCreateDto, ownerId: nat)
      returns (r: Result<ItemDto>)
      requires Valid()
      modifies this
      ensures Valid() && comments == old(comments) && lastCommentId == old(lastCommentId)
      ensures var c := CheckItemCreate(users, requests, dto, ownerId);
        && (c.Err? ==> r == Err(c.error) && items == old(items) && lastItemId == old(lastItemId))
        && (c.Ok? ==> && lastItemId == old(lastItemId) + 1
                      && items == old(items) + [Item(lastItemId, dto.name, dto.description, dto.available, c.value, dto.requestId)]
                      && r == Ok(ToItemDto(items[|items| - 1])))
      ensures r.Ok? ==> FindById(lastItemId) == Ok(items[|items| - 1])
    {
      var c := CheckItemCreate(users, requests, dto, ownerId);
      if c.Err? {
        r := Err(c.error);
        return;
      }
      var item := Item(lastItemId + 1, dto.name, dto.description, dto.available, c.value, dto.requestId);
      FindAfterAppend(items, ItemId, lastItemId, item, lastItemId + 1);
      items := items + [item];
      lastItemId := lastItemId + 1;
      r := Ok(ToItemDto(item));
    }

    /** update: only the owner; the present fields are set, nothing else about the item or the table changes. */
    method Update(dto: ItemUpdateDto, ownerId: nat, id: nat) returns (r: Result<ItemDto>)
      requires Valid()
      modifies this
      ensures Valid() && lastItemId == old(lastItemId) && comments == old(comments) && lastCommentId == old(lastCommentId)
      ensures old(FindById(id)).Err? ==> r == Err(NotFound(ItemEntity)) && items == old(items)
      ensures old(FindById(id)).Ok? && old(FindById(id)).value.owner.id != ownerId ==>
                r == Err(Forbidden) && items == old(items)
      ensures old(FindById(id)).Ok? && old(FindById(id)).value.owner.id == ownerId ==>
                && FindById(id) == Ok(Patch(old(FindById(id)).value, dto))
                && r == Ok(ToItemDto(Patch(old(FindById(id)).value, dto)))
      ensures forall other :: other != id ==> FindById(other) == old(FindById(other))
    {
      match IndexOf(items, id, ItemId)
      case None =>
        r := Err(NotFound(ItemEntity));
      case Some(k) =>
        var existed := items[k];
        if existed.owner.id != ownerId {
          r := Err(Forbidden);
        } else {
          var patched := Patch(existed, dto);
          forall other | true
            ensures Find(items[k := patched], other, ItemId) == if other == id then Some(patched) else Find(items, other, ItemId)
          {
            FindAfterReplace(items, ItemId, lastItemId, k, patched, other);
          }
          FindAfterReplace(items, ItemId, lastItemId, k, patched, id);
          items := items[k := patched];
          r := Ok(ToItemDto(patched));
        }
    }

    /** addComment: on success exactly one comment is appended, by the author, on the item, created now. */
    method AddComment(users: seq<User>, bookings: seq<Booking>, text: string, itemId: nat, authorId: nat, now: int)
      returns (r: Result<CommentDto>)
      requires Valid()
      modifies this
      ensures Valid() && items == old(items) && lastItemId == old(lastItemId)
      ensures var c := CheckComment(items, users, bookings, itemId, authorId, now);
        && (c.Err? ==> r == Err(c.error) && comments == old(comments) && lastCommentId == old(lastCommentId))
        && (c.Ok? ==> && lastCommentId == old(lastCommentId) + 1
                      && comments == old(comments) + [Comment(lastCommentId, text, c.value.0, c.value.1, now)]
                      && r == Ok(ToCommentDto(comments[|comments| - 1])))
      ensures r.Ok? ==> Find(comments, r.value.id, CommentId) == Some(comments[|comments| - 1])
    {
      var c := CheckComment(items, users, bookings, itemId, authorId, now);
      if c.Err? {
        r := Err(c.error);
        return;
      }
      var comment := Comment(lastCommentId + 1, text, c.value.0, c.value.1, now);
      FindAfterAppend(comments, CommentId, lastCommentId, comment, lastCommentId + 1);
      comments := comments + [comment];
      lastCommentId := lastCommentId + 1;
      r := Ok(ToCommentDto(comment));
    }
  }
}
