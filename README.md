# ShareIt core in Dafny

ShareIt is the backend of an item-sharing marketplace. Users list items. Other users book those items for a
time window, and the owner approves or rejects each booking. Users post item requests that items can answer,
and past bookers leave comments. This project models the core of that backend and proves properties of it:

- **Booking engine** (legacy tree), in `booking_service.dfy`, `booking_repository.dfy` and `booking_mapper.dfy`:
  - `create` runs its checks in the source's order and appends a WAITING booking;
  - `changeStatus` is the owner's decision;
  - `getById` is restricted to the booker and the owner;
  - `getAllByRole` maps each state and role to a repository query.
- **Server item service**, in `item_service.dfy` and `items.dfy`:
  - items are annotated with their last and next booking;
  - an owner's listing is grouped per item;
  - comments are only accepted from past bookers;
  - the owner's partial update;
  - search.
- **Server user service**, in `user_service.dfy`: the email check on create and update keeps stored emails
  unique.
- **Server item-request service**, in `item_request_service.dfy`: a user's own requests, and everyone else's.
- **Legacy item service**, in `legacy_item_service.dfy`, over the in-memory item store.
- **The three legacy in-memory repositories**, in `in_memory_item_store.dfy`, `in_memory_item_store_by_user.dfy`
  and `in_memory_user_store.dfy`. Each has an id counter and index maps. They are classes whose methods update
  those maps in place.

Relational tables are sequences in insertion order with strictly increasing ids and an identity counter
(`tables.dfy`). A JPA derived query is a filter over its table, and its contract is stated as a multiset:
each qualifying row appears as often as it is stored, and no other row appears. An `ORDER BY … DESC` is a
sorted permutation (`sorting.dfy`). `Stream.max` and `Stream.min` over a comparator are a left fold that
keeps the earlier element on a tie, as `BinaryOperator.maxBy` and `minBy` do (`streams.dfy`). Exceptions
become the `Result` type: `Error` is NotFound(entity), BadRequest(fault), Forbidden, Duplicate or Unhandled
(`common.dfy`).

Behaviours of the code that the model keeps, and proves where it can:

- Item `getById` annotates the item with the bookings of every item of the same owner, not only its own.
  `GetByIdShowsOtherItemsBooking` exhibits a booking of another item showing up as the item's last booking.
  The owner's listing (`getByOwner`) does group per item (`GroupOfPrefiltered`).
- `lastBooking` selects bookings with start < now < end, whatever their status. `nextBooking` selects
  bookings with start > now.
- `addComment` accepts a booking of any status, provided it ended strictly before now. A second booking of the
  same item by the same author makes the Optional-returning query throw. That exception has no handler of its
  own, so it is an Unhandled error.
- `changeStatus` has no guard on the prior status (`DecisionIgnoresPriorStatus`).
- The in-memory user store's `save` does not check that the email is new. Saving a second user with a taken
  email leaves the first one unreachable by email (`InMemoryUserRepository.Save`).
- The in-memory item stores keep their owner index exact only when an update does not change an item's owner
  (`UpdateKeepsIndex`, and the conditional `Valid()` of `Update`).

- `addComment` fails as Unhandled when the author has two bookings of the item, whether or not one of them has
  ended.

## Model

| member | source | states |
|---|---|---|
| `Text.ToLower` | server/src/main/java/ru/practicum/shareit/item/ItemServiceImpl.java:108 | same length; every character lower-cased position by position |
| `Text.ToLowerIdempotent` | server/src/main/java/ru/practicum/shareit/item/api/JpaItemRepository.java:13-16 | lower-casing text that is already lower-cased changes nothing (the service and the query both lower-case) |
| `Text.BlankUnderLower` | server/src/main/java/ru/practicum/shareit/item/ItemServiceImpl.java:105-108 | a string is blank exactly when its lower-cased form is |
| `Text.ContainsIff` | server/src/main/java/ru/practicum/shareit/item/api/JpaItemRepository.java:13-16 | the substring test holds exactly when the text occurs at some position (both directions) |
| `Items.EmptyTextSelectsAllAvailable` | server/src/main/java/ru/practicum/shareit/item/ItemServiceImpl.java:104-111 | an empty text matches every name, so without the blank check the query would return every available item, each as often as stored |
| `Sorting.SortDesc` | src/main/java/ru/practicum/shareit/booking/api/BookingRepository.java:35-38 | the result is sorted by descending key and is a permutation of the rows |
| `Streams.MaxFromSpec` | server/src/main/java/ru/practicum/shareit/item/ItemServiceImpl.java:144-150 | the reduction finds nothing exactly when nothing passes the filter; otherwise its element has the greatest key, and every earlier passing element has a strictly smaller one |
| `Streams.MaxSpec` | server/src/main/java/ru/practicum/shareit/item/ItemServiceImpl.java:144-155 | `filter(p).max(comparing(key))` is empty iff no element passes; otherwise it is the first element of greatest key |
| `BookingMapper.ToBookingDto` | src/main/java/ru/practicum/shareit/booking/BookingMapper.java:14-23 | id, start, end and status copied; the item and the booker shown in full through their own mappers |
| `BookingMapper.ToBooking` | src/main/java/ru/practicum/shareit/booking/BookingMapper.java:25-33 | the requested window with the given booker, status and item |
| `BookingMapper.ToBookingDateDto` | src/main/java/ru/practicum/shareit/booking/BookingMapper.java:35-43 | null stays null; otherwise exactly the start and the end |
| `BookingMapper.ToUserDto` | src/main/java/ru/practicum/shareit/user/UserMapper.java:9-15 | id, name and email copied |
| `BookingMapper.ToItemDto` | src/main/java/ru/practicum/shareit/item/ItemMapper.java:12-20 | id, name, description, availability and the request answered copied |
| `BookingMapper.ToBookingDtos` | src/main/java/ru/practicum/shareit/booking/BookingServiceImpl.java:119-121 | one transfer object per booking, in order |
| `BookingRepository.FindAllByBookerId` | src/main/java/ru/practicum/shareit/booking/api/BookingRepository.java:16 | exactly the bookings of the booker, each as often as stored |
| `BookingRepository.FindAllByBookerIdAndStatus` | src/main/java/ru/practicum/shareit/booking/api/BookingRepository.java:18 | exactly the booker's bookings with the status |
| `BookingRepository.FindAllByBookerIdAndStatusAndEndBefore` | src/main/java/ru/practicum/shareit/booking/api/BookingRepository.java:20 | exactly the booker's bookings with the status that end before now, sorted by the given key descending |
| `BookingRepository.FindAllByBookerIdAndStatusAndStartAfter` | src/main/java/ru/practicum/shareit/booking/api/BookingRepository.java:22-23 | exactly the booker's bookings with the status that start after now, sorted by the given key descending |
| `BookingRepository.FindCurrentByBooker` | src/main/java/ru/practicum/shareit/booking/api/BookingRepository.java:25-27 | exactly the booker's APPROVED bookings with start <= now <= end, sorted |
| `BookingRepository.FindAllByItemOwnerId` | src/main/java/ru/practicum/shareit/booking/api/BookingRepository.java:29-30 | exactly the bookings of items the owner owns |
| `BookingRepository.FindByOwnerAndStatus` | src/main/java/ru/practicum/shareit/booking/api/BookingRepository.java:32-33 | exactly the owner's bookings with the status |
| `BookingRepository.FindPastByItemOwner` | src/main/java/ru/practicum/shareit/booking/api/BookingRepository.java:35-38 | exactly the owner's APPROVED bookings ending before now, by end descending |
| `BookingRepository.FindCurrentByItemOwner` | src/main/java/ru/practicum/shareit/booking/api/BookingRepository.java:40-42 | exactly the owner's APPROVED bookings with start <= now <= end, sorted |
| `BookingRepository.FindFutureByItemOwner` | src/main/java/ru/practicum/shareit/booking/api/BookingRepository.java:44-47 | exactly the owner's APPROVED bookings starting after now, by start descending |
| `BookingRepository.FindAllByItemIdIn` | src/main/java/ru/practicum/shareit/booking/api/BookingRepository.java:49 | exactly the bookings of the given items |
| `BookingRepository.FindByBookerIdAndItemId` | src/main/java/ru/practicum/shareit/booking/api/BookingRepository.java:51 | no row iff the booker never booked the item; one row is the only such booking, stored once; more than one row comes from two table positions |
| `BookingRepository.ManyRowsWitness` | src/main/java/ru/practicum/shareit/booking/api/BookingRepository.java:51 | two matching rows stand at two distinct positions of the table |
| `BookingRepository.TemporalStatesDisjoint` | src/main/java/ru/practicum/shareit/booking/api/BookingRepository.java:25-47 | for start < end, PAST, CURRENT and FUTURE exclude each other |
| `BookingRepository.InvertedBookingPastAndFuture` | src/main/java/ru/practicum/shareit/booking/api/BookingRepository.java:35-47 | without start < end, one approved booking is both PAST and FUTURE |
| `BookingService.CheckCreate` | src/main/java/ru/practicum/shareit/booking/BookingServiceImpl.java:36-52 | booker missing, then item missing, then unavailable, then equal dates, then start after end, each with its own error; success exactly when all hold |
| `BookingService.UnavailableRefusedWhateverTheDates` | src/main/java/ru/practicum/shareit/booking/BookingServiceImpl.java:39-42 | an unavailable item is refused with the same error for any dates |
| `BookingService.Decide` | src/main/java/ru/practicum/shareit/booking/BookingServiceImpl.java:59-67 | Forbidden iff the actor is not the item's owner; otherwise the status becomes APPROVED or REJECTED and nothing else changes |
| `BookingService.DecisionIgnoresPriorStatus` | src/main/java/ru/practicum/shareit/booking/BookingServiceImpl.java:58-69 | the decision does not depend on the booking's prior status |
| `BookingService.Query` | src/main/java/ru/practicum/shareit/booking/BookingServiceImpl.java:94-118 | each state and role selects exactly the user's bookings in that state; FUTURE and CURRENT by start descending, PAST by end descending |
| `BookingService.AtMostOneState` | src/main/java/ru/practicum/shareit/booking/BookingServiceImpl.java:99-117 | a booking with start < end is in at most one of FUTURE, CURRENT, PAST, WAITING and REJECTED |
| `BookingService.BucketsPointwise` | src/main/java/ru/practicum/shareit/booking/BookingServiceImpl.java:94-118 | each booking appears in the five narrow listings together no more often than in ALL |
| `BookingService.BucketsWithinAll` | src/main/java/ru/practicum/shareit/booking/BookingServiceImpl.java:94-118 | the sizes of the five narrow listings add up to at most the size of ALL |
| `BookingService.BookingServiceImpl.FindById` | src/main/java/ru/practicum/shareit/booking/BookingServiceImpl.java:126-131 | the stored booking with the id, or NotFound exactly when there is none |
| `BookingService.BookingServiceImpl.GetById` | src/main/java/ru/practicum/shareit/booking/BookingServiceImpl.java:72-83 | NotFound, then Forbidden for anyone but the booker and the owner, otherwise the booking shown |
| `BookingService.BookingServiceImpl.GetAllByRole` | src/main/java/ru/practicum/shareit/booking/BookingServiceImpl.java:86-122 | NotFound iff the user is missing; a null state is ALL; otherwise the query's bookings shown in order |
| `BookingService.BookingServiceImpl.Create` | src/main/java/ru/practicum/shareit/booking/BookingServiceImpl.java:36-55 | on a failed check nothing changes; otherwise exactly one WAITING booking with the next id is appended, is found by its id, and no other id changes |
| `BookingService.BookingServiceImpl.ChangeStatus` | src/main/java/ru/practicum/shareit/booking/BookingServiceImpl.java:58-69 | NotFound or Forbidden leave the table unchanged; otherwise the decided booking replaces the stored one and a later lookup returns it |
| `Items.SearchByNameAndDescription` | server/src/main/java/ru/practicum/shareit/item/api/JpaItemRepository.java:13-16 | exactly the available items whose lower-cased name or description contains the lower-cased text |
| `Items.SearchIgnoresCase` | server/src/main/java/ru/practicum/shareit/item/api/JpaItemRepository.java:13-16 | lower-casing the text before the query changes nothing |
| `Items.FindAllByOwnerId` | server/src/main/java/ru/practicum/shareit/item/api/JpaItemRepository.java:11 | exactly the owner's items |
| `Items.FindByRequestIdIn` | server/src/main/java/ru/practicum/shareit/item/api/JpaItemRepository.java:18 | exactly the items answering one of the requests |
| `Items.FindByRequestId` | server/src/main/java/ru/practicum/shareit/item/api/JpaItemRepository.java:20 | exactly the items answering the request |
| `Items.Patch` | server/src/main/java/ru/practicum/shareit/item/ItemServiceImpl.java:69-77 | each present field replaces the stored one and each absent field keeps it; id, owner and request stay |
| `Items.PatchIdempotent` | server/src/main/java/ru/practicum/shareit/item/ItemServiceImpl.java:69-78 | applying the same update twice is applying it once |
| `Items.EmptyPatchKeepsItem` | server/src/main/java/ru/practicum/shareit/item/ItemServiceImpl.java:69-77 | an update with no field present leaves the item as it is |
| `ItemService.ToCommentDto` | server/src/main/java/ru/practicum/shareit/item/CommentMapper.java:20-28 | id, text, item id, author name and creation time copied |
| `ItemService.ToCommentDtos` | server/src/main/java/ru/practicum/shareit/item/CommentMapper.java:30-32 | one transfer object per comment, in order |
| `ItemService.LastBooking` | server/src/main/java/ru/practicum/shareit/item/ItemServiceImpl.java:144-150 | none iff no booking is in progress (start < now < end); otherwise a booking in progress with the greatest end, the first such in the list |
| `ItemService.NextBooking` | server/src/main/java/ru/practicum/shareit/item/ItemServiceImpl.java:152-155 | none iff no booking starts after now; otherwise an upcoming booking with the least start, the first such in the list |
| `ItemService.Annotate` | server/src/main/java/ru/practicum/shareit/item/ItemServiceImpl.java:143-158 | the item's fields and comments, with a last or next window present exactly when some booking qualifies |
| `ItemService.BookingsOfItem` | server/src/main/java/ru/practicum/shareit/item/ItemServiceImpl.java:87-89 | a group holds exactly the bookings of that item, each as often as it occurs |
| `ItemService.CommentsOfItem` | src/main/java/ru/practicum/shareit/item/api/CommentRepository.java:10 | exactly the comments on the item, each as often as stored |
| `ItemService.GroupOfPrefiltered` | server/src/main/java/ru/practicum/shareit/item/ItemServiceImpl.java:84-98 | grouping the bookings and comments fetched for the owner's items gives, for each item, exactly its own bookings and comments |
| `ItemService.GroupedAnnotationOwnItem` | server/src/main/java/ru/practicum/shareit/item/ItemServiceImpl.java:94-99 | an item annotated with its own group only shows windows of its own bookings, and none when it has no booking |
| `ItemService.GetByIdShowsOtherItemsBooking` | server/src/main/java/ru/practicum/shareit/item/ItemServiceImpl.java:42-47 | a booking of another item of the same owner can be shown as the item's last booking |
| `Tables.IdsOf` | server/src/main/java/ru/practicum/shareit/item/ItemServiceImpl.java:84-86 | exactly the ids of the listed rows: each listed id is in the set and each id in the set is listed (also the request ids of ItemRequestServiceImpl lines 43-45) |
| `ItemService.CheckComment` | server/src/main/java/ru/practicum/shareit/item/ItemServiceImpl.java:123-138 | item missing, then author missing, then no booking (Forbidden), two bookings (Unhandled), a booking not ended before now (BadRequest); success implies an ended booking of the item by the author |
| `ItemService.CommentNeedsBooking` | server/src/main/java/ru/practicum/shareit/item/ItemServiceImpl.java:126-132 | Forbidden exactly when the author has no booking of the item |
| `ItemService.CheckItemCreate` | server/src/main/java/ru/practicum/shareit/item/ItemServiceImpl.java:50-56 | owner missing, then a named request missing; success exactly when both resolve |
| `ItemService.ItemServiceImpl.FindById` | server/src/main/java/ru/practicum/shareit/item/ItemServiceImpl.java:114-120 | the stored item with the id, or NotFound exactly when there is none |
| `ItemService.ItemServiceImpl.GetById` | server/src/main/java/ru/practicum/shareit/item/ItemServiceImpl.java:42-47 | NotFound iff missing; otherwise the item's comments and windows chosen among all its owner's bookings |
| `ItemService.ItemServiceImpl.GetByOwner` | server/src/main/java/ru/practicum/shareit/item/ItemServiceImpl.java:82-101 | NotFound iff the owner is missing; otherwise each owned item annotated with its own bookings and comments |
| `ItemService.ItemServiceImpl.Search` | server/src/main/java/ru/practicum/shareit/item/ItemServiceImpl.java:104-111 | nothing for blank text; otherwise exactly the query's matches, each a stored available item matching the lower-cased text |
| `ItemService.ItemServiceImpl.Create` | server/src/main/java/ru/practicum/shareit/item/ItemServiceImpl.java:50-59 | on a failed check nothing changes; otherwise one item with the next id, the owner and the request is appended and found by its id |
| `ItemService.ItemServiceImpl.Update` | server/src/main/java/ru/practicum/shareit/item/ItemServiceImpl.java:62-79 | NotFound, then Forbidden for a non-owner, each with nothing changed; otherwise the patched item is stored, and no other id changes |
| `ItemService.ItemServiceImpl.AddComment` | server/src/main/java/ru/practicum/shareit/item/ItemServiceImpl.java:123-141 | on a failed check nothing changes; otherwise one comment by the author on the item, created now, is appended |
| `ItemRequestService.ToItemForRequestDto` | server/src/main/java/ru/practicum/shareit/item/ItemMapper.java:51-57 | id, name and owner id copied |
| `ItemRequestService.ToItemRequestDto` | server/src/main/java/ru/practicum/shareit/request/ItemRequestMapper.java:15-21 | id, description and creation time copied |
| `ItemRequestService.WithItems` | server/src/main/java/ru/practicum/shareit/request/ItemRequestMapper.java:23-33 | the request's fields and one entry per item, in order |
| `ItemRequestService.RequestsOf` | server/src/main/java/ru/practicum/shareit/request/api/ItemRequestRepository.java:10 | exactly the user's requests, newest first |
| `ItemRequestService.RequestsOfOthers` | server/src/main/java/ru/practicum/shareit/request/api/ItemRequestRepository.java:12 | exactly the requests of other users, newest first |
| `ItemRequestService.GroupOfAnswering` | server/src/main/java/ru/practicum/shareit/request/ItemRequestServiceImpl.java:46-53 | each group of the answering items is exactly the items answering that request |
| `ItemRequestService.OwnAndOthersPartition` | server/src/main/java/ru/practicum/shareit/request/ItemRequestServiceImpl.java:39-64 | the user's own requests and everyone else's together are the whole table |
| `ItemRequestService.ItemRequestServiceImpl.FindById` | server/src/main/java/ru/practicum/shareit/request/ItemRequestServiceImpl.java:73-79 | the stored request with the id, or NotFound exactly when there is none |
| `ItemRequestService.ItemRequestServiceImpl.GetById` | server/src/main/java/ru/practicum/shareit/request/ItemRequestServiceImpl.java:67-71 | NotFound iff missing; otherwise the request with exactly its answering items |
| `ItemRequestService.ItemRequestServiceImpl.GetByRequestor` | server/src/main/java/ru/practicum/shareit/request/ItemRequestServiceImpl.java:39-55 | NotFound iff the user is missing; otherwise the user's requests newest first, each with exactly its answering items |
| `ItemRequestService.ItemRequestServiceImpl.GetAll` | server/src/main/java/ru/practicum/shareit/request/ItemRequestServiceImpl.java:58-64 | other users' requests newest first, without looking the caller up |
| `ItemRequestService.ItemRequestServiceImpl.Create` | server/src/main/java/ru/practicum/shareit/request/ItemRequestServiceImpl.java:32-36 | NotFound with nothing changed, or one request by the user, created now, appended with the next id |
| `UserService.UpdatedUser` | server/src/main/java/ru/practicum/shareit/user/UserServiceImpl.java:45-59 | Duplicate iff a different present email is used by some user; otherwise id kept, name and email set when present |
| `UserService.UpdateIdempotent` | server/src/main/java/ru/practicum/shareit/user/UserServiceImpl.java:48-56 | re-sending a successful update yields the same user, whatever the table |
| `UserService.SameEmailNotChecked` | server/src/main/java/ru/practicum/shareit/user/UserServiceImpl.java:51-56 | an update naming the current email is never a Duplicate |
| `UserService.UserServiceImpl.FindById` | server/src/main/java/ru/practicum/shareit/user/UserServiceImpl.java:67-72 | the stored user with the id, or NotFound exactly when there is none |
| `UserService.UserServiceImpl.GetById` | server/src/main/java/ru/practicum/shareit/user/UserServiceImpl.java:33-35 | NotFound iff missing; otherwise the user shown |
| `UserService.UserServiceImpl.GetAll` | server/src/main/java/ru/practicum/shareit/user/UserServiceImpl.java:26-30 | every stored user shown, in table order |
| `UserService.UserServiceImpl.Create` | server/src/main/java/ru/practicum/shareit/user/UserServiceImpl.java:38-42 | Duplicate with nothing changed when the email is used; otherwise one user appended with the next id; emails stay unique |
| `UserService.UserServiceImpl.Update` | server/src/main/java/ru/practicum/shareit/user/UserServiceImpl.java:45-59 | NotFound or Duplicate with nothing changed; otherwise the updated user replaces the stored one; emails stay unique and no other id changes |
| `UserService.UserServiceImpl.Delete` | server/src/main/java/ru/practicum/shareit/user/UserServiceImpl.java:62-64 | the id is no longer found; every other id is found as before; a missing id changes nothing |
| `UserService.UpdateKeepsEmailsUnique` | server/src/main/java/ru/practicum/shareit/user/UserServiceImpl.java:51-56 | a successful update keeps all stored emails distinct |
| `UserService.RemoveKeepsEmailsUnique` | server/src/main/java/ru/practicum/shareit/user/UserServiceImpl.java:62-64 | removing a user keeps all stored emails distinct |
| `LegacyItemService.ToDto` | src/main/java/ru/practicum/shareit/item/ItemMapper.java:12-20 | id, name, description, availability and request copied |
| `LegacyItemService.PatchLegacy` | src/main/java/ru/practicum/shareit/item/ItemServiceImpl.java:50-58 | each present field replaces the stored one and each absent field keeps it; id, owner and request stay |
| `LegacyItemService.PatchLegacyIdempotent` | src/main/java/ru/practicum/shareit/item/ItemServiceImpl.java:50-59 | applying the same update twice is applying it once |
| `LegacyItemService.ItemServiceImpl.FindById` | src/main/java/ru/practicum/shareit/item/ItemServiceImpl.java:79-85 | the stored item, or NotFound exactly when the store has none |
| `LegacyItemService.ItemServiceImpl.GetById` | src/main/java/ru/practicum/shareit/item/ItemServiceImpl.java:30-32 | NotFound iff missing; otherwise the item shown |
| `LegacyItemService.ItemServiceImpl.Create` | src/main/java/ru/practicum/shareit/item/ItemServiceImpl.java:35-40 | NotFound with the store unchanged when the owner is missing; otherwise the item stored under a fresh id with that owner and no request |
| `LegacyItemService.ItemServiceImpl.Update` | src/main/java/ru/practicum/shareit/item/ItemServiceImpl.java:43-60 | NotFound, then Forbidden for a non-owner, with the store unchanged; otherwise the patched item stored; the store stays valid |
| `LegacyItemService.ItemServiceImpl.Search` | src/main/java/ru/practicum/shareit/item/ItemServiceImpl.java:70-77 | nothing for blank text; otherwise the stored items matching the lower-cased text, shown, one entry per matching stored item |
| `HashMaps.RemoveThenAdd` | src/main/java/ru/practicum/shareit/item/InMemoryItemRepository.java:33-34 | removing the item and then adding it to a set compared by id leaves it in place of its namesake (adding alone would keep the namesake) |
| `HashMaps.AddKeepsNamesake` | src/main/java/ru/practicum/shareit/item/InMemory/InMemoryItemRepository.java:32-33 | adding an item whose id is already in the set leaves the set as it was, so the update has to remove first |
| `HashMaps.AddNew` | src/main/java/ru/practicum/shareit/item/InMemory/InMemoryItemRepository.java:24 | adding an item with a fresh id to its owner's set puts it in next to the others |
| `HashMaps.Values` | src/main/java/ru/practicum/shareit/user/inMemory/InMemoryUserRepository.java:15-17 | a listing of the map's values: each key visited once, the value of each visited key at its position, every value present |
| `HashMaps.FilterValues` | src/main/java/ru/practicum/shareit/item/InMemoryItemRepository.java:45-50 | filtering such a listing keeps exactly the passing values, one entry per key whose value passes |
| `HashMaps.FilterValuesCount` | src/main/java/ru/practicum/shareit/item/InMemory/InMemoryItemRepository.java:44-49 | the filtered listing has one entry per listed key whose value passes |
| `InMemoryItemStore.CreateKeepsIndex` | src/main/java/ru/practicum/shareit/item/InMemoryItemRepository.java:23-28 | adding an item under the next id, to the primary map and to its owner's set, keeps the index exact |
| `InMemoryItemStore.UpdateKeepsIndex` | src/main/java/ru/practicum/shareit/item/InMemoryItemRepository.java:31-37 | replacing a stored item with one of the same id and owner keeps the index exact |
| `InMemoryItemStore.InMemoryItemRepository.GetById` | src/main/java/ru/practicum/shareit/item/InMemoryItemRepository.java:18-20 | the item stored under the id, or none exactly when there is none |
| `InMemoryItemStore.InMemoryItemRepository.Create` | src/main/java/ru/practicum/shareit/item/InMemoryItemRepository.java:23-28 | the counter advances; the item with the new id joins the primary map and, by `add` of a fresh id, its owner's set, which is made when absent |
| `InMemoryItemStore.InMemoryItemRepository.Update` | src/main/java/ru/practicum/shareit/item/InMemoryItemRepository.java:31-37 | after removing and adding, the item stands in place of its namesake in both maps; the index stays exact when the owner is unchanged |
| `InMemoryItemStore.InMemoryItemRepository.GetByOwner` | src/main/java/ru/practicum/shareit/item/InMemoryItemRepository.java:40-42 | one entry per item of the owner's set |
| `InMemoryItemStore.InMemoryItemRepository.Search` | src/main/java/ru/practicum/shareit/item/InMemoryItemRepository.java:45-50 | exactly the stored available items whose lower-cased name or description contains the text, one entry per matching stored item |
| `InMemoryItemStore.OwnerIndexExact` | src/main/java/ru/practicum/shareit/item/InMemoryItemRepository.java:40-42 | on a valid store an owner's set holds exactly the stored items of that owner |
| `InMemoryItemStoreByUser.CreateKeepsIndex` | src/main/java/ru/practicum/shareit/item/InMemory/InMemoryItemRepository.java:22-27 | adding an item under the next id, to the primary map and to its owner's set, keeps the index exact |
| `InMemoryItemStoreByUser.UpdateKeepsIndex` | src/main/java/ru/practicum/shareit/item/InMemory/InMemoryItemRepository.java:30-36 | replacing a stored item with one of the same id and owner keeps the index exact |
| `InMemoryItemStoreByUser.InMemoryItemRepository.GetById` | src/main/java/ru/practicum/shareit/item/InMemory/InMemoryItemRepository.java:17-19 | the item stored under the id, or none exactly when there is none |
| `InMemoryItemStoreByUser.InMemoryItemRepository.Create` | src/main/java/ru/practicum/shareit/item/InMemory/InMemoryItemRepository.java:22-27 | the counter advances; the item with the new id joins the primary map and the set of its owner's id |
| `InMemoryItemStoreByUser.InMemoryItemRepository.Update` | src/main/java/ru/practicum/shareit/item/InMemory/InMemoryItemRepository.java:30-36 | after removing and adding, the item stands in place of its namesake in both maps; the index stays exact when the owner is unchanged |
| `InMemoryItemStoreByUser.InMemoryItemRepository.GetByOwner` | src/main/java/ru/practicum/shareit/item/InMemory/InMemoryItemRepository.java:39-41 | one entry per item of the owner's set |
| `InMemoryItemStoreByUser.InMemoryItemRepository.Search` | src/main/java/ru/practicum/shareit/item/InMemory/InMemoryItemRepository.java:44-49 | exactly the stored available items whose lower-cased name or description contains the text, one entry per matching stored item |
| `InMemoryItemStoreByUser.OwnerIndexExact` | src/main/java/ru/practicum/shareit/item/InMemory/InMemoryItemRepository.java:39-41 | on a valid store an owner's set holds exactly the stored items of that owner |
| `InMemoryUserStore.InMemoryUserRepository.FindById` | src/main/java/ru/practicum/shareit/user/inMemory/InMemoryUserRepository.java:20-22 | the user stored under the id, or none exactly when there is none |
| `InMemoryUserStore.InMemoryUserRepository.FindByEmail` | src/main/java/ru/practicum/shareit/user/inMemory/InMemoryUserRepository.java:50-52 | the user indexed under the email, or none exactly when there is none |
| `InMemoryUserStore.InMemoryUserRepository.FindAll` | src/main/java/ru/practicum/shareit/user/inMemory/InMemoryUserRepository.java:15-17 | one entry per stored user, exactly the stored users |
| `InMemoryUserStore.InMemoryUserRepository.Save` | src/main/java/ru/practicum/shareit/user/inMemory/InMemoryUserRepository.java:25-30 | the user gets the next id and is entered under it and under its email; a taken email loses its previous holder from the index |
| `InMemoryUserStore.InMemoryUserRepository.Update` | src/main/java/ru/practicum/shareit/user/inMemory/InMemoryUserRepository.java:33-41 | the user replaces the stored one; a changed email loses its old key; other ids unchanged |
| `InMemoryUserStore.InMemoryUserRepository.Delete` | src/main/java/ru/practicum/shareit/user/inMemory/InMemoryUserRepository.java:44-47 | the user leaves both maps; a complete index stays complete |
| `InMemoryUserStore.IndexedMeansUniqueEmails` | src/main/java/ru/practicum/shareit/user/inMemory/InMemoryUserRepository.java:50-52 | when every stored user is found by its email, no two stored users share an email |

## Left out

- The gateway module, the controllers, the HTTP clients, the error handler's mapping to status codes and bean
  validation are not modelled. Request bodies are assumed to have passed validation, so their fields are
  present.
- The clock. Each operation takes one `now` parameter, in place of the `LocalDateTime.now()` calls. Timestamps
  are integers. A comment's and a request's creation time is that `now`.
- Spring Data and the database are not modelled. Tables are sequences with an identity counter. Transactions,
  concurrency, the database's unique constraint on email and the missing overlap check between bookings are
  not modelled.
- Stored bookings, items and comments hold the user and item values they were created with. A later update of
  an item or a user does not reach the bookings that reference it, as it would through JPA references. The
  owner and the ids never change, so no query is affected.
- The server's item transfer object carries the answered request as a nested object. The model keeps only the
  request's id.
- `searchByNameAndDescription`'s `LIKE` patterns are modelled as a plain substring test. A `%` or `_` in the
  text is not treated as a wildcard.
- `String.toLowerCase` and SQL `lower` are modelled on the letters A to Z only. `String.isBlank` is modelled on
  ASCII whitespace only.
- Among rows with equal sort keys, `ORDER BY` promises no particular order. The model keeps table order there,
  and the contracts state only that the result is sorted and a permutation.
- `ItemService.ItemServiceImpl.GetByOwner`: the source lists the owner's items in the iteration order of a
  `HashMap` keyed by id. The model lists them in table order.
- `InMemoryItemStore.InMemoryItemRepository.GetByOwner`, `InMemoryItemStoreByUser.InMemoryItemRepository.GetByOwner`
  and `InMemoryUserStore.InMemoryUserRepository.FindAll` state membership and length, not order. The stores'
  `Search` methods state membership and one entry per matching key, not order. Their source
  lists `HashMap` or `HashSet` contents in an order the collection chooses.
- `LegacyItemService.ItemServiceImpl.Search` states membership and one entry per matching stored item, not order,
  for the same reason.
- The legacy item service's `getByOwner` is not modelled. It maps each item with a four-argument mapper through
  a one-argument method reference, so that source does not compile.
- The legacy item entity holds its owner as a `User`. The legacy item service and the store in
  `item/InMemoryItemRepository.java` use the owner as an id (`setOwner(ownerId)`, `ownerItems.get(item.getOwner())`).
  The model follows those two files and gives `LegacyItem` an owner id.
- Aliasing is not modelled. The legacy update applies its setters to the object the store already holds,
  before `update` is called. The model stores values, so the state after the update is the same.
- The legacy item service's owner check calls a legacy user service that is not part of this model. The model
  looks the owner up in the in-memory user store instead.
- Null dereferences in the in-memory stores are preconditions, not error results:
  - `update` on an owner with no set;
  - `getByOwner` of an unknown owner;
  - the user store's `update` and `delete` of a missing id.
- `deleteById` of a missing id is modelled as doing nothing. That is the behaviour of current Spring Data.
- Java `long` ids are unbounded naturals; the counters do not wrap around.
- The second-row failure of `findByBooker_IdAndItem_Id` is modelled as `Unhandled`. The exception's actual
  type and message are not modelled.
- Log messages and exception texts are not modelled; each distinct business-rule message becomes a distinct
  `Fault`.
