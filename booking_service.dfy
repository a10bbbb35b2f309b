/**
 * The booking engine: creation with its ordered checks, the owner's approve/reject transition,
 * booker-or-owner access, and the state/role query dispatch.
 */
module BookingService {
  import opened Common
  import opened Model
  import opened Tables
  import opened Sorting
  import opened BookingMapper
  import opened BookingRepository

  /** The state filter of a booking listing. */
  datatype State = All | Future | Current | Past | Waiting | Rejected

  /** The perspective of a listing: the user's own bookings, or the bookings of the user's items. */
  datatype UserRole = Booker | Owner

  // ---- pure rules ----

  /**
   * The checks of create, in the order the source makes them: the booker exists, the item exists,
   * the item is available, the dates differ, the start is not after the end.
   */
  function CheckCreate(users: seq<User>, items: seq<Item>, dto: BookingCreateDto, bookerId: nat)
    : (r: Result<(User, Item)>)
    ensures Find(users, bookerId, UserId).None? ==> r == Err(NotFound(UserEntity))
    ensures Find(users, bookerId, UserId).Some? && Find(items, dto.itemId, ItemId).None?
            ==> r == Err(NotFound(ItemEntity))
    ensures Find(users, bookerId, UserId).Some? && Find(items, dto.itemId, ItemId).Some?
            ==> var item := Find(items, dto.itemId, ItemId).value;
                && (!item.available ==> r == Err(BadRequest(ItemUnavailable)))
                && (item.available && dto.start == dto.end ==> r == Err(BadRequest(DatesCoincide)))
                && (item.available && dto.start > dto.end ==> r == Err(BadRequest(StartAfterEnd)))
    ensures r.Ok? <==> (Find(users, bookerId, UserId).Some? && Find(items, dto.itemId, ItemId).Some?
                        && Find(items, dto.itemId, ItemId).value.available && dto.start < dto.end)
    ensures r.Ok? ==> Some(r.value.0) == Find(users, bookerId, UserId) && Some(r.value.1) == Find(items, dto.itemId, ItemId)
  {
    match Find(users, bookerId, UserId)
    case None => Err(NotFound(UserEntity))
    case Some(booker) =>
      match Find(items, dto.itemId, ItemId)
      case None => Err(NotFound(ItemEntity))
      case Some(item) =>
        if !item.available then Err(BadRequest(ItemUnavailable))
        else if dto.start == dto.end then Err(BadRequest(DatesCoincide))
        else if dto.start > dto.end then Err(BadRequest(StartAfterEnd))
        else Ok((booker, item))
  }

  /** An unavailable item is refused whatever the dates, before the dates are looked at. */
  lemma UnavailableRefusedWhateverTheDates(users: seq<User>, items: seq<Item>, dto: BookingCreateDto, bookerId: nat,
                                           start: int, end: int)
    requires Find(users, bookerId, UserId).Some? && Find(items, dto.itemId, ItemId).Some?
    requires !Find(items, dto.itemId, ItemId).value.available
    ensures CheckCreate(users, items, dto.(start := start, end := end), bookerId) == Err(BadRequest(ItemUnavailable))
  {
  }

  /** changeStatus on a fetched booking: only the item's owner may decide, and the decision is the only change. */
  function Decide(b: Booking, ownerId: nat, isApproved: bool): (r: Result<Booking>)
    ensures r.Err? <==> b.item.owner.id != ownerId
    ensures r.Err? ==> r.error == Forbidden
    ensures r.Ok? ==> r.value.status == (if isApproved then Approved else Status.Rejected)
    ensures r.Ok? ==> r.value.(status := b.status) == b
  {
    if b.item.owner.id != ownerId then Err(Forbidden)
    else Ok(b.(status := if isApproved then Approved else Status.Rejected))
  }

  /** There is no guard on the prior status: a decided booking can be decided again, either way. */
  lemma DecisionIgnoresPriorStatus(b: Booking, prior: Status, ownerId: nat, isApproved: bool)
    requires b.item.owner.id == ownerId
    ensures Decide(b.(status := prior), ownerId, isApproved) == Decide(b, ownerId, isApproved)
  {
  }

  /** getById's access rule: the booker or the item's owner. */
  predicate MayView(b: Booking, userId: nat) {
    userId == b.booker.id || userId == b.item.owner.id
  }

  predicate Involves(b: Booking, userId: nat, role: UserRole) {
    if role == Owner then OfItemOwner(b, userId) else BookedBy(b, userId)
  }

  /** What each state selects, independently of the role. */
  predicate InState(b: Booking, state: State, now: int) {
    match state
    case All => true
    case Future => IsFuture(b, now)
    case Current => IsCurrent(b, now)
    case Past => IsPast(b, now)
    case Waiting => b.status == Status.Waiting
    case Rejected => b.status == Status.Rejected
  }

  /** The order each state promises: FUTURE and CURRENT by start descending, PAST by end descending. */
  function OrderOf(state: State): Option<Sort> {
    match state
    case Future => Some(StartDesc)
    case Current => Some(StartDesc)
    case Past => Some(EndDesc)
    case _ => None
  }

  /** The switch of getAllByRole: which repository query answers each state for each role. */
  function Query(store: seq<Booking>, userId: nat, state: State, role: UserRole, now: int): (r: seq<Booking>)
    ensures forall b :: multiset(r)[b] ==
                          if Involves(b, userId, role) && InState(b, state, now) then multiset(store)[b] else 0
    ensures OrderOf(state).Some? ==> SortedDesc(r, KeyOf(OrderOf(state).value))
  {
    if role == Owner then OwnerQuery(store, userId, state, now) else BookerQuery(store, userId, state, now)
  }

  /** The owner's branch of the switch. */
  function OwnerQuery(store: seq<Booking>, userId: nat, state: State, now: int): (r: seq<Booking>)
    ensures forall b :: multiset(r)[b] ==
                          if OfItemOwner(b, userId) && InState(b, state, now) then multiset(store)[b] else 0
    ensures OrderOf(state).Some? ==> SortedDesc(r, KeyOf(OrderOf(state).value))
  {
    match state
    case All => FindAllByItemOwnerId(store, userId)
    case Future => FindFutureByItemOwner(store, userId, now)
    case Current => FindCurrentByItemOwner(store, userId, now, StartDesc)
    case Past => FindPastByItemOwner(store, userId, now)
    case Waiting => FindByOwnerAndStatus(store, userId, Status.Waiting)
    case Rejected => FindByOwnerAndStatus(store, userId, Status.Rejected)
  }

  /** The booker's branch of the switch. */
  function BookerQuery(store: seq<Booking>, userId: nat, state: State, now: int): (r: seq<Booking>)
    ensures forall b :: multiset(r)[b] ==
                          if BookedBy(b, userId) && InState(b, state, now) then multiset(store)[b] else 0
    ensures OrderOf(state).Some? ==> SortedDesc(r, KeyOf(OrderOf(state).value))
  {
    match state
    case All => FindAllByBookerId(store, userId)
    case Future => FindAllByBookerIdAndStatusAndStartAfter(store, userId, Approved, now, StartDesc)
    case Current => FindCurrentByBooker(store, userId, now, StartDesc)
    case Past => FindAllByBookerIdAndStatusAndEndBefore(store, userId, Approved, now, EndDesc)
    case Waiting => FindAllByBookerIdAndStatus(store, userId, Status.Waiting)
    case Rejected => FindAllByBookerIdAndStatus(store, userId, Status.Rejected)
  }

  /** For a booking that starts before it ends, at most one of the five narrower states holds. */
  lemma AtMostOneState(b: Booking, now: int)
    requires b.start < b.end
    ensures (if InState(b, Future, now) then 1 else 0) + (if InState(b, Current, now) then 1 else 0)
            + (if InState(b, Past, now) then 1 else 0) + (if InState(b, State.Waiting, now) then 1 else 0)
            + (if InState(b, State.Rejected, now) then 1 else 0) <= 1
  {
    TemporalStatesDisjoint(b, now);
  }

  /** The five narrower listings together hold each booking no more often than ALL does. */
  lemma BucketsPointwise(store: seq<Booking>, userId: nat, role: UserRole, now: int, b: Booking)
    requires forall i :: 0 <= i < |store| ==> store[i].start < store[i].end
    ensures multiset(Query(store, userId, Future, role, now))[b] + multiset(Query(store, userId, Current, role, now))[b]
            + multiset(Query(store, userId, Past, role, now))[b]
            + multiset(Query(store, userId, State.Waiting, role, now))[b]
            + multiset(Query(store, userId, State.Rejected, role, now))[b]
            <= multiset(Query(store, userId, All, role, now))[b]
  {
    if b in store {
      var i :| 0 <= i < |store| && store[i] == b;
      AtMostOneState(b, now);
    }
  }

  /**
   * When every booking starts before it ends, the five narrower listings together hold no more
   * bookings than ALL: no booking is counted in two of them.
   */
  lemma BucketsWithinAll(store: seq<Booking>, userId: nat, role: UserRole, now: int)
    requires forall i :: 0 <= i < |store| ==> store[i].start < store[i].end
    ensures |Query(store, userId, Future, role, now)| + |Query(store, userId, Current, role, now)|
            + |Query(store, userId, Past, role, now)| + |Query(store, userId, State.Waiting, role, now)|
            + |Query(store, userId, State.Rejected, role, now)|
            <= |Query(store, userId, All, role, now)|
  {
    var mF := multiset(Query(store, userId, Future, role, now));
    var mC := multiset(Query(store, userId, Current, role, now));
    var mP := multiset(Query(store, userId, Past, role, now));
    var mW := multiset(Query(store, userId, State.Waiting, role, now));
    var mR := multiset(Query(store, userId, State.Rejected, role, now));
    var mA := multiset(Query(store, userId, All, role, now));
    forall b
      ensures (mF + mC + mP + mW + mR)[b] <= mA[b]
    {
      BucketsPointwise(store, userId, role, now, b);
    }
    MultisetSizeBound(mF + mC + mP + mW + mR, mA);
  }

  // ---- the service and its booking table ----

  class BookingServiceImpl {
    /** The booking table in storage order, and the last id its identity column handed out. */
    var bookings: seq<Booking>
    var lastId: nat

    /** Ids are unique and issued by the counter; every stored booking starts before it ends. */
    ghost predicate Valid()
      reads this
    {
      && WellFormed(bookings, BookingId, lastId)
      && forall i :: 0 <= i < |bookings| ==> bookings[i].start < bookings[i].end
    }

    constructor ()
      ensures Valid() && bookings == [] && lastId == 0
    {
      bookings := [];
      lastId := 0;
    }

    /** findById: NotFound when no booking has the id. */
    function FindById(id: nat): (r: Result<Booking>)
      reads this
      ensures r.Ok? ==> r.value in bookings && r.value.id == id
      ensures r.Err? <==> forall k :: 0 <= k < |bookings| ==> bookings[k].id != id
      ensures r.Err? ==> r.error == NotFound(BookingEntity)
    {
      match Find(bookings, id, BookingId)
      case None => Err(NotFound(BookingEntity))
      case Some(b) => Ok(b)
    }

    /** getById: the booking for its booker or its item's owner, Forbidden for anyone else. */
    function GetById(id: nat, userId: nat): (r: Result<BookingDto>)
      reads this
      ensures FindById(id).Err? ==> r == Err(NotFound(BookingEntity))
      ensures FindById(id).Ok? && !MayView(FindById(id).value, userId) ==> r == Err(Forbidden)
      ensures r.Ok? <==> FindById(id).Ok? && MayView(FindById(id).value, userId)
      ensures r.Ok? ==> r.value == ToBookingDto(FindById(id).value)
    {
      match FindById(id)
      case Err(e) => Err(e)
      case Ok(b) => if !MayView(b, userId) then Err(Forbidden) else Ok(ToBookingDto(b))
    }

    /** getAllByRole: the user must exist; a null state means ALL. */
    function GetAllByRole(users: seq<User>, userId: nat, state: Option<State>, role: UserRole, now: int)
      : (r: Result<seq<BookingDto>>)
      reads this
      ensures r.Err? <==> Find(users, userId, UserId).None?
      ensures r.Err? ==> r.error == NotFound(UserEntity)
      ensures r.Ok? ==> r.value == ToBookingDtos(Query(bookings, userId, OrElse(state, All), role, now))
    {
      if Find(users, userId, UserId).None? then Err(NotFound(UserEntity))
      else Ok(ToBookingDtos(Query(bookings, userId, OrElse(state, All), role, now)))
    }

    /** create: on success exactly one booking is appended, WAITING, with the requested window, item and booker. */
    method Create(users: seq<User>, items: seq<Item>, dto: BookingCreateDto, bookerId: nat)
      returns (r: Result<BookingDto>)
      requires Valid()
      modifies this
      ensures Valid()
      ensures var c := CheckCreate(users, items, dto, bookerId);
        && (c.Err? ==> r == Err(c.error) && bookings == old(bookings) && lastId == old(lastId))
        && (c.Ok? ==> && lastId == old(lastId) + 1
                      && bookings == old(bookings) + [Booking(lastId, dto.start, dto.end, c.value.1, c.value.0, Status.Waiting)]
                      && r == Ok(ToBookingDto(bookings[|bookings| - 1])))
      ensures r.Ok? ==> FindById(r.value.id) == Ok(bookings[|bookings| - 1])
      ensures r.Ok? ==> forall id :: id != r.value.id ==> FindById(id) == old(FindById(id))
    {
      var c := CheckCreate(users, items, dto, bookerId);
      if c.Err? {
        r := Err(c.error);
        return;
      }
      var booking := ToBooking(dto, c.value.0, Status.Waiting, c.value.1).(id := lastId + 1);
      assert booking == Booking(lastId + 1, dto.start, dto.end, c.value.1, c.value.0, Status.Waiting);
      assert booking.start < booking.end;
      forall id | true
        ensures Find(bookings + [booking], id, BookingId) == if id == lastId + 1 then Some(booking) else Find(bookings, id, BookingId)
      {
        FindAfterAppend(bookings, BookingId, lastId, booking, id);
      }
      FindAfterAppend(bookings, BookingId, lastId, booking, 0);
      bookings := bookings + [booking];
      lastId := lastId + 1;
      r := Ok(ToBookingDto(booking));
    }

    /** changeStatus: the owner sets APPROVED or REJECTED whatever the prior status; nothing else changes. */
    method ChangeStatus(id: nat, ownerId: nat, isApproved: bool) returns (r: Result<BookingDto>)
      requires Valid()
      modifies this
      ensures Valid() && lastId == old(lastId) && |bookings| == |old(bookings)|
      ensures old(FindById(id)).Err? ==> r == Err(NotFound(BookingEntity)) && bookings == old(bookings)
      ensures old(FindById(id)).Ok? ==>
                var d := Decide(old(FindById(id)).value, ownerId, isApproved);
                && (d.Err? ==> r == Err(Forbidden) && bookings == old(bookings))
                && (d.Ok? ==> r == Ok(ToBookingDto(d.value)) && FindById(id) == Ok(d.value))
      ensures forall other :: other != id ==> FindById(other) == old(FindById(other))
    {
      match IndexOf(bookings, id, BookingId)
      case None =>
        r := Err(NotFound(BookingEntity));
      case Some(k) =>
        var d := Decide(bookings[k], ownerId, isApproved);
        if d.Err? {
          r := Err(d.error);
        } else {
          forall other | true
            ensures Find(bookings[k := d.value], other, BookingId)
                    == if other == id then Some(d.value) else Find(bookings, other, BookingId)
          {
            FindAfterReplace(bookings, BookingId, lastId, k, d.value, other);
          }
          FindAfterReplace(bookings, BookingId, lastId, k, d.value, id);
          bookings := bookings[k := d.value];
          r := Ok(ToBookingDto(d.value));
        }
    }
  }
}
