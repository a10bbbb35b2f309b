/**
 * The booking queries: the derived queries on the booker and the hand-written JPQL
 * queries on the item owner, over the booking table in storage order.
 */
module BookingRepository {
  import opened Common
  import opened Model
  import opened Tables
  import opened Sorting

  /** The two sort orders the service passes in: Sort.by(DESC, "start") and Sort.by(DESC, "end"). */
  datatype Sort = StartDesc | EndDesc

  function StartOf(b: Booking): int { b.start }
  function EndOf(b: Booking): int { b.end }

  function KeyOf(sort: Sort): Booking -> int {
    match sort
    case StartDesc => StartOf
    case EndDesc => EndOf
  }

  predicate BookedBy(b: Booking, bookerId: nat) { b.booker.id == bookerId }
  predicate OfItemOwner(b: Booking, ownerId: nat) { b.item.owner.id == ownerId }

  /** status = 'APPROVED' AND start <= now AND end >= now: both bounds inclusive. */
  predicate IsCurrent(b: Booking, now: int) { b.status == Approved && b.start <= now && b.end >= now }

  /** status = APPROVED AND end < now. */
  predicate IsPast(b: Booking, now: int) { b.status == Approved && b.end < now }

  /** status = APPROVED AND start > now. */
  predicate IsFuture(b: Booking, now: int) { b.status == Approved && b.start > now }

  // ---- queries on the booker (derived queries, sort passed by the caller) ----

  function FindAllByBookerId(store: seq<Booking>, bookerId: nat): (r: seq<Booking>)
    ensures forall b :: multiset(r)[b] == if BookedBy(b, bookerId) then multiset(store)[b] else 0
  {
    Filter(store, b => BookedBy(b, bookerId))
  }

  function FindAllByBookerIdAndStatus(store: seq<Booking>, bookerId: nat, status: Status): (r: seq<Booking>)
    ensures forall b :: multiset(r)[b] == if BookedBy(b, bookerId) && b.status == status then multiset(store)[b] else 0
  {
    Filter(store, b => BookedBy(b, bookerId) && b.status == status)
  }

  function FindAllByBookerIdAndStatusAndEndBefore(store: seq<Booking>, bookerId: nat, status: Status, now: int, sort: Sort)
    : (r: seq<Booking>)
    ensures forall b :: multiset(r)[b] ==
                          if BookedBy(b, bookerId) && b.status == status && b.end < now then multiset(store)[b] else 0
    ensures SortedDesc(r, KeyOf(sort))
  {
    SortDesc(Filter(store, b => BookedBy(b, bookerId) && b.status == status && b.end < now), KeyOf(sort))
  }

  function FindAllByBookerIdAndStatusAndStartAfter(store: seq<Booking>, bookerId: nat, status: Status, now: int, sort: Sort)
    : (r: seq<Booking>)
    ensures forall b :: multiset(r)[b] ==
                          if BookedBy(b, bookerId) && b.status == status && b.start > now then multiset(store)[b] else 0
    ensures SortedDesc(r, KeyOf(sort))
  {
    SortDesc(Filter(store, b => BookedBy(b, bookerId) && b.status == status && b.start > now), KeyOf(sort))
  }

  function FindCurrentByBooker(store: seq<Booking>, bookerId: nat, now: int, sort: Sort): (r: seq<Booking>)
    ensures forall b :: multiset(r)[b] == if BookedBy(b, bookerId) && IsCurrent(b, now) then multiset(store)[b] else 0
    ensures SortedDesc(r, KeyOf(sort))
  {
    SortDesc(Filter(store, b => BookedBy(b, bookerId) && IsCurrent(b, now)), KeyOf(sort))
  }

  // ---- queries on the item owner (JPQL) ----

  function FindAllByItemOwnerId(store: seq<Booking>, ownerId: nat): (r: seq<Booking>)
    ensures forall b :: multiset(r)[b] == if OfItemOwner(b, ownerId) then multiset(store)[b] else 0
  {
    Filter(store, b => OfItemOwner(b, ownerId))
  }

  function FindByOwnerAndStatus(store: seq<Booking>, ownerId: nat, status: Status): (r: seq<Booking>)
    ensures forall b :: multiset(r)[b] == if OfItemOwner(b, ownerId) && b.status == status then multiset(store)[b] else 0
  {
    Filter(store, b => OfItemOwner(b, ownerId) && b.status == status)
  }

  /** ... AND b.status = 'APPROVED' AND b.end < :now ORDER BY b.end DESC */
  function FindPastByItemOwner(store: seq<Booking>, ownerId: nat, now: int): (r: seq<Booking>)
    ensures forall b :: multiset(r)[b] == if OfItemOwner(b, ownerId) && IsPast(b, now) then multiset(store)[b] else 0
    ensures SortedDesc(r, EndOf)
  {
    SortDesc(Filter(store, b => OfItemOwner(b, ownerId) && IsPast(b, now)), EndOf)
  }

  function FindCurrentByItemOwner(store: seq<Booking>, ownerId: nat, now: int, sort: Sort): (r: seq<Booking>)
    ensures forall b :: multiset(r)[b] == if OfItemOwner(b, ownerId) && IsCurrent(b, now) then multiset(store)[b] else 0
    ensures SortedDesc(r, KeyOf(sort))
  {
    SortDesc(Filter(store, b => OfItemOwner(b, ownerId) && IsCurrent(b, now)), KeyOf(sort))
  }

  /** ... AND b.status = 'APPROVED' AND b.start > :now ORDER BY b.start DESC */
  function FindFutureByItemOwner(store: seq<Booking>, ownerId: nat, now: int): (r: seq<Booking>)
    ensures forall b :: multiset(r)[b] == if OfItemOwner(b, ownerId) && IsFuture(b, now) then multiset(store)[b] else 0
    ensures SortedDesc(r, StartOf)
  {
    SortDesc(Filter(store, b => OfItemOwner(b, ownerId) && IsFuture(b, now)), StartOf)
  }

  // ---- queries on items ----

  /** The condition of findAllByItem_IdIn, as one value per id set. */
  function ItemIn(itemIds: set<nat>): Booking -> bool {
    (b: Booking) => b.item.id in itemIds
  }

  function FindAllByItemIdIn(store: seq<Booking>, itemIds: set<nat>): (r: seq<Booking>)
    ensures forall b :: multiset(r)[b] == if b.item.id in itemIds then multiset(store)[b] else 0
  {
    Filter(store, ItemIn(itemIds))
  }

  /** The booker's booking of the item, as findByBooker_IdAndItem_Id selects it. */
  predicate BookingOf(b: Booking, bookerId: nat, itemId: nat) { BookedBy(b, bookerId) && b.item.id == itemId }

  /** What a query declared to return Optional yields: no row, one row, or a failure on several rows. */
  datatype Single = NoRow | OneRow(row: Booking) | ManyRows

  /** The rows findByBooker_IdAndItem_Id selects, in table order. */
  function MatchingRows(store: seq<Booking>, bookerId: nat, itemId: nat): seq<Booking> {
    Filter(store, b => BookingOf(b, bookerId, itemId))
  }

  /** findByBooker_IdAndItem_Id: the booker's only booking of the item; more than one row is an error. */
  function FindByBookerIdAndItemId(store: seq<Booking>, bookerId: nat, itemId: nat): (r: Single)
    ensures r.NoRow? <==> forall b :: b in store ==> !BookingOf(b, bookerId, itemId)
    ensures r.OneRow? ==> r.row in store && BookingOf(r.row, bookerId, itemId)
    ensures r.OneRow? ==> multiset(store)[r.row] == 1
    ensures r.OneRow? ==> forall b :: b in store && BookingOf(b, bookerId, itemId) ==> b == r.row
    ensures r.ManyRows? ==> exists i, j :: 0 <= i < j < |store| && BookingOf(store[i], bookerId, itemId)
                                                             && BookingOf(store[j], bookerId, itemId)
  {
    var rows := MatchingRows(store, bookerId, itemId);
    if |rows| == 0 then NoRow
    else if |rows| == 1 then
      assert multiset(rows) == multiset{rows[0]};
      OneRow(rows[0])
    else
      ManyRowsWitness(store, bookerId, itemId);
      ManyRows
  }

  /** Two matching rows come from two positions of the table. */
  lemma {:induction false} ManyRowsWitness(store: seq<Booking>, bookerId: nat, itemId: nat)
    requires |MatchingRows(store, bookerId, itemId)| >= 2
    ensures exists i, j :: 0 <= i < j < |store| && BookingOf(store[i], bookerId, itemId)
                                               && BookingOf(store[j], bookerId, itemId)
  {
    var rest := store[1..];
    assert store == [store[0]] + rest;
    var tail := MatchingRows(rest, bookerId, itemId);
    if BookingOf(store[0], bookerId, itemId) {
      assert MatchingRows(store, bookerId, itemId) == [store[0]] + tail;
      assert tail[0] in tail;
      var j :| 0 <= j < |rest| && rest[j] == tail[0];
      assert BookingOf(store[j + 1], bookerId, itemId);
    } else {
      assert MatchingRows(store, bookerId, itemId) == tail;
      ManyRowsWitness(rest, bookerId, itemId);
      var i, j :| 0 <= i < j < |rest| && BookingOf(rest[i], bookerId, itemId) && BookingOf(rest[j], bookerId, itemId);
      assert store[i + 1] == rest[i] && store[j + 1] == rest[j];
    }
  }

  /** For a booking with start before end, PAST, CURRENT and FUTURE never hold together. */
  lemma TemporalStatesDisjoint(b: Booking, now: int)
    requires b.start < b.end
    ensures !(IsPast(b, now) && IsCurrent(b, now))
    ensures !(IsCurrent(b, now) && IsFuture(b, now))
    ensures !(IsPast(b, now) && IsFuture(b, now))
  {
  }

  /** Without start before end, a single booking can be both PAST and FUTURE. */
  lemma InvertedBookingPastAndFuture(item: Item, booker: User)
    ensures var b := Booking(1, 5, 3, item, booker, Approved);
      IsPast(b, 4) && IsFuture(b, 4)
  {
  }
}
