/** The entities of the relational store, as values. */
module Model {
  import opened Common

  datatype User = User(id: nat, name: string, email: string)

  /** An item; `request` is the id of the item request it answers, if any. */
  datatype Item = Item(
    id: nat,
    name: string,
    description: string,
    available: bool,
    owner: User,
    request: Option<nat>)

  datatype Status = Waiting | Approved | Rejected

  /** A booking of `item` by `booker` for the window from `start` to `end` (timestamps). */
  datatype Booking = Booking(id: nat, start: int, end: int, item: Item, booker: User, status: Status)

  datatype Comment = Comment(id: nat, text: string, item: Item, author: User, created: int)

  datatype ItemRequest = ItemRequest(id: nat, description: string, requestor: User, created: int)

  function UserId(u: User): nat { u.id }
  function ItemId(i: Item): nat { i.id }
  function BookingId(b: Booking): nat { b.id }
  function CommentId(c: Comment): nat { c.id }
  function RequestId(r: ItemRequest): nat { r.id }
}
