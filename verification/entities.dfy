/** The persisted records of the booking core, one datatype per entity.

    Every table is append-only in this model, so a row's primary key is its
    position in its table; the generated uuids are abstracted to positions
    and a client-supplied id is any `nat`, which names no row when it is out
    of range. Timestamps are opaque numbers supplied by the caller. Columns
    that only feed response projections (created/updated stamps) are
    omitted. */
module Entities {
  import opened Results

  type UserId = nat
  type EventId = nat
  type EventDateId = nat
  type AreaId = int
  type SeatId = nat
  type OrderId = nat
  type ReservationId = nat
  type Timestamp = nat

  /** Column default of `user.point`. */
  const InitialPoint: nat := 500000

  /** Column default of `user.role`. */
  const DefaultRole: string := "user"

  datatype PaymentMethod = BankTransfer | CreditCard | Paypal | SocketPay

  /** Column default of `order.paymentMethod`. */
  const DefaultPaymentMethod: PaymentMethod := SocketPay

  /** A user. `nickname` and `email` are unique columns (see `Store.Valid`);
      `password` holds the derived hash and `salt` is never null; `point`
      is the prepaid balance, an unsigned column, hence a `nat`. */
  datatype User = User(
    nickname: string,
    email: string,
    profileImage: Option<string>,
    role: string,
    password: string,
    salt: string,
    point: nat)

  /** An event. `ageLimit`, `svg`, `ticketingStartTime` and `thumbnail` are
      nullable; `deletedAt` is the soft-delete marker. */
  datatype Event = Event(
    title: string,
    thumbnail: Option<string>,
    place: string,
    cast: string,
    ageLimit: Option<int>,
    svg: Option<string>,
    ticketingStartTime: Option<Timestamp>,
    deletedAt: Option<Timestamp>)

  /** One scheduled date of an event. */
  datatype EventDate = EventDate(event: EventId, date: Timestamp)

  /** A priced section. `price` is unsigned, nullable and defaults to 0;
      `label` (here `areaLabel`) is nullable; an area optionally belongs to an event. */
  datatype Area = Area(
    areaLabel: Option<string>,
    price: Option<nat>,
    svg: Option<string>,
    event: Option<EventId>)

  /** What an area adds to an order total: its price, and nothing for a null
      price (`sum + null` is `sum` in the order service, and `SUM` skips
      NULL in the payment service). */
  function PriceValue(a: Area): nat {
    a.price.GetOr(0)
  }

  /** A seat. `event` is mandatory; `area`, `row`, `number`, `cx`, `cy` are
      plain integers; `(event, area, row, number)` is unique across seats;
      `deletedAt` is the soft-delete marker. */
  datatype Seat = Seat(
    event: EventId,
    area: AreaId,
    row: int,
    number: int,
    cx: int,
    cy: int,
    deletedAt: Option<Timestamp>)

  /** The columns of the seat table's unique constraint. */
  function SeatKey(s: Seat): (EventId, AreaId, int, int) {
    (s.event, s.area, s.row, s.number)
  }

  /** An order. It belongs to one user, has a nullable payment method and the
      two markers `canceledAt` (never set by any service) and `deletedAt`
      (the soft-delete marker the availability pre-check consults). */
  datatype Order = Order(
    user: UserId,
    paymentMethod: Option<PaymentMethod>,
    canceledAt: Option<Timestamp>,
    deletedAt: Option<Timestamp>)

  /** The row inserted for a new order; a payment method the caller does not supply
      takes the column default. */
  function NewOrder(user: UserId, chosen: Option<PaymentMethod>): (o: Order)
    ensures o.user == user
    ensures o.paymentMethod.Some?
    ensures chosen.None? ==> o.paymentMethod == Some(SocketPay)
    ensures chosen.Some? ==> o.paymentMethod == chosen
    ensures o.canceledAt.None? && o.deletedAt.None?
  {
    Order(user, Some(chosen.GetOr(DefaultPaymentMethod)), None, None)
  }

  /** A reservation: one seat on one event date, optionally owned by an
      order and (on the single-seat path) by a user. */
  datatype Reservation = Reservation(
    seat: SeatId,
    eventDate: EventDateId,
    order: Option<OrderId>,
    user: Option<UserId>,
    canceledAt: Option<Timestamp>,
    deletedAt: Option<Timestamp>)

  /** A reservation the partial unique index covers: `canceledAt IS NULL`.
      Neither `deletedAt` nor the owning order's state plays a part. */
  predicate Active(r: Reservation) {
    r.canceledAt.None?
  }

  /** The row inserted for a new reservation: both markers take their null
      default, so every new reservation is active. */
  function NewReservation(seat: SeatId, date: EventDateId, order: Option<OrderId>, user: Option<UserId>): (r: Reservation)
    ensures Active(r) && r.deletedAt.None?
    ensures r.seat == seat && r.eventDate == date
    ensures r.order == order && r.user == user
  {
    Reservation(seat, date, order, user, None, None)
  }

  /** One new reservation per seat id, in request order. */
  function NewReservations(seats: seq<SeatId>, date: EventDateId, order: Option<OrderId>, user: Option<UserId>): (rs: seq<Reservation>)
    ensures |rs| == |seats|
    ensures forall k :: 0 <= k < |rs| ==> rs[k] == NewReservation(seats[k], date, order, user)
  {
    if seats == [] then []
    else [NewReservation(seats[0], date, order, user)] + NewReservations(seats[1..], date, order, user)
  }
}
