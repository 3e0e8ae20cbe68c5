/** The whole database as one immutable value, its integrity constraints,
    and the read queries the services share: the seat lookup by `IN (...)`,
    the availability pre-check `isSeatReserved`, and area prices. */
module Database {
  import opened Results
  import opened Entities
  import opened Ledger
  import opened SeqFacts

  /** Every table, each an append-only sequence indexed by primary key. */
  datatype Store = Store(
    users: seq<User>,
    events: seq<Event>,
    eventDates: seq<EventDate>,
    areas: seq<Area>,
    seats: seq<Seat>,
    orders: seq<Order>,
    reservations: seq<Reservation>)

  /** A reservation's foreign keys name existing rows; `seat` and
      `eventDate` are mandatory, `order` and `user` optional. */
  predicate ReservationRefsValid(st: Store, r: Reservation) {
    && r.seat < |st.seats|
    && r.eventDate < |st.eventDates|
    && (r.order.Some? ==> r.order.value < |st.orders|)
    && (r.user.Some? ==> r.user.value < |st.users|)
  }

  /** Every foreign key of every table names an existing row. */
  predicate RefsValid(st: Store) {
    && (forall i :: 0 <= i < |st.orders| ==> st.orders[i].user < |st.users|)
    && (forall i :: 0 <= i < |st.eventDates| ==> st.eventDates[i].event < |st.events|)
    && (forall i :: 0 <= i < |st.seats| ==> st.seats[i].event < |st.events|)
    && (forall i :: 0 <= i < |st.areas| ==> st.areas[i].event.Some? ==> st.areas[i].event.value < |st.events|)
    && (forall i :: 0 <= i < |st.reservations| ==> ReservationRefsValid(st, st.reservations[i]))
  }

  /** The seat table's unique constraint on (event, area, row, number). */
  predicate SeatKeysUnique(seats: seq<Seat>) {
    forall i, j :: 0 <= i < j < |seats| ==> SeatKey(seats[i]) != SeatKey(seats[j])
  }

  /** The user table's unique `email` column. */
  predicate EmailsUnique(users: seq<User>) {
    forall i, j :: 0 <= i < j < |users| ==> users[i].email != users[j].email
  }

  /** The user table's unique `nickname` column. */
  predicate NicknamesUnique(users: seq<User>) {
    forall i, j :: 0 <= i < j < |users| ==> users[i].nickname != users[j].nickname
  }

  /** Every constraint the schema declares. */
  predicate Valid(st: Store) {
    && RefsValid(st)
    && IndexHolds(st.reservations)
    && SeatKeysUnique(st.seats)
    && EmailsUnique(st.users)
    && NicknamesUnique(st.users)
  }

  predicate HasUser(st: Store, u: UserId) {
    u < |st.users|
  }

  /** The event-date lookup scoped to an event:
      `findOne({ where: { id: eventDateId, event: { id: eventId } } })`. */
  predicate DateOfEvent(st: Store, d: EventDateId, e: EventId) {
    d < |st.eventDates| && st.eventDates[d].event == e
  }

  /** The seat lookup scoped to an event:
      `findOne({ where: { id: seatId, event: { id: eventId } } })`. */
  predicate SeatOfEvent(st: Store, seat: SeatId, e: EventId) {
    seat < |st.seats| && st.seats[seat].event == e
  }

  /** The area a seat's `area` column names, if it names one. */
  function AreaOf(st: Store, s: Seat): Option<Area> {
    if 0 <= s.area < |st.areas| then Some(st.areas[s.area]) else None
  }

  /** The seat exists and joins to an area. */
  predicate HasArea(st: Store, id: SeatId) {
    id < |st.seats| && AreaOf(st, st.seats[id]).Some?
  }

  /** What a seat adds to a total: its area's price, and nothing for a null
      price or a seat that joins to no area. */
  function SeatPrice(st: Store, id: SeatId): nat {
    if id < |st.seats| then
      match AreaOf(st, st.seats[id])
      case Some(a) => PriceValue(a)
      case None => 0
    else 0
  }

  /** The summed prices of a list of seats, one term per list entry. */
  function PriceSum(st: Store, ids: seq<SeatId>): nat {
    if ids == [] then 0 else SeatPrice(st, ids[0]) + PriceSum(st, ids[1..])
  }

  /** Prices only read the seat and area tables. */
  lemma {:induction false} PriceSumFrame(st: Store, st': Store, ids: seq<SeatId>)
    requires st'.seats == st.seats && st'.areas == st.areas
    ensures PriceSum(st', ids) == PriceSum(st, ids)
    decreases |ids|
  {
    if ids != [] {
      PriceSumFrame(st, st', ids[1..]);
    }
  }

  /** `find({ where: { id: In(seatIds) } })`: every existing seat whose id
      the request names, each once, whatever event it belongs to. */
  function FoundSeats(st: Store, ids: seq<SeatId>): set<SeatId> {
    set s | s in ids && s < |st.seats|
  }

  /** The seat check `seats.length !== seatIds.length` passes exactly when
      the request names existing seats only and names none twice. */
  lemma SeatCountCheck(st: Store, ids: seq<SeatId>)
    ensures |FoundSeats(st, ids)| == |ids|
        <==> Distinct(ids) && forall k :: 0 <= k < |ids| ==> ids[k] < |st.seats|
  {
    FilteredCard(ids, FoundSeats(st, ids), (s: SeatId) => s < |st.seats|);
  }

  /** The pre-check's `LEFT JOIN order ... WHERE order.deletedAt IS NULL`:
      it passes for a reservation without an order (the joined columns are
      null) and for one whose order is not soft-deleted. */
  predicate OrderNotDeleted(st: Store, o: Option<OrderId>) {
    match o
    case None => true
    case Some(k) => k >= |st.orders| || st.orders[k].deletedAt.None?
  }

  /** `isSeatReserved(seatId, eventDateId)`: some reservation of the seat on
      the date that is not itself soft-deleted (the query builder's implicit
      `reservation.deletedAt IS NULL` on its main alias), joined to its event
      date and to the seat's area, has no order or an order that is not
      soft-deleted. It never reads `canceledAt`, and the index never reads
      `deletedAt`, so it is not the index's predicate. */
  predicate IsSeatReserved(st: Store, seat: SeatId, date: EventDateId)
    ensures IsSeatReserved(st, seat, date) ==> seat < |st.seats| && date < |st.eventDates| && AreaOf(st, st.seats[seat]).Some?
  {
    && date < |st.eventDates|
    && HasArea(st, seat)
    && exists i :: 0 <= i < |st.reservations|
        && st.reservations[i].seat == seat
        && st.reservations[i].eventDate == date
        && st.reservations[i].deletedAt.None?
        && OrderNotDeleted(st, st.reservations[i].order)
  }

  /** Two reservation tables that differ at most in `canceledAt`. */
  predicate SameButCancellation(rs: seq<Reservation>, rs': seq<Reservation>) {
    |rs| == |rs'| && forall i :: 0 <= i < |rs| ==> rs[i].(canceledAt := None) == rs'[i].(canceledAt := None)
  }

  /** The pre-check answers the same whatever the `canceledAt` stamps are. */
  lemma PreCheckIgnoresCancellation(st: Store, rs': seq<Reservation>, seat: SeatId, date: EventDateId)
    requires SameButCancellation(st.reservations, rs')
    ensures IsSeatReserved(st.(reservations := rs'), seat, date) == IsSeatReserved(st, seat, date)
  {
  }

  /** A small valid store for examples: one user, one event with one date,
      one area priced 30000 and one seat in it, and no orders or
      reservations yet. */
  function OneSeatStore(): (st: Store)
    ensures Valid(st) && HasArea(st, 0) && SeatPrice(st, 0) == 30000
    ensures st.orders == [] && st.reservations == []
  {
    Store(
      [User("nick", "mail", None, DefaultRole, "hash", "salt", InitialPoint)],
      [Event("title", None, "place", "cast", None, None, None, None)],
      [EventDate(0, 0)],
      [Area(None, Some(30000), None, Some(0))],
      [Seat(0, 0, 1, 1, 0, 0, None)],
      [],
      [])
  }

  /** The seats held by an order's reservations, in table order. */
  function OrderSeats(rs: seq<Reservation>, o: OrderId): seq<SeatId> {
    if rs == [] then []
    else (if rs[0].order == Some(o) then [rs[0].seat] else []) + OrderSeats(rs[1..], o)
  }

  lemma {:induction false} OrderSeatsConcat(a: seq<Reservation>, b: seq<Reservation>, o: OrderId)
    ensures OrderSeats(a + b, o) == OrderSeats(a, o) + OrderSeats(b, o)
    decreases |a|
  {
    if a != [] {
      assert (a + b)[1..] == a[1..] + b;
      OrderSeatsConcat(a[1..], b, o);
    } else {
      assert a + b == b;
    }
  }

  /** A table none of whose rows belongs to `o` gives `o` no seats. */
  lemma {:induction false} OrderSeatsOfStranger(rs: seq<Reservation>, o: OrderId)
    requires forall i :: 0 <= i < |rs| ==> rs[i].order != Some(o)
    ensures OrderSeats(rs, o) == []
    decreases |rs|
  {
    if rs != [] {
      OrderSeatsOfStranger(rs[1..], o);
    }
  }

  /** A batch created for order `o` gives `o` exactly the batch's seats. */
  lemma {:induction false} OrderSeatsOfBatch(seats: seq<SeatId>, date: EventDateId, o: OrderId, u: Option<UserId>)
    ensures OrderSeats(NewReservations(seats, date, Some(o), u), o) == seats
    decreases |seats|
  {
    if seats != [] {
      var batch := NewReservations(seats, date, Some(o), u);
      assert batch[1..] == NewReservations(seats[1..], date, Some(o), u);
      OrderSeatsOfBatch(seats[1..], date, o, u);
    }
  }
}
