/** `OrdersService.createOrder`: a fixed chain of checks, then one order
    saved together with one reservation per requested seat, all or
    nothing, and the order's total price. */
module Orders {
  import opened Results
  import opened ErrorCodes
  import opened Entities
  import opened SeqFacts
  import opened Ledger
  import opened Database

  /** What a created order reports: the response projection reduced to its
      identifiers and the computed `totalAmount`. */
  datatype OrderReceipt = OrderReceipt(
    order: OrderId,
    user: UserId,
    event: EventId,
    seats: seq<SeatId>,
    totalAmount: nat)

  /** The batch pre-check: some requested seat is reserved on `date`. */
  predicate AnyReserved(st: Store, ids: seq<SeatId>, date: EventDateId) {
    exists k :: 0 <= k < |ids| && IsSeatReserved(st, ids[k], date)
  }

  /** Every requested seat joins to an area, so `seat.area.price` can be read. */
  predicate AllHaveAreas(st: Store, ids: seq<SeatId>) {
    forall k :: 0 <= k < |ids| ==> HasArea(st, ids[k])
  }

  /** `createOrder({eventId, eventDateId, seatIds}, userId)`.

      The checks run in order and the first failure wins: the user, the
      event date (which must belong to `eventId`), the seat count, the
      pre-check. Then the order is saved with its reservations (cascade);
      a unique violation aborts it as EXISTING_RESERVATION. The total is
      read from each seat's area after the save, so a seat without an area
      aborts the request with a TypeError. In this model no failure leaves
      a write; the source saves the order outside its transaction, which
      the model leaves out (see README). */
  function CreateOrder(st: Store, eventId: EventId, eventDateId: EventDateId, seatIds: seq<SeatId>, userId: UserId)
    : (r: Result<(Store, OrderReceipt), Failure>)
    ensures !HasUser(st, userId) ==> r == Err(Coded(UserNotFound))
    ensures HasUser(st, userId) && !DateOfEvent(st, eventDateId, eventId) ==> r == Err(Coded(EventDateNotFound))
    ensures (HasUser(st, userId) && DateOfEvent(st, eventDateId, eventId)
             && |FoundSeats(st, seatIds)| != |seatIds|) ==> r == Err(Coded(SeatNotFound))
    ensures (HasUser(st, userId) && DateOfEvent(st, eventDateId, eventId)
             && |FoundSeats(st, seatIds)| == |seatIds| && AnyReserved(st, seatIds, eventDateId))
        ==> r == Err(Coded(ExistingOrder))
    ensures r.Err? ==> r.error in {Coded(UserNotFound), Coded(EventDateNotFound), Coded(SeatNotFound),
                                    Coded(ExistingOrder), Coded(ExistingReservation), Crash(NullArea)}
    ensures r.Ok? ==> r.value.0.users == st.users
    ensures r.Ok? ==> var st' := r.value.0;
      && st'.orders == st.orders + [NewOrder(userId, None)]
      && st'.reservations == st.reservations + NewReservations(seatIds, eventDateId, Some(|st.orders|), None)
      && st'.(orders := st.orders, reservations := st.reservations) == st
    ensures r.Ok? ==> r.value.1.totalAmount == PriceSum(st, seatIds)
  {
    if !HasUser(st, userId) then Err(Coded(UserNotFound))
    else if !DateOfEvent(st, eventDateId, eventId) then Err(Coded(EventDateNotFound))
    else if |FoundSeats(st, seatIds)| != |seatIds| then Err(Coded(SeatNotFound))
    else if AnyReserved(st, seatIds, eventDateId) then Err(Coded(ExistingOrder))
    else
      var oid := |st.orders|;
      match Insert(st.reservations, NewReservations(seatIds, eventDateId, Some(oid), None))
      case Err(e) => Err(TranslateSaveError(e, ExistingReservation))
      case Ok(rs) =>
        if !AllHaveAreas(st, seatIds) then Err(Crash(NullArea))
        else
          var st' := st.(orders := st.orders + [NewOrder(userId, None)], reservations := rs);
          Ok((st', OrderReceipt(oid, userId, eventId, seatIds, PriceSum(st, seatIds))))
  }

  /** A successful order books exactly the requested seats: the request has
      no repeats, the new order belongs to the caller, every earlier row is
      kept, and the order owns one new active reservation per requested
      seat, all on the requested date, whose summed prices are the reported
      total. */
  lemma CreateOrderBooksRequestedSeats(st: Store, eventId: EventId, eventDateId: EventDateId, seatIds: seq<SeatId>, userId: UserId)
    requires RefsValid(st)
    requires CreateOrder(st, eventId, eventDateId, seatIds, userId).Ok?
    ensures var (st', rc) := CreateOrder(st, eventId, eventDateId, seatIds, userId).value;
      && Distinct(seatIds)
      && rc.order == |st.orders| && |st'.orders| == |st.orders| + 1
      && st'.orders[rc.order].user == userId
      && st'.orders[..|st.orders|] == st.orders
      && |st'.reservations| == |st.reservations| + |seatIds|
      && st'.reservations[..|st.reservations|] == st.reservations
      && (forall k :: |st.reservations| <= k < |st'.reservations| ==>
            && Active(st'.reservations[k]) && st'.reservations[k].eventDate == eventDateId
            && st'.reservations[k].deletedAt.None? && st'.reservations[k].user.None?)
      && OrderSeats(st'.reservations, rc.order) == seatIds
      && rc.totalAmount == PriceSum(st', OrderSeats(st'.reservations, rc.order))
  {
    SeatCountCheck(st, seatIds);
    var oid := |st.orders|;
    var batch := NewReservations(seatIds, eventDateId, Some(oid), None);
    var (st', rc) := CreateOrder(st, eventId, eventDateId, seatIds, userId).value;
    assert st'.reservations == st.reservations + batch;
    assert forall i :: 0 <= i < |st.reservations| ==> st.reservations[i].order != Some(oid) by {
      forall i | 0 <= i < |st.reservations|
        ensures st.reservations[i].order != Some(oid)
      {
        assert ReservationRefsValid(st, st.reservations[i]);
      }
    }
    OrderSeatsConcat(st.reservations, batch, oid);
    OrderSeatsOfStranger(st.reservations, oid);
    OrderSeatsOfBatch(seatIds, eventDateId, oid, None);
    PriceSumFrame(st, st', seatIds);
  }

  /** Creating an order keeps every schema constraint, the partial unique
      index among them. */
  lemma CreateOrderPreservesValid(st: Store, eventId: EventId, eventDateId: EventDateId, seatIds: seq<SeatId>, userId: UserId)
    requires Valid(st)
    requires CreateOrder(st, eventId, eventDateId, seatIds, userId).Ok?
    ensures Valid(CreateOrder(st, eventId, eventDateId, seatIds, userId).value.0)
  {
  }

  /** An order is created exactly when the user exists, the date belongs to
      the event, the seats exist and are distinct, the pre-check finds none
      of them reserved, the index holds none of them actively on that date,
      and every seat joins to an area. */
  lemma CreateOrderSucceedsIff(st: Store, eventId: EventId, eventDateId: EventDateId, seatIds: seq<SeatId>, userId: UserId)
    ensures CreateOrder(st, eventId, eventDateId, seatIds, userId).Ok?
      <==> && HasUser(st, userId)
           && DateOfEvent(st, eventDateId, eventId)
           && Distinct(seatIds)
           && (forall k :: 0 <= k < |seatIds| ==> seatIds[k] < |st.seats|)
           && !AnyReserved(st, seatIds, eventDateId)
           && (forall k :: 0 <= k < |seatIds| ==> !ActiveAt(st.reservations, seatIds[k], eventDateId))
           && AllHaveAreas(st, seatIds)
  {
    SeatCountCheck(st, seatIds);
    if Distinct(seatIds) {
      InsertNewSucceedsIff(st.reservations, seatIds, eventDateId, Some(|st.orders|), None);
    }
  }

  /** The pre-check is advisory: when it passes but the index already holds
      one of the seats actively on that date, the save is what rejects the
      order, as EXISTING_RESERVATION. */
  lemma PreCheckIsAdvisory(st: Store, eventId: EventId, eventDateId: EventDateId, seatIds: seq<SeatId>, userId: UserId, k: nat)
    requires HasUser(st, userId) && DateOfEvent(st, eventDateId, eventId)
    requires |FoundSeats(st, seatIds)| == |seatIds|
    requires !AnyReserved(st, seatIds, eventDateId)
    requires k < |seatIds| && ActiveAt(st.reservations, seatIds[k], eventDateId)
    ensures CreateOrder(st, eventId, eventDateId, seatIds, userId) == Err(Coded(ExistingReservation))
  {
    SeatCountCheck(st, seatIds);
    InsertNewSucceedsIff(st.reservations, seatIds, eventDateId, Some(|st.orders|), None);
  }

  /** The total is read through `seat.area.price` after the save, so when
      every check and the save pass but some requested seat names no area,
      the order aborts with a TypeError. In this model nothing persists;
      transactions are left out (see README). */
  lemma SeatWithoutAreaCrashes(st: Store, eventId: EventId, eventDateId: EventDateId, seatIds: seq<SeatId>, userId: UserId)
    requires HasUser(st, userId) && DateOfEvent(st, eventDateId, eventId)
    requires |FoundSeats(st, seatIds)| == |seatIds|
    requires !AnyReserved(st, seatIds, eventDateId)
    requires forall k :: 0 <= k < |seatIds| ==> !ActiveAt(st.reservations, seatIds[k], eventDateId)
    requires !AllHaveAreas(st, seatIds)
    ensures CreateOrder(st, eventId, eventDateId, seatIds, userId) == Err(Crash(NullArea))
  {
    SeatCountCheck(st, seatIds);
    InsertNewSucceedsIff(st.reservations, seatIds, eventDateId, Some(|st.orders|), None);
  }

  /** A store holding seat 0 on date 0 through an active reservation whose
      order (of user 0) is soft-deleted. */
  function SoftDeletedOrderStore(): (st: Store)
    ensures Valid(st)
  {
    OneSeatStore().(
      orders := [Order(0, Some(SocketPay), None, Some(7))],
      reservations := [Reservation(0, 0, Some(0), None, None, None)])
  }

  /** The two availability predicates differ: under a soft-deleted order the
      pre-check calls the seat free, yet the index still blocks it, so
      ordering it again ends in EXISTING_RESERVATION. */
  lemma SoftDeletedOrderStillBlocks()
    ensures !IsSeatReserved(SoftDeletedOrderStore(), 0, 0)
    ensures ActiveAt(SoftDeletedOrderStore().reservations, 0, 0)
    ensures CreateOrder(SoftDeletedOrderStore(), 0, 0, [0], 0) == Err(Coded(ExistingReservation))
  {
    var st := SoftDeletedOrderStore();
    assert st.reservations[0].seat == 0 && Active(st.reservations[0]);
    assert FoundSeats(st, [0]) == {0};
    assert !AnyReserved(st, [0], 0);
    PreCheckIsAdvisory(st, 0, 0, [0], 0, 0);
  }

  /** A store where seat 0 on date 0 was held by a reservation that has been
      cancelled while its order (of user 0) is live. */
  function CancelledReservationStore(): (st: Store)
    ensures Valid(st)
  {
    OneSeatStore().(
      orders := [Order(0, Some(SocketPay), None, None)],
      reservations := [Reservation(0, 0, Some(0), None, Some(3), None)])
  }

  /** The gap runs the other way too: a cancelled reservation frees the pair
      for the index, but the pre-check, which never reads `canceledAt`,
      still rejects the seat as EXISTING_ORDER. */
  lemma CancelledReservationStillPreChecked()
    ensures !ActiveAt(CancelledReservationStore().reservations, 0, 0)
    ensures IsSeatReserved(CancelledReservationStore(), 0, 0)
    ensures CreateOrder(CancelledReservationStore(), 0, 0, [0], 0) == Err(Coded(ExistingOrder))
  {
    var st := CancelledReservationStore();
    assert st.reservations[0].seat == 0;
    assert FoundSeats(st, [0]) == {0};
    assert IsSeatReserved(st, [0][0], 0);
  }
}
