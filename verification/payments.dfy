/** `PaymentsService`: `createPaymentforMigration`, which books seats, creates
    their order and debits the user's points in one transaction, and the
    empty `updatePayment`. No payment row is ever written here. */
module Payments {
  import opened Results
  import opened ErrorCodes
  import opened Entities
  import opened SeqFacts
  import opened Ledger
  import opened Database
  import Orders

  /** What a paid order reports: its identifiers, the debited amount and the
      balance left. */
  datatype PaymentReceipt = PaymentReceipt(
    order: OrderId,
    user: UserId,
    paymentMethod: PaymentMethod,
    totalAmount: nat,
    pointAfter: nat)

  /** A row the total query matches: on the date, for a requested seat, and
      not soft-deleted. */
  predicate Counted(r: Reservation, date: EventDateId, ids: seq<SeatId>) {
    r.eventDate == date && r.seat in ids && r.deletedAt.None?
  }

  /** The total query: `SUM(area.price)` over every reservation row of the
      date whose seat is among `ids` and that is not soft-deleted (the
      implicit filter on the query's main alias), seat and area LEFT JOINed,
      so a row without an area or with a null price adds nothing, and no rows
      give 0. */
  function BookedTotal(st: Store, rs: seq<Reservation>, date: EventDateId, ids: seq<SeatId>): (t: nat)
    ensures (forall i :: 0 <= i < |rs| ==> !Counted(rs[i], date, ids)) ==> t == 0
  {
    if rs == [] then 0
    else
      var head := if Counted(rs[0], date, ids) then SeatPrice(st, rs[0].seat) else 0;
      head + BookedTotal(st, rs[1..], date, ids)
  }

  lemma {:induction false} BookedTotalConcat(st: Store, a: seq<Reservation>, b: seq<Reservation>, date: EventDateId, ids: seq<SeatId>)
    ensures BookedTotal(st, a + b, date, ids) == BookedTotal(st, a, date, ids) + BookedTotal(st, b, date, ids)
    decreases |a|
  {
    if a != [] {
      assert (a + b)[1..] == a[1..] + b;
      BookedTotalConcat(st, a[1..], b, date, ids);
    } else {
      assert a + b == b;
    }
  }

  /** Over a batch of new rows for requested seats, the query sums exactly
      the prices of those seats. */
  lemma {:induction false} BookedTotalOfBatch(st: Store, xs: seq<SeatId>, date: EventDateId, o: Option<OrderId>, ids: seq<SeatId>)
    requires forall k :: 0 <= k < |xs| ==> xs[k] in ids
    ensures BookedTotal(st, NewReservations(xs, date, o, None), date, ids) == PriceSum(st, xs)
    decreases |xs|
  {
    if xs != [] {
      var batch := NewReservations(xs, date, o, None);
      assert batch[1..] == NewReservations(xs[1..], date, o, None);
      assert forall k :: 0 <= k < |xs[1..]| ==> xs[1..][k] in ids by {
        forall k | 0 <= k < |xs[1..]| ensures xs[1..][k] in ids {
          assert xs[1..][k] == xs[k + 1];
        }
      }
      BookedTotalOfBatch(st, xs[1..], date, o, ids);
    }
  }

  /** `createPaymentforMigration({paymentMethod, eventDateId, seatIds}, userId)`.

      The user is read but never checked. The event date is looked up by id
      alone. After the seat-count check and the pre-check, the reservations
      and then the order are saved (the cascade fills in the reservations'
      order), the total is summed, and the balance is compared: a missing
      user or a balance below the total aborts with a TypeError (the table
      has no INSUFFICIENT_BALANCE row), and every write is rolled back.
      Otherwise the user's point drops by the total. */
  function CreatePaymentForMigration(st: Store, userId: UserId, paymentMethod: PaymentMethod, eventDateId: EventDateId, seatIds: seq<SeatId>)
    : (r: Result<(Store, PaymentReceipt), Failure>)
    ensures r == Err(Coded(EventDateNotFound)) <==> eventDateId >= |st.eventDates|
    ensures eventDateId < |st.eventDates| && |FoundSeats(st, seatIds)| != |seatIds| ==> r == Err(Coded(SeatNotFound))
    ensures (eventDateId < |st.eventDates| && |FoundSeats(st, seatIds)| == |seatIds|
             && Orders.AnyReserved(st, seatIds, eventDateId)) ==> r == Err(Coded(ExistingOrder))
    ensures r != Err(Coded(UserNotFound))
    ensures !HasUser(st, userId) ==> r.Err?
    ensures r.Err? ==> r.error in {Coded(EventDateNotFound), Coded(SeatNotFound), Coded(ExistingOrder),
                                    Coded(ExistingReservation), Crash(NullUser), Crash(UndefinedErrorKind)}
    ensures r.Ok? ==> var (st', rc) := r.value;
      && HasUser(st, userId) && |st'.users| == |st.users|
      && rc.totalAmount <= st.users[userId].point
      && st'.users[userId].point == st.users[userId].point - rc.totalAmount == rc.pointAfter
      && st'.users[userId] == st.users[userId].(point := rc.pointAfter)
      && (forall u :: 0 <= u < |st.users| && u != userId ==> st'.users[u] == st.users[u])
    ensures r.Ok? ==> var (st', rc) := r.value;
      && rc.order == |st.orders| && rc.user == userId && rc.paymentMethod == paymentMethod
      && st'.orders == st.orders + [NewOrder(userId, Some(paymentMethod))]
      && st'.reservations == st.reservations + NewReservations(seatIds, eventDateId, Some(|st.orders|), None)
      && st'.(users := st.users, orders := st.orders, reservations := st.reservations) == st
  {
    if !(eventDateId < |st.eventDates|) then Err(Coded(EventDateNotFound))
    else if |FoundSeats(st, seatIds)| != |seatIds| then Err(Coded(SeatNotFound))
    else if Orders.AnyReserved(st, seatIds, eventDateId) then Err(Coded(ExistingOrder))
    else
      var oid := |st.orders|;
      match Insert(st.reservations, NewReservations(seatIds, eventDateId, Some(oid), None))
      case Err(e) => Err(TranslateSaveError(e, ExistingReservation))
      case Ok(rs) =>
        var total := BookedTotal(st, rs, eventDateId, seatIds);
        if !HasUser(st, userId) then Err(Crash(NullUser))
        else if st.users[userId].point < total then Err(Crash(UndefinedErrorKind))
        else
          var u := st.users[userId];
          var st' := st.(
            users := st.users[userId := u.(point := u.point - total)],
            orders := st.orders + [NewOrder(userId, Some(paymentMethod))],
            reservations := rs);
          Ok((st', PaymentReceipt(oid, userId, paymentMethod, total, u.point - total)))
  }

  /** The debited total is not the new order's price alone: it is the price
      of the requested seats plus every earlier row of those seats on that
      date that the query also matches. */
  lemma PaymentTotalCountsEarlierRows(st: Store, userId: UserId, paymentMethod: PaymentMethod, eventDateId: EventDateId, seatIds: seq<SeatId>)
    requires CreatePaymentForMigration(st, userId, paymentMethod, eventDateId, seatIds).Ok?
    ensures CreatePaymentForMigration(st, userId, paymentMethod, eventDateId, seatIds).value.1.totalAmount
      == PriceSum(st, seatIds) + BookedTotal(st, st.reservations, eventDateId, seatIds)
  {
    var batch := NewReservations(seatIds, eventDateId, Some(|st.orders|), None);
    BookedTotalConcat(st, st.reservations, batch, eventDateId, seatIds);
    BookedTotalOfBatch(st, seatIds, eventDateId, Some(|st.orders|), seatIds);
  }

  /** As for orders, the pre-check is advisory: when it passes but the index
      already holds a requested seat on that date, the save's unique
      violation fails the payment as EXISTING_RESERVATION. */
  lemma PaymentPreCheckIsAdvisory(st: Store, userId: UserId, paymentMethod: PaymentMethod, eventDateId: EventDateId,
                                  seatIds: seq<SeatId>, k: nat)
    requires eventDateId < |st.eventDates| && |FoundSeats(st, seatIds)| == |seatIds|
    requires !Orders.AnyReserved(st, seatIds, eventDateId)
    requires k < |seatIds| && ActiveAt(st.reservations, seatIds[k], eventDateId)
    ensures CreatePaymentForMigration(st, userId, paymentMethod, eventDateId, seatIds) == Err(Coded(ExistingReservation))
  {
    SeatCountCheck(st, seatIds);
    InsertNewSucceedsIff(st.reservations, seatIds, eventDateId, Some(|st.orders|), None);
  }

  /** The payer is never looked up for existence: when every check and the
      save pass for an id that names no user, reading its balance is a
      TypeError, and everything is rolled back. */
  lemma MissingPayerCrashes(st: Store, userId: UserId, paymentMethod: PaymentMethod, eventDateId: EventDateId, seatIds: seq<SeatId>)
    requires eventDateId < |st.eventDates| && |FoundSeats(st, seatIds)| == |seatIds|
    requires !Orders.AnyReserved(st, seatIds, eventDateId)
    requires forall k :: 0 <= k < |seatIds| ==> !ActiveAt(st.reservations, seatIds[k], eventDateId)
    requires !HasUser(st, userId)
    ensures CreatePaymentForMigration(st, userId, paymentMethod, eventDateId, seatIds) == Err(Crash(NullUser))
  {
    SeatCountCheck(st, seatIds);
    InsertNewSucceedsIff(st.reservations, seatIds, eventDateId, Some(|st.orders|), None);
  }

  /** Once the checks and the save pass for an existing user, the payment
      goes through exactly when the balance covers the total; otherwise it
      aborts and nothing persists. */
  lemma BalanceFloor(st: Store, userId: UserId, paymentMethod: PaymentMethod, eventDateId: EventDateId, seatIds: seq<SeatId>)
    requires eventDateId < |st.eventDates| && |FoundSeats(st, seatIds)| == |seatIds|
    requires !Orders.AnyReserved(st, seatIds, eventDateId)
    requires forall k :: 0 <= k < |seatIds| ==> !ActiveAt(st.reservations, seatIds[k], eventDateId)
    requires HasUser(st, userId)
    ensures var total := PriceSum(st, seatIds) + BookedTotal(st, st.reservations, eventDateId, seatIds);
      var r := CreatePaymentForMigration(st, userId, paymentMethod, eventDateId, seatIds);
      && (r.Ok? <==> total <= st.users[userId].point)
      && (r.Err? ==> r.error == Crash(UndefinedErrorKind))
  {
    SeatCountCheck(st, seatIds);
    var batch := NewReservations(seatIds, eventDateId, Some(|st.orders|), None);
    InsertNewSucceedsIff(st.reservations, seatIds, eventDateId, Some(|st.orders|), None);
    BookedTotalConcat(st, st.reservations, batch, eventDateId, seatIds);
    BookedTotalOfBatch(st, seatIds, eventDateId, Some(|st.orders|), seatIds);
  }

  /** A successful payment books exactly the requested seats: the request
      has no repeats, the new order belongs to the payer and carries the
      chosen method, every earlier row is kept, and the order owns one new
      active reservation per requested seat, all on the requested date. */
  lemma PaymentBooksRequestedSeats(st: Store, userId: UserId, paymentMethod: PaymentMethod, eventDateId: EventDateId, seatIds: seq<SeatId>)
    requires RefsValid(st)
    requires CreatePaymentForMigration(st, userId, paymentMethod, eventDateId, seatIds).Ok?
    ensures var (st', rc) := CreatePaymentForMigration(st, userId, paymentMethod, eventDateId, seatIds).value;
      && Distinct(seatIds)
      && st'.orders[rc.order].user == userId
      && st'.orders[rc.order].paymentMethod == Some(paymentMethod)
      && st'.reservations[..|st.reservations|] == st.reservations
      && |st'.reservations| == |st.reservations| + |seatIds|
      && (forall k :: |st.reservations| <= k < |st'.reservations| ==>
            Active(st'.reservations[k]) && st'.reservations[k].eventDate == eventDateId)
      && OrderSeats(st'.reservations, rc.order) == seatIds
  {
    SeatCountCheck(st, seatIds);
    var oid := |st.orders|;
    var batch := NewReservations(seatIds, eventDateId, Some(oid), None);
    var (st', rc) := CreatePaymentForMigration(st, userId, paymentMethod, eventDateId, seatIds).value;
    assert st'.reservations == st.reservations + batch;
    assert forall i :: 0 <= i < |st.reservations| ==> st.reservations[i].order != Some(oid) by {
      forall i | 0 <= i < |st.reservations|
        ensures st.reservations[i].order != Some(oid)
      {
        assert ReservationRefsValid(st, st.reservations[i]);
      }
    }
    OrderSeatsConcat(st.reservations, batch, oid);
    OrderSeatsOfStranger(st.reservations, oid);
    OrderSeatsOfBatch(seatIds, eventDateId, oid, None);
  }

  /** The shape of a paid store: one user's point changed, one order and a
      batch of its reservations appended. It keeps every schema constraint
      when the order's owner exists, the batch's references are valid and
      the index holds over the new table. */
  lemma PaidStoreValid(st: Store, userId: UserId, point: nat, o: Order, batch: seq<Reservation>)
    requires Valid(st) && userId < |st.users| && o.user < |st.users|
    requires forall k :: 0 <= k < |batch| ==> ReservationRefsValid(st.(orders := st.orders + [o]), batch[k])
    requires IndexHolds(st.reservations + batch)
    ensures Valid(st.(users := st.users[userId := st.users[userId].(point := point)],
                      orders := st.orders + [o],
                      reservations := st.reservations + batch))
  {
    var st' := st.(users := st.users[userId := st.users[userId].(point := point)],
                   orders := st.orders + [o],
                   reservations := st.reservations + batch);
    forall i | 0 <= i < |st'.reservations|
      ensures ReservationRefsValid(st', st'.reservations[i])
    {
      if i < |st.reservations| {
        assert st'.reservations[i] == st.reservations[i];
        assert ReservationRefsValid(st, st.reservations[i]);
      } else {
        assert st'.reservations[i] == batch[i - |st.reservations|];
      }
    }
    assert forall i :: 0 <= i < |st'.orders| ==> st'.orders[i].user < |st'.users| by {
      forall i | 0 <= i < |st'.orders|
        ensures st'.orders[i].user < |st'.users|
      {
        if i < |st.orders| { assert st'.orders[i] == st.orders[i]; }
      }
    }
    assert EmailsUnique(st'.users) by {
      forall i, j | 0 <= i < j < |st'.users|
        ensures st'.users[i].email != st'.users[j].email
      {
        assert st'.users[i].email == st.users[i].email && st'.users[j].email == st.users[j].email;
      }
    }
    assert NicknamesUnique(st'.users) by {
      forall i, j | 0 <= i < j < |st'.users|
        ensures st'.users[i].nickname != st'.users[j].nickname
      {
        assert st'.users[i].nickname == st.users[i].nickname && st'.users[j].nickname == st.users[j].nickname;
      }
    }
  }

  /** A paid order keeps every schema constraint; the point column stays
      non-negative by the balance check alone. */
  lemma PaymentPreservesValid(st: Store, userId: UserId, paymentMethod: PaymentMethod, eventDateId: EventDateId, seatIds: seq<SeatId>)
    requires Valid(st)
    requires CreatePaymentForMigration(st, userId, paymentMethod, eventDateId, seatIds).Ok?
    ensures Valid(CreatePaymentForMigration(st, userId, paymentMethod, eventDateId, seatIds).value.0)
  {
    SeatCountCheck(st, seatIds);
    var oid := |st.orders|;
    var batch := NewReservations(seatIds, eventDateId, Some(oid), None);
    var (st', rc) := CreatePaymentForMigration(st, userId, paymentMethod, eventDateId, seatIds).value;
    var o := NewOrder(userId, Some(paymentMethod));
    assert Insert(st.reservations, batch).Ok?;
    assert st'.users == st.users[userId := st.users[userId].(point := rc.pointAfter)];
    PaidStoreValid(st, userId, rc.pointAfter, o, batch);
  }

  /** A store where seat 0 on date 0 keeps an old row whose reservation was
      cancelled under a soft-deleted order: the pre-check passes (the order
      is deleted) and the index is free (the row is cancelled). */
  function StaleRowStore(): (st: Store)
    ensures Valid(st)
  {
    OneSeatStore().(
      orders := [Order(0, Some(SocketPay), None, Some(7))],
      reservations := [Reservation(0, 0, Some(0), None, Some(3), None)])
  }

  /** Paying for one seat priced 30000 there debits 60000: the stale row is
      summed as well. */
  lemma StaleRowIsCharged()
    ensures var r := CreatePaymentForMigration(StaleRowStore(), 0, SocketPay, 0, [0]);
      r.Ok? && r.value.1.totalAmount == 60000 && r.value.1.pointAfter == InitialPoint - 60000
  {
    var st := StaleRowStore();
    assert FoundSeats(st, [0]) == {0};
    assert !IsSeatReserved(st, [0][0], 0);
    assert !ActiveAt(st.reservations, [0][0], 0);
    BalanceFloor(st, 0, SocketPay, 0, [0]);
    PaymentTotalCountsEarlierRows(st, 0, SocketPay, 0, [0]);
    assert PriceSum(st, [0]) == 30000;
    assert BookedTotal(st, st.reservations, 0, [0]) == 30000;
  }

  /** `updatePayment(body, userId)`: a deprecated stub. Whatever it is given,
      it answers undefined and the store is left as it was. */
  function UpdatePayment<B>(st: Store, body: B, userId: UserId): (r: (Store, Option<PaymentReceipt>))
    ensures r.0 == st && r.1.None?
  {
    (st, None)
  }
}
