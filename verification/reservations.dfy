/** `ReservationsService`: single-seat reservations owned directly by a
    user, their listing, lookup and soft deletion. */
module Reservations {
  import opened Results
  import opened ErrorCodes
  import opened Entities
  import opened Ledger
  import opened Database
  import Orders

  /** `createReservation({eventId, eventDateId, seatId}, userId)`: the user,
      the event date of the event and the seat of the event are looked up
      in that order; then one reservation owned by the user (and by no
      order) is saved, and a unique violation becomes EXISTING_RESERVATION.
      There is no pre-check: the index alone decides. */
  function CreateReservation(st: Store, eventId: EventId, eventDateId: EventDateId, seatId: SeatId, userId: UserId)
    : (r: Result<(Store, ReservationId), Failure>)
    ensures !HasUser(st, userId) ==> r == Err(Coded(UserNotFound))
    ensures HasUser(st, userId) && !DateOfEvent(st, eventDateId, eventId) ==> r == Err(Coded(EventDateNotFound))
    ensures (HasUser(st, userId) && DateOfEvent(st, eventDateId, eventId)
             && !SeatOfEvent(st, seatId, eventId)) ==> r == Err(Coded(SeatNotFound))
    ensures (HasUser(st, userId) && DateOfEvent(st, eventDateId, eventId) && SeatOfEvent(st, seatId, eventId)
             && ActiveAt(st.reservations, seatId, eventDateId)) ==> r == Err(Coded(ExistingReservation))
    ensures r.Err? ==> r.error in {Coded(UserNotFound), Coded(EventDateNotFound), Coded(SeatNotFound),
                                    Coded(ExistingReservation)}
    ensures r.Ok? ==> var (st', id) := r.value;
      && id == |st.reservations|
      && st'.reservations == st.reservations + [Reservation(seatId, eventDateId, None, Some(userId), None, None)]
      && st' == st.(reservations := st'.reservations)
  {
    if !HasUser(st, userId) then Err(Coded(UserNotFound))
    else if !DateOfEvent(st, eventDateId, eventId) then Err(Coded(EventDateNotFound))
    else if !SeatOfEvent(st, seatId, eventId) then Err(Coded(SeatNotFound))
    else
      match Insert(st.reservations, [NewReservation(seatId, eventDateId, None, Some(userId))])
      case Err(e) => Err(TranslateSaveError(e, ExistingReservation))
      case Ok(rs) => Ok((st.(reservations := rs), |st.reservations|))
  }

  /** A reservation is created exactly when the three lookups succeed and no
      active reservation holds the seat on that date. */
  lemma CreateReservationSucceedsIff(st: Store, eventId: EventId, eventDateId: EventDateId, seatId: SeatId, userId: UserId)
    ensures CreateReservation(st, eventId, eventDateId, seatId, userId).Ok?
      <==> && HasUser(st, userId)
           && DateOfEvent(st, eventDateId, eventId)
           && SeatOfEvent(st, seatId, eventId)
           && !ActiveAt(st.reservations, seatId, eventDateId)
  {
    var batch := [NewReservation(seatId, eventDateId, None, Some(userId))];
    InsertSucceedsIff(st.reservations, batch);
    assert batch[0].seat == seatId && batch[0].eventDate == eventDateId;
  }

  /** Creating a reservation keeps every schema constraint. */
  lemma CreateReservationPreservesValid(st: Store, eventId: EventId, eventDateId: EventDateId, seatId: SeatId, userId: UserId)
    requires Valid(st)
    requires CreateReservation(st, eventId, eventDateId, seatId, userId).Ok?
    ensures Valid(CreateReservation(st, eventId, eventDateId, seatId, userId).value.0)
  {
  }

  /** The reservation queries find the row: it is not soft-deleted (the
      implicit filter on their main alias), and by the inner joins it
      belongs to the user, who exists, and its event date, the date's event,
      its seat and the seat's event all exist. */
  predicate Visible(st: Store, i: ReservationId, userId: UserId) {
    && i < |st.reservations|
    && st.reservations[i].deletedAt.None?
    && st.reservations[i].user == Some(userId)
    && HasUser(st, userId)
    && st.reservations[i].eventDate < |st.eventDates|
    && st.eventDates[st.reservations[i].eventDate].event < |st.events|
    && st.reservations[i].seat < |st.seats|
    && st.seats[st.reservations[i].seat].event < |st.events|
  }

  /** A row `findAllReservation` lists: visible to the user and, when an
      event is given, on a date of that event. */
  predicate Listed(st: Store, i: ReservationId, eventId: Option<EventId>, userId: UserId) {
    && Visible(st, i, userId)
    && (eventId.Some? ==> st.eventDates[st.reservations[i].eventDate].event == eventId.value)
  }

  /** `findAllReservation({eventId}, userId)`: the ids of the user's
      reservations, optionally narrowed to one event, in table order. */
  method FindAllReservation(st: Store, eventId: Option<EventId>, userId: UserId) returns (ids: seq<ReservationId>)
    ensures forall i: ReservationId :: i in ids <==> Listed(st, i, eventId, userId)
    ensures forall a, b :: 0 <= a < b < |ids| ==> ids[a] < ids[b]
  {
    ids := [];
    var i := 0;
    while i < |st.reservations|
      invariant i <= |st.reservations|
      invariant forall j: ReservationId :: j in ids <==> j < i && Listed(st, j, eventId, userId)
      invariant forall a, b :: 0 <= a < b < |ids| ==> ids[a] < ids[b]
      invariant forall a :: 0 <= a < |ids| ==> ids[a] < i
    {
      if Listed(st, i, eventId, userId) {
        ids := ids + [i];
      }
      i := i + 1;
    }
  }

  /** `findOneReservation(reservationId, userId)`: the reservation when the
      user can see it, and RESERVATION_NOT_FOUND otherwise, so a row of
      another user answers exactly like a missing one. */
  function FindOneReservation(st: Store, reservationId: ReservationId, userId: UserId): (r: Result<ReservationId, Failure>)
    ensures r.Ok? <==> Listed(st, reservationId, None, userId)
    ensures r.Ok? ==> r.value == reservationId
    ensures r.Err? ==> r.error == Coded(ReservationNotFound)
  {
    if Visible(st, reservationId, userId) then Ok(reservationId)
    else Err(Coded(ReservationNotFound))
  }

  /** A reservation just created can be read back by its owner, and by
      nobody else. */
  lemma CreatedReservationIsFound(st: Store, eventId: EventId, eventDateId: EventDateId, seatId: SeatId, userId: UserId, other: UserId)
    requires RefsValid(st)
    requires CreateReservation(st, eventId, eventDateId, seatId, userId).Ok?
    ensures var (st', id) := CreateReservation(st, eventId, eventDateId, seatId, userId).value;
      && FindOneReservation(st', id, userId) == Ok(id)
      && (other != userId ==> FindOneReservation(st', id, other) == Err(Coded(ReservationNotFound)))
  {
  }

  /** The owner lookup of `softDeleteReservation`: the row exists, is not
      soft-deleted already (the implicit filter), and joins to its owner. */
  predicate Deletable(st: Store, i: ReservationId, userId: UserId) {
    && i < |st.reservations|
    && st.reservations[i].deletedAt.None?
    && st.reservations[i].user == Some(userId)
    && HasUser(st, userId)
  }

  /** `softDeleteReservation(reservationId, userId)`: the owner lookup joins
      the user only; the found row gets its `deletedAt` stamped at `now`, so
      a second deletion of the same row finds nothing. */
  function SoftDeleteReservation(st: Store, reservationId: ReservationId, userId: UserId, now: Timestamp): (r: Result<Store, Failure>)
    ensures r.Err? <==> !Deletable(st, reservationId, userId)
    ensures r.Err? ==> r.error == Coded(ReservationNotFound)
    ensures r.Ok? ==> && r.value == st.(reservations := r.value.reservations)
                      && |r.value.reservations| == |st.reservations|
                      && r.value.reservations[reservationId] == st.reservations[reservationId].(deletedAt := Some(now))
                      && (forall i :: 0 <= i < |st.reservations| && i != reservationId ==>
                            r.value.reservations[i] == st.reservations[i])
  {
    if reservationId < |st.reservations| && st.reservations[reservationId].deletedAt.None?
       && st.reservations[reservationId].user == Some(userId) && HasUser(st, userId) then
      var row := st.reservations[reservationId];
      Ok(st.(reservations := st.reservations[reservationId := row.(deletedAt := Some(now))]))
    else Err(Coded(ReservationNotFound))
  }

  /** Soft deletion hides the row but frees nothing. The owner can no longer
      read it or delete it again, and the pre-check can only stop seeing
      seats. The index ignores `deletedAt`, so every pair held before is held
      after, and reserving the same seat on the same date again still
      fails. */
  lemma SoftDeleteKeepsSeatHeld(st: Store, reservationId: ReservationId, userId: UserId, now: Timestamp, eventId: EventId)
    requires Valid(st)
    requires SoftDeleteReservation(st, reservationId, userId, now).Ok?
    ensures var st' := SoftDeleteReservation(st, reservationId, userId, now).value;
      && Valid(st')
      && FindOneReservation(st', reservationId, userId) == Err(Coded(ReservationNotFound))
      && SoftDeleteReservation(st', reservationId, userId, now) == Err(Coded(ReservationNotFound))
      && (forall s, d :: IsSeatReserved(st', s, d) ==> IsSeatReserved(st, s, d))
      && (forall s, d :: ActiveAt(st'.reservations, s, d) <==> ActiveAt(st.reservations, s, d))
      && var row := st.reservations[reservationId];
         (Active(row) ==> CreateReservation(st', eventId, row.eventDate, row.seat, userId).Err?)
  {
  }

  /** A store where user 0 holds seat 0 on date 0 through a single-seat
      reservation. */
  function OwnReservationStore(): (st: Store)
    ensures Valid(st)
  {
    OneSeatStore().(reservations := [Reservation(0, 0, None, Some(0), None, None)])
  }

  /** A third gap between the pre-check and the index: once the owner
      soft-deletes the reservation, the pre-check no longer sees the seat,
      but the index still holds it, so ordering it ends in
      EXISTING_RESERVATION. */
  lemma SoftDeletedReservationStillBlocks()
    ensures IsSeatReserved(OwnReservationStore(), 0, 0)
    ensures SoftDeleteReservation(OwnReservationStore(), 0, 0, 5).Ok?
    ensures var st' := SoftDeleteReservation(OwnReservationStore(), 0, 0, 5).value;
      && !IsSeatReserved(st', 0, 0)
      && ActiveAt(st'.reservations, 0, 0)
      && Orders.CreateOrder(st', 0, 0, [0], 0) == Err(Coded(ExistingReservation))
  {
    var st := OwnReservationStore();
    assert st.reservations[0].seat == 0 && st.reservations[0].eventDate == 0;
    var st' := SoftDeleteReservation(st, 0, 0, 5).value;
    assert st'.reservations[0].seat == 0 && Active(st'.reservations[0]);
    assert FoundSeats(st', [0]) == {0};
    assert !Orders.AnyReserved(st', [0], 0);
    Orders.PreCheckIsAdvisory(st', 0, 0, [0], 0, 0);
  }
}
