/** The reservation table and its partial unique index
    `unique_eventdate_seat_canceledat_null`: for each (seat, event date)
    pair at most one reservation with a null `canceledAt`. The index is the
    only authority on conflicts; `Insert` is the save step that enforces it. */
module Ledger {
  import opened Results
  import opened ErrorCodes
  import opened Entities
  import opened SeqFacts

  /** Some active reservation holds `seat` on `date`. */
  predicate ActiveAt(rs: seq<Reservation>, seat: SeatId, date: EventDateId) {
    exists i :: 0 <= i < |rs| && Active(rs[i]) && rs[i].seat == seat && rs[i].eventDate == date
  }

  /** The partial unique index holds: no two active reservations share a
      (seat, event date) pair. */
  predicate IndexHolds(rs: seq<Reservation>) {
    forall i, j :: 0 <= i < j < |rs| && Active(rs[i]) && Active(rs[j]) ==>
      rs[i].seat != rs[j].seat || rs[i].eventDate != rs[j].eventDate
  }

  /** Inserting `r` after `rs` would break the index. */
  predicate Collides(rs: seq<Reservation>, r: Reservation) {
    Active(r) && ActiveAt(rs, r.seat, r.eventDate)
  }

  /** Appending a row that does not collide keeps the index. */
  lemma AppendKeepsIndex(rs: seq<Reservation>, r: Reservation)
    requires IndexHolds(rs) && !Collides(rs, r)
    ensures IndexHolds(rs + [r])
  {
  }

  /** Saves `batch` after `rs` row by row, all or nothing: the first row
      that the index rejects aborts the whole save with a unique violation
      and nothing of the batch is kept. */
  function Insert(rs: seq<Reservation>, batch: seq<Reservation>): (r: Result<seq<Reservation>, DbError>)
    ensures r.Ok? ==> r.value == rs + batch
    ensures r.Err? ==> r.error == UniqueViolation
    ensures r.Ok? && IndexHolds(rs) ==> IndexHolds(r.value)
    decreases |batch|
  {
    if batch == [] then
      assert rs + batch == rs;
      Ok(rs)
    else if Collides(rs, batch[0]) then Err(UniqueViolation)
    else
      assert (rs + [batch[0]]) + batch[1..] == rs + batch;
      assert IndexHolds(rs) ==> IndexHolds(rs + [batch[0]]) by {
        if IndexHolds(rs) { AppendKeepsIndex(rs, batch[0]); }
      }
      Insert(rs + [batch[0]], batch[1..])
  }

  /** The active rows of `batch` take pairs no active row of `rs` holds. */
  predicate FreshPairs(rs: seq<Reservation>, batch: seq<Reservation>) {
    forall k :: 0 <= k < |batch| && Active(batch[k]) ==> !ActiveAt(rs, batch[k].seat, batch[k].eventDate)
  }

  /** The save succeeds exactly when no active row of the batch takes a pair
      already held, and no two active rows of the batch take the same pair. */
  lemma {:induction false} InsertSucceedsIff(rs: seq<Reservation>, batch: seq<Reservation>)
    ensures Insert(rs, batch).Ok? <==> FreshPairs(rs, batch) && IndexHolds(batch)
    decreases |batch|
  {
    if batch != [] {
      var b, t := batch[0], batch[1..];
      var rs1 := rs + [b];
      if Collides(rs, b) {
        assert !FreshPairs(rs, batch);
      } else {
        InsertSucceedsIff(rs1, t);
        // Holding a pair after `rs + [b]` means holding it after `rs`, or being `b`'s pair.
        forall s, d
          ensures ActiveAt(rs1, s, d) <==> ActiveAt(rs, s, d) || (Active(b) && b.seat == s && b.eventDate == d)
        {
          if ActiveAt(rs1, s, d) {
            var i :| 0 <= i < |rs1| && Active(rs1[i]) && rs1[i].seat == s && rs1[i].eventDate == d;
            if i < |rs| { assert rs1[i] == rs[i]; }
          }
          if ActiveAt(rs, s, d) {
            var i :| 0 <= i < |rs| && Active(rs[i]) && rs[i].seat == s && rs[i].eventDate == d;
            assert rs1[i] == rs[i];
          }
          if Active(b) && b.seat == s && b.eventDate == d {
            assert rs1[|rs|] == b;
          }
        }
        if FreshPairs(rs1, t) && IndexHolds(t) {
          forall k | 0 <= k < |batch| && Active(batch[k])
            ensures !ActiveAt(rs, batch[k].seat, batch[k].eventDate)
          {
            if k > 0 { assert batch[k] == t[k - 1]; }
          }
          forall i, j | 0 <= i < j < |batch| && Active(batch[i]) && Active(batch[j])
            ensures batch[i].seat != batch[j].seat || batch[i].eventDate != batch[j].eventDate
          {
            assert batch[j] == t[j - 1];
            if i > 0 { assert batch[i] == t[i - 1]; }
          }
        }
        if FreshPairs(rs, batch) && IndexHolds(batch) {
          forall k | 0 <= k < |t| && Active(t[k])
            ensures !ActiveAt(rs1, t[k].seat, t[k].eventDate)
          {
            assert t[k] == batch[k + 1];
          }
          forall i, j | 0 <= i < j < |t| && Active(t[i]) && Active(t[j])
            ensures t[i].seat != t[j].seat || t[i].eventDate != t[j].eventDate
          {
            assert t[i] == batch[i + 1] && t[j] == batch[j + 1];
          }
        }
      }
    }
  }

  /** New reservations for distinct seats on one date never clash with
      one another. */
  lemma NewReservationsKeepIndex(seats: seq<SeatId>, date: EventDateId, order: Option<OrderId>, user: Option<UserId>)
    requires Distinct(seats)
    ensures IndexHolds(NewReservations(seats, date, order, user))
  {
  }

  /** A batch of new reservations for distinct seats on one date is saved
      exactly when none of those seats is already actively held on that
      date. */
  lemma InsertNewSucceedsIff(rs: seq<Reservation>, seats: seq<SeatId>, date: EventDateId, order: Option<OrderId>, user: Option<UserId>)
    requires Distinct(seats)
    ensures Insert(rs, NewReservations(seats, date, order, user)).Ok?
        <==> forall k :: 0 <= k < |seats| ==> !ActiveAt(rs, seats[k], date)
  {
    var batch := NewReservations(seats, date, order, user);
    InsertSucceedsIff(rs, batch);
    NewReservationsKeepIndex(seats, date, order, user);
    if FreshPairs(rs, batch) {
      forall k | 0 <= k < |seats|
        ensures !ActiveAt(rs, seats[k], date)
      {
        assert batch[k].seat == seats[k];
      }
    }
  }
}
