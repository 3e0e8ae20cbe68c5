/** `EventsService`: creating, patching and soft-deleting events, creating
    seats under the seat table's unique key, and the event-scoped seat
    lookup. */
module Events {
  import opened Results
  import opened ErrorCodes
  import opened Entities
  import opened Database

  /** `eventRepository.findOne({ where: { id } })` finds the event: it exists
      and, by the repository's implicit filter, is not soft-deleted. */
  predicate LiveEvent(st: Store, e: EventId) {
    e < |st.events| && st.events[e].deletedAt.None?
  }

  /** An optional request-body field: absent, explicitly null, or given. */
  datatype Field<+T> = Undefined | Null | Given(value: T)

  /** The body of `updateEvent`. Every field is optional. */
  datatype EventPatch = EventPatch(
    title: Field<string>,
    thumbnail: Field<string>,
    place: Field<string>,
    cast: Field<string>,
    ageLimit: Field<int>,
    svg: Field<string>,
    ticketingStartTime: Field<Timestamp>)

  /** JavaScript truthiness of a string field: given and not empty. */
  predicate Truthy(f: Field<string>) {
    f.Given? && f.value != ""
  }

  /** `if (field) column = field`: a truthy value replaces the column. */
  function PatchText(current: string, f: Field<string>): (s: string)
    ensures f.Undefined? || f.Null? ==> s == current
    ensures f == Given("") ==> s == current
    ensures f.Given? && f.value != "" ==> s == f.value
  {
    if Truthy(f) then f.value else current
  }

  /** The patch rules of `updateEvent` on one row: `title`, `thumbnail`,
      `place` and `cast` change only to a non-empty value; `ageLimit`
      changes whenever it is present, to null or to any number, 0 included;
      `svg`, `ticketingStartTime` and the event's dates are never touched,
      whatever the body says. */
  function ApplyPatch(e: Event, p: EventPatch): (e': Event)
    ensures e'.svg == e.svg && e'.ticketingStartTime == e.ticketingStartTime && e'.deletedAt == e.deletedAt
    ensures e'.title == PatchText(e.title, p.title) && e'.place == PatchText(e.place, p.place)
    ensures e'.cast == PatchText(e.cast, p.cast)
    ensures Truthy(p.thumbnail) ==> e'.thumbnail == Some(p.thumbnail.value)
    ensures !Truthy(p.thumbnail) ==> e'.thumbnail == e.thumbnail
    ensures p.ageLimit.Undefined? ==> e'.ageLimit == e.ageLimit
    ensures p.ageLimit.Null? ==> e'.ageLimit.None?
    ensures p.ageLimit.Given? ==> e'.ageLimit == Some(p.ageLimit.value)
  {
    e.(title := PatchText(e.title, p.title),
       thumbnail := if Truthy(p.thumbnail) then Some(p.thumbnail.value) else e.thumbnail,
       place := PatchText(e.place, p.place),
       cast := PatchText(e.cast, p.cast),
       ageLimit := match p.ageLimit
                   case Undefined => e.ageLimit
                   case Null => None
                   case Given(n) => Some(n))
  }

  /** Applying the same patch twice is applying it once. */
  lemma ApplyPatchIdempotent(e: Event, p: EventPatch)
    ensures ApplyPatch(ApplyPatch(e, p), p) == ApplyPatch(e, p)
  {
  }

  /** `updateEvent(id, body)`: EVENT_NOT_FOUND for a missing or soft-deleted
      event, otherwise the patched row replaces the old one and nothing else
      changes. */
  function UpdateEvent(st: Store, id: EventId, p: EventPatch): (r: Result<(Store, Event), Failure>)
    ensures r.Err? <==> !LiveEvent(st, id)
    ensures r.Err? ==> r.error == Coded(EventNotFound)
    ensures r.Ok? ==> var (st', e') := r.value;
      && |st'.events| == |st.events|
      && st'.events[id] == e' == ApplyPatch(st.events[id], p)
      && (forall i :: 0 <= i < |st.events| && i != id ==> st'.events[i] == st.events[i])
      && st'.(events := st.events) == st
  {
    if LiveEvent(st, id) then
      var e' := ApplyPatch(st.events[id], p);
      Ok((st.(events := st.events[id := e']), e'))
    else Err(Coded(EventNotFound))
  }

  /** Patching is idempotent on the whole store, and keeps every schema
      constraint. */
  lemma UpdateEventIdempotentAndValid(st: Store, id: EventId, p: EventPatch)
    requires Valid(st)
    requires UpdateEvent(st, id, p).Ok?
    ensures var st' := UpdateEvent(st, id, p).value.0;
      && Valid(st')
      && UpdateEvent(st', id, p).Ok? && UpdateEvent(st', id, p).value.0 == st'
  {
  }

  /** The event dates of event `e`, in table order. */
  function DatesOf(eds: seq<EventDate>, e: EventId): seq<Timestamp> {
    if eds == [] then []
    else (if eds[0].event == e then [eds[0].date] else []) + DatesOf(eds[1..], e)
  }

  lemma {:induction false} DatesOfConcat(a: seq<EventDate>, b: seq<EventDate>, e: EventId)
    ensures DatesOf(a + b, e) == DatesOf(a, e) + DatesOf(b, e)
    decreases |a|
  {
    if a != [] {
      assert (a + b)[1..] == a[1..] + b;
      DatesOfConcat(a[1..], b, e);
    } else {
      assert a + b == b;
    }
  }

  /** One event-date row per supplied date, in order. */
  function DateRows(e: EventId, dates: seq<Timestamp>): (eds: seq<EventDate>)
    ensures |eds| == |dates|
    ensures forall k :: 0 <= k < |eds| ==> eds[k] == EventDate(e, dates[k])
  {
    if dates == [] then [] else [EventDate(e, dates[0])] + DateRows(e, dates[1..])
  }

  lemma {:induction false} DatesOfDateRows(e: EventId, dates: seq<Timestamp>)
    ensures DatesOf(DateRows(e, dates), e) == dates
    decreases |dates|
  {
    if dates != [] {
      assert DateRows(e, dates)[1..] == DateRows(e, dates[1..]);
      DatesOfDateRows(e, dates[1..]);
    }
  }

  /** Rows none of which belongs to `e` give `e` no dates. */
  lemma {:induction false} DatesOfStranger(eds: seq<EventDate>, e: EventId)
    requires forall i :: 0 <= i < |eds| ==> eds[i].event != e
    ensures DatesOf(eds, e) == []
    decreases |eds|
  {
    if eds != [] {
      DatesOfStranger(eds[1..], e);
    }
  }

  /** `createEvent(body)`: a new event with null `svg`, `ticketingStartTime`
      and `deletedAt`, saved with its dates by cascade. */
  function CreateEvent(st: Store, title: string, thumbnail: Option<string>, place: string, cast: string,
                       ageLimit: Option<int>, dates: Option<seq<Timestamp>>): (r: (Store, EventId))
    ensures var (st', id) := r;
      && id == |st.events|
      && st'.events == st.events + [Event(title, thumbnail, place, cast, ageLimit, None, None, None)]
      && |st'.eventDates| == |st.eventDates| + |dates.GetOr([])|
      && st'.eventDates[..|st.eventDates|] == st.eventDates
      && (forall k :: |st.eventDates| <= k < |st'.eventDates| ==> st'.eventDates[k].event == id)
      && st'.(events := st.events, eventDates := st.eventDates) == st
  {
    var id := |st.events|;
    var st' := st.(events := st.events + [Event(title, thumbnail, place, cast, ageLimit, None, None, None)],
                   eventDates := st.eventDates + DateRows(id, dates.GetOr([])));
    assert st'.eventDates[..|st.eventDates|] == st.eventDates;
    (st', id)
  }

  /** The new event has exactly the supplied dates, in order, and none when
      they are omitted; the store stays valid. */
  lemma CreateEventDates(st: Store, title: string, thumbnail: Option<string>, place: string, cast: string,
                         ageLimit: Option<int>, dates: Option<seq<Timestamp>>)
    requires Valid(st)
    ensures var (st', id) := CreateEvent(st, title, thumbnail, place, cast, ageLimit, dates);
      && DatesOf(st'.eventDates, id) == dates.GetOr([])
      && (dates.None? ==> DatesOf(st'.eventDates, id) == [])
      && Valid(st')
  {
    var (st', id) := CreateEvent(st, title, thumbnail, place, cast, ageLimit, dates);
    var rows := DateRows(id, dates.GetOr([]));
    assert st'.eventDates == st.eventDates + rows;
    DatesOfConcat(st.eventDates, rows, id);
    DatesOfStranger(st.eventDates, id);
    DatesOfDateRows(id, dates.GetOr([]));
    assert forall i :: 0 <= i < |st'.reservations| ==> ReservationRefsValid(st', st'.reservations[i]) by {
      forall i | 0 <= i < |st'.reservations|
        ensures ReservationRefsValid(st', st'.reservations[i])
      {
        assert ReservationRefsValid(st, st.reservations[i]);
      }
    }
    assert forall i :: 0 <= i < |st'.eventDates| ==> st'.eventDates[i].event < |st'.events| by {
      forall i | 0 <= i < |st'.eventDates|
        ensures st'.eventDates[i].event < |st'.events|
      {
        if i < |st.eventDates| {
          assert st'.eventDates[i] == st.eventDates[i];
        } else {
          assert st'.eventDates[i] == rows[i - |st.eventDates|];
        }
      }
    }
  }

  /** Some seat already holds the unique key `key`. */
  predicate KeyTaken(seats: seq<Seat>, key: (EventId, AreaId, int, int)) {
    exists i :: 0 <= i < |seats| && SeatKey(seats[i]) == key
  }

  /** `createSeat(eventId, {cx, cy, area, row, number})`: EVENT_NOT_FOUND for
      a missing or soft-deleted event; a seat whose (event, area, row, number) is taken,
      soft-deleted seats included, fails the unique constraint, reported as
      DUPLICATE_SEAT. */
  function CreateSeat(st: Store, eventId: EventId, cx: int, cy: int, area: AreaId, row: int, number: int)
    : (r: Result<(Store, SeatId), Failure>)
    ensures !LiveEvent(st, eventId) ==> r == Err(Coded(EventNotFound))
    ensures LiveEvent(st, eventId) && KeyTaken(st.seats, (eventId, area, row, number)) ==> r == Err(Coded(DuplicateSeat))
    ensures r.Err? ==> r.error in {Coded(EventNotFound), Coded(DuplicateSeat)}
    ensures r.Ok? ==> var (st', id) := r.value;
      && id == |st.seats|
      && st'.seats == st.seats + [Seat(eventId, area, row, number, cx, cy, None)]
      && st'.(seats := st.seats) == st
  {
    if !LiveEvent(st, eventId) then Err(Coded(EventNotFound))
    else
      var s := Seat(eventId, area, row, number, cx, cy, None);
      var saved: Result<seq<Seat>, DbError> := if KeyTaken(st.seats, SeatKey(s)) then Err(UniqueViolation) else Ok(st.seats + [s]);
      match saved
      case Err(e) => Err(TranslateSaveError(e, DuplicateSeat))
      case Ok(seats) => Ok((st.(seats := seats), |st.seats|))
  }

  /** A seat is created exactly when its event is live and its key is free;
      the seat table's key stays unique and every constraint holds. */
  lemma CreateSeatSucceedsIff(st: Store, eventId: EventId, cx: int, cy: int, area: AreaId, row: int, number: int)
    ensures CreateSeat(st, eventId, cx, cy, area, row, number).Ok?
      <==> LiveEvent(st, eventId) && !KeyTaken(st.seats, (eventId, area, row, number))
    ensures Valid(st) && CreateSeat(st, eventId, cx, cy, area, row, number).Ok?
      ==> Valid(CreateSeat(st, eventId, cx, cy, area, row, number).value.0)
  {
  }

  /** `softDeleteEvent(id)`: EVENT_NOT_FOUND for a missing or already
      soft-deleted event, otherwise the event's `deletedAt` is stamped at
      `now`. Nothing cascades: its dates,
      seats and reservations stay as they are. */
  function SoftDeleteEvent(st: Store, id: EventId, now: Timestamp): (r: Result<Store, Failure>)
    ensures r.Err? <==> !LiveEvent(st, id)
    ensures r.Err? ==> r.error == Coded(EventNotFound)
    ensures r.Ok? ==> && |r.value.events| == |st.events|
                      && r.value.events[id] == st.events[id].(deletedAt := Some(now))
                      && (forall i :: 0 <= i < |st.events| && i != id ==> r.value.events[i] == st.events[i])
                      && r.value.(events := st.events) == st
  {
    if LiveEvent(st, id) then
      Ok(st.(events := st.events[id := st.events[id].(deletedAt := Some(now))]))
    else Err(Coded(EventNotFound))
  }

  /** `findOneSeat(eventId, seatId)`: the seat is found only through an event
      that is not soft-deleted (the join condition) and is the requested one. */
  function FindOneSeat(st: Store, eventId: EventId, seatId: SeatId): (r: Result<SeatId, Failure>)
    ensures r.Ok? <==> SeatOfEvent(st, seatId, eventId) && LiveEvent(st, eventId)
    ensures r.Ok? ==> r.value == seatId
    ensures r.Err? ==> r.error == Coded(SeatNotFound)
  {
    if seatId < |st.seats| && st.seats[seatId].event == eventId && LiveEvent(st, eventId)
    then Ok(seatId)
    else Err(Coded(SeatNotFound))
  }

  /** On a valid store a live event's seats are exactly the ones
      `findOneSeat` finds under it. Once the event is soft-deleted it finds
      none of them, although the seats themselves remain, and the event can
      no longer be deleted again, patched, or given seats. */
  lemma SoftDeleteEventHidesSeats(st: Store, eventId: EventId, seatId: SeatId, now: Timestamp,
                                  p: EventPatch, cx: int, cy: int, area: AreaId, row: int, number: int)
    requires Valid(st)
    ensures LiveEvent(st, eventId) ==>
      (FindOneSeat(st, eventId, seatId).Ok? <==> SeatOfEvent(st, seatId, eventId))
    ensures SoftDeleteEvent(st, eventId, now).Ok? ==> var st' := SoftDeleteEvent(st, eventId, now).value;
      && FindOneSeat(st', eventId, seatId) == Err(Coded(SeatNotFound))
      && st'.seats == st.seats
      && SoftDeleteEvent(st', eventId, now) == Err(Coded(EventNotFound))
      && UpdateEvent(st', eventId, p) == Err(Coded(EventNotFound))
      && CreateSeat(st', eventId, cx, cy, area, row, number) == Err(Coded(EventNotFound))
  {
  }
}
