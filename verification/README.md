# Socketing server: the seat-booking ledger in Dafny

This project models the booking core of the socketing ticketing server, a
NestJS service on PostgreSQL through TypeORM. Users hold a prepaid point
balance. Events have dates, seats and priced areas. A user books seats on
an event date in one of three ways:

- as an **order** (`createOrder`);
- as an order paid from the point balance (`createPaymentforMigration`);
- as a legacy **single-seat reservation** (`createReservation`).

Every booking path ends in the same place: rows in the reservation table.
That table's partial unique index `unique_eventdate_seat_canceledat_null`
allows at most one reservation with a null `canceledAt` per (seat, event
date) pair. The index is the real guard against double booking. The
services also run an advisory pre-check, `isSeatReserved`, before saving.
The pre-check uses a different predicate: "the reservation is not
soft-deleted, and it has no order or its order is not soft-deleted". It
never reads `canceledAt`, and the index never reads `deletedAt`. The model
keeps the two predicates apart and proves that they differ in both
directions: a soft-deleted order or reservation still holds its pair, and a
cancelled reservation still fails the pre-check.

The database is one immutable value, `Database.Store`: one append-only
sequence per table. A row's primary key is its position. Client-supplied
ids are any `nat`, and an id out of range names no row. Every service
operation is a pure function from a store and a request to
`Result<(Store, output), Failure>`. A failed request has no new store, so
it writes nothing. This is how the model states the transactions'
all-or-nothing rollback. A `Failure` is one of:

- a row of the error table (`Coded`);
- a framework `BadRequest` or `NotAuthorized`;
- a runtime `Crash` (a null or undefined dereference, HTTP 500);
- a database error re-thrown unchanged (`Db`).

Modules:

- `Results`: `Option` and `Result`.
- `ErrorCodes`: the error table (codes, messages, HTTP statuses), the failure type and the shared catch block.
- `SeqFacts`: distinctness and cardinality facts about sequences.
- `Entities`: one datatype per entity, with its column defaults.
- `Ledger`: the reservation table, its partial unique index, and the save step that enforces it.
- `Database`: the store, its constraints (`Valid`), the seat lookup, the pre-check and area prices.
- `Orders`: `createOrder`.
- `Payments`: `createPaymentforMigration` and the empty `updatePayment`.
- `Reservations`: `createReservation`, `findAllReservation`, `findOneReservation` and `softDeleteReservation`.
- `Events`: `createEvent`, `updateEvent`, `softDeleteEvent`, `createSeat` and `findOneSeat`.
- `Auth`: `register` and `login`.

Where the entity declarations and the services disagree, the model
follows the services:

- The seat entity declares `area` as a plain `int` column. The services
  still load and join `seat.area` as a relation, and the area entity
  declares seats on its side. So the model keeps `area` an integer that
  names the area row at that position when one exists.
  - A seat whose `area` names no row makes `createOrder` crash on
    `seat.area.price`.
  - The payment total's LEFT JOIN gives such a seat 0.
  - The pre-check's inner join drops such a seat.
- The reservation entity declares no `user` relation. The single-seat
  reservation path saves, joins and filters by one anyway. So
  `Reservation.user` is an optional owner.
- The payment request DTO declares `orderId`, `paymentMethod` and
  `totalAmount`. The payment service reads `paymentMethod`, `eventDateId`
  and `seatIds`. The model takes the service's parameters.

## Model

| member | source | states |
|---|---|---|
| `ErrorCodes.HttpStatus` | src/contants/error-codes.ts:1-97 | every not-found kind answers 404, every conflict kind 409, and 401 belongs to exactly INVALID_CREDENTIALS and UNAUTHORIZED |
| `ErrorCodes.FromCode` | src/contants/error-codes.ts:1-97 | exactly the codes 1 to 19 name a key, and the key named carries that code |
| `ErrorCodes.CodeRoundTrip` | src/contants/error-codes.ts:1-97 | decoding any key's code gives the same key back |
| `ErrorCodes.CodesDistinct` | src/contants/error-codes.ts:1-97 | two different keys never share a code |
| `ErrorCodes.NoInsufficientBalanceKey` | src/contants/error-codes.ts:1-97 | no key of the table is named INSUFFICIENT_BALANCE, so the payment service's read of that property is undefined |
| `ErrorCodes.TranslateSaveError` | src/reservations/orders.service.ts:156-166 | a unique violation (23505) becomes the given table row; any other database error propagates unchanged |
| `Entities.NewOrder` | src/reservations/entities/order.entity.ts:21-47 | a new order belongs to its user, stores the payment method it is given and takes `socket_pay` when none is given, and starts neither cancelled nor deleted |
| `Entities.NewReservation` | src/reservations/entities/reservation.entity.ts:24-52 | a new reservation has the given seat, date and owners, and null `canceledAt` and `deletedAt`, so the index covers it |
| `Entities.NewReservations` | src/reservations/orders.service.ts:111-117 | one new reservation per seat id, in order, each on the same date and owners |
| `Ledger.Insert` | src/reservations/entities/reservation.entity.ts:17-19 | a save either appends the whole batch or fails with a unique violation, and a successful save keeps the partial unique index |
| `Ledger.InsertSucceedsIff` | src/reservations/entities/reservation.entity.ts:17-19 | a batch is saved exactly when no active row of it takes a pair already held and no two of its active rows share a pair |
| `Ledger.InsertNewSucceedsIff` | src/reservations/entities/reservation.entity.ts:17-19 | fresh reservations for distinct seats on one date are saved exactly when none of those seats is actively held on that date |
| `Database.SeatCountCheck` | src/reservations/orders.service.ts:79-91 | the seat-count check passes exactly when every requested seat exists and no id is repeated |
| `Database.IsSeatReserved` | src/reservations/orders.service.ts:35-48 | the pre-check, by its inner joins, sees only an existing seat with an area on an existing date; it matches a row of the pair that is not soft-deleted and whose order is absent or live |
| `Database.PreCheckIgnoresCancellation` | src/reservations/orders.service.ts:35-48 | the pre-check gives the same answer whatever the reservations' `canceledAt` stamps are |
| `Orders.CreateOrder` | src/reservations/orders.service.ts:50-170 | the checks fire in order (user, date of the event, seat count, pre-check), the first failure wins, only the listed failures occur, users and the catalog tables are never written, a success appends exactly one order of the caller with the default method and one fresh reservation of that order per requested seat on the date (no user owner, neither cancelled nor soft-deleted), and the total is the summed price of the requested seats |
| `Orders.CreateOrderBooksRequestedSeats` | src/reservations/orders.service.ts:109-144 | on success the request had no repeats, and one new order of the caller owns exactly the requested seats, in order, as new active rows on the date that are not soft-deleted and have no user owner, with earlier rows kept and the total equal to the order's summed prices |
| `Orders.CreateOrderSucceedsIff` | src/reservations/orders.service.ts:62-124 | an order is created exactly when the user and date exist, the seats exist and are distinct, the pre-check and the index both find them free, and every seat has an area |
| `Orders.CreateOrderPreservesValid` | src/reservations/orders.service.ts:109-124 | a created order keeps every schema constraint, the partial unique index included |
| `Orders.PreCheckIsAdvisory` | src/reservations/orders.service.ts:93-166 | when the pre-check passes but the index holds a requested seat, the order fails as EXISTING_RESERVATION |
| `Orders.SeatWithoutAreaCrashes` | src/reservations/orders.service.ts:124-144 | when every check and the save pass but a requested seat names no area, reading its price fails as a TypeError |
| `Orders.SoftDeletedOrderStillBlocks` | src/reservations/orders.service.ts:35-48 | a reservation under a soft-deleted order passes the pre-check but still blocks the pair in the index |
| `Orders.CancelledReservationStillPreChecked` | src/reservations/orders.service.ts:35-48 | a cancelled reservation frees the pair in the index but still fails the pre-check, as EXISTING_ORDER |
| `Payments.CreatePaymentForMigration` | src/reservations/payment.service.ts:58-249 | the date is looked up by id alone, then a count mismatch or repeated seat id fails as SEAT_NOT_FOUND, then a seat the pre-check sees fails as EXISTING_ORDER; there is no user-existence check, and a missing user always fails; a success appends one order of the payer with the chosen method and one reservation of that order per requested seat on the date, writes no catalog table, and debits exactly the total from that user, never below zero, leaving every other user unchanged |
| `Payments.PaymentBooksRequestedSeats` | src/reservations/payment.service.ts:117-129 | on success the request had no repeats, and the new order of the payer, with the chosen method, owns exactly the requested seats, in order, as new active rows on the date, with earlier rows kept |
| `Payments.PaymentPreCheckIsAdvisory` | src/reservations/payment.service.ts:99-243 | when the pre-check passes but the index holds a requested seat on the date, the payment fails as EXISTING_RESERVATION |
| `Payments.MissingPayerCrashes` | src/reservations/payment.service.ts:68-147 | when every check and the save pass for an id that names no user, reading its balance fails as a TypeError |
| `Payments.BookedTotal` | src/reservations/payment.service.ts:132-142 | the SUM over live rows of the date for the requested seats is 0 when no row matches: none on the date for a requested seat, or only soft-deleted ones |
| `Payments.PaymentTotalCountsEarlierRows` | src/reservations/payment.service.ts:132-142 | the debited total is the requested seats' prices plus every earlier row of those seats on that date |
| `Payments.BalanceFloor` | src/reservations/payment.service.ts:144-152 | once the checks and the save pass for an existing user, the payment succeeds exactly when the balance covers the total, and otherwise fails as a TypeError |
| `Payments.PaymentPreservesValid` | src/reservations/payment.service.ts:117-152 | a successful payment keeps every schema constraint |
| `Payments.StaleRowIsCharged` | src/reservations/payment.service.ts:132-142 | with a cancelled row of the seat under a soft-deleted order, booking one 30000 seat debits 60000 |
| `Payments.UpdatePayment` | src/reservations/payment.service.ts:251-259 | for any input the store is unchanged and the answer is undefined |
| `Reservations.CreateReservation` | src/reservations/reservations.service.ts:33-121 | the lookups fire in order (user, date of the event, seat of the event), then a pair the index already holds fails as EXISTING_RESERVATION, only those failures occur, and a success appends one active row of the user for that seat and date |
| `Reservations.CreateReservationSucceedsIff` | src/reservations/reservations.service.ts:39-119 | with no pre-check, a reservation is created exactly when the lookups succeed and no active row holds the seat on that date |
| `Reservations.CreateReservationPreservesValid` | src/reservations/reservations.service.ts:63-71 | a created reservation keeps every schema constraint |
| `Reservations.FindAllReservation` | src/reservations/reservations.service.ts:123-170 | the listed ids are exactly the caller's reservations that are not soft-deleted and whose joins succeed, narrowed to the event when one is given, each once, in table order |
| `Reservations.FindOneReservation` | src/reservations/reservations.service.ts:172-220 | a reservation is returned exactly when it is not soft-deleted and the caller can see it; a missing id and another user's reservation both give RESERVATION_NOT_FOUND |
| `Reservations.CreatedReservationIsFound` | src/reservations/reservations.service.ts:172-220 | a reservation just created is found by its owner and by no other user |
| `Reservations.SoftDeleteReservation` | src/reservations/reservations.service.ts:222-239 | RESERVATION_NOT_FOUND exactly when the caller owns no such reservation that is still live; otherwise only that row changes, gaining its `deletedAt` |
| `Reservations.SoftDeleteKeepsSeatHeld` | src/reservations/reservations.service.ts:222-239 | soft deletion keeps the store valid and hides the row: its owner can no longer find or delete it, and the pre-check can only stop seeing seats; yet no pair is freed in the index, and reserving the seat again still fails |
| `Reservations.SoftDeletedReservationStillBlocks` | src/reservations/orders.service.ts:35-48 | after the owner soft-deletes a single-seat reservation, the pre-check stops seeing the seat but the index still holds it, so ordering it fails as EXISTING_RESERVATION |
| `Events.PatchText` | src/events/events.service.ts:124-127 | an absent, null or empty-string value keeps the current text, and any non-empty string replaces it |
| `Events.ApplyPatch` | src/events/events.service.ts:112-128 | `svg`, `ticketingStartTime` and `deletedAt` never change; empty or absent text keeps the old value; `ageLimit` follows any present value, null and 0 included |
| `Events.ApplyPatchIdempotent` | src/events/events.service.ts:124-128 | applying the same patch twice equals applying it once |
| `Events.UpdateEvent` | src/events/events.service.ts:108-140 | EVENT_NOT_FOUND exactly for a missing or soft-deleted event; otherwise only that event row changes, to the patched row |
| `Events.UpdateEventIdempotentAndValid` | src/events/events.service.ts:108-140 | an update keeps the store valid, and repeating it changes nothing more |
| `Events.DateRows` | src/events/events.service.ts:98 | one event-date row of the new event per supplied date, in order |
| `Events.CreateEvent` | src/events/events.service.ts:86-106 | the new event has null `svg`, `ticketingStartTime` and `deletedAt`, and its date rows are appended after every existing one |
| `Events.CreateEventDates` | src/events/events.service.ts:89-99 | on a valid store the new event's dates are exactly the supplied dates, in order, none when they are omitted, and the store stays valid |
| `Events.CreateSeat` | src/events/events.service.ts:155-196 | EVENT_NOT_FOUND for a missing or soft-deleted event, DUPLICATE_SEAT for a live event whose (event, area, row, number) key is taken, these as the only failures, and a success appends the requested seat |
| `Events.CreateSeatSucceedsIff` | src/events/entities/seat.entity.ts:14 | a seat is created exactly when its event exists and is not soft-deleted and its (event, area, row, number) key is free, and the store stays valid |
| `Events.SoftDeleteEvent` | src/events/events.service.ts:142-153 | EVENT_NOT_FOUND exactly for a missing or already soft-deleted event; otherwise only that event gains its `deletedAt`, and nothing cascades |
| `Events.FindOneSeat` | src/events/events.service.ts:217-252 | a seat is found exactly when it belongs to the given event and that event is not soft-deleted; otherwise SEAT_NOT_FOUND |
| `Events.SoftDeleteEventHidesSeats` | src/events/events.service.ts:221-249 | for a live event, the seat lookup finds exactly that event's seats; after the event is soft-deleted it finds none, though the seats remain, and deleting, patching or adding seats to the event fails as EVENT_NOT_FOUND |
| `Auth.EmailOwner` | src/auth/auth.service.ts:73 | the email lookup finds nobody exactly when no user has that email, and otherwise the first user who has it |
| `Auth.Register` | src/auth/auth.service.ts:22-68 | the password mismatch, then a taken email, then a taken nickname are rejected in that order and are the only failures; registration succeeds whenever all three checks pass, and a success appends a user storing the derived key, with the default role and the initial balance |
| `Auth.Login` | src/auth/auth.service.ts:70-97 | every failure is the same "Invalid credentials", an unknown email always fails, and the subject of a success has that email and a matching derived key |
| `Auth.LoginSucceedsIff` | src/auth/auth.service.ts:73-86 | with unique emails, login yields user k exactly when k has that email and the password's derived key matches the stored one |
| `Auth.RegisterPreservesValid` | src/users/entities/user.entity.ts:19-23 | registration keeps emails and nicknames unique and every other constraint |
| `Auth.RegisterThenLogin` | src/auth/auth.service.ts:43-83 | after a successful registration, logging in with the same email and password yields the new user, and a password with a different key is refused |

## Left out

- Controllers, module wiring, DTO validation, `CommonResponse` and `CustomException`. These are HTTP plumbing. Some controllers call service methods that do not exist, such as the payment controller's `createPayment`.
- Response projections (`plainToInstance` and the raw-row assembly of the payment response). Receipts keep only identifiers and totals. `FindAllReservation` and `FindOneReservation` return reservation ids rather than projected rows.
- The read-only queries `findOne`, `findAll` and `findAllSeats` of the events service. They are projections with no rule beyond their joins.
- Payment creation, payment status transitions and cancellation. No service contains them. Nothing in the model sets `canceledAt` or writes a payment row. The stores with cancelled rows in `Orders` and `Payments` only exercise what the schema allows.
- Transactions and concurrency. Each operation is one atomic step: rollback is modelled as "no new store on failure". Not modelled:
  - races between requests;
  - the parallel pre-checks under `Promise.all`;
  - that `createOrder` runs its lookups and its save outside its query runner.
- TypeORM's implicit `deletedAt IS NULL` filter, beyond the main entity of reservation and event queries. The model applies it to those two tables because the modelled operations soft-delete their rows. It is not applied to joined tables, nor to users, event dates, areas and seats, which no modelled operation soft-deletes. A store holding soft-deleted rows of those tables therefore shows them as live.
- The order in which the database returns rows. `createOrder` and the payment build their reservations from the fetched seat list. The model uses the request's order; the seat check makes the two lists hold the same seats. Listings come back in table order.
- An empty `seatIds` list. The SQL generated for `In([])` and `IN (:...seatIds)` is not modelled. The model lets an empty request pass the seat check.
- Identifier syntax. Ids are abstracted to positions. A falsy `eventId` in `findAllReservation` is modelled as an absent one.
- Database errors other than unique violations. No modelled save raises one, so the `Db` failure never arises.
- The key derivation (PBKDF2), the random salt and JWT signing. The first two are parameters; `Login` returns the token's subject rather than a token.
- Request-body fields outside each DTO, which `register` would spread into the new user.
- The nickname generator, because it uses floating-point randomness. `users.service.ts` is a thin repository wrapper. The manager dashboard service is read-only and behind a role gate.
- Column widths and signedness. PostgreSQL ignores `unsigned`, yet prices and balances are `nat`s. The balance stays non-negative through the payment's guard, as `BalanceFloor` shows. A null `point` is not modelled.
- `Auth.Login`: its own contract does not pin which user answers when emails repeat. `Auth.LoginSucceedsIff` states it under the unique-email constraint.
