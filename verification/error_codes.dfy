/** The service layer's error table and the ways an operation can fail.

    Every failure the services raise deliberately is a `CustomException`
    built from one row of the table (code, message, HTTP status); the auth
    service raises framework exceptions instead; and a few paths fail by
    dereferencing null or undefined, which the framework turns into a 500. */
module ErrorCodes {
  import opened Results

  /** One key of the error table. */
  datatype ErrorKind =
    | UserAlreadyExists
    | InvalidCredentials
    | NotCurrentlyAvailable
    | NicknameAlreadyExists
    | ValidationFailed
    | InternalServerError
    | UserNotFound
    | Unauthorized
    | EventNotFound
    | DuplicateSeat
    | SeatNotFound
    | EventDateNotFound
    | ExistingReservation
    | ReservationNotFound
    | OrderNotFound
    | OrderUserMismatch
    | ExistingOrder
    | PaymentNotFound
    | ExistingPayment

  /** The kinds that report a missing entity. */
  predicate IsNotFound(k: ErrorKind) {
    k in {UserNotFound, EventNotFound, SeatNotFound, EventDateNotFound,
          ReservationNotFound, OrderNotFound, PaymentNotFound}
  }

  /** The kinds that report a clash with existing data. */
  predicate IsConflict(k: ErrorKind) {
    k in {UserAlreadyExists, NicknameAlreadyExists, DuplicateSeat,
          ExistingReservation, ExistingOrder, ExistingPayment}
  }

  /** The numeric `code` of a key; the codes number the keys 1 to 19. */
  function Code(k: ErrorKind): (c: nat)
    ensures 1 <= c <= 19
  {
    match k
    case UserAlreadyExists => 1
    case InvalidCredentials => 2
    case NotCurrentlyAvailable => 3
    case NicknameAlreadyExists => 4
    case ValidationFailed => 5
    case InternalServerError => 6
    case UserNotFound => 7
    case Unauthorized => 8
    case EventNotFound => 9
    case DuplicateSeat => 10
    case SeatNotFound => 11
    case EventDateNotFound => 12
    case ExistingReservation => 13
    case ReservationNotFound => 14
    case OrderNotFound => 15
    case OrderUserMismatch => 16
    case ExistingOrder => 17
    case PaymentNotFound => 18
    case ExistingPayment => 19
  }

  /** The `httpStatus` of a key. Every not-found kind answers 404, every
      conflict kind 409, and exactly the two credential kinds answer 401. */
  function HttpStatus(k: ErrorKind): (s: nat)
    ensures IsNotFound(k) ==> s == 404
    ensures IsConflict(k) ==> s == 409
    ensures s == 401 <==> k == InvalidCredentials || k == Unauthorized
    ensures s == 404 ==> IsNotFound(k)
    ensures s == 409 ==> IsConflict(k)
  {
    match k
    case UserAlreadyExists => 409
    case InvalidCredentials => 401
    case NotCurrentlyAvailable => 503
    case NicknameAlreadyExists => 409
    case ValidationFailed => 400
    case InternalServerError => 500
    case UserNotFound => 404
    case Unauthorized => 401
    case EventNotFound => 404
    case DuplicateSeat => 409
    case SeatNotFound => 404
    case EventDateNotFound => 404
    case ExistingReservation => 409
    case ReservationNotFound => 404
    case OrderNotFound => 404
    case OrderUserMismatch => 403
    case ExistingOrder => 409
    case PaymentNotFound => 404
    case ExistingPayment => 409
  }

  /** The human-readable `message` of a key. */
  function Message(k: ErrorKind): string {
    match k
    case UserAlreadyExists => "User already exists"
    case InvalidCredentials => "Invalid credentials"
    case NotCurrentlyAvailable => "Not currently available"
    case NicknameAlreadyExists => "Nickname already exists"
    case ValidationFailed => "Validation failed"
    case InternalServerError => "Internal server error"
    case UserNotFound => "User not found"
    case Unauthorized => "Unauthorized"
    case EventNotFound => "Event not found"
    case DuplicateSeat => "A seat with the same area, row, number, and event already exists"
    case SeatNotFound => "Seat not found for the specified event"
    case EventDateNotFound => "Event date not found for the specified event"
    case ExistingReservation => "This seat is already reserved for the selected event date"
    case ReservationNotFound => "Reservation not found"
    case OrderNotFound => "Order not found"
    case OrderUserMismatch => "The order does not belong to the current user"
    case ExistingOrder => "The order is already pending or completed for the reservations"
    case PaymentNotFound => "Payment not found"
    case ExistingPayment => "This payment is already pending or completed for the order"
  }

  /** The property name under which the table stores a key. */
  function KeyName(k: ErrorKind): string {
    match k
    case UserAlreadyExists => "USER_ALREADY_EXISTS"
    case InvalidCredentials => "INVALID_CREDENTIALS"
    case NotCurrentlyAvailable => "NOT_CURRENTLY_AVAILABLE"
    case NicknameAlreadyExists => "NICKNAME_ALREADY_EXISTS"
    case ValidationFailed => "VALIDATION_FAILED"
    case InternalServerError => "INTERNAL_SERVER_ERROR"
    case UserNotFound => "USER_NOT_FOUND"
    case Unauthorized => "UNAUTHORIZED"
    case EventNotFound => "EVENT_NOT_FOUND"
    case DuplicateSeat => "DUPLICATE_SEAT"
    case SeatNotFound => "SEAT_NOT_FOUND"
    case EventDateNotFound => "EVENT_DATE_NOT_FOUND"
    case ExistingReservation => "EXISTING_RESERVATION"
    case ReservationNotFound => "RESERVATION_NOT_FOUND"
    case OrderNotFound => "ORDER_NOT_FOUND"
    case OrderUserMismatch => "ORDER_USER_MISMATCH"
    case ExistingOrder => "EXISTING_ORDER"
    case PaymentNotFound => "PAYMENT_NOT_FOUND"
    case ExistingPayment => "EXISTING_PAYMENT"
  }

  /** The key carrying a numeric code, if any: the inverse of `Code`. */
  function FromCode(c: int): (r: Option<ErrorKind>)
    ensures r.Some? <==> 1 <= c <= 19
    ensures r.Some? ==> Code(r.value) == c
  {
    if c == 1 then Some(UserAlreadyExists)
    else if c == 2 then Some(InvalidCredentials)
    else if c == 3 then Some(NotCurrentlyAvailable)
    else if c == 4 then Some(NicknameAlreadyExists)
    else if c == 5 then Some(ValidationFailed)
    else if c == 6 then Some(InternalServerError)
    else if c == 7 then Some(UserNotFound)
    else if c == 8 then Some(Unauthorized)
    else if c == 9 then Some(EventNotFound)
    else if c == 10 then Some(DuplicateSeat)
    else if c == 11 then Some(SeatNotFound)
    else if c == 12 then Some(EventDateNotFound)
    else if c == 13 then Some(ExistingReservation)
    else if c == 14 then Some(ReservationNotFound)
    else if c == 15 then Some(OrderNotFound)
    else if c == 16 then Some(OrderUserMismatch)
    else if c == 17 then Some(ExistingOrder)
    else if c == 18 then Some(PaymentNotFound)
    else if c == 19 then Some(ExistingPayment)
    else None
  }

  /** Decoding a key's code gives the key back. */
  lemma CodeRoundTrip(k: ErrorKind)
    ensures FromCode(Code(k)) == Some(k)
  {
  }

  /** Distinct keys carry distinct codes. */
  lemma CodesDistinct(a: ErrorKind, b: ErrorKind)
    requires a != b
    ensures Code(a) != Code(b)
  {
  }

  /** The table has no `INSUFFICIENT_BALANCE` property: no key carries that
      name, so `ERROR_CODES.INSUFFICIENT_BALANCE`, which the payment service
      reads when the balance is short, is undefined and reading its `.code`
      throws. */
  lemma NoInsufficientBalanceKey()
    ensures forall k: ErrorKind :: KeyName(k) != "INSUFFICIENT_BALANCE"
  {
  }

  /** A database error as the driver reports it: SQLSTATE 23505 (unique
      violation) or any other state. */
  datatype DbError = UniqueViolation | OtherDbError(sqlState: string)

  /** The null or undefined dereferences that abort a request with a
      runtime `TypeError`. */
  datatype Fault =
    | NullUser            // `user.point` read while the user lookup found nobody
    | UndefinedErrorKind  // `.code` read from a key missing in the table
    | NullArea            // `seat.area.price` read from a seat without an area

  /** Why an operation failed. */
  datatype Failure =
    | Coded(kind: ErrorKind)         // CustomException from the table
    | BadRequest(message: string)    // BadRequestException (HTTP 400)
    | NotAuthorized(message: string) // UnauthorizedException (HTTP 401)
    | Crash(fault: Fault)            // a runtime TypeError (HTTP 500)
    | Db(error: DbError)             // a database error re-thrown unchanged

  /** The catch block shared by every save: a unique violation becomes the
      given table row, any other database error propagates as it is. */
  function TranslateSaveError(e: DbError, onUnique: ErrorKind): (f: Failure)
    ensures f.Coded? <==> e.UniqueViolation?
    ensures f.Coded? ==> f.kind == onUnique
    ensures f.Db? ==> f.error == e
    ensures e.OtherDbError? ==> f == Db(e)
  {
    match e
    case UniqueViolation => Coded(onUnique)
    case OtherDbError(_) => Db(e)
  }
}
