/**
  The entities of the booking system and the wrappers the engine uses for
  absent values and errors. Dates are day numbers (days since some fixed
  epoch); "today" is always passed in by the caller.
 */
module Domain {

  /** A value that may be absent: Java's `null`. */
  datatype Option<+T> = None | Some(value: T)

  /** Which kind of record a `NotFound` error is about. */
  datatype Entity = ReservationEntity | RoomEntity

  /** The distinct messages of `InvalidReservationException`. */
  datatype InvalidReason =
    | RoomRequired        // "The reservation room is required"
    | DatesOutOfOrder     // "Start date must be after today and before end date"
    | SameDay             // "Start date must be different than end date"
    | AlreadyReserved     // "This room is already reserved for these dates, ..."
    | StatusNotValid      // "Reservation status not valid"

  /** One constructor per exception the engine raises. */
  datatype Error =
    | InvalidReservation(reason: InvalidReason)
    | MaxReserveDays(maxReserveDays: int)
    | MaxReserveAdvanceDays(maxReserveAdvanceDays: int)
    | NotFound(entity: Entity, id: int)
      /** A blank date string handed to `LocalDate.parse`, which throws. */
    | UnparseableDate

  /** A computation that yields a value or fails with one of the errors. */
  datatype Result<+T> = Ok(value: T) | Err(error: Error) {
    predicate IsFailure() { Err? }
    function PropagateFailure<U>(): Result<U>
      requires Err?
    {
      Err(error)
    }
    function Extract(): T
      requires Ok?
    {
      value
    }
  }

  /** A check that passes or fails with one of the errors (a `void` method that may throw). */
  datatype Outcome = Pass | Fail(error: Error)

  /** The per-room policy: longest stay and furthest booking horizon, in days. */
  datatype RoomDetails = RoomDetails(maxReserveDays: int, maxReserveAdvanceDays: int)

  datatype Room = Room(id: int, details: RoomDetails)

  /**
    A stored reservation. `status` is a free string in the entity and can be
    null after an update that supplied no status.
   */
  datatype Reservation = Reservation(
    id: int,
    guestEmail: string,
    createDate: int,
    startDate: int,
    endDate: int,
    status: Option<string>,
    room: Room
  )

  const RESERVED: string := "RESERVED"
  const CANCELED: string := "CANCELED"

  /** The names `StatusEnum.valueOf` accepts. */
  const StatusNames: set<string> := {RESERVED, CANCELED}

  /**
    A date string as it reaches the engine: `Blank` when it is empty after
    Java's `trim()`, otherwise `Iso(day)`, the day `LocalDate.parse` reads from it.
   */
  datatype DateText = Blank | Iso(day: int)

  /** The request shape the validator works on (`ReservationDto`). */
  datatype ReservationDto = ReservationDto(
    reservationId: Option<int>,
    roomId: Option<int>,
    guestEmail: string,
    startDate: Option<DateText>,
    endDate: Option<DateText>,
    status: Option<string>
  )

  /**
    `ReservationCreateDto`. Its bean-validation `@NotNull` on the dates is relied
    on, so a date is always present (blank or a day). The room stays optional:
    the service validates a request whose room was set to null directly, as
    its tests do, and then reports "room is required".
   */
  datatype ReservationCreateDto = ReservationCreateDto(
    guestEmail: string,
    startDate: DateText,
    endDate: DateText,
    roomId: Option<int>
  )

  /** `ReservationUpdateDto`: every field but the guest email may be left out. */
  datatype ReservationUpdateDto = ReservationUpdateDto(
    guestEmail: string,
    roomId: Option<int>,
    startDate: Option<DateText>,
    endDate: Option<DateText>,
    status: Option<string>
  )

  /** The projection of a stored reservation into the response shape. */
  function ToDto(r: Reservation): ReservationDto {
    ReservationDto(Some(r.id), Some(r.room.id), r.guestEmail,
                   Some(Iso(r.startDate)), Some(Iso(r.endDate)), r.status)
  }
}
