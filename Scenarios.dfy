/**
  Concrete runs of the engine with the room policy used by the service tests
  (stays of at most 3 days, booked at most 30 days ahead), and the runs that
  show how the repository counts and the partial update behave as written.
 */
module Scenarios {
  import opened Domain
  import opened ReservationRepository
  import opened ReservationService
  import opened Availability

  const Policy: RoomDetails := RoomDetails(3, 30)
  const TestRoom: Room := Room(1, Policy)
  const Rooms: map<int, Room> := map[1 := TestRoom]
  const Guest: string := "guestEmail@gmail.com"

  /** A creation request for room `roomId` from today + `s` to today + `e`. */
  function Request(today: int, s: int, e: int, roomId: Option<int>): ReservationCreateDto {
    ReservationCreateDto(Guest, Iso(today + s), Iso(today + e), roomId)
  }

  function Booked(id: int, s: int, e: int, status: string, room: Room, today: int): Reservation {
    Reservation(id, Guest, today, today + s, today + e, Some(status), room)
  }

  /** A stay of exactly maxReserveDays in an empty store is created, RESERVED, today. */
  lemma StayOfMaxReserveDaysIsCreated(today: int)
    ensures ValidateAndCreateReservation(Request(today, 0, 3, Some(1)), Rooms, [], today, 1)
            == Ok(Reservation(1, Guest, today, today, today + 3, Some(RESERVED), TestRoom))
  {
  }

  /** Without room and reservation id the request fails before any date is looked at. */
  lemma MissingRoomIsRejected(today: int)
    ensures ValidateAndCreateReservation(Request(today, 0, 5, None), Rooms, [], today, 1)
            == Err(InvalidReservation(RoomRequired))
  {
  }

  lemma FiveDayStayExceedsMaxReserveDays(today: int)
    ensures ValidateAndCreateReservation(Request(today, 0, 5, Some(1)), Rooms, [], today, 1)
            == Err(MaxReserveDays(3))
  {
  }

  /** today + 30 .. today + 33: the stay length passes, the end lies beyond the horizon. */
  lemma StayBeyondHorizonExceedsMaxReserveAdvanceDays(today: int)
    ensures ValidateAndCreateReservation(Request(today, 30, 33, Some(1)), Rooms, [], today, 1)
            == Err(MaxReserveAdvanceDays(30))
  {
  }

  /** A request that overlaps an active reservation of the room is refused. */
  lemma OverlappingRequestIsRefused(today: int)
    ensures ValidateAndCreateReservation(
              Request(today, 2, 5, Some(1)), Rooms, [Booked(1, 0, 3, RESERVED, TestRoom, today)], today, 2)
            == Err(InvalidReservation(AlreadyReserved))
  {
    EndInRangeIsAlwaysCounted([Booked(1, 0, 3, RESERVED, TestRoom, today)], Booked(1, 0, 3, RESERVED, TestRoom, today),
                              Some(1), today + 2, today + 5, 0);
  }

  /** Horizon of 5 days, one reservation over today + 1 .. today + 2. */
  lemma AvailableDatesAroundOneReservation(today: int)
    ensures FreeDays([Booked(1, 1, 2, RESERVED, TestRoom, today)], today, 5) == [today, today + 3, today + 4]
  {
    var rs := [Booked(1, 1, 2, RESERVED, TestRoom, today)];
    assert rs[0] in rs;
    assert DayAvailable(rs, today) && DayAvailable(rs, today + 3) && DayAvailable(rs, today + 4);
  }

  /**
    The except-current count applies `r.id <> :reservationId` inside the first
    disjunct only: moving a reservation's start while keeping its end makes it
    collide with itself.
   */
  lemma UpdateKeepingEndDateCollidesWithItself(today: int)
    ensures ValidateAndUpdateReservation(
              7, ReservationUpdateDto(Guest, None, Some(Iso(today + 2)), Some(Iso(today + 3)), Some(RESERVED)),
              Rooms, [Booked(7, 1, 3, RESERVED, TestRoom, today)], today)
            == Err(InvalidReservation(AlreadyReserved))
  {
    var mine := Booked(7, 1, 3, RESERVED, TestRoom, today);
    EndInRangeIsAlwaysCounted([mine], mine, None, today + 2, today + 3, 7);
  }

  /**
    An update without a room passes a null room id to the count, so a stored
    reservation of the same room that starts inside the new stay is missed:
    the update is accepted although the new stay clashes with it.
   */
  lemma UpdateWithoutRoomMissesStartOverlap(today: int)
    ensures ValidateAndUpdateReservation(
              7, ReservationUpdateDto(Guest, None, Some(Iso(today + 4)), Some(Iso(today + 6)), Some(RESERVED)),
              Rooms, [Booked(7, 1, 2, RESERVED, TestRoom, today), Booked(8, 5, 8, RESERVED, TestRoom, today)], today).Ok?
    ensures Clashes(Booked(8, 5, 8, RESERVED, TestRoom, today), today + 4, today + 6)
  {
    var store := [Booked(7, 1, 2, RESERVED, TestRoom, today), Booked(8, 5, 8, RESERVED, TestRoom, today)];
    assert FindTotalReservationsByRoomAndDateExceptCurrentReservation(store, None, today + 4, today + 6, 7) == 0 by {
      forall r | r in store ensures !CountedExceptCurrent(r, None, today + 4, today + 6, 7) {
      }
    }
  }

  /**
    The end-date disjunct ignores room and status: a cancelled reservation of
    another room blocks a creation in a room that has no reservation at all.
   */
  lemma CancelledReservationOfAnotherRoomBlocksCreation(today: int)
    ensures ValidateAndCreateReservation(
              Request(today, 0, 2, Some(1)), Rooms, [Booked(8, 1, 2, CANCELED, Room(2, Policy), today)], today, 9)
            == Err(InvalidReservation(AlreadyReserved))
  {
    var other := Booked(8, 1, 2, CANCELED, Room(2, Policy), today);
    EndInRangeIsAlwaysCounted([other], other, Some(1), today, today + 2, 0);
  }

  /**
    Date rules run only when both dates are supplied: an update of the start
    date alone is accepted even when it moves the start past the end.
   */
  lemma StartOnlyUpdateSkipsDateRules(today: int)
    ensures ValidateAndUpdateReservation(
              7, ReservationUpdateDto(Guest, None, Some(Iso(today + 9)), None, Some(RESERVED)),
              Rooms, [Booked(7, 1, 2, RESERVED, TestRoom, today)], today)
            == Ok(Reservation(7, Guest, today, today + 9, today + 2, Some(RESERVED), TestRoom))
  {
  }
}
