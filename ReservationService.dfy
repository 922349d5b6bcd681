/**
  `ReservationService`: the validator that guards creation and update, the
  two record-building operations, and the composition of the listing filter.
  The store is a sequence of reservations, the rooms a map from id to room,
  and `today` stands for `LocalDate.now()`.
 */
module ReservationService {
  import opened Domain
  import opened ReservationRepository
  import opened ReservationSpecifications
  import opened ReservationPageRequest
  import RoomService

  /** `findById`: the first stored reservation with that id, or NotFound. */
  function FindById(store: seq<Reservation>, id: int): (res: Result<Reservation>)
    ensures res.Ok? ==> res.value in store && res.value.id == id
    ensures res.Err? <==> forall r :: r in store ==> r.id != id
    ensures res.Err? ==> res.error == NotFound(ReservationEntity, id)
  {
    if store == [] then Err(NotFound(ReservationEntity, id))
    else if store[0].id == id then Ok(store[0])
    else FindById(store[1..], id)
  }

  /**
    The first guard of `validateReservation`: the room of the reservation being
    updated when no room is given, else the given room.
   */
  function ResolveRoom(dto: ReservationDto, rooms: map<int, Room>, store: seq<Reservation>): Result<Room> {
    if dto.roomId.None? && dto.reservationId.Some? then
      var reservation :- FindById(store, dto.reservationId.value);
      Ok(reservation.room)
    else if dto.roomId.Some? then
      RoomService.FindById(rooms, dto.roomId.value)
    else
      Err(InvalidReservation(RoomRequired))
  }

  /** `hasValidDatesEntries`: both date strings present and not blank. */
  predicate HasValidDatesEntries(dto: ReservationDto) {
    dto.startDate.Some? && dto.endDate.Some? && dto.startDate.value.Iso? && dto.endDate.value.Iso?
  }

  /** `validateDateRules`: four guards in a fixed order; the first that fails decides the error. */
  function ValidateDateRules(room: Room, startDate: int, endDate: int, today: int): (o: Outcome)
    ensures o.Pass? <==>
      today <= startDate < endDate &&
      endDate - startDate <= room.details.maxReserveDays &&
      endDate <= today + room.details.maxReserveAdvanceDays
    ensures o == Fail(InvalidReservation(DatesOutOfOrder)) <==> startDate > endDate || startDate < today
    ensures o == Fail(InvalidReservation(SameDay)) <==> today <= startDate == endDate
    ensures o == Fail(MaxReserveDays(room.details.maxReserveDays)) <==>
      today <= startDate < endDate && endDate - startDate > room.details.maxReserveDays
    ensures o == Fail(MaxReserveAdvanceDays(room.details.maxReserveAdvanceDays)) <==>
      today <= startDate < endDate && endDate - startDate <= room.details.maxReserveDays &&
      (startDate > today + room.details.maxReserveAdvanceDays || endDate > today + room.details.maxReserveAdvanceDays)
  {
    var limits := room.details;
    if startDate > endDate || startDate < today then
      Fail(InvalidReservation(DatesOutOfOrder))
    else if startDate == endDate then
      Fail(InvalidReservation(SameDay))
    else if endDate - startDate > limits.maxReserveDays then
      Fail(MaxReserveDays(limits.maxReserveDays))
    else if startDate > today + limits.maxReserveAdvanceDays || endDate > today + limits.maxReserveAdvanceDays then
      Fail(MaxReserveAdvanceDays(limits.maxReserveAdvanceDays))
    else
      Pass
  }

  /**
    `validateRoomAvailability`: an update is checked with the except-current
    count and then its status; a creation with the plain count only.
   */
  function ValidateRoomAvailability(dto: ReservationDto, store: seq<Reservation>, startDate: int, endDate: int): (o: Outcome)
    ensures dto.reservationId.None? ==>
      (o.Pass? <==> FindTotalReservationsByRoomAndDate(store, dto.roomId, startDate, endDate) == 0)
    ensures dto.reservationId.Some? ==>
      (o.Pass? <==>
        FindTotalReservationsByRoomAndDateExceptCurrentReservation(store, dto.roomId, startDate, endDate, dto.reservationId.value) == 0 &&
        (dto.status.Some? ==> dto.status.value in StatusNames))
    ensures o.Fail? ==> o.error in {InvalidReservation(AlreadyReserved), InvalidReservation(StatusNotValid)}
    ensures o == Fail(InvalidReservation(StatusNotValid)) <==>
      dto.reservationId.Some? && dto.status.Some? && dto.status.value !in StatusNames &&
      FindTotalReservationsByRoomAndDateExceptCurrentReservation(store, dto.roomId, startDate, endDate, dto.reservationId.value) == 0
  {
    if dto.reservationId.Some? then
      if FindTotalReservationsByRoomAndDateExceptCurrentReservation(store, dto.roomId, startDate, endDate, dto.reservationId.value) > 0 then
        Fail(InvalidReservation(AlreadyReserved))
      else if dto.status.Some? && dto.status.value !in StatusNames then
        Fail(InvalidReservation(StatusNotValid))
      else
        Pass
    else if FindTotalReservationsByRoomAndDate(store, dto.roomId, startDate, endDate) > 0 then
      Fail(InvalidReservation(AlreadyReserved))
    else
      Pass
  }

  /**
    What a request must satisfy to pass validation, stated as one condition:
    a room resolves, and when both dates are given they form a legal stay for
    that room's policy, the repository count is zero and, on an update, a
    given status is a known one.
   */
  predicate Acceptable(dto: ReservationDto, rooms: map<int, Room>, store: seq<Reservation>, today: int) {
    var room := ResolveRoom(dto, rooms, store);
    room.Ok? &&
    (HasValidDatesEntries(dto) ==>
      var startDate, endDate, policy := dto.startDate.value.day, dto.endDate.value.day, room.value.details;
      today <= startDate < endDate &&
      endDate - startDate <= policy.maxReserveDays &&
      endDate <= today + policy.maxReserveAdvanceDays &&
      if dto.reservationId.Some? then
        FindTotalReservationsByRoomAndDateExceptCurrentReservation(store, dto.roomId, startDate, endDate, dto.reservationId.value) == 0 &&
        (dto.status.Some? ==> dto.status.value in StatusNames)
      else
        FindTotalReservationsByRoomAndDate(store, dto.roomId, startDate, endDate) == 0)
  }

  /** `validateReservation`: room resolution, then (only with both dates) date rules, then availability. */
  function ValidateReservation(dto: ReservationDto, rooms: map<int, Room>, store: seq<Reservation>, today: int): (o: Outcome)
    ensures o.Pass? <==> Acceptable(dto, rooms, store, today)
    ensures dto.roomId.None? && dto.reservationId.None? ==> o == Fail(InvalidReservation(RoomRequired))
    ensures ResolveRoom(dto, rooms, store).Err? ==> o == Fail(ResolveRoom(dto, rooms, store).error)
    ensures ResolveRoom(dto, rooms, store).Ok? && !HasValidDatesEntries(dto) ==> o == Pass
    ensures ResolveRoom(dto, rooms, store).Ok? && HasValidDatesEntries(dto) ==>
      var startDate, endDate := dto.startDate.value.day, dto.endDate.value.day;
      var dateRules := ValidateDateRules(ResolveRoom(dto, rooms, store).value, startDate, endDate, today);
      o == if dateRules.Fail? then dateRules else ValidateRoomAvailability(dto, store, startDate, endDate)
  {
    match ResolveRoom(dto, rooms, store)
    case Err(e) => Fail(e)
    case Ok(room) =>
      if HasValidDatesEntries(dto) then
        var startDate, endDate := dto.startDate.value.day, dto.endDate.value.day;
        var dateRules := ValidateDateRules(room, startDate, endDate, today);
        if dateRules.Fail? then dateRules
        else ValidateRoomAvailability(dto, store, startDate, endDate)
      else
        Pass
  }

  /**
    When only the reservation id is given, the room is that reservation's room,
    whatever the room table holds, and the date rules use its policy.
   */
  lemma RoomComesFromExistingReservation(dto: ReservationDto, rooms: map<int, Room>, store: seq<Reservation>, today: int, existing: Reservation)
    requires dto.roomId.None? && dto.reservationId == Some(existing.id)
    requires FindById(store, existing.id) == Ok(existing)
    ensures ResolveRoom(dto, rooms, store) == Ok(existing.room)
    ensures HasValidDatesEntries(dto) ==>
      var startDate, endDate := dto.startDate.value.day, dto.endDate.value.day;
      var dateRules := ValidateDateRules(existing.room, startDate, endDate, today);
      ValidateReservation(dto, rooms, store, today)
        == if dateRules.Fail? then dateRules else ValidateRoomAvailability(dto, store, startDate, endDate)
  {
  }

  /** A creation is never checked for its status, whatever status the request carries. */
  lemma CreationIgnoresStatus(dto: ReservationDto, rooms: map<int, Room>, store: seq<Reservation>, today: int, status: Option<string>)
    requires dto.reservationId.None?
    ensures ValidateReservation(dto.(status := status), rooms, store, today) == ValidateReservation(dto, rooms, store, today)
  {
  }

  /** The validator's view of a creation request. */
  function FromCreateDto(dto: ReservationCreateDto): ReservationDto {
    ReservationDto(None, dto.roomId, dto.guestEmail, Some(dto.startDate), Some(dto.endDate), None)
  }

  /** The validator's view of an update request for reservation `reservationId`. */
  function FromUpdateDto(reservationId: int, dto: ReservationUpdateDto): ReservationDto {
    ReservationDto(Some(reservationId), dto.roomId, dto.guestEmail, dto.startDate, dto.endDate, dto.status)
  }

  /**
    `createReservation`: a new record with the request's guest, dates and room,
    created today and RESERVED. `newId` is the identity the store assigns on save.
   */
  function CreateReservation(dto: ReservationCreateDto, rooms: map<int, Room>, today: int, newId: int): (res: Result<Reservation>)
    requires dto.roomId.Some?
    ensures res.Ok? <==> dto.startDate.Iso? && dto.endDate.Iso? && dto.roomId.value in rooms
    ensures dto.startDate.Blank? || dto.endDate.Blank? ==> res == Err(UnparseableDate)
    ensures dto.startDate.Iso? && dto.endDate.Iso? && dto.roomId.value !in rooms ==>
      res == Err(NotFound(RoomEntity, dto.roomId.value))
    ensures res.Ok? ==>
      var r := res.value;
      r.id == newId && r.guestEmail == dto.guestEmail &&
      dto.startDate == Iso(r.startDate) && dto.endDate == Iso(r.endDate) &&
      r.room == rooms[dto.roomId.value] &&
      r.createDate == today && r.status == Some(RESERVED)
  {
    if dto.startDate.Blank? || dto.endDate.Blank? then
      Err(UnparseableDate)
    else
      var room :- RoomService.FindById(rooms, dto.roomId.value);
      Ok(Reservation(newId, dto.guestEmail, today, dto.startDate.day, dto.endDate.day, Some(RESERVED), room))
  }

  /**
    `validateAndCreateReservation`: nothing is created when validation fails;
    a created reservation is a legal stay for its room's policy and no stored
    reservation is counted against it.
   */
  function ValidateAndCreateReservation(
    dto: ReservationCreateDto, rooms: map<int, Room>, store: seq<Reservation>, today: int, newId: int): (res: Result<Reservation>)
    ensures ValidateReservation(FromCreateDto(dto), rooms, store, today).Fail? ==>
      res == Err(ValidateReservation(FromCreateDto(dto), rooms, store, today).error)
    ensures dto.roomId.None? ==> res == Err(InvalidReservation(RoomRequired))
    ensures ValidateReservation(FromCreateDto(dto), rooms, store, today).Pass? ==>
      dto.roomId.Some? && res == CreateReservation(dto, rooms, today, newId)
    ensures res.Ok? ==>
      var r := res.value;
      today <= r.startDate < r.endDate &&
      r.endDate - r.startDate <= r.room.details.maxReserveDays &&
      r.endDate <= today + r.room.details.maxReserveAdvanceDays &&
      r.status == Some(RESERVED) && r.createDate == today &&
      forall x :: x in store ==> !CountedByRoomAndDate(x, dto.roomId, r.startDate, r.endDate)
  {
    var check := ValidateReservation(FromCreateDto(dto), rooms, store, today);
    if check.Fail? then Err(check.error)
    else CreateReservation(dto, rooms, today, newId)
  }

  /**
    `updateReservation`: dates and room change only when supplied; the status
    is always overwritten, with null when none is supplied; id, guest and
    creation date are kept.
   */
  function UpdateReservation(reservationId: int, dto: ReservationUpdateDto, store: seq<Reservation>, rooms: map<int, Room>): (res: Result<Reservation>)
    ensures FindById(store, reservationId).Err? ==> res == Err(NotFound(ReservationEntity, reservationId))
    ensures res.Err? <==>
      FindById(store, reservationId).Err? || dto.startDate == Some(Blank) || dto.endDate == Some(Blank) ||
      (dto.roomId.Some? && dto.roomId.value !in rooms)
    ensures FindById(store, reservationId).Ok? && (dto.startDate == Some(Blank) || dto.endDate == Some(Blank)) ==>
      res == Err(UnparseableDate)
    ensures FindById(store, reservationId).Ok? && dto.startDate != Some(Blank) && dto.endDate != Some(Blank) &&
            dto.roomId.Some? && dto.roomId.value !in rooms ==>
      res == Err(NotFound(RoomEntity, dto.roomId.value))
    ensures res.Ok? ==>
      var prior, r := FindById(store, reservationId).value, res.value;
      r.id == prior.id == reservationId && r.guestEmail == prior.guestEmail && r.createDate == prior.createDate &&
      (if dto.startDate.Some? then dto.startDate.value == Iso(r.startDate) else r.startDate == prior.startDate) &&
      (if dto.endDate.Some? then dto.endDate.value == Iso(r.endDate) else r.endDate == prior.endDate) &&
      (if dto.roomId.Some? then r.room == rooms[dto.roomId.value] else r.room == prior.room) &&
      r.status == dto.status
  {
    var reservation :- FindById(store, reservationId);
    if dto.startDate == Some(Blank) || dto.endDate == Some(Blank) then
      Err(UnparseableDate)
    else
      var startDate := if dto.startDate.Some? then dto.startDate.value.day else reservation.startDate;
      var endDate := if dto.endDate.Some? then dto.endDate.value.day else reservation.endDate;
      var room :- if dto.roomId.Some? then RoomService.FindById(rooms, dto.roomId.value) else Ok(reservation.room);
      Ok(reservation.(startDate := startDate, endDate := endDate, room := room, status := dto.status))
  }

  /** Applying the same update to the record it produced changes nothing. */
  lemma UpdateIsIdempotent(reservationId: int, dto: ReservationUpdateDto, store: seq<Reservation>, rooms: map<int, Room>, updated: Reservation)
    requires UpdateReservation(reservationId, dto, store, rooms) == Ok(updated)
    ensures UpdateReservation(reservationId, dto, [updated], rooms) == Ok(updated)
  {
    assert FindById([updated], reservationId) == Ok(updated);
  }

  /**
    `validateAndUpdateReservation`: nothing is updated when validation fails;
    when both dates are supplied, the updated record is a legal stay for its
    room's policy, the except-current count is zero and its status is absent
    or known.
   */
  function ValidateAndUpdateReservation(
    reservationId: int, dto: ReservationUpdateDto, rooms: map<int, Room>, store: seq<Reservation>, today: int): (res: Result<Reservation>)
    ensures ValidateReservation(FromUpdateDto(reservationId, dto), rooms, store, today).Fail? ==>
      res == Err(ValidateReservation(FromUpdateDto(reservationId, dto), rooms, store, today).error)
    ensures ValidateReservation(FromUpdateDto(reservationId, dto), rooms, store, today).Pass? ==>
      res == UpdateReservation(reservationId, dto, store, rooms)
    ensures res.Ok? && HasValidDatesEntries(FromUpdateDto(reservationId, dto)) ==>
      var r := res.value;
      today <= r.startDate < r.endDate &&
      r.endDate - r.startDate <= r.room.details.maxReserveDays &&
      r.endDate <= today + r.room.details.maxReserveAdvanceDays &&
      FindTotalReservationsByRoomAndDateExceptCurrentReservation(store, dto.roomId, r.startDate, r.endDate, reservationId) == 0 &&
      (r.status.Some? ==> r.status.value in StatusNames)
  {
    var check := ValidateReservation(FromUpdateDto(reservationId, dto), rooms, store, today);
    if check.Fail? then Err(check.error)
    else UpdateReservation(reservationId, dto, store, rooms)
  }

  /**
    The filter of `getUserReservationsPageList`:
    where(equalToGuestEmail).and(btwStartDateAndEndDate.and(equalToRoom)).
   */
  function ListingFilter(dto: ReservationPageRequestDto): (f: Specification)
    ensures forall r :: Matches(r, f) <==>
      (dto.guestEmail.Some? ==> r.guestEmail == dto.guestEmail.value) &&
      (dto.startDate.Some? ==> dto.startDate.value <= r.createDate) &&
      (dto.endDate.Some? ==> r.createDate <= dto.endDate.value) &&
      (dto.roomId.Some? ==> r.room.id == dto.roomId.value)
  {
    And(Where(EqualToGuestEmail(dto.guestEmail)),
        And(Where(Some(BtwStartDateAndEndDate(dto.startDate, dto.endDate))), Where(EqualToRoom(dto.roomId))))
  }

  /** `toDtoList`: one response record per reservation, in the same order. */
  method ToDtoList(reservations: seq<Reservation>) returns (dtos: seq<ReservationDto>)
    ensures |dtos| == |reservations|
    ensures forall i :: 0 <= i < |reservations| ==> dtos[i] == ToDto(reservations[i])
  {
    dtos := [];
    for i := 0 to |reservations|
      invariant |dtos| == i
      invariant forall j :: 0 <= j < i ==> dtos[j] == ToDto(reservations[j])
    {
      dtos := dtos + [ToDto(reservations[i])];
    }
  }

  /**
    `getUserReservationsPageList` without Spring's paging: None when the page
    request is refused, otherwise every stored reservation the filter matches,
    as response records.
   */
  method GetUserReservationsPageList(store: seq<Reservation>, dto: ReservationPageRequestDto)
    returns (res: Option<seq<ReservationDto>>)
    ensures res.Some? <==> ToPageRequest(dto).Some?
    ensures res.Some? ==>
      var matching := FindAll(store, ListingFilter(dto));
      |res.value| == |matching| && forall i :: 0 <= i < |matching| ==> res.value[i] == ToDto(matching[i])
  {
    if ToPageRequest(dto).None? {
      return None;
    }
    var items := ToDtoList(FindAll(store, ListingFilter(dto)));
    res := Some(items);
  }
}
