/**
  The availability calculator: which days of a room's booking horizon are
  free, and whether a candidate stay is free. `ReservationService` and
  `RoomService` carry the same three routines line for line; this module
  models both copies.
 */
module Availability {
  import opened Domain
  import opened ReservationRepository
  import RoomService

  /** `findAllReservationsByRoom`: the RESERVED reservations of the room, in store order. */
  function FindAllReservationsByRoom(store: seq<Reservation>, roomId: int): (rs: seq<Reservation>)
    ensures forall r :: r in rs <==> r in store && r.room.id == roomId && IsReserved(r)
  {
    FindAllByRoomIdAndStatus(store, roomId, RESERVED)
  }

  /** Day `d` lies strictly inside the stay of `r` or on one of its two ends. */
  predicate Covers(r: Reservation, d: int) {
    (d > r.startDate && d < r.endDate) || d == r.startDate || d == r.endDate
  }

  /** No reservation of `rs` covers day `d`. */
  predicate DayAvailable(rs: seq<Reservation>, d: int) {
    forall r :: r in rs ==> !Covers(r, d)
  }

  /**
    The test of `isRoomAvailable`: the candidate's start or end falls strictly
    inside the stay of `r`, its start equals r's start, or its end equals r's end.
   */
  predicate Clashes(r: Reservation, startDate: int, endDate: int) {
    (startDate > r.startDate && startDate < r.endDate)
    || (endDate > r.startDate && endDate < r.endDate)
    || startDate == r.startDate || endDate == r.endDate
  }

  predicate RangeAvailable(rs: seq<Reservation>, startDate: int, endDate: int) {
    forall r :: r in rs ==> !Clashes(r, startDate, endDate)
  }

  /** The days today, today + 1, ..., today + n - 1 that `rs` leaves free, in the order the loop appends them. */
  function FreeDays(rs: seq<Reservation>, today: int, n: int): seq<int>
    decreases n
  {
    if n <= 0 then []
    else FreeDays(rs, today, n - 1) + (if DayAvailable(rs, today + n - 1) then [today + n - 1] else [])
  }

  predicate StrictlyAscending(s: seq<int>) {
    forall i, j :: 0 <= i < j < |s| ==> s[i] < s[j]
  }

  /** A day is listed exactly when it lies in the horizon and no reservation covers it. */
  lemma {:induction false} FreeDaysMembership(rs: seq<Reservation>, today: int, n: int)
    ensures forall d :: d in FreeDays(rs, today, n) <==> today <= d < today + n && DayAvailable(rs, d)
    decreases n
  {
    if n > 0 {
      FreeDaysMembership(rs, today, n - 1);
    }
  }

  /** The listed days are strictly ascending, hence distinct. */
  lemma {:induction false} FreeDaysAscending(rs: seq<Reservation>, today: int, n: int)
    ensures StrictlyAscending(FreeDays(rs, today, n))
    decreases n
  {
    if n > 0 {
      var prefix := FreeDays(rs, today, n - 1);
      FreeDaysAscending(rs, today, n - 1);
      FreeDaysMembership(rs, today, n - 1);
      assert forall i :: 0 <= i < |prefix| ==> prefix[i] in prefix;
    }
  }

  /** At most one entry per day of the horizon. */
  lemma {:induction false} FreeDaysLength(rs: seq<Reservation>, today: int, n: int)
    ensures |FreeDays(rs, today, n)| <= if n > 0 then n else 0
    decreases n
  {
    if n > 0 {
      FreeDaysLength(rs, today, n - 1);
    }
  }

  /** Without reservations every day of the horizon is listed, in order. */
  lemma {:induction false} FreeDaysWithoutReservations(today: int, n: int)
    requires n >= 0
    ensures |FreeDays([], today, n)| == n
    ensures forall i :: 0 <= i < n ==> FreeDays([], today, n)[i] == today + i
    decreases n
  {
    if n > 0 {
      FreeDaysWithoutReservations(today, n - 1);
    }
  }

  /** More reservations never free a day. */
  lemma DayAvailabilityIsMonotone(rs: seq<Reservation>, more: seq<Reservation>, d: int)
    requires forall r :: r in rs ==> r in more
    ensures DayAvailable(more, d) ==> DayAvailable(rs, d)
  {
  }

  /** More reservations never free a candidate stay. */
  lemma RangeAvailabilityIsMonotone(rs: seq<Reservation>, more: seq<Reservation>, startDate: int, endDate: int)
    requires forall r :: r in rs ==> r in more
    ensures RangeAvailable(more, startDate, endDate) ==> RangeAvailable(rs, startDate, endDate)
  {
  }

  /** More reservations never add a day to the list of free days. */
  lemma FreeDaysAreMonotone(rs: seq<Reservation>, more: seq<Reservation>, today: int, n: int)
    requires forall r :: r in rs ==> r in more
    ensures forall d :: d in FreeDays(more, today, n) ==> d in FreeDays(rs, today, n)
  {
    FreeDaysMembership(rs, today, n);
    FreeDaysMembership(more, today, n);
  }

  /**
    A candidate that strictly encloses a reservation is reported available,
    although the reservation's first day lies inside the candidate.
   */
  lemma EnclosingCandidateIsReportedAvailable(r: Reservation, startDate: int, endDate: int)
    requires startDate < r.startDate <= r.endDate < endDate
    ensures RangeAvailable([r], startDate, endDate)
    ensures startDate <= r.startDate <= endDate && !DayAvailable([r], r.startDate)
  {
    assert r in [r];
  }

  /**
    A candidate that starts on a reservation's last day is reported available,
    although that day itself is not listed as free.
   */
  lemma StartOnLastDayIsReportedAvailable(r: Reservation, endDate: int)
    requires r.startDate < r.endDate < endDate
    ensures RangeAvailable([r], r.endDate, endDate)
    ensures !DayAvailable([r], r.endDate)
  {
    assert r in [r];
  }

  /** `isReservationDateAvailable`: the loop with its early `break`. */
  method IsReservationDateAvailable(roomReservations: seq<Reservation>, date: int) returns (available: bool)
    ensures available <==> DayAvailable(roomReservations, date)
  {
    available := true;
    var i := 0;
    while i < |roomReservations|
      invariant 0 <= i <= |roomReservations|
      invariant available
      invariant forall j :: 0 <= j < i ==> !Covers(roomReservations[j], date)
    {
      var reservation := roomReservations[i];
      if (date > reservation.startDate && date < reservation.endDate)
         || (date == reservation.startDate || date == reservation.endDate) {
        assert Covers(reservation, date) && reservation in roomReservations;
        available := false;
        break;
      }
      i := i + 1;
    }
  }

  /** `isRoomAvailable`: scans the room's RESERVED reservations; the room itself is not looked up. */
  method IsRoomAvailable(store: seq<Reservation>, id: int, startDate: int, endDate: int) returns (available: bool)
    ensures available <==> RangeAvailable(FindAllReservationsByRoom(store, id), startDate, endDate)
  {
    available := true;
    var roomReservations := FindAllReservationsByRoom(store, id);
    var i := 0;
    while i < |roomReservations|
      invariant 0 <= i <= |roomReservations|
      invariant available
      invariant forall j :: 0 <= j < i ==> !Clashes(roomReservations[j], startDate, endDate)
    {
      var reservation := roomReservations[i];
      if (startDate > reservation.startDate && startDate < reservation.endDate)
         || (endDate > reservation.startDate && endDate < reservation.endDate)
         || (startDate == reservation.startDate || endDate == reservation.endDate) {
        available := false;
        break;
      }
      i := i + 1;
    }
  }

  /**
    `getRoomAvailableDates`: NotFound for an unknown room; otherwise the days
    of the horizon [today, today + maxReserveAdvanceDays) that no RESERVED
    reservation of the room covers, ascending.
   */
  method GetRoomAvailableDates(rooms: map<int, Room>, store: seq<Reservation>, id: int, today: int)
    returns (res: Result<seq<int>>)
    ensures id !in rooms ==> res == Err(NotFound(RoomEntity, id))
    ensures id in rooms ==>
      res == Ok(FreeDays(FindAllReservationsByRoom(store, id), today, rooms[id].details.maxReserveAdvanceDays))
    ensures res.Ok? ==> StrictlyAscending(res.value)
    ensures res.Ok? ==> forall d :: d in res.value <==>
      today <= d < today + rooms[id].details.maxReserveAdvanceDays &&
      DayAvailable(FindAllReservationsByRoom(store, id), d)
  {
    var room :- RoomService.FindById(rooms, id);
    var roomReservations := FindAllReservationsByRoom(store, id);
    var horizon := room.details.maxReserveAdvanceDays;
    var availableDates: seq<int> := [];
    var i := 0;
    while i < horizon
      invariant 0 <= i && (i <= horizon || i == 0)
      invariant availableDates == FreeDays(roomReservations, today, i)
    {
      var date := today + i;
      var free := IsReservationDateAvailable(roomReservations, date);
      if free {
        availableDates := availableDates + [date];
      }
      i := i + 1;
    }
    res := Ok(availableDates);
    FreeDaysAscending(roomReservations, today, horizon);
    FreeDaysMembership(roomReservations, today, horizon);
  }
}
