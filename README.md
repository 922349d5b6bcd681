# Hotel reservation rules engine, in Dafny

This project models the rules engine of a Spring Boot hotel-booking service.
The engine checks whether a requested stay is legal and free. It builds new or
updated reservation records, lists the free days of a room's booking horizon,
answers "is this room free for these dates", and builds the filter and page
request for listing reservations.

The model has these parts:

- dates are integer day numbers, and "today" is a parameter wherever the code calls `LocalDate.now()`;
- the reservation store is a `seq<Reservation>`;
- the room table is a `map<int, Room>`;
- each exception that the validator, room lookup, create and update throw is one constructor of `Domain.Error`:
  - `InvalidReservation` carries the reason, one per message;
  - `MaxReserveDays` and `MaxReserveAdvanceDays` carry the room's limit;
  - `NotFound` is for an unknown reservation or room;
  - `UnparseableDate` is for a blank date string that reaches `LocalDate.parse`;
- the `IllegalArgumentException` of `PageRequest.of` for a refused page or size is `None` from `ToPageRequest`, and so from `GetUserReservationsPageList`.

Modules (one file each):

- `Domain`: `Room`, `RoomDetails`, `Reservation`, the request records, `Option`, `Result`, `Outcome`, the error kinds.
- `ReservationSpecifications`: the three listing criteria and their AND-composition.
- `ReservationRepository`: the two JPQL overlap counts, written as counts over the store with JPQL precedence (AND before OR, BETWEEN inclusive, a null room id matching no row), plus the derived queries.
- `RoomService`: room lookup.
- `Availability`: the free-day enumeration and the two availability loops. `ReservationService.java:172-212` and `RoomService.java:34-74` hold the same code, and this one module models both copies.
- `ReservationPageRequest`: the clamping constructor and `toPageRequest`.
- `ReservationService`: the validator, create, partial update, validate-and-save entry points and the listing.
- `Scenarios`: the service tests' cases as concrete lemmas, and runs that show the consequences of the count queries as they are written.

Some of what the code does as written, all proved in the model:

- A stay of exactly `maxReserveDays` is accepted.
- An end date after `today + maxReserveAdvanceDays` is rejected.
- On an update, the except-current count excludes the reservation being updated only inside the first disjunct. So moving a reservation's start date while keeping its end date collides with the reservation itself (`Scenarios.UpdateKeepingEndDateCollidesWithItself`).
- An update that supplies no room passes a null room id to that count. Then only end dates are compared; an overlapping stay that starts inside the new range is missed (`Scenarios.UpdateWithoutRoomMissesStartOverlap`).
- The end-date disjunct ignores room and status. A cancelled reservation of another room can therefore block a creation (`Scenarios.CancelledReservationOfAnotherRoomBlocksCreation`).
- The date rules run only when both dates are supplied, so an update of one date alone is never checked (`Scenarios.StartOnlyUpdateSkipsDateRules`).

Where the documented design of the system and the code differ, the model follows the code:

- No ownership check exists; the update request's guest email is never compared.
- The overlap test is the JPQL count above, not a symmetric interval test.
- An unavailable room and an invalid status are both `InvalidReservation`, told apart by their message.
- Date parse failures escape as exceptions instead of becoming rule violations.
- The listing's date criterion is anchored on `createDate`.

## Model

| member | source | states |
|---|---|---|
| `ReservationSpecifications.BtwStartDateAndEndDate` | src/main/java/com/alten/booking/specifications/ReservationSpecifications.java:17-29 | a reservation matches iff its createDate is ≥ the start bound when one is given and ≤ the end bound when one is given; both bounds give an inclusive range, neither gives no constraint |
| `ReservationSpecifications.EqualToRoom` | src/main/java/com/alten/booking/specifications/ReservationSpecifications.java:31-34 | null for a null id; otherwise it matches exactly the reservations whose room id is that id |
| `ReservationSpecifications.EqualToGuestEmail` | src/main/java/com/alten/booking/specifications/ReservationSpecifications.java:36-39 | null for a null email; otherwise it matches exactly the reservations with that guest email |
| `ReservationSpecifications.DateFilterIgnoresStay` | src/main/java/com/alten/booking/specifications/ReservationSpecifications.java:11-24 | the date criterion is anchored on createDate: changing a reservation's start and end dates never changes whether it matches |
| `ReservationSpecifications.Where` | src/main/java/com/alten/booking/service/ReservationService.java:134-135 | `where(null)` matches every reservation; `where(s)` matches exactly what `s` matches |
| `ReservationSpecifications.And` | src/main/java/com/alten/booking/service/ReservationService.java:134-138 | the composed specification matches iff both operands match |
| `ReservationRepository.FindTotalReservationsByRoomAndDate` | src/main/java/com/alten/booking/repository/ReservationRepository.java:22-23 | the count never exceeds the store's size, and it is zero iff no stored r has (room is roomId ∧ RESERVED ∧ start ≤ r.start ≤ end) ∨ (start ≤ r.end ≤ end) |
| `ReservationRepository.FindTotalReservationsByRoomAndDateExceptCurrentReservation` | src/main/java/com/alten/booking/repository/ReservationRepository.java:25-26 | as above, with `r.id ≠ reservationId` inside the first disjunct only |
| `ReservationRepository.ExceptCountAtMostPlainCount` | src/main/java/com/alten/booking/repository/ReservationRepository.java:22-26 | with the same arguments the except-current count is at most the plain count |
| `ReservationRepository.EndInRangeIsAlwaysCounted` | src/main/java/com/alten/booking/repository/ReservationRepository.java:22-26 | a stored reservation whose end lies in [start, end] makes both counts positive, whatever its room, status or id (even the excluded one) |
| `ReservationRepository.EnclosingReservationIsNotCounted` | src/main/java/com/alten/booking/repository/ReservationRepository.java:22-26 | adding a reservation that strictly encloses [start, end] leaves both counts unchanged |
| `ReservationRepository.NullRoomCountsEndDatesOnly` | src/main/java/com/alten/booking/service/ReservationService.java:97-99 | with a null room id both counts equal the number of stored reservations whose end date lies in [start, end] |
| `ReservationRepository.FindAll` | src/main/java/com/alten/booking/service/ReservationService.java:139 | a reservation is selected iff it is stored and the specification matches it |
| `RoomService.FindById` | src/main/java/com/alten/booking/service/RoomService.java:29-32 | the stored room for a known id; NotFound(room, id) iff the id is unknown |
| `Availability.FindAllReservationsByRoom` | src/main/java/com/alten/booking/service/ReservationService.java:45-47 | exactly the stored reservations of that room whose status is RESERVED |
| `Availability.FreeDaysMembership` | src/main/java/com/alten/booking/service/RoomService.java:34-45 | a day is listed iff today ≤ d < today + horizon and no listed reservation covers it: (s < d < e) ∨ d = s ∨ d = e |
| `Availability.FreeDaysAscending` | src/main/java/com/alten/booking/service/RoomService.java:38-44 | the listed days are strictly ascending, hence distinct |
| `Availability.FreeDaysLength` | src/main/java/com/alten/booking/service/ReservationService.java:176-181 | at most maxReserveAdvanceDays days are listed (none for a non-positive horizon) |
| `Availability.FreeDaysWithoutReservations` | src/main/java/com/alten/booking/service/ReservationService.java:176-181 | with no reservations exactly the days today, today+1, …, today+horizon−1 are listed, in order |
| `Availability.DayAvailabilityIsMonotone` | src/main/java/com/alten/booking/service/RoomService.java:49-56 | a day unavailable for a list of reservations stays unavailable for any list containing them |
| `Availability.RangeAvailabilityIsMonotone` | src/main/java/com/alten/booking/service/RoomService.java:65-72 | a candidate stay unavailable for a list stays unavailable for any list containing it |
| `Availability.FreeDaysAreMonotone` | src/main/java/com/alten/booking/service/RoomService.java:34-56 | adding reservations never adds a day to the list of free days |
| `Availability.EnclosingCandidateIsReportedAvailable` | src/main/java/com/alten/booking/service/RoomService.java:59-74 | a candidate strictly enclosing a reservation is reported available, although the reservation's first day lies in it and is not free |
| `Availability.StartOnLastDayIsReportedAvailable` | src/main/java/com/alten/booking/service/RoomService.java:65-72 | a candidate starting on a reservation's last day is reported available, although that day is not free |
| `Availability.IsReservationDateAvailable` | src/main/java/com/alten/booking/service/ReservationService.java:185-195 | true iff no reservation of the list covers the day; true on an empty list; the early break does not change the answer |
| `Availability.IsRoomAvailable` | src/main/java/com/alten/booking/service/ReservationService.java:197-212 | false iff some RESERVED reservation r of the room has candidate start in (r.s, r.e), candidate end in (r.s, r.e), start = r.s or end = r.e |
| `Availability.GetRoomAvailableDates` | src/main/java/com/alten/booking/service/ReservationService.java:172-183 | NotFound for an unknown room; otherwise a strictly ascending list holding exactly the days of [today, today + maxReserveAdvanceDays) that no RESERVED reservation of the room covers |
| `ReservationPageRequest.WithPaging` | src/main/java/com/alten/booking/dto/ReservationPageRequestDto.java:27-30 | page ≥ 0 and size > 0; a positive page or size is kept, any other page becomes 0 and any other size 5; the criteria stay null |
| `ReservationPageRequest.WithPagingIsIdempotent` | src/main/java/com/alten/booking/dto/ReservationPageRequestDto.java:27-30 | clamping already clamped values changes nothing |
| `ReservationPageRequest.ToPageRequest` | src/main/java/com/alten/booking/dto/ReservationPageRequestDto.java:32-34 | a page request exists iff page ≥ 0 and size ≥ 1; it carries page and size unchanged and sorts by createDate descending |
| `ReservationPageRequest.ClampedDtoIsAccepted` | src/main/java/com/alten/booking/dto/ReservationPageRequestDto.java:27-34 | whatever is passed to the two-argument constructor, the resulting page request is accepted |
| `ReservationPageRequest.UnsetPagingIsRefused` | src/main/java/com/alten/booking/dto/ReservationPageRequestDto.java:15-34 | a request body without paging keeps page 0 and size 0 and has no page request |
| `ReservationService.FindById` | src/main/java/com/alten/booking/service/ReservationService.java:40-43 | a stored reservation with that id; NotFound(reservation, id) iff none is stored |
| `ReservationService.ValidateDateRules` | src/main/java/com/alten/booking/service/ReservationService.java:80-94 | passes iff today ≤ start < end, end − start ≤ maxReserveDays and end ≤ today + maxReserveAdvanceDays; each error holds iff its guard fails and every earlier guard passed: start after end or before today, then start = end, then stay > maxReserveDays, then start or end after the horizon |
| `ReservationService.ValidateRoomAvailability` | src/main/java/com/alten/booking/service/ReservationService.java:96-113 | with a reservation id: passes iff the except-current count is zero and a given status is a StatusEnum name; "status not valid" iff the count is zero and a non-null status is not a StatusEnum name; without one: passes iff the plain count is zero; every failure is InvalidReservation |
| `ReservationService.ValidateReservation` | src/main/java/com/alten/booking/service/ReservationService.java:58-78 | passes iff the room resolves and, when both date strings are present and not blank (hasValidDatesEntries, lines 115-120), the date rules and the availability check pass; no room and no reservation id gives "room is required" before any date check; an unresolved room gives its NotFound; missing or blank dates pass once the room resolves; with both dates the result is the first failing date rule, else the availability outcome (count, then status) |
| `ReservationService.RoomComesFromExistingReservation` | src/main/java/com/alten/booking/service/ReservationService.java:60-74 | with only a reservation id, the resolved room is that reservation's room whatever the room table holds; with both dates the outcome is that room's date rules, then the availability check |
| `ReservationService.CreationIgnoresStatus` | src/main/java/com/alten/booking/service/ReservationService.java:108-112 | without a reservation id the status never affects validation |
| `ReservationService.CreateReservation` | src/main/java/com/alten/booking/service/ReservationService.java:122-131 | the record carries the given id, guest email, dates and looked-up room, createDate = today and status RESERVED; a blank date fails to parse; an unknown room is NotFound |
| `ReservationService.ValidateAndCreateReservation` | src/main/java/com/alten/booking/service/ReservationService.java:53-56 | a failed validation creates nothing and returns its error; a missing room is "room is required"; a request that passes validation yields exactly createReservation's result (guest, dates, room, today, RESERVED); a created reservation has today ≤ start < end, a stay within maxReserveDays, an end within the horizon, status RESERVED, and no stored reservation counted against it |
| `ReservationService.UpdateReservation` | src/main/java/com/alten/booking/service/ReservationService.java:157-170 | start, end and room change only when supplied; status is overwritten with the supplied value, null included; id, guest and createDate are kept; it fails exactly for an unknown reservation (NotFound), then a blank date (unparseable), then an unknown room (NotFound for that room) |
| `ReservationService.UpdateIsIdempotent` | src/main/java/com/alten/booking/service/ReservationService.java:157-170 | applying the same update to the record it produced yields that record again |
| `ReservationService.ValidateAndUpdateReservation` | src/main/java/com/alten/booking/service/ReservationService.java:152-155 | a failed validation updates nothing and returns its error; a request that passes validation yields exactly updateReservation's result; with both dates supplied the updated record is a legal stay for its room's policy, the except-current count is zero and its status is absent or a StatusEnum name |
| `ReservationService.ListingFilter` | src/main/java/com/alten/booking/service/ReservationService.java:133-138 | a reservation matches iff it meets every supplied criterion (guest email, createDate bounds, room id); with no criteria every reservation matches |
| `ReservationService.ToDtoList` | src/main/java/com/alten/booking/service/ReservationService.java:143-150 | one response record per reservation, each the projection of the reservation at the same position |
| `ReservationService.GetUserReservationsPageList` | src/main/java/com/alten/booking/service/ReservationService.java:133-141 | refused iff the page request is refused; otherwise the response records of exactly the stored reservations the listing filter matches, in store order |
| `Scenarios.StayOfMaxReserveDaysIsCreated` | src/test/java/com/alten/booking/service/ReservationServiceTests.java:71-81 | policy (3, 30), empty store: today..today+3 is created, RESERVED, dated today |
| `Scenarios.MissingRoomIsRejected` | src/test/java/com/alten/booking/service/ReservationServiceTests.java:83-93 | no room and no reservation id: "room is required", nothing created |
| `Scenarios.FiveDayStayExceedsMaxReserveDays` | src/test/java/com/alten/booking/service/ReservationServiceTests.java:95-106 | today..today+5 fails with MaxReserveDays(3) |
| `Scenarios.StayBeyondHorizonExceedsMaxReserveAdvanceDays` | src/test/java/com/alten/booking/service/ReservationServiceTests.java:108-119 | today+30..today+33 fails with MaxReserveAdvanceDays(30) |
| `Scenarios.OverlappingRequestIsRefused` | src/main/java/com/alten/booking/service/ReservationService.java:108-111 | with today..today+3 booked, today+2..today+5 is refused as already reserved |
| `Scenarios.AvailableDatesAroundOneReservation` | src/main/java/com/alten/booking/service/ReservationService.java:172-195 | horizon 5, one reservation over today+1..today+2: the free days are today, today+3, today+4 |
| `Scenarios.UpdateKeepingEndDateCollidesWithItself` | src/main/java/com/alten/booking/repository/ReservationRepository.java:25-26 | moving the start of the only reservation while keeping its end is refused as already reserved |
| `Scenarios.UpdateWithoutRoomMissesStartOverlap` | src/main/java/com/alten/booking/service/ReservationService.java:96-100 | an update without room to a stay that clashes with another reservation of the same room is accepted |
| `Scenarios.CancelledReservationOfAnotherRoomBlocksCreation` | src/main/java/com/alten/booking/repository/ReservationRepository.java:22-23 | a cancelled reservation of another room ending inside the range blocks a creation in an empty room |
| `Scenarios.StartOnlyUpdateSkipsDateRules` | src/main/java/com/alten/booking/service/ReservationService.java:70-77 | an update of the start date alone is accepted even when the new start lies after the end |

## Left out

- HTTP layer: the controllers, `ApiExceptionHandler` and `ApiError`. They only route requests and map exceptions to status codes and field names.
- Cancellation: the controller calls `cancelReservation`, which `ReservationService` does not define. No ownership check exists in the code, so none is modelled.
- Clock: `LocalDate.now()` is the `today` parameter. `Duration.between(...).toDays()` is integer subtraction of day numbers.
- Date parsing and formatting: dates are already-parsed day numbers. A date string is absent, blank after trimming, or a parsed day. A non-blank string that does not parse is not represented. Its `DateTimeParseException` is not handled by the code anyway. Available days are returned as day numbers, not ISO strings.
- Persistence: `save`, `deleteReservation`, the store's identity generation and `findDtoById` are not modelled. The id a new reservation receives on save is the parameter `newId`. The updated record is returned, not written back into the store.
- Update in place: `updateReservation` sets fields on the entity it loaded. The model builds the changed record as a new value, so aliasing through the persistence context is not captured.
- `ReservationService.GetUserReservationsPageList`: leaves out the descending sort by createDate, the page slice and the page totals, all done by Spring Data. It returns every match in store order.
- Integer widths: Java `int`, `Integer` and `Long` overflow and the `LocalDate` year range are not modelled; day numbers and counts are unbounded.
- Concurrency: there is no locking between the availability count and the save.
- `StatusEnum` is not part of this model. Its names are taken to be `RESERVED` and `CANCELED`, the two states of a reservation's lifecycle.
- `findAllByRoomIdAndStatus` is called by the service but not declared in `ReservationRepository.java`. It is modelled as the derived query its name denotes.
- `RoomService.java:36` calls `findAllReservedByRoom`, which does not exist. It is read as `ReservationService.java:45-47`.
- `ReservationService.java:136` calls `startDateBtw`, which does not exist. It is read as `btwStartDateAndEndDate`.
- `ReservationCreateDto.java` declares its dates as `LocalDate`, but the service parses them as strings and the tests pass strings. The model follows the service.
- The `ReservationDto` constructors that take a create or an update request are not part of this model. They are taken to copy the request's fields, with no reservation id and no status for a creation.
- `findAll(Pageable)` and `findAllByGuestEmail` (`ReservationRepository.java:18-20`) are declared but never called by the engine.
- `ReservationService.ValidateAndCreateReservation` and `ReservationService.ValidateAndUpdateReservation` return the reservation record. The code returns its projection `new ReservationDto(...)` (`ReservationService.java:55`, `:154`), which is `Domain.ToDto` of that record.
- A create request with a null date passes validation and then fails in `LocalDate.parse(null)` (`ReservationService.java:125`). The model relies on `@NotNull` and has no null date on creation.
- `Hotel` and the ids of `RoomDetails` carry no logic and are omitted.
