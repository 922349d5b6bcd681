/**
  The queries of `ReservationRepository` over an abstract store, a sequence
  of reservations. The two JPQL counts are modelled with JPQL's precedence
  (AND binds tighter than OR) and its inclusive BETWEEN; a null room id
  compares as unknown and so matches no row.
 */
module ReservationRepository {
  import opened Domain
  import opened ReservationSpecifications

  /** The reservations of `store` that satisfy `p`, in store order. */
  function Filter(store: seq<Reservation>, p: Reservation -> bool): (rs: seq<Reservation>)
    ensures |rs| <= |store|
    ensures forall r :: r in rs <==> r in store && p(r)
  {
    if store == [] then []
    else (if p(store[0]) then [store[0]] else []) + Filter(store[1..], p)
  }

  /** `SELECT COUNT(r) FROM Reservation r WHERE p`. */
  function CountWhere(store: seq<Reservation>, p: Reservation -> bool): (n: nat)
    ensures n <= |store|
    ensures n == 0 <==> forall r :: r in store ==> !p(r)
  {
    if store == [] then 0
    else (if p(store[0]) then 1 else 0) + CountWhere(store[1..], p)
  }

  lemma {:induction false} CountWhereAppend(a: seq<Reservation>, b: seq<Reservation>, p: Reservation -> bool)
    ensures CountWhere(a + b, p) == CountWhere(a, p) + CountWhere(b, p)
  {
    if a == [] {
      assert a + b == b;
    } else {
      assert (a + b)[0] == a[0] && (a + b)[1..] == a[1..] + b;
      CountWhereAppend(a[1..], b, p);
    }
  }

  /** A weaker condition never counts fewer rows. */
  lemma {:induction false} CountWhereMonotone(store: seq<Reservation>, p: Reservation -> bool, q: Reservation -> bool)
    requires forall r :: p(r) ==> q(r)
    ensures CountWhere(store, p) <= CountWhere(store, q)
  {
    if store != [] {
      CountWhereMonotone(store[1..], p, q);
    }
  }

  predicate RoomIs(r: Reservation, roomId: Option<int>) {
    roomId.Some? && r.room.id == roomId.value
  }

  predicate IsReserved(r: Reservation) {
    r.status == Some(RESERVED)
  }

  predicate Between(x: int, lo: int, hi: int) {
    lo <= x <= hi
  }

  /** WHERE clause of `findTotalReservationsByRoomAndDate`. */
  predicate CountedByRoomAndDate(r: Reservation, roomId: Option<int>, startDate: int, endDate: int) {
    (RoomIs(r, roomId) && IsReserved(r) && Between(r.startDate, startDate, endDate))
    || Between(r.endDate, startDate, endDate)
  }

  /** WHERE clause of `findTotalReservationsByRoomAndDateExceptCurrentReservation`. */
  predicate CountedExceptCurrent(r: Reservation, roomId: Option<int>, startDate: int, endDate: int, reservationId: int) {
    (RoomIs(r, roomId) && r.id != reservationId && IsReserved(r) && Between(r.startDate, startDate, endDate))
    || Between(r.endDate, startDate, endDate)
  }

  function FindTotalReservationsByRoomAndDate(store: seq<Reservation>, roomId: Option<int>, startDate: int, endDate: int): (n: nat)
    ensures n <= |store|
    ensures n == 0 <==> forall r :: r in store ==> !CountedByRoomAndDate(r, roomId, startDate, endDate)
  {
    CountWhere(store, (r: Reservation) => CountedByRoomAndDate(r, roomId, startDate, endDate))
  }

  function FindTotalReservationsByRoomAndDateExceptCurrentReservation(
    store: seq<Reservation>, roomId: Option<int>, startDate: int, endDate: int, reservationId: int): (n: nat)
    ensures n <= |store|
    ensures n == 0 <==> forall r :: r in store ==> !CountedExceptCurrent(r, roomId, startDate, endDate, reservationId)
  {
    CountWhere(store, (r: Reservation) => CountedExceptCurrent(r, roomId, startDate, endDate, reservationId))
  }

  /** With the same arguments the except-current count never exceeds the plain count. */
  lemma ExceptCountAtMostPlainCount(store: seq<Reservation>, roomId: Option<int>, startDate: int, endDate: int, reservationId: int)
    ensures FindTotalReservationsByRoomAndDateExceptCurrentReservation(store, roomId, startDate, endDate, reservationId)
            <= FindTotalReservationsByRoomAndDate(store, roomId, startDate, endDate)
  {
    CountWhereMonotone(store,
      r => CountedExceptCurrent(r, roomId, startDate, endDate, reservationId),
      r => CountedByRoomAndDate(r, roomId, startDate, endDate));
  }

  /**
    A reservation whose end date lies in the range is counted by both queries,
    whatever its room, its status and its id: the second disjunct stands outside
    the AND chain.
   */
  lemma EndInRangeIsAlwaysCounted(store: seq<Reservation>, x: Reservation, roomId: Option<int>, startDate: int, endDate: int, reservationId: int)
    requires x in store && startDate <= x.endDate <= endDate
    ensures FindTotalReservationsByRoomAndDate(store, roomId, startDate, endDate) > 0
    ensures FindTotalReservationsByRoomAndDateExceptCurrentReservation(store, roomId, startDate, endDate, reservationId) > 0
  {
    assert CountedByRoomAndDate(x, roomId, startDate, endDate);
    assert CountedExceptCurrent(x, roomId, startDate, endDate, reservationId);
  }

  /** A stored reservation that strictly encloses the range adds nothing to either count. */
  lemma EnclosingReservationIsNotCounted(store: seq<Reservation>, x: Reservation, roomId: Option<int>, startDate: int, endDate: int, reservationId: int)
    requires x.startDate < startDate && x.endDate > endDate
    ensures FindTotalReservationsByRoomAndDate(store + [x], roomId, startDate, endDate)
            == FindTotalReservationsByRoomAndDate(store, roomId, startDate, endDate)
    ensures FindTotalReservationsByRoomAndDateExceptCurrentReservation(store + [x], roomId, startDate, endDate, reservationId)
            == FindTotalReservationsByRoomAndDateExceptCurrentReservation(store, roomId, startDate, endDate, reservationId)
  {
    var p := (r: Reservation) => CountedByRoomAndDate(r, roomId, startDate, endDate);
    var q := (r: Reservation) => CountedExceptCurrent(r, roomId, startDate, endDate, reservationId);
    CountWhereAppend(store, [x], p);
    CountWhereAppend(store, [x], q);
    assert [x][1..] == [];
  }

  /** With a null room id only the end-date disjunct can match, so the count is that of end dates in range. */
  lemma NullRoomCountsEndDatesOnly(store: seq<Reservation>, startDate: int, endDate: int, reservationId: int)
    ensures FindTotalReservationsByRoomAndDateExceptCurrentReservation(store, None, startDate, endDate, reservationId)
            == CountWhere(store, (r: Reservation) => Between(r.endDate, startDate, endDate))
    ensures FindTotalReservationsByRoomAndDate(store, None, startDate, endDate)
            == CountWhere(store, (r: Reservation) => Between(r.endDate, startDate, endDate))
  {
    var ends := (r: Reservation) => Between(r.endDate, startDate, endDate);
    var p := (r: Reservation) => CountedByRoomAndDate(r, None, startDate, endDate);
    var q := (r: Reservation) => CountedExceptCurrent(r, None, startDate, endDate, reservationId);
    CountWhereMonotone(store, p, ends);
    CountWhereMonotone(store, ends, p);
    CountWhereMonotone(store, q, ends);
    CountWhereMonotone(store, ends, q);
  }

  /** `findAllByRoomIdAndStatus`: the reservations of a room with a given status. */
  function FindAllByRoomIdAndStatus(store: seq<Reservation>, roomId: int, status: string): (rs: seq<Reservation>)
    ensures |rs| <= |store|
    ensures forall r :: r in rs <==> r in store && r.room.id == roomId && r.status == Some(status)
  {
    Filter(store, (r: Reservation) => r.room.id == roomId && r.status == Some(status))
  }

  /** `findAll(specification, ...)` without the paging: every stored reservation the specification matches. */
  function FindAll(store: seq<Reservation>, f: Specification): (rs: seq<Reservation>)
    ensures |rs| <= |store|
    ensures forall r :: r in rs <==> r in store && Matches(r, f)
  {
    Filter(store, (r: Reservation) => Matches(r, f))
  }
}
