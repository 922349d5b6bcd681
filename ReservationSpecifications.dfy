/**
  The listing filters of `ReservationSpecifications` and their composition
  into one `Specification`, the conjunction of the criteria that were given.
 */
module ReservationSpecifications {
  import opened Domain

  /** One criterion a listing can impose on a reservation. */
  datatype Spec =
    | CreateDateBetween(startDate: Option<int>, endDate: Option<int>)
    | RoomIdEquals(roomId: int)
    | GuestEmailEquals(email: string)

  /**
    Whether `r` meets `spec`. The date criterion is anchored on the
    reservation's `createDate`; with neither bound it yields no predicate,
    which Spring reads as no constraint.
   */
  predicate Satisfies(r: Reservation, spec: Spec) {
    match spec
    case CreateDateBetween(startDate, endDate) =>
      if startDate.Some? && endDate.Some? then startDate.value <= r.createDate <= endDate.value
      else if startDate.Some? then r.createDate >= startDate.value
      else if endDate.Some? then r.createDate <= endDate.value
      else true
    case RoomIdEquals(roomId) => r.room.id == roomId
    case GuestEmailEquals(email) => r.guestEmail == email
  }

  /** `btwStartDateAndEndDate`: always a specification, possibly an empty one. */
  function BtwStartDateAndEndDate(startDate: Option<int>, endDate: Option<int>): (spec: Spec)
    ensures forall r :: Satisfies(r, spec) <==>
      (startDate.Some? ==> startDate.value <= r.createDate) &&
      (endDate.Some? ==> r.createDate <= endDate.value)
  {
    CreateDateBetween(startDate, endDate)
  }

  /** `equalToRoom`: null for a null id. */
  function EqualToRoom(roomId: Option<int>): (spec: Option<Spec>)
    ensures spec.None? <==> roomId.None?
    ensures spec.Some? ==> forall r :: Satisfies(r, spec.value) <==> r.room.id == roomId.value
  {
    if roomId.None? then None else Some(RoomIdEquals(roomId.value))
  }

  /** `equalToGuestEmail`: null for a null email. */
  function EqualToGuestEmail(email: Option<string>): (spec: Option<Spec>)
    ensures spec.None? <==> email.None?
    ensures spec.Some? ==> forall r :: Satisfies(r, spec.value) <==> r.guestEmail == email.value
  {
    if email.None? then None else Some(GuestEmailEquals(email.value))
  }

  /** The date criterion looks at the creation date only: moving a stay does not change whether it matches. */
  lemma DateFilterIgnoresStay(r: Reservation, startDate: Option<int>, endDate: Option<int>, s: int, e: int)
    ensures Satisfies(r, BtwStartDateAndEndDate(startDate, endDate)) <==>
            Satisfies(r.(startDate := s, endDate := e), BtwStartDateAndEndDate(startDate, endDate))
  {
  }

  /** A composed Spring `Specification`: the conjunction of its parts. */
  datatype Specification = Specification(parts: seq<Spec>)

  predicate Matches(r: Reservation, f: Specification) {
    forall p :: p in f.parts ==> Satisfies(r, p)
  }

  /** `Specification.where(spec)`: a null argument gives the specification that matches everything. */
  function Where(spec: Option<Spec>): (f: Specification)
    ensures forall r :: Matches(r, f) <==> (spec.Some? ==> Satisfies(r, spec.value))
  {
    if spec.None? then Specification([]) else Specification([spec.value])
  }

  /** `f.and(g)`: both must hold. */
  function And(f: Specification, g: Specification): (h: Specification)
    ensures forall r :: Matches(r, h) <==> Matches(r, f) && Matches(r, g)
  {
    Specification(f.parts + g.parts)
  }
}
