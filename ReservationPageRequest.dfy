/** `ReservationPageRequestDto`: listing criteria plus paging, and its conversion to a Spring page request. */
module ReservationPageRequest {
  import opened Domain

  datatype ReservationPageRequestDto = ReservationPageRequestDto(
    page: int,
    size: int,
    guestEmail: Option<string>,
    roomId: Option<int>,
    startDate: Option<int>,
    endDate: Option<int>
  )

  const DefaultSize: int := 5

  /** The two-argument constructor; the criteria keep Java's default, null. */
  function WithPaging(page: int, size: int): (dto: ReservationPageRequestDto)
    ensures dto.page >= 0 && dto.size > 0
    ensures page > 0 ==> dto.page == page
    ensures page <= 0 ==> dto.page == 0
    ensures size > 0 ==> dto.size == size
    ensures size <= 0 ==> dto.size == DefaultSize
    ensures dto.guestEmail.None? && dto.roomId.None? && dto.startDate.None? && dto.endDate.None?
  {
    ReservationPageRequestDto(if page > 0 then page else 0, if size > 0 then size else DefaultSize,
                              None, None, None, None)
  }

  /** Clamping values that are already clamped changes nothing. */
  lemma WithPagingIsIdempotent(page: int, size: int)
    ensures var dto := WithPaging(page, size); WithPaging(dto.page, dto.size) == dto
  {
  }

  datatype Direction = Ascending | Descending
  datatype Sort = Sort(property: string, direction: Direction)
  datatype PageRequest = PageRequest(page: int, size: int, sort: Sort)

  const ByCreateDateDescending: Sort := Sort("createDate", Descending)

  /**
    `toPageRequest`: `PageRequest.of` refuses a negative page or a size below
    one by throwing; that refusal is `None` here.
   */
  function ToPageRequest(dto: ReservationPageRequestDto): (pr: Option<PageRequest>)
    ensures pr.Some? <==> dto.page >= 0 && dto.size >= 1
    ensures pr.Some? ==> pr.value.page == dto.page && pr.value.size == dto.size
    ensures pr.Some? ==> pr.value.sort == ByCreateDateDescending
  {
    if dto.page < 0 || dto.size < 1 then None
    else Some(PageRequest(dto.page, dto.size, ByCreateDateDescending))
  }

  /** Whatever the caller passes, the two-argument constructor yields a request Spring accepts. */
  lemma ClampedDtoIsAccepted(page: int, size: int)
    ensures ToPageRequest(WithPaging(page, size)).Some?
  {
  }

  /**
    A request body that the JSON binder fills without paging fields keeps
    Java's defaults, page 0 and size 0, which never pass through the clamping
    constructor and are refused.
   */
  lemma UnsetPagingIsRefused(dto: ReservationPageRequestDto)
    requires dto.page == 0 && dto.size == 0
    ensures ToPageRequest(dto) == None
  {
  }
}
