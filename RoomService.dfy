/** `RoomService.findById` over the room table, a map from id to room. */
module RoomService {
  import opened Domain

  function FindById(rooms: map<int, Room>, id: int): (res: Result<Room>)
    ensures res.Ok? <==> id in rooms
    ensures res.Ok? ==> res.value == rooms[id]
    ensures res.Err? ==> res.error == NotFound(RoomEntity, id)
  {
    if id in rooms then Ok(rooms[id]) else Err(NotFound(RoomEntity, id))
  }
}
