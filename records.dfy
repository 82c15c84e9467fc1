/** The plain records exchanged between server and clients. */
module Records {
  import opened Bytes

  /** FigureInfo: a figure's type, position, rotation and ARGB colour. */
  datatype FigureInfo = FigureInfo(kind: int, x: int, y: int, rotation: int, color: int)
  {
    /** Every field is a Java int. */
    predicate Valid()
    {
      IsInt32(kind) && IsInt32(x) && IsInt32(y) && IsInt32(rotation) && IsInt32(color)
    }
  }

  /** PlayerInfo: equality is on name and colour, as datatype equality is. */
  datatype PlayerInfo = PlayerInfo(name: string, color: int)

  /** RoomInfo: the lobby's view of one room. */
  datatype RoomInfo = RoomInfo(id: int, maxPlayers: int, started: bool, players: seq<PlayerInfo>)

  /** LobbyData: the registered player names and the rooms. */
  datatype LobbyData = LobbyData(players: set<string>, rooms: set<RoomInfo>)
}
