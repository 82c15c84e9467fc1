/**
 * The server's message builders. Each is a fixed-layout ByteBuffer: a 4-byte
 * command tag followed by big-endian fields; a buffer allocated larger than
 * what is put into it keeps zero bytes at its end. Java-serialised objects
 * travel as opaque byte blobs supplied by the caller.
 */
module Protocol {
  import opened Bytes
  import opened Commands
  import opened Records

  /** The 4-byte tag every message starts with. */
  function Tag(cmd: Command): (s: seq<Byte>)
    ensures |s| == 4 && GetInt(s) == Encode(cmd)
  {
    PutInt(Encode(cmd))
  }

  lemma Parts2(a: seq<Byte>, b: seq<Byte>)
    ensures (a + b)[..|a|] == a && (a + b)[|a|..] == b && (a + b)[|a|..|a| + |b|] == b
  {
  }

  lemma PrefixSlice(a: seq<Byte>, b: seq<Byte>, i: nat, j: nat)
    requires i <= j <= |a|
    ensures (a + b)[i..j] == a[i..j]
  {
  }

  lemma Parts3(a: seq<Byte>, b: seq<Byte>, c: seq<Byte>)
    ensures (a + b + c)[..|a|] == a && (a + b + c)[|a|..|a| + |b|] == b
    ensures (a + b + c)[|a| + |b|..] == c && (a + b + c)[|a| + |b|..|a| + |b| + |c|] == c
  {
  }

  lemma PrefixTake(a: seq<Byte>, b: seq<Byte>, j: nat)
    requires j <= |a|
    ensures (a + b)[..j] == a[..j]
  {
  }

  lemma Parts5(a: seq<Byte>, b: seq<Byte>, c: seq<Byte>, d: seq<Byte>, e: seq<Byte>)
    requires |a| == |b| == |c| == |d| == |e| == 4
    ensures var s := a + b + c + d + e;
      s[0..4] == a && s[4..8] == b && s[8..12] == c && s[12..16] == d && s[16..20] == e
  {
  }

  /** A message whose bytes from offset k on start with the record of f. */
  lemma FigureAt(m: seq<Byte>, k: nat, f: FigureInfo)
    requires f.Valid() && k + 20 <= |m| && m[k..k + 20] == EncodeFigure(f)
    ensures DecodeFigure(m[k..k + 20]) == f
  {
  }

  /** A message whose bytes from offset k on start with the int v. */
  lemma IntAt(m: seq<Byte>, k: nat, v: int)
    requires IsInt32(v) && k + 4 <= |m| && m[k..k + 4] == PutInt(v)
    ensures GetInt(m[k..k + 4]) == v
  {
  }

  /** The command number a message starts with. */
  function TagOf(m: seq<Byte>): int
    requires |m| >= 4
  {
    GetInt(m[..4])
  }

  /** encodeFigure: type, x, y, rotation and colour, five ints in that order. */
  function EncodeFigure(f: FigureInfo): (s: seq<Byte>)
    requires f.Valid()
    ensures |s| == 20 && DecodeFigure(s) == f
  {
    Parts5(PutInt(f.kind), PutInt(f.x), PutInt(f.y), PutInt(f.rotation), PutInt(f.color));
    PutInt(f.kind) + PutInt(f.x) + PutInt(f.y) + PutInt(f.rotation) + PutInt(f.color)
  }

  /** The client's getFigureInfo: read five ints back. */
  function DecodeFigure(s: seq<Byte>): (f: FigureInfo)
    requires |s| == 20
    ensures f.Valid()
  {
    FigureInfo(GetInt(s[0..4]), GetInt(s[4..8]), GetInt(s[8..12]), GetInt(s[12..16]), GetInt(s[16..20]))
  }

  /** A tag followed by one figure record: the shape of the four single moves. */
  function FigureMessage(cmd: Command, f: FigureInfo): (m: seq<Byte>)
    requires f.Valid()
    ensures |m| == 24 && TagOf(m) == Encode(cmd) && DecodeFigure(m[4..24]) == f
  {
    var m := Tag(cmd) + EncodeFigure(f);
    Parts2(Tag(cmd), EncodeFigure(f));
    FigureAt(m, 4, f);
    m
  }

  function MoveLeft(f: FigureInfo): (m: seq<Byte>)
    requires f.Valid()
    ensures |m| == 24 && TagOf(m) == Encode(MOVE_LEFT) && DecodeFigure(m[4..24]) == f
  {
    FigureMessage(MOVE_LEFT, f)
  }

  function MoveRight(f: FigureInfo): (m: seq<Byte>)
    requires f.Valid()
    ensures |m| == 24 && TagOf(m) == Encode(MOVE_RIGHT) && DecodeFigure(m[4..24]) == f
  {
    FigureMessage(MOVE_RIGHT, f)
  }

  function MoveDown(f: FigureInfo): (m: seq<Byte>)
    requires f.Valid()
    ensures |m| == 24 && TagOf(m) == Encode(MOVE_DOWN) && DecodeFigure(m[4..24]) == f
  {
    FigureMessage(MOVE_DOWN, f)
  }

  function Rotate(f: FigureInfo): (m: seq<Byte>)
    requires f.Valid()
    ensures |m| == 24 && TagOf(m) == Encode(ROTATE) && DecodeFigure(m[4..24]) == f
  {
    FigureMessage(ROTATE, f)
  }

  /** moveAllWayDown: tag, the figure before at offset 4, after at offset 24. */
  function MoveAllWayDown(before: FigureInfo, actual: FigureInfo): (m: seq<Byte>)
    requires before.Valid() && actual.Valid()
    ensures |m| == 44 && TagOf(m) == Encode(MOVE_ALL_WAY_DOWN)
    ensures DecodeFigure(m[4..24]) == before && DecodeFigure(m[24..44]) == actual
  {
    var t, b, a := Tag(MOVE_ALL_WAY_DOWN), EncodeFigure(before), EncodeFigure(actual);
    Parts3(t, b, a);
    t + b + a
  }

  /**
   * newFigure: the buffer is allocated with 12 + 20 + 20 bytes but only
   * 4 + 20 + 20 are put, so the last 8 bytes stay zero.
   */
  function NewFigure(fixed: FigureInfo, spawned: FigureInfo): (m: seq<Byte>)
    requires fixed.Valid() && spawned.Valid()
    ensures |m| == 52 && TagOf(m) == Encode(NEW_FIGURE)
    ensures DecodeFigure(m[4..24]) == fixed && DecodeFigure(m[24..44]) == spawned
    ensures m[44..] == Zeros(8)
  {
    var t, a, b := Tag(NEW_FIGURE), EncodeFigure(fixed), EncodeFigure(spawned);
    var front := t + a + b;
    Parts3(t, a, b);
    assert |front| == 44 && front[..4] == t && front[4..24] == a && front[24..44] == b;
    Parts2(front, Zeros(8));
    PrefixTake(front, Zeros(8), 4);
    PrefixSlice(front, Zeros(8), 4, 24);
    PrefixSlice(front, Zeros(8), 24, 44);
    front + Zeros(8)
  }

  /**
   * roomLeft: tag, the length L of the serialised player, the L bytes, the
   * figure record; allocated with 12 + L + 20 bytes, 4 of which stay zero.
   */
  function RoomLeft(player: seq<Byte>, f: FigureInfo): (m: seq<Byte>)
    requires IsInt32(|player|) && f.Valid()
    ensures |m| == 32 + |player| && TagOf(m) == Encode(ROOM_LEFT)
    ensures GetInt(m[4..8]) == |player| && m[8..8 + |player|] == player
    ensures DecodeFigure(m[8 + |player|..28 + |player|]) == f
    ensures m[28 + |player|..] == Zeros(4)
  {
    var L := |player|;
    var front := Tag(ROOM_LEFT) + PutInt(L) + player;
    var m := front + EncodeFigure(f) + Zeros(4);
    Parts3(Tag(ROOM_LEFT), PutInt(L), player);
    Parts3(front, EncodeFigure(f), Zeros(4));
    PrefixTake(front + EncodeFigure(f), Zeros(4), 4);
    PrefixTake(front, EncodeFigure(f), 4);
    PrefixSlice(front + EncodeFigure(f), Zeros(4), 4, 8);
    PrefixSlice(front, EncodeFigure(f), 4, 8);
    PrefixSlice(front + EncodeFigure(f), Zeros(4), 8, 8 + L);
    PrefixSlice(front, EncodeFigure(f), 8, 8 + L);
    IntAt(m, 4, L);
    FigureAt(m, 8 + L, f);
    m
  }

  /** A tag followed by a big-endian long: 12 bytes. */
  function IdMessage(cmd: Command, id: int): (m: seq<Byte>)
    requires IsInt64(id)
    ensures |m| == 12 && TagOf(m) == Encode(cmd) && GetLong(m[4..12]) == id
  {
    var m := Tag(cmd) + PutLong(id);
    assert m[..4] == Tag(cmd) && m[4..12] == PutLong(id);
    m
  }

  function RoomDropped(id: int): (m: seq<Byte>)
    requires IsInt64(id)
    ensures |m| == 12 && TagOf(m) == Encode(ROOM_DROPPED) && GetLong(m[4..12]) == id
  {
    IdMessage(ROOM_DROPPED, id)
  }

  function RoomFull(id: int): (m: seq<Byte>)
    requires IsInt64(id)
    ensures |m| == 12 && TagOf(m) == Encode(ROOM_FULL) && GetLong(m[4..12]) == id
  {
    IdMessage(ROOM_FULL, id)
  }

  /** gameStarted: sent to the lobby under the GAME_START tag. */
  function GameStarted(id: int): (m: seq<Byte>)
    requires IsInt64(id)
    ensures |m| == 12 && TagOf(m) == Encode(GAME_START) && GetLong(m[4..12]) == id
  {
    IdMessage(GAME_START, id)
  }

  /** A tag followed by the raw bytes of a name: userJoinedLobby, userLeftLobby. */
  function NameMessage(cmd: Command, name: string): (m: seq<Byte>)
    requires SingleByteChars(name)
    ensures |m| == 4 + |name| && TagOf(m) == Encode(cmd) && NameOfBytes(m[4..]) == name
  {
    var m := Tag(cmd) + NameBytes(name);
    assert m[..4] == Tag(cmd) && m[4..] == NameBytes(name);
    m
  }

  function UserJoinedLobby(name: string): (m: seq<Byte>)
    requires SingleByteChars(name)
    ensures |m| == 4 + |name| && TagOf(m) == Encode(USER_JOINED) && NameOfBytes(m[4..]) == name
  {
    NameMessage(USER_JOINED, name)
  }

  function UserLeftLobby(name: string): (m: seq<Byte>)
    requires SingleByteChars(name)
    ensures |m| == 4 + |name| && TagOf(m) == Encode(USER_LEFT) && NameOfBytes(m[4..]) == name
  {
    NameMessage(USER_LEFT, name)
  }

  /** roomCreated: tag, room id (long), maxPlayers, colour, then the name bytes. */
  function RoomCreated(id: int, maxPlayers: int, player: PlayerInfo): (m: seq<Byte>)
    requires IsInt64(id) && IsInt32(maxPlayers) && IsInt32(player.color)
    requires SingleByteChars(player.name)
    ensures |m| == 20 + |player.name| && TagOf(m) == Encode(ROOM_CREATED)
    ensures GetLong(m[4..12]) == id && GetInt(m[12..16]) == maxPlayers
    ensures GetInt(m[16..20]) == player.color && NameOfBytes(m[20..]) == player.name
  {
    var front := Tag(ROOM_CREATED) + PutLong(id) + PutInt(maxPlayers);
    var m := front + PutInt(player.color) + NameBytes(player.name);
    Parts3(Tag(ROOM_CREATED), PutLong(id), PutInt(maxPlayers));
    Parts3(front, PutInt(player.color), NameBytes(player.name));
    PrefixTake(front + PutInt(player.color), NameBytes(player.name), 4);
    PrefixTake(front, PutInt(player.color), 4);
    PrefixSlice(front + PutInt(player.color), NameBytes(player.name), 4, 12);
    PrefixSlice(front, PutInt(player.color), 4, 12);
    PrefixSlice(front + PutInt(player.color), NameBytes(player.name), 12, 16);
    PrefixSlice(front, PutInt(player.color), 12, 16);
    m
  }

  /** roomJoined(id, color, name): tag, room id, colour, then the name bytes. */
  function RoomJoined(id: int, color: int, name: string): (m: seq<Byte>)
    requires IsInt64(id) && IsInt32(color) && SingleByteChars(name)
    ensures |m| == 16 + |name| && TagOf(m) == Encode(ROOM_JOINED)
    ensures GetLong(m[4..12]) == id && GetInt(m[12..16]) == color
    ensures NameOfBytes(m[16..]) == name
  {
    var front := Tag(ROOM_JOINED) + PutLong(id);
    var m := front + PutInt(color) + NameBytes(name);
    Parts2(Tag(ROOM_JOINED), PutLong(id));
    Parts3(front, PutInt(color), NameBytes(name));
    PrefixTake(front + PutInt(color), NameBytes(name), 4);
    PrefixTake(front, PutInt(color), 4);
    PrefixSlice(front + PutInt(color), NameBytes(name), 4, 12);
    PrefixSlice(front, PutInt(color), 4, 12);
    m
  }

  /** roomJoined(id, color, players): the same header, then the serialised player list. */
  function RoomJoinedWithPlayers(id: int, color: int, players: seq<Byte>): (m: seq<Byte>)
    requires IsInt64(id) && IsInt32(color)
    ensures |m| == 16 + |players| && TagOf(m) == Encode(ROOM_JOINED)
    ensures GetLong(m[4..12]) == id && GetInt(m[12..16]) == color && m[16..] == players
  {
    var front := Tag(ROOM_JOINED) + PutLong(id);
    var m := front + PutInt(color) + players;
    Parts2(Tag(ROOM_JOINED), PutLong(id));
    Parts3(front, PutInt(color), players);
    PrefixTake(front + PutInt(color), players, 4);
    PrefixTake(front, PutInt(color), 4);
    PrefixSlice(front + PutInt(color), players, 4, 12);
    PrefixSlice(front, PutInt(color), 4, 12);
    m
  }

  /** gameStart: tag, board width, then the serialised list of starting figures. */
  function GameStart(boardWidth: int, figures: seq<Byte>): (m: seq<Byte>)
    requires IsInt32(boardWidth)
    ensures |m| == 8 + |figures| && TagOf(m) == Encode(GAME_START)
    ensures GetInt(m[4..8]) == boardWidth && m[8..] == figures
  {
    var m := Tag(GAME_START) + PutInt(boardWidth) + figures;
    assert m[..4] == Tag(GAME_START) && m[4..8] == PutInt(boardWidth) && m[8..] == figures;
    m
  }

  /** lobbyData: tag, then the serialised LobbyData. */
  function LobbyDataMessage(data: seq<Byte>): (m: seq<Byte>)
    ensures |m| == 4 + |data| && TagOf(m) == Encode(LOBBY_DATA) && m[4..] == data
  {
    var m := Tag(LOBBY_DATA) + data;
    assert m[..4] == Tag(LOBBY_DATA);
    m
  }

  function GameOver(): (m: seq<Byte>)
    ensures |m| == 4 && TagOf(m) == Encode(GAME_OVER)
  {
    assert Tag(GAME_OVER)[..4] == Tag(GAME_OVER);
    Tag(GAME_OVER)
  }

  function GameOwner(): (m: seq<Byte>)
    ensures |m| == 4 && TagOf(m) == Encode(GAME_OWNER)
  {
    assert Tag(GAME_OWNER)[..4] == Tag(GAME_OWNER);
    Tag(GAME_OWNER)
  }

  /**
   * What a room asks the transport to send: the builder that was called and
   * the arguments it was called with.
   */
  datatype Message =
    | MoveLeftMsg(figure: FigureInfo)
    | MoveRightMsg(figure: FigureInfo)
    | MoveDownMsg(figure: FigureInfo)
    | RotateMsg(figure: FigureInfo)
    | MoveAllWayDownMsg(before: FigureInfo, actual: FigureInfo)
    | NewFigureMsg(fixed: FigureInfo, spawned: FigureInfo)
    | GameStartMsg(boardWidth: int, figures: seq<FigureInfo>)
    | GameStartedMsg(roomId: int)
    | GameOverMsg
    | GameOwnerMsg
    | RoomLeftMsg(player: PlayerInfo, figure: FigureInfo)
    | RoomFullMsg(roomId: int)
    | RoomJoinedMsg(roomId: int, color: int, name: string)
}
