/**
 * The closed table of protocol commands. A command travels as its ordinal,
 * its position in the declaration order of the Command enum.
 */
module Commands {
  import opened Wrappers

  datatype Command =
    | CHAT | USER_JOINED | USER_LEFT | LOBBY_DATA | CREATE_ROOM | ROOM_CREATED
    | ROOM_JOINED | ROOM_FULL | ROOM_LEFT | ROOM_DROPPED | ABANDON
    | REQUEST_LOBBY_DATA | JOIN_ROOM | GAME_START | GAME_OVER | MOVE_LEFT
    | MOVE_RIGHT | MOVE_DOWN | MOVE_ALL_WAY_DOWN | ROTATE | NEW_FIGURE
    | GAME_OWNER | PING

  /** Command.values(): every command, in declaration order. */
  const Values: seq<Command> := [
    CHAT, USER_JOINED, USER_LEFT, LOBBY_DATA, CREATE_ROOM, ROOM_CREATED,
    ROOM_JOINED, ROOM_FULL, ROOM_LEFT, ROOM_DROPPED, ABANDON,
    REQUEST_LOBBY_DATA, JOIN_ROOM, GAME_START, GAME_OVER, MOVE_LEFT,
    MOVE_RIGHT, MOVE_DOWN, MOVE_ALL_WAY_DOWN, ROTATE, NEW_FIGURE,
    GAME_OWNER, PING]

  const COUNT: nat := 23

  /** Commands.encode: the ordinal of the command. */
  function Encode(cmd: Command): (n: int)
    ensures 0 <= n < COUNT && Values[n] == cmd
  {
    match cmd
    case CHAT => 0
    case USER_JOINED => 1
    case USER_LEFT => 2
    case LOBBY_DATA => 3
    case CREATE_ROOM => 4
    case ROOM_CREATED => 5
    case ROOM_JOINED => 6
    case ROOM_FULL => 7
    case ROOM_LEFT => 8
    case ROOM_DROPPED => 9
    case ABANDON => 10
    case REQUEST_LOBBY_DATA => 11
    case JOIN_ROOM => 12
    case GAME_START => 13
    case GAME_OVER => 14
    case MOVE_LEFT => 15
    case MOVE_RIGHT => 16
    case MOVE_DOWN => 17
    case MOVE_ALL_WAY_DOWN => 18
    case ROTATE => 19
    case NEW_FIGURE => 20
    case GAME_OWNER => 21
    case PING => 22
  }

  /**
   * Commands.decode: look the number up in the ordinal table built from
   * Command.values(); an unknown number is an IllegalArgumentException.
   */
  function Decode(n: int): (r: Result<Command>)
    ensures r.Ok? <==> 0 <= n < COUNT
    ensures r.Ok? ==> Encode(r.value) == n
    ensures r.Err? ==> r.error == IllegalArgument(n)
  {
    if 0 <= n < |Values| then
      EncodeOfValues(n);
      Ok(Values[n])
    else Err(IllegalArgument(n))
  }

  /** The ordinal of the n-th declared command is n. */
  lemma EncodeOfValues(n: int)
    requires 0 <= n < |Values|
    ensures Encode(Values[n]) == n
  {
  }

  lemma DecodeEncode(cmd: Command)
    ensures Decode(Encode(cmd)) == Ok(cmd)
  {
  }

  lemma EncodeInjective(a: Command, b: Command)
    ensures Encode(a) == Encode(b) ==> a == b
  {
    if Encode(a) == Encode(b) {
      DecodeEncode(a);
      DecodeEncode(b);
    }
  }
}
