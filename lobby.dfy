/**
 * Lobby: the names of the players connected to the lobby, the rooms that
 * exist, and the counter that hands out room ids.
 */
module Lobbies {
  import opened Bytes
  import opened Records
  import opened Rooms

  /** AtomicLong.getAndIncrement's successor: Java long arithmetic wraps past the largest long. */
  function NextId(c: int): (n: int)
    requires IsInt64(c)
    ensures IsInt64(n)
    ensures c < INT64_MAX ==> n == c + 1
    ensures c == INT64_MAX ==> n == INT64_MIN
  {
    if c == INT64_MAX then INT64_MIN else c + 1
  }

  /** The counter after n ids were handed out from c. */
  function Advanced(c: int, n: nat): (r: int)
    requires IsInt64(c)
    ensures IsInt64(r)
  {
    if n == 0 then c else NextId(Advanced(c, n - 1))
  }

  /**
   * Successive ids from a new lobby are 0, 1, 2, ...: the n-th id handed
   * out (counting from 0) is n, for as long as n is a long.
   */
  lemma {:induction false} IdsCountUp(n: nat)
    requires n <= INT64_MAX
    ensures Advanced(0, n) == n
  {
    if n > 0 {
      IdsCountUp(n - 1);
    }
  }

  /** Ids handed out from the same counter before it wraps are all different. */
  lemma IdsDistinct(m: nat, n: nat)
    requires m < n <= INT64_MAX
    ensures Advanced(0, m) != Advanced(0, n)
  {
    IdsCountUp(m);
    IdsCountUp(n);
  }

  /** getRooms' entry for one room: its id, size limit, started flag and players. */
  function InfoOf(r: ServerRoom): (ri: RoomInfo)
    reads r
    ensures ri.id == r.id && ri.maxPlayers == r.maxPlayers && ri.started == r.started
    ensures |ri.players| == |r.seats| &&
      forall j :: 0 <= j < |r.seats| ==> ri.players[j] == PlayerInfo(r.seats[j].name, r.seats[j].color)
  {
    RoomInfo(r.id, r.maxPlayers, r.started, PlayerInfos(r.seats))
  }

  /** Different room ids give different entries. */
  predicate IdsApart(rooms: set<ServerRoom>)
  {
    forall r, s :: r in rooms && s in rooms && r != s ==> r.id != s.id
  }

  /** The entries of a set of rooms: one per room. */
  function InfosOf(rooms: set<ServerRoom>): (infos: set<RoomInfo>)
    reads rooms
  {
    set r | r in rooms :: InfoOf(r)
  }

  /**
   * getLobbyData's room entries describe exactly the registered rooms,
   * and when the room ids are apart there is one entry per room.
   */
  lemma {:induction false} InfosOfCount(rooms: set<ServerRoom>)
    requires IdsApart(rooms)
    ensures |InfosOf(rooms)| == |rooms|
    ensures forall r :: r in rooms ==> InfoOf(r) in InfosOf(rooms)
    ensures forall ri :: ri in InfosOf(rooms) ==> exists r :: r in rooms && r.id == ri.id
    decreases |rooms|
  {
    if rooms != {} {
      var r :| r in rooms;
      var rest := rooms - {r};
      InfosOfCount(rest);
      assert InfosOf(rooms) == InfosOf(rest) + {InfoOf(r)};
      forall s | s in rest ensures InfoOf(s) != InfoOf(r) {
        assert s.id != r.id;
      }
    }
  }

  class Lobby {
    /** The names of the players in the lobby. */
    var players: set<string>
    /** The rooms registered with the lobby. */
    var rooms: set<ServerRoom>
    /** The next room id. */
    var counter: int

    ghost predicate Valid()
      reads this
    {
      IsInt64(counter)
    }

    /** A new lobby: nobody there, no rooms, and the first room id is 0. */
    constructor ()
      ensures Valid() && players == {} && rooms == {} && counter == 0
    {
      players, rooms, counter := {}, {}, 0;
    }

    /** getNextRoomId: the counter's value, which then moves on by one. */
    method GetNextRoomId() returns (id: int)
      requires Valid()
      modifies this
      ensures Valid() && id == old(counter) && counter == NextId(old(counter))
      ensures players == old(players) && rooms == old(rooms)
    {
      id := counter;
      counter := NextId(counter);
    }

    /** add: the name is in the lobby afterwards; the answer says whether it was new. */
    method Add(name: string) returns (added: bool)
      modifies this
      ensures added <==> name !in old(players)
      ensures players == old(players) + {name} && rooms == old(rooms) && counter == old(counter)
      ensures |players| == old(|players|) + if added then 1 else 0
    {
      added := name !in players;
      if !added {
        assert players + {name} == players;
      }
      players := players + {name};
    }

    /** remove: the name is not in the lobby afterwards; the answer says whether it was there. */
    method Remove(name: string) returns (removed: bool)
      modifies this
      ensures removed <==> name in old(players)
      ensures players == old(players) - {name} && rooms == old(rooms) && counter == old(counter)
      ensures |players| == old(|players|) - if removed then 1 else 0
    {
      removed := name in players;
      if !removed {
        assert players - {name} == players;
      }
      players := players - {name};
    }

    /** size: the number of names in the lobby. */
    function Size(): (n: nat)
      reads this
      ensures n == 0 <==> players == {}
      ensures forall name :: name in players ==> n >= 1
    {
      |players|
    }

    /** addRoom: the room is registered; registering it again changes nothing. */
    method AddRoom(room: ServerRoom)
      modifies this
      ensures rooms == old(rooms) + {room} && room in rooms
      ensures old(room in rooms) ==> rooms == old(rooms)
      ensures players == old(players) && counter == old(counter)
    {
      rooms := rooms + {room};
    }

    /** removeRoom: the room is no longer registered, the others stay. */
    method RemoveRoom(room: ServerRoom)
      modifies this
      ensures rooms == old(rooms) - {room} && room !in rooms
      ensures players == old(players) && counter == old(counter)
    {
      rooms := rooms - {room};
    }

    /**
     * getLobbyData: the lobby's names and one entry for each registered
     * room, read from the rooms as they are now.
     */
    function GetLobbyData(): (d: LobbyData)
      reads this, rooms
      ensures d.players == players
      ensures forall r :: r in rooms ==> InfoOf(r) in d.rooms
      ensures forall ri :: ri in d.rooms ==> exists r :: r in rooms && InfoOf(r) == ri
    {
      LobbyData(players, InfosOf(rooms))
    }
  }
}
