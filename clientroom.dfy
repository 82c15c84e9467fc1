/**
 * ClientRoom: a client's view of one room in the lobby's room list: its
 * id, its size limit, whether its game has started, and the players in
 * it in the order they were listed.
 */
module ClientRooms {
  import opened Records
  import opened Lists

  /** The index of the first player with the given name, or -1 when no player has it. */
  function FirstNamed(ps: seq<PlayerInfo>, name: string): (k: int)
    ensures -1 <= k < |ps|
    ensures k >= 0 ==> ps[k].name == name && forall j :: 0 <= j < k ==> ps[j].name != name
    ensures k < 0 ==> forall j :: 0 <= j < |ps| ==> ps[j].name != name
    decreases |ps|
  {
    if |ps| == 0 then -1
    else if ps[0].name == name then 0
    else
      var k := FirstNamed(ps[1..], name);
      if k < 0 then -1 else k + 1
  }

  /** The number of entries with the given name. */
  function CountNamed(ps: seq<PlayerInfo>, name: string): nat
    decreases |ps|
  {
    if |ps| == 0 then 0 else (if ps[0].name == name then 1 else 0) + CountNamed(ps[1..], name)
  }

  /** No entry has the name exactly when none is counted. */
  lemma {:induction false} CountNamedZero(ps: seq<PlayerInfo>, name: string)
    ensures CountNamed(ps, name) == 0 <==> FirstNamed(ps, name) < 0
    decreases |ps|
  {
    if |ps| > 0 {
      CountNamedZero(ps[1..], name);
    }
  }

  /** Counting over a concatenation adds the counts. */
  lemma {:induction false} CountNamedAppend(a: seq<PlayerInfo>, b: seq<PlayerInfo>, name: string)
    ensures CountNamed(a + b, name) == CountNamed(a, name) + CountNamed(b, name)
    decreases |a|
  {
    if |a| > 0 {
      assert (a + b)[0] == a[0] && (a + b)[1..] == a[1..] + b;
      CountNamedAppend(a[1..], b, name);
    } else {
      assert a + b == b;
    }
  }

  /**
   * removePlayer(name) takes away exactly one entry with the name when
   * there is one; every other name keeps its count.
   */
  lemma RemoveNamedCounts(ps: seq<PlayerInfo>, name: string, other: string)
    requires FirstNamed(ps, name) >= 0
    ensures var r := Without(ps, FirstNamed(ps, name));
      CountNamed(r, name) == CountNamed(ps, name) - 1 &&
      (other != name ==> CountNamed(r, other) == CountNamed(ps, other))
  {
    var k := FirstNamed(ps, name);
    assert ps == ps[..k] + [ps[k]] + ps[k + 1..];
    CountNamedAppend(ps[..k] + [ps[k]], ps[k + 1..], name);
    CountNamedAppend(ps[..k], [ps[k]], name);
    CountNamedAppend(ps[..k], ps[k + 1..], name);
    CountNamedAppend(ps[..k] + [ps[k]], ps[k + 1..], other);
    CountNamedAppend(ps[..k], [ps[k]], other);
    CountNamedAppend(ps[..k], ps[k + 1..], other);
  }

  /** After removePlayer(name), the name is still listed exactly when it was listed twice or more. */
  lemma StillNamed(ps: seq<PlayerInfo>, name: string)
    requires FirstNamed(ps, name) >= 0
    ensures FirstNamed(Without(ps, FirstNamed(ps, name)), name) >= 0 <==> CountNamed(ps, name) >= 2
  {
    var r := Without(ps, FirstNamed(ps, name));
    RemoveNamedCounts(ps, name, name);
    CountNamedZero(r, name);
    CountNamedZero(ps, name);
  }

  /** Integer.toString for a count: its decimal digits, most significant first. */
  function Decimal(n: nat): (s: string)
    ensures |s| >= 1 && forall i :: 0 <= i < |s| ==> '0' <= s[i] <= '9'
    decreases n
  {
    if n < 10 then [Digit(n)] else Decimal(n / 10) + [Digit(n % 10)]
  }

  function Digit(d: nat): (c: char)
    requires d < 10
    ensures '0' <= c <= '9' && c as int - '0' as int == d
  {
    ['0', '1', '2', '3', '4', '5', '6', '7', '8', '9'][d]
  }

  /** The value of a string of decimal digits. */
  function DecimalValue(s: string): nat
    requires forall i :: 0 <= i < |s| ==> '0' <= s[i] <= '9'
    decreases |s|
  {
    if |s| == 0 then 0 else 10 * DecimalValue(s[..|s| - 1]) + (s[|s| - 1] as int - '0' as int)
  }

  /** Reading the decimal digits back gives the count. */
  lemma {:induction false} DecimalRoundTrip(n: nat)
    ensures DecimalValue(Decimal(n)) == n
    decreases n
  {
    var s := Decimal(n);
    if n >= 10 {
      var q, d := n / 10, n % 10;
      DecimalRoundTrip(q);
      assert s == Decimal(q) + [Digit(d)];
      assert s[..|s| - 1] == Decimal(q);
      assert n == 10 * q + d;
    }
  }

  /** The decimal digits of a count have no leading zero, except for zero itself. */
  lemma {:induction false} DecimalNoLeadingZero(n: nat)
    ensures Decimal(n)[0] == '0' <==> n == 0
    decreases n
  {
    if n >= 10 {
      DecimalNoLeadingZero(n / 10);
    }
  }

  class ClientRoom {
    const id: int
    var maxPlayers: int
    var players: seq<PlayerInfo>
    var started: bool

    /** ClientRoom(id): a room with no players, not started. */
    constructor Empty(id: int)
      ensures this.id == id && players == [] && !started && maxPlayers == 0
    {
      this.id := id;
      players, started, maxPlayers := [], false, 0;
    }

    /** ClientRoom(id, currentPlayers): the given players, not started. */
    constructor WithPlayers(id: int, currentPlayers: seq<PlayerInfo>)
      ensures this.id == id && players == currentPlayers && !started && maxPlayers == 0
    {
      this.id := id;
      players, started, maxPlayers := currentPlayers, false, 0;
    }

    /** ClientRoom(id, player): the one given player, not started. */
    constructor WithPlayer(id: int, player: PlayerInfo)
      ensures this.id == id && players == [player] && !started && maxPlayers == 0
    {
      this.id := id;
      players, started, maxPlayers := [player], false, 0;
    }

    /** ClientRoom(roomInfo): the server's description of the room. */
    constructor FromInfo(info: RoomInfo)
      ensures id == info.id && players == info.players && started == info.started && maxPlayers == info.maxPlayers
    {
      id := info.id;
      players, started, maxPlayers := info.players, info.started, info.maxPlayers;
    }

    /** isFull: the room holds exactly as many players as it allows. */
    predicate IsFull()
      reads this
    {
      |players| == maxPlayers
    }

    method SetMaxPlayers(m: int)
      modifies this
      ensures maxPlayers == m && players == old(players) && started == old(started)
      ensures IsFull() <==> |players| == m
    {
      maxPlayers := m;
    }

    method SetStarted(s: bool)
      modifies this
      ensures started == s && players == old(players) && maxPlayers == old(maxPlayers)
    {
      started := s;
    }

    /** addPlayer(u): the player is listed last; a room one short of its limit becomes full. */
    method AddPlayer(u: PlayerInfo)
      modifies this
      ensures players == old(players) + [u] && started == old(started) && maxPlayers == old(maxPlayers)
      ensures IsFull() <==> old(|players|) + 1 == maxPlayers
    {
      players := players + [u];
    }

    /**
     * removePlayer(u): the first entry equal to u (same name and colour)
     * is taken out, the others keep their order; nothing changes when no
     * entry equals u.
     */
    method RemovePlayerInfo(u: PlayerInfo)
      modifies this
      ensures started == old(started) && maxPlayers == old(maxPlayers)
      ensures u !in old(players) ==> players == old(players)
      ensures u in old(players) ==>
        players == Without(old(players), IndexOf(old(players), u)) &&
        multiset(players) == multiset(old(players)) - multiset{u}
    {
      players := Removed(players, u);
    }

    /**
     * removePlayer(name): the iterator walks the players and removes the
     * first one with the name, then stops; the others keep their order.
     */
    method RemovePlayer(name: string)
      modifies this
      ensures started == old(started) && maxPlayers == old(maxPlayers)
      ensures FirstNamed(old(players), name) < 0 ==> players == old(players)
      ensures FirstNamed(old(players), name) >= 0 ==> players == Without(old(players), FirstNamed(old(players), name))
    {
      var i := 0;
      while i < |players|
        invariant 0 <= i <= |players| && players == old(players)
        invariant forall j :: 0 <= j < i ==> players[j].name != name
      {
        if players[i].name == name {
          players := players[..i] + players[i + 1..];
          return;
        }
        i := i + 1;
      }
    }

    /** hasPlayer(name): whether some listed player has the name. */
    method HasPlayer(name: string) returns (found: bool)
      ensures found <==> exists j :: 0 <= j < |players| && players[j].name == name
      ensures found <==> FirstNamed(players, name) >= 0
    {
      found := false;
      var i := 0;
      while i < |players|
        invariant 0 <= i <= |players|
        invariant forall j :: 0 <= j < i ==> players[j].name != name
      {
        if players[i].name == name {
          found := true;
          return;
        }
        i := i + 1;
      }
    }

    /**
     * compareTo: empty rooms on top. The result is negative when this
     * room has more players than the other, zero when both have as many,
     * positive when it has fewer; swapping the rooms negates it.
     */
    function CompareTo(other: ClientRoom): (c: int)
      reads this, other
      ensures c < 0 <==> |players| > |other.players|
      ensures c == 0 <==> |players| == |other.players|
    {
      |other.players| - |players|
    }

    /** equals: another room is equal exactly when it has the same id. */
    predicate Equals(other: ClientRoom?)
      reads this
    {
      this == other || (other != null && id == other.id)
    }

    /** toString: the number of players, then " player", with an "s" exactly when there are more than one. */
    function ToString(): (s: string)
      reads this
      ensures var n := |players|; var d := Decimal(n);
        |s| > |d| + 7 <==> n > 1
    {
      var n := |players|;
      Decimal(n) + " player" + if n > 1 then "s" else ""
    }
  }

  /** compareTo is antisymmetric: swapping the rooms negates the result. */
  lemma CompareToSwapped(a: ClientRoom, b: ClientRoom)
    ensures a.CompareTo(b) == -b.CompareTo(a)
    ensures a.CompareTo(b) < 0 && b.CompareTo(a) < 0 ==> false
  {
  }

  /** Equality of rooms is equality of ids: reflexive, symmetric, and false for null. */
  lemma EqualsById(a: ClientRoom, b: ClientRoom?)
    ensures a.Equals(b) <==> b != null && a.id == b.id
    ensures a.Equals(a)
    ensures b != null ==> (a.Equals(b) <==> b.Equals(a))
  {
  }

  /** toString's text reads back as the number of players and its ending says whether it is plural. */
  lemma ToStringReadsBack(r: ClientRoom)
    ensures var s := r.ToString(); var n := |r.players|; var d := Decimal(n);
      s[..|d|] == d && DecimalValue(s[..|d|]) == n &&
      s[|d|..|d| + 7] == " player" &&
      (n > 1 <==> s[|s| - 1] == 's')
  {
    DecimalRoundTrip(|r.players|);
  }
}
