/**
 * ServerRoom: the players seated at one table, the colours still free, the
 * shared board and every player's falling figure. The room accepts or
 * ignores the players' movement requests, fixes landed figures, clears
 * full lines and spawns new figures, and tells the players what happened.
 */
module Rooms {
  import opened Grids
  import opened Board
  import opened Shapes
  import opened Wrappers
  import opened Figures
  import opened Records
  import opened Coverage
  import opened Lists
  import Protocol

  /** The eight colours handed out, as the Java ints the ARGB literals denote. */
  const COLORS: seq<int> := [
    0xFFFF0000 - 0x1_0000_0000,  // red
    0xFF00FF00 - 0x1_0000_0000,  // green
    0xFFFFC800 - 0x1_0000_0000,  // orange
    0xFF0000FF - 0x1_0000_0000,  // blue
    0xFFFFFF00 - 0x1_0000_0000,  // yellow
    0xFFA200FF - 0x1_0000_0000,  // purple
    0xFFFFFFFF - 0x1_0000_0000,  // white
    0xFFFF00FF - 0x1_0000_0000   // magenta
  ]

  /** Every game is played on a board 20 rows high. */
  const BOARD_HEIGHT := 20

  /** Something the room hands to the transport, in the order it does so. */
  datatype Effect =
    | ToRoom(msg: Protocol.Message)               // a send on the room channel
    | ToLobby(msg: Protocol.Message)              // a send on the lobby channel
    | ToPlayer(name: string, msg: Protocol.Message) // a send to one player's session
    | LeaveChannel(name: string)                  // the player leaves the room channel
    | ScheduleDrop(roomId: int)                   // the scheduled drop of an empty room

  /**
   * A seated player: the state of the player that the room reads and
   * writes. The figure is null until the game starts.
   */
  datatype Seat = Seat(name: string, color: int, column: int, figure: ServerFigure?)

  /** The four ways a player moves a figure. */
  datatype Step = Left | Right | Down | Turn

  /** Where the step takes the figure: position and orientation. */
  function Target(f: ServerFigure, step: Step): (int, int, int)
    reads f
    requires f.Valid()
  {
    match step
    case Left => (f.xPos - 1, f.yPos, f.orientation)
    case Right => (f.xPos + 1, f.yPos, f.orientation)
    case Down => (f.xPos, f.yPos + 1, f.orientation)
    case Turn => (f.xPos, f.yPos, NextOrientation(f.orientation, f.maxOrientation))
  }

  /**
   * canMoveLeft, canMoveRight, canMoveDown and canRotate: the figure is on a
   * board and fits where the step takes it.
   */
  predicate Fits(f: ServerFigure, step: Step)
    reads f, if f.board != null then {f.board.matrix} else {}
  {
    f.Valid() && f.board != null && var t := Target(f, step); f.CanMoveToSpec(t.0, t.1, t.2)
  }

  /**
   * The figure now stands at the target, keeps its colour, and the board
   * shows its old squares emptied and its new ones occupied.
   */
  twostate predicate Stepped(f: ServerFigure, b: SquareBoard, target: (int, int, int))
    requires b.Valid()
    reads f, b.matrix
  {
    (f.xPos, f.yPos, f.orientation) == target && f.color == old(f.color) &&
    forall y, x :: b.InBounds(x, y) ==>
      b.matrix[y, x] == Repaint(old(b.matrix[y, x]), (x, y), old(f.Footprint()), f.Footprint(), Occupied)
  }

  /**
   * A figure that fits one row down enters only empty squares, and the row
   * below stays above the board's floor.
   */
  lemma FitsDown(f: ServerFigure)
    requires Fits(f, Down)
    ensures var to := Cells(f.offsets, f.xPos, f.yPos + 1, f.orientation);
      EntersEmpty(f.board.Contents(), f.Footprint(), to) && |to| > 0 && to[0].1 < f.board.height
  {
    var to := Cells(f.offsets, f.xPos, f.yPos + 1, f.orientation);
    assert |to| == 4;
    FitsEntersBoard(f.board.Contents(), f.board.width, f.Footprint(), to);
  }

  /**
   * Partway through a fall that started from grid g0 and footprint fp0,
   * the figure can move down exactly when it falls through its row on g0.
   */
  lemma FallsOn(f: ServerFigure, g0: Grid, fp0: seq<Square>, w: int, offsets: seq<Offset>, x: int, y: int, o: int)
    requires f.Valid() && f.board != null && f.board.Valid() && Rectangular(g0, f.board.width)
    requires w == f.board.width && offsets == f.offsets && x == f.xPos && y == f.yPos && o == f.orientation
    requires Repainted(g0, f.board.Contents(), fp0, f.Footprint(), Occupied)
    ensures Fits(f, Down) <==> FallsThrough(g0, w, offsets, x, y, o, fp0)
  {
    FallsThroughAfterRepaint(g0, f.board.Contents(), w, offsets, x, y, o, fp0);
  }

  /** The first row of moveAllWayDown's fall: a figure that can move down falls through its row. */
  lemma FallsFirst(f: ServerFigure, g: Grid, fp: seq<Square>, w: int, offsets: seq<Offset>, x: int, y: int, o: int)
    requires Fits(f, Down) && f.board.Valid()
    requires g == f.board.Contents() && fp == f.Footprint()
    requires w == f.board.width && offsets == f.offsets && x == f.xPos && y == f.yPos && o == f.orientation
    ensures FallsThrough(g, w, offsets, x, y, o, fp)
  {
    assert Target(f, Down) == (x, y + 1, o);
    assert f.CanMoveToSpec(x, y + 1, o);
    FallsFromRest(g, w, offsets, x, y, o);
  }

  /** A fall that went through every row from y0 to the figure's row, and fits one row down, goes through that row too. */
  lemma FallGoesOn(f: ServerFigure, g0: Grid, fp0: seq<Square>, w: int, offsets: seq<Offset>, x: int, y0: int, y: int, o: int)
    requires f.Valid() && f.board != null && f.board.Valid() && Rectangular(g0, f.board.width)
    requires w == f.board.width && offsets == f.offsets && x == f.xPos && y == f.yPos && o == f.orientation
    requires Repainted(g0, f.board.Contents(), fp0, f.Footprint(), Occupied) && Fits(f, Down)
    requires y0 <= y && FallsThroughRows(g0, w, offsets, x, o, fp0, y0, y)
    ensures FallsThroughRows(g0, w, offsets, x, o, fp0, y0, y + 1)
  {
    FallsOn(f, g0, fp0, w, offsets, x, y, o);
    FallsThroughOneMore(g0, w, offsets, x, o, fp0, y0, y);
  }

  /** A fall that went through every row from y0 to the figure's row, and cannot go on, rests there. */
  lemma FallEnds(f: ServerFigure, g0: Grid, fp0: seq<Square>, w: int, offsets: seq<Offset>, x: int, y0: int, y: int, o: int)
    requires f.Valid() && f.board != null && f.board.Valid() && Rectangular(g0, f.board.width)
    requires w == f.board.width && offsets == f.offsets && x == f.xPos && y == f.yPos && o == f.orientation
    requires Repainted(g0, f.board.Contents(), fp0, f.Footprint(), Occupied) && !Fits(f, Down)
    requires y0 <= y && FallsThroughRows(g0, w, offsets, x, o, fp0, y0, y)
    ensures RestsAt(g0, w, offsets, x, y0, o, fp0, y)
  {
    FallsOn(f, g0, fp0, w, offsets, x, y, o);
  }

  /** A matrix repainted cell by cell from grid g holds g repainted. */
  lemma MatrixRepainted(g: Grid, b: SquareBoard, from: seq<Square>, to: seq<Square>)
    requires b.Valid() && |g| == b.height && Rectangular(g, b.width)
    requires forall y, x :: b.InBounds(x, y) ==> b.matrix[y, x] == Repaint(g[y][x], (x, y), from, to, Occupied)
    ensures Repainted(g, b.Contents(), from, to, Occupied)
  {
    var h := b.Contents();
    forall y, x ensures RepaintedAt(g, h, from, to, Occupied, y, x) {
      if 0 <= y < |g| && 0 <= x < |g[y]| {
        assert b.InBounds(x, y);
      }
    }
  }

  /** isAllWayDown answers true: the figure is on a board and Landed says so. */
  predicate Lands(f: ServerFigure)
    reads f, if f.board != null then {f.board.matrix} else {}
  {
    f.Valid() && f.board != null && f.Placed() && f.Landed()
  }

  /** The figure's own move for the step, when the step fits. */
  method Move(f: ServerFigure, step: Step)
    requires f.Valid() && f.board != null && f.Placed()
    requires step == Turn ==> f.kind != SQUARE_FIGURE
    requires var t := Target(f, step); f.CanMoveToSpec(t.0, t.1, t.2)
    modifies f, f.board.matrix
    ensures f.Valid() && f.board == old(f.board) && f.color == old(f.color) && f.Placed()
    ensures (f.xPos, f.yPos, f.orientation) == old(Target(f, step))
    ensures forall y, x :: f.board.InBounds(x, y) ==>
      f.board.matrix[y, x] == Repaint(old(f.board.matrix[y, x]), (x, y), old(f.Footprint()), f.Footprint(), Occupied)
    ensures Repainted(old(f.board.Contents()), f.board.Contents(), old(f.Footprint()), f.Footprint(), Occupied)
  {
    ghost var g := f.board.Contents();
    match step {
      case Left => f.MoveLeft();
      case Right => f.MoveRight();
      case Down => f.MoveDown();
      case Turn => f.Rotate();
    }
    MatrixRepainted(g, f.board, old(f.Footprint()), f.Footprint());
  }

  /** gameStart's board width for n players: four columns per player and four spare. */
  function BoardWidth(n: int): (w: int)
    ensures w == 4 * n + 4
  {
    8 + (n - 1) * 4
  }

  /** gameStart's spawn column for seat i. */
  function SpawnColumn(i: int): int
  {
    3 + 4 * i
  }

  /** The figures of the seats. */
  function FiguresOf(ss: seq<Seat>): set<ServerFigure>
  {
    set i | 0 <= i < |ss| && ss[i].figure != null :: ss[i].figure
  }

  /** The number of seats holding a figure. */
  function FigureCount(ss: seq<Seat>): (n: nat)
    ensures n <= |ss|
  {
    if |ss| == 0 then 0
    else FigureCount(ss[..|ss| - 1]) + if ss[|ss| - 1].figure != null then 1 else 0
  }

  /** The squares each seat's figure covers; none for a seat without one. */
  ghost function FootprintsOf(ss: seq<Seat>): (fps: seq<seq<Square>>)
    reads FiguresOf(ss)
    ensures |fps| == |ss|
    decreases |ss|
  {
    if |ss| == 0 then []
    else
      var last := ss[|ss| - 1];
      FootprintsOf(ss[..|ss| - 1]) + [if last.figure != null then last.figure.Footprint() else []]
  }

  /** The footprint of seat i, read off FootprintsOf. */
  lemma {:induction false} FootprintAt(ss: seq<Seat>, i: int)
    requires 0 <= i < |ss|
    ensures FootprintsOf(ss)[i] == if ss[i].figure != null then ss[i].figure.Footprint() else []
    decreases |ss|
  {
    if i < |ss| - 1 {
      FootprintAt(ss[..|ss| - 1], i);
    }
  }

  /**
   * Seat i handed a figure no seat holds (or none): the seats stay as
   * SeatsOk says, and only seat i's footprint changes.
   */
  lemma SeatReplaced(ss: seq<Seat>, i: int, s: Seat, b: SquareBoard?)
    requires SeatsOk(ss, b) && 0 <= i < |ss| && s.name == ss[i].name
    requires s.figure != null ==> FigureOk(s.figure, b) && forall j :: 0 <= j < |ss| ==> ss[j].figure != s.figure
    ensures SeatsOk(ss[i := s], b)
    ensures FootprintsOf(ss[i := s]) == FootprintsOf(ss)[i := if s.figure != null then s.figure.Footprint() else []]
    ensures FigureCount(ss[i := s]) + (if ss[i].figure != null then 1 else 0) ==
      FigureCount(ss) + (if s.figure != null then 1 else 0)
  {
    var ss' := ss[i := s];
    SeatsOkIff(ss, b);
    forall j | 0 <= j < |ss'| ensures SeatFigureOk(ss', j, b) {
      assert j != i ==> SeatFigureOk(ss, j, b);
    }
    forall j, k | 0 <= j < k < |ss'| ensures Apart(ss', j, k) {
      assert Apart(ss, j, k);
    }
    SeatsOkIff(ss', b);
    forall j | 0 <= j < |ss'|
      ensures FootprintsOf(ss')[j] == FootprintsOf(ss)[i := if s.figure != null then s.figure.Footprint() else []][j]
    {
      FootprintAt(ss, j);
      FootprintAt(ss', j);
    }
    FigureCountRemoved(ss, i);
    FigureCountRemoved(ss', i);
    assert ss'[..i] + ss'[i + 1..] == ss[..i] + ss[i + 1..];
  }

  /** No other seat holds seat i's figure. */
  lemma FigureHeldOnce(ss: seq<Seat>, i: int)
    requires AllApart(ss) && 0 <= i < |ss| && ss[i].figure != null
    ensures forall j :: 0 <= j < |ss| && j != i ==> ss[j].figure != ss[i].figure
  {
    forall j | 0 <= j < |ss| && j != i ensures ss[j].figure != ss[i].figure {
      if j < i {
        assert Apart(ss, j, i);
      } else {
        assert Apart(ss, i, j);
      }
    }
  }

  /** Every seat's footprint, read off FootprintsOf. */
  lemma FootprintsEach(ss: seq<Seat>)
    ensures forall i :: 0 <= i < |ss| ==>
      FootprintsOf(ss)[i] == if ss[i].figure != null then ss[i].figure.Footprint() else []
  {
    forall i | 0 <= i < |ss|
      ensures FootprintsOf(ss)[i] == if ss[i].figure != null then ss[i].figure.Footprint() else []
    {
      FootprintAt(ss, i);
    }
  }

  /** getPlayerInfos */
  function PlayerInfos(ss: seq<Seat>): (infos: seq<PlayerInfo>)
    ensures |infos| == |ss|
    ensures forall i :: 0 <= i < |ss| ==> infos[i] == PlayerInfo(ss[i].name, ss[i].color)
  {
    seq(|ss|, i requires 0 <= i < |ss| => PlayerInfo(ss[i].name, ss[i].color))
  }

  /** The seats' colours in seat order. */
  function SeatColors(ss: seq<Seat>): (cs: seq<int>)
    ensures |cs| == |ss| && forall i :: 0 <= i < |ss| ==> cs[i] == ss[i].color
  {
    seq(|ss|, i requires 0 <= i < |ss| => ss[i].color)
  }

  /** A seated figure is attached to the room's board, well formed, and on the board. */
  ghost predicate FigureOk(f: ServerFigure, b: SquareBoard?)
    reads f
  {
    b != null && f.board == b && f.Valid() && f.Placed()
  }

  /**
   * Seat i has a name no earlier seat has, a figure no earlier seat holds,
   * and its figure, if any, attached to the board.
   */
  ghost predicate SeatOk(ss: seq<Seat>, i: int, b: SquareBoard?)
    requires 0 <= i < |ss|
    reads if ss[i].figure != null then {ss[i].figure} else {}
  {
    (forall j :: 0 <= j < i ==> ss[j].name != ss[i].name) &&
    (ss[i].figure != null ==>
      (forall j :: 0 <= j < i ==> ss[j].figure != ss[i].figure) && FigureOk(ss[i].figure, b))
  }

  /** Every seat is as SeatOk says, checked from the last seat back. */
  ghost predicate SeatsOk(ss: seq<Seat>, b: SquareBoard?)
    reads FiguresOf(ss)
    decreases |ss|
  {
    |ss| == 0 || (SeatsOk(ss[..|ss| - 1], b) && SeatOk(ss, |ss| - 1, b))
  }

  /**
   * The board is 20 rows high and at least four columns wide, the seated
   * figures, four squares each, have fewer squares than the board has
   * columns, and while any figure is seated every OCCUPIED cell belongs to
   * one. (The last player to leave does not clear its figure.)
   */
  ghost predicate BoardOk(ss: seq<Seat>, b: SquareBoard)
    reads b.matrix, FiguresOf(ss)
  {
    b.Valid() && b.width >= 4 && b.height == BOARD_HEIGHT && 4 * FigureCount(ss) < b.width &&
    (FigureCount(ss) > 0 ==> Covered(b.Contents(), FootprintsOf(ss)))
  }

  /** The seats and the board together, as a room keeps them. */
  ghost predicate RoomOk(ss: seq<Seat>, b: SquareBoard?)
    reads FiguresOf(ss), if b != null then {b.matrix} else {}
  {
    SeatsOk(ss, b) && (b != null ==> BoardOk(ss, b))
  }

  /**
   * newFigure without the seat update: a figure of the given type attached
   * to the board at the given column, then given the player's colour.
   */
  method NewFigure(b: SquareBoard, kind: int, column: int, color: int) returns (fig: ServerFigure)
    requires b.Valid() && b.width >= 4 && Initialize(kind).Ok?
    modifies b.matrix
    ensures fresh(fig) && fig.Valid() && fig.board == b && fig.Placed()
    ensures fig.kind == kind && fig.orientation == 0 && fig.color == color
    ensures (fig.xPos, fig.yPos) == old(SpawnPosition(b.Contents(), b.width, kind, 0, column))
    ensures forall y, x :: b.InBounds(x, y) ==>
      b.matrix[y, x] == if (x, y) in fig.Footprint() then Occupied else old(b.matrix[y, x])
  {
    fig := new ServerFigure(kind);
    var _ := fig.Attach(b, column);
    fig.SetColor(color);
  }

  class ServerRoom {
    const id: int
    const maxPlayers: int
    /** The players in the order they joined; seat 0 owns the room. */
    var seats: seq<Seat>
    /** availableColors */
    var pool: seq<int>
    var started: bool
    var gameOver: bool
    /** Null until the game starts. */
    var board: SquareBoard?

    ghost predicate Valid()
      reads this, FiguresOf(seats), if board != null then {board.matrix} else {}
    {
      RoomOk(seats, board)
    }

    /** The pool and the seats' colours are together the eight colours. */
    ghost predicate Partitioned()
      reads this
    {
      multiset(pool) + multiset(SeatColors(seats)) == multiset(COLORS)
    }

    /** The fields are as given. */
    predicate Keeps(seats0: seq<Seat>, pool0: seq<int>, started0: bool, gameOver0: bool, board0: SquareBoard?)
      reads this
    {
      seats == seats0 && pool == pool0 && started == started0 && gameOver == gameOver0 && board == board0
    }

    /** isFull: exactly maxPlayers seats are taken. */
    predicate IsFull(): (full: bool)
      reads this
      ensures full <==> |PlayerInfos(seats)| == maxPlayers
    {
      |seats| == maxPlayers
    }

    /** The seat of the player with the given name, if seated. */
    function SeatOf(name: string): (i: int)
      reads this
      ensures -1 <= i < |seats|
      ensures i >= 0 ==> seats[i].name == name && forall j :: 0 <= j < i ==> seats[j].name != name
      ensures i < 0 ==> forall j :: 0 <= j < |seats| ==> seats[j].name != name
    {
      SeatFrom(seats, name, 0)
    }

    /**
     * Creates the room with its creator seated: the pool starts as the
     * given shuffle of the eight colours and the creator takes its first.
     */
    constructor (id: int, maxPlayers: int, shuffled: seq<int>, name: string, color: int, column: int)
      requires multiset(shuffled) == multiset(COLORS)
      ensures Valid() && Partitioned() && this.id == id && this.maxPlayers == maxPlayers
      ensures seats == [Seat(name, shuffled[0], column, null)] && pool == shuffled[1..]
      ensures !started && !gameOver && board == null
    {
      this.id := id;
      this.maxPlayers := maxPlayers;
      seats := [];
      pool := shuffled;
      started, gameOver := false, false;
      board := null;
      new;
      EightColors(shuffled);
      assert Partitioned() by {
        assert SeatColors([]) == [];
      }
      AddPlayer(name, color, column);
    }

    /**
     * addPlayer: seats the player last; a player who arrives while colours
     * remain takes the first of them, otherwise keeps the colour it had.
     */
    method AddPlayer(name: string, color: int, column: int)
      requires Valid() && SeatOf(name) < 0
      modifies this
      ensures Valid()
      ensures started == old(started) && gameOver == old(gameOver) && board == old(board)
      ensures |old(pool)| > 0 ==>
        seats == old(seats) + [Seat(name, old(pool)[0], column, null)] && pool == old(pool)[1..]
      ensures |old(pool)| == 0 ==> seats == old(seats) + [Seat(name, color, column, null)] && pool == []
      ensures old(Partitioned()) && |old(pool)| > 0 ==> Partitioned()
      ensures IsFull() <==> |old(seats)| + 1 == maxPlayers
    {
      var c := color;
      var rest := pool;
      if |pool| > 0 {
        c, rest := pool[0], pool[1..];
        ColorTaken(pool, SeatColors(seats));
      }
      var seat := Seat(name, c, column, null);
      SeatAppended(seats, seat, board);
      ghost var ss := seats + [seat];
      ghost var fs := FiguresOf(ss);
      assert RoomOk(ss, board);
      assert SeatColors(ss) == SeatColors(seats) + [c];
      seats, pool := seats + [seat], rest;
      assert seats == ss && |seats| == |old(seats)| + 1;
    }

    /**
     * removePlayer: a room owner who leaves before the start hands the
     * ownership to the next seat; the seat is removed; the last player's
     * leave schedules the room's drop, any other's clears its figure,
     * announces the leave, takes it off the room channel and hands its
     * colour back to the pool. A player without a figure, leaving others
     * behind, makes roomLeft throw once the seat is gone.
     */
    method RemovePlayer(name: string) returns (effects: seq<Effect>, thrown: Option<Error>)
      requires Valid() && SeatOf(name) >= 0
      modifies this, if board != null then {board.matrix} else {}
      ensures Valid()
      ensures |old(seats)| == 1 ==>
        Keeps([], old(pool), old(started), old(gameOver), old(board)) &&
        effects == [ScheduleDrop(id)] && thrown == None && (board != null ==> unchanged(board.matrix))
      ensures var i := old(SeatOf(name));
        |old(seats)| > 1 && old(seats[i].figure) == null ==>
          Keeps(old(Without(seats, i)), old(pool), old(started), old(gameOver), old(board)) &&
          effects == (if !old(started) && i == 0 then [ToPlayer(old(seats[1].name), Protocol.GameOwnerMsg)] else []) &&
          thrown == Some(NullPointer) && (board != null ==> unchanged(board.matrix))
      ensures var i := old(SeatOf(name));
        |old(seats)| > 1 && old(seats[i].figure) != null ==>
          Keeps(old(Without(seats, i)), old(pool + [seats[i].color]), old(started), old(gameOver), old(board)) &&
          effects ==
            (if !old(started) && i == 0 then [ToPlayer(old(seats[1].name), Protocol.GameOwnerMsg)] else []) +
            [ToRoom(Protocol.RoomLeftMsg(PlayerInfo(name, old(seats[i].color)), old(seats[i].figure.Info()))),
             LeaveChannel(name)] &&
          thrown == None &&
          (board != null ==> forall y, x :: board.InBounds(x, y) ==>
            board.matrix[y, x] == if (x, y) in old(seats[i].figure.Footprint()) then Empty else old(board.matrix[y, x])) &&
          (old(Partitioned()) ==> Partitioned())
    {
      var i := SeatOf(name);
      var notice := if !started && i == 0 && |seats| > 1 then [ToPlayer(seats[1].name, Protocol.GameOwnerMsg)] else [];
      thrown := None;
      if |seats| == 1 {
        effects := Disband();
      } else if seats[i].figure == null {
        Abandon(i);
        effects, thrown := notice, Some(NullPointer);
      } else {
        var rest := Depart(i);
        effects := notice + rest;
      }
    }

    /**
     * removePlayer for a player without a figure while others remain: the
     * seat is given up, and then roomLeft reads the missing figure and
     * throws a NullPointerException before the leave is announced.
     */
    method Abandon(i: int)
      requires Valid() && 0 <= i < |seats| && seats[i].figure == null
      modifies this
      ensures Valid() && Keeps(old(Without(seats, i)), old(pool), old(started), old(gameOver), old(board))
    {
      ghost var ss, b := seats, board;
      if b != null {
        RoomWithout(ss, i, b);
      } else {
        SeatsRemoved(ss, i, b);
      }
      ghost var fs := FiguresOf(Without(ss, i));
      seats := Without(seats, i);
      assert seats == Without(ss, i) && board == b;
    }

    /** removePlayer for the last player: the room is left without seats. */
    method Disband() returns (effects: seq<Effect>)
      requires Valid() && |seats| == 1
      modifies this
      ensures Valid()
      ensures Keeps([], old(pool), old(started), old(gameOver), old(board)) && effects == [ScheduleDrop(id)]
      ensures board != null ==> unchanged(board.matrix)
    {
      effects := [ScheduleDrop(id)];
      ghost var ss: seq<Seat> := [];
      assert board != null ==> BoardOk(ss, board);
      assert RoomOk(ss, board);
      ghost var fs := FiguresOf(ss);
      seats := [];
    }

    /**
     * removePlayer for a room that keeps other players: the leaver's
     * colour returns to the pool and its figure leaves the board.
     */
    method Depart(i: int) returns (effects: seq<Effect>)
      requires Valid() && 0 <= i < |seats| && |seats| > 1 && seats[i].figure != null
      modifies this, if board != null then {board.matrix} else {}
      ensures Valid()
      ensures Keeps(old(Without(seats, i)), old(pool + [seats[i].color]), old(started), old(gameOver), old(board))
      ensures effects ==
        old([ToRoom(Protocol.RoomLeftMsg(PlayerInfo(seats[i].name, seats[i].color), seats[i].figure.Info())),
             LeaveChannel(seats[i].name)])
      ensures board != null ==> forall y, x :: board.InBounds(x, y) ==>
        board.matrix[y, x] == if (x, y) in old(seats[i].figure.Footprint()) then Empty else old(board.matrix[y, x])
      ensures old(Partitioned()) ==> Partitioned()
    {
      var s := seats[i];
      SeatOkAt(seats, i, board);
      ColorReturned(pool, seats, i);
      var info := s.figure.Info();
      effects := [ToRoom(Protocol.RoomLeftMsg(PlayerInfo(s.name, s.color), info)), LeaveChannel(s.name)];
      ghost var ss, b := seats, board;
      assert RoomOk(ss, b);
      ghost var fs := FiguresOf(ss);
      pool := pool + [s.color];
      assert seats == ss && board == b;
      Vacate(i);
    }

    /**
     * gameStart: the game starts on a new, all-EMPTY board four columns per
     * player plus four wide and 20 rows high; in seat order each player is
     * given spawn column 3 + 4i and a new figure of the given type attached
     * there in the player's colour. The room is told the board width and the
     * figures, the lobby that the game has started.
     */
    method GameStart(kinds: seq<int>) returns (effects: seq<Effect>)
      requires Valid() && |kinds| == |seats| && forall k :: 0 <= k < |kinds| ==> Initialize(kinds[k]).Ok?
      modifies this
      ensures Valid() && started && gameOver == old(gameOver) && pool == old(pool)
      ensures board != null && fresh(board) && fresh(board.matrix)
      ensures board.width == BoardWidth(|seats|) && board.height == BOARD_HEIGHT
      ensures |seats| == |old(seats)| && FigureCount(seats) == |seats|
      ensures SeatedUpTo(old(seats), kinds, seats, FigureInfos(seats))
      ensures KnownKinds(FigureInfos(seats)) && AllSpawned(board.width, FigureInfos(seats))
      ensures board.Contents() == StartGrid(board.width, FigureInfos(seats))
      ensures effects == [ToRoom(Protocol.GameStartMsg(board.width, FigureInfos(seats))), ToLobby(Protocol.GameStartedMsg(id))]
    {
      SeatsOkIff(seats, board);
      var b := new SquareBoard(BoardWidth(|seats|), BOARD_HEIGHT);
      AllEmpty(b);
      var placed, figures := SeatAll(b, seats, kinds);
      Install(b, placed);
      effects := [ToRoom(Protocol.GameStartMsg(b.width, figures)), ToLobby(Protocol.GameStartedMsg(id))];
    }

    /** The started game's board and seats take the room's place. */
    method Install(b: SquareBoard, placed: seq<Seat>)
      requires RoomOk(placed, b) && FigureCount(placed) == |placed|
      modifies this
      ensures Valid() && Keeps(placed, old(pool), true, old(gameOver), b)
      ensures FigureInfos(seats) == old(FigureInfos(placed))
    {
      ghost var fs := FiguresOf(placed);
      ghost var infos := FigureInfos(placed);
      started, board, seats := true, b, placed;
      assert seats == placed && board == b;
    }

    /** moveLeft: when the game runs and the figure fits one column left, announce it, then move it. */
    method MoveLeft(i: int) returns (effects: seq<Effect>)
      requires Valid() && board != null && 0 <= i < |seats| && seats[i].figure != null
      modifies seats[i].figure, board.matrix
      ensures Valid()
      ensures var f := seats[i].figure;
        if old(!gameOver && Fits(f, Left)) then
          effects == [ToRoom(Protocol.MoveLeftMsg(old(f.Info())))] && Stepped(f, board, old(Target(f, Left)))
        else
          effects == [] && unchanged(f) && unchanged(board.matrix)
    {
      effects := [];
      var f := seats[i].figure;
      SeatOkAt(seats, i, board);
      ghost var fs := FiguresOf(seats);
      var ok := f.CanMoveLeft();
      assert Valid();
      if !gameOver && ok {
        var info := f.Info();
        effects := [ToRoom(Protocol.MoveLeftMsg(info))];
        StepFigure(i, Left);
      }
    }

    /** moveRight: as moveLeft, one column right. */
    method MoveRight(i: int) returns (effects: seq<Effect>)
      requires Valid() && board != null && 0 <= i < |seats| && seats[i].figure != null
      modifies seats[i].figure, board.matrix
      ensures Valid()
      ensures var f := seats[i].figure;
        if old(!gameOver && Fits(f, Right)) then
          effects == [ToRoom(Protocol.MoveRightMsg(old(f.Info())))] && Stepped(f, board, old(Target(f, Right)))
        else
          effects == [] && unchanged(f) && unchanged(board.matrix)
    {
      effects := [];
      var f := seats[i].figure;
      SeatOkAt(seats, i, board);
      ghost var fs := FiguresOf(seats);
      var ok := f.CanMoveRight();
      assert Valid();
      if !gameOver && ok {
        var info := f.Info();
        effects := [ToRoom(Protocol.MoveRightMsg(info))];
        StepFigure(i, Right);
      }
    }

    /**
     * rotate: when the game runs and the figure fits at its next
     * orientation, announce it, then turn it; a square is announced but
     * never turns.
     */
    method Rotate(i: int) returns (effects: seq<Effect>)
      requires Valid() && board != null && 0 <= i < |seats| && seats[i].figure != null
      modifies seats[i].figure, board.matrix
      ensures Valid()
      ensures var f := seats[i].figure;
        if old(!gameOver && Fits(f, Turn)) then
          effects == [ToRoom(Protocol.RotateMsg(old(f.Info())))] &&
          if f.kind == SQUARE_FIGURE then unchanged(f) && unchanged(board.matrix) else Stepped(f, board, old(Target(f, Turn)))
        else
          effects == [] && unchanged(f) && unchanged(board.matrix)
    {
      effects := [];
      var f := seats[i].figure;
      SeatOkAt(seats, i, board);
      ghost var fs := FiguresOf(seats);
      var ok := f.CanRotate();
      assert Valid();
      if !gameOver && ok {
        var info := f.Info();
        effects := [ToRoom(Protocol.RotateMsg(info))];
        if f.kind != SQUARE_FIGURE {
          StepFigure(i, Turn);
        }
      }
    }

    /**
     * moveDown: while the game runs, a figure that fits one row down is
     * announced and moved; one that has landed is settled as
     * handleFigureBottom says; one held up only by another player's
     * figure stays where it is.
     */
    method MoveDown(i: int, kind: int) returns (effects: seq<Effect>)
      requires Valid() && board != null && 0 <= i < |seats| && seats[i].figure != null && Initialize(kind).Ok?
      modifies this, seats[i].figure, board.matrix
      ensures Valid() && pool == old(pool) && started == old(started) && board == old(board)
      ensures var f := old(seats[i].figure); old(gameOver || (!Fits(f, Down) && !Lands(f))) ==>
        effects == [] && seats == old(seats) && gameOver == old(gameOver) && unchanged(f) && unchanged(board.matrix)
      ensures var f := old(seats[i].figure); old(!gameOver && Fits(f, Down)) ==>
        effects == [ToRoom(Protocol.MoveDownMsg(old(f.Info())))] && seats == old(seats) && gameOver == old(gameOver) &&
        Stepped(f, board, old(Target(f, Down)))
      ensures var f := old(seats[i].figure); old(!gameOver && !Fits(f, Down) && Lands(f)) ==>
        Settled(old(seats), i, old(f.Info()), old(gameOver), kind,
                old(board.Contents()), old(f.Footprint()), effects) &&
        (old(f.AllVisible()) ==> fresh(seats[i].figure))
    {
      if gameOver {
        effects := [];
      } else {
        SeatOkAt(seats, i, board);
        var ok := Fits(seats[i].figure, Down);
        if ok {
          effects := Lower(i);
        } else {
          effects := Land(i, kind);
        }
      }
    }

    /** moveDown's branch for a figure that fits one row down: announce it, then move it. */
    method Lower(i: int) returns (effects: seq<Effect>)
      requires Valid() && board != null && 0 <= i < |seats| && seats[i].figure != null
      requires Fits(seats[i].figure, Down)
      modifies seats[i].figure, board.matrix
      ensures Valid()
      ensures var f := seats[i].figure;
        effects == [ToRoom(Protocol.MoveDownMsg(old(f.Info())))] && Stepped(f, board, old(Target(f, Down)))
    {
      SeatOkAt(seats, i, board);
      var info := seats[i].figure.Info();
      effects := [ToRoom(Protocol.MoveDownMsg(info))];
      StepFigure(i, Down);
    }

    /**
     * moveAllWayDown: while the game runs, a figure that fits one row down
     * falls as far as it fits and the fall is announced; then, as in
     * moveDown, a figure that has landed is settled by handleFigureBottom.
     */
    method MoveAllWayDown(i: int, kind: int) returns (effects: seq<Effect>)
      requires Valid() && board != null && 0 <= i < |seats| && seats[i].figure != null && Initialize(kind).Ok?
      modifies this, seats[i].figure, board.matrix
      ensures Valid() && pool == old(pool) && started == old(started) && board == old(board)
      ensures var f := old(seats[i].figure); old(gameOver || (!Fits(f, Down) && !Lands(f))) ==>
        effects == [] && seats == old(seats) && gameOver == old(gameOver) && unchanged(f) && unchanged(board.matrix)
      ensures var f := old(seats[i].figure); old(!gameOver && !Fits(f, Down) && Lands(f)) ==>
        Settled(old(seats), i, old(f.Info()), old(gameOver), kind,
                old(board.Contents()), old(f.Footprint()), effects) &&
        (old(f.AllVisible()) ==> fresh(seats[i].figure))
      ensures var f := old(seats[i].figure); old(!gameOver && Fits(f, Down)) ==>
        Rectangular(old(board.Contents()), board.width) &&
        exists rest ::
          RestsAt(old(board.Contents()), board.width, f.offsets, old(f.xPos), old(f.yPos), old(f.orientation), old(f.Footprint()), rest) &&
          Landed(old(seats), i, old(f.Info()), old(gameOver), kind, old(board.Contents()), old(f.Footprint()), f.offsets, rest, effects)
    {
      if gameOver {
        effects := [];
        return;
      }
      SeatOkAt(seats, i, board);
      var ok := Fits(seats[i].figure, Down);
      if ok {
        ghost var f, g0, w := seats[i].figure, board.Contents(), board.width;
        ghost var seats0, before, fp0 := seats, f.Info(), f.Footprint();
        ghost var x, y, o := f.xPos, f.yPos, f.orientation;
        ghost var rest;
        effects, rest := FallAndLand(i, kind);
        assert RestsAt(g0, w, f.offsets, x, y, o, fp0, rest) &&
          Landed(seats0, i, before, false, kind, g0, fp0, f.offsets, rest, effects);
      } else {
        effects := Land(i, kind);
      }
    }

    /** moveAllWayDown's branch for a figure that fits one row down: the fall, then isAllWayDown. */
    method FallAndLand(i: int, kind: int) returns (effects: seq<Effect>, ghost rest: int)
      requires Valid() && board != null && 0 <= i < |seats| && seats[i].figure != null && Initialize(kind).Ok?
      requires Fits(seats[i].figure, Down)
      modifies this, seats[i].figure, board.matrix
      ensures Valid() && pool == old(pool) && started == old(started) && board == old(board)
      ensures var f := old(seats[i].figure);
        Rectangular(old(board.Contents()), board.width) &&
        RestsAt(old(board.Contents()), board.width, f.offsets, old(f.xPos), old(f.yPos), old(f.orientation), old(f.Footprint()), rest)
      ensures var f := old(seats[i].figure);
        Landed(old(seats), i, old(f.Info()), old(gameOver), kind, old(board.Contents()), old(f.Footprint()), f.offsets, rest, effects)
    {
      var f := seats[i].figure;
      ghost var seats0, gameOver0 := seats, gameOver;
      ghost var g0, fp0, before := board.Contents(), f.Footprint(), f.Info();
      var fall := Drop(i);
      rest := f.yPos;
      ghost var fallen, g1, fp1 := f.Info(), board.Contents(), f.Footprint();
      var after := LandAfterFall(i, kind);
      effects := fall + after;
      LandedAfter(seats0, i, before, gameOver0, kind, g0, fp0, f.offsets, rest, fallen, g1, fp1, fall, after);
    }

    /** isAllWayDown after the fall: settled when the figure lands where it fell to, otherwise nothing changes. */
    method LandAfterFall(i: int, kind: int) returns (effects: seq<Effect>)
      requires Valid() && board != null && 0 <= i < |seats| && seats[i].figure != null && Initialize(kind).Ok?
      modifies this, board.matrix
      ensures Valid() && pool == old(pool) && started == old(started) && board == old(board)
      ensures var f := old(seats[i].figure);
        SettledOrStays(old(seats), i, old(f.Info()), old(gameOver), kind, old(board.Contents()), old(f.Footprint()), effects)
    {
      effects := Land(i, kind);
    }

    /** A fall announced by fall and followed by isAllWayDown's outcome after is the outcome Landed states. */
    lemma LandedAfter(seats0: seq<Seat>, i: int, before: FigureInfo, gameOver0: bool, kind: int,
                      g: Grid, fp: seq<Square>, offsets: seq<Offset>, rest: int,
                      fallen: FigureInfo, g1: Grid, fp1: seq<Square>, fall: seq<Effect>, after: seq<Effect>)
      requires 0 <= i < |seats0| && rest > before.y && fallen == before.(y := rest)
      requires fall == [ToRoom(Protocol.MoveAllWayDownMsg(before, fallen))]
      requires fp1 == Cells(offsets, before.x, rest, before.rotation) && g1 == RepaintGrid(g, fp, fp1, Occupied)
      requires SettledOrStays(seats0, i, fallen, gameOver0, kind, g1, fp1, after)
      ensures Landed(seats0, i, before, gameOver0, kind, g, fp, offsets, rest, fall + after)
    {
      assert (fall + after)[1..] == after;
    }

    /**
     * The outcome of a fall that rests at row rest: the fall is announced
     * with the positions before and after, then the room either stays or
     * settles the figure on the board repainted from fp to the rest row.
     */
    ghost predicate Landed(seats0: seq<Seat>, i: int, before: FigureInfo, gameOver0: bool, kind: int,
                           g: Grid, fp: seq<Square>, offsets: seq<Offset>, rest: int, effects: seq<Effect>)
      requires 0 <= i < |seats0|
      reads this, FiguresOf(seats), if board != null then {board.matrix} else {}
    {
      var fp1 := Cells(offsets, before.x, rest, before.rotation);
      rest > before.y && |effects| >= 1 &&
      effects[0] == ToRoom(Protocol.MoveAllWayDownMsg(before, before.(y := rest))) &&
      SettledOrStays(seats0, i, before.(y := rest), gameOver0, kind, RepaintGrid(g, fp, fp1, Occupied), fp1, effects[1..])
    }

    /** After a fall the figure has the same type, column, orientation and colour, on a lower row. */
    static predicate Fallen(before: FigureInfo, after: FigureInfo)
    {
      after.kind == before.kind && after.x == before.x && after.y > before.y &&
      after.rotation == before.rotation && after.color == before.color
    }

    /**
     * isAllWayDown's outcome for the figure of seat i, standing where fallen
     * says and covering fp on the grid g: when it lands there,
     * handleFigureBottom settles it as Settled says; otherwise the room
     * stays as it was.
     */
    ghost predicate SettledOrStays(seats0: seq<Seat>, i: int, fallen: FigureInfo, gameOver0: bool, kind: int,
                                   g: Grid, fp: seq<Square>, effects: seq<Effect>)
      requires 0 <= i < |seats0|
      reads this, FiguresOf(seats), if board != null then {board.matrix} else {}
    {
      if LandsOn(g, fp) then
        Settled(seats0, i, fallen, gameOver0, kind, g, fp, effects)
      else
        effects == [] && seats == seats0 && gameOver == gameOver0 && seats[i].figure != null &&
        seats[i].figure.board == board && board != null && board.Valid() && board.Contents() == g &&
        seats[i].figure.Info() == fallen
    }

    /**
     * moveAllWayDown's fall: the figure steps down while it fits, the board
     * ends repainted as one move from the first footprint to the last, and
     * the fall is announced with the positions before and after.
     */
    method Drop(i: int) returns (effects: seq<Effect>)
      requires Valid() && board != null && 0 <= i < |seats| && seats[i].figure != null
      requires Fits(seats[i].figure, Down)
      modifies seats[i].figure, board.matrix
      ensures Valid()
      ensures var f := seats[i].figure;
        Fallen(old(f.Info()), f.Info()) && !Fits(f, Down) && Rectangular(old(board.Contents()), board.width) &&
        RestsAt(old(board.Contents()), board.width, f.offsets, f.xPos, old(f.yPos), f.orientation, old(f.Footprint()), f.yPos) &&
        effects == [ToRoom(Protocol.MoveAllWayDownMsg(old(f.Info()), f.Info()))] &&
        f.Info() == old(f.Info()).(y := f.yPos) && f.Footprint() == Cells(f.offsets, old(f.xPos), f.yPos, old(f.orientation)) &&
        board.Contents() == RepaintGrid(old(board.Contents()), old(f.Footprint()), f.Footprint(), Occupied)
    {
      var f := seats[i].figure;
      var before := f.Info();
      SeatOkAt(seats, i, board);
      ghost var w, offsets, x, o := board.width, f.offsets, f.xPos, f.orientation;
      ghost var g0, fp0, y0 := board.Contents(), f.Footprint(), f.yPos;
      FallOne(i, g0, fp0, w, offsets, x, y0, o);
      FallRest(i, before, g0, fp0, w, offsets, x, y0, o);
      RepaintedIsRepaintGrid(g0, board.Contents(), fp0, f.Footprint(), Occupied);
      effects := [ToRoom(Protocol.MoveAllWayDownMsg(before, f.Info()))];
    }

    /**
     * The loop of the fall: moveDown while canMoveDown holds; the figure
     * then rests at its row.
     */
    method FallRest(i: int, ghost before: FigureInfo, ghost g0: Grid, ghost fp0: seq<Square>, ghost w: int,
                    ghost offsets: seq<Offset>, ghost x: int, ghost y0: int, ghost o: int)
      requires Valid() && board != null && 0 <= i < |seats| && seats[i].figure != null
      requires var f := seats[i].figure;
        f.board == board && f.Valid() && Fallen(before, f.Info()) &&
        w == board.width && offsets == f.offsets && x == f.xPos && o == f.orientation && y0 < f.yPos
      requires Repainted(g0, board.Contents(), fp0, seats[i].figure.Footprint(), Occupied)
      requires EntersEmpty(g0, fp0, seats[i].figure.Footprint()) && Rectangular(g0, w)
      requires FallsThroughRows(g0, w, offsets, x, o, fp0, y0, seats[i].figure.yPos)
      modifies seats[i].figure, board.matrix
      ensures Valid() && seats[i].figure.board == board
      ensures var f := seats[i].figure;
        Fallen(before, f.Info()) && !Fits(f, Down) && f.xPos == x && f.orientation == o &&
        RestsAt(g0, w, offsets, x, y0, o, fp0, f.yPos) &&
        Repainted(g0, board.Contents(), fp0, f.Footprint(), Occupied)
    {
      var f := seats[i].figure;
      ghost var y := f.yPos;
      while Fits(f, Down)
        invariant Valid() && f == seats[i].figure && f.board == board && f.Valid()
        invariant Fallen(before, f.Info())
        invariant Repainted(g0, board.Contents(), fp0, f.Footprint(), Occupied) && EntersEmpty(g0, fp0, f.Footprint())
        invariant f.xPos == x && f.yPos == y && f.orientation == o && y0 < y
        invariant FallsThroughRows(g0, w, offsets, x, o, fp0, y0, y)
        decreases board.height - f.Footprint()[0].1
      {
        FallStep(i, g0, fp0, w, offsets, x, y0, y, o);
        y := y + 1;
      }
      FallEnds(f, g0, fp0, w, offsets, x, y0, y, o);
    }

    /** The first row of the fall, stated as one repaint that enters only empty squares. */
    method FallOne(i: int, ghost g0: Grid, ghost fp0: seq<Square>, ghost w: int, ghost offsets: seq<Offset>, ghost x: int, ghost y: int, ghost o: int)
      requires Valid() && board != null && 0 <= i < |seats| && seats[i].figure != null
      requires Fits(seats[i].figure, Down)
      requires var f := seats[i].figure;
        g0 == board.Contents() && fp0 == f.Footprint() &&
        w == board.width && offsets == f.offsets && x == f.xPos && y == f.yPos && o == f.orientation
      modifies seats[i].figure, board.matrix
      ensures Valid() && seats[i].figure.board == board && seats[i].figure.Valid()
      ensures var f := seats[i].figure; Fallen(old(f.Info()), f.Info()) && f.yPos == old(f.yPos) + 1
      ensures var f := seats[i].figure;
        Repainted(old(board.Contents()), board.Contents(), old(f.Footprint()), f.Footprint(), Occupied) &&
        EntersEmpty(old(board.Contents()), old(f.Footprint()), f.Footprint())
      ensures Rectangular(g0, w) && FallsThroughRows(g0, w, offsets, x, o, fp0, y, y + 1)
    {
      var f := seats[i].figure;
      SeatOkAt(seats, i, board);
      FallsFirst(f, g0, fp0, w, offsets, x, y, o);
      FallsThroughOneMore(g0, w, offsets, x, o, fp0, y, y);
      FitsDown(f);
      StepDown(i);
    }

    /**
     * One more row of the fall: the board stays one repaint away from the
     * grid g0 and footprint fp0 the fall started from.
     */
    method FallStep(i: int, ghost g0: Grid, ghost fp0: seq<Square>, ghost w: int, ghost offsets: seq<Offset>,
                    ghost x: int, ghost y0: int, ghost y: int, ghost o: int)
      requires Valid() && board != null && 0 <= i < |seats| && seats[i].figure != null
      requires seats[i].figure.board == board && Fits(seats[i].figure, Down)
      requires var f := seats[i].figure;
        w == board.width && offsets == f.offsets && x == f.xPos && y == f.yPos && o == f.orientation
      requires Repainted(g0, board.Contents(), fp0, seats[i].figure.Footprint(), Occupied)
      requires EntersEmpty(g0, fp0, seats[i].figure.Footprint()) && Rectangular(g0, w)
      requires y0 <= y && FallsThroughRows(g0, w, offsets, x, o, fp0, y0, y)
      modifies seats[i].figure, board.matrix
      ensures Valid() && seats[i].figure.board == board && seats[i].figure.Valid()
      ensures var f := seats[i].figure; Fallen(old(f.Info()), f.Info()) && f.yPos == old(f.yPos) + 1
      ensures var f := seats[i].figure;
        |f.Footprint()| > 0 && f.Footprint()[0].1 == old(f.Footprint()[0].1) + 1 && f.Footprint()[0].1 < board.height
      ensures var f := seats[i].figure;
        Repainted(g0, board.Contents(), fp0, f.Footprint(), Occupied) && EntersEmpty(g0, fp0, f.Footprint())
      ensures FallsThroughRows(g0, w, offsets, x, o, fp0, y0, y + 1)
    {
      var f := seats[i].figure;
      SeatOkAt(seats, i, board);
      FallGoesOn(f, g0, fp0, w, offsets, x, y0, y, o);
      ghost var g1, fp1 := board.Contents(), f.Footprint();
      FitsDown(f);
      StepDown(i);
      RepaintChain(g0, g1, board.Contents(), fp0, fp1, f.Footprint());
    }

    /** The figure moves down one row; the board is repainted from the old footprint to the new. */
    method StepDown(i: int)
      requires Valid() && board != null && 0 <= i < |seats| && seats[i].figure != null
      requires Fits(seats[i].figure, Down)
      modifies seats[i].figure, board.matrix
      ensures Valid() && seats[i].figure.board == board && seats[i].figure.Valid()
      ensures var f := seats[i].figure;
        f.xPos == old(f.xPos) && f.yPos == old(f.yPos) + 1 && f.orientation == old(f.orientation) &&
        f.color == old(f.color) && f.Footprint() == Cells(f.offsets, old(f.xPos), old(f.yPos) + 1, old(f.orientation))
      ensures var f := seats[i].figure;
        Repainted(old(board.Contents()), board.Contents(), old(f.Footprint()), f.Footprint(), Occupied)
    {
      var f := seats[i].figure;
      SeatOkAt(seats, i, board);
      ghost var g, fp := board.Contents(), f.Footprint();
      StepFigure(i, Down);
      MatrixRepainted(g, board, fp, f.Footprint());
    }

    /**
     * moveDown's branch for a figure that cannot move down: isAllWayDown
     * decides whether it is settled by handleFigureBottom or stays.
     */
    method Land(i: int, kind: int) returns (effects: seq<Effect>)
      requires Valid() && board != null && 0 <= i < |seats| && seats[i].figure != null && Initialize(kind).Ok?
      modifies this, board.matrix
      ensures Valid() && pool == old(pool) && started == old(started) && board == old(board)
      ensures var f := old(seats[i].figure);
        if old(Lands(f)) then
          Settled(old(seats), i, old(f.Info()), old(gameOver), kind,
                old(board.Contents()), old(f.Footprint()), effects) &&
          (old(f.AllVisible()) ==> fresh(seats[i].figure))
        else
          effects == [] && seats == old(seats) && gameOver == old(gameOver) && unchanged(f) && unchanged(board.matrix)
      ensures var f := old(seats[i].figure);
        SettledOrStays(old(seats), i, old(f.Info()), old(gameOver), kind, old(board.Contents()), old(f.Footprint()), effects)
    {
      effects := [];
      var f := seats[i].figure;
      SeatOkAt(seats, i, board);
      ghost var fs := FiguresOf(seats);
      ghost var seats0, gameOver0, info, g, fp := seats, gameOver, f.Info(), board.Contents(), f.Footprint();
      ghost var landed := Lands(f);
      f.LandedOnGrid();
      var down := f.IsAllWayDown();
      assert Valid() && (down == Some(true) <==> landed);
      if down == Some(true) {
        effects := HandleFigureBottom(i, kind);
        assert Settled(seats0, i, info, gameOver0, kind, g, fp, effects);
      }
    }

    /**
     * Carries out a step that fits: the figure of seat i moves (a square,
     * which never turns, excepted), the board is repainted, and the room
     * stays well kept.
     */
    method StepFigure(i: int, step: Step)
      requires Valid() && board != null && 0 <= i < |seats| && seats[i].figure != null
      requires seats[i].figure.board == board && seats[i].figure.Valid()
      requires step == Turn ==> seats[i].figure.kind != SQUARE_FIGURE
      requires var t := Target(seats[i].figure, step); seats[i].figure.CanMoveToSpec(t.0, t.1, t.2)
      modifies seats[i].figure, board.matrix
      ensures Valid()
      ensures seats[i].figure.board == board && Stepped(seats[i].figure, board, old(Target(seats[i].figure, step)))
    {
      var f := seats[i].figure;
      ghost var ss, b := seats, board;
      ghost var g := b.Contents();
      ghost var fps := FootprintsOf(ss);
      FigureCountRemoved(ss, i);
      assert Covered(g, fps);
      SeatOkAt(ss, i, b);
      assert f.Placed();
      SeatsOkIff(ss, b);
      FootprintsEach(ss);
      FigureHeldOnce(ss, i);
      Move(f, step);
      forall j | 0 <= j < |ss| ensures SeatFigureOk(ss, j, b) && FootprintsOf(ss)[j] == fps[i := f.Footprint()][j] {
        FootprintAt(ss, j);
        if j != i {
          assert old(SeatFigureOk(ss, j, b));
        }
      }
      SeatsOkIff(ss, b);
      CoveredAfterMove(g, b.Contents(), fps, i, f.Footprint());
      assert FootprintsOf(ss) == fps[i := f.Footprint()];
    }

    /**
     * handleFigureBottom's outcome for seat i of seats0, whose figure came
     * to rest where fixed says, covering fp0 on the grid g0: its squares
     * are painted FIXED and the full lines removed. If it was all visible,
     * a figure of the given type takes the seat, attached at the seat's
     * column on the cleared board and painted OCCUPIED there, and both
     * figures are announced; otherwise the game is over.
     */
    ghost predicate Settled(seats0: seq<Seat>, i: int, fixed: FigureInfo, gameOver0: bool, kind: int,
                            g0: Grid, fp0: seq<Square>, effects: seq<Effect>)
      requires 0 <= i < |seats0|
      reads this, FiguresOf(seats), if board != null then {board.matrix} else {}
    {
      board != null && board.Valid() && board.width >= 4 && Initialize(kind).Ok? &&
      |g0| == board.height && Rectangular(g0, board.width) && Clearable(Painted(g0, fp0, Fixed)) &&
      var cleared := FullLinesRemoved(Painted(g0, fp0, Fixed));
      if InSight(fp0) then
        |seats| == |seats0| && seats[i].figure != null && seats == seats0[i := seats0[i].(figure := seats[i].figure)] &&
        gameOver == gameOver0 && seats[i].figure.kind == kind && seats[i].figure.orientation == 0 &&
        seats[i].figure.color == seats0[i].color &&
        (seats[i].figure.xPos, seats[i].figure.yPos) == SpawnPosition(cleared, board.width, kind, 0, seats0[i].column) &&
        board.Contents() == Painted(cleared, seats[i].figure.Footprint(), Occupied) &&
        effects == [ToRoom(Protocol.NewFigureMsg(fixed, seats[i].figure.Info()))]
      else
        seats == seats0 && gameOver && board.Contents() == cleared && effects == [ToRoom(Protocol.GameOverMsg)]
    }

    /**
     * handleFigureBottom: the figure of seat i is fixed and the full lines
     * removed, then the game ends or the seat gets a new figure, as Settled
     * says; no line is left full.
     */
    method HandleFigureBottom(i: int, kind: int) returns (effects: seq<Effect>)
      requires Valid() && board != null && 0 <= i < |seats| && seats[i].figure != null && Initialize(kind).Ok?
      modifies this, board.matrix
      ensures Valid() && pool == old(pool) && started == old(started) && board == old(board)
      ensures forall y :: 0 <= y < board.height ==> !LineFull(board.Contents(), y)
      ensures Settled(old(seats), i, old(seats[i].figure.Info()), old(gameOver), kind,
                      old(board.Contents()), old(seats[i].figure.Footprint()), effects)
      ensures old(seats[i].figure.AllVisible()) ==> fresh(seats[i].figure)
    {
      var before := seats[i].figure.Info();
      ghost var g0 := board.Contents();
      FixAndClear(i);
      effects := Conclude(i, kind, before, g0, seats[i].figure.Footprint());
    }

    /**
     * handleFigureBottom once the figure of seat i is fixed and the board
     * cleared: the game ends, or the seat gets a new figure.
     */
    method Conclude(i: int, kind: int, fixed: FigureInfo, ghost g0: Grid, ghost fp0: seq<Square>)
      returns (effects: seq<Effect>)
      requires Valid() && board != null && 0 <= i < |seats| && seats[i].figure != null && Initialize(kind).Ok?
      requires Covered(board.Contents(), FootprintsOf(seats)[i := []])
      requires forall y :: 0 <= y < board.height ==> !LineFull(board.Contents(), y)
      requires |g0| == board.height && Rectangular(g0, board.width) && Clearable(Painted(g0, fp0, Fixed))
      requires board.Contents() == FullLinesRemoved(Painted(g0, fp0, Fixed)) && fp0 == seats[i].figure.Footprint()
      modifies this, board.matrix
      ensures Valid() && pool == old(pool) && started == old(started) && board == old(board)
      ensures forall y :: 0 <= y < board.height ==> !LineFull(board.Contents(), y)
      ensures Settled(old(seats), i, fixed, old(gameOver), kind, g0, fp0, effects)
      ensures old(seats[i].figure.AllVisible()) ==> fresh(seats[i].figure)
    {
      SeatOkAt(seats, i, board);
      ghost var fs := FiguresOf(seats);
      var visible := seats[i].figure.IsAllVisible();
      assert Valid();
      if !visible {
        gameOver := true;
        effects := [ToRoom(Protocol.GameOverMsg)];
      } else {
        effects := Renew(i, kind, fixed);
      }
    }

    /**
     * The second half of handleFigureBottom when the fixed figure was in
     * sight: seat i gets a new figure, announced with the fixed one.
     */
    method Renew(i: int, kind: int, fixed: FigureInfo) returns (effects: seq<Effect>)
      requires Valid() && board != null && 0 <= i < |seats| && seats[i].figure != null && Initialize(kind).Ok?
      requires Covered(board.Contents(), FootprintsOf(seats)[i := []])
      requires forall y :: 0 <= y < board.height ==> !LineFull(board.Contents(), y)
      modifies this, board.matrix
      ensures Valid() && pool == old(pool) && started == old(started) && board == old(board)
      ensures forall y :: 0 <= y < board.height ==> !LineFull(board.Contents(), y)
      ensures |seats| == |old(seats)| && seats[i].figure != null && fresh(seats[i].figure)
      ensures seats == old(seats)[i := old(seats[i]).(figure := seats[i].figure)] && gameOver == old(gameOver)
      ensures seats[i].figure.kind == kind && seats[i].figure.orientation == 0 && seats[i].figure.color == old(seats[i].color)
      ensures (seats[i].figure.xPos, seats[i].figure.yPos) == old(SpawnPosition(board.Contents(), board.width, kind, 0, seats[i].column))
      ensures board.Contents() == Painted(old(board.Contents()), seats[i].figure.Footprint(), Occupied)
      ensures effects == [ToRoom(Protocol.NewFigureMsg(fixed, seats[i].figure.Info()))]
    {
      ghost var h := board.Contents();
      var fig := Respawn(i, kind);
      ghost var h' := board.Contents();
      forall y, x ensures RepaintedAt(h, h', [], fig.Footprint(), Occupied, y, x) {
        if 0 <= y < |h| && 0 <= x < |h[y]| {
          assert board.InBounds(x, y);
        }
      }
      FillKeepsRowsOpen(h, h', fig.Footprint());
      board.SameContents(Painted(h, fig.Footprint(), Occupied));
      effects := [ToRoom(Protocol.NewFigureMsg(fixed, fig.Info()))];
    }

    /**
     * The first half of handleFigureBottom: the figure of seat i is fixed
     * where it stands and the full lines are removed. The figure keeps its
     * seat, but none of its squares is OCCUPIED any more.
     */
    method FixAndClear(i: int)
      requires Valid() && board != null && 0 <= i < |seats| && seats[i].figure != null
      modifies board.matrix
      ensures Valid()
      ensures forall y :: 0 <= y < board.height ==> !LineFull(board.Contents(), y)
      ensures Covered(board.Contents(), FootprintsOf(seats)[i := []])
      ensures var p := Painted(old(board.Contents()), seats[i].figure.Footprint(), Fixed);
        Clearable(p) && board.Contents() == FullLinesRemoved(p)
    {
      ghost var fps := FootprintsOf(seats)[i := []];
      ghost var fs := FiguresOf(seats);
      FixSeat(i);
      ClearLines(i);
    }

    /** figure.fix() for the figure of seat i: its squares become FIXED. */
    method FixSeat(i: int)
      requires Valid() && board != null && 0 <= i < |seats| && seats[i].figure != null
      modifies board.matrix
      ensures Valid()
      ensures board.Contents() == Painted(old(board.Contents()), seats[i].figure.Footprint(), Fixed)
      ensures Covered(board.Contents(), FootprintsOf(seats)[i := []])
    {
      var f := seats[i].figure;
      ghost var ss, b := seats, board;
      ghost var fps := FootprintsOf(ss);
      ghost var fs := FiguresOf(ss);
      SeatOkAt(ss, i, b);
      FigureCountRemoved(ss, i);
      FootprintAt(ss, i);
      ghost var g := b.Contents();
      assert Covered(g, fps);
      f.Fix();
      assert SeatsOk(ss, b) && FootprintsOf(ss) == fps;
      CoveredAfterFix(g, fps, i);
    }

    /** figure.clear() for the figure of seat i: its squares become EMPTY. */
    method ClearSeat(i: int)
      requires Valid() && board != null && 0 <= i < |seats| && seats[i].figure != null
      modifies board.matrix
      ensures Valid()
      ensures forall y, x :: board.InBounds(x, y) ==>
        board.matrix[y, x] == if (x, y) in seats[i].figure.Footprint() then Empty else old(board.matrix[y, x])
      ensures Covered(board.Contents(), FootprintsOf(seats)[i := []])
    {
      var f := seats[i].figure;
      ghost var ss, b := seats, board;
      ghost var fps := FootprintsOf(ss);
      ghost var fs := FiguresOf(ss);
      SeatOkAt(ss, i, b);
      FigureCountRemoved(ss, i);
      FootprintAt(ss, i);
      ghost var g := b.Contents();
      assert Covered(g, fps);
      f.Clear();
      assert SeatsOk(ss, b) && FootprintsOf(ss) == fps;
      ghost var h := b.Contents();
      forall y, x ensures RepaintedAt(g, h, fps[i], fps[i], Empty, y, x) {
        if 0 <= y < |g| && 0 <= x < |g[y]| {
          assert b.InBounds(x, y);
        }
      }
      CoveredAfterVacate(g, h, fps, i, Empty, fps[i]);
      CoveredAfterVacate(g, h, fps, i, Empty, []);
      assert fps[i := fps[i]] == fps;
    }

    /**
     * removeFullLines on the room's board: no line is left full and the
     * OCCUPIED cells, every one of them some seated figure's, stay put.
     */
    method ClearLines(i: int)
      requires Valid() && board != null && 0 <= i < |seats| && seats[i].figure != null
      requires Covered(board.Contents(), FootprintsOf(seats)[i := []])
      modifies board.matrix
      ensures Valid()
      ensures forall y :: 0 <= y < board.height ==> !LineFull(board.Contents(), y)
      ensures SameOccupied(old(board.Contents()), board.Contents())
      ensures Clearable(old(board.Contents())) && board.Contents() == FullLinesRemoved(old(board.Contents()))
      ensures Covered(board.Contents(), FootprintsOf(seats)[i := []])
    {
      ghost var ss, b := seats, board;
      ghost var fps := FootprintsOf(ss);
      ghost var fs := FiguresOf(ss);
      ghost var g := b.Contents();
      RoomFreeColumn(ss, b, i);
      board.RemoveFullLines();
      assert SeatsOk(ss, b) && FootprintsOf(ss) == fps;
      CoveredSameOccupied(g, b.Contents(), fps);
      CoveredSameOccupied(g, b.Contents(), fps[i := []]);
    }

    /**
     * The second half of handleFigureBottom, newFigure: a fresh figure of
     * the given type is attached at the seat's column in the seat's colour
     * and takes the place of the seat's old figure.
     */
    method Respawn(i: int, kind: int) returns (fig: ServerFigure)
      requires Valid() && board != null && 0 <= i < |seats| && seats[i].figure != null && Initialize(kind).Ok?
      requires Covered(board.Contents(), FootprintsOf(seats)[i := []])
      modifies this, board.matrix
      ensures Valid() && Keeps(old(seats)[i := old(seats[i]).(figure := fig)], old(pool), old(started), old(gameOver), old(board))
      ensures fresh(fig) && fig.kind == kind && fig.orientation == 0 && fig.color == old(seats[i].color)
      ensures (fig.xPos, fig.yPos) == old(SpawnPosition(board.Contents(), board.width, kind, 0, seats[i].column))
      ensures forall y, x :: board.InBounds(x, y) ==>
        board.matrix[y, x] == if (x, y) in fig.Footprint() then Occupied else old(board.matrix[y, x])
    {
      var ss, b := seats, board;
      fig := PlaceFigure(i, kind);
      var ss' := ss[i := ss[i].(figure := fig)];
      RoomReplaced(ss, i, fig, b);
      ghost var fs' := FiguresOf(ss');
      seats := ss';
      assert seats == ss';
    }

    /**
     * newFigure's attach for seat i, before the seat takes the figure: the
     * new figure's squares are OCCUPIED and the seats are as they were.
     */
    method PlaceFigure(i: int, kind: int) returns (fig: ServerFigure)
      requires Valid() && board != null && 0 <= i < |seats| && seats[i].figure != null && Initialize(kind).Ok?
      requires Covered(board.Contents(), FootprintsOf(seats)[i := []])
      modifies board.matrix
      ensures SeatsOk(seats, board) && board.Valid() && board.width >= 4 && 4 * FigureCount(seats) < board.width
      ensures fresh(fig) && FigureOk(fig, board)
      ensures fig.kind == kind && fig.orientation == 0 && fig.color == seats[i].color
      ensures (fig.xPos, fig.yPos) == old(SpawnPosition(board.Contents(), board.width, kind, 0, seats[i].column))
      ensures forall y, x :: board.InBounds(x, y) ==>
        board.matrix[y, x] == if (x, y) in fig.Footprint() then Occupied else old(board.matrix[y, x])
      ensures Covered(board.Contents(), FootprintsOf(seats)[i := fig.Footprint()])
    {
      ghost var ss, b := seats, board;
      ghost var fps := FootprintsOf(ss)[i := []];
      ghost var fs := FiguresOf(ss);
      ghost var g := b.Contents();
      fig := NewFigure(board, kind, seats[i].column, seats[i].color);
      assert SeatsOk(ss, b) && FootprintsOf(ss)[i := []] == fps;
      ghost var h := b.Contents();
      forall y, x ensures RepaintedAt(g, h, fps[i], fig.Footprint(), Occupied, y, x) {
        if 0 <= y < |g| && 0 <= x < |g[y]| {
          assert b.InBounds(x, y);
        }
      }
      CoveredAfterMove(g, h, fps, i, fig.Footprint());
      assert fps[i := fig.Footprint()] == FootprintsOf(ss)[i := fig.Footprint()];
    }

    /** Clears the figure of seat i off the board and gives up the seat. */
    method Vacate(i: int)
      requires Valid() && board != null && 0 <= i < |seats| && seats[i].figure != null
      modifies this, board.matrix
      ensures Valid()
      ensures Keeps(old(Without(seats, i)), old(pool), old(started), old(gameOver), old(board))
      ensures forall y, x :: board.InBounds(x, y) ==>
        board.matrix[y, x] == if (x, y) in old(seats[i].figure.Footprint()) then Empty else old(board.matrix[y, x])
    {
      ghost var ss, b := seats, board;
      ClearSeat(i);
      ghost var r := Without(ss, i);
      RoomWithout(ss, i, b);
      ghost var fs := FiguresOf(r);
      seats := Without(seats, i);
      assert seats == r;
    }
  }

  /** The reported positions of the seats' figures, in seat order. */
  function FigureInfos(ss: seq<Seat>): (infos: seq<FigureInfo>)
    requires FigureCount(ss) == |ss|
    reads FiguresOf(ss)
    ensures |infos| == |ss|
    decreases |ss|
  {
    if |ss| == 0 then []
    else
      var n := |ss| - 1;
      assert ss[n].figure in FiguresOf(ss);
      FiguresSubset(ss, n);
      FigureInfos(ss[..n]) + [ss[n].figure.Info()]
  }

  /** The figures of a prefix are figures of the whole. */
  lemma FiguresSubset(ss: seq<Seat>, n: int)
    requires 0 <= n <= |ss|
    ensures FiguresOf(ss[..n]) <= FiguresOf(ss)
  {
    forall f | f in FiguresOf(ss[..n]) ensures f in FiguresOf(ss) {
      var j :| 0 <= j < n && ss[..n][j].figure == f;
      assert ss[j] == ss[..n][j];
    }
  }

  /** Appending a seated figure appends its position to the reported ones. */
  lemma FigureInfosAppended(ss: seq<Seat>, s: Seat)
    requires FigureCount(ss) == |ss| && s.figure != null
    ensures FigureCount(ss + [s]) == |ss + [s]|
    ensures FigureInfos(ss + [s]) == FigureInfos(ss) + [s.figure.Info()]
  {
    assert (ss + [s])[..|ss|] == ss;
  }

  /** An all-EMPTY grid of h rows of w cells: a new board's contents. */
  function EmptyGrid(w: nat, h: nat): (g: Grid)
    ensures |g| == h && Rectangular(g, w)
    ensures forall y, x :: 0 <= y < h && 0 <= x < w ==> g[y][x] == Empty
  {
    seq(h, _ => seq(w, _ => Empty))
  }

  /** The squares a reported figure covers. */
  function InfoSquares(info: FigureInfo): seq<Square>
    requires Initialize(info.kind).Ok?
  {
    Cells(OffsetsOf(info.kind), info.x, info.y, info.rotation)
  }

  /** Every reported figure has a type from the shape table. */
  predicate KnownKinds(infos: seq<FigureInfo>)
  {
    forall j :: 0 <= j < |infos| ==> Initialize(infos[j].kind).Ok?
  }

  /** The squares of each reported figure, in seat order. */
  function InfosSquares(infos: seq<FigureInfo>): (fps: seq<seq<Square>>)
    requires KnownKinds(infos)
    ensures |fps| == |infos| && forall j :: 0 <= j < |infos| ==> fps[j] == InfoSquares(infos[j])
  {
    seq(|infos|, j requires 0 <= j < |infos| => InfoSquares(infos[j]))
  }

  /**
   * The board gameStart builds: an all-EMPTY board w columns wide and 20
   * rows high with the squares of the reported figures OCCUPIED.
   */
  function StartGrid(w: nat, infos: seq<FigureInfo>): (g: Grid)
    requires KnownKinds(infos)
    ensures |g| == BOARD_HEIGHT && Rectangular(g, w)
  {
    PaintedAll(EmptyGrid(w, BOARD_HEIGHT), InfosSquares(infos))
  }

  /** On gameStart's board a cell is OCCUPIED exactly when some reported figure covers it, and EMPTY otherwise. */
  lemma StartGridCells(w: nat, infos: seq<FigureInfo>)
    requires KnownKinds(infos)
    ensures forall y, x :: 0 <= y < BOARD_HEIGHT && 0 <= x < w ==>
      StartGrid(w, infos)[y][x] == if InSome(InfosSquares(infos), (x, y)) then Occupied else Empty
  {
    forall y, x | 0 <= y < BOARD_HEIGHT && 0 <= x < w
      ensures StartGrid(w, infos)[y][x] == if InSome(InfosSquares(infos), (x, y)) then Occupied else Empty
    {
      PaintedAllCell(EmptyGrid(w, BOARD_HEIGHT), InfosSquares(infos), y, x);
    }
  }

  /** Seating one more figure paints its squares onto the board seated so far. */
  lemma StartGridAppended(w: nat, infos: seq<FigureInfo>, info: FigureInfo)
    requires KnownKinds(infos) && Initialize(info.kind).Ok?
    ensures KnownKinds(infos + [info])
    ensures StartGrid(w, infos + [info]) == Painted(StartGrid(w, infos), InfoSquares(info), Occupied)
  {
    var fps := InfosSquares(infos + [info]);
    assert fps[..|infos|] == InfosSquares(infos);
  }

  /** The reported figure stands where newFigure puts a figure of its type at column x and orientation 0 on the grid g. */
  predicate SpawnedOn(g: Grid, w: int, info: FigureInfo, x: int)
  {
    Rectangular(g, w) && w >= 4 && Initialize(info.kind).Ok? && info.rotation == 0 &&
    (info.x, info.y) == SpawnPosition(g, w, info.kind, 0, x)
  }

  /** newFigure on the grid g: the figure spawns at column x, and h is g with its squares OCCUPIED. */
  predicate SeatedOn(g: Grid, h: Grid, w: int, info: FigureInfo, x: int)
  {
    SpawnedOn(g, w, info, x) && h == Painted(g, InfoSquares(info), Occupied)
  }

  /**
   * Reported figure j stands where newFigure puts a figure of its type at
   * spawn column 3 + 4j and orientation 0, on the board painted with the
   * figures before it.
   */
  predicate SpawnedAt(w: nat, infos: seq<FigureInfo>, j: int)
    requires 0 <= j < |infos|
  {
    w >= 4 && KnownKinds(infos[..j + 1]) &&
    (infos[j].x, infos[j].y) == SpawnPosition(StartGrid(w, infos[..j]), w, infos[j].kind, 0, SpawnColumn(j))
  }

  /**
   * Seat k after gameStart: the player's name and colour, spawn column
   * 3 + 4k, and a figure reported with the given type, orientation 0 and
   * the player's colour.
   */
  predicate Seated(before: Seat, after: Seat, k: int, kind: int, info: FigureInfo)
  {
    after.name == before.name && after.color == before.color && after.column == SpawnColumn(k) &&
    after.figure != null && info.kind == kind && info.rotation == 0 && info.color == before.color
  }

  /** The seats placed so far are the first players, each as Seated says with its reported figure. */
  predicate SeatedUpTo(ss: seq<Seat>, kinds: seq<int>, placed: seq<Seat>, infos: seq<FigureInfo>)
  {
    |placed| == |infos| <= |ss| && |ss| <= |kinds| &&
    forall j :: 0 <= j < |placed| ==> Seated(ss[j], placed[j], j, kinds[j], infos[j])
  }

  /** Every reported figure stands where newFigure put it, as SpawnedAt says. */
  predicate AllSpawned(w: nat, infos: seq<FigureInfo>)
  {
    forall j :: 0 <= j < |infos| ==> SpawnedAt(w, infos, j)
  }

  /** One round of gameStart's loop: the next seat gets its column and its figure. */
  method SeatNext(b: SquareBoard, ss: seq<Seat>, kinds: seq<int>, placed: seq<Seat>, figures: seq<FigureInfo>)
    returns (placed': seq<Seat>, figures': seq<FigureInfo>)
    requires b.Valid() && b.width == BoardWidth(|ss|) && b.height == BOARD_HEIGHT
    requires AllApart(ss) && |kinds| == |ss| && forall k :: 0 <= k < |kinds| ==> Initialize(kinds[k]).Ok?
    requires |placed| == |figures| < |ss|
    requires SeatsOk(placed, b) && Covered(b.Contents(), FootprintsOf(placed)) && FigureCount(placed) == |placed|
    requires SeatedUpTo(ss, kinds, placed, figures)
    requires figures == FigureInfos(placed)
    modifies b.matrix
    ensures |placed'| == |figures'| == |placed| + 1 && figures' == figures + [figures'[|figures|]]
    ensures SeatsOk(placed', b) && Covered(b.Contents(), FootprintsOf(placed')) && FigureCount(placed') == |placed'|
    ensures SeatedUpTo(ss, kinds, placed', figures')
    ensures figures' == FigureInfos(placed')
    ensures SeatedOn(old(b.Contents()), b.Contents(), b.width, figures'[|figures|], SpawnColumn(|figures|))
  {
    var k := |placed|;
    var s := ss[k].(column := SpawnColumn(k));
    NamesApart(ss, kinds, placed, figures, s);
    ghost var g := b.Contents();
    var fig := SeatNewFigure(b, placed, s, kinds[k], g);
    assert figures == FigureInfos(placed);
    FigureInfosAppended(placed, s.(figure := fig));
    var info := fig.Info();
    SeatedAppended(ss, kinds, placed, figures, s.(figure := fig), info);
    placed', figures' := placed + [s.(figure := fig)], figures + [info];
  }

  /**
   * One round of gameStart's loop on values: a figure spawned on the board
   * g seated so far, and painted onto it giving h, keeps every figure
   * spawned, and h is the start board with that figure.
   */
  lemma StartSeated(w: nat, figures: seq<FigureInfo>, info: FigureInfo, g: Grid, h: Grid)
    requires w >= 4 && KnownKinds(figures) && AllSpawned(w, figures) && Initialize(info.kind).Ok?
    requires g == StartGrid(w, figures) && SeatedOn(g, h, w, info, SpawnColumn(|figures|))
    ensures KnownKinds(figures + [info]) && AllSpawned(w, figures + [info]) && h == StartGrid(w, figures + [info])
  {
    StartGridAppended(w, figures, info);
    AllSpawnedAppended(w, figures, info);
  }

  /** A seat taking the next player's name has a name no seat placed so far has. */
  lemma NamesApart(ss: seq<Seat>, kinds: seq<int>, placed: seq<Seat>, figures: seq<FigureInfo>, s: Seat)
    requires AllApart(ss) && |placed| == |figures| < |ss| <= |kinds| && s.name == ss[|placed|].name
    requires forall j :: 0 <= j < |placed| ==> Seated(ss[j], placed[j], j, kinds[j], figures[j])
    ensures forall j :: 0 <= j < |placed| ==> placed[j].name != s.name
  {
    forall j | 0 <= j < |placed| ensures placed[j].name != s.name {
      assert Apart(ss, j, |placed|) && Seated(ss[j], placed[j], j, kinds[j], figures[j]);
    }
  }

  /** The seats placed so far, with one more placed as Seated says, are as Seated says. */
  lemma SeatedAppended(ss: seq<Seat>, kinds: seq<int>, placed: seq<Seat>, figures: seq<FigureInfo>, s: Seat, info: FigureInfo)
    requires |placed| == |figures| < |ss| <= |kinds|
    requires SeatedUpTo(ss, kinds, placed, figures)
    requires Seated(ss[|placed|], s, |placed|, kinds[|placed|], info)
    ensures SeatedUpTo(ss, kinds, placed + [s], figures + [info])
  {
  }

  /** Spawning one more figure on the board seated so far keeps every figure spawned. */
  lemma AllSpawnedAppended(w: nat, figures: seq<FigureInfo>, info: FigureInfo)
    requires w >= 4 && KnownKinds(figures) && Initialize(info.kind).Ok? && AllSpawned(w, figures)
    requires (info.x, info.y) == SpawnPosition(StartGrid(w, figures), w, info.kind, 0, SpawnColumn(|figures|))
    ensures AllSpawned(w, figures + [info])
  {
    var all := figures + [info];
    forall j | 0 <= j < |all| ensures SpawnedAt(w, all, j) {
      if j < |figures| {
        SpawnedKept(w, figures, info, j);
      } else {
        SpawnedLast(w, figures, info);
      }
    }
  }

  /** A figure spawned before the last one keeps its SpawnedAt standing. */
  lemma SpawnedKept(w: nat, figures: seq<FigureInfo>, info: FigureInfo, j: int)
    requires 0 <= j < |figures| && SpawnedAt(w, figures, j)
    ensures SpawnedAt(w, figures + [info], j)
  {
    var all := figures + [info];
    assert all[..j] == figures[..j] && all[..j + 1] == figures[..j + 1];
  }

  /** The last figure stands where newFigure put it on the board seated so far. */
  lemma SpawnedLast(w: nat, figures: seq<FigureInfo>, info: FigureInfo)
    requires w >= 4 && KnownKinds(figures) && Initialize(info.kind).Ok?
    requires (info.x, info.y) == SpawnPosition(StartGrid(w, figures), w, info.kind, 0, SpawnColumn(|figures|))
    ensures SpawnedAt(w, figures + [info], |figures|)
  {
    var all := figures + [info];
    assert all[..|figures|] == figures && all[..|figures| + 1] == all;
  }

  /**
   * gameStart's loop over the players: in seat order each seat gets spawn
   * column 3 + 4k and a new figure, and the figure's position is reported.
   */
  method SeatAll(b: SquareBoard, ss: seq<Seat>, kinds: seq<int>) returns (placed: seq<Seat>, figures: seq<FigureInfo>)
    requires b.Valid() && b.width == BoardWidth(|ss|) && b.height == BOARD_HEIGHT
    requires b.Contents() == EmptyGrid(b.width, BOARD_HEIGHT)
    requires AllApart(ss) && |kinds| == |ss| && forall k :: 0 <= k < |kinds| ==> Initialize(kinds[k]).Ok?
    modifies b.matrix
    ensures |placed| == |ss| && |figures| == |ss| && RoomOk(placed, b) && FigureCount(placed) == |ss|
    ensures SeatedUpTo(ss, kinds, placed, figures) && figures == FigureInfos(placed)
    ensures KnownKinds(figures) && AllSpawned(b.width, figures) && b.Contents() == StartGrid(b.width, figures)
  {
    NothingCovered(b);
    placed, figures := [], [];
    var k := 0;
    while k < |ss|
      invariant 0 <= k <= |ss| && |placed| == k
      invariant b.Valid() && b.width == BoardWidth(|ss|) && b.height == BOARD_HEIGHT
      invariant SeatsOk(placed, b) && Covered(b.Contents(), FootprintsOf(placed)) && FigureCount(placed) == k
      invariant SeatedUpTo(ss, kinds, placed, figures) && figures == FigureInfos(placed)
      invariant KnownKinds(figures) && AllSpawned(b.width, figures) && b.Contents() == StartGrid(b.width, figures)
    {
      ghost var g, figures0 := b.Contents(), figures;
      placed, figures := SeatNext(b, ss, kinds, placed, figures);
      StartSeated(b.width, figures0, figures[k], g, b.Contents());
      k := k + 1;
    }
  }

  /** A board with no OCCUPIED cell is covered by no footprints at all. */
  lemma NothingCovered(b: SquareBoard)
    requires b.Valid() && b.width >= 0 && b.Contents() == EmptyGrid(b.width, b.height)
    ensures Covered(b.Contents(), [])
  {
    var g := b.Contents();
    forall y, x ensures CellCovered(g, [], y, x) {
      if 0 <= y < |g| && 0 <= x < |g[y]| {
        assert g[y][x] == Empty;
      }
    }
  }

  /** A board whose every cell is EMPTY holds the all-EMPTY grid. */
  lemma AllEmpty(b: SquareBoard)
    requires b.Valid() && b.width >= 0 && forall y, x :: 0 <= y < b.height && 0 <= x < b.width ==> b.matrix[y, x] == Empty
    ensures b.Contents() == EmptyGrid(b.width, b.height)
  {
    var g, e := b.Contents(), EmptyGrid(b.width, b.height);
    forall y | 0 <= y < b.height ensures g[y] == e[y] {
    }
  }

  /**
   * newFigure for a seat joining well-kept seats at gameStart: the figure
   * is attached at the seat's column in its colour, and the seats with the
   * new one appended are well kept on the repainted board.
   */
  method SeatNewFigure(b: SquareBoard, ss: seq<Seat>, s: Seat, kind: int, ghost g: Grid) returns (fig: ServerFigure)
    requires SeatsOk(ss, b) && b.Valid() && b.width >= 4 && b.height == BOARD_HEIGHT && g == b.Contents()
    requires 4 * (FigureCount(ss) + 1) < b.width && Covered(b.Contents(), FootprintsOf(ss))
    requires (forall j :: 0 <= j < |ss| ==> ss[j].name != s.name) && Initialize(kind).Ok?
    modifies b.matrix
    ensures fresh(fig) && fig.kind == kind && fig.orientation == 0 && fig.color == s.color
    ensures SeatsOk(ss + [s.(figure := fig)], b) && FigureCount(ss + [s.(figure := fig)]) == FigureCount(ss) + 1
    ensures Covered(b.Contents(), FootprintsOf(ss + [s.(figure := fig)]))
    ensures unchanged(FiguresOf(ss))
    ensures SeatedOn(g, b.Contents(), b.width, fig.Info(), s.column)
  {
    ghost var fps, fs := FootprintsOf(ss), FiguresOf(ss);
    fig := AttachNew(b, kind, s.column, s.color, g);
    ghost var h, fp := b.Contents(), fig.Footprint();
    CoveredJoined(g, h, fps, fp);
    assert SeatsOk(ss, b) && FootprintsOf(ss) == fps;
    SeatFigureAppended(ss, s.(figure := fig), b);
  }

  /** NewFigure, with the board's change stated as a repaint that takes no squares away. */
  method AttachNew(b: SquareBoard, kind: int, column: int, color: int, ghost g: Grid) returns (fig: ServerFigure)
    requires b.Valid() && b.width >= 4 && Initialize(kind).Ok? && g == b.Contents()
    modifies b.matrix
    ensures fresh(fig) && fig.Valid() && fig.board == b && fig.Placed()
    ensures fig.kind == kind && fig.orientation == 0 && fig.color == color
    ensures (fig.xPos, fig.yPos) == old(SpawnPosition(b.Contents(), b.width, kind, 0, column))
    ensures Repainted(old(b.Contents()), b.Contents(), [], fig.Footprint(), Occupied)
    ensures SeatedOn(g, b.Contents(), b.width, fig.Info(), column)
  {
    fig := NewFigure(b, kind, column, color);
    MatrixRepainted(g, b, [], fig.Footprint());
    RepaintedIsPainted(g, b.Contents(), fig.Footprint(), Occupied);
  }

  /** Covered grids stay covered when a new footprint is painted in and joins the footprints. */
  lemma CoveredJoined(g: Grid, h: Grid, fps: seq<seq<Square>>, fp: seq<Square>)
    requires Covered(g, fps) && Repainted(g, h, [], fp, Occupied)
    ensures Covered(h, fps + [fp])
  {
    CoveredAppend(g, fps, []);
    CoveredAfterMove(g, h, fps + [[]], |fps|, fp);
    assert (fps + [[]])[|fps| := fp] == fps + [fp];
  }

  /** A seat whose new figure no seat holds joins well-kept seats. */
  lemma SeatFigureAppended(ss: seq<Seat>, s: Seat, b: SquareBoard)
    requires SeatsOk(ss, b) && s.figure != null && FigureOk(s.figure, b)
    requires forall j :: 0 <= j < |ss| ==> ss[j].name != s.name && ss[j].figure != s.figure
    ensures SeatsOk(ss + [s], b) && FigureCount(ss + [s]) == FigureCount(ss) + 1
    ensures FootprintsOf(ss + [s]) == FootprintsOf(ss) + [s.figure.Footprint()]
  {
    var ss' := ss + [s];
    assert ss'[..|ss|] == ss;
    assert SeatOk(ss', |ss|, b);
  }

  /** A shuffle of the eight colours has eight entries. */
  lemma EightColors(shuffled: seq<int>)
    requires multiset(shuffled) == multiset(COLORS)
    ensures |shuffled| == 8
  {
    assert |shuffled| == |multiset(shuffled)| == |multiset(COLORS)| == |COLORS|;
  }

  /** Taking the first colour of the pool moves it to the seats' colours. */
  lemma ColorTaken(pool: seq<int>, cs: seq<int>)
    requires |pool| > 0
    ensures multiset(pool[1..]) + multiset(cs + [pool[0]]) == multiset(pool) + multiset(cs)
  {
    assert pool == [pool[0]] + pool[1..];
  }

  /** Handing a seat's colour back to the pool keeps the colours partitioned. */
  lemma ColorReturned(pool: seq<int>, ss: seq<Seat>, i: int)
    requires 0 <= i < |ss|
    ensures multiset(pool + [ss[i].color]) + multiset(SeatColors(ss[..i] + ss[i + 1..])) ==
      multiset(pool) + multiset(SeatColors(ss))
  {
    var cs := SeatColors(ss);
    assert SeatColors(ss[..i] + ss[i + 1..]) == cs[..i] + cs[i + 1..];
    assert cs == cs[..i] + [cs[i]] + cs[i + 1..];
  }

  /** A seat without a figure, under a new name, can be added at the end. */
  lemma SeatAppended(ss: seq<Seat>, s: Seat, b: SquareBoard?)
    requires RoomOk(ss, b)
    requires s.figure == null && forall j :: 0 <= j < |ss| ==> ss[j].name != s.name
    ensures RoomOk(ss + [s], b)
  {
    var ss' := ss + [s];
    FiguresAppended(ss, s);
    assert ss'[..|ss|] == ss;
    assert SeatOk(ss', |ss|, b);
    if b != null {
      if FigureCount(ss) > 0 {
        CoveredAppend(b.Contents(), FootprintsOf(ss), []);
      }
      assert BoardOk(ss', b);
    }
  }

  /** A seat without a figure brings no figure along. */
  lemma FiguresAppended(ss: seq<Seat>, s: Seat)
    requires s.figure == null
    ensures FiguresOf(ss + [s]) == FiguresOf(ss)
  {
    var ss' := ss + [s];
    forall f | f in FiguresOf(ss') ensures f in FiguresOf(ss) {
      var i :| 0 <= i < |ss'| && ss'[i].figure != null && ss'[i].figure == f;
      assert ss[i] == ss'[i];
    }
    forall f | f in FiguresOf(ss) ensures f in FiguresOf(ss') {
      var i :| 0 <= i < |ss| && ss[i].figure != null && ss[i].figure == f;
      assert ss'[i] == ss[i];
    }
  }

  /** Seats j and k have different names, and different figures if k has one. */
  predicate Apart(ss: seq<Seat>, j: int, k: int)
    requires 0 <= j < |ss| && 0 <= k < |ss|
  {
    ss[j].name != ss[k].name && (ss[k].figure != null ==> ss[j].figure != ss[k].figure)
  }

  /** Every earlier seat is apart from every later one. */
  predicate AllApart(ss: seq<Seat>)
  {
    forall j, k :: 0 <= j < k < |ss| ==> Apart(ss, j, k)
  }

  /** Seat j's figure, if any, is attached to the board. */
  ghost predicate SeatFigureOk(ss: seq<Seat>, j: int, b: SquareBoard?)
    requires 0 <= j < |ss|
    reads if ss[j].figure != null then {ss[j].figure} else {}
  {
    ss[j].figure != null ==> FigureOk(ss[j].figure, b)
  }

  /** Every seat's figure is attached to the board. */
  ghost predicate AllFiguresOk(ss: seq<Seat>, b: SquareBoard?)
    reads FiguresOf(ss)
  {
    forall j :: 0 <= j < |ss| ==> SeatFigureOk(ss, j, b)
  }

  /** SeatsOk, seat by seat. */
  lemma {:induction false} SeatsOkIff(ss: seq<Seat>, b: SquareBoard?)
    ensures SeatsOk(ss, b) <==> AllApart(ss) && AllFiguresOk(ss, b)
    decreases |ss|
  {
    if |ss| > 0 {
      var n := |ss| - 1;
      var p := ss[..n];
      SeatsOkIff(p, b);
      assert forall j :: 0 <= j < n ==> p[j] == ss[j];
      assert AllApart(ss) <==> AllApart(p) && forall j :: 0 <= j < n ==> Apart(ss, j, n) by {
        if AllApart(p) && forall j :: 0 <= j < n ==> Apart(ss, j, n) {
          forall j, k | 0 <= j < k < |ss| ensures Apart(ss, j, k) {
            if k < n {
              assert Apart(p, j, k);
            }
          }
        }
        if AllApart(ss) {
          forall j, k | 0 <= j < k < n ensures Apart(p, j, k) {
            assert Apart(ss, j, k);
          }
        }
      }
      assert AllFiguresOk(ss, b) <==> AllFiguresOk(p, b) && SeatFigureOk(ss, n, b) by {
        if AllFiguresOk(p, b) && SeatFigureOk(ss, n, b) {
          forall j | 0 <= j < |ss| ensures SeatFigureOk(ss, j, b) {
            if j < n {
              assert SeatFigureOk(p, j, b);
            }
          }
        }
        if AllFiguresOk(ss, b) {
          forall j | 0 <= j < n ensures SeatFigureOk(p, j, b) {
            assert SeatFigureOk(ss, j, b);
          }
        }
      }
      assert SeatOk(ss, n, b) <==> (forall j :: 0 <= j < n ==> Apart(ss, j, n)) && SeatFigureOk(ss, n, b) by {
        if forall j :: 0 <= j < n ==> Apart(ss, j, n) {
          forall j | 0 <= j < n
            ensures ss[j].name != ss[n].name && (ss[n].figure != null ==> ss[j].figure != ss[n].figure)
          {
            assert Apart(ss, j, n);
          }
        }
      }
    }
  }

  /** Each seat of well-kept seats is as SeatOk says. */
  lemma {:induction false} SeatOkAt(ss: seq<Seat>, i: int, b: SquareBoard?)
    requires SeatsOk(ss, b) && 0 <= i < |ss|
    ensures SeatOk(ss, i, b)
    decreases |ss|
  {
    var n := |ss| - 1;
    if i < n {
      SeatOkAt(ss[..n], i, b);
      assert ss[..n][i] == ss[i];
      assert forall j :: 0 <= j < i ==> ss[..n][j] == ss[j];
    }
  }

  /** A room keeps well when the figure of seat i is replaced by a new one in its place on the board. */
  lemma RoomReplaced(ss: seq<Seat>, i: int, fig: ServerFigure, b: SquareBoard)
    requires SeatsOk(ss, b) && 0 <= i < |ss| && ss[i].figure != null
    requires FigureOk(fig, b) && forall j :: 0 <= j < |ss| ==> ss[j].figure != fig
    requires b.Valid() && b.width >= 4 && b.height == BOARD_HEIGHT && 4 * FigureCount(ss) < b.width
    requires Covered(b.Contents(), FootprintsOf(ss)[i := fig.Footprint()])
    ensures RoomOk(ss[i := ss[i].(figure := fig)], b)
  {
    SeatReplaced(ss, i, ss[i].(figure := fig), b);
  }

  /**
   * While seat i holds a figure, some column of the board has no OCCUPIED
   * cell, and every OCCUPIED cell belongs to a seated figure.
   */
  lemma RoomFreeColumn(ss: seq<Seat>, b: SquareBoard, i: int)
    requires RoomOk(ss, b) && 0 <= i < |ss| && ss[i].figure != null
    ensures b.HasFreeColumn() && Covered(b.Contents(), FootprintsOf(ss))
  {
    FootprintsTotal(ss, b);
    FigureCountRemoved(ss, i);
    FreeColumnExists(b.Contents(), b.width, FootprintsOf(ss));
  }

  /**
   * A room whose seat i has its figure off the board is still well kept
   * once that seat is given up.
   */
  lemma RoomWithout(ss: seq<Seat>, i: int, b: SquareBoard)
    requires RoomOk(ss, b) && 0 <= i < |ss|
    requires ss[i].figure != null ==> Covered(b.Contents(), FootprintsOf(ss)[i := []])
    ensures RoomOk(Without(ss, i), b)
  {
    var fps := FootprintsOf(ss);
    SeatsRemoved(ss, i, b);
    FigureCountRemoved(ss, i);
    FootprintsRemoved(ss, i);
    if FigureCount(ss) > 0 {
      if ss[i].figure == null {
        FootprintAt(ss, i);
        assert fps[i := []] == fps;
      }
      CoveredWithoutEmpty(b.Contents(), fps[i := []], i);
      assert fps[i := []][..i] + fps[i := []][i + 1..] == fps[..i] + fps[i + 1..];
    }
  }

  /** Without seat i the seats are still distinct and their figures still attached. */
  lemma {:induction false} SeatsRemoved(ss: seq<Seat>, i: int, b: SquareBoard?)
    requires SeatsOk(ss, b) && 0 <= i < |ss|
    ensures SeatsOk(ss[..i] + ss[i + 1..], b)
    decreases |ss|
  {
    var n := |ss| - 1;
    var r := ss[..i] + ss[i + 1..];
    if i == n {
      assert r == ss[..n];
    } else {
      assert r[..|r| - 1] == ss[..n][..i] + ss[..n][i + 1..];
      SeatsRemoved(ss[..n], i, b);
      assert r[|r| - 1] == ss[n];
      forall j | 0 <= j < |r| - 1
        ensures r[j].name != r[|r| - 1].name
        ensures r[|r| - 1].figure != null ==> r[j].figure != r[|r| - 1].figure
      {
        if j < i {
          assert r[j] == ss[j];
        } else {
          assert r[j] == ss[j + 1];
        }
      }
      assert SeatOk(r, |r| - 1, b);
    }
  }

  /** Without seat i the footprints lose the i-th. */
  lemma FootprintsRemoved(ss: seq<Seat>, i: int)
    requires 0 <= i < |ss|
    ensures FootprintsOf(ss[..i] + ss[i + 1..]) == FootprintsOf(ss)[..i] + FootprintsOf(ss)[i + 1..]
  {
    var r := ss[..i] + ss[i + 1..];
    var fps := FootprintsOf(ss);
    var rest := fps[..i] + fps[i + 1..];
    forall j | 0 <= j < |r| ensures FootprintsOf(r)[j] == rest[j] {
      FootprintAt(r, j);
      if j < i {
        FootprintAt(ss, j);
        assert r[j] == ss[j];
      } else {
        FootprintAt(ss, j + 1);
        assert r[j] == ss[j + 1];
      }
    }
  }

  /** Without seat i the count of figures drops by one if it held one. */
  lemma {:induction false} FigureCountRemoved(ss: seq<Seat>, i: int)
    requires 0 <= i < |ss|
    ensures FigureCount(ss[..i] + ss[i + 1..]) == FigureCount(ss) - if ss[i].figure != null then 1 else 0
    decreases |ss|
  {
    var n := |ss| - 1;
    var r := ss[..i] + ss[i + 1..];
    if i == n {
      assert r == ss[..n];
    } else {
      assert r[..|r| - 1] == ss[..n][..i] + ss[..n][i + 1..];
      FigureCountRemoved(ss[..n], i);
      assert r[|r| - 1] == ss[n];
    }
  }

  /** The seated figures cover four squares each. */
  lemma {:induction false} FootprintsTotal(ss: seq<Seat>, b: SquareBoard?)
    requires SeatsOk(ss, b)
    ensures TotalSize(FootprintsOf(ss)) == 4 * FigureCount(ss)
    decreases |ss|
  {
    if |ss| > 0 {
      var n := |ss| - 1;
      FootprintsTotal(ss[..n], b);
      if ss[n].figure != null {
        assert FigureOk(ss[n].figure, b);
      }
    }
  }

  /** The first seat from `from` on with the given name, or -1. */
  function SeatFrom(ss: seq<Seat>, name: string, from: nat): (i: int)
    requires from <= |ss|
    ensures -1 <= i < |ss|
    ensures i >= 0 ==> from <= i && ss[i].name == name && forall j :: from <= j < i ==> ss[j].name != name
    ensures i < 0 ==> forall j :: from <= j < |ss| ==> ss[j].name != name
    decreases |ss| - from
  {
    if from == |ss| then -1
    else if ss[from].name == name then from
    else SeatFrom(ss, name, from + 1)
  }
}
