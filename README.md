# Darkstris core in Dafny

Darkstris is a multiplayer falling-block game played on one shared board.
Every player in a room steers a figure of their own. A Project Darkstar
server keeps the lobby and the rooms. Each room holds a board, a falling
figure per seated player, and the pool of colours still free. The room
accepts or ignores each player's moves. It fixes a figure that has landed,
removes full lines, and either spawns a new figure or declares the game
over. Every change is announced to the players as a binary message. On the
client side, each room in the lobby list is a `ClientRoom`, and the
players' names are shown in a `PlayersBox`.

This project models that core:

- `wrappers.dfy`: `Option`, `Result`, and the exceptions as values.
- `lists.dfy`: `indexOf` and `remove(Object)` of `java.util.List`.
- `bytes.dfy`: big-endian `putInt`/`putLong` and their readers.
- `commands.dfy`: the command enum and its ordinal codec.
- `records.dfy`: `FigureInfo`, `PlayerInfo`, `RoomInfo` and `LobbyData`.
- `protocol.dfy`: every message builder of `Protocol`, byte for byte.
- `grid.dfy`: the board as a value, and `removeLine` on it.
- `board.dfy`: the class `SquareBoard`, over an `array2` updated in place.
- `shapes.dfy`: the shape table, orientations and the first spawn row.
- `figure.dfy`: the class `ServerFigure`, with its moves, collision tests,
  `attach` search and `isAllWayDown`.
- `coverage.dfy`: why a room's board always has a column without OCCUPIED
  cells, which makes `removeFullLines` terminate.
- `room.dfy`: the class `ServerRoom`, with joining and leaving, game start,
  the four moves, dropping, and landing.
- `lobby.dfy`: the class `Lobby`, with its room-id counter.
- `clientroom.dfy`: the class `ClientRoom`.
- `playersbox.dfy`: the class `PlayersBox` and `truncate`.

## How the model is set up

- **Board cells.** A cell is the datatype `Cell` (`Empty`, `Occupied`,
  `Fixed`) rather than the bytes -1, 0 and 1.
- **Classes.** The board, the figures, the room, the lobby, the client room
  and the players box are classes. Their methods update fields in place.
  Each method is proved against a specification function of the old state.
- **Messages.** Sends on a channel are returned as a sequence of `Effect`
  values, in the order the room performs them. An `Effect` is a send to the
  room, the lobby or one player, leaving the room channel, or scheduling
  the room's drop. The message inside an effect is a `Protocol.Message`
  value. The byte layout of each message is proved separately in
  `protocol.dfy`.
- **Randomness.** It is supplied by the caller. The room constructor gets
  the shuffle of the eight colours. `GameStart` and each landing get the
  type of the new figure.

## Model

| member | source | states |
|---|---|---|
| Commands.Encode | darkstris/src/common/Commands.java:16-18 | the code is the command's ordinal: a number in 0..22 at whose position the enum declares the command |
| Commands.EncodeOfValues | darkstris/src/common/Commands.java:9-14 | the table built from `values()` maps each ordinal back to the command declared there |
| Commands.Decode | darkstris/src/common/Commands.java:20-27 | a number decodes exactly when it is an ordinal, to the command that encodes to it; any other number is an IllegalArgumentException carrying it |
| Commands.DecodeEncode | darkstris/src/common/Commands.java:16-27 | decode(encode(c)) == c for every command |
| Commands.EncodeInjective | darkstris/src/common/Commands.java:16-18 | different commands have different codes |
| Bytes.FromBigEndianRoundTrip | darkstris/src/server/Protocol.java:44-54 | reading n big-endian bytes back gives the unsigned value written |
| Bytes.PutInt | darkstris/src/server/Protocol.java:44-54 | `putInt` writes 4 bytes that `getInt` reads back as the same Java int, negative values included |
| Bytes.PutLong | darkstris/src/server/Protocol.java:86-93 | `putLong` writes 8 bytes that `getLong` reads back as the same Java long |
| Bytes.NameBytes | darkstris/src/server/Protocol.java:59-66 | a name of single-byte chars becomes one byte per char and reads back as the name |
| Protocol.Tag | darkstris/src/server/Protocol.java:285-294 | every message starts with 4 bytes that read back as the command's code |
| Protocol.EncodeFigure | darkstris/src/server/Protocol.java:44-54 | a figure record is 20 bytes (type, x, y, rotation, colour) and decodes back to the record |
| Protocol.MoveLeft | darkstris/src/server/Protocol.java:285-294 | 24 bytes: the MOVE_LEFT tag, then the figure, which decodes back |
| Protocol.MoveRight | darkstris/src/server/Protocol.java:302-311 | 24 bytes: the MOVE_RIGHT tag, then the figure, which decodes back |
| Protocol.MoveDown | darkstris/src/server/Protocol.java:319-328 | 24 bytes: the MOVE_DOWN tag, then the figure, which decodes back |
| Protocol.Rotate | darkstris/src/server/Protocol.java:359-368 | 24 bytes: the ROTATE tag, then the figure, which decodes back |
| Protocol.MoveAllWayDown | darkstris/src/server/Protocol.java:338-351 | 44 bytes: the tag, then the figure before the drop and the figure after it, both decoding back |
| Protocol.NewFigure | darkstris/src/server/Protocol.java:139-151 | 52 bytes: the tag, the fixed figure, the spawned figure, and 8 trailing zero bytes, because the buffer is allocated with 12 bytes of header |
| Protocol.RoomLeft | darkstris/src/server/Protocol.java:248-262 | the tag, the player blob's length and the blob itself, then the figure, then 4 trailing zero bytes |
| Protocol.RoomDropped | darkstris/src/server/Protocol.java:86-93 | 12 bytes: the ROOM_DROPPED tag and the room id as a long |
| Protocol.RoomFull | darkstris/src/server/Protocol.java:270-277 | 12 bytes: the ROOM_FULL tag and the room id |
| Protocol.GameStarted | darkstris/src/server/Protocol.java:121-128 | 12 bytes: the GAME_START tag (the same tag gameStart uses) and the room id |
| Protocol.UserJoinedLobby | darkstris/src/server/Protocol.java:59-66 | the USER_JOINED tag followed by the name's bytes, which read back as the name |
| Protocol.UserLeftLobby | darkstris/src/server/Protocol.java:71-78 | the USER_LEFT tag followed by the name's bytes |
| Protocol.RoomCreated | darkstris/src/server/Protocol.java:178-190 | the tag, the id as a long, maxPlayers, the colour, then the name; each field reads back |
| Protocol.RoomJoined | darkstris/src/server/Protocol.java:202-212 | the tag, the id, the colour, then the name; each field reads back |
| Protocol.RoomJoinedWithPlayers | darkstris/src/server/Protocol.java:224-237 | the tag, the id, the colour, then the serialised player list unchanged |
| Protocol.GameStart | darkstris/src/server/Protocol.java:105-115 | the tag, the board width, then the serialised figure list unchanged |
| Protocol.LobbyDataMessage | darkstris/src/server/Protocol.java:157-166 | the LOBBY_DATA tag followed by the serialised lobby data |
| Protocol.GameOver | darkstris/src/server/Protocol.java:373-379 | 4 bytes: the GAME_OVER tag |
| Protocol.GameOwner | darkstris/src/server/Protocol.java:388-394 | 4 bytes: the GAME_OWNER tag |
| Grids.RemoveLine | darkstris/src/server/SquareBoard.java:214-234 | an out-of-range row changes nothing; rows below the removed one are unchanged; the shape is kept |
| Grids.RemoveLineKeepsOccupied | darkstris/src/server/SquareBoard.java:214-234 | OCCUPIED cells (falling figures) neither move nor get overwritten when a line is removed |
| Grids.RemoveLineKeepsRowsBelow | darkstris/src/server/SquareBoard.java:197-205 | removing row y keeps the rows below y free of full lines, which the upward scan already checked |
| Grids.RemoveFullLineShrinksColumn | darkstris/src/server/SquareBoard.java:197-205 | removing a full line takes one FIXED cell out of a column without OCCUPIED cells, so the scan's re-check of the same row cannot repeat forever |
| Grids.RemoveOnlyFullLine | darkstris/src/server/SquareBoard.java:214-234 | removing the only full line of an otherwise empty board leaves every line empty |
| Coverage.FreeColumnExists | darkstris/src/server/ServerRoom.java:188 | figures with fewer squares than the board has columns, covering every OCCUPIED cell, leave a column without OCCUPIED cells |
| Coverage.CoveredAfterFix | darkstris/src/server/ServerRoom.java:303 | fixing one figure keeps every OCCUPIED cell covered by the remaining figures |
| Coverage.PaintedAllCell | darkstris/src/server/ServerRoom.java:195-203 | painting a list of figures OCCUPIED sets exactly the cells some figure covers |
| Coverage.RepaintedIsRepaintGrid | src/server/ServerFigure.java:435-457 | a board repainted cell by cell from one footprint to another is the grid RepaintGrid computes |
| Board.SquareBoard.constructor | darkstris/src/server/SquareBoard.java:71-76 | a new board has the given size and every cell EMPTY |
| Board.SquareBoard.SquareQueries | darkstris/src/server/SquareBoard.java:94-143 | on the board, isSquareEmpty and isSquareFixed agree with getSquareColor; off it, the walls and the floor are never empty, the floor is fixed, and only the open top reads as empty |
| Board.SquareBoard.SetSquareColor | darkstris/src/server/SquareBoard.java:145-150 | the one cell is set and every other cell kept; off the board nothing changes |
| Board.SquareBoard.Clear | darkstris/src/server/SquareBoard.java:161-167 | every cell becomes EMPTY |
| Board.SquareBoard.IsLineEmpty | darkstris/src/server/SquareBoard.java:116-126 | true exactly when the row is on the board and all its cells are EMPTY |
| Board.SquareBoard.IsLineFull | darkstris/src/server/SquareBoard.java:178-189 | true for a row off the board, otherwise exactly when all its cells are FIXED |
| Board.SquareBoard.RemoveLine | darkstris/src/server/SquareBoard.java:214-234 | the matrix becomes Grids.RemoveLine of the old matrix |
| Board.SquareBoard.CollapseFullLine | darkstris/src/server/SquareBoard.java:199-203 | one turn of the scan on a full row: the matrix becomes removeLine of the old one; OCCUPIED cells stay, no full row appears below, and a column without OCCUPIED cells loses one FIXED cell, so the re-test of the row cannot repeat forever |
| Grids.OnlyFullLineRemoved | darkstris/src/server/SquareBoard.java:197-205 | removeFullLines on a board whose only non-empty row is the bottom one, and that row full, leaves every row empty |
| Board.SquareBoard.RemoveFullLines | darkstris/src/server/SquareBoard.java:197-205 | the matrix becomes FullLinesRemoved of the old one, the bottom-up scan of removeLine calls; afterwards no line is full, OCCUPIED cells are exactly where they were, and a board without full lines is left unchanged |
| Grids.RemoveFullFromLeavesNoFullLine | darkstris/src/server/SquareBoard.java:197-205 | the scan from row y, with the rows below it free of full lines, leaves no line full |
| Grids.RemoveFullFromKeepsOccupied | darkstris/src/server/SquareBoard.java:197-205 | the scan never turns a cell OCCUPIED and never changes an OCCUPIED one |
| Grids.RemoveFullFromNoneFull | darkstris/src/server/SquareBoard.java:197-205 | without a full row at or above y the scan changes nothing |
| Grids.RemoveFullFromAnyColumn | darkstris/src/server/SquareBoard.java:197-205 | the scan's result does not depend on which column without OCCUPIED cells measures its termination |
| Grids.FullLinesRemovedFacts | darkstris/src/server/SquareBoard.java:197-205 | after removeFullLines no row is full, OCCUPIED cells are where they were, and a grid without full rows is unchanged |
| Grids.FixedAndClearedOccupied | darkstris/src/server/ServerRoom.java:303-305 | after fix and removeFullLines a cell is OCCUPIED exactly when it was OCCUPIED outside the fixed figure |
| Shapes.Initialize | src/server/ServerFigure.java:176-264 | types 1..7 have four squares, with 1, 2 or 4 orientations (1 only for the square, 4 for the angles and the triangle); any other type is an IllegalArgumentException |
| Shapes.JavaRem | src/server/ServerFigure.java:494-507 | Java's `%`: equal to the mathematical remainder for a non-negative left operand, and strictly between -b and b |
| Shapes.Cells | src/server/ServerFigure.java:588-627 | square i of a figure at (x, y) in orientation o lies at (x + relX, y + relY) |
| Shapes.RelativeIsTurned | src/server/ServerFigure.java:588-627 | getRelativeX/Y in orientation o give the orientation-0 offset turned o quarter turns |
| Shapes.FullTurn | src/server/ServerFigure.java:588-627 | four quarter turns give back the offset |
| Shapes.NextStep | src/server/ServerFigure.java:509-512 | one rotation advances the orientation by one and wraps to 0 after the last |
| Shapes.RotatedCounts | src/server/ServerFigure.java:520-527 | k successful rotations from o reach o + k, or 0 when that is maxOrientation |
| Shapes.RotationCycle | src/server/ServerFigure.java:520-527 | maxOrientation successful rotations restore the orientation |
| Shapes.RotatedAfter | src/server/ServerFigure.java:520-527 | k + j rotations are j rotations after the first k |
| Shapes.OffsetsBounded | src/server/ServerFigure.java:176-264 | every square of every shape, in every orientation, lies within two squares of the position |
| Shapes.HomeColumnFits | src/server/ServerFigure.java:344-391 | every shape in every orientation fits within columns 0..3 at some position, which makes a row high enough above the board placeable |
| Shapes.StartRowOfFreshFigure | src/server/ServerFigure.java:312-318 | for orientation 0 the first row tried puts the figure's lowest squares on row 0 |
| Shapes.StartRowBounded | src/server/ServerFigure.java:312-318 | the first row tried is within two rows of row 0 |
| Figures.FitsFromEach | src/server/ServerFigure.java:564-575 | canMoveTo holds exactly when every target square is on a column, above the floor, and either the figure's own or empty |
| Figures.FitsOnBoard | src/server/ServerFigure.java:564-575 | a target that fits lies on the board's columns and above its floor |
| Figures.FitsAvoidsFixed | src/server/ServerFigure.java:564-575 | a fitting target square that is not the figure's own is EMPTY on the board, or above it |
| Figures.ScanLeft | src/server/ServerFigure.java:349-358 | the leftward search finds the nearest fitting column at or left of x, or reports that none in 0..x fits |
| Figures.ScanRight | src/server/ServerFigure.java:369-379 | the rightward search finds the nearest fitting column at or right of x, or reports that none up to the last column fits |
| Figures.ScanLeftExhausted | src/server/ServerFigure.java:349-358 | the leftward search fails when no column from x down to 0 fits |
| Figures.ScanRightExhausted | src/server/ServerFigure.java:369-379 | the rightward search fails when no column from x to the last fits |
| Figures.PlaceInRowChoice | src/server/ServerFigure.java:344-391 | positionAlongX prefers the nearest fit to the left and then the nearest to the right, and fails exactly when no column of the row fits |
| Figures.SpawnColumnOnBoard | src/server/ServerFigure.java:344-391 | a column where the figure fits is on the board |
| Figures.HighRowPlaceable | src/server/ServerFigure.java:323-326 | on a board at least 4 wide, a row three above the top always has a fitting column, so attach's upward search stops |
| Figures.SpawnRow | src/server/ServerFigure.java:323-326 | the row attach settles on is at most the first row tried and at least three above the top |
| Figures.SpawnRowFits | src/server/ServerFigure.java:323-326 | the figure can be placed in the settled row |
| Figures.RowOutcome | src/server/ServerFigure.java:323-326 | between the settled row and the first row tried, only the settled row is placeable |
| Figures.SpawnRowFirst | src/server/ServerFigure.java:323-326 | every row below the settled one, down to the first row tried, has no fitting column |
| Figures.SpawnAtRow | src/server/ServerFigure.java:300-331 | the spawn position is the column positionAlongX picks in the settled row |
| Figures.SpawnPositionSpec | src/server/ServerFigure.java:300-331 | attach's position fits, is the first placeable row going up from the start row, and lies at most three rows above the top |
| Figures.SpawnOnBoard | src/server/ServerFigure.java:300-331 | every square of the spawned figure is on a column and above the floor |
| Figures.ShiftDown | src/server/ServerFigure.java:453-457 | a square of the figure moves to the square below when the figure moves down |
| Figures.ProbesStayInBoard | src/server/ServerFigure.java:462-474 | once no square below the figure lies above row 0, moving down keeps it so |
| Figures.FallRow | darkstris/src/server/ServerRoom.java:269-271 | the row moveAllWayDown's loop stops on is at or below the row it starts from |
| Figures.FallRowRests | darkstris/src/server/ServerRoom.java:269-271 | the figure does not fit one row below the row the fall ends on |
| Figures.FallRowPath | darkstris/src/server/ServerRoom.java:269-271 | at every row the fall passes, the figure fits one row lower |
| Figures.FallRowOfPath | darkstris/src/server/ServerRoom.java:269-271 | a row reached through rows that each fit one lower, and whose next does not fit, is the row of the fall |
| Figures.FallRowRestsAt | darkstris/src/server/ServerRoom.java:269-271 | RestsAt holds for exactly one row, the one FallRow computes |
| Figures.FallsFromRest | src/server/ServerFigure.java:428-430 | a figure that can move down falls through its row with its own squares counted as free |
| Figures.ServerFigure.TargetOnBoard | src/server/ServerFigure.java:564-575 | every square of a target that fits lies on the board's columns and above its floor |
| Figures.ServerFigure.constructor | src/server/ServerFigure.java:43-46 | a figure of a table type with orientation 0, position (0, 0), not attached |
| Figures.ServerFigure.SetColor | src/server/ServerFigure.java:266-268 | only the colour changes |
| Figures.ServerFigure.Detach | src/server/ServerFigure.java:398-400 | the board becomes null, so isAttached is false; the position, orientation and colour stay |
| Figures.ServerFigure.IsAttached | src/server/ServerFigure.java:275-277 | true exactly when the figure has a board; attach makes it true and detach false |
| Figures.ServerFigure.IsInside | src/server/ServerFigure.java:540-548 | true exactly when (x, y) is one of the four squares xPos + relX, yPos + relY in the current orientation |
| Figures.ServerFigure.InfoLocates | darkstris/src/server/ServerRoom.java:288-291 | the record sent to clients names a table type whose offsets, placed at the record's position and rotation, give exactly the figure's squares |
| Figures.ServerFigure.CanMoveTo | src/server/ServerFigure.java:564-575 | the loop answers canMoveTo's specification: every target square is inside the walls, above the floor, and either the figure's own or empty |
| Figures.ServerFigure.CanMoveLeft | src/server/ServerFigure.java:420-422 | attached, and the figure fits one column left |
| Figures.ServerFigure.CanMoveRight | src/server/ServerFigure.java:424-426 | attached, and the figure fits one column right |
| Figures.ServerFigure.CanMoveDown | src/server/ServerFigure.java:428-430 | attached, and the figure fits one row down |
| Figures.ServerFigure.Paint | src/server/ServerFigure.java:635-643 | the figure's squares on the board take the state, and every other cell is kept |
| Figures.ServerFigure.Clear | src/server/ServerFigure.java:645-647 | the figure's squares become EMPTY, and every other cell is kept |
| Figures.ServerFigure.Fill | src/server/ServerFigure.java:649-651 | the figure's squares become OCCUPIED, and every other cell is kept |
| Figures.ServerFigure.Fix | src/server/ServerFigure.java:653-655 | the figure's squares become FIXED, and every other cell is kept |
| Figures.ServerFigure.MoveTo | src/server/ServerFigure.java:435-457 | clear, move, fill: the old squares are emptied, the new ones occupied, the rest kept; a move that fits stays on the board |
| Figures.ServerFigure.MoveLeft | src/server/ServerFigure.java:435-439 | x decreases by one, with the board repainted |
| Figures.ServerFigure.MoveRight | src/server/ServerFigure.java:444-448 | x increases by one, with the board repainted |
| Figures.ServerFigure.MoveDown | src/server/ServerFigure.java:453-457 | y increases by one, with the board repainted; a figure whose probes stay in the board keeps them there |
| Figures.ServerFigure.SetRotation | src/server/ServerFigure.java:494-507 | the orientation becomes rotation % maxOrientation directly when detached; when attached, only if the figure fits there, with the board repainted; otherwise nothing changes |
| Figures.ServerFigure.CanRotate | src/server/ServerFigure.java:509-512 | the figure fits in the next orientation |
| Figures.ServerFigure.Rotate | src/server/ServerFigure.java:520-527 | the square never turns; others move to the next orientation when it fits (or when detached) and otherwise stay |
| Figures.ServerFigure.IsAllVisible | src/server/ServerFigure.java:408-418 | attached, and no square lies above row 0 |
| Figures.ServerFigure.IsAllWayDown | src/server/ServerFigure.java:462-474 | true exactly when some square rests on the floor or a FIXED cell, with no earlier square probing above the board; None is the out-of-range row read; with all probes in the board the answer is whether the figure rests |
| Figures.ServerFigure.LandedOnGrid | src/server/ServerFigure.java:462-474 | isAllWayDown's true answer depends only on the board's contents and the figure's squares: it is LandsOn of the two |
| Figures.ServerFigure.Attach | src/server/ServerFigure.java:300-331 | always true; the figure is attached and stands at the spawn position, on this board, with its squares OCCUPIED and every other cell kept |
| Figures.ServerFigure.FirstRow | src/server/ServerFigure.java:312-318 | the loop computes the first row tried, which is within two rows of row 0 |
| Figures.ServerFigure.StartRowInRange | src/server/ServerFigure.java:312-318 | the first row tried lies in -2..2 |
| Figures.ServerFigure.SettleRow | src/server/ServerFigure.java:323-326 | the upward search ends at the spawn position, on the board |
| Figures.ServerFigure.SpawnPlaced | src/server/ServerFigure.java:300-331 | a figure at the spawn position has every square on a column and above the floor |
| Figures.ServerFigure.FitsAtOrigin | src/server/ServerFigure.java:308-310 | with the position reset to (0, 0), canMoveTo at a target equals the position-free fit test the searches use |
| Figures.ServerFigure.PositionAlongX | src/server/ServerFigure.java:344-391 | true exactly when some column of the row fits, and then the figure stands at the column chosen (left first, then right); otherwise the position stays (0, 0) |
| Figures.ServerFigure.SearchLeft | src/server/ServerFigure.java:349-358 | the loop returns ScanLeft's answer |
| Figures.ServerFigure.SearchRight | src/server/ServerFigure.java:369-379 | the loop returns ScanRight's answer |
| Rooms.BoardWidth | darkstris/src/server/ServerRoom.java:188 | the board has 8 + (n - 1) * 4 = 4n + 4 columns for n players |
| Rooms.PlayerInfos | darkstris/src/server/ServerRoom.java:166-172 | one PlayerInfo per seat, in seat order, with the seat's name and colour |
| Rooms.EightColors | darkstris/src/server/ServerRoom.java:36-44 | a shuffle of the colour list has eight colours |
| Rooms.ColorTaken | darkstris/src/server/ServerRoom.java:91-94 | taking the pool's first colour for a new seat keeps pool plus seat colours the same multiset |
| Rooms.ColorReturned | darkstris/src/server/ServerRoom.java:142-143 | returning a leaving seat's colour to the pool keeps pool plus seat colours the same multiset |
| Rooms.FigureInfosAppended | darkstris/src/server/ServerRoom.java:199-202 | the figure list grows by the new seat's figure record |
| Rooms.RoomFreeColumn | darkstris/src/server/ServerRoom.java:302-305 | the room's invariant gives the board a column without OCCUPIED cells, which removeFullLines needs to terminate |
| Rooms.FallsOn | darkstris/src/server/ServerRoom.java:269-271 | partway through a fall, canMoveDown on the current board equals the fit test on the board the fall started from |
| Rooms.FallsFirst | darkstris/src/server/ServerRoom.java:267-269 | a figure that can move down falls through the row it starts on |
| Rooms.FallGoesOn | darkstris/src/server/ServerRoom.java:269-271 | a fall that can go on adds the current row to those it went through |
| Rooms.FallEnds | darkstris/src/server/ServerRoom.java:269-271 | a fall that cannot go on rests at the current row |
| Rooms.Move | src/server/ServerFigure.java:435-527 | a step that fits moves the figure to its target and repaints the board |
| Rooms.NewFigure | darkstris/src/server/ServerRoom.java:293-300 | a fresh figure of the given type at the spawn position for the player's column, with the player's colour, its squares OCCUPIED |
| Rooms.AttachNew | darkstris/src/server/ServerRoom.java:293-300 | the new figure's squares are painted onto the old board, which is otherwise unchanged |
| Rooms.SeatNewFigure | darkstris/src/server/ServerRoom.java:196-202 | the seat's figure is new, seated at its spawn position, and the seats stay well formed with one more figure |
| Rooms.SeatNext | darkstris/src/server/ServerRoom.java:195-203 | one turn of gameStart's loop: the next seat gets column 3 + 4k and a figure whose record is appended; the figure stands at the spawn position for that column on the board as it was, and the new board is the old one with its squares OCCUPIED |
| Rooms.SeatAll | darkstris/src/server/ServerRoom.java:192-204 | every seat, in order, keeps its name and colour, gets column 3 + 4k and a figure of the k-th type in orientation 0, and its record is listed; figure k stands at the spawn position for column 3 + 4k on the board holding figures 0..k-1, and the final board is the empty board with exactly the listed figures' squares OCCUPIED |
| Rooms.StartGridCells | darkstris/src/server/ServerRoom.java:188-203 | on gameStart's board a cell is OCCUPIED exactly when a listed figure covers it, and EMPTY otherwise |
| Rooms.StartGridAppended | darkstris/src/server/ServerRoom.java:195-203 | seating one more figure paints its squares onto the board seated so far |
| Rooms.StartSeated | darkstris/src/server/ServerRoom.java:195-203 | one turn of the loop keeps every listed figure at its spawn position and the board equal to the start board of the listed figures |
| Rooms.AllSpawnedAppended | darkstris/src/server/ServerRoom.java:195-203 | a figure spawned at the next column on the board seated so far keeps every listed figure spawned |
| Rooms.SpawnedKept | darkstris/src/server/ServerRoom.java:195-203 | an earlier figure keeps its spawn position when another is listed after it |
| Rooms.SpawnedLast | darkstris/src/server/ServerRoom.java:199 | the newest figure stands at the spawn position for its column on the board seated before it |
| Rooms.AllEmpty | darkstris/src/server/SquareBoard.java:71-76 | a board whose cells are all EMPTY holds the all-EMPTY grid |
| Rooms.ServerRoom.constructor | darkstris/src/server/ServerRoom.java:55-72 | the room has the given id and size, nothing started, the pool is the shuffle, and the creator is seated with its first colour |
| Rooms.ServerRoom.SeatOf | darkstris/src/server/ServerRoom.java:162-164 | the first seat with the name, or -1 when nobody has it |
| Rooms.ServerRoom.AddPlayer | darkstris/src/server/ServerRoom.java:86-98 | the player is seated last, taking the pool's first colour while any remain; the colours stay a partition of the eight; the room is then full exactly when it was one short |
| Rooms.ServerRoom.IsFull | darkstris/src/server/ServerRoom.java:174-176 | full exactly when the player list has maxPlayers entries |
| Rooms.ServerRoom.RemovePlayer | darkstris/src/server/ServerRoom.java:100-144 | the last player's leave schedules the drop; any other leave sends GAME_OWNER to the next seat first when the owner leaves before the start, and removes the seat; with a figure it then clears the figure, announces the leave with it, leaves the channel and returns the colour to the pool; without one (every player before the start) roomLeft reads the null figure and throws a NullPointerException, with the colour not yet returned |
| Rooms.ServerRoom.Abandon | darkstris/src/server/ServerRoom.java:111-112 | the seat of a player without a figure is given up; the pool and the board stay as they were |
| Rooms.ServerRoom.Disband | darkstris/src/server/ServerRoom.java:117-120 | the last seat goes and the room's drop is scheduled |
| Rooms.ServerRoom.Depart | darkstris/src/server/ServerRoom.java:121-143 | the seat goes, its figure's squares become EMPTY, the leave is announced with the player's figure, and the colour is returned |
| Rooms.ServerRoom.Vacate | darkstris/src/server/ServerRoom.java:110-131 | the seat is removed and its figure cleared from the board |
| Rooms.ServerRoom.GameStart | darkstris/src/server/ServerRoom.java:182-212 | the game starts on a new 4n + 4 by 20 board; every seat gets column 3 + 4k and a figure of the k-th type in orientation 0 at the spawn position for that column on the board holding the figures before it; the board then holds exactly those figures' squares OCCUPIED and nothing else; the records go to the room, then the start goes to the lobby |
| Rooms.ServerRoom.Install | darkstris/src/server/ServerRoom.java:184-190 | the room takes the new board and the seated figures and is started |
| Rooms.ServerRoom.MoveLeft | darkstris/src/server/ServerRoom.java:217-225 | if the game is on and the figure fits to the left: the move is announced with the old record and the figure steps left; otherwise nothing happens |
| Rooms.ServerRoom.MoveRight | darkstris/src/server/ServerRoom.java:227-235 | as MoveLeft, to the right |
| Rooms.ServerRoom.Rotate | darkstris/src/server/ServerRoom.java:237-244 | if the game is on and the figure fits rotated: the rotation is announced, and every figure except the square turns; otherwise nothing happens |
| Rooms.ServerRoom.MoveDown | darkstris/src/server/ServerRoom.java:246-262 | a figure that fits one row down is announced and steps down; one that does not but has landed is settled as handleFigureBottom says (fixed, full lines removed, then a new figure at its spawn position or GAME_OVER); one pushing against another player's figure stays with nothing changed |
| Rooms.ServerRoom.Lower | darkstris/src/server/ServerRoom.java:248-252 | one announced step down |
| Rooms.ServerRoom.MoveAllWayDown | darkstris/src/server/ServerRoom.java:264-286 | a figure that fits falls to the row RestsAt names (it fits one lower at every row on the way, and not at that one) and the records before and after are announced; then, on the board repainted to that row, it is settled as handleFigureBottom says exactly when it lands there (LandsOn), and otherwise the room stays as the fall left it; without a fit a landed figure is settled and any other left alone |
| Rooms.ServerRoom.Drop | darkstris/src/server/ServerRoom.java:266-275 | the loop ends with the figure at the row where the fall rests (RestsAt), same column and orientation, the board being the old one repainted from the first squares to the last, and the before and after records announced |
| Rooms.ServerRoom.FallAndLand | darkstris/src/server/ServerRoom.java:266-284 | the fall rests at a row RestsAt names and is announced; then the figure is settled exactly when it lands on the repainted board, and otherwise nothing more changes |
| Rooms.ServerRoom.LandAfterFall | darkstris/src/server/ServerRoom.java:278-284 | after the fall the figure is settled by handleFigureBottom when it lands where it stands (LandsOn of the board and its squares); otherwise the room, the figure and the board stay unchanged |
| Rooms.ServerRoom.LandedAfter | darkstris/src/server/ServerRoom.java:264-286 | the fall's announcement followed by the settle-if-landed-else-stay outcome on the repainted board is the outcome Landed states for that rest row |
| Rooms.ServerRoom.FallRest | darkstris/src/server/ServerRoom.java:269-271 | the loop ends with the figure no longer fitting one row down, at the row where the fall from the start row rests |
| Rooms.ServerRoom.FallOne | darkstris/src/server/ServerRoom.java:269-271 | the first step of the fall enters only EMPTY squares and shows the first row falls through |
| Rooms.ServerRoom.FallStep | darkstris/src/server/ServerRoom.java:269-271 | one more step keeps the board equal to the first squares repainted to the current ones, and adds one more row to those the fall went through |
| Rooms.ServerRoom.StepDown | darkstris/src/server/ServerRoom.java:270-272 | the figure is one row lower and the board repainted |
| Rooms.ServerRoom.Land | darkstris/src/server/ServerRoom.java:278-284 | a figure isAllWayDown finds landed is settled as handleFigureBottom says; any other is left alone with the board unchanged |
| Rooms.ServerRoom.StepFigure | darkstris/src/server/ServerRoom.java:217-244 | the seated figure's step keeps the room's invariant and repaints the board |
| Rooms.ServerRoom.HandleFigureBottom | darkstris/src/server/ServerRoom.java:302-323 | the board becomes the old one with the figure's squares FIXED and full lines removed; a figure not fully visible ends the game with GAME_OVER; otherwise the seat gets a new figure of the given type at the spawn position for its column on that board, painted OCCUPIED there, and both records are announced |
| Rooms.ServerRoom.Conclude | darkstris/src/server/ServerRoom.java:307-321 | after fix and removeFullLines, a figure not fully visible sets gameOver and sends GAME_OVER; otherwise the seat gets a new figure, as Settled states |
| Rooms.ServerRoom.FixAndClear | darkstris/src/server/ServerRoom.java:303-305 | the board becomes FullLinesRemoved of the old board with the figure's squares FIXED; no line is full and only the other figures' squares are OCCUPIED |
| Rooms.ServerRoom.FixSeat | darkstris/src/server/ServerRoom.java:303 | the board becomes the old one with the figure's squares FIXED, every other cell kept |
| Rooms.ServerRoom.ClearSeat | darkstris/src/server/ServerRoom.java:125-131 | the figure's squares become EMPTY |
| Rooms.ServerRoom.ClearLines | darkstris/src/server/ServerRoom.java:305 | the board becomes FullLinesRemoved of the old one: no line is full and OCCUPIED cells are kept |
| Rooms.ServerRoom.Renew | darkstris/src/server/ServerRoom.java:314-321 | the seat alone gets a fresh figure of the given type and its colour in orientation 0 at the spawn position for its column, the board gains exactly its squares as OCCUPIED, and the fixed and new records are announced |
| Rooms.ServerRoom.Respawn | darkstris/src/server/ServerRoom.java:314-316 | the new figure has the given type, the seat's colour and the spawn position for the seat's column, and is on the board |
| Rooms.ServerRoom.PlaceFigure | darkstris/src/server/ServerRoom.java:314-316 | the new figure's squares are OCCUPIED and the room's covering invariant holds with it |
| Lobbies.NextId | darkstris/src/server/Lobby.java:28-30 | getAndIncrement's successor: one more, wrapping from the largest long to the smallest |
| Lobbies.IdsCountUp | darkstris/src/server/Lobby.java:24-30 | a new lobby hands out 0, 1, 2, ... |
| Lobbies.IdsDistinct | darkstris/src/server/Lobby.java:24-30 | ids handed out before the counter wraps are all different |
| Lobbies.InfoOf | darkstris/src/server/Lobby.java:70-76 | a room's entry carries its id, size, started flag and its players in seat order |
| Lobbies.InfosOfCount | darkstris/src/server/Lobby.java:68-80 | getRooms lists every room and only rooms; with distinct ids there is one entry per room |
| Lobbies.Lobby.constructor | darkstris/src/server/Lobby.java:24-26 | nobody there, no rooms, counter 0 |
| Lobbies.Lobby.GetNextRoomId | darkstris/src/server/Lobby.java:28-30 | returns the counter, which then moves on by one |
| Lobbies.Lobby.Add | darkstris/src/server/Lobby.java:32-34 | true exactly when the name was absent; afterwards it is present and the size grew by that much |
| Lobbies.Lobby.Remove | darkstris/src/server/Lobby.java:36-38 | true exactly when the name was present; afterwards it is absent |
| Lobbies.Lobby.Size | darkstris/src/server/Lobby.java:40-42 | zero exactly when nobody is in the lobby |
| Lobbies.Lobby.AddRoom | darkstris/src/server/Lobby.java:44-47 | the room is registered; registering it again changes nothing |
| Lobbies.Lobby.RemoveRoom | darkstris/src/server/Lobby.java:49-52 | the room is no longer registered, and the others stay |
| Lobbies.Lobby.GetLobbyData | darkstris/src/server/Lobby.java:82-84 | the names, an entry for every registered room, and no entry that is not some registered room's |
| Lists.IndexOf | darkstris/src/client/Scrollable.java:99-102 | the first index holding an equal element, or -1 when none does |
| Lists.Removed | darkstris/src/client/Scrollable.java:99-102 | remove(Object) takes out one element equal to x when there is one, and nothing otherwise |
| Lists.WithoutOne | src/client/ClientRoom.java:73-75 | taking out one entry removes exactly it from the multiset of entries |
| Lists.RemovedDistinct | darkstris/src/client/Scrollable.java:99-102 | in a list without repeats, removal keeps it without repeats and leaves the element absent |
| ClientRooms.FirstNamed | src/client/ClientRoom.java:77-86 | the first entry with the name, or -1 when none has it |
| ClientRooms.CountNamedZero | src/client/ClientRoom.java:88-96 | no entry carries the name exactly when the count of that name is zero |
| ClientRooms.RemoveNamedCounts | src/client/ClientRoom.java:77-86 | removePlayer(name) lowers that name's count by one and keeps every other name's count |
| ClientRooms.StillNamed | src/client/ClientRoom.java:77-96 | after removePlayer(name), hasPlayer(name) holds exactly when the name was listed twice or more |
| ClientRooms.Decimal | src/client/ClientRoom.java:98-102 | the count's decimal text: at least one char, all digits |
| ClientRooms.DecimalRoundTrip | src/client/ClientRoom.java:98-102 | the digits read back as the count |
| ClientRooms.DecimalNoLeadingZero | src/client/ClientRoom.java:98-102 | the text starts with '0' only for zero |
| ClientRooms.ClientRoom.Empty | src/client/ClientRoom.java:20-22 | no players, not started |
| ClientRooms.ClientRoom.WithPlayers | src/client/ClientRoom.java:24-26 | the given players, not started |
| ClientRooms.ClientRoom.WithPlayer | src/client/ClientRoom.java:28-33 | exactly the one player, not started |
| ClientRooms.ClientRoom.FromInfo | src/client/ClientRoom.java:40-49 | the server's id, started flag, players and size limit |
| ClientRooms.ClientRoom.SetMaxPlayers | src/client/ClientRoom.java:55-61 | the limit changes, and the room is full exactly when it holds that many players |
| ClientRooms.ClientRoom.SetStarted | src/client/ClientRoom.java:108-110 | only the started flag changes |
| ClientRooms.ClientRoom.AddPlayer | src/client/ClientRoom.java:69-71 | the player is listed last; the room is then full exactly when it was one short |
| ClientRooms.ClientRoom.RemovePlayerInfo | src/client/ClientRoom.java:73-75 | the first entry equal to u is taken out, keeping the order of the others; nothing changes when none equals u |
| ClientRooms.ClientRoom.RemovePlayer | src/client/ClientRoom.java:77-86 | the loop takes out only the first entry with the name and keeps the order of the rest; nothing changes when the name is absent |
| ClientRooms.ClientRoom.HasPlayer | src/client/ClientRoom.java:88-96 | true exactly when some entry has the name |
| ClientRooms.ClientRoom.CompareTo | src/client/ClientRoom.java:112-117 | negative when this room has more players, zero when both have the same number, so emptier rooms sort first |
| ClientRooms.CompareToSwapped | src/client/ClientRoom.java:112-117 | swapping the rooms negates the result, so two rooms never both come first |
| ClientRooms.ClientRoom.ToString | src/client/ClientRoom.java:98-102 | the text is longer than the digits and " player" exactly when there is more than one player |
| ClientRooms.ToStringReadsBack | src/client/ClientRoom.java:98-102 | the text is the count's digits (which read back as the count), then " player", and ends in 's' exactly when the count is above one |
| ClientRooms.EqualsById | src/client/ClientRoom.java:127-139 | equals holds exactly for a non-null room with the same id: reflexive and symmetric |
| PlayersBoxes.Truncate | src/client/PlayersBox.java:26-33 | a string no longer than maxSize is kept; a longer one becomes its first maxSize - 3 chars and "...", exactly maxSize long |
| PlayersBoxes.Utf16LengthBmp | src/client/PlayersBox.java:26-33 | String.length counts at least one UTF-16 unit per character, and exactly one per character precisely when all are below U+10000 |
| PlayersBoxes.TruncateIdempotent | src/client/PlayersBox.java:26-33 | truncating twice equals truncating once |
| PlayersBoxes.TruncateCollides | src/client/PlayersBox.java:11-18 | two over-long names show alike exactly when they agree on their first maxSize - 3 chars, so addPlayer lists only one of them |
| PlayersBoxes.PlayersBox.constructor | darkstris/src/client/Scrollable.java:22-29 | the list starts empty |
| PlayersBoxes.PlayersBox.AddPlayer | src/client/PlayersBox.java:11-18 | a missing name is ignored; the truncated name is listed afterwards, appended only when it was absent; the list stays without repeats and within 23 chars |
| PlayersBoxes.PlayersBox.RemovePlayer | src/client/PlayersBox.java:20-24 | a missing name is ignored; otherwise the truncated name is taken out, and (without repeats) no longer listed |
| PlayersBoxes.AddThenRemove | src/client/PlayersBox.java:11-24 | adding a new name and then removing it gives back the list from before |

## Left out

- Channels, client sessions, the `TaskManager` and the `DataManager` are
  not modelled as objects. Sends, channel leaves and the scheduled room
  drop are returned as `Effect` values. Darkstar's transactions and the
  rollback of a task that throws are not modelled.
- Java serialisation (`Protocol.encode`, used for `PlayerInfo`, the figure
  list, the player list and `LobbyData`) is an opaque byte blob supplied by
  the caller. The room's effects carry the structured `Message` instead.
- `Collections.shuffle` and `Math.random` are parameters. The room
  constructor takes the shuffled colours. `GameStart`, `MoveDown`,
  `MoveAllWayDown` and `HandleFigureBottom` take the new figures' types.
- Rooms.ServerRoom.RemovePlayer: when a player without a figure leaves
  and others remain (every such leave before the game starts), `roomLeft`
  throws a NullPointerException. The model returns that exception with
  the state as it is at the throw: the owner notice is queued, the seat is
  removed, and the colour is not returned. Darkstar would roll the task
  back, which is not modelled.
- Rooms.ServerRoom.MoveDown: when isAllWayDown would read row -1 (a probe
  above the board before any resting square), Java throws. The model
  treats the figure as not landed and changes nothing. It does not model
  the exception.
- Rooms.ServerRoom.MoveAllWayDown: in the same out-of-range case the
  model treats the figure as not landed and changes nothing, before the
  fall and after it.
- Rooms.ServerRoom.GameStart: it does not state that each seated figure
  is a freshly allocated object. It does state that the figures are
  distinct and attached to the new board.
- `ServerRoom.getPlayers` drops players whose session is gone. The model
  keeps every seated player.
- `ServerRoom.hashCode` and `equals`, `ClientRoom.hashCode`, and the
  getters that only return a field are left out.
- `ServerFigure(FigureInfo)` is not used by the core and is left out.
- The `ServerRoom.removePlayer` call to shrink the board is commented out
  in the source, so it is not modelled.
- Lobbies.GetLobbyData: Java's HashSet of RoomInfo deduplicates by room id
  alone. The model's set compares whole entries. The two agree whenever
  room ids are distinct, which `IdsDistinct` gives until the long counter
  wraps. The one-entry-per-room statement is made under that premise.
- ClientRooms.ClientRoom.WithPlayers, ClientRooms.ClientRoom.FromInfo:
  Java shares the caller's collection (for FromInfo, the RoomInfo's player
  list) through the same private constructor (aliasing). The model copies
  its value.
- ClientRooms.ClientRoom.ToString: the count is a Java int written with
  `Integer.toString`. The model writes a natural number's digits, which is
  the same for every count a collection can hold.
- The `refresh` trimming to `maxLines`, the drawing, scrolling and fonts of
  `Scrollable` and `PlayersBox` are UI and are left out. `needsRefresh` is
  kept.
- PlayersBoxes.Truncate: `substring` throws for maxSize < 3 on a longer
  string. The model requires that this does not happen; `PlayersBox`
  always passes 23.
- PlayersBoxes.Truncate: lengths and the cut count Unicode scalar values
  (Dafny chars), while Java's `length` and `substring` count UTF-16 code
  units. The two agree on names whose characters all lie below U+10000
  (`Utf16LengthBmp`). A name with characters beyond that plane is cut
  later in the model than in Java, and a Java cut may split a surrogate
  pair, which a Dafny string cannot hold.
- Names in byte messages are restricted to chars below 128, for which
  `String.getBytes` writes one byte per char. Other encodings are not
  modelled.
