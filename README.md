# Goblin maze: bounded movement and command dispatch

A model, in Dafny, of the logic behind a console maze game. One goblin stands on a
fixed 10 x 10 grid. The player types commands (`up`, `down`, `left`, `right`,
`quit`, `help`), which may be abbreviated and typed in any case. The model covers
two pieces:

- **Bounded positions** (`position.dfy`, module `Positions`). Positions,
  displacements and half-open bounding boxes, with component-wise `==`, `!=`,
  `+=` and `+`. It includes the three-way limit test that returns -1, 0 or 1
  against `[begin, end)`, and that test applied to the x or the y axis of a box.
- **World and interpreter**:
  - `maze.dfy`, module `Mazes`: the maze is a class over a 100-cell array stored
    row-major, with cell (x, y) at index `y * 10 + x`.
  - `world.dfy`, module `Worlds`: the world is a class holding the maze, the
    goblin's position and the most recent message. `MoveGoblin` rejects a move
    as a whole when either axis leaves the maze. It then reports one wall
    message per failing axis, x first, joined by `", "`.
  - `commands.dfy`, module `Commands`: the interpreter is a class holding an
    ordered table of commands. It finds the entries whose names start with the
    typed text, ignoring case. It reports "no match" or "ambiguous", or runs the
    single match.
  - `text.dfy`, module `Text`: joining fragments with a separator, the pattern
    shared by the wall messages and the help text.

Each class method is proved against a value-level specification function:
`MoveSpec` for a move, `PerformSpec` for a command. `World.State()` and
`CommandInterpreter.Snapshot()` give the object state as a value. The
properties of the game are lemmas about those functions:

- The goblin always stays inside the maze and is the only goblin on the grid.
- The quit flag is never cleared once set.
- Every non-empty abbreviation of a standard command resolves to that command.
- Starting from (5, 5), five `left` commands reach the wall and a sixth reports it.

The source's `std::function` closures in the command table become the datatype
`Action = MoveBy(Delta) | Quit | Help`. The unseen `character` type becomes
`Character = Nothing | Goblin`. `Nothing` is taken to be the enumerator that
value-initialisation produces, so a new maze is all `Nothing`. `std::toupper`
is ASCII upper-casing.

A rejected move leaves both coordinates unchanged. Neither axis is clamped or
applied on its own (main.cpp:136). The command table does not reject duplicate
names; two entries with the same name would make that name ambiguous.

## Model

| member | source | states |
|---|---|---|
| `Positions.Equal` | src/position.hpp:19-21 | component-wise comparison holds exactly when the two positions are the same value |
| `Positions.NotEqual` | src/position.hpp:23-25 | `!=` holds exactly when the positions differ, the negation of `==` |
| `Positions.AddAssign` | src/position.hpp:27-32 | `+=` adds the delta's x to x and its y to y |
| `Positions.Add` | src/position.hpp:34-38 | `+` applies `+=` to a copy of its left operand and returns the displaced position; the caller's position is a value and is not changed |
| `Positions.PlusZero` | src/position.hpp:27-38 | adding `delta{0, 0}` yields a position equal to the original |
| `Positions.PlusNegate` | src/position.hpp:27-38 | adding a delta and then its opposite returns to the start; a non-zero delta always changes the position |
| `Positions.TestLimitsGeneric` | src/position.hpp:49-54 | the result is -1, 0 or 1; -1 exactly when `x < begin`; 1 exactly when `x >= begin` and `x >= end`; 0 exactly when `begin <= x < end` |
| `Positions.TestLimitsX` | src/position.hpp:56-59 | the three outcomes against `[bb.pos.x, bb.pos.x + bb.size.x)`, in terms of the x coordinates only |
| `Positions.TestLimitsY` | src/position.hpp:61-64 | the three outcomes against `[bb.pos.y, bb.pos.y + bb.size.y)`, in terms of the y coordinates only |
| `Positions.TestLimitsSeparate` | src/position.hpp:56-64 | the x test depends only on `pos.x`, `bb.pos.x` and `bb.size.x`; the y test only on the y components |
| `Positions.TestLimitsContains` | src/position.hpp:49-64 | both axis tests return 0 exactly when the box contains the position |
| `Mazes.Bounds` | main.cpp:18-20 | the maze's box contains exactly the positions in `[0, 10) x [0, 10)` |
| `Mazes.Index` | main.cpp:29-31 | cell (x, y) with x < 10 and y < 10 maps to an index below `extent = 100`, from which x and y can be recovered |
| `Mazes.IndexInjective` | main.cpp:29-43 | two cells of the maze share an index exactly when they are the same cell |
| `Mazes.Maze.At` | main.cpp:29-43 | `at(x, y)` reads the cell at the row-major index `y * 10 + x`; the contract only names that cell, and what the index means is stated by `Mazes.Index` and `Mazes.IndexInjective` |
| `Mazes.Maze.constructor` | main.cpp:22-23 | a new maze has 100 cells, all `Nothing` |
| `Mazes.Maze.AddItem` | main.cpp:25-27 | the cell at the position now holds the item; every other cell is unchanged |
| `Worlds.XWalls` | main.cpp:110-121 | the x-axis `switch`: no message exactly when 0 <= x < 10; the left-wall message when x < 0; the right-wall message when x >= 10 |
| `Worlds.YWalls` | main.cpp:123-134 | the y-axis `switch`: no message exactly when 0 <= y < 10; the top-wall message when y < 0; the bottom-wall message when y >= 10 |
| `Worlds.MoveMessage` | main.cpp:101-134 | the message a move leaves is empty exactly when the new position is inside the maze |
| `Worlds.MoveMessageBothWalls` | main.cpp:101-134 | a move leaving the maze on both axes reports the x wall, then `", "`, then the y wall |
| `Worlds.MoveMessageOneWall` | main.cpp:110-134 | a move leaving on one axis reports the left, right, top or bottom wall alone, matching the side |
| `Worlds.InitialState` | main.cpp:95-98 | the goblin starts at (5, 5), alone on the grid in its own cell, with no message |
| `Worlds.MoveSpec` | main.cpp:100-142 | the message is rebuilt as `MoveMessage` of the new position (x wall, then y wall, joined by ", ") and is empty exactly when the move stays inside; a zero delta changes neither grid nor position; inside, the goblin moves there; outside, position and grid are unchanged; a non-zero successful move clears the old cell and puts the goblin in the new one; no other cell changes |
| `Worlds.MovePreservesConsistency` | main.cpp:136-140 | a move keeps the goblin inside `[0,10) x [0,10)` and alone in its cell of the grid |
| `Worlds.World.constructor` | main.cpp:95-98 | a new world has the goblin at (5, 5), its cell holding `Goblin`, every other cell `Nothing`, and an empty message |
| `Worlds.World.AppendMessage` | main.cpp:101-105 | appends the text, preceded by `", "` unless the message was empty |
| `Worlds.World.MoveGoblin` | main.cpp:100-142 | the new state is `MoveSpec` of the old state, and the world invariant is kept |
| `Commands.StandardTable` | main.cpp:157-164 | the `entries_` initializer: six entries; the first four are moves by one cell along a single axis; the fifth quits and the sixth asks for help |
| `Commands.UpperChar` | main.cpp:176-177 | `std::toupper` on ASCII: a lower-case letter becomes its upper-case letter (code minus 32); any other character is unchanged; the result is never a lower-case letter |
| `Commands.ToUpper` | main.cpp:176-177 | the `std::transform` over a string: same length, with `UpperChar` applied to each character |
| `Commands.Matches` | main.cpp:175-182 | the upper-case-and-`substr` comparison holds exactly when the command, upper-cased, is a prefix of the upper-cased name |
| `Commands.Candidates` | main.cpp:172-186 | the result is strictly increasing and holds exactly the indices whose names the command matches |
| `Commands.CandidatesSnoc` | main.cpp:174-184 | one more loop iteration: extending the names by one extends the candidate list by that index exactly when it matches |
| `Commands.CandidatesOfEmpty` | main.cpp:172-186 | the empty command yields every index, in order |
| `Commands.CandidatesIgnoreCase` | main.cpp:172-186 | two commands that upper-case alike yield the same candidates |
| `Commands.CandidatesCaseChange` | main.cpp:172-186 | upper-casing or lower-casing the command does not change its candidates |
| `Commands.UpperOfCaseChange` | main.cpp:176-177 | upper-casing is idempotent and ignores a prior lower-casing |
| `Commands.LongerNeverMatches` | main.cpp:178-179 | a command longer than a name never matches that name |
| `Commands.FirstCharDiffers` | main.cpp:175-180 | a command whose first letter differs from a name's, ignoring case, does not match it |
| `Commands.SingleCandidate` | main.cpp:172-186 | when only one name matches, the candidates are exactly that index |
| `Commands.StandardNames` | main.cpp:157-164 | the table's names are `up, down, left, right, quit, help`, in that order |
| `Commands.StandardInitials` | main.cpp:157-164 | the six standard names start with six different letters, ignoring case |
| `Commands.StandardAbbreviation` | main.cpp:157-186 | every non-empty abbreviation of a standard name, in any case, resolves to that entry alone |
| `Commands.StandardEmptyCommand` | main.cpp:157-186 | the empty command selects all six entries |
| `Commands.StandardHelp` | main.cpp:188-197 | the help text is "commands I understand are: " followed by the six names in table order, separated by `", "` |
| `Commands.ApplySpec` | main.cpp:158-163 | `MoveBy(d)` moves the goblin as `MoveSpec` says; `quit` only sets the quit flag; `help` only sets the message to the help text built from the table's names; no action but `quit` touches the flag |
| `Commands.PerformSpec` | main.cpp:199-208 | zero candidates set only "I do not understand you, Sire..."; several set only "Your command seems ambiguous, Sire..."; exactly one runs the action of the entry whose name the command prefixes |
| `Commands.QuitIsFinal` | main.cpp:199-212 | once the quit flag is set, performing any command leaves it set |
| `Commands.PerformPreservesConsistency` | main.cpp:199-208 | performing any command keeps the goblin inside the maze and alone in its cell |
| `Commands.QuitOnlySetsFlag` | main.cpp:162 | performing `quit`, or any abbreviation of it, sets the quit flag and changes nothing else |
| `Commands.PerformHelp` | main.cpp:163 | performing `help`, or any abbreviation of it, sets the message to "commands I understand are: up, down, left, right, quit, help" and changes nothing else |
| `Commands.PerformLeft` | main.cpp:160 | performing `left`, or any abbreviation of it, is a move by (-1, 0) |
| `Commands.LeftStep` | main.cpp:110-121 | one `left` moves the goblin one cell left with no message, or at x = 0 leaves it there with the left-wall message |
| `Commands.RepeatLeft` | main.cpp:100-142 | n `left` commands from x = 5 reach x = max(5 - n, 0); the first five leave no message, and later ones report the left wall |
| `Commands.LeftToTheWall` | main.cpp:95-98 | from the initial world, five `left` commands reach (0, 5) with no message; a sixth stays at (0, 5) and reports the left wall |
| `Commands.CommandInterpreter.constructor` | main.cpp:156-165 | the interpreter is bound to the given world, holds the standard table, and has not quit; its state is the world's state with the quit flag clear, and it is valid exactly when the world is |
| `Commands.CommandInterpreter.FindCandidates` | main.cpp:172-186 | the loop returns `Candidates`: the indices of the matching entries, in increasing order, and no others |
| `Commands.CommandInterpreter.ShowHelp` | main.cpp:188-197 | the world's message becomes the help text built from the table's names |
| `Commands.CommandInterpreter.Apply` | main.cpp:158-163 | running an entry's action changes the state as `ApplySpec` says and keeps the world invariant |
| `Commands.CommandInterpreter.Perform` | main.cpp:199-208 | the new state is `PerformSpec` of the old state, and the world invariant is kept |
| `Commands.CommandInterpreter.HasQuit` | main.cpp:210-212 | reports whether the quit flag is set |

## Left out

- `redraw`, `draw_recent_message` and the `main` read loop (main.cpp:49-92, 149-153, 219-234): console output and reading from standard input only. `Commands.Repeat` stands in for several turns of the loop.
- src/clear_screen.cpp is not part of this model. It makes platform terminal calls and holds no logic.
- Positions.AddAssign: `+=` updates the position in place and returns a reference to it. Positions are copied by value, so the model returns the updated value instead. Aliasing through the returned reference is not modelled.
- Signed 32-bit overflow in `position + delta`, and the `size_t`-to-`int` conversion in `maze::bounds()`, are not modelled. Coordinates are unbounded integers. The game's deltas are ±1 from positions inside the 10 x 10 maze, so no overflow can arise there.
- Mazes.Maze.At and Mazes.Maze.AddItem require a position inside the maze. The source converts coordinates to `std::size_t` and indexes without a check, and it only does so for positions inside the maze.
- `std::function` closures and lambda capture are replaced by the `Action` datatype, interpreted by `CommandInterpreter.Apply`.
- `std::toupper` is modelled as ASCII upper-casing. Locale-dependent case mapping is not modelled.
- The `character` enumeration is declared in a header (character.hpp) that is not part of this model. Only `nothing` and `goblin` are modelled.
