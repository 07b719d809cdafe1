/**
 * The world: the maze, the goblin's position and the most recent message.
 * A move displaces the goblin, or is rejected as a whole with one wall
 * message per axis that would leave the maze.
 */
module Worlds {
  import opened Text
  import opened Positions
  import opened Mazes

  const RightWall: string := "that move would take me into the right wall"
  const LeftWall: string := "that move would take me into the left wall"
  const BottomWall: string := "that move would take me into the bottom wall"
  const TopWall: string := "that move would take me into the top wall"

  /** The wall message for the x axis, if the x test fails. */
  function XWalls(p: Position): (w: seq<string>)
    ensures w == [] <==> 0 <= p.x < Width
    ensures p.x < 0 ==> w == [LeftWall]
    ensures Width <= p.x ==> w == [RightWall]
  {
    match TestLimitsX(p, Bounds())
    case 1 => [RightWall]
    case -1 => [LeftWall]
    case _ => []
  }

  /** The wall message for the y axis, if the y test fails. */
  function YWalls(p: Position): (w: seq<string>)
    ensures w == [] <==> 0 <= p.y < Height
    ensures p.y < 0 ==> w == [TopWall]
    ensures Height <= p.y ==> w == [BottomWall]
  {
    match TestLimitsY(p, Bounds())
    case 1 => [BottomWall]
    case -1 => [TopWall]
    case _ => []
  }

  /** The message a move to `p` leaves: the x wall, then the y wall, joined by ", ". */
  function MoveMessage(p: Position): (m: string)
    ensures m == "" <==> InMaze(p)
  {
    JoinEmpty(XWalls(p) + YWalls(p), ", ");
    Join(XWalls(p) + YWalls(p), ", ")
  }

  /** A move that leaves the maze on both axes reports the x wall first, then the y wall. */
  lemma MoveMessageBothWalls(p: Position)
    requires !(0 <= p.x < Width) && !(0 <= p.y < Height)
    ensures MoveMessage(p) == (if p.x < 0 then LeftWall else RightWall) + ", " + (if p.y < 0 then TopWall else BottomWall)
  {
    var ws := XWalls(p) + YWalls(p);
    assert ws == [ws[0]] + [ws[1]];
    JoinSnoc([ws[0]], ws[1], ", ");
  }

  /** A move that leaves the maze on exactly one axis reports that axis's wall alone. */
  lemma MoveMessageOneWall(p: Position)
    ensures 0 <= p.y < Height && p.x < 0 ==> MoveMessage(p) == LeftWall
    ensures 0 <= p.y < Height && Width <= p.x ==> MoveMessage(p) == RightWall
    ensures 0 <= p.x < Width && p.y < 0 ==> MoveMessage(p) == TopWall
    ensures 0 <= p.x < Width && Height <= p.y ==> MoveMessage(p) == BottomWall
  {
  }

  /** The grid holding the goblin at `p` and nothing elsewhere. */
  function GoblinGrid(p: Position): (g: seq<Character>)
    requires InMaze(p)
    ensures |g| == Extent && g[PosIndex(p)] == Goblin
    ensures forall q :: InMaze(q) && q != p ==> g[PosIndex(q)] == Nothing
  {
    var g := seq(Extent, i => if i == PosIndex(p) then Goblin else Nothing);
    assert forall q :: InMaze(q) && q != p ==> g[PosIndex(q)] == Nothing by {
      forall q | InMaze(q) && q != p ensures g[PosIndex(q)] == Nothing {
        IndexInjective(p, q);
      }
    }
    g
  }

  /** The observable state of a world, as a value. */
  datatype WorldState = WorldState(grid: seq<Character>, pos: Position, message: string)

  /** The goblin stands inside the maze, in the only goblin cell of the grid. */
  ghost predicate Consistent(s: WorldState)
  {
    InMaze(s.pos) && s.grid == GoblinGrid(s.pos)
  }

  /** A grid of the right size and a position inside it. */
  predicate WellFormed(s: WorldState)
  {
    |s.grid| == Extent && InMaze(s.pos)
  }

  /** The state right after construction. */
  function InitialState(): (s: WorldState)
    ensures Consistent(s) && s.pos == Position(5, 5) && s.message == ""
  {
    WorldState(GoblinGrid(Position(5, 5)), Position(5, 5), "")
  }

  /**
   * The effect of moving the goblin by `d`: the message is rebuilt from
   * scratch; if neither axis fails and the position changes, the old cell
   * is cleared, the new one gets the goblin and the position is updated.
   */
  function MoveSpec(s: WorldState, d: Delta): (r: WorldState)
    requires WellFormed(s)
    ensures WellFormed(r)
    ensures r.message == MoveMessage(Plus(s.pos, d))
    ensures r.message == "" <==> InMaze(Plus(s.pos, d))
    ensures d == Delta(0, 0) ==> r.grid == s.grid && r.pos == s.pos
    ensures InMaze(Plus(s.pos, d)) ==> r.pos == Plus(s.pos, d)
    ensures !InMaze(Plus(s.pos, d)) ==> r.pos == s.pos && r.grid == s.grid
    ensures InMaze(Plus(s.pos, d)) && d != Delta(0, 0) ==>
      r.grid[PosIndex(s.pos)] == Nothing && r.grid[PosIndex(r.pos)] == Goblin
    ensures forall q :: InMaze(q) && q != s.pos && q != r.pos ==> r.grid[PosIndex(q)] == s.grid[PosIndex(q)]
  {
    var np := Plus(s.pos, d);
    var moveError := TestLimitsX(np, Bounds()) != 0 || TestLimitsY(np, Bounds()) != 0;
    PlusNegate(s.pos, d);
    if !moveError && NotEqual(np, s.pos) then
      var r := WorldState(s.grid[PosIndex(s.pos) := Nothing][PosIndex(np) := Goblin], np, MoveMessage(np));
      assert forall q :: InMaze(q) && q != s.pos && q != np ==> r.grid[PosIndex(q)] == s.grid[PosIndex(q)] by {
        forall q | InMaze(q) && q != s.pos && q != np ensures r.grid[PosIndex(q)] == s.grid[PosIndex(q)] {
          IndexInjective(q, s.pos);
          IndexInjective(q, np);
        }
      }
      IndexInjective(s.pos, np);
      r
    else
      s.(message := MoveMessage(np))
  }

  /** Every move keeps the goblin inside the maze and alone in its cell. */
  lemma MovePreservesConsistency(s: WorldState, d: Delta)
    requires Consistent(s)
    ensures Consistent(MoveSpec(s, d))
  {
  }

  class World {
    const maze: Maze
    var recentMessage: string
    var goblinPos: Position

    ghost predicate Valid()
      reads this, maze, maze.data
    {
      maze.Valid() && Consistent(State())
    }

    /** The world's state as a value. */
    ghost function State(): WorldState
      reads this, maze, maze.data
    {
      WorldState(maze.data[..], goblinPos, recentMessage)
    }

    /** An empty maze, no message, and the goblin placed at (5, 5). */
    constructor ()
      ensures Valid() && fresh(maze) && fresh(maze.data)
      ensures State() == InitialState()
      ensures maze.At(5, 5) == Goblin
    {
      maze := new Maze();
      recentMessage := "";
      goblinPos := Position(5, 5);
      new;
      maze.data[PosIndex(goblinPos)] := Goblin;
      assert maze.data[..] == GoblinGrid(goblinPos);
    }

    /** Append `s` to the message, preceded by ", " unless the message is empty. */
    method AppendMessage(s: string)
      modifies this`recentMessage
      ensures recentMessage == if old(recentMessage) == "" then s else old(recentMessage) + ", " + s
    {
      if recentMessage != "" {
        recentMessage := recentMessage + ", ";
      }
      recentMessage := recentMessage + s;
    }

    /** Move the goblin by `d`, or report the wall(s) in the way and stay put. */
    method MoveGoblin(d: Delta)
      requires Valid()
      modifies this, maze.data
      ensures Valid()
      ensures State() == MoveSpec(old(State()), d)
    {
      recentMessage := "";
      var moveError := false;
      var newPos := Add(goblinPos, d);
      ghost var walls: seq<string> := [];
      match TestLimitsX(newPos, Bounds()) {
        case 1 =>
          AppendMessage(RightWall);
          walls := walls + [RightWall];
          moveError := true;
        case -1 =>
          AppendMessage(LeftWall);
          walls := walls + [LeftWall];
          moveError := true;
        case _ =>
      }
      JoinSnoc([], RightWall, ", ");
      JoinSnoc([], LeftWall, ", ");
      assert walls == XWalls(newPos) && recentMessage == Join(walls, ", ");
      match TestLimitsY(newPos, Bounds()) {
        case 1 =>
          JoinSnoc(walls, BottomWall, ", ");
          AppendMessage(BottomWall);
          walls := walls + [BottomWall];
          moveError := true;
        case -1 =>
          JoinSnoc(walls, TopWall, ", ");
          AppendMessage(TopWall);
          walls := walls + [TopWall];
          moveError := true;
        case _ =>
          assert walls + [] == walls;
      }
      assert walls == XWalls(newPos) + YWalls(newPos);
      assert recentMessage == MoveMessage(newPos);
      if !moveError && NotEqual(newPos, goblinPos) {
        maze.data[PosIndex(goblinPos)] := Nothing;
        maze.data[PosIndex(newPos)] := Goblin;
        goblinPos := newPos;
      }
      MovePreservesConsistency(old(State()), d);
    }
  }
}
