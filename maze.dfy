/**
 * The fixed 10 x 10 maze: a flat array of cells stored row-major, cell
 * (x, y) at index y * Width + x.
 */
module Mazes {
  import opened Positions

  /** What a cell holds; `Nothing` is the value-initialised (zero) one. */
  datatype Character = Nothing | Goblin

  const Width: nat := 10
  const Height: nat := 10
  const Extent: nat := Width * Height

  /** The box [0, Width) x [0, Height) that every move is tested against. */
  function Bounds(): (bb: BoundingBox)
    ensures forall p: Position :: Contains(bb, p) <==> 0 <= p.x < Width && 0 <= p.y < Height
  {
    BoundingBox(Position(0, 0), Delta(Width, Height))
  }

  /** A position that names a cell of the maze. */
  predicate InMaze(p: Position)
  {
    0 <= p.x < Width && 0 <= p.y < Height
  }

  /** Row-major index of cell (x, y); the column and row can be read back from it. */
  function Index(x: nat, y: nat): (i: nat)
    requires x < Width && y < Height
    ensures i < Extent
    ensures i % Width == x && i / Width == y
  {
    y * Width + x
  }

  /** Index of the cell at a position of the maze. */
  function PosIndex(p: Position): (i: nat)
    requires InMaze(p)
    ensures i < Extent
  {
    Index(p.x, p.y)
  }

  /** Distinct cells have distinct indices. */
  lemma IndexInjective(p: Position, q: Position)
    requires InMaze(p) && InMaze(q)
    ensures PosIndex(p) == PosIndex(q) <==> p == q
  {
  }

  /** The grid of a freshly constructed maze. */
  function EmptyGrid(): (g: seq<Character>)
    ensures |g| == Extent && forall i :: 0 <= i < Extent ==> g[i] == Nothing
  {
    seq(Extent, i => Nothing)
  }

  class Maze {
    /** The cells, row-major; a fixed-size buffer. */
    const data: array<Character>

    ghost predicate Valid()
    {
      data.Length == Extent
    }

    /** Every cell starts out value-initialised, i.e. `Nothing`. */
    constructor ()
      ensures Valid() && fresh(data)
      ensures data[..] == EmptyGrid()
    {
      data := new Character[Extent](i => Nothing);
    }

    /** The cell at (x, y). */
    function At(x: nat, y: nat): (c: Character)
      requires Valid() && x < Width && y < Height
      reads data
      ensures c == data[..][Index(x, y)]
    {
      data[Index(x, y)]
    }

    /** Store `c` in the cell at `p`; every other cell is left alone. */
    method AddItem(p: Position, c: Character)
      requires Valid() && InMaze(p)
      modifies data
      ensures Valid()
      ensures data[..] == old(data[..])[PosIndex(p) := c]
      ensures At(p.x, p.y) == c
      ensures forall q :: InMaze(q) && q != p ==> At(q.x, q.y) == old(At(q.x, q.y))
    {
      data[PosIndex(p)] := c;
      forall q | InMaze(q) && q != p
        ensures At(q.x, q.y) == old(At(q.x, q.y))
      {
        IndexInjective(p, q);
      }
    }
  }
}
