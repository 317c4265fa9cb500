/** Optional values: a food position that has not been placed yet, a food
    picker that has not returned within the draws it was given. */
module Options {
  datatype Option<T> = None | Some(value: T)
}

/** The 50 x 50 board, its cells, the four directions and one step of the head
    with wrap-around at the edges. */
module Grid {
  /** Cells are numbered 1..GridSize on each axis, as CSS grid lines are. */
  const GridSize: int := 50

  datatype Cell = Cell(x: int, y: int)

  datatype Direction = Up | Down | Left | Right

  predicate InRange(v: int) { 1 <= v <= GridSize }

  predicate InBounds(c: Cell) { InRange(c.x) && InRange(c.y) }

  predicate AllInBounds(cells: seq<Cell>) { forall c :: c in cells ==> InBounds(c) }

  function Opposite(d: Direction): Direction
  {
    match d
    case Up => Down
    case Down => Up
    case Left => Right
    case Right => Left
  }

  /** Column change of one step: LEFT decrements x, RIGHT increments it. */
  function Dx(d: Direction): int
  {
    match d
    case Left => -1
    case Right => 1
    case _ => 0
  }

  /** Row change of one step: rows grow downwards, so UP decrements y. */
  function Dy(d: Direction): int
  {
    match d
    case Up => -1
    case Down => 1
    case _ => 0
  }

  /** Normalises one coordinate after a move: anything past the last line
      re-enters at line 1, anything before line 1 re-enters at the last line,
      and a coordinate on the board is left as it is. Never clamps. */
  function Wrap(v: int): (r: int)
    ensures InRange(r)
    ensures InRange(v) ==> r == v
    ensures v > GridSize ==> r == 1
    ensures v < 1 ==> r == GridSize
  {
    if v > GridSize then 1 else if v < 1 then GridSize else v
  }

  /** The head after one step in direction `d`, each axis wrapped on its own.
      From a cell on the board this is the neighbour on the 50 x 50 torus. */
  function NextHead(head: Cell, d: Direction): (r: Cell)
    ensures InBounds(r)
    ensures InBounds(head) ==>
      r.x == (head.x - 1 + Dx(d)) % GridSize + 1 && r.y == (head.y - 1 + Dy(d)) % GridSize + 1
    ensures InBounds(head) ==> r != head
  {
    Cell(Wrap(head.x + Dx(d)), Wrap(head.y + Dy(d)))
  }

  /** Reversing twice is the identity, and no direction is its own opposite. */
  lemma OppositeInvolution(d: Direction)
    ensures Opposite(Opposite(d)) == d && Opposite(d) != d
  {
  }
}
