/** Grid geometry shared by the interpreter and the movement resolver
    (src/bot/mod.rs): the cell one step away in a direction, the three turns, the
    direction between two neighbouring cells and opposite directions. */
module Geometry {
  import opened Directions
  import opened Maps

  /** The cell one step from `p` in direction `d`; `Up` decreases `y`. This is the
      `match` on the direction that the source repeats wherever a robot looks or walks
      and wherever a push continues. */
  function Facing(p: GridPos, d: Direction): (q: GridPos)
    ensures Adjacent(p, q)
  {
    match d
    case Up => GridPos(p.x, p.y - 1)
    case Down => GridPos(p.x, p.y + 1)
    case Left => GridPos(p.x - 1, p.y)
    case Right => GridPos(p.x + 1, p.y)
  }

  /** `TurnAround`'s table: always a different direction. */
  function TurnedAround(d: Direction): (r: Direction)
    ensures r != d
  {
    match d
    case Up => Down
    case Down => Up
    case Left => Right
    case Right => Left
  }

  /** `TurnLeft`'s table: a quarter turn, neither the same nor the opposite direction. */
  function TurnedLeft(d: Direction): (r: Direction)
    ensures r != d && r != TurnedAround(d)
  {
    match d
    case Up => Left
    case Down => Right
    case Left => Down
    case Right => Up
  }

  /** `TurnRight`'s table: the quarter turn the other way, so the three turns give the
      three other directions. */
  function TurnedRight(d: Direction): (r: Direction)
    ensures r != d && r != TurnedAround(d) && r != TurnedLeft(d)
  {
    match d
    case Up => Right
    case Down => Left
    case Left => Up
    case Right => Down
  }

  lemma TurnLeftFourTimes(d: Direction)
    ensures TurnedLeft(TurnedLeft(TurnedLeft(TurnedLeft(d)))) == d
  {
  }

  lemma TurnLeftThenRight(d: Direction)
    ensures TurnedRight(TurnedLeft(d)) == d && TurnedLeft(TurnedRight(d)) == d
  {
  }

  lemma TurnAroundInvolution(d: Direction)
    ensures TurnedAround(TurnedAround(d)) == d
    ensures TurnedAround(d) != d
    ensures TurnedAround(d) == TurnedLeft(TurnedLeft(d))
  {
  }

  /** Two cells of which one is a step away from the other. */
  predicate Adjacent(a: GridPos, b: GridPos) {
    (a.y == b.y && (a.x + 1 == b.x || a.x == b.x + 1))
    || (a.x == b.x && (a.y + 1 == b.y || a.y == b.y + 1))
  }

  /** The inputs on which `dir_to_adjacent_tile` does not panic: one of its four
      coordinate tests succeeds. */
  predicate HasDirection(from: GridPos, to: GridPos) {
    from.x + 1 == to.x || from.x == to.x + 1 || from.y + 1 == to.y || from.y == to.y + 1
  }

  /** `dir_to_adjacent_tile`: the direction of the step from `from` to `to`. The source
      tests the `x` coordinates first and panics when no test succeeds. */
  function DirToAdjacentTile(from: GridPos, to: GridPos): (d: Direction)
    requires HasDirection(from, to)
    ensures Adjacent(from, to) ==> Facing(from, d) == to
  {
    if from.x + 1 == to.x then Right
    else if from.x == to.x + 1 then Left
    else if from.y + 1 == to.y then Down
    else Up
  }

  lemma AdjacentHasDirection(a: GridPos, b: GridPos)
    requires Adjacent(a, b)
    ensures HasDirection(a, b) && HasDirection(b, a) && Adjacent(b, a)
  {
  }

  /** A step in direction `d` is recognised as a step in direction `d`. */
  lemma DirOfFacing(p: GridPos, d: Direction)
    ensures Adjacent(p, Facing(p, d))
    ensures DirToAdjacentTile(p, Facing(p, d)) == d
  {
  }

  /** Seen from the other end, a step goes the opposite way. */
  lemma DirOfReverseStep(a: GridPos, b: GridPos)
    requires Adjacent(a, b)
    ensures HasDirection(b, a)
    ensures DirToAdjacentTile(b, a) == TurnedAround(DirToAdjacentTile(a, b))
  {
  }

  /** `is_dirs_opposite`. */
  function IsDirsOpposite(d1: Direction, d2: Direction): (r: bool)
    ensures r <==> d2 == TurnedAround(d1)
  {
    match (d1, d2)
    case (Up, Down) => true
    case (Down, Up) => true
    case (Left, Right) => true
    case (Right, Left) => true
    case _ => false
  }

  lemma IsDirsOppositeSymmetric(d1: Direction, d2: Direction)
    ensures IsDirsOpposite(d1, d2) == IsDirsOpposite(d2, d1)
    ensures !IsDirsOpposite(d1, d1)
  {
  }
}
