/** The movement resolver of src/bot/mod.rs: which tile changes are legal, and how a
    walking robot pushes the train of entities in front of it. */
module Movement {
  import opened Wrappers
  import opened Directions
  import opened Maps
  import opened Geometry

  /** A Bevy `Entity` handle. */
  type EntityId = nat

  /** An entity as the blocking query yields it: every entity not yet tagged as having
      left the board through the void or the exit. */
  datatype Body = Body(id: EntityId, kind: EntityKind, pos: GridPos)

  /** `draw::Step`: what the renderer is told happened to one entity. */
  datatype DrawStep = Idle | Move(from: GridPos, to: GridPos) | MoveFail | UpdateDir(was: Direction, now: Direction)

  /** One entry of the list of render steps. */
  datatype Update = Update(entity: EntityId, step: DrawStep)

  /** `iter().find` over the bodies by position: the first body standing on `p`. */
  function FindAt(bs: seq<Body>, p: GridPos): (r: Option<nat>)
    ensures r.Some? ==> r.value < |bs| && bs[r.value].pos == p
    ensures r.Some? ==> forall k :: 0 <= k < r.value ==> bs[k].pos != p
    ensures r.None? <==> forall k :: 0 <= k < |bs| ==> bs[k].pos != p
  {
    if bs == [] then None
    else if bs[0].pos == p then Some(0)
    else match FindAt(bs[1..], p)
      case None => None
      case Some(k) => Some(k + 1)
  }

  /** `entity_on_tile`: the kind of the first blocking entity on `p`, if any. */
  function EntityOnTile(bs: seq<Body>, p: GridPos): (r: Option<EntityKind>)
    ensures r.None? <==> forall k :: 0 <= k < |bs| ==> bs[k].pos != p
    ensures r.Some? ==> exists k :: 0 <= k < |bs| && bs[k].pos == p && bs[k].kind == r.value
                                   && forall j :: 0 <= j < k ==> bs[j].pos != p
  {
    match FindAt(bs, p)
    case None => None
    case Some(k) => Some(bs[k].kind)
  }

  /** The legality table of `is_valid_move`: may an entity standing on `cur` at `curPos`
      move to the neighbouring `tar` at `tarPos`? A ramp is entered from the upper floor
      going in its direction and left to the lower floor going in its direction; two
      ramps join when they face each other. So nothing enters a wall, the upper floor is
      reached only from the upper floor or a ramp, and a ramp only from a floor or a
      ramp. The source panics when the mover stands on an exit or a wall; here that move
      is refused (see `MoveAllowedAsWritten`). */
  function MoveAllowed(curPos: GridPos, cur: Place, tarPos: GridPos, tar: Place): (ok: bool)
    requires Adjacent(curPos, tarPos)
    ensures ok ==> !tar.Wall? && !cur.Exit? && !cur.Wall?
    ensures ok && tar.UpperFloor? ==> cur.UpperFloor? || cur.Ramp?
    ensures ok && tar.Ramp? && !cur.Ramp? ==> cur.UpperFloor? || cur.LowerFloor?
  {
    AdjacentHasDirection(curPos, tarPos);
    match cur
    case UpperFloor =>
      (match tar
       case LowerFloor | UpperFloor | Void | Exit => true
       case Ramp(rampDir) => DirToAdjacentTile(curPos, tarPos) == rampDir
       case Wall => false)
    case LowerFloor =>
      (match tar
       case Void | LowerFloor | Exit => true
       case Ramp(rampDir) => DirToAdjacentTile(tarPos, curPos) == rampDir
       case UpperFloor | Wall => false)
    case Ramp(rampDir) =>
      (match tar
       case Void | Exit => true
       case LowerFloor => DirToAdjacentTile(curPos, tarPos) == rampDir
       case UpperFloor => DirToAdjacentTile(tarPos, curPos) == rampDir
       // the source tests the same disjunct twice
       case Ramp(tarRampDir) =>
         IsDirsOpposite(rampDir, tarRampDir)
         && (DirToAdjacentTile(curPos, tarPos) == rampDir || DirToAdjacentTile(curPos, tarPos) == rampDir)
       case Wall => false)
    case Void => tar.Void?
    case Exit | Wall => false
  }

  /** Moving one step in direction `d` from `p` is legal on `grid`. */
  predicate Legal(grid: Map, p: GridPos, d: Direction)
    requires grid.Valid()
  {
    DirOfFacing(p, d);
    MoveAllowed(p, TileAt(grid, p), Facing(p, d), TileAt(grid, Facing(p, d)))
  }

  // ---------------------------------------------------------------------------
  // Properties of the legality table.

  /** Nothing ever moves onto a wall, nor climbs from the lower floor onto the upper
      one; whatever is in the void stays there. */
  lemma MoveAllowedBarriers(curPos: GridPos, cur: Place, tarPos: GridPos, tar: Place)
    requires Adjacent(curPos, tarPos)
    ensures tar.Wall? ==> !MoveAllowed(curPos, cur, tarPos, tar)
    ensures cur.LowerFloor? && tar.UpperFloor? ==> !MoveAllowed(curPos, cur, tarPos, tar)
    ensures cur.Void? ==> (MoveAllowed(curPos, cur, tarPos, tar) <==> tar.Void?)
  {
  }

  /** A ramp is entered from the upper floor only when travelling in its direction. */
  lemma UpperFloorOntoRamp(p: GridPos, d: Direction, rampDir: Direction)
    ensures Adjacent(p, Facing(p, d))
    ensures MoveAllowed(p, UpperFloor, Facing(p, d), Ramp(rampDir)) <==> d == rampDir
  {
    DirOfFacing(p, d);
  }

  /** Two ramps are crossed only when they face each other and the step goes the way
      the ramp being left points. */
  lemma RampOntoRamp(p: GridPos, d: Direction, rampDir: Direction, tarRampDir: Direction)
    ensures Adjacent(p, Facing(p, d))
    ensures MoveAllowed(p, Ramp(rampDir), Facing(p, d), Ramp(tarRampDir))
        <==> tarRampDir == TurnedAround(rampDir) && d == rampDir
  {
    DirOfFacing(p, d);
  }

  /** Every crossing that involves a ramp and a floor or a second ramp can be walked back:
      the way up a ramp is also the way down. */
  lemma {:induction false} RampCrossingsReversible(a: GridPos, pa: Place, b: GridPos, pb: Place)
    requires Adjacent(a, b)
    requires (pa.Ramp? && (pb.Ramp? || pb.UpperFloor? || pb.LowerFloor?))
          || (pb.Ramp? && (pa.UpperFloor? || pa.LowerFloor?))
    ensures Adjacent(b, a)
    ensures MoveAllowed(a, pa, b, pb) <==> MoveAllowed(b, pb, a, pa)
  {
    DirOfReverseStep(a, b);
    AdjacentHasDirection(a, b);
    if pa.Ramp? && pb.Ramp? {
      IsDirsOppositeSymmetric(pa.facing, pb.facing);
      TurnAroundInvolution(DirToAdjacentTile(a, b));
      TurnAroundInvolution(pa.facing);
    }
  }

  // ---------------------------------------------------------------------------
  // The train of entities in front of a walker.

  /** The cell `k` steps from `p` in direction `d`. */
  function Walked(p: GridPos, d: Direction, k: nat): GridPos
    decreases k
  {
    if k == 0 then p else Walked(Facing(p, d), d, k - 1)
  }

  /** The last of `k` steps is a step from the cell reached after `k - 1`. */
  lemma {:induction false} WalkedLast(p: GridPos, d: Direction, k: nat)
    requires k > 0
    ensures Walked(p, d, k) == Facing(Walked(p, d, k - 1), d)
    decreases k
  {
    if k > 1 {
      WalkedLast(Facing(p, d), d, k - 1);
    }
  }

  /** The first of `k + 1` steps leads to the cell from which `k` remain. */
  lemma WalkedFirst(p: GridPos, d: Direction, k: nat)
    ensures Walked(p, d, k + 1) == Walked(Facing(p, d), d, k)
  {
  }

  /** How far along direction `d` the position `p` lies. */
  function Ahead(p: GridPos, d: Direction): int {
    match d
    case Up => -p.y
    case Down => p.y
    case Left => -p.x
    case Right => p.x
  }

  /** Each step in direction `d` goes one cell further along `d`, so the cells of a walk
      are all different. */
  lemma {:induction false} AheadWalked(p: GridPos, d: Direction, k: nat)
    ensures Ahead(Walked(p, d, k), d) == Ahead(p, d) + k
    decreases k
  {
    if k > 0 {
      AheadWalked(Facing(p, d), d, k - 1);
    }
  }

  /** The farthest any body lies along direction `d` (at least 0). */
  function Reach(bs: seq<Body>, d: Direction): (r: int)
    ensures forall k :: 0 <= k < |bs| ==> Ahead(bs[k].pos, d) <= r
  {
    if bs == [] then 0
    else
      var rest := Reach(bs[1..], d);
      if Ahead(bs[0].pos, d) > rest then Ahead(bs[0].pos, d) else rest
  }

  /** The id of the first blocking entity on `p`, if any. */
  function Occupant(bs: seq<Body>, p: GridPos): (r: Option<EntityId>)
    ensures r.None? <==> FindAt(bs, p).None?
  {
    match FindAt(bs, p)
    case None => None
    case Some(k) => Some(bs[k].id)
  }

  /** The entities standing on the consecutive cells after `p` in direction `d`, nearest
      first: those a walker on `p` facing `d` would push. */
  function Train(bs: seq<Body>, p: GridPos, d: Direction): seq<EntityId>
    decreases Reach(bs, d) - Ahead(p, d)
  {
    var q := Facing(p, d);
    match Occupant(bs, q)
    case None => []
    case Some(id) =>
      assert Ahead(q, d) == Ahead(p, d) + 1 <= Reach(bs, d) by {
        var k := FindAt(bs, q).value;
        assert bs[k].pos == q;
      }
      [id] + Train(bs, q, d)
  }

  /** The train is exactly the run of occupied cells in front of the walker: cell `k + 1`
      holds its `k`-th entity, and the cell after the last one is free. */
  lemma {:induction false} TrainOccupied(bs: seq<Body>, p: GridPos, d: Direction)
    ensures var t := Train(bs, p, d);
      && (forall k :: 0 <= k < |t| ==> Occupant(bs, Walked(p, d, k + 1)) == Some(t[k]))
      && Occupant(bs, Walked(p, d, |t| + 1)).None?
    decreases Reach(bs, d) - Ahead(p, d)
  {
    var q := Facing(p, d);
    var t := Train(bs, p, d);
    WalkedFirst(p, d, 0);
    match Occupant(bs, q)
    case None =>
    case Some(id) =>
      assert Ahead(q, d) == Ahead(p, d) + 1 <= Reach(bs, d) by {
        var k := FindAt(bs, q).value;
        assert bs[k].pos == q;
      }
      var rest := Train(bs, q, d);
      TrainOccupied(bs, q, d);
      assert t == [id] + rest;
      forall k | 0 <= k < |t|
        ensures Occupant(bs, Walked(p, d, k + 1)) == Some(t[k])
      {
        WalkedFirst(p, d, k);
        if k > 0 {
          assert t[k] == rest[k - 1];
        }
      }
      WalkedFirst(p, d, |rest| + 1);
  }

  /** Every step of the walker on `p` and of its train is legal. */
  predicate TrainCanMove(grid: Map, bs: seq<Body>, p: GridPos, d: Direction)
    requires grid.Valid()
  {
    forall k :: 0 <= k <= |Train(bs, p, d)| ==> Legal(grid, Walked(p, d, k), d)
  }

  /** What a walk from `p` in direction `d` should do, stated without recursion: when the
      walker and every entity of its train can step, each moves one cell, the walker
      first; otherwise nothing moves. */
  function Pushes(entity: EntityId, p: GridPos, d: Direction, grid: Map, bs: seq<Body>): (r: seq<Update>)
    requires grid.Valid()
    ensures r != [] <==> TrainCanMove(grid, bs, p, d)
    ensures r != [] ==> |r| == |Train(bs, p, d)| + 1 && r[0] == Update(entity, Move(p, Facing(p, d)))
  {
    var t := Train(bs, p, d);
    if TrainCanMove(grid, bs, p, d) then
      var r := seq(|t| + 1, k requires 0 <= k <= |t| =>
        Update(if k == 0 then entity else t[k - 1], Move(Walked(p, d, k), Walked(p, d, k + 1))));
      assert Walked(p, d, 1) == Facing(p, d);
      r
    else []
  }

  /** A walker with nothing in front of it moves alone, if its step is legal. */
  lemma {:induction false} PushesAlone(entity: EntityId, p: GridPos, d: Direction, grid: Map, bs: seq<Body>)
    requires grid.Valid() && Occupant(bs, Facing(p, d)).None?
    ensures Pushes(entity, p, d, grid, bs) == if Legal(grid, p, d) then [Update(entity, Move(p, Facing(p, d)))] else []
  {
    assert Train(bs, p, d) == [];
    assert Walked(p, d, 0) == p;
    if Legal(grid, p, d) {
      assert TrainCanMove(grid, bs, p, d);
    } else {
      assert !Legal(grid, Walked(p, d, 0), d);
    }
  }

  /** A walker with an entity in front of it can move with its train exactly when its
      own step is legal and the entity in front can move with the rest of the train. */
  lemma {:induction false} TrainCanMoveBehind(grid: Map, bs: seq<Body>, p: GridPos, d: Direction, pushed: EntityId)
    requires grid.Valid() && Occupant(bs, Facing(p, d)) == Some(pushed)
    ensures Train(bs, p, d) == [pushed] + Train(bs, Facing(p, d), d)
    ensures TrainCanMove(grid, bs, p, d) <==> Legal(grid, p, d) && TrainCanMove(grid, bs, Facing(p, d), d)
  {
    var q := Facing(p, d);
    var t := Train(bs, p, d);
    var tn := Train(bs, q, d);
    assert t == [pushed] + tn;
    assert Walked(p, d, 0) == p;
    if TrainCanMove(grid, bs, p, d) {
      forall j | 0 <= j <= |tn|
        ensures Legal(grid, Walked(q, d, j), d)
      {
        WalkedFirst(p, d, j);
        assert Legal(grid, Walked(p, d, j + 1), d);
      }
    }
    if Legal(grid, p, d) && TrainCanMove(grid, bs, q, d) {
      forall j | 0 <= j <= |t|
        ensures Legal(grid, Walked(p, d, j), d)
      {
        if j > 0 {
          WalkedFirst(p, d, j - 1);
        }
      }
    }
  }

  /** A walker with an entity in front of it moves when its own step is legal and that
      entity moves in turn; then the walker's move comes first. */
  lemma {:induction false} PushesBehind(entity: EntityId, p: GridPos, d: Direction, grid: Map, bs: seq<Body>, pushed: EntityId)
    requires grid.Valid() && Occupant(bs, Facing(p, d)) == Some(pushed)
    ensures var q := Facing(p, d);
      var next := Pushes(pushed, q, d, grid, bs);
      Pushes(entity, p, d, grid, bs) == if Legal(grid, p, d) && next != [] then [Update(entity, Move(p, q))] + next else []
  {
    var q := Facing(p, d);
    TrainCanMoveBehind(grid, bs, p, d, pushed);
    var t := Train(bs, p, d);
    var tn := Train(bs, q, d);
    var r := Pushes(entity, p, d, grid, bs);
    var rn := Pushes(pushed, q, d, grid, bs);
    if r != [] {
      var e := [Update(entity, Move(p, q))] + rn;
      forall j | 1 <= j < |r|
        ensures r[j] == e[j]
      {
        WalkedFirst(p, d, j - 1);
        WalkedFirst(p, d, j);
      }
      assert r == e;
    }
  }

  /** `is_valid_move`: the moves that result when `entity` on `curPos` tries to step onto
      the neighbouring `tarPos`. It is empty when the step is illegal, or when the first
      blocking entity on `tarPos` cannot itself be moved one step further the same way;
      otherwise it is the entity's own move followed by the pushed entity's moves. Its
      result is what `Pushes` describes. */
  function IsValidMove(entity: EntityId, curPos: GridPos, cur: Place, tarPos: GridPos, tar: Place,
                       grid: Map, blocking: seq<Body>): (r: seq<Update>)
    requires grid.Valid() && Adjacent(curPos, tarPos)
    requires cur == TileAt(grid, curPos) && tar == TileAt(grid, tarPos)
    ensures r == Pushes(entity, curPos, DirToAdjacentTile(curPos, tarPos), grid, blocking)
    decreases Reach(blocking, DirToAdjacentTile(curPos, tarPos)) - Ahead(curPos, DirToAdjacentTile(curPos, tarPos))
  {
    var d := DirToAdjacentTile(curPos, tarPos);
    DirOfFacing(curPos, d);
    var validMove := MoveAllowed(curPos, cur, tarPos, tar);
    assert validMove == Legal(grid, curPos, d);
    var steps := if validMove then [Update(entity, Move(curPos, tarPos))] else [];
    var found := FindAt(blocking, tarPos);
    if found.Some? && validMove then
      var k := found.value;
      var e := blocking[k].id;
      var newTarPos := Facing(blocking[k].pos, d);
      DirOfFacing(tarPos, d);
      assert Ahead(tarPos, d) == Ahead(curPos, d) + 1 <= Reach(blocking, d);
      var nested := IsValidMove(e, tarPos, tar, newTarPos, TileAt(grid, newTarPos), grid, blocking);
      PushesBehind(entity, curPos, d, grid, blocking, e);
      if nested == [] then [] else steps + nested
    else if found.Some? then
      PushesBehind(entity, curPos, d, grid, blocking, blocking[found.value].id);
      []
    else
      PushesAlone(entity, curPos, d, grid, blocking);
      steps
  }

  // ---------------------------------------------------------------------------
  // Consequences for a walker.

  /** The moves of a walk form a chain: move `k` goes from the cell `k` steps ahead of the
      walker to the next one, the walker first and then its train in order, and the cell
      after the last move is free. */
  lemma {:induction false} PushesChain(entity: EntityId, p: GridPos, d: Direction, grid: Map, bs: seq<Body>)
    requires grid.Valid()
    ensures var r := Pushes(entity, p, d, grid, bs);
      r != [] ==>
        && r[0].entity == entity
        && (forall k :: 1 <= k < |r| ==> Occupant(bs, Walked(p, d, k)) == Some(r[k].entity))
        && (forall k :: 0 <= k < |r| ==> r[k].step == Move(Walked(p, d, k), Walked(p, d, k + 1)))
        && Occupant(bs, Walked(p, d, |r|)).None?
  {
    TrainOccupied(bs, p, d);
    var r := Pushes(entity, p, d, grid, bs);
    var t := Train(bs, p, d);
    if r != [] {
      assert r[0].entity == entity;
      forall k | 1 <= k < |r|
        ensures Occupant(bs, Walked(p, d, k)) == Some(r[k].entity)
      {
        assert r[k].entity == t[k - 1];
      }
    }
  }

  /** A train whose front entity faces a wall cannot be pushed: nothing moves. */
  lemma PushAgainstWallFails(entity: EntityId, p: GridPos, d: Direction, grid: Map, bs: seq<Body>)
    requires grid.Valid()
    requires TileAt(grid, Walked(p, d, |Train(bs, p, d)| + 1)).Wall?
    ensures Pushes(entity, p, d, grid, bs) == []
  {
    var n := |Train(bs, p, d)|;
    var q := Walked(p, d, n);
    WalkedLast(p, d, n + 1);
    DirOfFacing(q, d);
    MoveAllowedBarriers(q, TileAt(grid, q), Facing(q, d), TileAt(grid, Facing(q, d)));
    assert !Legal(grid, Walked(p, d, n), d);
  }

  // ---------------------------------------------------------------------------
  // Pushing an entity that stands on the exit.

  /** The legality table as the source writes it: `None` where it reaches
      `unreachable!()`, that is when the mover stands on an exit or a wall. */
  function MoveAllowedAsWritten(curPos: GridPos, cur: Place, tarPos: GridPos, tar: Place): (r: Option<bool>)
    requires Adjacent(curPos, tarPos)
    ensures r.None? <==> cur.Exit? || cur.Wall?
    ensures r.Some? ==> r.value == MoveAllowed(curPos, cur, tarPos, tar)
  {
    match cur
    case Exit | Wall => None
    case _ => Some(MoveAllowed(curPos, cur, tarPos, tar))
  }

  /** `is_valid_move` as the source writes it: `None` when one of its recursive calls
      reaches `unreachable!()`. Whenever it does not panic it agrees with `IsValidMove`. */
  function IsValidMoveAsWritten(entity: EntityId, curPos: GridPos, cur: Place, tarPos: GridPos, tar: Place,
                                grid: Map, blocking: seq<Body>): (r: Option<seq<Update>>)
    requires grid.Valid() && Adjacent(curPos, tarPos)
    requires cur == TileAt(grid, curPos) && tar == TileAt(grid, tarPos)
    ensures r.Some? ==> r.value == IsValidMove(entity, curPos, cur, tarPos, tar, grid, blocking)
    decreases Reach(blocking, DirToAdjacentTile(curPos, tarPos)) - Ahead(curPos, DirToAdjacentTile(curPos, tarPos))
  {
    var d := DirToAdjacentTile(curPos, tarPos);
    match MoveAllowedAsWritten(curPos, cur, tarPos, tar)
    case None => None
    case Some(validMove) =>
      var steps := if validMove then [Update(entity, Move(curPos, tarPos))] else [];
      var found := FindAt(blocking, tarPos);
      if found.Some? && validMove then
        var k := found.value;
        var newTarPos := Facing(blocking[k].pos, d);
        DirOfFacing(curPos, d);
        DirOfFacing(tarPos, d);
        assert Ahead(tarPos, d) == Ahead(curPos, d) + 1 <= Reach(blocking, d);
        match IsValidMoveAsWritten(blocking[k].id, tarPos, tar, newTarPos, TileAt(grid, newTarPos), grid, blocking)
        case None => None
        case Some(nested) => Some(if nested == [] then [] else steps + nested)
      else Some(steps)
  }

  /** As written, a legal walk onto the exit where an entity still stands panics: the
      pushed entity's own move starts from the exit. */
  lemma PushIntoExitPanics(entity: EntityId, p: GridPos, d: Direction, grid: Map, bs: seq<Body>)
    requires grid.Valid() && TileAt(grid, Facing(p, d)).Exit?
    requires Legal(grid, p, d) && Occupant(bs, Facing(p, d)).Some?
    ensures Adjacent(p, Facing(p, d))
    ensures IsValidMoveAsWritten(entity, p, TileAt(grid, p), Facing(p, d), TileAt(grid, Facing(p, d)), grid, bs).None?
  {
    var q := Facing(p, d);
    DirOfFacing(p, d);
    var k := FindAt(bs, q).value;
    DirOfFacing(q, d);
    assert bs[k].pos == q;
  }

  /** The model instead refuses the push: the walker shows a failed move and nothing
      moves, because nothing may step off the exit. */
  lemma PushIntoExitFails(entity: EntityId, p: GridPos, d: Direction, grid: Map, bs: seq<Body>)
    requires grid.Valid() && TileAt(grid, Facing(p, d)).Exit? && Occupant(bs, Facing(p, d)).Some?
    ensures Adjacent(p, Facing(p, d))
    ensures IsValidMove(entity, p, TileAt(grid, p), Facing(p, d), TileAt(grid, Facing(p, d)), grid, bs) == []
  {
    var q := Facing(p, d);
    DirOfFacing(p, d);
    TrainCanMoveBehind(grid, bs, p, d, Occupant(bs, q).value);
    assert Walked(q, d, 0) == q;
    DirOfFacing(q, d);
    assert !Legal(grid, Walked(q, d, 0), d);
  }
}
