/** The two checks run after every frame (src/bot/mod.rs, `failure_detector` and
    `level_complete_checker`). Both look at every entity of the world, including those
    tagged as gone through the void or the exit. */
module Status {
  import opened Wrappers
  import opened Maps
  import opened Progress

  /** Why a stage failed; the source reports each as a message. */
  datatype Failure = FellIntoVoid | ExitedEarly | Halted | BoxLost

  /** Some entity of `kind` stands on a tile `place`. */
  function AnyOn(v: seq<Snap>, grid: Map, kind: EntityKind, place: Place): (r: bool)
    requires grid.Valid()
    ensures r <==> exists k :: 0 <= k < |v| && v[k].kind == kind && TileAt(grid, v[k].pos) == place
  {
    if v == [] then false
    else if v[0].kind == kind && TileAt(grid, v[0].pos) == place then true
    else
      var r := AnyOn(v[1..], grid, kind, place);
      assert forall k :: 0 <= k < |v| - 1 ==> v[1..][k] == v[k + 1];
      assert r ==> exists k :: 0 < k < |v| && v[k].kind == kind && TileAt(grid, v[k].pos) == place;
      r
  }

  /** Some robot has halted. */
  function AnyHalted(v: seq<Snap>): (r: bool)
    ensures r <==> exists k :: 0 <= k < |v| && v[k].bot.Some? && v[k].bot.value.regs.halted
  {
    if v == [] then false
    else if v[0].bot.Some? && v[0].bot.value.regs.halted then true
    else
      var r := AnyHalted(v[1..]);
      assert forall k :: 0 <= k < |v| - 1 ==> v[1..][k] == v[k + 1];
      r
  }

  /** `failure_detector`: the first of these that holds, in this order: a robot on the
      void, a robot on the exit, a halted robot, a box on the void. */
  function FailureDetector(v: seq<Snap>, grid: Map): (r: Option<Failure>)
    requires grid.Valid()
    ensures r == Some(FellIntoVoid) <==> AnyOn(v, grid, Robot, Void)
    ensures r == Some(ExitedEarly) <==> !AnyOn(v, grid, Robot, Void) && AnyOn(v, grid, Robot, Exit)
    ensures r == Some(Halted) <==>
      !AnyOn(v, grid, Robot, Void) && !AnyOn(v, grid, Robot, Exit) && AnyHalted(v)
    ensures r == Some(BoxLost) <==>
      !AnyOn(v, grid, Robot, Void) && !AnyOn(v, grid, Robot, Exit) && !AnyHalted(v)
      && AnyOn(v, grid, Box, Void)
    ensures r == None <==>
      !AnyOn(v, grid, Robot, Void) && !AnyOn(v, grid, Robot, Exit) && !AnyHalted(v)
      && !AnyOn(v, grid, Box, Void)
  {
    if AnyOn(v, grid, Robot, Void) then Some(FellIntoVoid)
    else if AnyOn(v, grid, Robot, Exit) then Some(ExitedEarly)
    else if AnyHalted(v) then Some(Halted)
    else if AnyOn(v, grid, Box, Void) then Some(BoxLost)
    else None
  }

  /** Every entity stands on the exit. */
  function AllOnExit(v: seq<Snap>, grid: Map): (r: bool)
    requires grid.Valid()
    ensures r <==> forall k :: 0 <= k < |v| ==> TileAt(grid, v[k].pos) == Exit
  {
    if v == [] then true
    else
      var r := AllOnExit(v[1..], grid);
      assert forall k :: 0 <= k < |v| - 1 ==> v[1..][k] == v[k + 1];
      assert r ==> forall k :: 1 <= k < |v| ==> TileAt(grid, v[k].pos) == Exit by {
        if r {
          forall k | 1 <= k < |v| ensures TileAt(grid, v[k].pos) == Exit {
            assert v[k] == v[1..][k - 1];
          }
        }
      }
      TileAt(grid, v[0].pos) == Exit && r
  }

  /** `level_complete_checker`: the level is won when every entity is on the exit. */
  function LevelComplete(v: seq<Snap>, grid: Map): (r: bool)
    requires grid.Valid()
    ensures r <==> forall k :: 0 <= k < |v| ==> TileAt(grid, v[k].pos) == Exit
  {
    AllOnExit(v, grid)
  }

  /** A won level with a robot in it is also a failed one: the robot stands on the exit,
      which the failure detector reports before anything but the void. */
  lemma {:induction false} WonWithRobotAlsoFails(v: seq<Snap>, grid: Map, k: nat)
    requires grid.Valid() && k < |v| && v[k].kind == Robot
    requires LevelComplete(v, grid)
    ensures FailureDetector(v, grid) == Some(ExitedEarly)
  {
    assert TileAt(grid, v[k].pos) == Exit;
    assert AnyOn(v, grid, Robot, Exit);
  }

  /** A halted robot always makes the stage fail. */
  lemma HaltedRobotFails(v: seq<Snap>, grid: Map, k: nat)
    requires grid.Valid() && k < |v| && v[k].bot.Some? && v[k].bot.value.regs.halted
    ensures FailureDetector(v, grid).Some?
  {
    assert AnyHalted(v);
  }
}
