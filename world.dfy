/** The entity store the systems of src/bot/mod.rs run on, and those systems as methods
    that update it in place: `apply_bot_actions` and `progress_world`. Each is proved to
    do what the value-level description in module `Progress` says. */
module Arena {
  import opened Wrappers
  import opened Directions
  import opened Maps
  import opened Geometry
  import opened Bot
  import opened Movement
  import opened Progress

  /** A robot's components: its program and its state, updated in place. */
  datatype Robot = Robot(data: BotData, state: BotState)

  /** An entity with its components: kind, grid position, the `VoidedOrExited` tag and,
      for a robot, `BotData` and `BotState`. */
  datatype Entity = Entity(id: EntityId, kind: EntityKind, pos: GridPos, gone: bool, robot: Option<Robot>)

  function StateOf(e: Entity): set<BotState> {
    if e.robot.Some? then {e.robot.value.state} else {}
  }

  ghost function SnapOf(e: Entity): Snap
    reads StateOf(e)
  {
    Snap(e.id, e.kind, e.pos, e.gone,
         if e.robot.Some? then Some(BotSnap(e.robot.value.data, e.robot.value.state.Regs())) else None)
  }

  /** The entities agree with the snapshots on everything but the robots' registers. */
  predicate Matches(es: seq<Entity>, v: seq<Snap>) {
    && |es| == |v|
    && forall k :: 0 <= k < |es| ==>
      && v[k].id == es[k].id && v[k].kind == es[k].kind && v[k].pos == es[k].pos
      && v[k].gone == es[k].gone && (v[k].bot.Some? <==> es[k].robot.Some?)
  }

  /** The blocking query on the store. */
  function Blockers(es: seq<Entity>): (bs: seq<Body>)
    ensures forall v :: Matches(es, v) ==> bs == Blocking(v)
  {
    if es == [] then []
    else
      var last := es[|es| - 1];
      var rest := Blockers(es[..|es| - 1]);
      assert forall v :: Matches(es, v) ==> Matches(es[..|es| - 1], v[..|v| - 1]);
      rest + (if last.gone then [] else [Body(last.id, last.kind, last.pos)])
  }

  /** `get(id)` on the store. */
  function Find(es: seq<Entity>, id: EntityId): (r: Option<nat>)
    ensures forall v :: Matches(es, v) ==> r == IndexOf(v, id)
  {
    if es == [] then None
    else if es[0].id == id then Some(0)
    else
      assert forall v :: Matches(es, v) ==> Matches(es[1..], v[1..]);
      match Find(es[1..], id)
      case None => None
      case Some(k) => Some(k + 1)
  }

  /** The robot query's ids, collected in arena order. */
  function RobotIdsOf(es: seq<Entity>): (ids: seq<EntityId>)
    ensures forall v :: Matches(es, v) ==> ids == RobotIds(v)
  {
    if es == [] then []
    else
      assert forall v :: Matches(es, v) ==> Matches(es[1..], v[1..]);
      var rest := RobotIdsOf(es[1..]);
      if es[0].robot.Some? then [es[0].id] + rest else rest
  }

  /** The entities of a level and their components. */
  class World {
    var entities: seq<Entity>

    /** The robots' state objects. */
    ghost function States(): set<BotState>
      reads this
    {
      set k | 0 <= k < |entities| && entities[k].robot.Some? :: entities[k].robot.value.state
    }

    /** The world as a value. */
    ghost function View(): (v: seq<Snap>)
      reads this, States()
      ensures Matches(entities, v)
    {
      seq(|entities|, k requires 0 <= k < |entities| reads this, States() => SnapOf(entities[k]))
    }

    /** No two robots share a state object; the world is one a tick can run on. */
    ghost predicate Valid()
      reads this, States()
    {
      && (forall i, j :: 0 <= i < |entities| && 0 <= j < |entities| && i != j
            && entities[i].robot.Some? && entities[j].robot.Some?
            ==> entities[i].robot.value.state != entities[j].robot.value.state)
      && Good(View())
    }

    /** Replaces the registers of the robot at index `i`. */
    method SetRegs(i: nat, regs: Registers)
      requires Valid() && i < |entities| && entities[i].robot.Some?
      requires regs.currentInstruction < ProgramSize && (regs.halted ==> regs.steps == [])
      modifies States()
      ensures entities == old(entities)
      ensures View() == WithRegs(old(View()), i, regs)
      ensures Valid()
    {
      ghost var v := View();
      var st := entities[i].robot.value.state;
      st.halted, st.prevInstruction, st.currentInstruction, st.steps, st.dir :=
        regs.halted, regs.prevInstruction, regs.currentInstruction, regs.steps, regs.dir;
      assert forall k :: 0 <= k < |entities| && k != i ==> View()[k] == v[k];
      RegsReplaced(v, View(), i, regs);
    }

    /** Sets the grid position of the entity at index `j`. */
    method SetPos(j: nat, to: GridPos)
      requires Valid() && j < |entities|
      modifies this
      ensures |entities| == |old(entities)|
      ensures forall k :: 0 <= k < |entities| ==> entities[k].robot == old(entities)[k].robot
      ensures View() == old(View())[j := old(View())[j].(pos := to)]
      ensures Valid()
    {
      ghost var v := View();
      entities := entities[j := entities[j].(pos := to)];
      assert States() == old(States()) by {
        assert forall k :: 0 <= k < |entities| ==> entities[k].robot == old(entities)[k].robot;
      }
      assert forall k :: 0 <= k < |entities| && k != j ==> View()[k] == v[k];
      assert View() == v[j := v[j].(pos := to)];
      assert SameShape(v, View());
      SameShapeGood(v, View());
    }

    /** Moves the entity at index `j` onto `to`; landing on the void or the exit halts a
        robot and clears its queue. */
    method MoveEntity(j: nat, to: GridPos, grid: Map)
      requires Valid() && grid.Valid() && j < |entities|
      modifies this, States()
      ensures States() == old(States())
      ensures View() == old(View())[j := Land(old(View())[j], to, grid)]
      ensures Valid()
    {
      ghost var v := View();
      if (TileAt(grid, to).Void? || TileAt(grid, to).Exit?) && entities[j].robot.Some? {
        var st := entities[j].robot.value.state;
        SetRegs(j, Registers(true, st.prevInstruction, st.currentInstruction, [], st.dir));
      }
      SetPos(j, to);
      assert States() == old(States()) by {
        assert forall k :: 0 <= k < |entities| ==> entities[k].robot == old(entities)[k].robot;
      }
    }

    /** The robot at index `i` runs its interpreter once, seeing the first blocking entity
        on the cell it faces. */
    method RunInterpreter(i: nat, grid: Map)
      requires Valid() && grid.Valid() && i < |entities| && entities[i].robot.Some?
      modifies States()
      ensures entities == old(entities)
      ensures View() == Interpreted(old(View()), i, grid)
      ensures Valid()
    {
      ghost var v := View();
      var data := entities[i].robot.value.data;
      var st := entities[i].robot.value.state;
      var pos := entities[i].pos;
      var kind := EntityOnTile(Blockers(entities), Facing(pos, st.dir));
      InterpretInvariant(st.Regs(), data.instructions, pos, grid, kind);
      RunBotInterpreter(data, pos, st, grid, kind);
      assert forall k :: 0 <= k < |entities| && k != i ==> View()[k] == v[k];
      RegsReplaced(v, View(), i, st.Regs());
    }

    /** `apply_bot_actions` for the robot at index `i`: pops its last queued step and
        carries it out, returning the render steps and the ids to tag at the end of the
        tick. */
    method ApplyBotActions(i: nat, grid: Map) returns (updates: seq<Update>, tags: seq<EntityId>)
      requires Valid() && grid.Valid() && i < |entities| && entities[i].robot.Some?
      modifies this, States()
      ensures States() == old(States()) && Valid()
      ensures Outcome(View(), updates, tags) == ActionOutcome(old(View()), i, grid)
    {
      ghost var v := View();
      var id := entities[i].id;
      var st := entities[i].robot.value.state;
      if |st.steps| == 0 {
        return [], [];
      }
      var action := st.steps[|st.steps| - 1];
      var popped := Registers(st.halted, st.prevInstruction, st.currentInstruction, st.steps[..|st.steps| - 1], st.dir);
      assert popped == v[i].bot.value.regs.(steps := v[i].bot.value.regs.steps[..|st.steps| - 1]);
      match action {
        case Wait =>
          SetRegs(i, popped);
          updates, tags := [Update(id, Idle)], [];
        case UpdateDir(d) =>
          updates, tags := [Update(id, DrawStep.UpdateDir(st.dir, d))], [];
          SetRegs(i, popped.(dir := d));
        case Walk =>
          SetRegs(i, popped);
          updates, tags := Walk(i, grid);
      }
    }

    /** The `Step::Walk` arm of `apply_bot_actions` for the robot at index `i`. */
    method Walk(i: nat, grid: Map) returns (updates: seq<Update>, tags: seq<EntityId>)
      requires Valid() && grid.Valid() && i < |entities| && entities[i].robot.Some?
      modifies this, States()
      ensures States() == old(States()) && Valid()
      ensures Outcome(View(), updates, tags) == WalkOutcome(old(View()), i, grid)
    {
      var id := entities[i].id;
      var pos := entities[i].pos;
      var dir := entities[i].robot.value.state.dir;
      var tar := Facing(pos, dir);
      DirOfFacing(pos, dir);
      var moves := IsValidMove(id, pos, TileAt(grid, pos), tar, TileAt(grid, tar), grid, Blockers(entities));
      if moves == [] {
        updates, tags := [Update(id, MoveFail)], [];
      } else {
        updates := moves;
        tags := ApplyMovesInPlace(moves, grid);
      }
    }

    /** The loop over the render steps of a walk: each move relocates its entity, and an
        entity moved onto the void or the exit is halted and put on the list to tag. */
    method ApplyMovesInPlace(moves: seq<Update>, grid: Map) returns (tags: seq<EntityId>)
      requires Valid() && grid.Valid()
      modifies this, States()
      ensures States() == old(States()) && Valid()
      ensures View() == ApplyMoves(old(View()), moves, grid)
      ensures tags == MoveTags(moves, grid)
    {
      ghost var v := View();
      tags := [];
      for k := 0 to |moves|
        invariant Valid() && States() == old(States())
        invariant View() == ApplyMoves(v, moves[..k], grid)
        invariant tags == MoveTags(moves[..k], grid)
      {
        assert moves[..k + 1][..k] == moves[..k];
        var tag := ApplyMoveInPlace(moves[k], grid);
        tags := tags + tag;
      }
      assert moves[..|moves|] == moves;
    }

    /** One render step of the loop above. */
    method ApplyMoveInPlace(u: Update, grid: Map) returns (tag: seq<EntityId>)
      requires Valid() && grid.Valid()
      modifies this, States()
      ensures States() == old(States()) && Valid()
      ensures View() == ApplyMove(old(View()), u, grid)
      ensures tag == if u.step.Move? && (TileAt(grid, u.step.to).Void? || TileAt(grid, u.step.to).Exit?)
                     then [u.entity] else []
    {
      tag := [];
      if u.step.Move? {
        var to := u.step.to;
        if TileAt(grid, to).Void? || TileAt(grid, to).Exit? {
          tag := [u.entity];
        }
        var j := Find(entities, u.entity);
        if j.Some? {
          MoveEntity(j.value, to, grid);
        }
      }
    }

    /** Applies the deferred `VoidedOrExited` tags. */
    method TagEntities(tags: seq<EntityId>)
      requires Valid()
      modifies this
      ensures View() == TagAll(old(View()), tags)
      ensures Valid()
    {
      ghost var v := View();
      entities := seq(|entities|, k requires 0 <= k < |entities| reads this =>
        entities[k].(gone := entities[k].gone || entities[k].id in tags));
      assert States() == old(States()) by {
        assert forall k :: 0 <= k < |entities| ==> entities[k].robot == old(entities)[k].robot;
      }
      assert forall k :: 0 <= k < |entities| ==> View()[k] == TagAll(v, tags)[k];
      assert forall k :: 0 <= k < |entities| ==> View()[k].id == v[k].id && View()[k].bot == v[k].bot;
    }

    /** `progress_world`: unless render steps of an earlier tick are still queued, every
        robot, in ascending id order, runs its interpreter once and carries out one step;
        the frames of render steps are returned and the tags applied at the end. */
    method ProgressWorld(grid: Map, pending: nat) returns (frames: seq<seq<Update>>)
      requires Valid() && grid.Valid()
      modifies this, States()
      ensures Valid()
      ensures (View(), frames) == Tick(old(View()), grid, pending)
    {
      if pending != 0 {
        return [];
      }
      var bots := RobotIdsOf(entities);
      bots := SortIds(bots);
      var tags;
      frames, tags := RobotTurns(bots, grid);
      TagEntities(tags);
    }

    /** The loop of `progress_world`: every robot of `bots` takes its turn, in order. */
    method RobotTurns(bots: seq<EntityId>, grid: Map) returns (frames: seq<seq<Update>>, tags: seq<EntityId>)
      requires Valid() && grid.Valid()
      modifies this, States()
      ensures Valid() && States() == old(States())
      ensures TickState(View(), frames, tags) == Turns(TickState(old(View()), [], []), bots, grid)
    {
      frames := [];
      tags := [];
      ghost var start := TickState(View(), [], []);
      for n := 0 to |bots|
        invariant Valid() && States() == old(States())
        invariant Turns(start, bots[..n], grid) == TickState(View(), frames, tags)
      {
        assert bots[..n + 1][..n] == bots[..n];
        frames, tags := RobotTurn(bots[n], grid, frames, tags);
      }
      assert bots[..|bots|] == bots;
    }

    /** One iteration of `progress_world`'s loop, for the robot `id`, appending its render
        steps to `frames` and its ids to tag to `tags`. */
    method RobotTurn(id: EntityId, grid: Map, frames: seq<seq<Update>>, tags: seq<EntityId>)
      returns (frames': seq<seq<Update>>, tags': seq<EntityId>)
      requires Valid() && grid.Valid()
      modifies this, States()
      ensures Valid() && States() == old(States())
      ensures TickState(View(), frames', tags') == BotTurn(TickState(old(View()), frames, tags), id, grid)
    {
      var found := Find(entities, id);
      if found.None? || entities[found.value].robot.None? {
        frames', tags' := frames + [[]], tags;
      } else {
        var i := found.value;
        RunInterpreter(i, grid);
        var changes, newTags := ApplyBotActions(i, grid);
        frames', tags' := frames + [changes], tags + newTags;
      }
    }
  }
}
