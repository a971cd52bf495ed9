/** What one tick of the world does, stated on values (src/bot/mod.rs,
    `apply_bot_actions` and `progress_world`): every robot, in id order, runs its
    interpreter once and carries out one queued step; the tag marking entities that
    left through the void or the exit is applied when the tick ends. */
module Progress {
  import opened Wrappers
  import opened Directions
  import opened Maps
  import opened Geometry
  import opened Bot
  import opened Movement

  /** A robot's program and registers. */
  datatype BotSnap = BotSnap(data: BotData, regs: Registers)

  /** One entity of the world: its id, kind and position, whether it carries the
      `VoidedOrExited` tag, and for a robot its program and state. */
  datatype Snap = Snap(id: EntityId, kind: EntityKind, pos: GridPos, gone: bool, bot: Option<BotSnap>)

  predicate UniqueIds(v: seq<Snap>) {
    forall i, j :: 0 <= i < |v| && 0 <= j < |v| && v[i].id == v[j].id ==> i == j
  }

  /** Every robot's program is well formed and its counter inside it; a halted robot has
      nothing queued. */
  predicate RobotsWellFormed(v: seq<Snap>) {
    forall k :: 0 <= k < |v| && v[k].bot.Some? ==>
      && WellFormed(v[k].bot.value.data.instructions)
      && v[k].bot.value.regs.currentInstruction < ProgramSize
      && (v[k].bot.value.regs.halted ==> v[k].bot.value.regs.steps == [])
  }

  /** The same entities with the same kinds, tags and programs: what a tick's steps
      cannot change. */
  predicate SameShape(v: seq<Snap>, w: seq<Snap>) {
    && |v| == |w|
    && forall k :: 0 <= k < |v| ==>
      && v[k].id == w[k].id && v[k].kind == w[k].kind && v[k].gone == w[k].gone
      && v[k].bot.Some? == w[k].bot.Some?
      && (v[k].bot.Some? ==> v[k].bot.value.data == w[k].bot.value.data)
  }

  /** A world in which a tick can run. */
  predicate Good(v: seq<Snap>) {
    UniqueIds(v) && RobotsWellFormed(v)
  }

  lemma SameShapeGood(v: seq<Snap>, w: seq<Snap>)
    requires Good(v) && SameShape(v, w) && RobotsWellFormed(w)
    ensures Good(w)
  {
    assert forall i :: 0 <= i < |v| ==> w[i].id == v[i].id;
  }

  /** Replacing one robot's registers by well-formed ones keeps the world good. */
  lemma RegsReplaced(v: seq<Snap>, w: seq<Snap>, i: nat, regs: Registers)
    requires Good(v) && i < |v| && v[i].bot.Some?
    requires regs.currentInstruction < ProgramSize && (regs.halted ==> regs.steps == [])
    requires |w| == |v| && w[i] == v[i].(bot := Some(v[i].bot.value.(regs := regs)))
    requires forall k :: 0 <= k < |v| && k != i ==> w[k] == v[k]
    ensures w == WithRegs(v, i, regs) && Good(w)
  {
    assert w == WithRegs(v, i, regs);
    SameShapeGood(v, w);
  }

  /** `get(id)` on a query: the entity with the id. */
  function IndexOf(v: seq<Snap>, id: EntityId): (r: Option<nat>)
    ensures r.Some? ==> r.value < |v| && v[r.value].id == id
    ensures r.None? <==> forall k :: 0 <= k < |v| ==> v[k].id != id
  {
    if v == [] then None
    else if v[0].id == id then Some(0)
    else match IndexOf(v[1..], id)
      case None => None
      case Some(k) => Some(k + 1)
  }

  lemma IndexOfUnique(v: seq<Snap>, k: nat)
    requires UniqueIds(v) && k < |v|
    ensures IndexOf(v, v[k].id) == Some(k)
  {
  }

  /** The blocking query: the entities without the tag, in arena order. */
  function Blocking(v: seq<Snap>): (bs: seq<Body>)
    ensures |bs| <= |v|
    ensures forall b :: b in bs <==> exists k :: 0 <= k < |v| && !v[k].gone && b == Body(v[k].id, v[k].kind, v[k].pos)
  {
    if v == [] then []
    else
      var last := v[|v| - 1];
      assert forall k :: 0 <= k < |v| - 1 ==> v[..|v| - 1][k] == v[k];
      Blocking(v[..|v| - 1]) + (if last.gone then [] else [Body(last.id, last.kind, last.pos)])
  }

  /** The blocking query only looks at ids, kinds, positions and tags. */
  lemma {:induction false} BlockingOfSameBodies(v: seq<Snap>, w: seq<Snap>)
    requires |v| == |w|
    requires forall k :: 0 <= k < |v| ==> v[k].id == w[k].id && v[k].kind == w[k].kind && v[k].pos == w[k].pos && v[k].gone == w[k].gone
    ensures Blocking(v) == Blocking(w)
  {
    if v != [] {
      BlockingOfSameBodies(v[..|v| - 1], w[..|w| - 1]);
    }
  }

  lemma SameShapeTrans(u: seq<Snap>, v: seq<Snap>, w: seq<Snap>)
    requires SameShape(u, v) && SameShape(v, w)
    ensures SameShape(u, w)
  {
  }

  /** The world with the registers of the robot at index `i` replaced. */
  function WithRegs(v: seq<Snap>, i: nat, regs: Registers): (w: seq<Snap>)
    requires i < |v| && v[i].bot.Some?
    ensures SameShape(v, w)
    ensures RobotsWellFormed(v) && regs.currentInstruction < ProgramSize && (regs.halted ==> regs.steps == [])
      ==> RobotsWellFormed(w)
  {
    v[i := v[i].(bot := Some(v[i].bot.value.(regs := regs)))]
  }

  /** The cell holds the void or the exit: an entity that lands there leaves the board. */
  predicate Out(grid: Map, p: GridPos)
    requires grid.Valid()
  {
    TileAt(grid, p).Void? || TileAt(grid, p).Exit?
  }

  /** An entity that moves to `to`: it stands there afterwards, keeps its id, kind, tag
      and program, and a robot that lands on the void or the exit is halted with its
      queue cleared; a box, or a robot landing anywhere else, keeps its state. */
  function Land(s: Snap, to: GridPos, grid: Map): (r: Snap)
    requires grid.Valid()
    ensures r.pos == to && r.id == s.id && r.kind == s.kind && r.gone == s.gone
    ensures r.bot.Some? == s.bot.Some?
    ensures s.bot.Some? ==> r.bot.value.data == s.bot.value.data && r.bot.value.regs.dir == s.bot.value.regs.dir
    ensures s.bot.Some? && Out(grid, to) ==> r.bot.value.regs.halted && r.bot.value.regs.steps == []
    ensures !Out(grid, to) ==> r.bot == s.bot
  {
    var out := Out(grid, to);
    s.(pos := to,
       bot := if out && s.bot.Some? then Some(s.bot.value.(regs := s.bot.value.regs.(steps := [], halted := true)))
              else s.bot)
  }

  lemma LandKeepsShape(v: seq<Snap>, j: nat, to: GridPos, grid: Map)
    requires grid.Valid() && j < |v|
    ensures SameShape(v, v[j := Land(v[j], to, grid)])
    ensures RobotsWellFormed(v) ==> RobotsWellFormed(v[j := Land(v[j], to, grid)])
  {
  }

  /** Carrying out one render step: a move relocates its entity. */
  function ApplyMove(v: seq<Snap>, u: Update, grid: Map): (r: seq<Snap>)
    requires grid.Valid()
    ensures SameShape(v, r)
    ensures RobotsWellFormed(v) ==> RobotsWellFormed(r)
  {
    match u.step
    case Move(_, to) =>
      (match IndexOf(v, u.entity)
       case None => v
       case Some(j) => v[j := Land(v[j], to, grid)])
    case _ => v
  }

  /** Carrying out the render steps in order. */
  function ApplyMoves(v: seq<Snap>, us: seq<Update>, grid: Map): (r: seq<Snap>)
    requires grid.Valid()
    ensures SameShape(v, r)
    ensures RobotsWellFormed(v) ==> RobotsWellFormed(r)
  {
    if us == [] then v
    else ApplyMove(ApplyMoves(v, us[..|us| - 1], grid), us[|us| - 1], grid)
  }

  /** The entities to tag: those moved onto the void or the exit. */
  function MoveTags(us: seq<Update>, grid: Map): (r: seq<EntityId>)
    requires grid.Valid()
    ensures forall id :: id in r <==> exists k :: 0 <= k < |us| && us[k].entity == id && LandsOut(us[k], grid)
  {
    if us == [] then []
    else
      var u := us[|us| - 1];
      var rest := MoveTags(us[..|us| - 1], grid);
      assert forall k :: 0 <= k < |us| - 1 ==> us[..|us| - 1][k] == us[k];
      if LandsOut(u, grid) then rest + [u.entity] else rest
  }

  /** A render step that moves its entity onto the void or the exit. */
  predicate LandsOut(u: Update, grid: Map)
    requires grid.Valid()
  {
    u.step.Move? && Out(grid, u.step.to)
  }

  /** The result of one robot's actions: the new world, the render steps and the ids to
      tag when the tick ends. */
  datatype Outcome = Outcome(view: seq<Snap>, updates: seq<Update>, tags: seq<EntityId>)

  /** `apply_bot_actions` for the robot at index `i`: takes the last queued step, if any.
      A wait is shown as idling; a turn sets the direction; a walk moves the robot and the
      train in front of it one cell, or fails and moves nothing. */
  function ActionOutcome(v: seq<Snap>, i: nat, grid: Map): (o: Outcome)
    requires grid.Valid() && i < |v| && v[i].bot.Some?
    ensures SameShape(v, o.view)
    ensures RobotsWellFormed(v) ==> RobotsWellFormed(o.view)
  {
    var regs := v[i].bot.value.regs;
    if regs.steps == [] then Outcome(v, [], [])
    else
      var action := regs.steps[|regs.steps| - 1];
      var popped := regs.(steps := regs.steps[..|regs.steps| - 1]);
      var v1 := WithRegs(v, i, popped);
      match action
      case Wait => Outcome(v1, [Update(v[i].id, Idle)], [])
      case UpdateDir(d) =>
        Outcome(WithRegs(v, i, popped.(dir := d)), [Update(v[i].id, DrawStep.UpdateDir(regs.dir, d))], [])
      case Walk =>
        var o := WalkOutcome(v1, i, grid);
        SameShapeTrans(v, v1, o.view);
        o
  }

  /** A walk of the robot at index `i` (its step already taken off the queue): it and the
      train in front of it move one cell, or a failed move is shown and nothing moves. */
  function WalkOutcome(v: seq<Snap>, i: nat, grid: Map): (o: Outcome)
    requires grid.Valid() && i < |v| && v[i].bot.Some?
    ensures SameShape(v, o.view)
    ensures RobotsWellFormed(v) ==> RobotsWellFormed(o.view)
  {
    var pos := v[i].pos;
    var dir := v[i].bot.value.regs.dir;
    var tar := Facing(pos, dir);
    DirOfFacing(pos, dir);
    var moves := IsValidMove(v[i].id, pos, TileAt(grid, pos), tar, TileAt(grid, tar), grid, Blocking(v));
    if moves == [] then Outcome(v, [Update(v[i].id, MoveFail)], [])
    else Outcome(ApplyMoves(v, moves, grid), moves, MoveTags(moves, grid))
  }

  /** A world part way through a tick: the render steps of the robots done so far and
      the ids still to be tagged. */
  datatype TickState = TickState(view: seq<Snap>, frames: seq<seq<Update>>, tags: seq<EntityId>)

  /** One iteration of `progress_world`'s loop: the robot looks at the cell it faces, runs
      its interpreter once and then carries out one step. */
  function BotTurn(ts: TickState, id: EntityId, grid: Map): (r: TickState)
    requires grid.Valid() && RobotsWellFormed(ts.view)
    ensures SameShape(ts.view, r.view) && RobotsWellFormed(r.view)
    ensures |r.frames| == |ts.frames| + 1 && r.frames[..|ts.frames|] == ts.frames
  {
    match IndexOf(ts.view, id)
    case None => TickState(ts.view, ts.frames + [[]], ts.tags)
    case Some(i) =>
      if ts.view[i].bot.None? then TickState(ts.view, ts.frames + [[]], ts.tags)
      else
        var v1 := Interpreted(ts.view, i, grid);
        var o := ActionOutcome(v1, i, grid);
        SameShapeTrans(ts.view, v1, o.view);
        TickState(o.view, ts.frames + [o.updates], ts.tags + o.tags)
  }

  /** The world after the robot at index `i` ran its interpreter once, seeing the first
      blocking entity on the cell it faces. */
  function Interpreted(v: seq<Snap>, i: nat, grid: Map): (w: seq<Snap>)
    requires grid.Valid() && RobotsWellFormed(v) && i < |v| && v[i].bot.Some?
    ensures SameShape(v, w) && RobotsWellFormed(w)
  {
    var s := v[i];
    var b := s.bot.value;
    var kind := EntityOnTile(Blocking(v), Facing(s.pos, b.regs.dir));
    InterpretInvariant(b.regs, b.data.instructions, s.pos, grid, kind);
    WithRegs(v, i, Interpret(b.regs, b.data.instructions, s.pos, grid, kind))
  }

  /** The robots' turns, one per id, in the order given. */
  function Turns(ts: TickState, ids: seq<EntityId>, grid: Map): (r: TickState)
    requires grid.Valid() && RobotsWellFormed(ts.view)
    ensures SameShape(ts.view, r.view) && RobotsWellFormed(r.view)
    ensures |r.frames| == |ts.frames| + |ids|
  {
    if ids == [] then ts
    else
      var mid := Turns(ts, ids[..|ids| - 1], grid);
      var r := BotTurn(mid, ids[|ids| - 1], grid);
      SameShapeTrans(ts.view, mid.view, r.view);
      r
  }

  /** The ids of the robots, in arena order. */
  function RobotIds(v: seq<Snap>): (ids: seq<EntityId>)
    ensures forall id :: id in ids <==> exists k :: 0 <= k < |v| && v[k].bot.Some? && v[k].id == id
  {
    if v == [] then []
    else
      var rest := RobotIds(v[1..]);
      assert forall k :: 1 <= k < |v| ==> v[1..][k - 1] == v[k];
      if v[0].bot.Some? then [v[0].id] + rest else rest
  }

  predicate Ascending(ids: seq<EntityId>) {
    forall i, j :: 0 <= i < j < |ids| ==> ids[i] <= ids[j]
  }

  /** `id` put into its place in an ascending sequence. */
  function Insert(id: EntityId, ids: seq<EntityId>): (r: seq<EntityId>)
    ensures multiset(r) == multiset(ids) + multiset{id}
    ensures r[0] == id || (ids != [] && r[0] == ids[0])
  {
    if ids == [] || id <= ids[0] then [id] + ids
    else
      assert ids == [ids[0]] + ids[1..];
      [ids[0]] + Insert(id, ids[1..])
  }

  lemma {:induction false} InsertAscending(id: EntityId, ids: seq<EntityId>)
    requires Ascending(ids)
    ensures Ascending(Insert(id, ids))
  {
    if ids != [] && id > ids[0] {
      var rest := Insert(id, ids[1..]);
      InsertAscending(id, ids[1..]);
      var r := [ids[0]] + rest;
      assert r == Insert(id, ids);
      forall j | 0 < j < |r|
        ensures ids[0] <= r[j]
      {
        assert r[j] in multiset(rest);
        assert r[j] in multiset(ids[1..]) + multiset{id};
        if r[j] != id {
          assert r[j] in ids[1..];
        }
      }
    }
  }

  /** `Vec::sort` on the robot ids. */
  function SortIds(ids: seq<EntityId>): (r: seq<EntityId>)
    ensures multiset(r) == multiset(ids)
    ensures Ascending(r)
  {
    if ids == [] then []
    else
      assert ids == ids[..|ids| - 1] + [ids[|ids| - 1]];
      InsertAscending(ids[|ids| - 1], SortIds(ids[..|ids| - 1]));
      Insert(ids[|ids| - 1], SortIds(ids[..|ids| - 1]))
  }

  /** Applying the deferred tags. */
  function TagAll(v: seq<Snap>, tags: seq<EntityId>): (r: seq<Snap>)
    ensures |r| == |v|
    ensures forall k :: 0 <= k < |v| ==> r[k] == v[k].(gone := v[k].gone || v[k].id in tags)
  {
    seq(|v|, k requires 0 <= k < |v| => v[k].(gone := v[k].gone || v[k].id in tags))
  }

  /** `progress_world`: nothing happens while render steps of an earlier tick are still
      queued (`pending` of them); otherwise every robot takes its turn in ascending id
      order, each turn giving one frame of render steps, and the tags are applied at the
      end. */
  function Tick(v: seq<Snap>, grid: Map, pending: nat): (r: (seq<Snap>, seq<seq<Update>>))
    requires grid.Valid() && RobotsWellFormed(v)
    ensures |r.0| == |v| && forall k :: 0 <= k < |v| ==> r.0[k].id == v[k].id && r.0[k].kind == v[k].kind
  {
    if pending != 0 then (v, [])
    else
      var ts := Turns(TickState(v, [], []), SortIds(RobotIds(v)), grid);
      (TagAll(ts.view, ts.tags), ts.frames)
  }

  // ---------------------------------------------------------------------------
  // What a tick guarantees.

  /** A halted robot's turn changes nothing and gives an empty frame: its interpreter
      does not run and it has no step queued. */
  lemma HaltedRobotRests(ts: TickState, id: EntityId, grid: Map, i: nat)
    requires grid.Valid() && RobotsWellFormed(ts.view)
    requires IndexOf(ts.view, id) == Some(i) && ts.view[i].bot.Some? && ts.view[i].bot.value.regs.halted
    ensures BotTurn(ts, id, grid) == TickState(ts.view, ts.frames + [[]], ts.tags)
  {
    var v := ts.view;
    var b := v[i].bot.value;
    var kind := EntityOnTile(Blocking(v), Facing(v[i].pos, b.regs.dir));
    InterpretInvariant(b.regs, b.data.instructions, v[i].pos, grid, kind);
    assert v[i].(bot := Some(b.(regs := b.regs))) == v[i];
    assert Interpreted(v, i, grid) == v;
  }

  /** Every step of a walk is a failed move of the walker, or a move of one cell in the
      walker's direction; a failed walk changes nothing and tags nothing. */
  lemma {:induction false} WalkMovesOneCell(v: seq<Snap>, i: nat, grid: Map)
    requires grid.Valid() && i < |v| && v[i].bot.Some?
    ensures var o := WalkOutcome(v, i, grid);
      var dir := v[i].bot.value.regs.dir;
      && o.updates != []
      && (o.updates == [Update(v[i].id, MoveFail)] ==> o.view == v && o.tags == [])
      && (o.updates[0].entity == v[i].id)
      && forall k :: 0 <= k < |o.updates| ==>
           o.updates[k].step == MoveFail
           || (o.updates[k].step.Move? && o.updates[k].step.to == Facing(o.updates[k].step.from, dir))
  {
    var pos := v[i].pos;
    var dir := v[i].bot.value.regs.dir;
    DirOfFacing(pos, dir);
    var moves := Pushes(v[i].id, pos, dir, grid, Blocking(v));
    PushesChain(v[i].id, pos, dir, grid, Blocking(v));
    var o := WalkOutcome(v, i, grid);
    if moves != [] {
      assert o.updates == moves;
      forall k | 0 <= k < |moves|
        ensures moves[k].step.to == Facing(moves[k].step.from, dir)
      {
        WalkedLast(pos, dir, k + 1);
      }
    }
  }

  /** Carrying out one move in a world with unique ids lands the entity it names and
      leaves every other entity as it was. */
  lemma ApplyMoveAt(v: seq<Snap>, u: Update, grid: Map, k: nat)
    requires grid.Valid() && UniqueIds(v) && u.step.Move? && k < |v|
    ensures var r := ApplyMove(v, u, grid);
      |r| == |v| && r[k] == if v[k].id == u.entity then Land(v[k], u.step.to, grid) else v[k]
  {
    if v[k].id == u.entity {
      IndexOfUnique(v, k);
    } else {
      match IndexOf(v, u.entity)
      case None =>
      case Some(j) => assert j != k;
    }
  }

  /** None of the render steps is about entity `id`. */
  predicate Untouched(us: seq<Update>, id: EntityId) {
    forall a :: 0 <= a < |us| ==> us[a].entity != id
  }

  /** Render steps that are moves, each of a different entity. */
  predicate DistinctMoves(us: seq<Update>) {
    && (forall a :: 0 <= a < |us| ==> us[a].step.Move?)
    && (forall a, b :: 0 <= a < b < |us| ==> us[a].entity != us[b].entity)
  }

  /** Carrying out moves of distinct entities lands each entity that has a move on that
      move's target and leaves every other entity exactly as it was. */
  lemma ApplyMovesEffects(v: seq<Snap>, us: seq<Update>, grid: Map)
    requires grid.Valid() && UniqueIds(v) && DistinctMoves(us)
    ensures var r := ApplyMoves(v, us, grid);
      && (forall k, a :: 0 <= k < |v| && 0 <= a < |us| && us[a].entity == v[k].id ==> r[k] == Land(v[k], us[a].step.to, grid))
      && (forall k :: 0 <= k < |v| && Untouched(us, v[k].id) ==> r[k] == v[k])
  {
    forall k, a | 0 <= k < |v| && 0 <= a < |us| && us[a].entity == v[k].id
      ensures ApplyMoves(v, us, grid)[k] == Land(v[k], us[a].step.to, grid)
    {
      ApplyMovesLands(v, us, grid, k, a);
    }
    forall k | 0 <= k < |v| && Untouched(us, v[k].id)
      ensures ApplyMoves(v, us, grid)[k] == v[k]
    {
      ApplyMovesKeeps(v, us, grid, k);
    }
  }

  /** `ApplyMovesEffects` for the entity at index `k`, whose move is move `a`. */
  lemma {:induction false} ApplyMovesLands(v: seq<Snap>, us: seq<Update>, grid: Map, k: nat, a: nat)
    requires grid.Valid() && UniqueIds(v) && DistinctMoves(us)
    requires k < |v| && a < |us| && us[a].entity == v[k].id
    ensures k < |ApplyMoves(v, us, grid)| && ApplyMoves(v, us, grid)[k] == Land(v[k], us[a].step.to, grid)
    decreases |us|, 1
  {
    var n := |us| - 1;
    var init := us[..n];
    var u := us[n];
    var mid := ApplyMoves(v, init, grid);
    assert forall b :: 0 <= b < n ==> init[b] == us[b];
    assert DistinctMoves(init);
    assert forall j :: 0 <= j < |v| ==> mid[j].id == v[j].id;
    assert UniqueIds(mid);
    ApplyMoveAt(mid, u, grid, k);
    if a == n {
      assert Untouched(init, v[k].id);
      ApplyMovesKeeps(v, init, grid, k);
    } else {
      assert init[a].entity == v[k].id;
      ApplyMovesLands(v, init, grid, k, a);
    }
  }

  /** `ApplyMovesEffects` for the entity at index `k`, which has no move. */
  lemma {:induction false} ApplyMovesKeeps(v: seq<Snap>, us: seq<Update>, grid: Map, k: nat)
    requires grid.Valid() && UniqueIds(v) && DistinctMoves(us)
    requires k < |v| && Untouched(us, v[k].id)
    ensures k < |ApplyMoves(v, us, grid)| && ApplyMoves(v, us, grid)[k] == v[k]
    decreases |us|, 0
  {
    if us != [] {
      var n := |us| - 1;
      var init := us[..n];
      var u := us[n];
      var mid := ApplyMoves(v, init, grid);
      assert forall b :: 0 <= b < n ==> init[b] == us[b];
      assert DistinctMoves(init) && Untouched(init, v[k].id);
      assert forall j :: 0 <= j < |v| ==> mid[j].id == v[j].id;
      assert UniqueIds(mid);
      ApplyMoveAt(mid, u, grid, k);
      ApplyMovesKeeps(v, init, grid, k);
    }
  }

  /** The entity at place `j` of the train in front of `p` is an untagged entity of the
      world standing `j + 1` cells ahead. */
  lemma TrainIndex(v: seq<Snap>, p: GridPos, d: Direction, j: nat) returns (k: nat)
    requires j < |Train(Blocking(v), p, d)|
    ensures k < |v| && !v[k].gone && v[k].id == Train(Blocking(v), p, d)[j] && v[k].pos == Walked(p, d, j + 1)
  {
    var bs := Blocking(v);
    TrainOccupied(bs, p, d);
    assert Occupant(bs, Walked(p, d, j + 1)) == Some(Train(bs, p, d)[j]);
    var m := FindAt(bs, Walked(p, d, j + 1)).value;
    assert bs[m] in bs;
    k :| 0 <= k < |v| && !v[k].gone && bs[m] == Body(v[k].id, v[k].kind, v[k].pos);
  }

  /** The moves of a successful walk, located in the world: move `a` belongs to the
      entity standing `a` cells ahead of the walker and takes it one cell further, and no
      entity has two moves. */
  lemma WalkMovesLocated(v: seq<Snap>, i: nat, grid: Map)
    requires grid.Valid() && UniqueIds(v) && i < |v| && v[i].bot.Some?
    ensures var p := v[i].pos;
      var d := v[i].bot.value.regs.dir;
      var moves := Pushes(v[i].id, p, d, grid, Blocking(v));
      var t := Train(Blocking(v), p, d);
      && (moves != [] ==> |moves| == |t| + 1 && moves[0].entity == v[i].id)
      && (forall a :: 1 <= a < |moves| ==> moves[a].entity == t[a - 1])
      && (forall a :: 0 <= a < |moves| ==>
            && moves[a].step == Move(Walked(p, d, a), Walked(p, d, a + 1))
            && exists k :: 0 <= k < |v| && v[k].id == moves[a].entity && v[k].pos == Walked(p, d, a))
      && DistinctMoves(moves)
  {
    var p := v[i].pos;
    var d := v[i].bot.value.regs.dir;
    var bs := Blocking(v);
    var moves := Pushes(v[i].id, p, d, grid, bs);
    var t := Train(bs, p, d);
    PushesChain(v[i].id, p, d, grid, bs);
    TrainOccupied(bs, p, d);
    forall a | 0 <= a < |moves|
      ensures exists k :: 0 <= k < |v| && v[k].id == moves[a].entity && v[k].pos == Walked(p, d, a)
    {
      if a == 0 {
        assert v[i].pos == Walked(p, d, 0);
      } else {
        var k := TrainIndex(v, p, d, a - 1);
        assert moves[a].entity == t[a - 1];
      }
    }
    forall a, b | 0 <= a < b < |moves|
      ensures moves[a].entity != moves[b].entity
    {
      var ka :| 0 <= ka < |v| && v[ka].id == moves[a].entity && v[ka].pos == Walked(p, d, a);
      var kb :| 0 <= kb < |v| && v[kb].id == moves[b].entity && v[kb].pos == Walked(p, d, b);
      AheadWalked(p, d, a);
      AheadWalked(p, d, b);
    }
  }

  /** The moves of a successful walk that belong to the entity at index `k`: it has one
      exactly when it is the walker or in the train, and it goes one cell further in the
      walker's direction. */
  lemma MovesOfEntity(v: seq<Snap>, i: nat, grid: Map, k: nat)
    requires grid.Valid() && UniqueIds(v) && i < |v| && v[i].bot.Some? && k < |v|
    ensures var p := v[i].pos;
      var d := v[i].bot.value.regs.dir;
      var moves := Pushes(v[i].id, p, d, grid, Blocking(v));
      var moved := k == i || v[k].id in Train(Blocking(v), p, d);
      && (moved && moves != [] ==> exists a :: 0 <= a < |moves| && moves[a].entity == v[k].id)
      && (!moved ==> Untouched(moves, v[k].id))
      && (forall a :: 0 <= a < |moves| && moves[a].entity == v[k].id ==> moves[a].step.to == Facing(v[k].pos, d))
  {
    var p := v[i].pos;
    var d := v[i].bot.value.regs.dir;
    var moves := Pushes(v[i].id, p, d, grid, Blocking(v));
    var t := Train(Blocking(v), p, d);
    WalkMovesLocated(v, i, grid);
    forall a | 0 <= a < |moves| && moves[a].entity == v[k].id
      ensures moves[a].step.to == Facing(v[k].pos, d)
    {
      var kk :| 0 <= kk < |v| && v[kk].id == moves[a].entity && v[kk].pos == Walked(p, d, a);
      assert kk == k;
      WalkedLast(p, d, a + 1);
    }
    if moves != [] {
      if k == i {
        assert moves[0].entity == v[k].id;
      } else if v[k].id in t {
        var j :| 0 <= j < |t| && t[j] == v[k].id;
        assert moves[j + 1].entity == v[k].id;
      }
    }
  }

  /** A walk of the robot at index `i` in a world with unique ids. When the walker or an
      entity of the train in front of it cannot step, the walker shows a failed move and
      nothing changes. Otherwise the walker and every entity of its train land one cell
      further in the walker's direction, every other entity stays exactly as it was, and
      the entities to tag are exactly the moved ones that land on the void or the exit. */
  lemma WalkEffects(v: seq<Snap>, i: nat, grid: Map)
    requires grid.Valid() && UniqueIds(v) && i < |v| && v[i].bot.Some?
    ensures var o := WalkOutcome(v, i, grid);
      var d := v[i].bot.value.regs.dir;
      var pushed := Train(Blocking(v), v[i].pos, d);
      && (!TrainCanMove(grid, Blocking(v), v[i].pos, d) ==> o == Outcome(v, [Update(v[i].id, MoveFail)], []))
      && (TrainCanMove(grid, Blocking(v), v[i].pos, d) ==>
            && |o.view| == |v|
            && (forall k :: 0 <= k < |v| ==>
                  o.view[k] == if k == i || v[k].id in pushed then Land(v[k], Facing(v[k].pos, d), grid) else v[k])
            && (forall k :: 0 <= k < |v| ==>
                  (v[k].id in o.tags <==> (k == i || v[k].id in pushed) && Out(grid, Facing(v[k].pos, d))))
            && (forall id :: id in o.tags ==> exists k :: 0 <= k < |v| && v[k].id == id))
  {
    var p := v[i].pos;
    var d := v[i].bot.value.regs.dir;
    var bs := Blocking(v);
    DirOfFacing(p, d);
    if TrainCanMove(grid, bs, p, d) {
      var o := WalkOutcome(v, i, grid);
      assert |o.view| == |v|;
      forall k | 0 <= k < |v|
        ensures o.view[k] == if k == i || v[k].id in Train(bs, p, d) then Land(v[k], Facing(v[k].pos, d), grid) else v[k]
        ensures v[k].id in o.tags <==> (k == i || v[k].id in Train(bs, p, d)) && Out(grid, Facing(v[k].pos, d))
      {
        WalkEntityEffect(v, i, grid, k);
      }
      WalkTagsKnown(v, i, grid);
    }
  }

  /** `WalkEffects` for the entity at index `k`. */
  lemma WalkEntityEffect(v: seq<Snap>, i: nat, grid: Map, k: nat)
    requires grid.Valid() && UniqueIds(v) && i < |v| && v[i].bot.Some? && k < |v|
    requires TrainCanMove(grid, Blocking(v), v[i].pos, v[i].bot.value.regs.dir)
    ensures var o := WalkOutcome(v, i, grid);
      var d := v[i].bot.value.regs.dir;
      var moved := k == i || v[k].id in Train(Blocking(v), v[i].pos, d);
      && |o.view| == |v|
      && o.view[k] == (if moved then Land(v[k], Facing(v[k].pos, d), grid) else v[k])
      && (v[k].id in o.tags <==> moved && Out(grid, Facing(v[k].pos, d)))
  {
    var p := v[i].pos;
    var d := v[i].bot.value.regs.dir;
    DirOfFacing(p, d);
    var moves := Pushes(v[i].id, p, d, grid, Blocking(v));
    var o := WalkOutcome(v, i, grid);
    assert o == Outcome(ApplyMoves(v, moves, grid), moves, MoveTags(moves, grid));
    var moved := k == i || v[k].id in Train(Blocking(v), p, d);
    WalkMovesLocated(v, i, grid);
    MovesOfEntity(v, i, grid, k);
    if moved {
      var a :| 0 <= a < |moves| && moves[a].entity == v[k].id;
      assert moves[a].step.to == Facing(v[k].pos, d);
      ApplyMovesLands(v, moves, grid, k, a);
      assert v[k].id in o.tags <==> LandsOut(moves[a], grid);
    } else {
      ApplyMovesKeeps(v, moves, grid, k);
      assert v[k].id !in o.tags;
    }
  }

  /** Only entities of the world are tagged by a walk. */
  lemma WalkTagsKnown(v: seq<Snap>, i: nat, grid: Map)
    requires grid.Valid() && UniqueIds(v) && i < |v| && v[i].bot.Some?
    ensures forall id :: id in WalkOutcome(v, i, grid).tags ==> exists k :: 0 <= k < |v| && v[k].id == id
  {
    var p := v[i].pos;
    var d := v[i].bot.value.regs.dir;
    DirOfFacing(p, d);
    var moves := Pushes(v[i].id, p, d, grid, Blocking(v));
    WalkMovesLocated(v, i, grid);
    forall id | id in WalkOutcome(v, i, grid).tags
      ensures exists k :: 0 <= k < |v| && v[k].id == id
    {
      var a :| 0 <= a < |moves| && moves[a].entity == id && LandsOut(moves[a], grid);
    }
  }

  /** `apply_bot_actions` takes the step queued last: the queue is a stack. An empty
      queue does nothing. A wait shows the robot idling; a turn shows the old and the new
      direction and sets the new one; either way only the robot's registers change. A
      walk is carried out (`WalkEffects`) on the world with its step taken off the
      queue. */
  lemma ActionEffects(v: seq<Snap>, i: nat, grid: Map)
    requires grid.Valid() && i < |v| && v[i].bot.Some?
    ensures var regs := v[i].bot.value.regs;
      var o := ActionOutcome(v, i, grid);
      var n := |regs.steps|;
      && (n == 0 ==> o == Outcome(v, [], []))
      && (n > 0 && regs.steps[n - 1] == Wait ==>
            && o.updates == [Update(v[i].id, Idle)] && o.tags == []
            && o.view == v[i := v[i].(bot := Some(v[i].bot.value.(regs := regs.(steps := regs.steps[..n - 1]))))])
      && (n > 0 && regs.steps[n - 1].UpdateDir? ==>
            && o.updates == [Update(v[i].id, DrawStep.UpdateDir(regs.dir, regs.steps[n - 1].dir))] && o.tags == []
            && o.view == v[i := v[i].(bot := Some(v[i].bot.value.(regs := regs.(steps := regs.steps[..n - 1], dir := regs.steps[n - 1].dir))))])
      && (n > 0 && regs.steps[n - 1] == Step.Walk ==>
            o == WalkOutcome(v[i := v[i].(bot := Some(v[i].bot.value.(regs := regs.(steps := regs.steps[..n - 1]))))], i, grid))
  {
  }

  // ---------------------------------------------------------------------------
  // An entity pushed onto the exit still blocks until the tick ends.

  /** A level of three rows of lower floor with the exit at the end of the middle row. */
  const ExitGrid: Map := Map(3, 3, [LowerFloor, LowerFloor, LowerFloor,
                                    LowerFloor, LowerFloor, Exit,
                                    LowerFloor, LowerFloor, LowerFloor])

  /** The program `walk 1`, then `halt` in every other cell. */
  function WalkOnce(): (p: seq<byte>)
    ensures |p| == ProgramSize && p[0] == 1 && p[1] == 1
  {
    seq(ProgramSize, k => if k < 2 then 1 else 0)
  }

  /** A robot as a level starts it: running `WalkOnce` from its first cell, facing `dir`,
      with nothing queued. */
  function Walker(id: EntityId, pos: GridPos, dir: Direction): Snap {
    Snap(id, Robot, pos, false, Some(BotSnap(BotData(WalkOnce(), pos, dir), Registers(false, 0, 0, [], dir))))
  }

  /** Robot 0 faces box 1 with the exit behind it; robot 2 stands below the exit,
      facing it. */
  const ExitScene: seq<Snap> := [
    Walker(0, GridPos(0, 1), Right),
    Snap(1, Box, GridPos(1, 1), false, None),
    Walker(2, GridPos(2, 2), Up)]

  /** The world after the robot at index `i` took the last step of its queue. */
  function Popped(v: seq<Snap>, i: nat): (w: seq<Snap>)
    requires i < |v| && v[i].bot.Some? && |v[i].bot.value.regs.steps| > 0
    ensures |w| == |v| && w[i].bot.Some?
    ensures |w[i].bot.value.regs.steps| == |v[i].bot.value.regs.steps| - 1
  {
    var regs := v[i].bot.value.regs;
    v[i := v[i].(bot := Some(v[i].bot.value.(regs := regs.(steps := regs.steps[..|regs.steps| - 1]))))]
  }

  /** The blocking query on three untagged entities. */
  lemma BlockingOfThree(a: Snap, b: Snap, c: Snap)
    requires !a.gone && !b.gone && !c.gone
    ensures Blocking([a, b, c]) == [Body(a.id, a.kind, a.pos), Body(b.id, b.kind, b.pos), Body(c.id, c.kind, c.pos)]
  {
    assert Blocking([a]) == [Body(a.id, a.kind, a.pos)] by {
      assert [a][..0] == [];
    }
    assert Blocking([a, b]) == [Body(a.id, a.kind, a.pos), Body(b.id, b.kind, b.pos)] by {
      assert [a, b][..1] == [a];
    }
    assert [a, b, c][..2] == [a, b];
  }

  /** The first of three bodies standing on `p`. */
  lemma OccupantOfThree(a: Body, b: Body, c: Body, p: GridPos)
    ensures Occupant([a, b, c], p) == if a.pos == p then Some(a.id) else if b.pos == p then Some(b.id)
      else if c.pos == p then Some(c.id) else None
  {
    var bs := [a, b, c];
    var r := FindAt(bs, p);
    if a.pos == p {
      assert r == Some(0) by { assert bs[0].pos == p; }
    } else if b.pos == p {
      assert r == Some(1) by { assert bs[0].pos != p && bs[1].pos == p; }
    } else if c.pos == p {
      assert r == Some(2) by { assert bs[0].pos != p && bs[1].pos != p && bs[2].pos == p; }
    } else {
      assert r.None? by { assert forall k :: 0 <= k < 3 ==> bs[k].pos != p; }
    }
  }

  /** The cells of `ExitGrid` the scene uses, and the steps between them that are legal. */
  lemma ExitGridLegal(grid: Map)
    requires grid == ExitGrid
    ensures grid.Valid()
    ensures grid.Tile(0, 1) == LowerFloor && grid.Tile(1, 1) == LowerFloor && grid.Tile(2, 1) == Exit
    ensures grid.Tile(2, 2) == LowerFloor && grid.Tile(2, 0) == LowerFloor
    ensures Legal(grid, GridPos(0, 1), Right) && Legal(grid, GridPos(1, 1), Right) && Legal(grid, GridPos(2, 2), Up)
  {
    assert grid.Tile(0, 1) == LowerFloor && grid.Tile(1, 1) == LowerFloor && grid.Tile(2, 1) == Exit;
    assert grid.Tile(2, 2) == LowerFloor && grid.Tile(2, 0) == LowerFloor;
  }

  /** Where the entities of `ExitScene` stand: robot 0 on the middle row's first cell
      facing right, box 1 beside it and robot 2 below the exit. */
  predicate SceneLayout(v: seq<Snap>) {
    && |v| == 3
    && v[0].id == 0 && v[0].kind == Robot && v[0].pos == GridPos(0, 1) && !v[0].gone
    && v[0].bot.Some? && v[0].bot.value.regs.dir == Right
    && v[1] == Snap(1, Box, GridPos(1, 1), false, None)
    && v[2].id == 2 && v[2].kind == Robot && v[2].pos == GridPos(2, 2) && !v[2].gone
    && v[2].bot.Some? && v[2].bot.value.regs.dir == Up
  }

  /** A robot as a level starts it, with `walk 1` in its first cell. */
  predicate FreshWalker(s: Snap) {
    && s.bot.Some? && |s.bot.value.data.instructions| == ProgramSize
    && s.bot.value.data.instructions[0] == 1 && s.bot.value.data.instructions[1] == 1
    && !s.bot.value.regs.halted && s.bot.value.regs.currentInstruction == 0 && s.bot.value.regs.steps == []
  }

  /** `ExitScene` at the start of the level: that layout, with both robots fresh. */
  predicate SceneFresh(v: seq<Snap>) {
    SceneLayout(v) && RobotsWellFormed(v) && FreshWalker(v[0]) && FreshWalker(v[2])
  }

  /** A fresh robot's turn: its interpreter queues one walk, and its step is that walk,
      taken from where it stands. Every other entity is left as it was. */
  lemma FreshTurnWalks(v: seq<Snap>, i: nat, grid: Map)
    requires grid.Valid() && RobotsWellFormed(v) && i < |v| && FreshWalker(v[i])
    ensures var w := Interpreted(v, i, grid);
      && w[i].bot.value.regs.steps == [Step.Walk]
      && ActionOutcome(w, i, grid) == WalkOutcome(Popped(w, i), i, grid)
      && var u := Popped(w, i);
      && (forall k :: 0 <= k < |v| && k != i ==> u[k] == v[k])
      && u[i].id == v[i].id && u[i].kind == v[i].kind && u[i].pos == v[i].pos && u[i].gone == v[i].gone
      && u[i].bot.value.regs.dir == v[i].bot.value.regs.dir
  {
    FreshInterpret(v, i, grid);
    ActionEffects(Interpreted(v, i, grid), i, grid);
  }

  /** The interpreter part of that turn: `walk 1` queues a single walk and changes
      nothing else in the world. */
  lemma FreshInterpret(v: seq<Snap>, i: nat, grid: Map)
    requires grid.Valid() && RobotsWellFormed(v) && i < |v| && FreshWalker(v[i])
    ensures var w := Interpreted(v, i, grid);
      && w[i].bot.value.regs.steps == [Step.Walk]
      && (forall k :: 0 <= k < |v| && k != i ==> w[k] == v[k])
      && w[i].id == v[i].id && w[i].kind == v[i].kind && w[i].pos == v[i].pos && w[i].gone == v[i].gone
      && w[i].bot.value.regs.dir == v[i].bot.value.regs.dir
  {
    var b := v[i].bot.value;
    var kind := EntityOnTile(Blocking(v), Facing(v[i].pos, b.regs.dir));
    InterpretQueues(b.regs, b.data.instructions, v[i].pos, grid, kind);
  }

  /** In the scene's layout, robot 0's train is the box alone and it can move. */
  lemma SceneTrain(v: seq<Snap>, grid: Map)
    requires grid == ExitGrid && SceneLayout(v)
    ensures grid.Valid() && UniqueIds(v)
    ensures Train(Blocking(v), GridPos(0, 1), Right) == [1]
    ensures TrainCanMove(grid, Blocking(v), GridPos(0, 1), Right)
  {
    assert v == [v[0], v[1], v[2]];
    BlockingOfThree(v[0], v[1], v[2]);
    var bs := Blocking(v);
    OccupantOfThree(bs[0], bs[1], bs[2], GridPos(1, 1));
    OccupantOfThree(bs[0], bs[1], bs[2], GridPos(2, 1));
    assert Train(bs, GridPos(1, 1), Right) == [];
    assert Train(bs, GridPos(0, 1), Right) == [1];
    assert Walked(GridPos(0, 1), Right, 1) == GridPos(1, 1);
    ExitGridLegal(grid);
  }

  /** Robot 0's walk in the scene's layout: it and the box move right, the box onto the
      exit, where it is collected for tagging but still untagged, and robot 2 stays. */
  lemma ExitSceneWalk(v: seq<Snap>, grid: Map)
    requires grid == ExitGrid && SceneLayout(v)
    ensures grid.Valid()
    ensures var o := WalkOutcome(v, 0, grid);
      && |o.view| == 3
      && o.view[0].pos == GridPos(1, 1) && o.view[0].kind == Robot && !o.view[0].gone
      && o.view[1] == Snap(1, Box, GridPos(2, 1), false, None)
      && o.view[2] == v[2]
      && 1 in o.tags
  {
    SceneTrain(v, grid);
    WalkEntityEffect(v, 0, grid, 0);
    WalkEntityEffect(v, 0, grid, 1);
    WalkEntityEffect(v, 0, grid, 2);
  }

  /** The first turn of the level's first tick: robot 0 interprets `walk 1` and walks,
      pushing the box onto the exit; robot 2 is still fresh. */
  lemma FirstTurn(v: seq<Snap>, grid: Map)
    requires grid == ExitGrid && SceneFresh(v)
    ensures grid.Valid()
    ensures var ts := BotTurn(TickState(v, [], []), 0, grid);
      && |ts.view| == 3
      && ts.view[0].pos == GridPos(1, 1) && !ts.view[0].gone
      && ts.view[1] == Snap(1, Box, GridPos(2, 1), false, None)
      && ts.view[2] == v[2]
      && 1 in ts.tags
    ensures AfterFirstTurn(BotTurn(TickState(v, [], []), 0, grid).view)
  {
    SceneTrain(v, grid);
    IndexOfUnique(v, 0);
    FreshTurnWalks(v, 0, grid);
    var u := Popped(Interpreted(v, 0, grid), 0);
    assert SceneLayout(u);
    ExitSceneWalk(u, grid);
  }

  /** In a world of three like the one after robot 0's walk, with the box untagged on
      the exit, robot 2's walk onto the exit panics as written. */
  lemma BoxOnExitPanics(w: seq<Snap>, grid: Map)
    requires grid == ExitGrid && |w| == 3
    requires w[0].pos == GridPos(1, 1) && !w[0].gone
    requires w[1] == Snap(1, Box, GridPos(2, 1), false, None)
    requires w[2].id == 2 && w[2].pos == GridPos(2, 2) && !w[2].gone
    ensures grid.Valid()
    ensures Occupant(Blocking(w), GridPos(2, 1)) == Some(1)
    ensures IsValidMoveAsWritten(2, GridPos(2, 2), LowerFloor, GridPos(2, 1), Exit, grid, Blocking(w)).None?
    ensures IsValidMove(2, GridPos(2, 2), LowerFloor, GridPos(2, 1), Exit, grid, Blocking(w)) == []
  {
    assert w == [w[0], w[1], w[2]];
    BlockingOfThree(w[0], w[1], w[2]);
    var bs := Blocking(w);
    OccupantOfThree(bs[0], bs[1], bs[2], GridPos(2, 1));
    ExitGridLegal(grid);
    PushIntoExitPanics(2, GridPos(2, 2), Up, grid, bs);
    PushIntoExitFails(2, GridPos(2, 2), Up, grid, bs);
  }

  /** The world after that first turn: robot 0 beside the exit, the box untagged on it
      and robot 2 still fresh below it. */
  predicate AfterFirstTurn(t: seq<Snap>) {
    && |t| == 3 && RobotsWellFormed(t)
    && t[0].id == 0 && t[0].pos == GridPos(1, 1) && !t[0].gone
    && t[1] == Snap(1, Box, GridPos(2, 1), false, None)
    && t[2].id == 2 && t[2].kind == Robot && t[2].pos == GridPos(2, 2) && !t[2].gone
    && t[2].bot.Some? && t[2].bot.value.regs.dir == Up && FreshWalker(t[2])
  }

  /** The second turn of that tick: robot 2 interprets `walk 1`, and its walk is the push
      of the box that still stands on the exit. As written that push panics; the model
      refuses it. */
  lemma SecondTurnWalk(t: seq<Snap>, grid: Map)
    requires grid == ExitGrid && AfterFirstTurn(t)
    ensures grid.Valid() && TileAt(grid, GridPos(2, 2)) == LowerFloor && TileAt(grid, GridPos(2, 1)) == Exit
    ensures IndexOf(t, 2) == Some(2)
    ensures var w := Interpreted(t, 2, grid);
      && w[2].bot.value.regs.steps == [Step.Walk]
      && ActionOutcome(w, 2, grid) == WalkOutcome(Popped(w, 2), 2, grid)
      && Popped(w, 2)[1] == t[1]
      && Occupant(Blocking(Popped(w, 2)), GridPos(2, 1)) == Some(1)
      && IsValidMoveAsWritten(2, GridPos(2, 2), LowerFloor, GridPos(2, 1), Exit, grid, Blocking(Popped(w, 2))).None?
      && IsValidMove(2, GridPos(2, 2), LowerFloor, GridPos(2, 1), Exit, grid, Blocking(Popped(w, 2))) == []
  {
    ExitGridLegal(grid);
    SecondTurnWorld(t, grid);
    BoxOnExitPanics(Popped(Interpreted(t, 2, grid), 2), grid);
  }

  /** The world robot 2's walk starts from: robot 2 found the walk and popped it, and
      robot 0 and the box are where the first turn left them. */
  lemma SecondTurnWorld(t: seq<Snap>, grid: Map)
    requires grid == ExitGrid && AfterFirstTurn(t)
    ensures grid.Valid() && IndexOf(t, 2) == Some(2)
    ensures var w := Interpreted(t, 2, grid);
      && w[2].bot.value.regs.steps == [Step.Walk]
      && ActionOutcome(w, 2, grid) == WalkOutcome(Popped(w, 2), 2, grid)
      && var u := Popped(w, 2);
      && |u| == 3 && u[0] == t[0] && u[1] == t[1]
      && u[2].id == 2 && u[2].pos == GridPos(2, 2) && !u[2].gone
  {
    ExitGridLegal(grid);
    IndexOfThird(t);
    FreshTurnWalks(t, 2, grid);
  }

  /** Id 2 is found at index 2 of a world whose first ids are 0 and 1. */
  lemma IndexOfThird(t: seq<Snap>)
    requires |t| == 3 && t[0].id == 0 && t[1].id == 1 && t[2].id == 2
    ensures IndexOf(t, 2) == Some(2)
  {
    assert t[1..][1..][0] == t[2];
  }

  /** In the model robot 2's step in that world shows a failed move and changes nothing
      but its queue. */
  lemma SecondTurnFails(t: seq<Snap>, grid: Map)
    requires grid == ExitGrid && AfterFirstTurn(t)
    ensures grid.Valid()
    ensures var w := Interpreted(t, 2, grid);
      && w[2].bot.value.regs.steps == [Step.Walk]
      && ActionOutcome(w, 2, grid) == Outcome(Popped(w, 2), [Update(2, MoveFail)], [])
      && Popped(w, 2)[1] == t[1]
  {
    SecondTurnWalk(t, grid);
    DirOfFacing(GridPos(2, 2), Up);
  }

  /** The robot ids of the scene, in arena order. */
  lemma SceneRobotIds(v: seq<Snap>)
    requires SceneLayout(v)
    ensures RobotIds(v) == [0, 2]
  {
    assert v[1..][1..][1..] == [];
    assert RobotIds(v[1..][1..]) == [2];
  }

  /** Sorting the ids 0 and 2. */
  lemma SortZeroTwo()
    ensures SortIds([0, 2]) == [0, 2]
  {
    assert SortIds([0]) == [0] by { assert [0][..0] == []; }
    assert [0, 2][..1] == [0];
  }

  /** Two turns, one after the other. */
  lemma TurnsOfTwo(ts: TickState, a: EntityId, b: EntityId, grid: Map)
    requires grid.Valid() && RobotsWellFormed(ts.view)
    ensures Turns(ts, [a, b], grid) == BotTurn(BotTurn(ts, a, grid), b, grid)
  {
    assert Turns(ts, [a], grid) == BotTurn(ts, a, grid) by {
      assert [a][..0] == [];
    }
    assert [a, b][..1] == [a];
  }

  /** A tick of the scene takes robot 0's turn and then robot 2's. */
  lemma SceneTickOrder(v: seq<Snap>, grid: Map)
    requires grid == ExitGrid && SceneFresh(v)
    ensures grid.Valid()
    ensures SortIds(RobotIds(v)) == [0, 2]
    ensures Turns(TickState(v, [], []), [0, 2], grid) == BotTurn(BotTurn(TickState(v, [], []), 0, grid), 2, grid)
  {
    ExitGridLegal(grid);
    SceneRobotIds(v);
    SortZeroTwo();
    TurnsOfTwo(TickState(v, [], []), 0, 2, grid);
  }

  /** From the start of this level, the first tick reaches the source's panic. Robot 0
      takes the first turn and pushes the box onto the exit. The tag that takes the box
      off the board is only collected, so the box still blocks. Robot 2 takes the second
      turn and walks onto the exit, and the source's `is_valid_move` is asked to move the
      box off the exit, which reaches `unreachable!()`. */
  lemma PushedOntoExitStillBlocks(v: seq<Snap>, grid: Map)
    requires grid == ExitGrid && SceneFresh(v)
    ensures grid.Valid() && RobotsWellFormed(v)
    ensures TileAt(grid, GridPos(2, 2)) == LowerFloor && TileAt(grid, GridPos(2, 1)) == Exit
    ensures SortIds(RobotIds(v)) == [0, 2]
    ensures var ts := BotTurn(TickState(v, [], []), 0, grid);
      && AfterFirstTurn(ts.view) && 1 in ts.tags && IndexOf(ts.view, 2) == Some(2)
    ensures var ts := BotTurn(TickState(v, [], []), 0, grid);
      var w := Interpreted(ts.view, 2, grid);
      && w[2].bot.value.regs.steps == [Step.Walk]
      && ActionOutcome(w, 2, grid) == WalkOutcome(Popped(w, 2), 2, grid)
      && IsValidMoveAsWritten(2, GridPos(2, 2), LowerFloor, GridPos(2, 1), Exit, grid, Blocking(Popped(w, 2))).None?
  {
    ExitGridLegal(grid);
    SceneTickOrder(v, grid);
    FirstTurn(v, grid);
    var ts := BotTurn(TickState(v, [], []), 0, grid);
    SecondTurnWalk(ts.view, grid);
  }

  /** Robot 2's turn in the model, after robot 0's: it appends a frame with its failed
      move and leaves the box and the collected tags as they were, so the tags applied
      at the end of the tick take the box off the board. */
  lemma SecondTurnOfTick(ts: TickState, grid: Map)
    requires grid == ExitGrid && AfterFirstTurn(ts.view) && 1 in ts.tags && |ts.frames| == 1
    ensures grid.Valid()
    ensures var ts2 := BotTurn(ts, 2, grid);
      var w := TagAll(ts2.view, ts2.tags);
      && |w| == 3 && w[1] == Snap(1, Box, GridPos(2, 1), true, None)
      && |ts2.frames| == 2 && ts2.frames[1] == [Update(2, MoveFail)]
  {
    SecondTurnWalk(ts.view, grid);
    SecondTurnFails(ts.view, grid);
  }

  /** A tick whose robots are 0 and 2 takes robot 0's turn, then robot 2's, then applies
      the collected tags. */
  lemma TickOfTwo(v: seq<Snap>, grid: Map)
    requires grid.Valid() && RobotsWellFormed(v) && SortIds(RobotIds(v)) == [0, 2]
    ensures var ts2 := BotTurn(BotTurn(TickState(v, [], []), 0, grid), 2, grid);
      Tick(v, grid, 0) == (TagAll(ts2.view, ts2.tags), ts2.frames)
  {
    TurnsOfTwo(TickState(v, [], []), 0, 2, grid);
  }

  /** The model's first tick of the scene instead: robot 2's walk fails and nothing
      moves in its turn, and when the tick ends the box is tagged on the exit. */
  lemma ExitSceneTick(v: seq<Snap>, grid: Map)
    requires grid == ExitGrid && SceneFresh(v)
    ensures grid.Valid() && RobotsWellFormed(v)
    ensures var (w, frames) := Tick(v, grid, 0);
      && |w| == 3 && |frames| == 2
      && w[1] == Snap(1, Box, GridPos(2, 1), true, None)
      && frames[1] == [Update(2, MoveFail)]
  {
    SceneTickOrder(v, grid);
    TickOfTwo(v, grid);
    FirstTurn(v, grid);
    SecondTurnOfTick(BotTurn(TickState(v, [], []), 0, grid), grid);
  }

  /** `ExitScene` is the start of such a level. */
  lemma ExitSceneFresh()
    ensures SceneFresh(ExitScene)
  {
    assert WellFormed(WalkOnce());
  }

  /** A tick keeps every entity with its id, kind and program, never removes a tag, and
      keeps every robot well formed; it gives one frame per robot, or nothing at all
      while render steps are pending. */
  lemma TickKeepsEntities(v: seq<Snap>, grid: Map, pending: nat)
    requires grid.Valid() && RobotsWellFormed(v)
    ensures var (w, frames) := Tick(v, grid, pending);
      && |w| == |v| && RobotsWellFormed(w)
      && (forall k :: 0 <= k < |v| ==>
            w[k].id == v[k].id && w[k].kind == v[k].kind && (v[k].gone ==> w[k].gone)
            && w[k].bot.Some? == v[k].bot.Some?
            && (v[k].bot.Some? ==> w[k].bot.value.data == v[k].bot.value.data))
      && (pending != 0 ==> w == v && frames == [])
      && (pending == 0 ==> |frames| == |RobotIds(v)|)
  {
    if pending == 0 {
      var ids := SortIds(RobotIds(v));
      assert |ids| == |multiset(ids)| == |multiset(RobotIds(v))| == |RobotIds(v)|;
      var ts := Turns(TickState(v, [], []), ids, grid);
      var w := TagAll(ts.view, ts.tags);
      assert RobotsWellFormed(w) by {
        forall k | 0 <= k < |w| && w[k].bot.Some?
          ensures WellFormed(w[k].bot.value.data.instructions)
        {
          assert w[k].bot == ts.view[k].bot;
        }
      }
    }
  }
}
