/** The robot's bytecode machine (src/bot/mod.rs): the instruction set, the per-robot
    execution state and the interpreter that runs one instruction per call. */
module Bot {
  import opened Wrappers
  import opened Directions
  import opened Maps
  import opened Geometry

  /** A `u8`. */
  type byte = x: int | 0 <= x < 256

  /** The program of every robot has this many cells. */
  const ProgramSize: nat := 32

  /** The instruction set, in the order of its implicit `u8` discriminants. The last two,
      the robot conditions, are the ones the instruction editor writes. */
  datatype Instruction =
    | Halt | Walk | TurnAround | TurnLeft | TurnRight | Skip | Goto
    | IfBox | IfWall | IfEdge | IfNotBox | IfNotWall | IfNotEdge
    | IfRobot | IfNotRobot

  /** `Instruction::repr`: the byte an instruction is stored as. */
  function Repr(i: Instruction): (b: byte)
    ensures b < 15
  {
    match i
    case Halt => 0
    case Walk => 1
    case TurnAround => 2
    case TurnLeft => 3
    case TurnRight => 4
    case Skip => 5
    case Goto => 6
    case IfBox => 7
    case IfWall => 8
    case IfEdge => 9
    case IfNotBox => 10
    case IfNotWall => 11
    case IfNotEdge => 12
    case IfRobot => 13
    case IfNotRobot => 14
  }

  /** `Instruction::from_repr`: decoding a byte, `None` when no instruction has it. */
  function FromRepr(b: int): (r: Option<Instruction>)
    ensures r.Some? <==> 0 <= b < 15
    ensures r.Some? ==> Repr(r.value) == b
  {
    if b == 0 then Some(Halt)
    else if b == 1 then Some(Instruction.Walk)
    else if b == 2 then Some(TurnAround)
    else if b == 3 then Some(TurnLeft)
    else if b == 4 then Some(TurnRight)
    else if b == 5 then Some(Skip)
    else if b == 6 then Some(Goto)
    else if b == 7 then Some(IfBox)
    else if b == 8 then Some(IfWall)
    else if b == 9 then Some(IfEdge)
    else if b == 10 then Some(IfNotBox)
    else if b == 11 then Some(IfNotWall)
    else if b == 12 then Some(IfNotEdge)
    else if b == 13 then Some(IfRobot)
    else if b == 14 then Some(IfNotRobot)
    else None
  }

  /** Decoding undoes encoding, so no two instructions share a byte. */
  lemma FromReprOfRepr(i: Instruction)
    ensures FromRepr(Repr(i)) == Some(i)
  {
  }

  /** `Instruction::is_wide`: the instruction is followed by an operand byte. */
  function IsWide(i: Instruction): (w: bool)
    ensures w <==> i.Walk? || i.Goto? || IsConditional(i)
  {
    match i
    case Halt | Skip | TurnAround | TurnLeft | TurnRight => false
    case Walk | Goto | IfBox | IfWall | IfEdge | IfNotBox | IfNotWall | IfNotEdge
      | IfRobot | IfNotRobot => true
  }

  /** The branch instructions, the only ones `is_positive` is defined on. */
  predicate IsConditional(i: Instruction) {
    i.IfBox? || i.IfWall? || i.IfEdge? || i.IfRobot?
    || i.IfNotBox? || i.IfNotWall? || i.IfNotEdge? || i.IfNotRobot?
  }

  /** `Instruction::is_positive`: a branch jumps when its condition holds (`If…`) or when
      it does not (`IfNot…`). On any other instruction the source reaches
      `unreachable!()`. */
  function IsPositive(i: Instruction): (p: bool)
    requires IsConditional(i)
    ensures p <==> Repr(i) == 7 || Repr(i) == 8 || Repr(i) == 9 || Repr(i) == 13
  {
    match i
    case IfBox | IfWall | IfEdge | IfRobot => true
    case IfNotBox | IfNotWall | IfNotEdge | IfNotRobot => false
  }

  /** Every branch has an operand: the jump target. */
  lemma ConditionalsAreWide(i: Instruction)
    requires IsConditional(i)
    ensures IsWide(i)
  {
  }

  /** `impl Display for Instruction`: the name the editor shows in a cell. Exactly the
      branches are named `if …`, and exactly the negated ones `if not …`. */
  function Display(i: Instruction): (s: string)
    ensures |s| >= 4
    ensures IsConditional(i) <==> s[0] == 'i' && s[1] == 'f' && s[2] == ' '
    ensures IsConditional(i) ==> (!IsPositive(i) <==> |s| >= 7 && s[3] == 'n' && s[4] == 'o' && s[5] == 't' && s[6] == ' ')
  {
    match i
    case Halt => "halt"
    case Walk => "walk"
    case TurnAround => "turn around"
    case TurnLeft => "turn left"
    case TurnRight => "turn right"
    case Skip => "skip"
    case Goto => "goto"
    case IfBox => "if box"
    case IfWall => "if wall"
    case IfEdge => "if edge"
    case IfNotBox => "if not box"
    case IfNotWall => "if not wall"
    case IfNotEdge => "if not edge"
    case IfRobot => "if robot"
    case IfNotRobot => "if not robot"
  }

  /** An action queued by the interpreter and carried out by the movement resolver. */
  datatype Step = Wait | Walk | UpdateDir(dir: Direction)

  /** `BotData`: the robot's program and where and how it starts. */
  datatype BotData = BotData(instructions: seq<byte>, startPosition: GridPos, startDir: Direction)

  /** A program as the instruction editor produces it: 32 cells, each below 32. */
  predicate WellFormed(program: seq<byte>) {
    |program| == ProgramSize && forall k :: 0 <= k < |program| ==> program[k] < ProgramSize
  }

  /** The fields of a `BotState`, as a value. */
  datatype Registers = Registers(
    halted: bool,
    prevInstruction: byte,
    currentInstruction: byte,
    steps: seq<Step>,
    dir: Direction)

  /** `advance_instruction` on the counter: 31 wraps to 0, anything else goes up by one
      (a `u8` at 255 would overflow). */
  function NextPc(pc: byte): (r: byte)
    requires pc != 255
    ensures pc < ProgramSize ==> r == (pc + 1) % ProgramSize
  {
    if pc == 31 then 0 else pc + 1
  }

  /** `n` copies of `s`: what pushing `s` in a loop of `n` rounds adds. */
  function Repeat(s: Step, n: nat): (r: seq<Step>)
    ensures |r| == n && forall k :: 0 <= k < n ==> r[k] == s
  {
    seq(n, _ => s)
  }

  /** `IfWall`'s condition: the faced tile is a wall, or it is an upper floor seen from a
      lower floor. */
  predicate WallAhead(grid: Map, pos: GridPos, ahead: GridPos)
    requires grid.Valid()
  {
    TileAt(grid, ahead).Wall? || (TileAt(grid, pos).LowerFloor? && TileAt(grid, ahead).UpperFloor?)
  }

  /** `IfEdge`'s condition: a drop from an upper to a lower floor, or the void ahead. */
  predicate EdgeAhead(grid: Map, pos: GridPos, ahead: GridPos)
    requires grid.Valid()
  {
    (TileAt(grid, pos).UpperFloor? && TileAt(grid, ahead).LowerFloor?) || TileAt(grid, ahead).Void?
  }

  /** The condition a branch instruction tests. */
  predicate Condition(i: Instruction, grid: Map, pos: GridPos, ahead: GridPos, entityAhead: Option<EntityKind>)
    requires IsConditional(i) && grid.Valid()
  {
    match i
    case IfWall | IfNotWall => WallAhead(grid, pos, ahead)
    case IfEdge | IfNotEdge => EdgeAhead(grid, pos, ahead)
    case IfBox | IfNotBox => entityAhead == Some(Box)
    case IfRobot | IfNotRobot => entityAhead == Some(Robot)
  }

  /** What one call of `run_bot_interpreter` does to a robot's registers. */
  function Interpret(r: Registers, program: seq<byte>, pos: GridPos, grid: Map,
                     entityAhead: Option<EntityKind>): (r': Registers)
    requires |program| == ProgramSize && r.currentInstruction < ProgramSize && grid.Valid()
    ensures Blocked(r) ==> r' == r
    ensures r'.dir == r.dir
    ensures !Blocked(r) ==> r'.prevInstruction == r.currentInstruction
  {
    if r.halted || |r.steps| != 0 then r
    else
      var ahead := Facing(pos, r.dir);
      var pc1 := NextPc(r.currentInstruction);
      var r1 := r.(prevInstruction := r.currentInstruction, currentInstruction := pc1);
      match FromRepr(program[r.currentInstruction])
      case None => r1.(halted := true)
      case Some(i) =>
        var arg := program[pc1];
        var pc2 := NextPc(pc1);
        match i
        case Halt => r1.(halted := true)
        case Walk => r1.(currentInstruction := pc2, steps := r.steps + Repeat(Step.Walk, arg))
        case TurnAround => r1.(steps := r.steps + [UpdateDir(TurnedAround(r.dir))])
        case TurnLeft => r1.(steps := r.steps + [UpdateDir(TurnedLeft(r.dir))])
        case TurnRight => r1.(steps := r.steps + [UpdateDir(TurnedRight(r.dir))])
        case Skip => r1.(steps := r.steps + [Wait])
        case Goto => r1.(currentInstruction := arg)
        case _ =>
          var jump := IsPositive(i) == Condition(i, grid, pos, ahead, entityAhead);
          r1.(currentInstruction := if jump then arg else pc2)
  }

  /** `BotState`: one robot's execution state. */
  class BotState {
    var halted: bool
    var prevInstruction: byte
    var currentInstruction: byte
    var steps: seq<Step>
    var dir: Direction

    /** The fields as a value. */
    ghost function Regs(): Registers
      reads this
    {
      Registers(halted, prevInstruction, currentInstruction, steps, dir)
    }

    /** `BotState::new`: running, at cell 0, nothing queued, facing `dir`. */
    constructor (dir: Direction)
      ensures Regs() == Registers(false, 0, 0, [], dir)
    {
      halted := false;
      prevInstruction := 0;
      currentInstruction := 0;
      steps := [];
      this.dir := dir;
    }

    /** `advance_instruction`. */
    method AdvanceInstruction()
      requires currentInstruction != 255
      modifies this
      ensures Regs() == old(Regs()).(currentInstruction := NextPc(old(currentInstruction)))
    {
      if currentInstruction == 31 {
        currentInstruction := 0;
      } else {
        currentInstruction := currentInstruction + 1;
      }
    }

    /** `read_instruction`: decodes the current cell and moves past it. */
    method ReadInstruction(data: BotData) returns (instr: Option<Instruction>)
      requires currentInstruction < |data.instructions| <= ProgramSize
      modifies this
      ensures instr == FromRepr(data.instructions[old(currentInstruction)])
      ensures Regs() == old(Regs()).(currentInstruction := NextPc(old(currentInstruction)))
    {
      instr := FromRepr(data.instructions[currentInstruction]);
      AdvanceInstruction();
    }

    /** `read_value`: the current cell as an operand, and moves past it. */
    method ReadValue(data: BotData) returns (value: byte)
      requires currentInstruction < |data.instructions| <= ProgramSize
      modifies this
      ensures value == data.instructions[old(currentInstruction)]
      ensures Regs() == old(Regs()).(currentInstruction := NextPc(old(currentInstruction)))
    {
      value := data.instructions[currentInstruction];
      AdvanceInstruction();
    }
  }

  /** `run_bot_interpreter`: unless the robot has halted or still has steps queued, runs
      the instruction at its counter, which either queues steps, jumps or halts. */
  method RunBotInterpreter(bot: BotData, pos: GridPos, state: BotState, grid: Map,
                           entityOnTileFacing: Option<EntityKind>)
    requires |bot.instructions| == ProgramSize && state.currentInstruction < ProgramSize
    requires grid.Valid()
    modifies state
    ensures state.Regs() == Interpret(old(state.Regs()), bot.instructions, pos, grid, entityOnTileFacing)
  {
    if state.halted || |state.steps| != 0 {
      return;
    }

    var facingGridPos := Facing(pos, state.dir);

    state.prevInstruction := state.currentInstruction;
    var instr := state.ReadInstruction(bot);
    if instr.None? {
      state.halted := true;
      return;
    }

    match instr.value {
      case Halt =>
        state.halted := true;
      case Walk =>
        var arg := state.ReadValue(bot);
        ghost var before := state.Regs();
        for k := 0 to arg
          invariant state.Regs() == before.(steps := Repeat(Step.Walk, k))
        {
          state.steps := state.steps + [Step.Walk];
        }
      case TurnAround =>
        state.steps := state.steps + [UpdateDir(TurnedAround(state.dir))];
      case TurnLeft =>
        state.steps := state.steps + [UpdateDir(TurnedLeft(state.dir))];
      case TurnRight =>
        state.steps := state.steps + [UpdateDir(TurnedRight(state.dir))];
      case Skip =>
        state.steps := state.steps + [Wait];
      case Goto =>
        var arg := state.ReadValue(bot);
        state.currentInstruction := arg;
      case IfWall | IfNotWall =>
        var toJumpOrNotToJump := IsPositive(instr.value) == WallAhead(grid, pos, facingGridPos);
        var target := state.ReadValue(bot);
        if toJumpOrNotToJump {
          state.currentInstruction := target;
        }
      case IfEdge | IfNotEdge =>
        var toJumpOrNotToJump := IsPositive(instr.value) == EdgeAhead(grid, pos, facingGridPos);
        var target := state.ReadValue(bot);
        if toJumpOrNotToJump {
          state.currentInstruction := target;
        }
      case IfBox | IfNotBox =>
        var cond := IsPositive(instr.value) == (entityOnTileFacing == Some(Box));
        var target := state.ReadValue(bot);
        if cond {
          state.currentInstruction := target;
        }
      case IfRobot | IfNotRobot =>
        var cond := IsPositive(instr.value) == (entityOnTileFacing == Some(Robot));
        var target := state.ReadValue(bot);
        if cond {
          state.currentInstruction := target;
        }
    }
  }

  // ---------------------------------------------------------------------------
  // What one interpreter call can and cannot do.

  /** The number of program cells an instruction occupies. */
  function Width(i: Instruction): (n: nat)
    ensures n == 1 || n == 2
    ensures n == 2 <==> IsWide(i)
  {
    if IsWide(i) then 2 else 1
  }

  /** The robot has work in progress, so the call leaves it alone. */
  predicate Blocked(r: Registers) {
    r.halted || |r.steps| != 0
  }

  /** With a program whose cells are all below 32, the counter stays inside the program;
      the interpreter never changes the direction itself (only the movement resolver
      does), never restarts a halted robot, and records the cell it executed. */
  lemma InterpretInvariant(r: Registers, program: seq<byte>, pos: GridPos, grid: Map,
                           entityAhead: Option<EntityKind>)
    requires WellFormed(program) && r.currentInstruction < ProgramSize && grid.Valid()
    ensures var r' := Interpret(r, program, pos, grid, entityAhead);
      && r'.currentInstruction < ProgramSize
      && r'.dir == r.dir
      && (r.halted ==> r' == r)
      && (Blocked(r) ==> r' == r)
      && (!Blocked(r) ==> r'.prevInstruction == r.currentInstruction)
  {
    var pc1 := NextPc(r.currentInstruction);
    assert program[pc1] < ProgramSize;
  }

  /** A byte that is no opcode halts the robot, as `Halt` does; halting queues nothing. */
  lemma InterpretHalts(r: Registers, program: seq<byte>, pos: GridPos, grid: Map,
                       entityAhead: Option<EntityKind>)
    requires |program| == ProgramSize && r.currentInstruction < ProgramSize && grid.Valid()
    requires !Blocked(r)
    ensures var r' := Interpret(r, program, pos, grid, entityAhead);
      r'.halted <==> FromRepr(program[r.currentInstruction]) in {None, Some(Halt)}
    ensures var r' := Interpret(r, program, pos, grid, entityAhead);
      r'.halted ==> r'.steps == [] && r'.currentInstruction == NextPc(r.currentInstruction)
  {
  }

  /** Every instruction but a jump moves the counter past itself and its operand; a jump
      (`Goto`, or a branch whose test says so) goes to its operand instead. */
  lemma InterpretAdvances(r: Registers, program: seq<byte>, pos: GridPos, grid: Map,
                          entityAhead: Option<EntityKind>, i: Instruction)
    requires |program| == ProgramSize && r.currentInstruction < ProgramSize && grid.Valid()
    requires !Blocked(r) && FromRepr(program[r.currentInstruction]) == Some(i)
    ensures var r' := Interpret(r, program, pos, grid, entityAhead);
      var operand := program[(r.currentInstruction + 1) % ProgramSize];
      var jumps := i.Goto? || (IsConditional(i) && IsPositive(i) == Condition(i, grid, pos, Facing(pos, r.dir), entityAhead));
      r'.currentInstruction == if jumps then operand else (r.currentInstruction + Width(i)) % ProgramSize
  {
  }

  /** What a call queues: `Walk n` queues `n` walks, a turn one change of direction to
      the direction its table gives (the direction itself changes only when the step is
      carried out), `Skip` one wait, and nothing else queues anything. */
  lemma InterpretQueues(r: Registers, program: seq<byte>, pos: GridPos, grid: Map,
                        entityAhead: Option<EntityKind>)
    requires |program| == ProgramSize && r.currentInstruction < ProgramSize && grid.Valid()
    requires !Blocked(r)
    ensures var r' := Interpret(r, program, pos, grid, entityAhead);
      var op := FromRepr(program[r.currentInstruction]);
      var operand := program[(r.currentInstruction + 1) % ProgramSize];
      && (op == Some(Instruction.Walk) ==> |r'.steps| == operand && forall k :: 0 <= k < operand ==> r'.steps[k] == Step.Walk)
      && (op == Some(TurnAround) ==> r'.steps == [UpdateDir(TurnedAround(r.dir))])
      && (op == Some(TurnLeft) ==> r'.steps == [UpdateDir(TurnedLeft(r.dir))])
      && (op == Some(TurnRight) ==> r'.steps == [UpdateDir(TurnedRight(r.dir))])
      && (op == Some(Skip) ==> r'.steps == [Wait])
      && (op !in {Some(Instruction.Walk), Some(TurnAround), Some(TurnLeft), Some(TurnRight), Some(Skip)} ==> r'.steps == [])
  {
  }

  /** The branch with the opposite test: `IfBox` and `IfNotBox`, and so on. */
  function Negated(i: Instruction): (n: Instruction)
    requires IsConditional(i)
    ensures IsConditional(n) && IsPositive(n) != IsPositive(i)
  {
    match i
    case IfBox => IfNotBox
    case IfWall => IfNotWall
    case IfEdge => IfNotEdge
    case IfRobot => IfNotRobot
    case IfNotBox => IfBox
    case IfNotWall => IfWall
    case IfNotEdge => IfEdge
    case IfNotRobot => IfRobot
  }

  /** A branch and its negation test the same thing, so in the same situation exactly one
      of them jumps: one goes to the operand and the other falls through. */
  lemma NegatedBranchesDisagree(r: Registers, program: seq<byte>, pos: GridPos, grid: Map,
                                entityAhead: Option<EntityKind>, i: Instruction)
    requires |program| == ProgramSize && r.currentInstruction < ProgramSize && grid.Valid()
    requires !Blocked(r) && IsConditional(i) && program[r.currentInstruction] == Repr(i)
    ensures var negated := program[r.currentInstruction := Repr(Negated(i))];
      var pc := r.currentInstruction;
      var operand := program[(pc + 1) % ProgramSize];
      var taken := Interpret(r, program, pos, grid, entityAhead).currentInstruction;
      var other := Interpret(r, negated, pos, grid, entityAhead).currentInstruction;
      {taken, other} == {operand, (pc + 2) % ProgramSize}
  {
    var pc := r.currentInstruction;
    var negated := program[pc := Repr(Negated(i))];
    FromReprOfRepr(i);
    FromReprOfRepr(Negated(i));
    assert Condition(Negated(i), grid, pos, Facing(pos, r.dir), entityAhead)
        == Condition(i, grid, pos, Facing(pos, r.dir), entityAhead);
    assert negated[NextPc(pc)] == program[NextPc(pc)];
  }
}
