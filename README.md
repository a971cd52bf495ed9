# shitty-bot-game core, modelled in Dafny

This project models the rules of a small puzzle game. A robot runs a 32-byte program on
a grid of tiles: upper and lower floor, ramps, void, walls and the exit. The robot
walks, turns and branches on what lies ahead. While walking it pushes a train of boxes,
and other robots, in front of it. The model covers five parts of the game:

- **Level map** (`map.dfy`, module `Maps`): the tile kinds, and the map read from its
  text layout. The map is padded with void to the longest line and looked up row by row.
- **Interpreter** (`bot.dfy`, module `Bot`): the instruction set, its byte encoding and
  its display text, the robot's registers (a class whose methods update them in place),
  and one call of the interpreter.
- **Movement resolver** (`movement.dfy`, module `Movement`):
  - the table of which tile may be entered from which;
  - the recursive push check, proved equal to a non-recursive description of the
    train it pushes (`Pushes`).
- **World tick** (`progress.dfy` states it on values, module `Progress`; `world.dfy` does
  it in place, module `Arena`): `progress_world` and `apply_bot_actions`.
  - Every robot runs in ascending id order. It first runs its interpreter with the
    entity it faces, then carries out the last step it has queued.
  - The `VoidedOrExited` tag is applied when the tick ends, as Bevy's deferred commands
    do.
  - `Arena.World` holds the entities in a `seq` and each robot's registers in a
    `Bot.BotState` object. Each of its methods is proved to produce exactly the state
    the value-level function describes.
- **Status checks** (`status.dfy`, module `Status`): the failure detector and the
  level-complete check.
- **Instruction editor** (`editor.dfy`, module `Editor`): a class over three 32-cell
  arrays (names, values, bytes).
  - Leaving a cell trims its text and parses it as an instruction name or as a value
    below 32.
  - On success the byte is stored and both texts are rendered from it. On an error the
    trimmed text stays and the byte is kept.

`text.dfy` (module `Text`) holds the pieces of Rust's string library that these parts
use: `trim`, `trim_end`, `lines`, `split_whitespace`, `parse::<u8>` and number
rendering. `wrappers.dfy` holds `Option` and `Result`. `directions.dfy` holds
`Direction`.

## Model

| member | source | states |
|---|---|---|
| Text.Words | src/bot/edit.rs:46 | every word is non-empty and free of whitespace |
| Text.WordsOfUnwords | src/bot/edit.rs:46 | splitting words joined by single spaces gives back the same words |
| Text.TrimUnwords | src/bot/edit.rs:39 | `trim` leaves text made of words and single spaces unchanged |
| Text.ParseU8 | src/bot/edit.rs:144 | a parsed `u8` is below 256; the empty text is the `Empty` error |
| Text.ParseU8OfNatToString | src/bot/edit.rs:144-168 | parsing the rendered text of any value below 256 gives the value back |
| Text.TrimNatToString | src/bot/edit.rs:139-168 | `trim` leaves a rendered number unchanged |
| Text.Lines | src/map.rs:23 | no line holds a newline; there are no lines exactly when the text is empty |
| Text.TrimEnd | src/map.rs:24 | the result is a prefix of the input; only whitespace was removed; it does not end in whitespace |
| Maps.Map.Tile | src/map.rs:64-67 | in-bounds lookup returns the place at row `y`, column `x` of the row-major layout |
| Maps.TileAt | src/map.rs:64-67 | in bounds the lookup is `Tile`; outside the grid it is `Void` |
| Maps.PlaceOf | src/map.rs:27-37 | exactly the nine layout characters `-`, `.`, `^`, `v`, `<`, `>`, space, `X`, `o` are read; exactly the space is `Void` |
| Maps.PlaceOfInjective | src/map.rs:27-37 | distinct layout characters give distinct places |
| Maps.ParseRow | src/map.rs:25-39 | a line is read exactly when every character is in the alphabet, one place per character; otherwise the error names an offending character |
| Maps.RowErrorPersists | src/map.rs:37 | once a prefix of a line holds a bad character, the whole line fails with that error |
| Maps.ParseRows | src/map.rs:22-41 | on success there is one row per trimmed line, each that line's reading; on failure the error is some line's error |
| Maps.RowsErrorPersists | src/map.rs:22-41 | once a prefix of the layout fails, the whole layout fails with that error, so the first failing line decides it |
| Maps.MaxLen | src/map.rs:43 | the width is at least every row's length and equals one of them |
| Maps.Padded | src/map.rs:45-50 | a padded row has the full width, with the row's places first and then `Void` |
| Maps.FlattenAt | src/map.rs:44-51 | cell `y * width + x` of the layout is column `x` of padded row `y` |
| Maps.TileOfFlatten | src/map.rs:44-67 | looking up the built layout gives the row's place, or `Void` beyond the row's end |
| Maps.ReadLines | src/map.rs:22-41 | the reading loop computes `ParseRows` |
| Maps.LongestLine | src/map.rs:43 | the loop computes the maximum row length |
| Maps.PadLines | src/map.rs:44-51 | the padding loop computes the flattened layout |
| Maps.MapOf | src/map.rs:21-58 | fails exactly on a bad character or an empty text; otherwise the height is the number of lines, the width is the longest line, each row is as long as its trimmed line, and every tile is the line's place or `Void` |
| Maps.FromStr | src/map.rs:21-58 | the reading and padding loops build exactly `MapOf` |
| Maps.TilesOfFlatten | src/map.rs:44-67 | every tile of the padded layout is the row's place, or `Void` beyond the row's end |
| Geometry.Facing | src/bot/mod.rs:166-171 | the faced cell is adjacent to the robot's cell |
| Geometry.TurnedAround | src/bot/mod.rs:189-197 | turning around always changes the direction |
| Geometry.TurnedLeft | src/bot/mod.rs:198-206 | a left turn differs from the old direction and from turning around |
| Geometry.TurnedRight | src/bot/mod.rs:207-215 | a right turn differs from the old direction, from turning around and from a left turn, so the four are all the directions |
| Geometry.TurnLeftFourTimes | src/bot/mod.rs:198-206 | four left turns face the original way |
| Geometry.TurnLeftThenRight | src/bot/mod.rs:198-215 | a right turn undoes a left turn and the reverse |
| Geometry.TurnAroundInvolution | src/bot/mod.rs:189-197 | turning around twice is the identity; it always changes direction; it equals two left turns |
| Geometry.DirToAdjacentTile | src/bot/mod.rs:258-272 | for adjacent cells, stepping from `from` in the returned direction reaches `to` |
| Geometry.AdjacentHasDirection | src/bot/mod.rs:258-272 | adjacency is symmetric, and the function is defined both ways |
| Geometry.DirOfFacing | src/bot/mod.rs:166-171 | the direction from a cell to the cell it faces is the facing direction |
| Geometry.DirOfReverseStep | src/bot/mod.rs:258-272 | the direction back is the opposite direction |
| Geometry.IsDirsOpposite | src/bot/mod.rs:274-282 | true exactly when the second direction is the first turned around |
| Geometry.IsDirsOppositeSymmetric | src/bot/mod.rs:274-282 | the relation is symmetric and irreflexive |
| Bot.Repr | src/bot/mod.rs:79-95 | every instruction is encoded below 15 |
| Bot.FromRepr | src/bot/mod.rs:79-95 | decoding succeeds exactly on bytes 0 to 14, and re-encoding gives the byte back |
| Bot.FromReprOfRepr | src/bot/mod.rs:79-95 | decoding inverts encoding |
| Bot.ConditionalsAreWide | src/bot/mod.rs:122-152 | every conditional takes an operand |
| Bot.IsWide | src/bot/mod.rs:121-138 | an instruction takes an operand exactly when it is `Walk`, `Goto` or a conditional |
| Bot.IsPositive | src/bot/mod.rs:140-152 | the positive branches are exactly those encoded as 7, 8, 9 and 13 |
| Bot.Display | src/bot/mod.rs:97-119 | every name has at least four characters; exactly the conditionals start with `if `, and among them exactly the negated ones with `if not ` |
| Bot.NextPc | src/bot/mod.rs:58-64 | inside the program the counter advances by one modulo 32 |
| Bot.Repeat | src/bot/mod.rs:183-188 | `n` copies of the step |
| Bot.Negated | src/bot/mod.rs:140-152 | negating a conditional flips `is_positive` |
| Bot.BotState.constructor | src/bot/mod.rs:48-56 | not halted, counters at 0, nothing queued, the given direction |
| Bot.BotState.AdvanceInstruction | src/bot/mod.rs:58-64 | only the counter changes, to its successor, wrapping from 31 to 0 |
| Bot.BotState.ReadInstruction | src/bot/mod.rs:66-70 | returns the decoded byte under the counter, then advances the counter |
| Bot.BotState.ReadValue | src/bot/mod.rs:72-76 | returns the byte under the counter, then advances the counter |
| Bot.RunBotInterpreter | src/bot/mod.rs:155-256 | the registers become `Interpret` of the old registers; `Walk n` pushes `n` walks in a loop |
| Bot.Interpret | src/bot/mod.rs:155-256 | a halted or busy robot is left alone; otherwise `prev` records the executed cell; the direction never changes here |
| Bot.InterpretInvariant | src/bot/mod.rs:155-256 | with every program byte below 32 the counter stays below 32; the direction is unchanged; a halted or busy robot is left alone; otherwise `prev` records the executed cell |
| Bot.InterpretHalts | src/bot/mod.rs:174-182 | the robot halts exactly on `Halt` or on a byte that is no opcode; halting queues nothing and advances past the opcode |
| Bot.InterpretAdvances | src/bot/mod.rs:183-254 | a jump goes to its operand; every other instruction goes past itself and its operand |
| Bot.InterpretQueues | src/bot/mod.rs:183-218 | `Walk n` queues `n` walks; `turn around`, `turn left` and `turn right` queue exactly `UpdateDir(TurnedAround(dir))`, `UpdateDir(TurnedLeft(dir))` and `UpdateDir(TurnedRight(dir))`; `Skip` queues one wait; nothing else queues anything |
| Bot.NegatedBranchesDisagree | src/bot/mod.rs:223-254 | a conditional and its negation, in the same situation, go to the two different successors |
| Movement.FindAt | src/bot/mod.rs:354 | the first blocking entity on the cell, or none exactly when no entity is there |
| Movement.EntityOnTile | src/bot/mod.rs:418-425 | the returned kind is that of the first entity on the cell; none exactly when the cell is empty |
| Movement.MoveAllowed | src/bot/mod.rs:316-348 | an allowed step never enters a wall and never starts on the exit or a wall; upper floor is entered only from upper floor or a ramp; a ramp is entered from off a ramp only from a floor |
| Movement.MoveAllowedBarriers | src/bot/mod.rs:316-348 | a wall is never entered; lower floor never climbs to upper floor; from the void only the void is allowed |
| Movement.UpperFloorOntoRamp | src/bot/mod.rs:319-321 | from upper floor a ramp is entered exactly in the direction it descends |
| Movement.RampOntoRamp | src/bot/mod.rs:339-343 | ramp to ramp is allowed exactly when they face opposite ways and the step goes down the first ramp |
| Movement.RampCrossingsReversible | src/bot/mod.rs:316-345 | every step between a ramp and a floor or a ramp is allowed exactly when the step back is |
| Movement.WalkedLast | src/bot/mod.rs:356-361 | `k` steps are `k - 1` steps and one more |
| Movement.TrainOccupied | src/bot/mod.rs:354-366 | the pushed train is exactly the run of occupied cells ahead, and the cell after it is free |
| Movement.Pushes | src/bot/mod.rs:350-368 | a walk gives moves exactly when every member of the train can step; then there is one move per member plus the walker's, walker first |
| Movement.PushesAlone | src/bot/mod.rs:350-353 | with nothing ahead, the walk is the walker's single move if legal, else nothing |
| Movement.PushesBehind | src/bot/mod.rs:354-366 | with an entity ahead, the walk is the walker's move followed by the pushed entity's walk, or nothing if either fails |
| Movement.IsValidMove | src/bot/mod.rs:307-369 | the recursive check returns exactly `Pushes` |
| Movement.PushesChain | src/bot/mod.rs:350-368 | move `k` goes from `k` cells ahead to `k + 1`, for the walker and then the train in order; the cell after the last move is free |
| Movement.PushAgainstWallFails | src/bot/mod.rs:322-344 | a train whose front faces a wall does not move |
| Movement.MoveAllowedAsWritten | src/bot/mod.rs:316-348 | the table panics exactly when the mover stands on the exit or a wall, and otherwise answers as `MoveAllowed` |
| Movement.IsValidMoveAsWritten | src/bot/mod.rs:307-369 | whenever the recursion as written does not panic, it returns what `IsValidMove` returns |
| Movement.PushIntoExitPanics | src/bot/mod.rs:347-366 | a legal walk onto an exit where an entity still stands panics as written |
| Movement.PushIntoExitFails | src/bot/mod.rs:316-366 | in the model that walk fails: no entity moves |
| Progress.Blocking | src/bot/mod.rs:290 | the blocking bodies are exactly those of the untagged entities |
| Progress.Land | src/bot/mod.rs:395-405 | the entity ends on the target with id, kind and tag kept; on void or exit a robot is halted and its queue cleared; elsewhere its registers are kept |
| Progress.IndexOf | src/bot/mod.rs:297 | `get` finds the entity with the id, or none exactly when the id is absent |
| Progress.IndexOfUnique | src/bot/mod.rs:297 | with unique ids, `get` finds each entity's own index |
| Progress.BlockingOfSameBodies | src/bot/mod.rs:290 | the blocking query depends only on ids, kinds, positions and tags |
| Progress.ApplyMoves | src/bot/mod.rs:393-407 | moves keep every entity's id, kind, tag and program, and keep robots well formed |
| Progress.MoveTags | src/bot/mod.rs:395-403 | an id is collected exactly when one of its moves lands on the void or the exit |
| Progress.ApplyMovesEffects | src/bot/mod.rs:393-407 | with unique ids and one move per entity, a moved entity lands on its move's target and every other entity is unchanged |
| Progress.ActionOutcome | src/bot/mod.rs:284-416 | one step keeps the shape of the world and keeps robots well formed |
| Progress.ActionEffects | src/bot/mod.rs:296-414 | the last queued step is popped; nothing queued does nothing; `Wait` shows idle; `UpdateDir` shows (old, new) and sets the direction; `Walk` is `WalkOutcome` of the popped world |
| Progress.WalkOutcome | src/bot/mod.rs:371-408 | a walk keeps the shape of the world and keeps robots well formed |
| Progress.WalkEffects | src/bot/mod.rs:350-408 | a blocked walk shows a failed move and changes nothing; otherwise the walker and its train land one cell further in its direction, every other entity is unchanged, and exactly those of them landing on void or exit are tagged |
| Progress.BotTurn | src/bot/mod.rs:450-466 | a turn appends exactly one frame of render steps and keeps robots well formed |
| Progress.Turns | src/bot/mod.rs:450-466 | one frame per robot id |
| Progress.RobotIds | src/bot/mod.rs:443-447 | exactly the ids of the robots |
| Progress.SortIds | src/bot/mod.rs:449 | an ascending permutation of the ids |
| Progress.InsertAscending | src/bot/mod.rs:449 | inserting into an ascending sequence keeps it ascending |
| Progress.TagAll | src/bot/mod.rs:402 | an entity is tagged afterwards exactly when it was tagged before or its id was collected |
| Progress.HaltedRobotRests | src/bot/mod.rs:162-164 | a halted robot's turn changes nothing and gives an empty frame |
| Progress.WalkMovesOneCell | src/bot/mod.rs:371-407 | a walk shows a failed move and changes nothing, or moves entities one cell each in the walker's direction, the walker first |
| Progress.Tick | src/bot/mod.rs:427-467 | every entity keeps its place in the arena, its id and its kind |
| Progress.TickKeepsEntities | src/bot/mod.rs:427-467 | a tick keeps every entity, kind and program; it never removes a tag; it gives one frame per robot, or nothing while render steps are pending |
| Progress.ExitSceneFresh | src/bot/mod.rs:155-187 | `ExitScene` is the start of a level: both robots are running, at instruction 0 with empty queues, and their programs begin `walk 1` |
| Progress.FreshInterpret | src/bot/mod.rs:183-187 | a running robot whose program begins `walk 1` queues exactly one walk; its position and direction and every other entity stay as they were |
| Progress.FreshTurnWalks | src/bot/mod.rs:298-306 | that robot's step pops the one walk, and the outcome is its walk from the unchanged world |
| Progress.ExitSceneWalk | src/bot/mod.rs:371-407 | in a world laid out like `ExitScene` on `ExitGrid`, robot 0's walk pushes the box right onto the exit at (2,1); the box is collected for tagging but still untagged, and robot 2 stays |
| Progress.FirstTurn | src/bot/mod.rs:450-466 | robot 0's whole turn from the start of `ExitScene` (interpreter, then step) leaves the box untagged on the exit and robot 2 untouched and still running `walk 1` |
| Progress.SceneTickOrder | src/bot/mod.rs:449-450 | the tick of `ExitScene` takes robot 0's turn, then robot 2's |
| Progress.BoxOnExitPanics | src/bot/mod.rs:347-366 | with that box still blocking the exit, robot 2's walk up from (2,2) onto the exit panics as written; in the model it gives no moves |
| Progress.SecondTurnWalk | src/bot/mod.rs:298-366 | in the world robot 0's turn leaves, robot 2 queues and pops one walk, finds the box still on the exit ahead and that walk panics as written |
| Progress.SecondTurnFails | src/bot/mod.rs:371-392 | in the model robot 2's step shows a failed move and changes nothing but its queue |
| Progress.TickOfTwo | src/bot/mod.rs:427-467 | a tick with robots 0 and 2 is robot 0's turn, then robot 2's, then the collected tags |
| Progress.ExitSceneTick | src/bot/mod.rs:427-467 | the model's first tick of `ExitScene` gives two frames, robot 2's a failed move, and ends with the box tagged on the exit |
| Progress.PushedOntoExitStillBlocks | src/bot/mod.rs:347-466 | from the start of `ExitScene` on `ExitGrid` the tick takes robot 0's turn first; after it the box stands untagged on the exit, and robot 2's turn in the same tick interprets `walk 1`, pops the walk and reaches the panic as written |
| Arena.Blockers | src/bot/mod.rs:433 | the in-place blocking query equals the value-level one |
| Arena.Find | src/bot/mod.rs:452 | the in-place `get` equals the value-level one |
| Arena.RobotIdsOf | src/bot/mod.rs:443-447 | the in-place robot query equals the value-level one |
| Arena.World.SetRegs | src/bot/mod.rs:463 | only that robot's registers change |
| Arena.World.SetPos | src/bot/mod.rs:404-405 | only that entity's position changes |
| Arena.World.MoveEntity | src/bot/mod.rs:395-405 | the entity moves; landing on void or exit halts a robot and clears its queue |
| Arena.World.RunInterpreter | src/bot/mod.rs:451-463 | the robot's registers become what `Interpret` gives for the first blocking entity it faces |
| Arena.World.ApplyBotActions | src/bot/mod.rs:284-416 | the world, render steps and tags are `ActionOutcome` |
| Arena.World.Walk | src/bot/mod.rs:371-408 | the world, render steps and tags are `WalkOutcome` |
| Arena.World.ApplyMovesInPlace | src/bot/mod.rs:393-407 | the loop carries out `ApplyMoves` and collects `MoveTags` |
| Arena.World.ApplyMoveInPlace | src/bot/mod.rs:394-406 | one render step is `ApplyMove`; it is tagged exactly when it moves onto the void or the exit |
| Arena.World.TagEntities | src/bot/mod.rs:402 | the world becomes `TagAll` of the collected ids |
| Arena.World.ProgressWorld | src/bot/mod.rs:427-467 | world and frames are `Tick` of the old world; the world invariant (unique ids, well-formed robots) is kept |
| Arena.World.RobotTurns | src/bot/mod.rs:449-466 | the loop over the sorted robot ids computes `Turns` |
| Arena.World.RobotTurn | src/bot/mod.rs:451-465 | one robot's turn is `BotTurn`: it runs the interpreter on what it faces, then one step, and appends the render steps as a frame |
| Status.AnyOn | src/bot/mod.rs:475-477 | true exactly when some entity of the kind stands on the place |
| Status.AnyHalted | src/bot/mod.rs:487 | true exactly when some robot is halted |
| Status.FailureDetector | src/bot/mod.rs:469-498 | each failure is reported exactly when its condition holds and no earlier one does; none when no condition holds |
| Status.LevelComplete | src/bot/mod.rs:500-514 | true exactly when every entity stands on the exit |
| Status.WonWithRobotAlsoFails | src/bot/mod.rs:469-514 | when every entity, a robot among them, is on the exit, the failure detector reports the robot exiting early |
| Status.HaltedRobotFails | src/bot/mod.rs:487-490 | a halted robot always makes the stage fail |
| Editor.ParseHead | src/bot/edit.rs:46-127 | an accepted head is exactly the words of the instruction it names |
| Editor.ParseName | src/bot/edit.rs:46-135 | an accepted name's words are exactly the instruction's words; nothing may follow |
| Editor.ParseNameIff | src/bot/edit.rs:46-135 | a name is accepted as `i` exactly when its words are the words of `i` |
| Editor.ParseNameOfDisplay | src/bot/mod.rs:97-119 | the display text of every instruction but `Skip` is trimmed already and parses back to the instruction |
| Editor.DisplayIsNameWords | src/bot/mod.rs:97-119 | for every instruction but `Skip`, the display text is the instruction's words joined by single spaces |
| Editor.RenderName | src/bot/edit.rs:166-167 | the rendered name is empty exactly when the byte is no instruction |
| Editor.NegatedWords | src/bot/edit.rs:66-103 | a negated condition is written with `not` after `if` |
| Editor.SkipNameIsRefused | src/bot/edit.rs:46-127 | leaving the name cell of a `Skip` reports an invalid start and keeps the byte |
| Editor.UnknownWordRefused | src/bot/edit.rs:46-127 | a single word other than `halt`, `walk`, `turn`, `wait`, `goto` and `if` is refused as an invalid start |
| Editor.ParseValue | src/bot/edit.rs:144-161 | a value is accepted exactly when it parses as a `u8` below 32 |
| Editor.EditCell | src/bot/edit.rs:34-169 | a refused text keeps the byte; stored bytes stay below 32; blank text is restored from the byte; an accepted text re-renders both texts |
| Editor.RenderedIsStable | src/bot/edit.rs:34-169 | leaving a cell that shows its own byte changes nothing and reports no error, except the name cell of a `Skip` |
| Editor.InstructionsEditor.constructor | src/bot/edit.rs:13-22 | every cell holds `Halt`, shown as "halt" and "0"; no active cell; no error |
| Editor.InstructionsEditor.ActiveCellData | src/bot/edit.rs:24-32 | the active cell's name or value text, none exactly when no cell is active |
| Editor.InstructionsEditor.SetActiveCellData | src/bot/edit.rs:24-32 | writing through the returned reference changes only the active cell's text |
| Editor.InstructionsEditor.CheckAndUpdateCell | src/bot/edit.rs:34-169 | the cell becomes `EditCell` of its old contents and the error is set from it; every other cell is untouched; all bytes stay below 32 |
| Editor.InstructionsEditor.CheckName | src/bot/edit.rs:38-137 | the name half: the cell becomes `EditCell` of its old contents; the error is set only on a refusal |
| Editor.InstructionsEditor.RestoreName | src/bot/edit.rs:39-44 | a blank name is rendered again from the byte, nothing else changes |
| Editor.InstructionsEditor.RefuseName | src/bot/edit.rs:39-135 | a refused name stays trimmed, the byte is kept and the error is the parser's |
| Editor.InstructionsEditor.AcceptName | src/bot/edit.rs:137-168 | an accepted name stores the instruction's byte and renders both texts from it |
| Editor.InstructionsEditor.CheckValue | src/bot/edit.rs:138-163 | the value half: the cell becomes `EditCell` of its old contents; the error is set only on a refusal |
| Editor.InstructionsEditor.RestoreValue | src/bot/edit.rs:139-143 | a blank value is rendered again from the byte, nothing else changes |
| Editor.InstructionsEditor.RefuseValue | src/bot/edit.rs:139-160 | a refused value stays trimmed, the byte is kept, and the error is the number's or that it is above 31 |
| Editor.InstructionsEditor.AcceptValue | src/bot/edit.rs:163-168 | an accepted value is stored and both texts are rendered from it |
| Editor.InstructionsEditor.OnSelectionQuit | src/bot/edit.rs:171-177 | installs the new cell and returns the old one, checking it if there was one |

## Left out

- Bevy's systems, queries, resources, rendering, timers and the UI are not modelled.
  - A query is a sequence in arena order.
  - An `Entity` is a number; `bots.sort()` orders by that number.
  - The render queue appears only as the `pending` count that `Tick` and
    `Arena.World.ProgressWorld` take.
- The failure messages are the `Failure` and `EditError` values, not their text.
  `level_complete_checker`'s update of the level list and the state change to the start
  screen are left out. Both are bookkeeping outside the game rules.
- `Maps.TileAt` treats every position outside the grid as `Void`. The source uses
  unsigned coordinates and `Map::tile` asserts the bounds. A robot facing off the border
  would underflow or panic there, so the model gives that case a value instead.
- `Maps.FromStr` returns `UnexpectedChar` where the source panics on a bad character. It
  returns `NoLines` where the source's `unwrap` of the maximum width panics.
- `Progress.BotTurn` gives an empty frame for an id that names no robot, where the
  source's `unwrap` panics. A tick only takes the robots' own ids, so this does not
  arise there.
- `Movement.MoveAllowed` answers "not allowed" for a mover standing on `Exit` or `Wall`,
  where the source reaches `unreachable!()`. Tags are deferred to the end of the tick,
  so an entity pushed onto the exit still blocks for the rest of that tick, and a later
  walk into it reaches the panic. The model refuses that walk instead (see Findings).
- `Bot.Instruction` has `IfRobot` (13) and `IfNotRobot` (14) after the thirteen
  variants of src/bot/mod.rs:81-95. The editor produces them (src/bot/edit.rs:97-103),
  but the interpreter has no arm for them. `Bot.Interpret` evaluates them like `IfBox`
  with `Robot` in place of `Box`.
- `Editor.ParseName` maps the word `wait` to `Skip`. The editor refers to an
  `Instruction::Wait` that the enum does not have. So "skip", the display text of
  `Skip`, is refused, as `Editor.SkipNameIsRefused` states.
- `Editor.ParseNameOfDisplay` and `Editor.RenderedIsStable` exclude `Skip` for that
  reason.
- `Bot.RunBotInterpreter` and `Bot.Interpret` require the program counter to be inside
  the 32-byte program. The source indexes the array and would panic otherwise. The
  world invariant (`Progress.RobotsWellFormed`) keeps this true.
- `Bot.BotState.AdvanceInstruction` requires the counter not to be 255. The source's
  `+= 1` would overflow a `u8` there.
- `Text.IsWhitespace` is Unicode's White_Space property. There is no normalisation.
  `Text.ParseU8` follows `u8::from_str`, where a lone sign is an invalid digit.
- `InstructionsEditor` does not model the aliasing of the `&mut String` that
  `active_cell_data` returns. Writing through it is the separate method
  `SetActiveCellData`.
- Level loading (src/level_loader.rs), drawing (src/draw/) and `init_state` are not
  part of this model.

## Findings

| source | as written | input that shows it | evidently intended | confidence | as-written member | corrected member |
|---|---|---|---|---|---|---|
| src/bot/mod.rs:347 | `is_valid_move` reaches `unreachable!()` when the entity to push stands on the exit. Tags are only inserted through `commands` (src/bot/mod.rs:402), so an entity pushed onto the exit stays in the blocking query for the rest of the tick | `ExitScene` on `ExitGrid`, a 3×3 floor with the exit at (2,1), at the start of the level: robot 0 at (0,1) facing right and robot 2 at (2,2) facing up both run `walk 1`, box 1 stands at (1,1). In the first tick robot 0 pushes the box onto the exit; robot 2 then walks up into it, and `is_valid_move` is asked to push the box from the exit to the floor cell (2,0) | the walk must not crash; the model refuses the push, so the walker shows a failed move and nothing moves | medium, not executed | Progress.PushedOntoExitStillBlocks | Progress.ExitSceneTick |
