# kf_chess game core in Dafny

kf_chess ("Kung-Fu chess") is chess without turns. Each piece runs a small state machine:
`idle`, `move`, `jump`, `short_rest` and `long_rest`. Each state has its own physics, and the
machine changes state on commands and timers. A queued move starts only when the board accepts
it. Once a tick has updated every piece, the game reconciles the board: two pieces that meet on
one cell fight it out, and one of them is removed. The game ends when at most one king is left.

This project models that core as pure functions over immutable datatypes and proves properties
of the model. It covers:

- the board geometry and algebraic notation (`Board`);
- the move rules and move generation, including the pawn branch (`Moves`);
- the five physics variants (`Physics`) and their factory (`PhysicsFactory`);
- the per-piece state machine (`State`);
- the piece (`Piece`);
- the piece factory and the wiring of its state machine (`PieceFactory`);
- the command checks (`CommandHandler`);
- the game: loading the layout, reconciling the board, announcing the winner and running the
  main loop (`Game`).

`Text` models the few Python string built-ins the core uses: `strip`, `split`, `int()` and `str()`
on naturals.
`Wrappers` holds `Option` and `Result`.

Modelling decisions:

- A Python exception becomes an `Err` value. A call that would crash with a `TypeError`, an
  `AttributeError`, an `IndexError` or a `ZeroDivisionError` becomes a precondition, and each
  one is named under "Left out". The one exception is the division by a speed of 0 in a move
  reset: the model takes the duration from `Travel` and has no such error (`Physics.Reset`
  under "Left out").
- A piece's states are one map from state name to state, plus the name of the current state.
  The machine changes state by changing that name.
- The class-wide counter `Piece.nextCode` is passed around explicitly as `nextCode`.
- A physics start time of `None` is an `anchored` flag set to false. The integer it is compared
  as is then 0.
- Positions are integers. The distance a move covers and its duration in milliseconds come from
  a caller-supplied function `Travel`. The mid-motion position is the floor of the exact linear
  interpolation.
- Clocks, the keyboard, the file system and the renderer are parameters or are left out. The
  model receives the lines of `moves.txt`, the state directories with their parsed
  `config.json`, the CSV rows, and one `(now, queued commands)` frame per iteration of the main
  loop.

The model keeps four behaviours of the code exactly as written:

- A jumping piece never leaves `jump`. Once its second has passed, jump physics returns its own
  `jump` command again, and `jump`'s only transition is `short_rest`, so the command is ignored.
  Jump physics never sets `finished` either, so no chained command leaves `jump`
  (`Piece.JumpIsFinal`).
- A jump reset does not move the piece's position.
- `on_command` sets `has_moved` for every `move` command, even when the current state ignores
  the command (`Piece.IgnoredMoveStillCounts`).
- The piece factory passes `cfg["physics"]` to the physics factory, which looks up `"physics"`
  again. So the speed is always the default 1.0 unless the section itself holds a `"physics"`
  entry (`PieceFactory.SectionSpeedIgnored`).

## Model

| member | source | states |
|---|---|---|
| Board.FloorDiv | It1_interfaces/Board.py:54-58 | Python's `//`: the quotient q satisfies q*b <= a < q*b + b for a positive divisor, mirrored for a negative one |
| Board.WorldRoundTrip | It1_interfaces/Board.py:27-58 | `world_to_cell(cell_to_world(c)) == c` for any nonzero cell sizes, with `cell_to_world` putting x = col * cell width and y = row * cell height |
| Board.WorldToCellInRect | It1_interfaces/Board.py:54-58 | every point inside a cell's pixel rectangle maps back to that cell |
| Board.ToLower | It1_interfaces/Board.py:40 | the first character of `lower()` is a small letter a..z exactly for ASCII letters, the Kelvin sign and the capital I with dot above, and is `k` exactly for `k`, `K` and the Kelvin sign; small letters stay as they are |
| Board.AlgebraicToCell | It1_interfaces/Board.py:37-53 | succeeds iff the notation is two characters, a file a-h in either case and a rank 1-8; otherwise reports the length, column or row error, checked in that order; row = 8 - rank, col = file - 'a' |
| Board.CellToAlgebraic | It1_interfaces/Board.py:60-66 | succeeds iff the cell lies in the 8x8 range, else reports out of bounds; a result is a valid square name with a lower-case file |
| Board.NameRoundTrip | It1_interfaces/Board.py:37-66 | name to cell to name gives the name with its file lower-cased, and gives exactly the name when the name is lower-case |
| Board.CellRoundTrip | It1_interfaces/Board.py:37-66 | cell to name to cell gives the same cell for every cell of the 8x8 board |
| Board.PixRoundTrip | It1_interfaces/Board.py:68-80 | `pix_to_cell(cell_to_pix(c)) == c` for nonzero cell sizes |
| Board.ValidCellsAreNamed | It1_interfaces/Board.py:82-85 | on an 8x8 board a cell is valid iff it has an algebraic name |
| Text.Strip | It1_interfaces/Moves.py:23 | the result is the infix left after removing Python whitespace (the full `str.isspace()` set) from both ends: no whitespace at its ends, only whitespace outside it, and no change to a string without surrounding whitespace |
| Text.Split | It1_interfaces/Moves.py:23 | splitting yields one more part than there are separators, no part contains the separator, and joining the parts with the separator gives the string back |
| Text.SplitPair | It1_interfaces/Moves.py:23-24 | a string with exactly one comma splits into the text before and after it |
| Text.ParseIntRoundTrip | It1_interfaces/Moves.py:26 | `int()` reads back every integer from its decimal text |
| Text.NatToStringInjective | It1_interfaces/PieceFactory.py:61 | distinct counts print as distinct decimal strings |
| Moves.ParseLines | It1_interfaces/Moves.py:19-26 | each line of the rule file is parsed on its own, in file order |
| Moves.CollectOk | It1_interfaces/Moves.py:16-29 | collecting succeeds iff every line parsed, and then keeps every rule in order |
| Moves.CollectErr | It1_interfaces/Moves.py:16-29 | a failure names the first line that did not parse |
| Moves.ParseRulesOk | It1_interfaces/Moves.py:16-29 | loading succeeds iff every line is two comma-separated integers, and keeps one rule per line in file order |
| Moves.ParseRulesErr | It1_interfaces/Moves.py:24-28 | a failure names a line that does not parse, and every earlier line parses |
| Moves.RuleLineRoundTrip | It1_interfaces/Moves.py:23-27 | the line `dr,dc` printed for a rule parses back to that rule |
| Moves.RulesRoundTrip | It1_interfaces/Moves.py:16-29 | loading the printed lines of any rule list gives that list back |
| Moves.PieceTypeOfRuleFile | It1_interfaces/Moves.py:11-14 | for a rule file `<root>/<type>/moves.txt` the piece type is `<type>`, the name of the directory holding the file |
| Moves.NonPawnMembership | It1_interfaces/Moves.py:87-92 | a cell is a non-pawn move iff it is on the board and some rule's offset from the piece reaches it |
| Moves.SortByDistance | It1_interfaces/Moves.py:42 | the forward rules are sorted by row distance, as a permutation of the input that keeps the input order among rules of equal distance, as Python's stable sort does |
| Moves.Straight | It1_interfaces/Moves.py:41 | the forward rules are exactly the rules with no column offset, in file order |
| Moves.StraightAppend | It1_interfaces/Moves.py:41 | filtering a concatenation filters each part and concatenates the results, so the comprehension keeps file order |
| Moves.StraightSingle | It1_interfaces/Moves.py:41 | a single rule is kept iff its column offset is 0 |
| Moves.ForwardWalk | It1_interfaces/Moves.py:44-59 | every forward step lands on the board on an empty cell |
| Moves.ForwardStops | It1_interfaces/Moves.py:54-56 | the first forward rule whose target is occupied ends the walk: later rules add nothing |
| Moves.ForwardMembership | It1_interfaces/Moves.py:41-59 | a cell is a forward move iff some rule reaches it, that rule is not a two-step rule of a moved pawn, the cell is on the board and empty, and no earlier rule was blocked |
| Moves.ForwardFromRules | It1_interfaces/Moves.py:41-59 | every forward move comes from one of the walked rules that was not skipped |
| Moves.GetMoves | It1_interfaces/Moves.py:31-94 | every generated cell is on the board, and a non-pawn gets exactly its non-pawn moves; it is defined wherever Python does not raise, which is everywhere except at an occupied on-board capture cell of a pawn whose occupant id or own type has fewer than two characters |
| Moves.NonPawnIgnoresOccupancy | It1_interfaces/Moves.py:87-92 | a non-pawn's moves depend neither on the occupancy nor on `has_moved` |
| Moves.PawnMoves | It1_interfaces/Moves.py:36-85 | a pawn's moves are its forward walk followed by its captures, with no captures without an occupancy |
| Moves.CapturesAhead | It1_interfaces/Moves.py:61-85 | a capture lies one row ahead, at most one column aside, on the board and on an opposing piece |
| Moves.FrontCapture | It1_interfaces/Moves.py:61-85 | the cell straight ahead is a capture iff it is on the board and holds an opposing piece |
| Moves.PawnDestinations | It1_interfaces/Moves.py:36-85 | every pawn move is either a non-skipped forward step to an empty cell in its column, or a capture of an opponent one row ahead |
| Moves.PawnCapturesOpponents | It1_interfaces/Moves.py:61-85 | every opposing piece one row ahead and at most one column aside can be taken |
| Moves.MovedPawnNoDoubleStep | It1_interfaces/Moves.py:44-59 | a pawn that has moved never moves two rows |
| Moves.PawnAvoidsFriends | It1_interfaces/Moves.py:36-85 | an occupied cell among a pawn's moves holds an opposing piece |
| Moves.WhitePawnWalk | It1_interfaces/Moves.py:41-59 | a white pawn walks one step, plus the double step when it has not moved, stopping at the first occupied cell |
| Moves.DoubleStepAvailability | It1_interfaces/Moves.py:41-59 | a white pawn may move two rows iff it has not moved and both cells ahead are empty |
| Moves.WhitePawnOpening | It1_interfaces/Moves.py:41-59 | on an empty board an unmoved white pawn gets exactly the one-step and two-step cells |
| Moves.WhitePawnBlocked | It1_interfaces/Moves.py:54-85 | a white pawn with a piece right ahead has only its captures |
| Moves.WhitePawnTakesBlocker | It1_interfaces/Moves.py:61-85 | that blocking piece can be taken iff it is not white |
| Moves.NonPawnScenario | It1_interfaces/Moves.py:87-92 | a rook with the one rule (1,0) at (4,4) moves only to (5,4) |
| CommandHandler.Find | It1_interfaces/CommandHandler.py:17 | finds the piece with a given unique number, or shows no piece has it |
| CommandHandler.Occupancy | It1_interfaces/CommandHandler.py:20 | the occupancy passed to move generation maps exactly the occupied cells to their pieces' ids |
| CommandHandler.StepCellReaches | It1_interfaces/CommandHandler.py:53-58 | on a line the walk reaches the destination after exactly the step count and not before |
| CommandHandler.IsPathClear | It1_interfaces/CommandHandler.py:40-60 | the path is clear iff the move is not a straight or diagonal line, or no cell strictly between source and destination is occupied |
| CommandHandler.ObstructionIgnoresEnds | It1_interfaces/CommandHandler.py:54-58 | what stands on the source or destination cell never blocks the path |
| CommandHandler.QueuedCommandFits | It1_interfaces/CommandHandler.py:38 | a queued command with parseable squares can be routed by any wired state machine |
| CommandHandler.Check | It1_interfaces/CommandHandler.py:13-35 | a source-empty verdict iff the source is empty; acceptance iff the destination is a legal move, not friendly and on a clear path |
| CommandHandler.HandleCommand | It1_interfaces/CommandHandler.py:9-38 | fails iff a square does not parse; a rejected command changes nothing; an accepted one changes only the moving piece, which takes the command |
| CommandHandler.AcceptedRunsOnCommand | It1_interfaces/CommandHandler.py:38 | an accepted command is exactly `on_command` on the piece at the source |
| CommandHandler.HandleCommandKeeps | It1_interfaces/CommandHandler.py:9-38 | handling a command keeps every piece's identity, rules and readiness, and never clears `has_moved` |
| Physics.New | It1_interfaces/Physics.py:10-17 | a new physics sits on its cell, with start time 0, no command, not finished and speed times 100 |
| Physics.Reset | It1_interfaces/Physics.py:44-174 | every reset stores the command; idle is anchored at 0; move sets its path and duration from the two squares; the rest states move to the command's source; jump keeps its position |
| Physics.LerpBounds | It1_interfaces/Physics.py:101-105 | the interpolated coordinate starts at the source and stays between source and destination |
| Physics.NewUpdatable | It1_interfaces/Physics.py:10-17 | a freshly constructed physics (start time 0, no command) can be updated without raising iff it is idle, or a move whose first millisecond has not yet passed |
| Physics.Update | It1_interfaces/Physics.py:49-190 | idle does nothing; the first update anchors the start time; move interpolates, then holds, then finishes and echoes its command; jump and short rest echo theirs after 1000 and 500 ms; long rest emits a fresh idle command on its cell after 1500 ms; before its first reset only idle physics and a move within its first millisecond can be updated |
| Physics.FirstUpdateAnchors | It1_interfaces/Physics.py:89-96 | after a non-idle reset the first update sets the start time to now and emits nothing |
| Physics.MotionStaysBetween | It1_interfaces/Physics.py:98-105 | mid-motion the position lies between the start and the end on both axes |
| Physics.MoveStartsAtSource | It1_interfaces/Physics.py:78-105 | right after a reset a move stands on its source square |
| Physics.MoveHoldsAtEnd | It1_interfaces/Physics.py:106-108 | after the motion and before the hold time runs out, a move sits at its end and emits nothing |
| Physics.MoveCompletionRepeats | It1_interfaces/Physics.py:91-112 | a finished move keeps returning its command unchanged on every later update |
| Physics.CaptureFlags | It1_interfaces/Physics.py:52-196 | a variant that can capture can be captured; a jump can do neither; a rest can be captured but cannot capture |
| PhysicsFactory.KindNameRoundTrip | It1_interfaces/PhysicsFactory.py:14-23 | the five state names and the five physics variants correspond one to one |
| PhysicsFactory.Create | It1_interfaces/PhysicsFactory.py:9-25 | succeeds iff the name is one of the five states, then builds that variant on the cell; reports an unknown state otherwise |
| State.IndexOfAppend | It1_interfaces/State.py:16-17 | adding a new key to the table gives it the next position, and keeps every earlier position |
| State.Lookup | It1_interfaces/State.py:31-36 | an event has a target iff it is a key of the table |
| State.SetTransition | It1_interfaces/State.py:16-17 | setting a transition keeps the key order and appends a new key at the end, as a dict does |
| State.SetTransitionLookup | It1_interfaces/State.py:16-17 | after setting, the event maps to the new target and every other event is unchanged |
| State.SetTransitionKeepsUnique | It1_interfaces/State.py:16-17 | the table never holds one event twice |
| State.ProcessCommand | It1_interfaces/State.py:31-36 | an unknown event changes nothing; a known one resets its target with the command and makes it current, leaving every other state alone |
| State.Step | It1_interfaces/State.py:24-29 | the update steps only the current state's physics |
| State.Update | It1_interfaces/State.py:24-29 | when the physics emits a command, the machine processes it; otherwise only the physics advances |
| State.CanTransitionAgreesWithUpdate | It1_interfaces/State.py:24-39 | `update` is the physics step, followed by `process_command` exactly when `can_transition` holds |
| State.ProcessCommandPreserves | It1_interfaces/State.py:31-36 | processing a command keeps the machine wired and every state coherent |
| State.UpdatePreserves | It1_interfaces/State.py:24-29 | updating a wired, live machine never raises and keeps it wired and live |
| State.FinishedChainsToLongRest | It1_interfaces/Piece.py:43-49 | only a move finishes, and its first transition leads to long rest |
| Piece.IgnoredMoveStillCounts | It1_interfaces/Piece.py:20-26 | a move command sent to a piece outside idle leaves its machine alone but still marks it moved |
| Piece.OnCommandEnters | It1_interfaces/Piece.py:20-26 | on a wired machine a command whose type is an event of the current state enters that state, which then holds the command; any other command leaves the machine as it is; the machine stays wired and live |
| Piece.Update | It1_interfaces/Piece.py:43-49 | an update keeps the piece's identity and rules and never clears `has_moved` |
| Piece.UpdatePreserves | It1_interfaces/Piece.py:43-49 | an update keeps the machine wired and live |
| Piece.UpdateChains | It1_interfaces/Piece.py:43-49 | a finished move chains into long rest through `on_command`; otherwise only the machine updates |
| Piece.JumpIsFinal | It1_interfaces/Piece.py:43-49 | a jumping piece stays in jump with its command unchanged |
| Piece.PossibleCommandEnters | It1_interfaces/Piece.py:28-37 | a command `is_command_possible` accepts is never ignored by `on_command`: the piece enters the command's state holding the command; for a non-move command, possible iff the current state has its event |
| Piece.Reset | It1_interfaces/Piece.py:39-41 | with no command nothing changes; otherwise only the current state is reset, with the piece's command |
| PieceFactory.LoadStates | It1_interfaces/PieceFactory.py:24-41 | the state loop succeeds iff every directory has a physics section, a known state name and a graphics section |
| PieceFactory.LoadStatesError | It1_interfaces/PieceFactory.py:24-41 | a failure comes from the first rejected directory, with its error |
| PieceFactory.LoadStatesKeys | It1_interfaces/PieceFactory.py:24-41 | the loop builds exactly one state per directory name |
| PieceFactory.LoadStatesOk | It1_interfaces/PieceFactory.py:24-41 | every state built stands on the piece's cell, with no command and no transitions |
| PieceFactory.WireNamed | It1_interfaces/PieceFactory.py:42-47 | the wiring gives each of the five states exactly its standard edges |
| PieceFactory.FirstMissingNone | It1_interfaces/PieceFactory.py:42-47 | the wiring raises iff one of the five states is missing, and then names a missing one |
| PieceFactory.BuildStateMachine | It1_interfaces/PieceFactory.py:19-49 | succeeds iff the rules load, every state directory has physics, a known name and graphics, and all five states exist; the machine starts in idle |
| PieceFactory.BuiltStates | It1_interfaces/PieceFactory.py:19-49 | the built machine is the wiring of the five fresh states, starting in idle |
| PieceFactory.BuiltMachineIsWired | It1_interfaces/PieceFactory.py:42-49 | the built machine is wired and live, has no command, and every state stands on the piece's cell |
| PieceFactory.SectionSpeedIgnored | It1_interfaces/PieceFactory.py:31-35 | a state whose physics section has no nested `physics` entry gets the default speed 1.0 (times 100), whatever `speed_m_per_sec` the section holds |
| PieceFactory.MakeIdInjective | It1_interfaces/PieceFactory.py:61 | two ids `type_n` are equal only for the same type and count |
| PieceFactory.CreatedApart | It1_interfaces/PieceFactory.py:50-64 | two successful creations raise the type's count by one each (others unchanged) and give distinct unique numbers and distinct ids |
| Game.Survivors | It1_interfaces/Game.py:107-108 | exactly the pieces not removed remain |
| Game.SurvivorsOrdered | It1_interfaces/Game.py:107-108 | removing pieces keeps the rest in creation order |
| Game.ResolveKeepsInv | It1_interfaces/Game.py:87-105 | the reconciliation loop keeps its invariant: one claim per claimed cell, and only colliding pieces removed |
| Game.PositionsCoverCells | It1_interfaces/Game.py:83-105 | after reconciliation the occupied cells are exactly the cells some piece stands on |
| Game.KeptOccupies | It1_interfaces/Game.py:93-105 | a piece that is kept is the one recorded on its cell |
| Game.OccupantKept | It1_interfaces/Game.py:93-105 | the piece recorded on a cell stands on it and is kept |
| Game.LoneSurvives | It1_interfaces/Game.py:104-105 | a piece alone on its cell is never removed |
| Game.SurvivorsApart | It1_interfaces/Game.py:83-108 | after reconciliation no two pieces share a cell, and every recorded piece exists |
| Game.TwoPieceCollision | It1_interfaces/Game.py:93-103 | of two pieces on one cell, the later one wins iff the earlier is passive, or the later is active and started earlier |
| Game.UpdatePositionMapping | It1_interfaces/Game.py:83-108 | the loop computes exactly the reconciled pieces and occupancy |
| Game.KingsMembers | It1_interfaces/Game.py:111 | the kings are exactly the pieces whose id starts with `k`, `K` or the Kelvin sign, the characters whose `lower()` starts with `k` |
| Game.Announce | It1_interfaces/Game.py:114-122 | a draw iff no king is left; game over iff more than one is; otherwise the single king's colour letter names the winner |
| Game.KingsOfSurvivors | It1_interfaces/Game.py:107-112 | removing pieces never adds a king |
| Game.UpdateAll | It1_interfaces/Game.py:59-60 | updating every piece keeps each piece's identity and rules and never clears `has_moved` |
| Game.UpdateAllKeeps | It1_interfaces/Game.py:59-60 | the update keeps every piece ready and live, and keeps creation order |
| Game.Drain | It1_interfaces/Game.py:64-66 | draining the queue fails iff some queued command names a malformed square; otherwise it keeps every piece and the occupancy consistent |
| Game.Settled | It1_interfaces/Game.py:59-62 | after updates and reconciliation the occupancy covers exactly the cells the updated pieces stand on |
| Game.Tick | It1_interfaces/Game.py:56-66 | one iteration fails iff a queued square is malformed; otherwise the board stays and no piece is added |
| Game.TickResult | It1_interfaces/Game.py:56-66 | a tick is update, reconcile, then drain; the occupancy is the reconciled one |
| Game.TickKeepsWin | It1_interfaces/Game.py:56-66 | a tick never adds a king |
| Game.TickDescends | It1_interfaces/Game.py:56-66 | every piece after a tick is a later version of a piece before it |
| Game.TickKeepsValid | It1_interfaces/Game.py:56-66 | a tick keeps the game valid, with the occupancy on the cells of the updated pieces |
| Game.ContendersAnchored | It1_interfaces/Game.py:95-99 | after an update a piece that contends a cell actively has an anchored start time |
| Game.PlacementsSound | It1_interfaces/Game.py:36-41 | every placement is a non-blank stripped CSV field at its row and column |
| Game.PlacementsOrder | It1_interfaces/Game.py:36-37 | placements come in reading order: row by row, left to right |
| Game.PlacementsComplete | It1_interfaces/Game.py:36-41 | every non-blank field yields a placement |
| Game.LoadPieces | It1_interfaces/Game.py:33-44 | loading succeeds iff the factory can build every placement, and then holds one piece per placement, numbered in order |
| Game.Setup | It1_interfaces/Game.py:18-44 | the constructor succeeds iff every field can be built, and creates the pieces in reading order, each written into its cell |
| Game.LaidOccupancy | It1_interfaces/Game.py:41-44 | after loading a cell is occupied iff its CSV field is not blank |
| Game.LaidValid | It1_interfaces/Game.py:33-44 | a freshly loaded game is valid |
| Game.Start | It1_interfaces/Game.py:52-54 | the start resets every piece holding a command and leaves the others as they are |
| Game.StartFresh | It1_interfaces/Game.py:52-54 | on freshly created pieces the start changes nothing |
| Game.Run | It1_interfaces/Game.py:56-66 | a won game is returned unchanged, whatever the frames hold; a run never fails on well-formed frames, and an error always comes from a malformed queued square; the result is valid |
| Game.RunFailsOnFirstGarbled | It1_interfaces/Game.py:56-66 | a game not yet won with a malformed square queued for its first pass fails |
| Game.RunShrinks | It1_interfaces/Game.py:56-66 | a run keeps the board and never adds a piece or a king |
| Game.RunDescends | It1_interfaces/Game.py:56-66 | every piece after a run is a later version of a piece at its start |
| Game.Play | It1_interfaces/Game.py:18-66 | a game fails to load iff some placement cannot be built; otherwise it fails only on a malformed square; every piece left is one the layout placed |

## Left out

- Rendering, sprites, the graphics factory, the keyboard thread, the input handler and the
  program entry: they do not decide any move. `Game.Play` stops where the loop would draw. Of a
  state's `graphics` section the model keeps only whether it is present.
- File and JSON I/O: the model receives already-read lines, directories and CSV rows. Of
  Python's string built-ins, only `strip`, `split`, `lower` on a first character, `int()` and
  `str()` on integers are modelled, in `Text` and `Board`.
- The clock: the times of the main loop come in as frames. The loop stops when the frames run
  out or the game is won. `_running` is never cleared by the core.
- Floating point: the distance and duration of a move come from the `Travel` oracle. The
  position during a motion is an integer interpolation, rounded down. `Game.py` line 88
  truncates with `int()`, which agrees with rounding down only for non-negative coordinates.
  Negative coordinates come only from a negative cell size, where the model's cell can differ
  from Python's by one.
- `clone_to`: no operation of the core calls it.
- `Board.WorldToCell`: the board must have nonzero cell sizes (`Board.Valid`). With a zero cell
  size Python raises `ZeroDivisionError`.
- `Board.AlgebraicToCell`: the rank is read with ASCII digits only. Python's `int()` also
  accepts other Unicode decimal digits, such as the Arabic-Indic three in `"a٣"`, which the
  model rejects as a bad row.
- `Board.ToLower`: only the first character of `lower()` is modelled, and only for the
  characters whose lower-case form starts with a letter a..z: the ASCII capitals, the Kelvin
  sign and the capital I with dot above. Every other character whose `lower()` differs keeps a
  first character outside a..z, so the file check and the king test come out the same.
- `Text.ParseInt`: only ASCII digits count as digits, as in `Board.AlgebraicToCell` above.
  Whitespace is the full `str.isspace()` set.
- `Moves.ParseRulesOk`: a rule line with non-ASCII Unicode digits, which Python's `int()`
  accepts, is reported as a bad line by the model.
- `Physics.Reset`: a reset whose parameters the variant cannot use is excluded by its
  precondition. In Python that case raises, or stores a tuple of characters. A move reset at
  speed 0 raises `ZeroDivisionError` at `Physics.py` line 86; the model takes the duration from
  `Travel` instead and does not model that error.
- `Physics.Update`: an update that would raise `AttributeError` is excluded by its precondition
  (`Physics.Updatable`). A jump, short rest or long rest that was never reset raises on every
  update, because its duration is set only by a reset. A never-reset move raises once its
  first millisecond has passed, because it has no total duration yet.
- `CommandHandler.HandleCommand`: only queued commands with two square names and a non-resting
  type are handled. A resting command typed at the keyboard would give Python a tuple of
  characters as a cell.
- `Piece.IsCommandPossible`: a move command's destination must be a square name. A cell tuple
  there raises `AttributeError` at `Board.py` line 40.
- `Moves.GetMoves`: a pawn given an occupancy must be able to read the colour character at
  index 1 of its own type and of the occupant's id at every capture cell that is on the board
  and occupied (`Moves.CanGenerate`). Otherwise Python raises `IndexError` at `Moves.py` line 73
  or 84. Only those cells are read; the forward walk and non-pawns index neither string.
- `CommandHandler.Check`: every piece must have an id of at least two characters and, if it is
  a pawn, a type of at least two characters (`CommandHandler.PieceReady`). This is more than
  the generator needs, because the game keeps it as an invariant of all its pieces instead of
  tracking which pawn meets an occupied capture cell. Ids are never shorter, because the
  factory names them `<type>_<n>`.
- `Game.Play`: a layout holding a one-character pawn code such as `"P"` is excluded
  (`Game.PawnCodesNamed`). Python loads and plays it, and raises `IndexError` only when that
  pawn's moves are generated with an occupied capture cell on the board. The model keeps the
  condition at load time so that the whole run keeps the pieces ready for the gate.
- `Game.Announce`: when exactly one king is left, its id must have at least two characters. A
  lone king with the one-character id `"k"` raises `IndexError` at `Game.py` line 119.
- `Game.KingsMembers`: the king test looks at the first character of the lower-cased id, as
  `Board.ToLower` models it.
- Concurrency of the input queue: each frame's queue is a sequence drained in order.
