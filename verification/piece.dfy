/**
 * A piece: its id, its unique creation number, its move table, its state machine, the last
 * command it was given and whether it has ever been told to move.
 */
module Piece {
  import opened Wrappers
  import Board
  import opened Commands
  import Physics
  import Moves
  import State

  datatype Piece = Piece(
    id: string,
    unique: nat,
    moves: Moves.MoveTable,
    machine: State.Machine,
    currentCmd: Option<Command>,
    hasMoved: bool)

  /**
   * The constructor. The source keeps the unique-number counter as a class attribute; the model
   * passes it in and returns its next value.
   */
  function NewPiece(id: string, moves: Moves.MoveTable, machine: State.Machine, nextCode: nat): (Piece, nat)
  {
    (Piece(id, nextCode, moves, machine, None, false), nextCode + 1)
  }

  /** `on_command(cmd)`: record the command, route it through the state machine, note a move. */
  function OnCommand(p: Piece, cmd: Command, b: Board.Board, travel: Physics.Travel): Piece
    requires State.Linked(p.machine) && State.FitsTarget(p.machine, cmd)
  {
    p.(currentCmd := Some(cmd),
       machine := State.ProcessCommand(p.machine, cmd, b, travel),
       hasMoved := p.hasMoved || cmd.kind == MoveName)
  }

  /**
   * On a wired machine a command whose type is one of the current state's events enters the
   * state of that name, which then holds the command; any other command leaves the machine
   * as it is. Either way the machine stays wired and live.
   */
  lemma OnCommandEnters(p: Piece, cmd: Command, b: Board.Board, travel: Physics.Travel)
    requires State.Wired(p.machine) && State.Live(p.machine)
    requires State.Linked(p.machine) && State.FitsTarget(p.machine, cmd)
    ensures var r := OnCommand(p, cmd, b, travel);
            && (cmd.kind in State.Keys(State.Edges(p.machine.current)) ==>
                  r.machine.current == cmd.kind && State.GetCommand(r.machine) == Some(cmd))
            && (cmd.kind !in State.Keys(State.Edges(p.machine.current)) ==> r.machine == p.machine)
            && State.Wired(r.machine) && State.Live(r.machine)
  {
    State.WiredTarget(p.machine, cmd.kind);
    State.ProcessCommandPreserves(p.machine, cmd, b, travel);
  }

  /** A move command sets `has_moved` even when the current state has no move transition. */
  lemma IgnoredMoveStillCounts(p: Piece, cmd: Command, b: Board.Board, travel: Physics.Travel)
    requires State.Wired(p.machine) && p.machine.current != IdleName && cmd.kind == MoveName
    ensures State.Linked(p.machine) && State.FitsTarget(p.machine, cmd)
    ensures OnCommand(p, cmd, b, travel).machine == p.machine
    ensures OnCommand(p, cmd, b, travel).hasMoved
  {
    State.WiredTarget(p.machine, cmd.kind);
  }

  /** The follow-up command of a finished physics: the first transition key, on the piece's cell. */
  function ChainCommand(p: Piece, s: State.PieceState, now: int, b: Board.Board): Command
    requires b.Valid() && |s.transitions| > 0
  {
    var cell := Board.WorldToCell(b, s.physics.pos);
    Command(now, ById(p.id), s.transitions[0].0, Coords(cell), Coords(cell))
  }

  /**
   * `update(now)`: update the state machine; when the physics of the resulting state has
   * finished, chain into its first transition.
   */
  function Update(p: Piece, now: int, b: Board.Board, travel: Physics.Travel): (r: Piece)
    requires State.Wired(p.machine) && State.Live(p.machine) && b.Valid()
    ensures r.id == p.id && r.unique == p.unique && r.moves == p.moves
    ensures p.hasMoved ==> r.hasMoved
  {
    State.UpdatePreserves(p.machine, now, b, travel);
    var m := State.Update(p.machine, now, b, travel);
    var s := State.Cur(m);
    if s.physics.finished then
      State.WiredHasEdges(m);
      var cmd := ChainCommand(p, s, now, b);
      State.FinishedChainsToLongRest(m, cmd, b, travel);
      OnCommand(p.(machine := m), cmd, b, travel)
    else p.(machine := m)
  }

  /** An update keeps the machine wired and live. */
  lemma UpdatePreserves(p: Piece, now: int, b: Board.Board, travel: Physics.Travel)
    requires State.Wired(p.machine) && State.Live(p.machine) && b.Valid()
    ensures State.Wired(Update(p, now, b, travel).machine) && State.Live(Update(p, now, b, travel).machine)
  {
    State.UpdatePreserves(p.machine, now, b, travel);
    var m := State.Update(p.machine, now, b, travel);
    if State.Cur(m).physics.finished {
      State.WiredHasEdges(m);
      var cmd := ChainCommand(p, State.Cur(m), now, b);
      State.FinishedChainsToLongRest(m, cmd, b, travel);
      assert Update(p, now, b, travel) == OnCommand(p.(machine := m), cmd, b, travel);
    } else {
      assert Update(p, now, b, travel) == p.(machine := m);
    }
  }

  /**
   * The machine after an update is the state machine's update, unless that leaves a finished
   * move, which then chains into the long rest with the command `ChainCommand` builds.
   */
  lemma UpdateChains(p: Piece, now: int, b: Board.Board, travel: Physics.Travel)
    requires State.Wired(p.machine) && State.Live(p.machine) && b.Valid()
    ensures State.Linked(p.machine) && Physics.Updatable(State.Cur(p.machine).physics, now)
    ensures var m := State.Update(p.machine, now, b, travel);
            var r := Update(p, now, b, travel);
            && (!State.Cur(m).physics.finished ==> r == p.(machine := m))
            && (State.Cur(m).physics.finished ==>
                  && m.current == MoveName
                  && r.machine.current == LongRestName
                  && r.currentCmd == Some(ChainCommand(p, State.Cur(m), now, b))
                  && r.hasMoved == p.hasMoved)
  {
    State.UpdatePreserves(p.machine, now, b, travel);
    var m := State.Update(p.machine, now, b, travel);
    if State.Cur(m).physics.finished {
      State.WiredHasEdges(m);
      var cmd := ChainCommand(p, State.Cur(m), now, b);
      State.FinishedChainsToLongRest(m, cmd, b, travel);
      assert Update(p, now, b, travel) == OnCommand(p.(machine := m), cmd, b, travel);
    }
  }

  /**
   * A jumping piece never leaves the jump state: the jump's completion command has no
   * transition out of it, and a jump never reports `finished`.
   */
  lemma JumpIsFinal(p: Piece, now: int, b: Board.Board, travel: Physics.Travel)
    requires State.Wired(p.machine) && State.Live(p.machine) && b.Valid()
    requires p.machine.current == JumpName
    ensures Update(p, now, b, travel).machine.current == JumpName
    ensures Update(p, now, b, travel).currentCmd == p.currentCmd
  {
    State.WiredUpdateFits(p.machine, now);
    var out := Physics.Update(State.Cur(p.machine).physics, now).1;
    if out.Some? {
      State.WiredTarget(p.machine, out.value.kind);
    }
  }

  /** `get_command()`. */
  function GetCommand(p: Piece): Option<Command>
    requires p.machine.current in p.machine.states
  {
    State.GetCommand(p.machine)
  }

  /**
   * `is_command_possible(cmd)`: a move must reach a destination the move table allows from the
   * physics' start cell (ignoring occupancy), and the command type must have a transition.
   */
  function IsCommandPossible(p: Piece, cmd: Command): (r: Result<bool, Board.NotationError>)
    requires p.machine.current in p.machine.states
    requires cmd.kind == MoveName ==> cmd.dst.Square?
    ensures r.Err? <==> cmd.kind == MoveName && Board.AlgebraicToCell(cmd.dst.name).Err?
    ensures r.Ok? ==>
              (r.value <==>
                 && cmd.kind in State.Keys(State.Cur(p.machine).transitions)
                 && (cmd.kind == MoveName ==>
                       var src := State.Cur(p.machine).physics.startCell;
                       Board.AlgebraicToCell(cmd.dst.name).value
                         in Moves.GetMoves(p.moves, src.row, src.col, p.hasMoved, None)))
  {
    var registered := cmd.kind in State.Keys(State.Cur(p.machine).transitions);
    if cmd.kind == MoveName then
      var src := State.Cur(p.machine).physics.startCell;
      match Board.AlgebraicToCell(cmd.dst.name)
      case Err(e) => Err(e)
      case Ok(dst) =>
        if dst !in Moves.GetMoves(p.moves, src.row, src.col, p.hasMoved, None) then Ok(false)
        else Ok(registered)
    else Ok(registered)
  }

  /**
   * What `is_command_possible` promises the caller that then runs `on_command`: a possible
   * command is never ignored, so the piece enters the command's state with the command. For
   * a command other than a move, possible means exactly that the current state has its event.
   */
  lemma PossibleCommandEnters(p: Piece, cmd: Command, b: Board.Board, travel: Physics.Travel)
    requires State.Wired(p.machine) && State.Live(p.machine)
    requires cmd.kind == MoveName ==> cmd.dst.Square?
    requires State.Linked(p.machine) && State.FitsTarget(p.machine, cmd)
    ensures IsCommandPossible(p, cmd) == Ok(true) ==>
              && State.Target(p.machine, cmd.kind) == Some(cmd.kind)
              && OnCommand(p, cmd, b, travel).machine.current == cmd.kind
              && State.GetCommand(OnCommand(p, cmd, b, travel).machine) == Some(cmd)
    ensures cmd.kind != MoveName ==>
              (IsCommandPossible(p, cmd) == Ok(true) <==> State.Target(p.machine, cmd.kind).Some?)
  {
    assert State.Cur(p.machine).transitions == State.Edges(p.machine.current);
    State.WiredTarget(p.machine, cmd.kind);
    OnCommandEnters(p, cmd, b, travel);
  }

  /** `reset(start_ms)`: re-reset the current state with the last command, if there is one. */
  function Reset(p: Piece, b: Board.Board, travel: Physics.Travel): (r: Piece)
    requires p.machine.current in p.machine.states
    requires p.currentCmd.Some? ==> Physics.Fits(State.Cur(p.machine).physics.kind, p.currentCmd.value)
    ensures p.currentCmd.None? ==> r == p
    ensures r.machine.current == p.machine.current && r.machine.states.Keys == p.machine.states.Keys
    ensures forall n :: n in p.machine.states && n != p.machine.current ==> r.machine.states[n] == p.machine.states[n]
    ensures p.currentCmd.Some? ==> GetCommand(r) == p.currentCmd
  {
    match p.currentCmd
    case None => p
    case Some(cmd) =>
      var m := p.machine;
      p.(machine := m.(states := m.states[m.current := State.ResetState(State.Cur(m), cmd, b, travel)]))
  }
}
