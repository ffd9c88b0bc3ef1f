/**
 * Building pieces: the move table and the five-state machine of a piece type, wired with the
 * fixed transitions, and the per-type counter that names each piece `<type>_<n>`.
 */
module PieceFactory {
  import opened Wrappers
  import Board
  import Text
  import opened Commands
  import Physics
  import PhysicsFactory
  import Moves
  import State
  import Piece

  /** The content of one state directory: its name and its configuration sections. */
  datatype StateDir = StateDir(name: string, config: map<string, PhysicsFactory.Config>)

  /** The content of one piece directory: the lines of its rule file and its state directories. */
  datatype PieceDir = PieceDir(ruleLines: seq<string>, states: seq<StateDir>)

  datatype BuildError =
    | MissingPieceDir(pieceType: string)
    | BadRules(loadError: Moves.LoadError)
    | MissingPhysics(state: string)
    | BadState(factoryError: PhysicsFactory.FactoryError)
    | MissingGraphics(state: string)
    | MissingState(state: string)

  /** Per-type creation counts, and the next unique piece number. */
  datatype Factory = Factory(counter: map<string, nat>, nextCode: nat)

  const Empty := Factory(map[], 0)

  /** A state as built: no transitions yet, never reset, physics on the start cell. */
  predicate Fresh(name: string, s: State.PieceState, cell: Board.Cell, b: Board.Board) {
    && s.transitions == []
    && s.currentCommand.None?
    && PhysicsFactory.KindOf(name) == Some(s.physics.kind)
    && s.physics.cmd.None? && !s.physics.finished && s.physics.Sound()
    && s.physics.startCell == cell && s.physics.pos == Board.CellToWorld(b, cell)
  }

  /**
   * A state directory the loop accepts: it has a physics section, one of the five names, and
   * a graphics section (the sprites themselves are not modelled).
   */
  predicate DirOk(d: StateDir) {
    "physics" in d.config && PhysicsFactory.KindOf(d.name).Some? && "graphics" in d.config
  }

  /** The names of the state directories. */
  function DirNames(dirs: seq<StateDir>): set<string> {
    if |dirs| == 0 then {} else {dirs[0].name} + DirNames(dirs[1..])
  }

  /** The error the loop raises at a directory it does not accept. */
  function DirError(d: StateDir): BuildError {
    if "physics" !in d.config then MissingPhysics(d.name)
    else if PhysicsFactory.KindOf(d.name).None? then BadState(PhysicsFactory.UnknownState(d.name))
    else MissingGraphics(d.name)
  }

  /** The loop over the state directories, building one state per directory. */
  function LoadStates(dirs: seq<StateDir>, cell: Board.Cell, b: Board.Board, acc: map<string, State.PieceState>)
    : (r: Result<map<string, State.PieceState>, BuildError>)
    ensures r.Ok? <==> forall i :: 0 <= i < |dirs| ==> DirOk(dirs[i])
    decreases |dirs|
  {
    if |dirs| == 0 then Ok(acc)
    else
      var d := dirs[0];
      if "physics" !in d.config then Err(MissingPhysics(d.name))
      else match PhysicsFactory.Create(d.name, cell, d.config["physics"], b)
        case Err(e) => Err(BadState(e))
        case Ok(t) =>
          if "graphics" !in d.config then Err(MissingGraphics(d.name))
          else
            var r := LoadStates(dirs[1..], cell, b, acc[d.name := State.PieceState(t, [], None)]);
            assert r.Ok? <==> forall i :: 0 <= i < |dirs| ==> DirOk(dirs[i]) by {
              if !r.Ok? {
                var i :| 0 <= i < |dirs[1..]| && !DirOk(dirs[1..][i]);
                assert dirs[i + 1] == dirs[1..][i];
              }
            }
            r
  }

  /** A failing loop reports the first directory it does not accept. */
  lemma {:induction false} LoadStatesError(dirs: seq<StateDir>, cell: Board.Cell, b: Board.Board, acc: map<string, State.PieceState>)
    requires LoadStates(dirs, cell, b, acc).Err?
    ensures exists i :: && 0 <= i < |dirs| && !DirOk(dirs[i])
                        && (forall j :: 0 <= j < i ==> DirOk(dirs[j]))
                        && LoadStates(dirs, cell, b, acc).error == DirError(dirs[i])
    decreases |dirs|
  {
    var d := dirs[0];
    if DirOk(d) {
      var t := PhysicsFactory.Create(d.name, cell, d.config["physics"], b).value;
      var acc2 := acc[d.name := State.PieceState(t, [], None)];
      LoadStatesError(dirs[1..], cell, b, acc2);
      var i :| && 0 <= i < |dirs[1..]| && !DirOk(dirs[1..][i])
               && (forall j :: 0 <= j < i ==> DirOk(dirs[1..][j]))
               && LoadStates(dirs[1..], cell, b, acc2).error == DirError(dirs[1..][i]);
      assert dirs[i + 1] == dirs[1..][i];
      assert forall j :: 0 < j < i + 1 ==> dirs[j] == dirs[1..][j - 1];
    }
  }

  /** A successful loop adds one state per directory name to `acc`. */
  lemma {:induction false} LoadStatesKeys(dirs: seq<StateDir>, cell: Board.Cell, b: Board.Board, acc: map<string, State.PieceState>)
    requires LoadStates(dirs, cell, b, acc).Ok?
    ensures LoadStates(dirs, cell, b, acc).value.Keys == acc.Keys + DirNames(dirs)
    decreases |dirs|
  {
    if |dirs| > 0 {
      var d := dirs[0];
      var t := PhysicsFactory.Create(d.name, cell, d.config["physics"], b).value;
      var acc2 := acc[d.name := State.PieceState(t, [], None)];
      LoadStatesKeys(dirs[1..], cell, b, acc2);
    }
  }

  /** Every state a successful loop builds is fresh, given that those in `acc` are. */
  lemma {:induction false} LoadStatesOk(dirs: seq<StateDir>, cell: Board.Cell, b: Board.Board, acc: map<string, State.PieceState>)
    requires LoadStates(dirs, cell, b, acc).Ok?
    requires forall n :: n in acc ==> Fresh(n, acc[n], cell, b)
    ensures forall n :: n in LoadStates(dirs, cell, b, acc).value ==> Fresh(n, LoadStates(dirs, cell, b, acc).value[n], cell, b)
    decreases |dirs|
  {
    if |dirs| > 0 {
      var d := dirs[0];
      var t := PhysicsFactory.Create(d.name, cell, d.config["physics"], b).value;
      var acc2 := acc[d.name := State.PieceState(t, [], None)];
      assert Fresh(d.name, acc2[d.name], cell, b);
      LoadStatesOk(dirs[1..], cell, b, acc2);
    }
  }

  function AddEdge(s: State.PieceState, event: string): State.PieceState {
    s.(transitions := State.SetTransition(s.transitions, event, event))
  }

  /** What the wiring makes of the state called `n`: its own added edges, or nothing new. */
  function WireOne(states: map<string, State.PieceState>, n: string): State.PieceState
    requires n in states
  {
    if n == IdleName then AddEdge(AddEdge(states[n], MoveName), JumpName)
    else if n == MoveName then AddEdge(states[n], LongRestName)
    else if n == JumpName then AddEdge(states[n], ShortRestName)
    else if n == LongRestName || n == ShortRestName then AddEdge(states[n], IdleName)
    else states[n]
  }

  /**
   * The six `set_transition` calls of the factory. Each call changes only the state it is made
   * on, so the wiring is a per-state rewrite: idle gets its two edges in the order they are added.
   */
  function Wire(states: map<string, State.PieceState>): (r: map<string, State.PieceState>)
    requires State.Names <= states.Keys
    ensures r.Keys == states.Keys
  {
    map n | n in states :: WireOne(states, n)
  }

  /** The five state names are pairwise different. */
  lemma NamesDistinct()
    ensures IdleName != MoveName && IdleName != JumpName && IdleName != LongRestName && IdleName != ShortRestName
    ensures MoveName != JumpName && MoveName != LongRestName && MoveName != ShortRestName
    ensures JumpName != LongRestName && JumpName != ShortRestName && LongRestName != ShortRestName
  {
    assert IdleName[0] == 'i' && MoveName[0] == 'm' && JumpName[0] == 'j';
    assert LongRestName[0] == 'l' && ShortRestName[0] == 's';
  }

  /** Adding edges to a state with none lists them in the order they were added. */
  lemma AddEdges(s: State.PieceState, e1: string, e2: string)
    requires s.transitions == [] && e1 != e2
    ensures AddEdge(s, e1).transitions == [(e1, e1)]
    ensures AddEdge(AddEdge(s, e1), e2).transitions == [(e1, e1), (e2, e2)]
  {
    assert State.Keys([]) == [];
    assert State.Keys([(e1, e1)]) == [e1];
  }

  /** Wiring: idle gets its move edge, then its jump edge. */
  lemma WireIdle(states: map<string, State.PieceState>)
    requires State.Names <= states.Keys && states[IdleName].transitions == []
    ensures Wire(states)[IdleName] == states[IdleName].(transitions := State.Edges(IdleName))
  {
    NamesDistinct();
    AddEdges(states[IdleName], MoveName, JumpName);
  }

  /** Wiring: move gets its long-rest edge. */
  lemma WireMove(states: map<string, State.PieceState>)
    requires State.Names <= states.Keys && states[MoveName].transitions == []
    ensures Wire(states)[MoveName] == states[MoveName].(transitions := State.Edges(MoveName))
  {
    NamesDistinct();
    AddEdges(states[MoveName], LongRestName, IdleName);
  }

  /** Wiring: jump gets its short-rest edge. */
  lemma WireJump(states: map<string, State.PieceState>)
    requires State.Names <= states.Keys && states[JumpName].transitions == []
    ensures Wire(states)[JumpName] == states[JumpName].(transitions := State.Edges(JumpName))
  {
    NamesDistinct();
    AddEdges(states[JumpName], ShortRestName, IdleName);
  }

  /** Wiring: long rest gets its idle edge. */
  lemma WireLongRest(states: map<string, State.PieceState>)
    requires State.Names <= states.Keys && states[LongRestName].transitions == []
    ensures Wire(states)[LongRestName] == states[LongRestName].(transitions := State.Edges(LongRestName))
  {
    NamesDistinct();
    AddEdges(states[LongRestName], IdleName, MoveName);
  }

  /** Wiring: short rest gets its idle edge. */
  lemma WireShortRest(states: map<string, State.PieceState>)
    requires State.Names <= states.Keys && states[ShortRestName].transitions == []
    ensures Wire(states)[ShortRestName] == states[ShortRestName].(transitions := State.Edges(ShortRestName))
  {
    NamesDistinct();
    AddEdges(states[ShortRestName], IdleName, MoveName);
  }

  /** Wiring gives each of the five states exactly its standard edges and changes nothing else in it. */
  lemma WireNamed(states: map<string, State.PieceState>, n: string)
    requires State.Names <= states.Keys && n in State.Names && states[n].transitions == []
    ensures Wire(states)[n] == states[n].(transitions := State.Edges(n))
  {
    if n == IdleName {
      WireIdle(states);
    } else if n == MoveName {
      WireMove(states);
    } else if n == JumpName {
      WireJump(states);
    } else if n == LongRestName {
      WireLongRest(states);
    } else {
      WireShortRest(states);
    }
  }

  /** The first state name the wiring reads that was not built, in the order it reads them. */
  function FirstMissing(keys: set<string>): Option<string> {
    if IdleName !in keys then Some(IdleName)
    else if MoveName !in keys then Some(MoveName)
    else if JumpName !in keys then Some(JumpName)
    else if LongRestName !in keys then Some(LongRestName)
    else if ShortRestName !in keys then Some(ShortRestName)
    else None
  }

  /** The wiring finds nothing missing exactly when all five names were built. */
  lemma FirstMissingNone(keys: set<string>)
    ensures FirstMissing(keys).None? <==> State.Names <= keys
    ensures FirstMissing(keys).Some? ==> FirstMissing(keys).value in State.Names - keys
  {
  }

  /**
   * `_build_state_machine(piece_dir, cell)`: the move table, then the states, then the wiring;
   * the machine starts in idle.
   */
  function BuildStateMachine(dir: PieceDir, pieceType: string, cell: Board.Cell, b: Board.Board)
    : (r: Result<(Moves.MoveTable, State.Machine), BuildError>)
    ensures Moves.ParseRules(dir.ruleLines).Err? ==> r == Err(BadRules(Moves.ParseRules(dir.ruleLines).error))
    ensures r.Ok? <==> && Moves.ParseRules(dir.ruleLines).Ok?
                       && (forall i :: 0 <= i < |dir.states| ==> DirOk(dir.states[i]))
                       && State.Names <= DirNames(dir.states)
    ensures r.Ok? ==> r.value.0 == Moves.MoveTable(Moves.ParseRules(dir.ruleLines).value, pieceType, b.hCells, b.wCells)
    ensures r.Ok? ==> r.value.1.current == IdleName
  {
    match Moves.ParseRules(dir.ruleLines)
    case Err(e) => Err(BadRules(e))
    case Ok(rules) =>
      var moves := Moves.MoveTable(rules, Moves.PieceTypeFromPath([pieceType, "moves.txt"]), b.hCells, b.wCells);
      match LoadStates(dir.states, cell, b, map[])
      case Err(e) => Err(e)
      case Ok(states) =>
        LoadStatesKeys(dir.states, cell, b, map[]);
        FirstMissingNone(states.Keys);
        match FirstMissing(states.Keys)
        case Some(n) => Err(MissingState(n))
        case None => Ok((moves, State.Machine(Wire(states), IdleName)))
  }

  /** The states a successful build starts from: fresh, and exactly the five names. */
  lemma BuiltStates(dir: PieceDir, pieceType: string, cell: Board.Cell, b: Board.Board)
    requires BuildStateMachine(dir, pieceType, cell, b).Ok?
    ensures LoadStates(dir.states, cell, b, map[]).Ok?
    ensures var states := LoadStates(dir.states, cell, b, map[]).value;
            && states.Keys == State.Names
            && (forall n :: n in states ==> Fresh(n, states[n], cell, b))
            && BuildStateMachine(dir, pieceType, cell, b).value.1 == State.Machine(Wire(states), IdleName)
  {
    LoadStatesOk(dir.states, cell, b, map[]);
    LoadStatesKeys(dir.states, cell, b, map[]);
    var states := LoadStates(dir.states, cell, b, map[]).value;
    forall n | n in states ensures n in State.Names {
      assert Fresh(n, states[n], cell, b);
    }
  }

  /** A machine the factory builds is wired, live, in idle, and no state of it has been reset. */
  lemma BuiltMachineIsWired(dir: PieceDir, pieceType: string, cell: Board.Cell, b: Board.Board)
    requires BuildStateMachine(dir, pieceType, cell, b).Ok?
    ensures var m := BuildStateMachine(dir, pieceType, cell, b).value.1;
            && State.Wired(m) && State.Live(m)
            && State.GetCommand(m).None?
            && forall n :: n in m.states ==> && m.states[n].physics.startCell == cell
                                              && m.states[n].physics.pos == Board.CellToWorld(b, cell)
                                              && m.states[n].physics.cmd.None?
  {
    BuiltStates(dir, pieceType, cell, b);
    WiredFresh(LoadStates(dir.states, cell, b, map[]).value, cell, b);
  }

  /** Wiring the five fresh states gives a wired, live machine in idle on the start cell. */
  lemma WiredFresh(states: map<string, State.PieceState>, cell: Board.Cell, b: Board.Board)
    requires states.Keys == State.Names
    requires forall n :: n in states ==> Fresh(n, states[n], cell, b)
    ensures var m := State.Machine(Wire(states), IdleName);
            && State.Wired(m) && State.Live(m)
            && State.GetCommand(m).None?
            && forall n :: n in m.states ==> && m.states[n].physics.startCell == cell
                                              && m.states[n].physics.pos == Board.CellToWorld(b, cell)
                                              && m.states[n].physics.cmd.None?
  {
    var m := State.Machine(Wire(states), IdleName);
    forall n | n in m.states
      ensures m.states[n] == states[n].(transitions := State.Edges(n))
    {
      assert Fresh(n, states[n], cell, b);
      WireNamed(states, n);
    }
  }

  /** A piece id: the type, an underscore and the per-type count. */
  function MakeId(pieceType: string, n: nat): string {
    pieceType + "_" + Text.NatToString(n)
  }

  /** The count is all digits, so the last underscore of an id separates type and count. */
  lemma MakeIdInjective(t1: string, n1: nat, t2: string, n2: nat)
    requires MakeId(t1, n1) == MakeId(t2, n2)
    ensures t1 == t2 && n1 == n2
  {
    var id := MakeId(t1, n1);
    var s1 := Text.NatToString(n1);
    var s2 := Text.NatToString(n2);
    var l := |id|;
    assert id[l - |s1| - 1] == '_' && id[l - |s2| - 1] == '_';
    assert s1 == id[l - |s1|..] == s2;
    Text.NatToStringInjective(n1, n2);
    assert t1 == id[..|t1|] == t2;
  }

  /** How many pieces of a type the factory has created. */
  function Count(f: Factory, pieceType: string): nat {
    if pieceType in f.counter then f.counter[pieceType] else 0
  }

  /** The second half of `create_piece`: count the type, name the piece, and hand out its number. */
  function Register(f: Factory, pieceType: string, moves: Moves.MoveTable, machine: State.Machine): (Factory, Piece.Piece) {
    var n := Count(f, pieceType) + 1;
    var (p, next) := Piece.NewPiece(MakeId(pieceType, n), moves, machine, f.nextCode);
    (Factory(f.counter[pieceType := n], next), p)
  }

  /** `create_piece(p_type, cell)`: build a fresh machine, count the type, and name the piece. */
  function CreatePiece(f: Factory, root: map<string, PieceDir>, pieceType: string, cell: Board.Cell, b: Board.Board)
    : Result<(Factory, Piece.Piece), BuildError>
  {
    if pieceType !in root then Err(MissingPieceDir(pieceType))
    else match BuildStateMachine(root[pieceType], pieceType, cell, b)
      case Err(e) => Err(e)
      case Ok((moves, machine)) => Ok(Register(f, pieceType, moves, machine))
  }

  /** A successful `create_piece` found the piece's directory and built its machine. */
  lemma CreatedBuilt(f: Factory, root: map<string, PieceDir>, pieceType: string, cell: Board.Cell, b: Board.Board)
    requires CreatePiece(f, root, pieceType, cell, b).Ok?
    ensures pieceType in root && BuildStateMachine(root[pieceType], pieceType, cell, b).Ok?
  {
  }

  /** Once the machine is built, `create_piece` registers it. */
  lemma CreatedRegisters(f: Factory, root: map<string, PieceDir>, pieceType: string, cell: Board.Cell, b: Board.Board)
    requires pieceType in root && BuildStateMachine(root[pieceType], pieceType, cell, b).Ok?
    ensures CreatePiece(f, root, pieceType, cell, b)
            == Ok(Register(f, pieceType, BuildStateMachine(root[pieceType], pieceType, cell, b).value.0,
                           BuildStateMachine(root[pieceType], pieceType, cell, b).value.1))
  {
  }

  /** Registering counts the type, advances the unique number and names a fresh piece. */
  lemma Registered(f: Factory, pieceType: string, moves: Moves.MoveTable, machine: State.Machine)
    ensures Register(f, pieceType, moves, machine).0.counter == f.counter[pieceType := Count(f, pieceType) + 1]
    ensures Register(f, pieceType, moves, machine).0.nextCode == f.nextCode + 1
    ensures Register(f, pieceType, moves, machine).1
            == Piece.Piece(MakeId(pieceType, Count(f, pieceType) + 1), f.nextCode, moves, machine, None, false)
  {
  }

  /**
   * Two successive creations count each type separately and hand out different unique
   * numbers and different ids, whether or not the types are the same.
   */
  lemma CreatedApart(f: Factory, root: map<string, PieceDir>, t1: string, c1: Board.Cell,
                     t2: string, c2: Board.Cell, b: Board.Board)
    requires CreatePiece(f, root, t1, c1, b).Ok?
    requires CreatePiece(CreatePiece(f, root, t1, c1, b).value.0, root, t2, c2, b).Ok?
    ensures var (f1, p1) := CreatePiece(f, root, t1, c1, b).value;
            var (f2, p2) := CreatePiece(f1, root, t2, c2, b).value;
            && (forall t :: Count(f1, t) == Count(f, t) + (if t == t1 then 1 else 0))
            && p1.unique != p2.unique && p1.id != p2.id
  {
    var r1 := CreatePiece(f, root, t1, c1, b);
    CreatedBuilt(f, root, t1, c1, b);
    CreatedRegisters(f, root, t1, c1, b);
    var built1 := BuildStateMachine(root[t1], t1, c1, b).value;
    Registered(f, t1, built1.0, built1.1);
    var (f1, p1) := r1.value;
    var r2 := CreatePiece(f1, root, t2, c2, b);
    CreatedBuilt(f1, root, t2, c2, b);
    CreatedRegisters(f1, root, t2, c2, b);
    var built2 := BuildStateMachine(root[t2], t2, c2, b).value;
    Registered(f1, t2, built2.0, built2.1);
    var (f2, p2) := r2.value;
    assert p1.unique == f.nextCode && p2.unique == f1.nextCode == f.nextCode + 1;
    CountAfter(f, t1, t2);
    if p1.id == p2.id {
      MakeIdInjective(t1, Count(f, t1) + 1, t2, Count(f1, t2) + 1);
      assert false;
    }
  }

  lemma CountAfter(f: Factory, t1: string, t2: string)
    ensures Count(Factory(f.counter[t1 := Count(f, t1) + 1], f.nextCode + 1), t2)
            == Count(f, t2) + (if t2 == t1 then 1 else 0)
  {
  }

  /**
   * The state loop hands the physics factory the `physics` section, in which the factory looks
   * for a `physics` entry again: a section without one gives the default speed, whatever
   * `speed_m_per_sec` it holds.
   */
  lemma SectionSpeedIgnored(d: StateDir, cell: Board.Cell, b: Board.Board, acc: map<string, State.PieceState>)
    requires DirOk(d) && "physics" !in d.config["physics"]
    ensures LoadStates([d], cell, b, acc).Ok? && d.name in LoadStates([d], cell, b, acc).value
    ensures LoadStates([d], cell, b, acc).value[d.name].physics.speed == PhysicsFactory.DefaultSpeed * 100.0
  {
    assert [d][1..] == [];
  }
}
