/**
 * The legality gate for queued commands: an occupied source, a destination among the mover's
 * legal moves, no friendly piece on the destination, and a clear straight path.
 */
module CommandHandler {
  import opened Wrappers
  import Board
  import opened Commands
  import Physics
  import Moves
  import State
  import Piece

  /** Which check a command stopped at, or `Accepted`. */
  datatype Verdict = SourceEmpty | NotLegal | FriendlyTarget | PathBlocked | Accepted

  /** Position of the piece with unique number `u`. */
  function Find(pieces: seq<Piece.Piece>, u: nat): (r: Option<nat>)
    ensures r.Some? ==> r.value < |pieces| && pieces[r.value].unique == u
    ensures r.None? ==> forall i :: 0 <= i < |pieces| ==> pieces[i].unique != u
  {
    if |pieces| == 0 then None
    else if pieces[0].unique == u then Some(0)
    else match Find(pieces[1..], u)
      case None => None
      case Some(i) => Some(i + 1)
  }

  /** Every occupied cell names a piece of the list by its unique number. */
  predicate Indexed(pieces: seq<Piece.Piece>, pos: map<Board.Cell, nat>) {
    forall c :: c in pos ==> Find(pieces, pos[c]).Some?
  }

  /** Every piece of the list is ready. */
  predicate AllReady(pieces: seq<Piece.Piece>) {
    forall i :: 0 <= i < |pieces| ==> PieceReady(pieces[i])
  }

  /** The piece on an occupied cell. */
  function At(pieces: seq<Piece.Piece>, pos: map<Board.Cell, nat>, c: Board.Cell): (p: Piece.Piece)
    requires Indexed(pieces, pos) && c in pos
    ensures p.unique == pos[c] && p in pieces
    ensures AllReady(pieces) ==> PieceReady(p)
  {
    pieces[Find(pieces, pos[c]).value]
  }

  /** The occupancy the move generator sees: each occupied cell with its piece's id. */
  function Occupancy(pieces: seq<Piece.Piece>, pos: map<Board.Cell, nat>): (occ: Moves.Occupancy)
    requires Indexed(pieces, pos)
    ensures occ.Keys == pos.Keys
    ensures forall c :: c in occ ==> occ[c] == At(pieces, pos, c).id
    ensures AllReady(pieces) ==> Moves.IdsOk(occ)
  {
    map c | c in pos :: At(pieces, pos, c).id
  }

  /** What the gate needs of the pieces: wired machines, ids with a colour, pawn types with a colour. */
  predicate PieceReady(p: Piece.Piece) {
    && State.Wired(p.machine)
    && |p.id| >= 2
    && (Moves.IsPawn(p.moves.pieceType) ==> |p.moves.pieceType| >= 2)
  }

  /** A queued command: two square names, and a type that leads out of idle if anywhere. */
  predicate Queued(cmd: Command) {
    cmd.src.Square? && cmd.dst.Square? && !IsResting(cmd.kind)
  }

  /** A queued command whose squares parse can be routed by any wired machine. */
  lemma QueuedCommandFits(m: State.Machine, cmd: Command)
    requires State.Wired(m) && Queued(cmd)
    requires Board.AlgebraicToCell(cmd.src.name).Ok? && Board.AlgebraicToCell(cmd.dst.name).Ok?
    ensures State.Linked(m) && State.FitsTarget(m, cmd)
  {
    State.WiredTarget(m, cmd.kind);
  }

  // ---------------------------------------------------------------------------------------
  // Path check

  /** `d // abs(d)` for nonzero `d`, and 0 for zero. */
  function Sign(d: int): (s: int)
    ensures s == 0 <==> d == 0
    ensures s * d >= 0 && (s == 1 || s == -1 || s == 0)
  {
    if d > 0 then 1 else if d < 0 then -1 else 0
  }

  function Abs(d: int): nat {
    if d < 0 then -d else d
  }

  /** A nonzero horizontal, vertical or exactly diagonal displacement: the only kind walked. */
  predicate IsLine(src: Board.Cell, dst: Board.Cell) {
    var dx := dst.col - src.col;
    var dy := dst.row - src.row;
    (dx != 0 || dy != 0) && (Abs(dx) == Abs(dy) || dx == 0 || dy == 0)
  }

  /** Number of steps from `src` to `dst` along a line. */
  function Steps(src: Board.Cell, dst: Board.Cell): nat {
    var dx := Abs(dst.col - src.col);
    var dy := Abs(dst.row - src.row);
    if dx < dy then dy else dx
  }

  /** The cell `k` steps from `src` towards `dst`. */
  function StepCell(src: Board.Cell, dst: Board.Cell, k: int): Board.Cell {
    Board.Cell(src.row + k * Sign(dst.row - src.row), src.col + k * Sign(dst.col - src.col))
  }

  /** Along a line, the walk reaches `dst` after exactly `Steps` steps and not before. */
  lemma StepCellReaches(src: Board.Cell, dst: Board.Cell, k: int)
    requires IsLine(src, dst) && 0 <= k
    ensures StepCell(src, dst, k) == dst <==> k == Steps(src, dst)
    ensures Steps(src, dst) >= 1
  {
  }

  /** One more step moves by the sign of each displacement. */
  lemma StepNext(src: Board.Cell, dst: Board.Cell, k: int)
    ensures StepCell(src, dst, k + 1)
            == Board.Cell(StepCell(src, dst, k).row + Sign(dst.row - src.row), StepCell(src, dst, k).col + Sign(dst.col - src.col))
  {
    var sy := Sign(dst.row - src.row);
    var sx := Sign(dst.col - src.col);
    assert (k + 1) * sy == k * sy + sy;
    assert (k + 1) * sx == k * sx + sx;
  }

  /** A strictly intermediate cell of a line is occupied. */
  predicate Obstructed(pos: map<Board.Cell, nat>, src: Board.Cell, dst: Board.Cell) {
    IsLine(src, dst) && exists k :: 1 <= k < Steps(src, dst) && StepCell(src, dst, k) in pos
  }

  /** `_is_path_clear(src, dst)`: walk from the cell after `src` up to, but excluding, `dst`. */
  method IsPathClear(pos: map<Board.Cell, nat>, src: Board.Cell, dst: Board.Cell) returns (clear: bool)
    ensures clear <==> !Obstructed(pos, src, dst)
  {
    var dx := dst.col - src.col;
    var dy := dst.row - src.row;
    var stepX := Sign(dx);
    var stepY := Sign(dy);
    if (stepX != 0 || stepY != 0) && (Abs(dx) == Abs(dy) || dx == 0 || dy == 0) {
      var cur := Board.Cell(src.row + stepY, src.col + stepX);
      ghost var k := 1;
      StepCellReaches(src, dst, k);
      while cur != dst
        invariant 1 <= k <= Steps(src, dst)
        invariant cur == StepCell(src, dst, k)
        invariant forall j :: 1 <= j < k ==> StepCell(src, dst, j) !in pos
        decreases Steps(src, dst) - k
      {
        StepCellReaches(src, dst, k);
        if cur in pos {
          assert 1 <= k < Steps(src, dst) && StepCell(src, dst, k) in pos;
          return false;
        }
        StepNext(src, dst, k);
        cur := Board.Cell(cur.row + stepY, cur.col + stepX);
        k := k + 1;
      }
      StepCellReaches(src, dst, k);
    }
    return true;
  }

  /** The path check never looks at the end points themselves. */
  lemma ObstructionIgnoresEnds(pos: map<Board.Cell, nat>, src: Board.Cell, dst: Board.Cell, u: nat, v: nat)
    ensures Obstructed(pos, src, dst) <==> Obstructed(pos[src := u][dst := v], src, dst)
    ensures Obstructed(pos, src, dst) <==> Obstructed(pos - {src, dst}, src, dst)
  {
    if IsLine(src, dst) {
      forall k | 1 <= k < Steps(src, dst)
        ensures StepCell(src, dst, k) != src && StepCell(src, dst, k) != dst
      {
        StepCellReaches(src, dst, k);
      }
    }
  }

  // ---------------------------------------------------------------------------------------
  // The gate

  /** The mover's legal destinations, with the current occupancy. */
  function LegalMoves(pieces: seq<Piece.Piece>, pos: map<Board.Cell, nat>, src: Board.Cell): seq<Board.Cell>
    requires Indexed(pieces, pos) && src in pos
    requires AllReady(pieces)
  {
    var p := At(pieces, pos, src);
    Moves.GetMoves(p.moves, src.row, src.col, p.hasMoved, Some(Occupancy(pieces, pos)))
  }

  /** The destination holds a piece whose colour character is the mover's. */
  predicate Friendly(pieces: seq<Piece.Piece>, pos: map<Board.Cell, nat>, src: Board.Cell, dst: Board.Cell)
    requires Indexed(pieces, pos) && src in pos
    requires AllReady(pieces)
  {
    dst in pos && At(pieces, pos, dst).id[1] == At(pieces, pos, src).id[1]
  }

  /** The checks of `handle_command` in order, on parsed squares. */
  function Check(pieces: seq<Piece.Piece>, pos: map<Board.Cell, nat>, src: Board.Cell, dst: Board.Cell): (v: Verdict)
    requires Indexed(pieces, pos) && AllReady(pieces)
    ensures v == SourceEmpty <==> src !in pos
    ensures v == Accepted <==>
              && src in pos
              && dst in LegalMoves(pieces, pos, src)
              && !Friendly(pieces, pos, src, dst)
              && !Obstructed(pos, src, dst)
  {
    if src !in pos then SourceEmpty
    else if dst !in LegalMoves(pieces, pos, src) then NotLegal
    else if Friendly(pieces, pos, src, dst) then FriendlyTarget
    else if Obstructed(pos, src, dst) then PathBlocked
    else Accepted
  }

  /**
   * `handle_command(cmd, now)`. Both squares are parsed first; a malformed one is an error.
   * The result is the piece list afterwards and the verdict.
   */
  function HandleCommand(pieces: seq<Piece.Piece>, pos: map<Board.Cell, nat>, cmd: Command, now: int,
                         b: Board.Board, travel: Physics.Travel)
    : (r: Result<(seq<Piece.Piece>, Verdict), Board.NotationError>)
    requires Indexed(pieces, pos) && Queued(cmd) && AllReady(pieces)
    ensures r.Err? <==> Board.AlgebraicToCell(cmd.src.name).Err? || Board.AlgebraicToCell(cmd.dst.name).Err?
    ensures r.Ok? ==>
              var src := Board.AlgebraicToCell(cmd.src.name).value;
              var dst := Board.AlgebraicToCell(cmd.dst.name).value;
              && r.value.1 == Check(pieces, pos, src, dst)
              && (r.value.1 != Accepted ==> r.value.0 == pieces)
              && (r.value.1 == Accepted ==>
                    var i := Find(pieces, pos[src]).value;
                    && |r.value.0| == |pieces|
                    && (forall j :: 0 <= j < |pieces| && j != i ==> r.value.0[j] == pieces[j])
                    && r.value.0[i].currentCmd == Some(cmd)
                    && (r.value.0[i].hasMoved <==> pieces[i].hasMoved || cmd.kind == MoveName))
  {
    var srcName := Board.AlgebraicToCell(cmd.src.name);
    var dstName := Board.AlgebraicToCell(cmd.dst.name);
    if srcName.Err? then Err(srcName.error)
    else if dstName.Err? then Err(dstName.error)
    else
      var src := srcName.value;
      var v := Check(pieces, pos, src, dstName.value);
      if v != Accepted then Ok((pieces, v))
      else
        var i := Find(pieces, pos[src]).value;
        QueuedCommandFits(pieces[i].machine, cmd);
        Ok((pieces[i := Piece.OnCommand(pieces[i], cmd, b, travel)], Accepted))
  }

  /** An accepted command reaches the mover through `on_command`, exactly once. */
  lemma AcceptedRunsOnCommand(pieces: seq<Piece.Piece>, pos: map<Board.Cell, nat>, cmd: Command, now: int,
                              b: Board.Board, travel: Physics.Travel)
    requires Indexed(pieces, pos) && Queued(cmd) && AllReady(pieces)
    requires HandleCommand(pieces, pos, cmd, now, b, travel).Ok?
    requires HandleCommand(pieces, pos, cmd, now, b, travel).value.1 == Accepted
    ensures var src := Board.AlgebraicToCell(cmd.src.name).value;
            var i := Find(pieces, pos[src]).value;
            && State.Linked(pieces[i].machine) && State.FitsTarget(pieces[i].machine, cmd)
            && HandleCommand(pieces, pos, cmd, now, b, travel).value.0
               == pieces[i := Piece.OnCommand(pieces[i], cmd, b, travel)]
  {
    var src := Board.AlgebraicToCell(cmd.src.name).value;
    var i := Find(pieces, pos[src]).value;
    QueuedCommandFits(pieces[i].machine, cmd);
  }

  /** What every piece of a list keeps across one command. */
  predicate Kept(pieces: seq<Piece.Piece>, ps: seq<Piece.Piece>) {
    && |ps| == |pieces| && AllReady(ps)
    && forall i :: 0 <= i < |ps| ==>
         && ps[i].id == pieces[i].id && ps[i].unique == pieces[i].unique && ps[i].moves == pieces[i].moves
         && (pieces[i].hasMoved ==> ps[i].hasMoved)
         && State.Live(ps[i].machine)
  }

  lemma ReplaceKept(pieces: seq<Piece.Piece>, i: nat, q: Piece.Piece)
    requires AllReady(pieces) && forall j :: 0 <= j < |pieces| ==> State.Live(pieces[j].machine)
    requires i < |pieces| && PieceReady(q) && State.Live(q.machine)
    requires q.id == pieces[i].id && q.unique == pieces[i].unique && q.moves == pieces[i].moves
    requires pieces[i].hasMoved ==> q.hasMoved
    ensures Kept(pieces, pieces[i := q])
  {
  }

  /**
   * Whatever the verdict, every piece keeps its id, unique number and move table, stays ready,
   * and a live machine stays live; `has_moved` never goes back to false.
   */
  lemma HandleCommandKeeps(pieces: seq<Piece.Piece>, pos: map<Board.Cell, nat>, cmd: Command, now: int,
                           b: Board.Board, travel: Physics.Travel)
    requires Indexed(pieces, pos) && Queued(cmd) && AllReady(pieces)
    requires forall i :: 0 <= i < |pieces| ==> State.Live(pieces[i].machine)
    requires HandleCommand(pieces, pos, cmd, now, b, travel).Ok?
    ensures Kept(pieces, HandleCommand(pieces, pos, cmd, now, b, travel).value.0)
  {
    var r := HandleCommand(pieces, pos, cmd, now, b, travel).value;
    if r.1 == Accepted {
      AcceptedRunsOnCommand(pieces, pos, cmd, now, b, travel);
      var src := Board.AlgebraicToCell(cmd.src.name).value;
      var i := Find(pieces, pos[src]).value;
      var q := Piece.OnCommand(pieces[i], cmd, b, travel);
      State.ProcessCommandPreserves(pieces[i].machine, cmd, b, travel);
      ReplaceKept(pieces, i, q);
    }
  }
}
