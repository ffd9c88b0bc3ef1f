/**
 * The game tick: update every piece, rebuild the cell occupancy while resolving collisions
 * (the only way pieces are captured), then drain the queued commands through the gate.
 */
module Game {
  import opened Wrappers
  import Board
  import opened Commands
  import Physics
  import PhysicsFactory
  import Moves
  import State
  import Piece
  import CommandHandler
  import PieceFactory
  import Text

  /** The board, the pieces in creation order, and the occupancy (cell to unique number). */
  datatype Game = Game(board: Board.Board, pieces: seq<Piece.Piece>, posToPiece: map<Board.Cell, nat>)

  /** Unique numbers increase along the list: it is in creation order. */
  predicate Ordered(ps: seq<Piece.Piece>) {
    forall i, j :: 0 <= i < j < |ps| ==> ps[i].unique < ps[j].unique
  }

  /** Every piece has a current state. */
  predicate Placed(ps: seq<Piece.Piece>) {
    forall i :: 0 <= i < |ps| ==> ps[i].machine.current in ps[i].machine.states
  }

  /** The cell a piece occupies: the integer position of its current physics, floored to a cell. */
  function CellOf(b: Board.Board, p: Piece.Piece): Board.Cell
    requires b.Valid() && p.machine.current in p.machine.states
  {
    Board.WorldToCell(b, State.Cur(p.machine).physics.pos)
  }

  /**
   * What the collision rule reads from one piece: its unique number, its cell, whether it is
   * passive (no command, or an idle or resting one) and the start time of its physics.
   */
  datatype Claim = Claim(unique: nat, cell: Board.Cell, passive: bool, startTime: int)

  function ClaimOf(b: Board.Board, p: Piece.Piece): Claim
    requires b.Valid() && p.machine.current in p.machine.states
  {
    var cmd := State.GetCommand(p.machine);
    Claim(p.unique, CellOf(b, p), cmd.None? || IsResting(cmd.value.kind), State.Cur(p.machine).physics.startTime)
  }

  function Claims(b: Board.Board, ps: seq<Piece.Piece>): (cs: seq<Claim>)
    requires b.Valid() && Placed(ps)
    ensures |cs| == |ps| && forall i :: 0 <= i < |ps| ==> cs[i] == ClaimOf(b, ps[i])
  {
    seq(|ps|, i requires 0 <= i < |ps| => ClaimOf(b, ps[i]))
  }

  /**
   * Whether a newcomer takes the cell from its resident: always when the resident is passive;
   * otherwise only when the newcomer is not passive and the resident started strictly later.
   */
  predicate Displaces(newcomer: Claim, resident: Claim) {
    resident.passive || (!newcomer.passive && resident.startTime > newcomer.startTime)
  }

  /** The occupancy under construction, cell to claim, and the unique numbers to remove. */
  type Acc = (map<Board.Cell, Claim>, set<nat>)

  /** One step of the reconciliation loop: the newcomer `p` enters its cell. */
  function Place(acc: Acc, p: Claim): Acc {
    var (occ, removed) := acc;
    if p.cell !in occ then (occ[p.cell := p], removed)
    else if Displaces(p, occ[p.cell]) then (occ[p.cell := p], removed + {occ[p.cell].unique})
    else (occ, removed + {p.unique})
  }

  /** The reconciliation loop over the first `n` claims, in list order. */
  function ResolveUpTo(cs: seq<Claim>, n: nat): Acc
    requires n <= |cs|
  {
    if n == 0 then (map[], {}) else Place(ResolveUpTo(cs, n - 1), cs[n - 1])
  }

  /** The reconciliation loop over a whole list of claims. */
  function Resolve(cs: seq<Claim>): Acc {
    ResolveUpTo(cs, |cs|)
  }

  /** The pieces whose unique number is not removed, in list order. */
  function Survivors(ps: seq<Piece.Piece>, removed: set<nat>): (r: seq<Piece.Piece>)
    ensures |r| <= |ps|
    ensures forall q :: q in r <==> q in ps && q.unique !in removed
    decreases |ps|
  {
    if |ps| == 0 then []
    else
      var last := ps[|ps| - 1];
      var prefix := Survivors(ps[..|ps| - 1], removed);
      assert forall q :: q in ps <==> q in ps[..|ps| - 1] || q == last;
      prefix + (if last.unique in removed then [] else [last])
  }

  /** A list in creation order stays in creation order when pieces are dropped. */
  lemma {:induction false} SurvivorsOrdered(ps: seq<Piece.Piece>, removed: set<nat>)
    requires Ordered(ps)
    ensures Ordered(Survivors(ps, removed))
    decreases |ps|
  {
    if |ps| > 0 {
      var prefix := ps[..|ps| - 1];
      SurvivorsOrdered(prefix, removed);
      var s := Survivors(prefix, removed);
      forall q | q in s
        ensures q.unique < ps[|ps| - 1].unique
      {
        var i :| 0 <= i < |prefix| && prefix[i] == q;
      }
    }
  }

  /** The cells of a list of pieces. */
  function Cells(b: Board.Board, ps: seq<Piece.Piece>): set<Board.Cell>
    requires b.Valid() && Placed(ps)
  {
    set i | 0 <= i < |ps| :: CellOf(b, ps[i])
  }

  /** Unique numbers increase along the list. */
  predicate Increasing(cs: seq<Claim>) {
    forall i, j :: 0 <= i < j < |cs| ==> cs[i].unique < cs[j].unique
  }

  /** The cells of the first `n` claims. */
  function ClaimedCells(cs: seq<Claim>, n: nat): set<Board.Cell>
    requires n <= |cs|
  {
    set i | 0 <= i < n :: cs[i].cell
  }

  lemma ClaimedStep(cs: seq<Claim>, n: nat)
    requires n < |cs|
    ensures ClaimedCells(cs, n + 1) == ClaimedCells(cs, n) + {cs[n].cell}
  {
  }

  /** `q` is one of the first `n` claims. */
  predicate Among(cs: seq<Claim>, n: nat, q: Claim)
    requires n <= |cs|
  {
    exists i :: 0 <= i < n && cs[i] == q
  }

  /** Some one of the first `n` claims has unique number `u`. */
  predicate Listed(cs: seq<Claim>, n: nat, u: nat)
    requires n <= |cs|
  {
    exists i :: 0 <= i < n && cs[i].unique == u
  }

  /** Another of the first `n` claims shares the i-th claim's cell. */
  predicate Collides(cs: seq<Claim>, n: nat, i: nat)
    requires i < n <= |cs|
  {
    exists j :: 0 <= j < n && j != i && cs[j].cell == cs[i].cell
  }

  /** Each occupant is one of the first `n` claims, sits in its own cell and is not marked for removal. */
  predicate OccupantsSound(cs: seq<Claim>, n: nat, acc: Acc)
    requires n <= |cs|
  {
    forall c :: c in acc.0 ==> Among(cs, n, acc.0[c]) && acc.0[c].cell == c && acc.0[c].unique !in acc.1
  }

  /** Each of the first `n` claims is either marked for removal or the occupant of its cell. */
  predicate Accounted(cs: seq<Claim>, n: nat, acc: Acc)
    requires n <= |cs|
  {
    forall i :: 0 <= i < n ==> cs[i].unique in acc.1 || (cs[i].cell in acc.0 && acc.0[cs[i].cell] == cs[i])
  }

  /** Only the first `n` claims are marked for removal. */
  predicate RemovedKnown(cs: seq<Claim>, n: nat, removed: set<nat>)
    requires n <= |cs|
  {
    forall u :: u in removed ==> Listed(cs, n, u)
  }

  /** Only a claim that shares its cell with another claim is marked for removal. */
  predicate RemovedCollided(cs: seq<Claim>, n: nat, removed: set<nat>)
    requires n <= |cs|
  {
    forall i :: 0 <= i < n && cs[i].unique in removed ==> Collides(cs, n, i)
  }

  /** What the reconciliation loop keeps true after the first `n` claims. */
  predicate ResolveInv(cs: seq<Claim>, n: nat, acc: Acc)
    requires n <= |cs|
  {
    && acc.0.Keys == ClaimedCells(cs, n)
    && OccupantsSound(cs, n, acc)
    && Accounted(cs, n, acc)
    && RemovedKnown(cs, n, acc.1)
    && RemovedCollided(cs, n, acc.1)
  }

  /** In an increasing list, claims with different cells have different unique numbers. */
  lemma ApartDiffer(cs: seq<Claim>, n: nat, p: Claim, q: Claim)
    requires Increasing(cs) && n <= |cs| && Among(cs, n, p) && Among(cs, n, q) && p.cell != q.cell
    ensures p.unique != q.unique
  {
    var i :| 0 <= i < n && cs[i] == p;
    var j :| 0 <= j < n && cs[j] == q;
  }

  /** The facts every case of one step uses: the newcomer is newer than everything before it. */
  lemma StepFacts(cs: seq<Claim>, n: nat, acc: Acc)
    requires Increasing(cs) && n < |cs|
    requires ResolveInv(cs, n, acc)
    ensures ClaimedCells(cs, n + 1) == ClaimedCells(cs, n) + {cs[n].cell}
    ensures cs[n].unique !in acc.1
    ensures forall c :: c in acc.0 ==> acc.0[c].unique < cs[n].unique
  {
    ClaimedStep(cs, n);
    forall c | c in acc.0 ensures acc.0[c].unique < cs[n].unique {
      var i :| 0 <= i < n && cs[i] == acc.0[c];
    }
    assert !Listed(cs, n, cs[n].unique);
  }

  lemma PlaceSound(cs: seq<Claim>, n: nat, acc: Acc)
    requires Increasing(cs) && n < |cs|
    requires OccupantsSound(cs, n, acc) && cs[n].unique !in acc.1
    ensures OccupantsSound(cs, n + 1, Place(acc, cs[n]))
  {
    var p := cs[n];
    var (occ, removed) := acc;
    assert Among(cs, n + 1, p);
    if p.cell !in occ {
      var o := occ[p.cell := p];
      forall c | c in o ensures Among(cs, n + 1, o[c]) && o[c].cell == c && o[c].unique !in removed {
        if c != p.cell {
          var i :| 0 <= i < n && cs[i] == occ[c];
        }
      }
    } else if Displaces(p, occ[p.cell]) {
      var res := occ[p.cell];
      var o := occ[p.cell := p];
      var gone := removed + {res.unique};
      forall c | c in o ensures Among(cs, n + 1, o[c]) && o[c].cell == c && o[c].unique !in gone {
        if c != p.cell {
          var i :| 0 <= i < n && cs[i] == occ[c];
          ApartDiffer(cs, n, occ[c], res);
        }
      }
    } else {
      var o := occ;
      forall c | c in o ensures Among(cs, n + 1, o[c]) {
        var i :| 0 <= i < n && cs[i] == occ[c];
      }
    }
  }

  lemma PlaceAccounted(cs: seq<Claim>, n: nat, acc: Acc)
    requires n < |cs|
    requires Accounted(cs, n, acc)
    ensures Accounted(cs, n + 1, Place(acc, cs[n]))
  {
  }

  lemma PlaceRemovedKnown(cs: seq<Claim>, n: nat, acc: Acc)
    requires n < |cs|
    requires OccupantsSound(cs, n, acc) && RemovedKnown(cs, n, acc.1)
    ensures RemovedKnown(cs, n + 1, Place(acc, cs[n]).1)
  {
    var p := cs[n];
    var r := Place(acc, p);
    forall u | u in r.1 ensures Listed(cs, n + 1, u) {
      if u in acc.1 {
        var i :| 0 <= i < n && cs[i].unique == u;
      } else if p.cell in acc.0 && u != p.unique {
        var i :| 0 <= i < n && cs[i] == acc.0[p.cell];
      } else {
        assert cs[n].unique == u;
      }
    }
  }

  lemma PlaceRemovedCollided(cs: seq<Claim>, n: nat, acc: Acc)
    requires Increasing(cs) && n < |cs|
    requires OccupantsSound(cs, n, acc) && RemovedCollided(cs, n, acc.1)
    requires cs[n].unique !in acc.1
    ensures RemovedCollided(cs, n + 1, Place(acc, cs[n]).1)
  {
    var p := cs[n];
    var (occ, removed) := acc;
    if p.cell !in occ {
      forall i | 0 <= i < n + 1 && cs[i].unique in removed
        ensures Collides(cs, n + 1, i)
      {
        var j :| 0 <= j < n && j != i && cs[j].cell == cs[i].cell;
      }
    } else {
      var res := occ[p.cell];
      var k :| 0 <= k < n && cs[k] == res;
      var extra := if Displaces(p, res) then res.unique else p.unique;
      assert Place(acc, p).1 == removed + {extra};
      forall i | 0 <= i < n + 1 && cs[i].unique in removed + {extra}
        ensures Collides(cs, n + 1, i)
      {
        if cs[i].unique in removed {
          var j :| 0 <= j < n && j != i && cs[j].cell == cs[i].cell;
        } else if i == n {
          assert cs[k].cell == cs[n].cell;
        } else {
          assert cs[i].unique == cs[k].unique;
          assert cs[n].cell == cs[i].cell;
        }
      }
    }
  }

  /** A step adds the newcomer's cell to the occupied cells. */
  lemma PlaceKeys(acc: Acc, p: Claim)
    ensures Place(acc, p).0.Keys == acc.0.Keys + {p.cell}
  {
  }

  lemma PlaceCells(cs: seq<Claim>, n: nat, acc: Acc)
    requires n < |cs| && acc.0.Keys == ClaimedCells(cs, n)
    ensures Place(acc, cs[n]).0.Keys == ClaimedCells(cs, n + 1)
  {
    PlaceKeys(acc, cs[n]);
    ClaimedStep(cs, n);
  }

  /** One step of the loop keeps the invariant. */
  lemma PlaceKeepsInv(cs: seq<Claim>, n: nat)
    requires Increasing(cs) && n < |cs|
    requires ResolveInv(cs, n, ResolveUpTo(cs, n))
    ensures ResolveInv(cs, n + 1, ResolveUpTo(cs, n + 1))
  {
    var acc := ResolveUpTo(cs, n);
    StepFacts(cs, n, acc);
    PlaceCells(cs, n, acc);
    PlaceSound(cs, n, acc);
    PlaceAccounted(cs, n, acc);
    PlaceRemovedKnown(cs, n, acc);
    PlaceRemovedCollided(cs, n, acc);
  }

  /** The loop keeps its invariant over an increasing list. */
  lemma {:induction false} ResolveKeepsInv(cs: seq<Claim>, n: nat)
    requires Increasing(cs) && n <= |cs|
    ensures ResolveInv(cs, n, ResolveUpTo(cs, n))
  {
    if n > 0 {
      ResolveKeepsInv(cs, n - 1);
      PlaceKeepsInv(cs, n - 1);
    }
  }

  /** The unique numbers `_update_position_mapping` removes. */
  function Removed(b: Board.Board, ps: seq<Piece.Piece>): set<nat>
    requires b.Valid() && Placed(ps)
  {
    Resolve(Claims(b, ps)).1
  }

  /** The pieces `_update_position_mapping` keeps, in their order. */
  function Remaining(b: Board.Board, ps: seq<Piece.Piece>): seq<Piece.Piece>
    requires b.Valid() && Placed(ps)
  {
    Survivors(ps, Removed(b, ps))
  }

  /** The occupancy `_update_position_mapping` rebuilds: cell to unique number. */
  function Positions(b: Board.Board, ps: seq<Piece.Piece>): map<Board.Cell, nat>
    requires b.Valid() && Placed(ps)
  {
    var occ := Resolve(Claims(b, ps)).0;
    map c | c in occ :: occ[c].unique
  }

  /** Pieces in creation order give claims in increasing order, over the same cells. */
  lemma ClaimsInv(b: Board.Board, ps: seq<Piece.Piece>)
    requires b.Valid() && Placed(ps) && Ordered(ps)
    ensures Increasing(Claims(b, ps))
    ensures ClaimedCells(Claims(b, ps), |ps|) == Cells(b, ps)
    ensures ResolveInv(Claims(b, ps), |ps|, Resolve(Claims(b, ps)))
  {
    var cs := Claims(b, ps);
    forall x | x in Cells(b, ps) ensures x in ClaimedCells(cs, |cs|) {
      var i :| 0 <= i < |ps| && CellOf(b, ps[i]) == x;
      assert cs[i].cell == x;
    }
    ResolveKeepsInv(cs, |cs|);
  }

  /** The occupied cells after reconciliation are exactly the cells some piece was on. */
  lemma PositionsCoverCells(b: Board.Board, ps: seq<Piece.Piece>)
    requires b.Valid() && Placed(ps) && Ordered(ps)
    ensures Positions(b, ps).Keys == Cells(b, ps)
  {
    ClaimsInv(b, ps);
  }

  /** A piece that is not removed occupies its own cell. */
  lemma KeptOccupies(b: Board.Board, ps: seq<Piece.Piece>, k: nat)
    requires b.Valid() && Placed(ps) && Ordered(ps) && k < |ps|
    requires ps[k].unique !in Removed(b, ps)
    ensures CellOf(b, ps[k]) in Positions(b, ps) && Positions(b, ps)[CellOf(b, ps[k])] == ps[k].unique
  {
    var cs := Claims(b, ps);
    ClaimsInv(b, ps);
    var acc := Resolve(cs);
    assert Accounted(cs, |cs|, acc);
    assert cs[k].unique !in acc.1;
    assert cs[k].cell in acc.0 && acc.0[cs[k].cell] == cs[k];
  }

  /** An occupant is a piece that is not removed, on that cell. */
  lemma OccupantKept(b: Board.Board, ps: seq<Piece.Piece>, c: Board.Cell)
    requires b.Valid() && Placed(ps) && Ordered(ps) && c in Positions(b, ps)
    ensures exists k :: 0 <= k < |ps| && ps[k].unique == Positions(b, ps)[c] && ps[k].unique !in Removed(b, ps)
                                      && CellOf(b, ps[k]) == c
  {
    var cs := Claims(b, ps);
    ClaimsInv(b, ps);
    var acc := Resolve(cs);
    assert OccupantsSound(cs, |cs|, acc);
    var k :| 0 <= k < |cs| && cs[k] == acc.0[c];
    assert cs[k] == ClaimOf(b, ps[k]);
    assert cs[k].unique == ps[k].unique && cs[k].cell == CellOf(b, ps[k]);
    assert ps[k].unique == Positions(b, ps)[c];
  }

  /** The kept pieces stay in creation order, and each is the occupant of its own cell. */
  lemma RemainingOccupy(b: Board.Board, ps: seq<Piece.Piece>)
    requires b.Valid() && Placed(ps) && Ordered(ps)
    ensures Placed(Remaining(b, ps)) && Ordered(Remaining(b, ps))
    ensures var surv, pos := Remaining(b, ps), Positions(b, ps);
      forall i :: 0 <= i < |surv| ==> CellOf(b, surv[i]) in pos && pos[CellOf(b, surv[i])] == surv[i].unique
  {
    SurvivorsOrdered(ps, Removed(b, ps));
    var surv := Remaining(b, ps);
    forall i | 0 <= i < |surv|
      ensures CellOf(b, surv[i]) in Positions(b, ps) && Positions(b, ps)[CellOf(b, surv[i])] == surv[i].unique
    {
      var k :| 0 <= k < |ps| && ps[k] == surv[i];
      KeptOccupies(b, ps, k);
    }
  }

  /** Every occupant after reconciliation is a kept piece on that cell. */
  lemma OccupantsRemain(b: Board.Board, ps: seq<Piece.Piece>)
    requires b.Valid() && Placed(ps) && Ordered(ps)
    ensures var surv, pos := Remaining(b, ps), Positions(b, ps);
      forall c :: c in pos ==> exists i :: 0 <= i < |surv| && surv[i].unique == pos[c] && CellOf(b, surv[i]) == c
  {
    var surv, pos := Remaining(b, ps), Positions(b, ps);
    forall c | c in pos ensures exists i :: 0 <= i < |surv| && surv[i].unique == pos[c] && CellOf(b, surv[i]) == c {
      OccupantKept(b, ps, c);
      var k :| 0 <= k < |ps| && ps[k].unique == pos[c] && ps[k].unique !in Removed(b, ps) && CellOf(b, ps[k]) == c;
      assert ps[k] in surv;
      var i :| 0 <= i < |surv| && surv[i] == ps[k];
    }
  }

  /** A piece alone on its cell is kept. */
  lemma LoneSurvives(b: Board.Board, ps: seq<Piece.Piece>, i: nat)
    requires b.Valid() && Placed(ps) && Ordered(ps) && i < |ps|
    requires forall j :: 0 <= j < |ps| && j != i ==> CellOf(b, ps[j]) != CellOf(b, ps[i])
    ensures ps[i] in Remaining(b, ps)
  {
    ClaimsInv(b, ps);
  }

  /** No two kept pieces share a cell, and the occupancy names only kept pieces. */
  lemma SurvivorsApart(b: Board.Board, ps: seq<Piece.Piece>)
    requires b.Valid() && Placed(ps) && Ordered(ps)
    ensures Placed(Remaining(b, ps))
    ensures var surv := Remaining(b, ps);
      forall i, j :: 0 <= i < j < |surv| ==> CellOf(b, surv[i]) != CellOf(b, surv[j])
    ensures CommandHandler.Indexed(Remaining(b, ps), Positions(b, ps))
  {
    RemainingOccupy(b, ps);
    OccupantsRemain(b, ps);
    var surv, pos := Remaining(b, ps), Positions(b, ps);
    forall c | c in pos ensures CommandHandler.Find(surv, pos[c]).Some? {
      var i :| 0 <= i < |surv| && surv[i].unique == pos[c] && CellOf(b, surv[i]) == c;
    }
  }

  /** Two pieces on one cell: the later-created one stays if and only if it displaces the other. */
  lemma TwoPieceCollision(b: Board.Board, first: Piece.Piece, second: Piece.Piece)
    requires b.Valid() && first.machine.current in first.machine.states
    requires second.machine.current in second.machine.states
    requires first.unique < second.unique && CellOf(b, first) == CellOf(b, second)
    ensures Remaining(b, [first, second]) ==
      if Displaces(ClaimOf(b, second), ClaimOf(b, first)) then [second] else [first]
    ensures Positions(b, [first, second]) ==
      map[CellOf(b, first) := if Displaces(ClaimOf(b, second), ClaimOf(b, first)) then second.unique else first.unique]
  {
    var ps := [first, second];
    var cs := Claims(b, ps);
    var a, c := ClaimOf(b, first), ClaimOf(b, second);
    assert cs == [a, c];
    var acc := Place((map[], {}), a);
    assert ResolveUpTo(cs, 1) == acc == (map[a.cell := a], {});
    assert Resolve(cs) == Place(acc, c);
    assert ps[..1] == [first] && ps[..1][..0] == [];
    assert Survivors([first], Removed(b, ps)) == if first.unique in Removed(b, ps) then [] else [first];
  }

  /** The reconciliation loop as the source runs it: one pass to place, one pass to remove. */
  method UpdatePositionMapping(b: Board.Board, ps: seq<Piece.Piece>) returns (surv: seq<Piece.Piece>, pos: map<Board.Cell, nat>)
    requires b.Valid() && Placed(ps)
    ensures surv == Remaining(b, ps) && pos == Positions(b, ps)
  {
    var cs := Claims(b, ps);
    var occ: map<Board.Cell, Claim> := map[];
    var removed: set<nat> := {};
    for i := 0 to |ps|
      invariant (occ, removed) == ResolveUpTo(cs, i)
    {
      var p := ClaimOf(b, ps[i]);
      if p.cell in occ {
        var opponent := occ[p.cell];
        if Displaces(p, opponent) {
          occ := occ[p.cell := p];
          removed := removed + {opponent.unique};
        } else {
          removed := removed + {p.unique};
        }
      } else {
        occ := occ[p.cell := p];
      }
    }
    surv := [];
    for i := 0 to |ps|
      invariant surv == Survivors(ps[..i], removed)
    {
      assert ps[..i + 1][..i] == ps[..i];
      if ps[i].unique !in removed {
        surv := surv + [ps[i]];
      }
    }
    assert ps[..|ps|] == ps;
    pos := map c | c in occ :: occ[c].unique;
  }

  // ---------------------------------------------------------------------------------------
  // Winning

  /**
   * Whether a piece is a king: its id, lower-cased, starts with "k", which holds for 'k',
   * 'K' and the Kelvin sign U+212A.
   */
  predicate IsKing(p: Piece.Piece) {
    |p.id| > 0 && Board.ToLower(p.id[0]) == 'k'
  }

  /** The kings among the pieces, in order. */
  function Kings(ps: seq<Piece.Piece>): (ks: seq<Piece.Piece>)
    ensures |ks| <= |ps|
    decreases |ps|
  {
    if |ps| == 0 then [] else (if IsKing(ps[0]) then [ps[0]] else []) + Kings(ps[1..])
  }

  /** The kings are exactly the pieces that are kings. */
  lemma {:induction false} KingsMembers(ps: seq<Piece.Piece>)
    ensures forall q :: q in Kings(ps) <==> q in ps && IsKing(q)
    decreases |ps|
  {
    if |ps| > 0 {
      KingsMembers(ps[1..]);
      assert forall q :: q in ps <==> q == ps[0] || q in ps[1..];
    }
  }

  /** `_is_win`: at most one king is left. */
  predicate IsWin(ps: seq<Piece.Piece>) {
    |Kings(ps)| <= 1
  }

  /** The message `_announce_win` prints. */
  datatype Outcome = Draw | WhiteWins | BlackWins | GameOver

  /** `_announce_win`: the single king's colour letter decides the winner. */
  function Announce(ps: seq<Piece.Piece>): (o: Outcome)
    requires |Kings(ps)| == 1 ==> |Kings(ps)[0].id| >= 2
    ensures o == Draw <==> forall i :: 0 <= i < |ps| ==> !IsKing(ps[i])
    ensures o == GameOver <==> !IsWin(ps)
    ensures o == WhiteWins ==> exists i :: 0 <= i < |ps| && IsKing(ps[i]) && |ps[i].id| >= 2 && ps[i].id[1] == 'W'
    ensures o == BlackWins ==> exists i :: 0 <= i < |ps| && IsKing(ps[i]) && |ps[i].id| >= 2 && ps[i].id[1] != 'W'
  {
    var ks := Kings(ps);
    KingsMembers(ps);
    if |ks| == 0 then
      assert forall i :: 0 <= i < |ps| ==> ps[i] in ps;
      Draw
    else if |ks| == 1 then
      assert ks[0] in ks;
      if ks[0].id[1] == 'W' then WhiteWins else BlackWins
    else
      assert ks[0] in ks;
      GameOver
  }

  /** Dropping pieces never adds kings. */
  lemma {:induction false} KingsOfSurvivors(ps: seq<Piece.Piece>, removed: set<nat>)
    ensures |Kings(Survivors(ps, removed))| <= |Kings(ps)|
    decreases |ps|
  {
    if |ps| > 0 {
      var n := |ps| - 1;
      KingsOfSurvivors(ps[..n], removed);
      KingsAppend(ps[..n], [ps[n]]);
      assert ps == ps[..n] + [ps[n]];
      var prefix := Survivors(ps[..n], removed);
      KingsAppend(prefix, if ps[n].unique in removed then [] else [ps[n]]);
    }
  }

  lemma {:induction false} KingsAppend(xs: seq<Piece.Piece>, ys: seq<Piece.Piece>)
    ensures Kings(xs + ys) == Kings(xs) + Kings(ys)
    decreases |xs|
  {
    if |xs| == 0 {
      assert xs + ys == ys;
    } else {
      assert (xs + ys)[0] == xs[0];
      assert (xs + ys)[1..] == xs[1..] + ys;
      KingsAppend(xs[1..], ys);
      assert Kings(xs + ys) == (if IsKing(xs[0]) then [xs[0]] else []) + Kings(xs[1..] + ys);
    }
  }

  /** Lists whose ids agree position by position have the same number of kings. */
  lemma {:induction false} KingsSameIds(xs: seq<Piece.Piece>, ys: seq<Piece.Piece>)
    requires |xs| == |ys| && forall i :: 0 <= i < |xs| ==> xs[i].id == ys[i].id
    ensures |Kings(xs)| == |Kings(ys)|
    decreases |xs|
  {
    if |xs| > 0 {
      KingsSameIds(xs[1..], ys[1..]);
    }
  }

  // ---------------------------------------------------------------------------------------
  // One tick

  /** What the game keeps between ticks. */
  predicate Valid(g: Game) {
    && g.board.Valid()
    && Ordered(g.pieces)
    && CommandHandler.AllReady(g.pieces)
    && (forall i :: 0 <= i < |g.pieces| ==> State.Live(g.pieces[i].machine))
    && CommandHandler.Indexed(g.pieces, g.posToPiece)
  }

  /** Ready and live pieces. */
  predicate Healthy(ps: seq<Piece.Piece>) {
    && CommandHandler.AllReady(ps)
    && forall i :: 0 <= i < |ps| ==> State.Live(ps[i].machine)
  }

  lemma HealthyPlaced(ps: seq<Piece.Piece>)
    requires Healthy(ps)
    ensures Placed(ps)
  {
    forall i | 0 <= i < |ps| ensures ps[i].machine.current in ps[i].machine.states {
      assert State.Live(ps[i].machine);
    }
  }

  /** Every piece's `update(now)`, in order. */
  function UpdateAll(ps: seq<Piece.Piece>, now: int, b: Board.Board, travel: Physics.Travel): (r: seq<Piece.Piece>)
    requires b.Valid() && Healthy(ps)
    ensures |r| == |ps|
    ensures forall i :: 0 <= i < |ps| ==> Descends(ps[i], r[i])
  {
    seq(|ps|, i requires 0 <= i < |ps| => Piece.Update(ps[i], now, b, travel))
  }

  /** Updating every piece keeps the pieces ready, live and in creation order. */
  lemma UpdateAllKeeps(ps: seq<Piece.Piece>, now: int, b: Board.Board, travel: Physics.Travel)
    requires b.Valid() && Healthy(ps)
    ensures Healthy(UpdateAll(ps, now, b, travel))
    ensures Ordered(ps) ==> Ordered(UpdateAll(ps, now, b, travel))
  {
    var r := UpdateAll(ps, now, b, travel);
    forall i | 0 <= i < |ps|
      ensures CommandHandler.PieceReady(r[i]) && State.Live(r[i].machine)
    {
      assert CommandHandler.PieceReady(ps[i]);
      Piece.UpdatePreserves(ps[i], now, b, travel);
    }
  }

  /** Keeping is transitive. */
  lemma KeptTrans(a: seq<Piece.Piece>, b: seq<Piece.Piece>, c: seq<Piece.Piece>)
    requires CommandHandler.Kept(a, b) && CommandHandler.Kept(b, c)
    ensures CommandHandler.Kept(a, c)
  {
  }

  /** Keeping preserves the index of an occupancy, which only reads unique numbers. */
  lemma {:induction false} FindKept(a: seq<Piece.Piece>, b: seq<Piece.Piece>, u: nat)
    requires |a| == |b| && forall i :: 0 <= i < |a| ==> a[i].unique == b[i].unique
    ensures CommandHandler.Find(a, u) == CommandHandler.Find(b, u)
    decreases |a|
  {
    if |a| > 0 {
      FindKept(a[1..], b[1..], u);
    }
  }

  lemma IndexedKept(a: seq<Piece.Piece>, b: seq<Piece.Piece>, pos: map<Board.Cell, nat>)
    requires CommandHandler.Indexed(a, pos) && CommandHandler.Kept(a, b)
    ensures CommandHandler.Indexed(b, pos)
  {
    forall c | c in pos ensures CommandHandler.Find(b, pos[c]).Some? {
      FindKept(a, b, pos[c]);
    }
  }

  /** A queued command names a square that does not parse. */
  predicate Malformed(cmd: Command) {
    || (cmd.src.Square? && Board.AlgebraicToCell(cmd.src.name).Err?)
    || (cmd.dst.Square? && Board.AlgebraicToCell(cmd.dst.name).Err?)
  }

  /**
   * Draining the input queue: each command goes through `handle_command` in order; a command
   * naming a malformed square raises and ends the drain.
   */
  function Drain(ps: seq<Piece.Piece>, pos: map<Board.Cell, nat>, queue: seq<Command>, now: int,
                 b: Board.Board, travel: Physics.Travel): (r: Result<seq<Piece.Piece>, Board.NotationError>)
    requires CommandHandler.Indexed(ps, pos) && Healthy(ps)
    requires forall k :: 0 <= k < |queue| ==> CommandHandler.Queued(queue[k])
    ensures r.Err? <==> exists k :: 0 <= k < |queue| && Malformed(queue[k])
    ensures r.Ok? ==> CommandHandler.Kept(ps, r.value) && CommandHandler.Indexed(r.value, pos)
    decreases |queue|
  {
    if |queue| == 0 then Ok(ps)
    else
      assert forall k :: 1 <= k < |queue| ==> queue[k] == queue[1..][k - 1];
      match CommandHandler.HandleCommand(ps, pos, queue[0], now, b, travel)
      case Err(e) => Err(e)
      case Ok(res) =>
        CommandHandler.HandleCommandKeeps(ps, pos, queue[0], now, b, travel);
        IndexedKept(ps, res.0, pos);
        var r := Drain(res.0, pos, queue[1..], now, b, travel);
        if r.Ok? then KeptTrans(ps, res.0, r.value); r else r
  }

  /** Every piece after `update(now)`. */
  function Updated(g: Game, now: int, travel: Physics.Travel): (ps: seq<Piece.Piece>)
    requires Valid(g)
    ensures ps == UpdateAll(g.pieces, now, g.board, travel)
    ensures Healthy(ps) && Ordered(ps) && Placed(ps)
  {
    UpdateAllKeeps(g.pieces, now, g.board, travel);
    var ps := UpdateAll(g.pieces, now, g.board, travel);
    HealthyPlaced(ps);
    ps
  }

  /** The pieces and occupancy after `_update_position_mapping` has run on the updated pieces. */
  function Settled(g: Game, now: int, travel: Physics.Travel): (r: (seq<Piece.Piece>, map<Board.Cell, nat>))
    requires Valid(g)
    ensures r.0 == Remaining(g.board, Updated(g, now, travel)) && r.1 == Positions(g.board, Updated(g, now, travel))
    ensures Healthy(r.0) && Ordered(r.0) && CommandHandler.Indexed(r.0, r.1)
    ensures r.1.Keys == Cells(g.board, Updated(g, now, travel))
  {
    var b := g.board;
    var updated := Updated(g, now, travel);
    SurvivorsApart(b, updated);
    RemainingOccupy(b, updated);
    PositionsCoverCells(b, updated);
    var surv := Remaining(b, updated);
    assert Healthy(surv) by {
      forall i | 0 <= i < |surv| ensures CommandHandler.PieceReady(surv[i]) && State.Live(surv[i].machine) {
        assert surv[i] in updated;
      }
    }
    (surv, Positions(b, updated))
  }

  /**
   * One pass of the main loop: update every piece, rebuild the occupancy (capturing on
   * collisions), then drain the commands queued since the last pass.
   */
  function Tick(g: Game, now: int, queue: seq<Command>, travel: Physics.Travel): (r: Result<Game, Board.NotationError>)
    requires Valid(g)
    requires forall k :: 0 <= k < |queue| ==> CommandHandler.Queued(queue[k])
    ensures r.Err? <==> exists k :: 0 <= k < |queue| && Malformed(queue[k])
    ensures r.Ok? ==> r.value.board == g.board && |r.value.pieces| <= |g.pieces|
  {
    var (surv, pos) := Settled(g, now, travel);
    match Drain(surv, pos, queue, now, g.board, travel)
    case Err(e) => Err(e)
    case Ok(ps) => Ok(Game(g.board, ps, pos))
  }

  /** A tick's result, spelled out: the drain of the settled pieces over the settled occupancy. */
  lemma TickResult(g: Game, now: int, queue: seq<Command>, travel: Physics.Travel)
    requires Valid(g)
    requires forall k :: 0 <= k < |queue| ==> CommandHandler.Queued(queue[k])
    requires Tick(g, now, queue, travel).Ok?
    ensures var s := Settled(g, now, travel);
      && Drain(s.0, s.1, queue, now, g.board, travel).Ok?
      && Tick(g, now, queue, travel).value.pieces == Drain(s.0, s.1, queue, now, g.board, travel).value
      && Tick(g, now, queue, travel).value.posToPiece == s.1
      && CommandHandler.Kept(s.0, Tick(g, now, queue, travel).value.pieces)
  {
  }

  /** The settle step never adds kings. */
  lemma SettledKings(g: Game, now: int, travel: Physics.Travel)
    requires Valid(g)
    ensures |Kings(Settled(g, now, travel).0)| <= |Kings(g.pieces)|
  {
    var updated := Updated(g, now, travel);
    KingsSameIds(g.pieces, updated);
    KingsOfSurvivors(updated, Removed(g.board, updated));
  }

  /** Every piece after the settle step descends from a piece before the tick. */
  lemma SettledDescends(g: Game, now: int, travel: Physics.Travel)
    requires Valid(g)
    ensures var s := Settled(g, now, travel).0;
      forall i :: 0 <= i < |s| ==> HasAncestor(g.pieces, s[i])
  {
    var updated := Updated(g, now, travel);
    assert Settled(g, now, travel).0 == Survivors(updated, Removed(g.board, updated));
    SurvivorsDescend(g.pieces, updated, Removed(g.board, updated));
  }

  /**
   * A tick never adds kings: pieces are only ever removed, and ids never change. So a won game
   * stays won.
   */
  lemma TickKeepsWin(g: Game, now: int, queue: seq<Command>, travel: Physics.Travel)
    requires Valid(g)
    requires forall k :: 0 <= k < |queue| ==> CommandHandler.Queued(queue[k])
    requires Tick(g, now, queue, travel).Ok?
    ensures |Kings(Tick(g, now, queue, travel).value.pieces)| <= |Kings(g.pieces)|
  {
    TickResult(g, now, queue, travel);
    SettledKings(g, now, travel);
    KingsSameIds(Settled(g, now, travel).0, Tick(g, now, queue, travel).value.pieces);
  }

  /**
   * Every piece after a tick descends from a piece before it: same unique number, id and
   * move table, and `has_moved` never goes back to false.
   */
  lemma TickDescends(g: Game, now: int, queue: seq<Command>, travel: Physics.Travel)
    requires Valid(g)
    requires forall k :: 0 <= k < |queue| ==> CommandHandler.Queued(queue[k])
    requires Tick(g, now, queue, travel).Ok?
    ensures var r := Tick(g, now, queue, travel).value;
      forall i :: 0 <= i < |r.pieces| ==> HasAncestor(g.pieces, r.pieces[i])
  {
    TickResult(g, now, queue, travel);
    SettledDescends(g, now, travel);
    DescendsKept(g.pieces, Settled(g, now, travel).0, Tick(g, now, queue, travel).value.pieces);
  }

  /** A tick keeps the game valid, and every piece's cell after the update is occupied. */
  lemma TickKeepsValid(g: Game, now: int, queue: seq<Command>, travel: Physics.Travel)
    requires Valid(g)
    requires forall k :: 0 <= k < |queue| ==> CommandHandler.Queued(queue[k])
    requires Tick(g, now, queue, travel).Ok?
    ensures Valid(Tick(g, now, queue, travel).value)
    ensures Tick(g, now, queue, travel).value.posToPiece.Keys == Cells(g.board, UpdateAll(g.pieces, now, g.board, travel))
  {
    var (surv, pos) := Settled(g, now, travel);
    var r := Tick(g, now, queue, travel).value;
    assert CommandHandler.Kept(surv, r.pieces);
  }

  /** Pieces kept from an updated list descend from the pieces before the update. */
  lemma SurvivorsDescend(a: seq<Piece.Piece>, u: seq<Piece.Piece>, removed: set<nat>)
    requires |a| == |u| && forall i :: 0 <= i < |a| ==> Descends(a[i], u[i])
    ensures var surv := Survivors(u, removed);
      forall i :: 0 <= i < |surv| ==> HasAncestor(a, surv[i])
  {
    var surv := Survivors(u, removed);
    forall i | 0 <= i < |surv|
      ensures HasAncestor(a, surv[i])
    {
      assert surv[i] in u;
      var k :| 0 <= k < |u| && u[k] == surv[i];
    }
  }

  /** Keeping a list preserves descent from an older list. */
  lemma DescendsKept(a: seq<Piece.Piece>, s: seq<Piece.Piece>, ps: seq<Piece.Piece>)
    requires forall i :: 0 <= i < |s| ==> HasAncestor(a, s[i])
    requires CommandHandler.Kept(s, ps)
    ensures forall i :: 0 <= i < |ps| ==> HasAncestor(a, ps[i])
  {
    forall i | 0 <= i < |ps|
      ensures HasAncestor(a, ps[i])
    {
      var k :| 0 <= k < |a| && Descends(a[k], s[i]);
      assert Descends(a[k], ps[i]);
    }
  }

  /** `q` is a later version of some piece of `a`. */
  predicate HasAncestor(a: seq<Piece.Piece>, q: Piece.Piece) {
    exists k :: 0 <= k < |a| && Descends(a[k], q)
  }

  /** `q` is a later version of `p`. */
  predicate Descends(p: Piece.Piece, q: Piece.Piece) {
    && p.unique == q.unique && p.id == q.id && p.moves == q.moves
    && (p.hasMoved ==> q.hasMoved)
  }

  // ---------------------------------------------------------------------------------------
  // Start times

  /** After the physics step alone, a state with an active command is anchored unless finished. */
  lemma StepAnchors(m: State.Machine, now: int)
    requires State.Wired(m) && State.Live(m)
    ensures Physics.Updatable(State.Cur(m).physics, now) && State.Cur(m).physics.Sound()
    ensures var m1 := State.Step(m, now).0;
      && State.Wired(m1)
      && (State.GetCommand(m1).Some? && !IsResting(State.GetCommand(m1).value.kind) && !State.Cur(m1).physics.finished
          ==> State.Cur(m1).physics.anchored)
  {
    State.WiredUpdateFits(m, now);
    var m1 := State.Step(m, now).0;
    var t := State.Cur(m).physics;
    assert State.Coherent(m.current, State.Cur(m));
    assert PhysicsFactory.KindOf(m.current) == Some(t.kind);
    assert State.Wired(m1);
  }

  /** A completion command that has a transition is an idle or resting command. */
  lemma RoutedCompletionRests(m: State.Machine, now: int)
    requires State.Wired(m) && State.Live(m)
    ensures Physics.Updatable(State.Cur(m).physics, now) && State.Cur(m).physics.Sound()
    ensures var (m1, out) := State.Step(m, now);
      out.Some? && State.Target(m1, out.value.kind).Some? ==> IsResting(out.value.kind)
  {
    State.WiredUpdateFits(m, now);
    var (m1, out) := State.Step(m, now);
    var t := State.Cur(m).physics;
    assert PhysicsFactory.KindOf(m.current) == Some(t.kind);
    StepAnchors(m, now);
    if out.Some? {
      State.WiredTarget(m1, out.value.kind);
    }
  }

  /**
   * After a machine update, a state whose command is neither idle nor resting has an anchored
   * physics (a start time that is a number), unless it is a finished move.
   */
  lemma MachineContendersAnchored(m: State.Machine, now: int, b: Board.Board, travel: Physics.Travel)
    requires State.Wired(m) && State.Live(m)
    ensures State.Linked(m) && Physics.Updatable(State.Cur(m).physics, now) && State.Cur(m).physics.Sound()
    ensures State.CompletionFits(m, now)
    ensures var r := State.Update(m, now, b, travel);
      && r.current in r.states
      && (State.GetCommand(r).Some? && !IsResting(State.GetCommand(r).value.kind) && !State.Cur(r).physics.finished
          ==> State.Cur(r).physics.anchored)
  {
    State.WiredUpdateFits(m, now);
    StepAnchors(m, now);
    RoutedCompletionRests(m, now);
    var (m1, out) := State.Step(m, now);
    if out.Some? {
      State.WiredTarget(m1, out.value.kind);
    }
  }

  /**
   * After `update(now)`, a piece the collision rule compares by start time (one whose command
   * is neither idle nor resting) has an anchored physics. So the comparison never meets a
   * missing start time.
   */
  lemma ContendersAnchored(p: Piece.Piece, now: int, b: Board.Board, travel: Physics.Travel)
    requires State.Wired(p.machine) && State.Live(p.machine) && b.Valid()
    ensures var q := Piece.Update(p, now, b, travel);
      && q.machine.current in q.machine.states
      && (!ClaimOf(b, q).passive ==> State.Cur(q.machine).physics.anchored)
  {
    MachineContendersAnchored(p.machine, now, b, travel);
    Piece.UpdateChains(p, now, b, travel);
    Piece.UpdatePreserves(p, now, b, travel);
    var q := Piece.Update(p, now, b, travel);
    assert State.Coherent(q.machine.current, State.Cur(q.machine));
  }

  // ---------------------------------------------------------------------------------------
  // Loading the layout

  /** One non-blank field of the layout file: its stripped code and its (row, column) cell. */
  datatype Placement = Placement(code: string, cell: Board.Cell)

  /** Reading order on cells: by row, then by column. */
  predicate Before(x: Board.Cell, y: Board.Cell) {
    x.row < y.row || (x.row == y.row && x.col < y.col)
  }

  /** The fields of one layout row, each stripped of surrounding whitespace. */
  function Stripped(row: seq<string>): (codes: seq<string>)
    ensures |codes| == |row|
  {
    seq(|row|, i requires 0 <= i < |row| => Text.Strip(row[i]))
  }

  /** The whole layout with every field stripped. */
  function Layout(rows: seq<seq<string>>): (grid: seq<seq<string>>)
    ensures |grid| == |rows|
  {
    seq(|rows|, r requires 0 <= r < |rows| => Stripped(rows[r]))
  }

  /** The layout's field at `c`, stripped, is a piece code. */
  predicate FilledAt(rows: seq<seq<string>>, c: Board.Cell) {
    0 <= c.row < |rows| && 0 <= c.col < |rows[c.row]| && |Text.Strip(rows[c.row][c.col])| > 0
  }

  /** `pl` holds the non-blank code `codes[col]` of row `r` at its column, which is at least `c`. */
  predicate KeptFrom(codes: seq<string>, r: int, c: nat, pl: Placement) {
    pl.cell.row == r && c <= pl.cell.col < |codes| && pl.code == codes[pl.cell.col] && |pl.code| > 0
  }

  /** The stripped fields of layout row `r` from column `c` on, keeping each non-blank one. */
  function RowFrom(codes: seq<string>, r: int, c: nat): seq<Placement>
    requires c <= |codes|
    decreases |codes| - c
  {
    if c == |codes| then []
    else if |codes[c]| > 0 then [Placement(codes[c], Board.Cell(r, c))] + RowFrom(codes, r, c + 1)
    else RowFrom(codes, r, c + 1)
  }

  /** The `k`-th kept field is a non-blank field of the row from column `c` on. */
  lemma {:induction false} RowFromSound(codes: seq<string>, r: int, c: nat, k: nat)
    requires c <= |codes| && k < |RowFrom(codes, r, c)|
    ensures KeptFrom(codes, r, c, RowFrom(codes, r, c)[k])
    decreases |codes| - c
  {
    if |codes[c]| > 0 {
      if k > 0 {
        RowFromSound(codes, r, c + 1, k - 1);
      }
    } else {
      RowFromSound(codes, r, c + 1, k);
    }
  }

  /** Kept fields keep their column order. */
  lemma {:induction false} RowFromOrder(codes: seq<string>, r: int, c: nat, i: nat, j: nat)
    requires c <= |codes| && i < j < |RowFrom(codes, r, c)|
    ensures RowFrom(codes, r, c)[i].cell.col < RowFrom(codes, r, c)[j].cell.col
    decreases |codes| - c
  {
    if |codes[c]| > 0 {
      RowFromSound(codes, r, c + 1, j - 1);
      if i > 0 {
        RowFromOrder(codes, r, c + 1, i - 1, j - 1);
      }
    } else {
      RowFromOrder(codes, r, c + 1, i, j);
    }
  }

  /** Every non-blank field of the row from column `c` on is kept, at the returned index. */
  lemma {:induction false} RowFromComplete(codes: seq<string>, r: int, c: nat, d: nat) returns (k: nat)
    requires c <= d < |codes| && |codes[d]| > 0
    ensures k < |RowFrom(codes, r, c)| && RowFrom(codes, r, c)[k] == Placement(codes[d], Board.Cell(r, d))
    decreases d - c
  {
    if c == d {
      k := 0;
    } else {
      k := RowFromComplete(codes, r, c + 1, d);
      if |codes[c]| > 0 {
        k := k + 1;
      }
    }
  }

  /** `pl` holds a non-blank field of the stripped layout `grid`, in row `r` or later. */
  predicate PlacedFrom(grid: seq<seq<string>>, r: nat, pl: Placement) {
    r <= pl.cell.row < |grid| && KeptFrom(grid[pl.cell.row], pl.cell.row, 0, pl)
  }

  /** The rows of the stripped layout from row `r` on, read in order. */
  function RowsFrom(grid: seq<seq<string>>, r: nat): seq<Placement>
    requires r <= |grid|
    decreases |grid| - r
  {
    if r == |grid| then [] else RowFrom(grid[r], r, 0) + RowsFrom(grid, r + 1)
  }

  /** The `k`-th placement from row `r` on is a non-blank field of row `r` or a later one. */
  lemma {:induction false} RowsFromSound(grid: seq<seq<string>>, r: nat, k: nat)
    requires r <= |grid| && k < |RowsFrom(grid, r)|
    ensures PlacedFrom(grid, r, RowsFrom(grid, r)[k])
    decreases |grid| - r
  {
    var head := RowFrom(grid[r], r, 0);
    if k < |head| {
      RowFromSound(grid[r], r, 0, k);
    } else {
      RowsFromSound(grid, r + 1, k - |head|);
    }
  }

  /** Placements come in reading order. */
  lemma {:induction false} RowsFromOrder(grid: seq<seq<string>>, r: nat, i: nat, j: nat)
    requires r <= |grid| && i < j < |RowsFrom(grid, r)|
    ensures Before(RowsFrom(grid, r)[i].cell, RowsFrom(grid, r)[j].cell)
    decreases |grid| - r
  {
    var head := RowFrom(grid[r], r, 0);
    assert RowsFrom(grid, r) == head + RowsFrom(grid, r + 1);
    if j < |head| {
      RowFromOrder(grid[r], r, 0, i, j);
      RowFromSound(grid[r], r, 0, i);
      RowFromSound(grid[r], r, 0, j);
    } else if i < |head| {
      RowFromSound(grid[r], r, 0, i);
      RowsFromSound(grid, r + 1, j - |head|);
    } else {
      RowsFromOrder(grid, r + 1, i - |head|, j - |head|);
    }
  }

  /** Every non-blank field of row `r` or a later one is placed, at the returned index. */
  lemma {:induction false} RowsFromComplete(grid: seq<seq<string>>, r: nat, c: Board.Cell) returns (k: nat)
    requires r <= c.row < |grid| && 0 <= c.col < |grid[c.row]| && |grid[c.row][c.col]| > 0
    ensures k < |RowsFrom(grid, r)| && RowsFrom(grid, r)[k] == Placement(grid[c.row][c.col], c)
    decreases c.row - r
  {
    if r == c.row {
      k := RowFromComplete(grid[r], r, 0, c.col);
    } else {
      k := RowsFromComplete(grid, r + 1, c);
      k := |RowFrom(grid[r], r, 0)| + k;
    }
  }

  /**
   * The nested loops of `_load_pieces_from_csv` over the parsed rows: every non-blank field,
   * stripped, with its cell, in reading order.
   */
  function Placements(rows: seq<seq<string>>): seq<Placement> {
    RowsFrom(Layout(rows), 0)
  }

  /** The stripped layout holds each field stripped. */
  lemma LayoutAt(rows: seq<seq<string>>, c: Board.Cell)
    requires 0 <= c.row < |rows| && 0 <= c.col < |rows[c.row]|
    ensures |Layout(rows)[c.row]| == |rows[c.row]|
    ensures Layout(rows)[c.row][c.col] == Text.Strip(rows[c.row][c.col])
  {
  }

  /** Every placement is the stripped, non-blank field at its cell. */
  lemma PlacementsSound(rows: seq<seq<string>>, k: nat)
    requires k < |Placements(rows)|
    ensures FilledAt(rows, Placements(rows)[k].cell)
    ensures Placements(rows)[k].code == Text.Strip(rows[Placements(rows)[k].cell.row][Placements(rows)[k].cell.col])
  {
    var pl := Placements(rows)[k];
    RowsFromSound(Layout(rows), 0, k);
    LayoutAt(rows, pl.cell);
  }

  /** Placements come in reading order, so no two share a cell. */
  lemma PlacementsOrder(rows: seq<seq<string>>, i: nat, j: nat)
    requires i < j < |Placements(rows)|
    ensures Before(Placements(rows)[i].cell, Placements(rows)[j].cell)
  {
    RowsFromOrder(Layout(rows), 0, i, j);
  }

  /** Every non-blank field of the layout becomes a placement, at the returned index. */
  lemma PlacementsComplete(rows: seq<seq<string>>, c: Board.Cell) returns (k: nat)
    requires FilledAt(rows, c)
    ensures k < |Placements(rows)| && Placements(rows)[k] == Placement(Text.Strip(rows[c.row][c.col]), c)
  {
    LayoutAt(rows, c);
    k := RowsFromComplete(Layout(rows), 0, c);
  }

  /** How many of the first `n` placements carry the code `t`. */
  function Occurrences(places: seq<Placement>, n: nat, t: string): nat
    requires n <= |places|
  {
    if n == 0 then 0 else Occurrences(places, n - 1, t) + (if places[n - 1].code == t then 1 else 0)
  }

  /** The factory can build the piece a placement names. */
  predicate Buildable(root: map<string, PieceFactory.PieceDir>, pl: Placement, b: Board.Board) {
    pl.code in root && PieceFactory.BuildStateMachine(root[pl.code], pl.code, pl.cell, b).Ok?
  }

  /** The last of the first `n` placements that names cell `c`, or -1: its write is the one that stays. */
  function Writer(places: seq<Placement>, n: nat, c: Board.Cell): (w: int)
    requires n <= |places|
    ensures -1 <= w < n
    ensures w >= 0 ==> places[w].cell == c
    ensures forall k :: w < k < n ==> places[k].cell != c
  {
    if n == 0 then -1 else if places[n - 1].cell == c then n - 1 else Writer(places, n - 1, c)
  }

  /** A piece as the factory builds it for a placement, with unique number `u`. */
  predicate Built(p: Piece.Piece, pl: Placement, u: nat, b: Board.Board) {
    && p.unique == u
    && p.moves.pieceType == pl.code
    && p.currentCmd.None? && !p.hasMoved
    && State.Wired(p.machine) && State.Live(p.machine) && State.GetCommand(p.machine).None?
    && (forall n :: n in p.machine.states ==> p.machine.states[n].physics.pos == Board.CellToWorld(b, pl.cell))
  }

  /** After `n` placements: one piece each, built for it and numbered in order. */
  predicate LoadedPieces(f: PieceFactory.Factory, places: seq<Placement>, n: nat, b: Board.Board,
                         fac: PieceFactory.Factory, ps: seq<Piece.Piece>)
    requires n <= |places|
  {
    && |ps| == n
    && fac.nextCode == f.nextCode + n
    && (forall k :: 0 <= k < n ==> Built(ps[k], places[k], f.nextCode + k, b))
  }

  /** After `n` placements the factory has counted them, type by type. */
  ghost predicate LoadedCounts(f: PieceFactory.Factory, places: seq<Placement>, n: nat, fac: PieceFactory.Factory)
    requires n <= |places|
  {
    forall t :: PieceFactory.Count(fac, t) == PieceFactory.Count(f, t) + Occurrences(places, n, t)
  }

  /** The per-type number of the k-th placement: one more than the pieces of its type before it. */
  function Ordinal(f: PieceFactory.Factory, places: seq<Placement>, k: nat): nat
    requires k < |places|
  {
    PieceFactory.Count(f, places[k].code) + Occurrences(places, k, places[k].code) + 1
  }

  /** Each id is the placement's type and its per-type number. */
  predicate LoadedIds(f: PieceFactory.Factory, places: seq<Placement>, n: nat, ps: seq<Piece.Piece>)
    requires n <= |places| && |ps| == n
  {
    forall k :: 0 <= k < n ==> ps[k].id == PieceFactory.MakeId(places[k].code, Ordinal(f, places, k))
  }

  /** The occupancy holds exactly the cells written so far, each with its last writer's number. */
  ghost predicate LoadedCells(f: PieceFactory.Factory, places: seq<Placement>, n: nat, pos: map<Board.Cell, nat>)
    requires n <= |places|
  {
    forall c :: (c in pos <==> Writer(places, n, c) >= 0) && (c in pos ==> pos[c] == f.nextCode + Writer(places, n, c))
  }

  /** Everything the loading loop has established after `n` placements. */
  ghost predicate Loaded(f: PieceFactory.Factory, places: seq<Placement>, n: nat, b: Board.Board,
                         st: (PieceFactory.Factory, seq<Piece.Piece>, map<Board.Cell, nat>))
    requires n <= |places|
  {
    && LoadedPieces(f, places, n, b, st.0, st.1)
    && LoadedCounts(f, places, n, st.0)
    && LoadedIds(f, places, n, st.1)
    && LoadedCells(f, places, n, st.2)
  }

  /**
   * The body of the loading loop over a list of placements: create each piece with the
   * factory, list it, and write its unique number into its cell (a later write wins). The
   * first placement the factory cannot build stops the loop with its error.
   */
  method LoadPieces(f: PieceFactory.Factory, root: map<string, PieceFactory.PieceDir>, places: seq<Placement>, b: Board.Board)
    returns (r: Result<(PieceFactory.Factory, seq<Piece.Piece>, map<Board.Cell, nat>), PieceFactory.BuildError>)
    ensures r.Ok? <==> forall i :: 0 <= i < |places| ==> Buildable(root, places[i], b)
    ensures r.Ok? ==> Loaded(f, places, |places|, b, r.value)
  {
    var st: (PieceFactory.Factory, seq<Piece.Piece>, map<Board.Cell, nat>) := (f, [], map[]);
    LoadedStart(f, places, b);
    for i := 0 to |places|
      invariant forall k :: 0 <= k < i ==> Buildable(root, places[k], b)
      invariant Loaded(f, places, i, b, st)
    {
      var next := LoadOne(f, root, places, b, i, st);
      if next.Err? {
        assert !Buildable(root, places[i], b);
        return Err(next.error);
      }
      st := next.value;
    }
    return Ok(st);
  }

  lemma LoadedStart(f: PieceFactory.Factory, places: seq<Placement>, b: Board.Board)
    ensures Loaded(f, places, 0, b, (f, [], map[]))
  {
  }

  /** One turn of the loading loop: `create_piece` for the i-th placement, then the two writes. */
  method LoadOne(f: PieceFactory.Factory, root: map<string, PieceFactory.PieceDir>, places: seq<Placement>, b: Board.Board,
                 i: nat, st: (PieceFactory.Factory, seq<Piece.Piece>, map<Board.Cell, nat>))
    returns (r: Result<(PieceFactory.Factory, seq<Piece.Piece>, map<Board.Cell, nat>), PieceFactory.BuildError>)
    requires i < |places| && Loaded(f, places, i, b, st)
    ensures r.Ok? <==> Buildable(root, places[i], b)
    ensures r.Ok? ==> Loaded(f, places, i + 1, b, r.value)
  {
    var step := PieceFactory.CreatePiece(st.0, root, places[i].code, places[i].cell, b);
    LoadStep(f, root, places, b, i, st);
    if step.Err? {
      return Err(step.error);
    }
    return Ok((step.value.0, st.1 + [step.value.1], st.2[places[i].cell := step.value.1.unique]));
  }

  /** One turn of the loading loop succeeds exactly for a buildable placement, and keeps the loop's invariant. */
  lemma LoadStep(f: PieceFactory.Factory, root: map<string, PieceFactory.PieceDir>, places: seq<Placement>, b: Board.Board,
                 i: nat, st: (PieceFactory.Factory, seq<Piece.Piece>, map<Board.Cell, nat>))
    requires i < |places| && Loaded(f, places, i, b, st)
    ensures var step := PieceFactory.CreatePiece(st.0, root, places[i].code, places[i].cell, b);
            && (step.Ok? <==> Buildable(root, places[i], b))
            && (step.Ok? ==> Loaded(f, places, i + 1, b, (step.value.0, st.1 + [step.value.1], st.2[places[i].cell := step.value.1.unique])))
  {
    var step := PieceFactory.CreatePiece(st.0, root, places[i].code, places[i].cell, b);
    CreatesIffBuildable(st.0, root, places[i], b);
    if step.Ok? {
      LoadStepOk(f, root, places, b, i, st, step.value.0, step.value.1);
    }
  }

  /** What one turn of the loading loop adds to what the loop has established. */
  lemma Extend(f: PieceFactory.Factory, places: seq<Placement>, b: Board.Board,
               i: nat, st: (PieceFactory.Factory, seq<Piece.Piece>, map<Board.Cell, nat>),
               fac2: PieceFactory.Factory, p: Piece.Piece)
    requires i < |places| && Loaded(f, places, i, b, st)
    requires Built(p, places[i], st.0.nextCode, b) && fac2.nextCode == st.0.nextCode + 1
    requires forall t :: PieceFactory.Count(fac2, t) == PieceFactory.Count(st.0, t) + (if t == places[i].code then 1 else 0)
    requires p.id == PieceFactory.MakeId(places[i].code, PieceFactory.Count(st.0, places[i].code) + 1)
    ensures Loaded(f, places, i + 1, b, (fac2, st.1 + [p], st.2[places[i].cell := p.unique]))
  {
    var next := (fac2, st.1 + [p], st.2[places[i].cell := p.unique]);
    StepPieces(f, places, b, i, st.0, st.1, fac2, p);
    StepCounts(f, places, i, st.0, fac2);
    StepIds(f, places, i, st.0, st.1, p);
    StepCells(f, places, i, st.2, p.unique);
    assert LoadedPieces(f, places, i + 1, b, next.0, next.1);
    assert LoadedCounts(f, places, i + 1, next.0);
    assert LoadedIds(f, places, i + 1, next.1);
    assert LoadedCells(f, places, i + 1, next.2);
  }

  /** A turn of the loading loop whose `create_piece` succeeds keeps the loop's invariant. */
  lemma LoadStepOk(f: PieceFactory.Factory, root: map<string, PieceFactory.PieceDir>, places: seq<Placement>, b: Board.Board,
                   i: nat, st: (PieceFactory.Factory, seq<Piece.Piece>, map<Board.Cell, nat>),
                   fac2: PieceFactory.Factory, p: Piece.Piece)
    requires i < |places| && Loaded(f, places, i, b, st)
    requires PieceFactory.CreatePiece(st.0, root, places[i].code, places[i].cell, b) == Ok((fac2, p))
    ensures Loaded(f, places, i + 1, b, (fac2, st.1 + [p], st.2[places[i].cell := p.unique]))
  {
    CreatedStep(st.0, root, places[i], b, fac2, p);
    Extend(f, places, b, i, st, fac2, p);
  }

  /** The facts about one `create_piece` call the loading loop needs. */
  lemma CreatedStep(fac: PieceFactory.Factory, root: map<string, PieceFactory.PieceDir>, pl: Placement, b: Board.Board,
                    fac2: PieceFactory.Factory, p: Piece.Piece)
    requires PieceFactory.CreatePiece(fac, root, pl.code, pl.cell, b) == Ok((fac2, p))
    ensures Built(p, pl, fac.nextCode, b) && fac2.nextCode == fac.nextCode + 1
    ensures forall t :: PieceFactory.Count(fac2, t) == PieceFactory.Count(fac, t) + (if t == pl.code then 1 else 0)
    ensures p.id == PieceFactory.MakeId(pl.code, PieceFactory.Count(fac, pl.code) + 1)
  {
    Created(fac, root, pl, b);
    forall t ensures PieceFactory.Count(fac2, t) == PieceFactory.Count(fac, t) + (if t == pl.code then 1 else 0) {
      CreatedCount(fac, root, pl.code, pl.cell, b, t);
    }
    CreatedId(fac, root, pl.code, pl.cell, b);
  }

  lemma StepPieces(f: PieceFactory.Factory, places: seq<Placement>, b: Board.Board, i: nat,
                   fac: PieceFactory.Factory, ps: seq<Piece.Piece>, fac2: PieceFactory.Factory, p: Piece.Piece)
    requires i < |places| && LoadedPieces(f, places, i, b, fac, ps)
    requires Built(p, places[i], fac.nextCode, b) && fac2.nextCode == fac.nextCode + 1
    ensures LoadedPieces(f, places, i + 1, b, fac2, ps + [p])
  {
    var all := ps + [p];
    forall k | 0 <= k < i + 1 ensures Built(all[k], places[k], f.nextCode + k, b) {
      if k < i {
        assert all[k] == ps[k];
      }
    }
  }

  lemma StepCounts(f: PieceFactory.Factory, places: seq<Placement>, i: nat, fac: PieceFactory.Factory, fac2: PieceFactory.Factory)
    requires i < |places| && LoadedCounts(f, places, i, fac)
    requires forall t :: PieceFactory.Count(fac2, t) == PieceFactory.Count(fac, t) + (if t == places[i].code then 1 else 0)
    ensures LoadedCounts(f, places, i + 1, fac2)
  {
  }

  lemma StepIds(f: PieceFactory.Factory, places: seq<Placement>, i: nat, fac: PieceFactory.Factory, ps: seq<Piece.Piece>, p: Piece.Piece)
    requires i < |places| && |ps| == i
    requires LoadedCounts(f, places, i, fac) && LoadedIds(f, places, i, ps)
    requires p.id == PieceFactory.MakeId(places[i].code, PieceFactory.Count(fac, places[i].code) + 1)
    ensures LoadedIds(f, places, i + 1, ps + [p])
  {
    var all := ps + [p];
    forall k | 0 <= k < i + 1
      ensures all[k].id == PieceFactory.MakeId(places[k].code, Ordinal(f, places, k))
    {
      if k < i {
        assert all[k] == ps[k];
      } else {
        assert Ordinal(f, places, k) == PieceFactory.Count(fac, places[i].code) + 1;
      }
    }
  }

  lemma StepCells(f: PieceFactory.Factory, places: seq<Placement>, i: nat, pos: map<Board.Cell, nat>, u: nat)
    requires i < |places| && LoadedCells(f, places, i, pos) && u == f.nextCode + i
    ensures LoadedCells(f, places, i + 1, pos[places[i].cell := u])
  {
  }

  /** `create_piece` succeeds exactly on buildable placements, whatever the factory's counts. */
  lemma CreatesIffBuildable(f: PieceFactory.Factory, root: map<string, PieceFactory.PieceDir>, pl: Placement, b: Board.Board)
    ensures PieceFactory.CreatePiece(f, root, pl.code, pl.cell, b).Ok? <==> Buildable(root, pl, b)
  {
  }

  /** What `create_piece` returns for a buildable placement. */
  lemma Created(f: PieceFactory.Factory, root: map<string, PieceFactory.PieceDir>, pl: Placement, b: Board.Board)
    requires PieceFactory.CreatePiece(f, root, pl.code, pl.cell, b).Ok?
    ensures var r := PieceFactory.CreatePiece(f, root, pl.code, pl.cell, b).value;
      && Built(r.1, pl, f.nextCode, b)
  {
    CreatedMachine(f, root, pl.code, pl.cell, b);
  }

  /** `create_piece` counts one more piece of its own type and no other. */
  lemma CreatedCount(f: PieceFactory.Factory, root: map<string, PieceFactory.PieceDir>, t: string, cell: Board.Cell, b: Board.Board, u: string)
    requires PieceFactory.CreatePiece(f, root, t, cell, b).Ok?
    ensures PieceFactory.Count(PieceFactory.CreatePiece(f, root, t, cell, b).value.0, u)
              == PieceFactory.Count(f, u) + (if u == t then 1 else 0)
  {
  }

  /** The machine of a created piece is wired, live, idle and standing on the placement's cell. */
  lemma CreatedMachine(f: PieceFactory.Factory, root: map<string, PieceFactory.PieceDir>, t: string, cell: Board.Cell, b: Board.Board)
    requires PieceFactory.CreatePiece(f, root, t, cell, b).Ok?
    ensures var m := PieceFactory.CreatePiece(f, root, t, cell, b).value.1.machine;
      && State.Wired(m) && State.Live(m) && State.GetCommand(m).None?
      && forall n :: n in m.states ==> m.states[n].physics.pos == Board.CellToWorld(b, cell)
  {
    PieceFactory.BuiltMachineIsWired(root[t], t, cell, b);
  }

  lemma CreatedId(f: PieceFactory.Factory, root: map<string, PieceFactory.PieceDir>, t: string, cell: Board.Cell, b: Board.Board)
    requires PieceFactory.CreatePiece(f, root, t, cell, b).Ok?
    ensures PieceFactory.CreatePiece(f, root, t, cell, b).value.1.id == PieceFactory.MakeId(t, PieceFactory.Count(f, t) + 1)
  {
    PieceFactory.CreatedBuilt(f, root, t, cell, b);
    PieceFactory.CreatedRegisters(f, root, t, cell, b);
    var built := PieceFactory.BuildStateMachine(root[t], t, cell, b).value;
    PieceFactory.Registered(f, t, built.0, built.1);
  }

  // ---------------------------------------------------------------------------------------
  // Construction and the main loop

  /** Every pawn code in the layout has a second character (the colour the move rules read). */
  predicate PawnCodesNamed(rows: seq<seq<string>>) {
    forall r, c :: 0 <= r < |rows| && 0 <= c < |rows[r]| && Moves.IsPawn(Text.Strip(rows[r][c]))
      ==> |Text.Strip(rows[r][c])| >= 2
  }

  /** The k-th piece is built for the k-th placement, with unique number k. */
  predicate LaidPieces(b: Board.Board, pl: seq<Placement>, ps: seq<Piece.Piece>) {
    |ps| == |pl| && forall k :: 0 <= k < |pl| ==> Built(ps[k], pl[k], k, b)
  }

  /** The k-th piece is named by its type and its per-type number. */
  predicate LaidIds(pl: seq<Placement>, ps: seq<Piece.Piece>)
    requires |ps| == |pl|
  {
    forall k :: 0 <= k < |pl| ==> ps[k].id == PieceFactory.MakeId(pl[k].code, Occurrences(pl, k, pl[k].code) + 1)
  }

  /** The occupancy maps exactly the placements' cells, each to the piece placed there. */
  predicate LaidCells(pl: seq<Placement>, pos: map<Board.Cell, nat>) {
    && (forall c :: c in pos ==> pos[c] < |pl| && pl[pos[c]].cell == c)
    && (forall k :: 0 <= k < |pl| ==> pl[k].cell in pos)
  }

  /** A game as the constructor leaves it for placements `pl`. */
  predicate Laid(b: Board.Board, pl: seq<Placement>, g: Game) {
    && g.board == b
    && LaidPieces(b, pl, g.pieces)
    && LaidIds(pl, g.pieces)
    && LaidCells(pl, g.posToPiece)
  }

  /**
   * `Game.__init__` as far as the pieces go: a fresh factory creates a piece for every
   * non-blank field of the layout, in reading order, and writes it into its cell. The first
   * field the factory cannot build raises.
   */
  method Setup(b: Board.Board, root: map<string, PieceFactory.PieceDir>, rows: seq<seq<string>>)
    returns (r: Result<Game, PieceFactory.BuildError>)
    ensures r.Ok? <==> forall k :: 0 <= k < |Placements(rows)| ==> Buildable(root, Placements(rows)[k], b)
    ensures r.Ok? ==> Laid(b, Placements(rows), r.value)
  {
    var pl := Placements(rows);
    var loaded := LoadPieces(PieceFactory.Empty, root, pl, b);
    if loaded.Err? {
      return Err(loaded.error);
    }
    LoadedLaid(b, pl, loaded.value);
    return Ok(Game(b, loaded.value.1, loaded.value.2));
  }

  /** What the loading loop establishes, from a fresh factory over distinct cells, is a laid game. */
  lemma LoadedLaid(b: Board.Board, pl: seq<Placement>, st: (PieceFactory.Factory, seq<Piece.Piece>, map<Board.Cell, nat>))
    requires Loaded(PieceFactory.Empty, pl, |pl|, b, st)
    ensures Laid(b, pl, Game(b, st.1, st.2))
  {
    LoadedLaidPieces(b, pl, st.0, st.1);
    LoadedLaidIds(pl, st.1);
    LoadedLaidCells(pl, st.2);
  }

  lemma LoadedLaidPieces(b: Board.Board, pl: seq<Placement>, fac: PieceFactory.Factory, ps: seq<Piece.Piece>)
    requires LoadedPieces(PieceFactory.Empty, pl, |pl|, b, fac, ps)
    ensures LaidPieces(b, pl, ps)
  {
  }

  lemma LoadedLaidIds(pl: seq<Placement>, ps: seq<Piece.Piece>)
    requires |ps| == |pl| && LoadedIds(PieceFactory.Empty, pl, |pl|, ps)
    ensures LaidIds(pl, ps)
  {
    forall k | 0 <= k < |pl|
      ensures ps[k].id == PieceFactory.MakeId(pl[k].code, Occurrences(pl, k, pl[k].code) + 1)
    {
      assert ps[k].id == PieceFactory.MakeId(pl[k].code, Ordinal(PieceFactory.Empty, pl, k));
    }
  }

  /** Each occupied cell names the placement that last wrote it, and every placement's cell is occupied. */
  lemma LoadedLaidCells(pl: seq<Placement>, pos: map<Board.Cell, nat>)
    requires LoadedCells(PieceFactory.Empty, pl, |pl|, pos)
    ensures LaidCells(pl, pos)
  {
    forall c | c in pos
      ensures pos[c] < |pl| && pl[pos[c]].cell == c
    {
      assert Writer(pl, |pl|, c) >= 0;
    }
    forall k | 0 <= k < |pl|
      ensures pl[k].cell in pos
    {
      assert Writer(pl, |pl|, pl[k].cell) >= k;
    }
  }

  /** The occupancy of a laid game holds exactly the layout's non-blank fields. */
  lemma LaidOccupancy(rows: seq<seq<string>>, g: Game, c: Board.Cell)
    requires Laid(g.board, Placements(rows), g)
    ensures c in g.posToPiece <==> FilledAt(rows, c)
  {
    if c in g.posToPiece {
      PlacementsSound(rows, g.posToPiece[c]);
    }
    if FilledAt(rows, c) {
      var k := PlacementsComplete(rows, c);
    }
  }

  /** A laid piece stands on its placement's cell. */
  lemma LaidStanding(b: Board.Board, pl: seq<Placement>, g: Game, k: nat)
    requires Laid(b, pl, g) && b.Valid() && k < |pl|
    ensures g.pieces[k].machine.current in g.pieces[k].machine.states
    ensures CellOf(b, g.pieces[k]) == pl[k].cell
  {
    assert Built(g.pieces[k], pl[k], k, b);
    assert State.Live(g.pieces[k].machine);
    Board.WorldRoundTrip(b, pl[k].cell);
  }

  /** A game laid from a layout whose pawn codes name a colour, on a valid board, is valid. */
  lemma LaidValid(rows: seq<seq<string>>, g: Game)
    requires Laid(g.board, Placements(rows), g) && g.board.Valid() && PawnCodesNamed(rows)
    ensures Valid(g)
  {
    var pl := Placements(rows);
    PawnsNamed(rows);
    LaidHealthy(pl, g);
    LaidOrdered(pl, g);
    LaidIndexed(pl, g);
  }

  /** The layout's condition on pawn codes, read off its placements. */
  lemma PawnsNamed(rows: seq<seq<string>>)
    requires PawnCodesNamed(rows)
    ensures forall k :: 0 <= k < |Placements(rows)| && Moves.IsPawn(Placements(rows)[k].code) ==> |Placements(rows)[k].code| >= 2
  {
    forall k | 0 <= k < |Placements(rows)|
      ensures Moves.IsPawn(Placements(rows)[k].code) ==> |Placements(rows)[k].code| >= 2
    {
      PlacementsSound(rows, k);
    }
  }

  lemma LaidHealthy(pl: seq<Placement>, g: Game)
    requires LaidPieces(g.board, pl, g.pieces) && LaidIds(pl, g.pieces)
    requires forall k :: 0 <= k < |pl| && Moves.IsPawn(pl[k].code) ==> |pl[k].code| >= 2
    ensures Healthy(g.pieces)
  {
    forall i | 0 <= i < |g.pieces|
      ensures CommandHandler.PieceReady(g.pieces[i]) && State.Live(g.pieces[i].machine)
    {
      LaidPieceReady(pl, g.board, g.pieces, i);
    }
  }

  lemma LaidPieceReady(pl: seq<Placement>, b: Board.Board, ps: seq<Piece.Piece>, i: nat)
    requires LaidPieces(b, pl, ps) && LaidIds(pl, ps) && i < |ps|
    requires Moves.IsPawn(pl[i].code) ==> |pl[i].code| >= 2
    ensures CommandHandler.PieceReady(ps[i]) && State.Live(ps[i].machine)
  {
    BuiltReady(ps[i], pl[i], i, b, Occurrences(pl, i, pl[i].code) + 1);
  }

  /** A piece built for a placement, named by its type, is ready once its pawn code names a colour. */
  lemma BuiltReady(p: Piece.Piece, pl: Placement, u: nat, b: Board.Board, n: nat)
    requires Built(p, pl, u, b) && p.id == PieceFactory.MakeId(pl.code, n)
    requires Moves.IsPawn(pl.code) ==> |pl.code| >= 2
    ensures CommandHandler.PieceReady(p) && State.Live(p.machine)
  {
    assert |PieceFactory.MakeId(pl.code, n)| >= 2;
  }

  lemma LaidOrdered(pl: seq<Placement>, g: Game)
    requires Laid(g.board, pl, g)
    ensures Ordered(g.pieces)
  {
    forall i, j | 0 <= i < j < |g.pieces|
      ensures g.pieces[i].unique < g.pieces[j].unique
    {
      assert Built(g.pieces[i], pl[i], i, g.board) && Built(g.pieces[j], pl[j], j, g.board);
    }
  }

  lemma LaidIndexed(pl: seq<Placement>, g: Game)
    requires Laid(g.board, pl, g)
    ensures CommandHandler.Indexed(g.pieces, g.posToPiece)
  {
    forall c | c in g.posToPiece
      ensures CommandHandler.Find(g.pieces, g.posToPiece[c]).Some?
    {
      var k := g.posToPiece[c];
      assert Built(g.pieces[k], pl[k], k, g.board);
    }
  }

  /** `reset(start_ms)` on every piece, in order, before the first tick. */
  function Start(ps: seq<Piece.Piece>, b: Board.Board, travel: Physics.Travel): (r: seq<Piece.Piece>)
    requires Placed(ps)
    requires forall i :: 0 <= i < |ps| && ps[i].currentCmd.Some? ==>
               Physics.Fits(State.Cur(ps[i].machine).physics.kind, ps[i].currentCmd.value)
    ensures |r| == |ps|
    ensures forall i :: 0 <= i < |ps| ==> Descends(ps[i], r[i]) && Descends(r[i], ps[i])
    ensures forall i :: 0 <= i < |ps| ==> r[i].machine.current == ps[i].machine.current
    ensures Placed(r)
    ensures forall i :: 0 <= i < |ps| && ps[i].currentCmd.Some? ==> Piece.GetCommand(r[i]) == ps[i].currentCmd
    ensures forall i :: 0 <= i < |ps| && ps[i].currentCmd.None? ==> r[i] == ps[i]
  {
    seq(|ps|, i requires 0 <= i < |ps| => Piece.Reset(ps[i], b, travel))
  }

  /** Pieces that have never taken a command come through the start unchanged. */
  lemma StartFresh(ps: seq<Piece.Piece>, b: Board.Board, travel: Physics.Travel)
    requires Placed(ps) && forall i :: 0 <= i < |ps| ==> ps[i].currentCmd.None?
    ensures Start(ps, b, travel) == ps
  {
  }

  /** The main loop's input: the clock reading of one pass and the commands queued before it. */
  datatype Frame = Frame(now: int, queue: seq<Command>)

  /** Every queued command has the shape the input handler produces. */
  predicate Feedable(frames: seq<Frame>) {
    forall k, j :: 0 <= k < |frames| && 0 <= j < |frames[k].queue| ==> CommandHandler.Queued(frames[k].queue[j])
  }

  /** Some queued command names a square that does not parse. */
  predicate Garbled(frames: seq<Frame>) {
    exists k, j :: 0 <= k < |frames| && 0 <= j < |frames[k].queue| && Malformed(frames[k].queue[j])
  }

  lemma GarbledSplit(frames: seq<Frame>)
    requires |frames| > 0
    ensures Garbled(frames) <==>
              (exists j :: 0 <= j < |frames[0].queue| && Malformed(frames[0].queue[j])) || Garbled(frames[1..])
  {
    if Garbled(frames) {
      var k, j :| 0 <= k < |frames| && 0 <= j < |frames[k].queue| && Malformed(frames[k].queue[j]);
      if k > 0 {
        assert frames[1..][k - 1] == frames[k];
      }
    }
    if Garbled(frames[1..]) {
      var k, j :| 0 <= k < |frames[1..]| && 0 <= j < |frames[1..][k].queue| && Malformed(frames[1..][k].queue[j]);
      assert frames[k + 1] == frames[1..][k];
    }
  }

  /** Descent is transitive. */
  lemma AncestorTrans(a: seq<Piece.Piece>, b: seq<Piece.Piece>, c: seq<Piece.Piece>)
    requires forall i :: 0 <= i < |b| ==> HasAncestor(a, b[i])
    requires forall i :: 0 <= i < |c| ==> HasAncestor(b, c[i])
    ensures forall i :: 0 <= i < |c| ==> HasAncestor(a, c[i])
  {
    forall i | 0 <= i < |c|
      ensures HasAncestor(a, c[i])
    {
      var j :| 0 <= j < |b| && Descends(b[j], c[i]);
      var k :| 0 <= k < |a| && Descends(a[k], b[j]);
      assert Descends(a[k], c[i]);
    }
  }

  /** What one pass of the main loop needs and gives. */
  lemma TickStep(g: Game, frames: seq<Frame>, travel: Physics.Travel)
    requires Valid(g) && Feedable(frames) && |frames| > 0
    ensures forall j :: 0 <= j < |frames[0].queue| ==> CommandHandler.Queued(frames[0].queue[j])
    ensures Feedable(frames[1..])
    ensures Tick(g, frames[0].now, frames[0].queue, travel).Err? ==> Garbled(frames)
    ensures Garbled(frames[1..]) ==> Garbled(frames)
    ensures !Garbled(frames) ==> Tick(g, frames[0].now, frames[0].queue, travel).Ok?
    ensures Tick(g, frames[0].now, frames[0].queue, travel).Ok? ==> Valid(Tick(g, frames[0].now, frames[0].queue, travel).value)
  {
    var f := frames[0];
    assert forall j :: 0 <= j < |f.queue| ==> CommandHandler.Queued(f.queue[j]);
    GarbledSplit(frames);
    forall k, j | 0 <= k < |frames[1..]| && 0 <= j < |frames[1..][k].queue|
      ensures CommandHandler.Queued(frames[1..][k].queue[j])
    {
      assert frames[1..][k] == frames[k + 1];
    }
    if Tick(g, f.now, f.queue, travel).Ok? {
      TickKeepsValid(g, f.now, f.queue, travel);
    }
  }

  /**
   * `run` after the start: one tick per frame while no side has won. A malformed square in
   * the queue raises and ends the run; a won game is left as it is.
   */
  function Run(g: Game, frames: seq<Frame>, travel: Physics.Travel): (r: Result<Game, Board.NotationError>)
    requires Valid(g) && Feedable(frames)
    ensures IsWin(g.pieces) ==> r == Ok(g)
    ensures r.Err? ==> Garbled(frames)
    ensures !Garbled(frames) ==> r.Ok?
    ensures r.Ok? ==> Valid(r.value)
    decreases |frames|
  {
    if IsWin(g.pieces) || |frames| == 0 then Ok(g)
    else
      TickStep(g, frames, travel);
      var t := Tick(g, frames[0].now, frames[0].queue, travel);
      if t.Err? then Err(t.error) else Run(t.value, frames[1..], travel)
  }

  /** An unwon game whose first pass has a malformed square queued fails in that pass. */
  lemma RunFailsOnFirstGarbled(g: Game, frames: seq<Frame>, travel: Physics.Travel)
    requires Valid(g) && Feedable(frames) && |frames| > 0 && !IsWin(g.pieces)
    requires exists j :: 0 <= j < |frames[0].queue| && Malformed(frames[0].queue[j])
    ensures Run(g, frames, travel).Err?
  {
    TickStep(g, frames, travel);
  }

  /** A run keeps the board and never adds a piece or a king. */
  lemma {:induction false} RunShrinks(g: Game, frames: seq<Frame>, travel: Physics.Travel)
    requires Valid(g) && Feedable(frames) && Run(g, frames, travel).Ok?
    ensures var r := Run(g, frames, travel).value;
      r.board == g.board && |r.pieces| <= |g.pieces| && |Kings(r.pieces)| <= |Kings(g.pieces)|
    decreases |frames|
  {
    if !IsWin(g.pieces) && |frames| > 0 {
      TickStep(g, frames, travel);
      var f := frames[0];
      var next := Tick(g, f.now, f.queue, travel).value;
      TickKeepsWin(g, f.now, f.queue, travel);
      assert Run(g, frames, travel) == Run(next, frames[1..], travel);
      RunShrinks(next, frames[1..], travel);
    }
  }

  /** Every piece at the end of a run is a later version of a piece at its start. */
  lemma {:induction false} RunDescends(g: Game, frames: seq<Frame>, travel: Physics.Travel)
    requires Valid(g) && Feedable(frames) && Run(g, frames, travel).Ok?
    ensures var r := Run(g, frames, travel).value;
      forall i :: 0 <= i < |r.pieces| ==> HasAncestor(g.pieces, r.pieces[i])
    decreases |frames|
  {
    if IsWin(g.pieces) || |frames| == 0 {
      forall i | 0 <= i < |g.pieces| ensures HasAncestor(g.pieces, g.pieces[i]) {
        assert Descends(g.pieces[i], g.pieces[i]);
      }
    } else {
      TickStep(g, frames, travel);
      var f := frames[0];
      var next := Tick(g, f.now, f.queue, travel).value;
      TickDescends(g, f.now, f.queue, travel);
      assert Run(g, frames, travel) == Run(next, frames[1..], travel);
      RunDescends(next, frames[1..], travel);
      AncestorTrans(g.pieces, next.pieces, Run(next, frames[1..], travel).value.pieces);
    }
  }

  /** A piece that the layout placed: its unique number indexes the placements, and it kept their type and name. */
  predicate FromLayout(pl: seq<Placement>, q: Piece.Piece) {
    && q.unique < |pl|
    && q.moves.pieceType == pl[q.unique].code
    && q.id == PieceFactory.MakeId(pl[q.unique].code, Occurrences(pl, q.unique, pl[q.unique].code) + 1)
  }

  /** Why a game ends early: a piece the factory cannot build, or a queued square that does not parse. */
  datatype Failure = LoadFailed(build: PieceFactory.BuildError) | BadSquare(notation: Board.NotationError)

  /**
   * A whole game: construct it from the layout, reset every piece, then run the frames. Every
   * piece still on the board at the end is one the layout placed.
   */
  method Play(b: Board.Board, root: map<string, PieceFactory.PieceDir>, rows: seq<seq<string>>,
              frames: seq<Frame>, travel: Physics.Travel)
    returns (r: Result<Game, Failure>)
    requires b.Valid() && PawnCodesNamed(rows) && Feedable(frames)
    ensures (r.Err? && r.error.LoadFailed?) <==>
              exists k :: 0 <= k < |Placements(rows)| && !Buildable(root, Placements(rows)[k], b)
    ensures r.Err? && r.error.BadSquare? ==> Garbled(frames)
    ensures !Garbled(frames) && r.Err? ==> r.error.LoadFailed?
    ensures r.Ok? ==> Valid(r.value) && r.value.board == b && |r.value.pieces| <= |Placements(rows)|
    ensures r.Ok? ==> forall i :: 0 <= i < |r.value.pieces| ==> FromLayout(Placements(rows), r.value.pieces[i])
  {
    var pl := Placements(rows);
    var built := Setup(b, root, rows);
    if built.Err? {
      return Err(LoadFailed(built.error));
    }
    var g := built.value;
    LaidValid(rows, g);
    HealthyPlaced(g.pieces);
    StartFresh(g.pieces, b, travel);
    var started := Game(b, Start(g.pieces, b, travel), g.posToPiece);
    assert started == g;
    var res := Run(started, frames, travel);
    if res.Err? {
      return Err(BadSquare(res.error));
    }
    RunShrinks(started, frames, travel);
    RunDescends(started, frames, travel);
    LaidAncestors(pl, g, res.value.pieces);
    return Ok(res.value);
  }

  /** A descendant of a laid piece is one the layout placed. */
  lemma LaidAncestors(pl: seq<Placement>, g: Game, qs: seq<Piece.Piece>)
    requires Laid(g.board, pl, g)
    requires forall i :: 0 <= i < |qs| ==> HasAncestor(g.pieces, qs[i])
    ensures forall i :: 0 <= i < |qs| ==> FromLayout(pl, qs[i])
  {
    forall i | 0 <= i < |qs|
      ensures FromLayout(pl, qs[i])
    {
      assert HasAncestor(g.pieces, qs[i]);
      var k :| 0 <= k < |g.pieces| && Descends(g.pieces[k], qs[i]);
      assert Built(g.pieces[k], pl[k], k, g.board);
    }
  }
}
