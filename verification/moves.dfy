/**
 * Per-piece-type move rules: parsing of the `dr,dc` rule lines and generation of the
 * candidate destinations, with the special forward-walk and capture logic for pawns.
 */
module Moves {
  import opened Wrappers
  import Text
  import Board

  /** One relative offset of the rule list. */
  datatype Rule = Rule(dr: int, dc: int)

  /** The rules of one piece type, the type's name and the board dimensions (rows, cols). */
  datatype MoveTable = MoveTable(rules: seq<Rule>, pieceType: string, rows: int, cols: int)

  /** Loading fails on the first line that is not two comma-separated integers. */
  datatype LoadError = MalformedLine(index: nat)

  /** Cell to the id of the piece standing on it (`pos_to_piece` seen through `get_id()`). */
  type Occupancy = map<Board.Cell, string>

  /** One line of the rule file: `line.strip().split(',')` must give two integer fields. */
  function ParseRuleLine(line: string): Option<Rule> {
    var parts := Text.Split(Text.Strip(line), ',');
    if |parts| != 2 then None
    else match (Text.ParseInt(parts[0]), Text.ParseInt(parts[1]))
      case (Some(dr), Some(dc)) => Some(Rule(dr, dc))
      case _ => None
  }

  /** Keeps the parsed rules in order, or reports the first line that failed to parse. */
  function Collect(parsed: seq<Option<Rule>>): (r: Result<seq<Rule>, LoadError>)
    ensures r.Ok? ==> |r.value| == |parsed|
    ensures r.Err? ==> r.error.index < |parsed|
  {
    if |parsed| == 0 then Ok([])
    else
      match parsed[0]
      case None => Err(MalformedLine(0))
      case Some(rule) =>
        match Collect(parsed[1..])
        case Err(e) => Err(MalformedLine(e.index + 1))
        case Ok(rest) => Ok([rule] + rest)
  }

  lemma {:induction false} CollectOk(parsed: seq<Option<Rule>>)
    ensures Collect(parsed).Ok? <==> forall i :: 0 <= i < |parsed| ==> parsed[i].Some?
    ensures Collect(parsed).Ok? ==> forall i :: 0 <= i < |parsed| ==> Some(Collect(parsed).value[i]) == parsed[i]
  {
    if |parsed| > 0 {
      var tail := parsed[1..];
      CollectOk(tail);
      assert forall i :: 1 <= i < |parsed| ==> parsed[i] == tail[i - 1];
      var r := Collect(parsed);
      if parsed[0].Some? && Collect(tail).Ok? {
        var rest := Collect(tail).value;
        assert r.value == [parsed[0].value] + rest;
        assert forall i :: 1 <= i < |parsed| ==> r.value[i] == rest[i - 1];
      }
    }
  }

  lemma {:induction false} CollectErr(parsed: seq<Option<Rule>>)
    ensures Collect(parsed).Err? ==> parsed[Collect(parsed).error.index].None?
    ensures Collect(parsed).Err? ==> forall i :: 0 <= i < Collect(parsed).error.index ==> parsed[i].Some?
  {
    if |parsed| > 0 {
      var tail := parsed[1..];
      CollectErr(tail);
      var r := Collect(parsed);
      if r.Err? && parsed[0].Some? {
        var k := Collect(tail).error.index;
        assert r.error.index == k + 1;
        assert parsed[k + 1] == tail[k];
        assert forall i :: 1 <= i < k + 1 ==> parsed[i] == tail[i - 1];
      }
    }
  }

  /** The per-line parse results, in file order. */
  function ParseLines(lines: seq<string>): (parsed: seq<Option<Rule>>)
    ensures |parsed| == |lines|
    ensures forall i :: 0 <= i < |lines| ==> parsed[i] == ParseRuleLine(lines[i])
  {
    if |lines| == 0 then [] else [ParseRuleLine(lines[0])] + ParseLines(lines[1..])
  }

  /** `_load_rules` over the lines of the file: each line parsed on its own. */
  function ParseRules(lines: seq<string>): Result<seq<Rule>, LoadError> {
    Collect(ParseLines(lines))
  }

  /** Loading succeeds exactly when every line parses, and then keeps one rule per line in file order. */
  lemma ParseRulesOk(lines: seq<string>)
    ensures ParseRules(lines).Ok? <==> forall i :: 0 <= i < |lines| ==> ParseRuleLine(lines[i]).Some?
    ensures ParseRules(lines).Ok? ==> |ParseRules(lines).value| == |lines|
    ensures ParseRules(lines).Ok? ==>
              forall i :: 0 <= i < |lines| ==> Some(ParseRules(lines).value[i]) == ParseRuleLine(lines[i])
  {
    CollectOk(ParseLines(lines));
  }

  /** A failed load names the first malformed line. */
  lemma ParseRulesErr(lines: seq<string>)
    ensures ParseRules(lines).Err? ==> ParseRules(lines).error.index < |lines|
    ensures ParseRules(lines).Err? ==> ParseRuleLine(lines[ParseRules(lines).error.index]).None?
    ensures ParseRules(lines).Err? ==>
              forall i :: 0 <= i < ParseRules(lines).error.index ==> ParseRuleLine(lines[i]).Some?
  {
    CollectErr(ParseLines(lines));
  }

  /** The line a rule file holds for a rule. */
  function FormatRule(x: Rule): string {
    Text.IntToString(x.dr) + "," + Text.IntToString(x.dc)
  }

  lemma RuleLineRoundTrip(x: Rule)
    ensures ParseRuleLine(FormatRule(x)) == Some(x)
  {
    var a := Text.IntToString(x.dr);
    var b := Text.IntToString(x.dc);
    var line := FormatRule(x);
    assert line == a + [','] + b;
    assert Text.Strip(line) == line;
    Text.SplitPair(a, b, ',');
    Text.ParseIntRoundTrip(x.dr);
    Text.ParseIntRoundTrip(x.dc);
  }

  /** Writing a rule list out one line per rule and loading it gives the list back. */
  lemma {:induction false} RulesRoundTrip(rules: seq<Rule>)
    ensures ParseRules(seq(|rules|, i requires 0 <= i < |rules| => FormatRule(rules[i]))) == Ok(rules)
  {
    var lines := seq(|rules|, i requires 0 <= i < |rules| => FormatRule(rules[i]));
    forall i | 0 <= i < |rules|
      ensures ParseRuleLine(lines[i]) == Some(rules[i])
    {
      RuleLineRoundTrip(rules[i]);
    }
    ParseRulesOk(lines);
    var r := ParseRules(lines);
    assert r.Ok?;
    assert r.value == rules;
  }

  /** `_get_piece_type_from_path`: the name of the rule file's parent directory. */
  function PieceTypeFromPath(path: seq<string>): string
  {
    if |path| >= 2 then path[|path| - 2] else ""
  }

  /** The rules of the directory `<root>/<type>/moves.txt` belong to the piece type `<type>`. */
  lemma PieceTypeOfRuleFile(root: seq<string>, pieceType: string)
    ensures PieceTypeFromPath(root + [pieceType, "moves.txt"]) == pieceType
  {
    var path := root + [pieceType, "moves.txt"];
    assert path[|path| - 2] == pieceType;
  }

  /** Pawn logic applies to every piece type whose name starts with `P`. */
  predicate IsPawn(pieceType: string) {
    |pieceType| > 0 && pieceType[0] == 'P'
  }

  /** Black pawns (`PB`) advance down the board, every other pawn up. */
  function Direction(pieceType: string): int
  {
    if pieceType == "PB" then 1 else -1
  }

  predicate InBounds(t: MoveTable, c: Board.Cell) {
    0 <= c.row < t.rows && 0 <= c.col < t.cols
  }

  function Target(x: Rule, r: int, c: int): Board.Cell {
    Board.Cell(r + x.dr, c + x.dc)
  }

  /** Every id on the board has a colour character at index 1. */
  predicate IdsOk(occ: Occupancy) {
    forall cell :: cell in occ ==> |occ[cell]| >= 2
  }

  /**
   * A pawn reads `get_id()[1]` of the occupant and `piece_type[1]` only at a capture
   * candidate that lies on the board and is occupied; anywhere else nothing is indexed.
   */
  predicate CaptureReadable(t: MoveTable, cell: Board.Cell, occ: Occupancy) {
    InBounds(t, cell) && cell in occ ==> |occ[cell]| >= 2 && |t.pieceType| >= 2
  }

  /** The three capture candidates one row ahead (left, right, front) can be read. */
  predicate CapturesReadable(t: MoveTable, r: int, c: int, occ: Occupancy) {
    var d := Direction(t.pieceType);
    && CaptureReadable(t, Board.Cell(r + d, c - 1), occ)
    && CaptureReadable(t, Board.Cell(r + d, c + 1), occ)
    && CaptureReadable(t, Board.Cell(r + d, c), occ)
  }

  /**
   * `get_moves` raises `IndexError` exactly when a pawn given an occupancy meets an occupied
   * capture candidate whose occupant id or whose own type has fewer than two characters.
   */
  predicate CanGenerate(t: MoveTable, r: int, c: int, occ: Option<Occupancy>) {
    IsPawn(t.pieceType) && occ.Some? ==> CapturesReadable(t, r, c, occ.value)
  }

  /** Non-pawn branch: each rule's target, in rule order, when it lies on the board. */
  function NonPawnMoves(t: MoveTable, rules: seq<Rule>, r: int, c: int): (cells: seq<Board.Cell>)
    ensures |cells| <= |rules|
    ensures forall cell :: cell in cells ==> InBounds(t, cell)
  {
    if |rules| == 0 then []
    else
      var cell := Target(rules[0], r, c);
      (if InBounds(t, cell) then [cell] else []) + NonPawnMoves(t, rules[1..], r, c)
  }

  /** A non-pawn can reach exactly the on-board targets of its rules. */
  lemma {:induction false} NonPawnMembership(t: MoveTable, rules: seq<Rule>, r: int, c: int, cell: Board.Cell)
    ensures cell in NonPawnMoves(t, rules, r, c) <==>
            InBounds(t, cell) && exists x :: x in rules && Target(x, r, c) == cell
  {
    if |rules| > 0 {
      NonPawnMembership(t, rules[1..], r, c, cell);
      if exists x :: x in rules[1..] && Target(x, r, c) == cell {
        var x :| x in rules[1..] && Target(x, r, c) == cell;
        assert x in rules;
      }
      if exists x :: x in rules && Target(x, r, c) == cell {
        var x :| x in rules && Target(x, r, c) == cell;
        if x != rules[0] {
          assert x in rules[1..];
        }
      }
    }
  }

  /** Sort key of the forward offsets: distance in rows. */
  function Distance(x: Rule): nat {
    if x.dr < 0 then -x.dr else x.dr
  }

  predicate SortedByDistance(s: seq<Rule>) {
    forall i, j :: 0 <= i < j < |s| ==> Distance(s[i]) <= Distance(s[j])
  }

  /** The elements of `s` at distance `d`, in their order in `s`. */
  function OfDistance(s: seq<Rule>, d: nat): seq<Rule> {
    if |s| == 0 then [] else (if Distance(s[0]) == d then [s[0]] else []) + OfDistance(s[1..], d)
  }

  lemma {:induction false} OfDistanceAppend(a: seq<Rule>, b: seq<Rule>, d: nat)
    ensures OfDistance(a + b, d) == OfDistance(a, d) + OfDistance(b, d)
  {
    if |a| == 0 {
      assert a + b == b;
    } else {
      OfDistanceAppend(a[1..], b, d);
      assert (a + b)[0] == a[0] && (a + b)[1..] == a[1..] + b;
      var h := if Distance(a[0]) == d then [a[0]] else [];
      assert h + (OfDistance(a[1..], d) + OfDistance(b, d)) == (h + OfDistance(a[1..], d)) + OfDistance(b, d);
    }
  }

  lemma {:induction false} OfDistanceNone(s: seq<Rule>, d: nat)
    requires forall k :: 0 <= k < |s| ==> Distance(s[k]) != d
    ensures OfDistance(s, d) == []
  {
    if |s| > 0 {
      OfDistanceNone(s[1..], d);
    }
  }

  /**
   * Inserts `x` after every element not farther than it: the result stays sorted and, among
   * the elements of each distance, `x` comes after those already there.
   */
  function Insert(x: Rule, s: seq<Rule>): (r: seq<Rule>)
    requires SortedByDistance(s)
    ensures SortedByDistance(r)
    ensures multiset(r) == multiset(s) + multiset{x}
    ensures forall d :: OfDistance(r, d) == OfDistance(s, d) + (if Distance(x) == d then [x] else [])
  {
    if |s| == 0 then [x]
    else if Distance(x) < Distance(s[0]) then
      InsertBeforeHead(x, s);
      [x] + s
    else
      var rest := Insert(x, s[1..]);
      assert s == [s[0]] + s[1..];
      HeadBelowInsert(x, s[0], s[1..], rest);
      ConsSorted(s[0], rest);
      InsertAfterHead(x, s[0], s[1..], rest);
      [s[0]] + rest
  }

  lemma InsertBeforeHead(x: Rule, s: seq<Rule>)
    requires SortedByDistance(s) && |s| > 0 && Distance(x) < Distance(s[0])
    ensures forall d :: OfDistance([x] + s, d) == OfDistance(s, d) + (if Distance(x) == d then [x] else [])
  {
    forall d: nat
      ensures OfDistance([x] + s, d) == OfDistance(s, d) + (if Distance(x) == d then [x] else [])
    {
      assert ([x] + s)[1..] == s;
      if Distance(x) == d {
        OfDistanceNone(s, d);
      }
    }
  }

  lemma InsertAfterHead(x: Rule, h: Rule, tail: seq<Rule>, rest: seq<Rule>)
    requires forall d :: OfDistance(rest, d) == OfDistance(tail, d) + (if Distance(x) == d then [x] else [])
    ensures forall d :: OfDistance([h] + rest, d) == OfDistance([h] + tail, d) + (if Distance(x) == d then [x] else [])
  {
    forall d: nat
      ensures OfDistance([h] + rest, d) == OfDistance([h] + tail, d) + (if Distance(x) == d then [x] else [])
    {
      assert ([h] + rest)[1..] == rest && ([h] + tail)[1..] == tail;
      var a := if Distance(h) == d then [h] else [];
      var b := if Distance(x) == d then [x] else [];
      assert a + (OfDistance(tail, d) + b) == (a + OfDistance(tail, d)) + b;
    }
  }

  lemma ConsSorted(h: Rule, s: seq<Rule>)
    requires SortedByDistance(s)
    requires forall k :: 0 <= k < |s| ==> Distance(h) <= Distance(s[k])
    ensures SortedByDistance([h] + s)
  {
    forall i, j | 0 <= i < j < |s| + 1
      ensures Distance(([h] + s)[i]) <= Distance(([h] + s)[j])
    {
      assert ([h] + s)[j] == s[j - 1];
      if i > 0 {
        assert ([h] + s)[i] == s[i - 1];
      }
    }
  }

  lemma HeadBelowInsert(x: Rule, h: Rule, tail: seq<Rule>, rest: seq<Rule>)
    requires SortedByDistance([h] + tail) && Distance(h) <= Distance(x)
    requires multiset(rest) == multiset(tail) + multiset{x}
    ensures forall k :: 0 <= k < |rest| ==> Distance(h) <= Distance(rest[k])
  {
    forall k | 0 <= k < |rest|
      ensures Distance(h) <= Distance(rest[k])
    {
      assert rest[k] in multiset(rest);
      if rest[k] != x {
        assert rest[k] in multiset(tail);
        var j :| 0 <= j < |tail| && tail[j] == rest[k];
        assert ([h] + tail)[0] == h && ([h] + tail)[j + 1] == tail[j];
      }
    }
  }

  /**
   * Python's stable `sort(key=lambda x: abs(x[0]))`: a sorted permutation in which the rules
   * of each distance keep their original order.
   */
  function SortByDistance(s: seq<Rule>): (r: seq<Rule>)
    ensures SortedByDistance(r)
    ensures multiset(r) == multiset(s)
    ensures forall d :: OfDistance(r, d) == OfDistance(s, d)
  {
    if |s| == 0 then []
    else
      var init := s[..|s| - 1];
      var last := s[|s| - 1];
      assert s == init + [last];
      var r := Insert(last, SortByDistance(init));
      assert forall d :: OfDistance(r, d) == OfDistance(s, d) by {
        forall d: nat
          ensures OfDistance(r, d) == OfDistance(s, d)
        {
          OfDistanceAppend(init, [last], d);
          assert [last][1..] == [];
        }
      }
      r
  }

  /** The straight-ahead rules (`dc == 0`), in rule order. */
  function Straight(rules: seq<Rule>): (r: seq<Rule>)
    ensures forall x :: x in r <==> x in rules && x.dc == 0
  {
    if |rules| == 0 then []
    else (if rules[0].dc == 0 then [rules[0]] else []) + Straight(rules[1..])
  }

  /**
   * `Straight` is the order-keeping filter: it distributes over concatenation, and
   * `StraightSingle` keeps a single rule exactly when it points straight ahead.
   */
  lemma {:induction false} StraightAppend(a: seq<Rule>, b: seq<Rule>)
    ensures Straight(a + b) == Straight(a) + Straight(b)
  {
    if |a| == 0 {
      assert a + b == b;
    } else {
      StraightAppend(a[1..], b);
      assert (a + b)[0] == a[0] && (a + b)[1..] == a[1..] + b;
      var h := if a[0].dc == 0 then [a[0]] else [];
      assert h + (Straight(a[1..]) + Straight(b)) == (h + Straight(a[1..])) + Straight(b);
    }
  }

  lemma StraightSingle(x: Rule)
    ensures Straight([x]) == if x.dc == 0 then [x] else []
  {
    assert [x][1..] == [];
  }

  /** A double step is skipped once the pawn has moved. */
  predicate Skipped(x: Rule, hasMoved: bool) {
    Distance(x) == 2 && hasMoved
  }

  /** The first forward rule whose on-board target is occupied ends the forward walk. */
  predicate Stops(t: MoveTable, x: Rule, r: int, c: int, hasMoved: bool, occ: Option<Occupancy>) {
    !Skipped(x, hasMoved) && InBounds(t, Target(x, r, c)) && occ.Some? && Target(x, r, c) in occ.value
  }

  /** The forward loop of the pawn branch, over the sorted straight-ahead rules. */
  function ForwardWalk(t: MoveTable, fwd: seq<Rule>, r: int, c: int, hasMoved: bool, occ: Option<Occupancy>)
    : (cells: seq<Board.Cell>)
    ensures forall cell :: cell in cells ==> InBounds(t, cell)
    ensures forall cell :: cell in cells && occ.Some? ==> cell !in occ.value
  {
    if |fwd| == 0 then []
    else
      var x := fwd[0];
      var cell := Target(x, r, c);
      if Skipped(x, hasMoved) || !InBounds(t, cell) then ForwardWalk(t, fwd[1..], r, c, hasMoved, occ)
      else if occ.Some? && cell in occ.value then []
      else [cell] + ForwardWalk(t, fwd[1..], r, c, hasMoved, occ)
  }

  /** Nothing at or after a stopping rule contributes: the walk equals the walk over the rules before it. */
  lemma {:induction false} ForwardStops(t: MoveTable, fwd: seq<Rule>, r: int, c: int, hasMoved: bool,
                                        occ: Option<Occupancy>, i: int)
    requires 0 <= i < |fwd| && Stops(t, fwd[i], r, c, hasMoved, occ)
    ensures ForwardWalk(t, fwd, r, c, hasMoved, occ) == ForwardWalk(t, fwd[..i], r, c, hasMoved, occ)
  {
    if i > 0 {
      ForwardStops(t, fwd[1..], r, c, hasMoved, occ, i - 1);
      assert fwd[1..][..i - 1] == fwd[..i][1..];
    }
  }

  /**
   * A cell is a forward destination exactly when some live rule targets it, it is on the
   * board and free, and no earlier rule stopped the walk.
   */
  lemma {:induction false} ForwardMembership(t: MoveTable, fwd: seq<Rule>, r: int, c: int, hasMoved: bool,
                                             occ: Option<Occupancy>, cell: Board.Cell)
    ensures cell in ForwardWalk(t, fwd, r, c, hasMoved, occ) <==>
            exists i :: 0 <= i < |fwd| && !Skipped(fwd[i], hasMoved) && Target(fwd[i], r, c) == cell
                        && InBounds(t, cell) && (occ.Some? ==> cell !in occ.value)
                        && forall j :: 0 <= j < i ==> !Stops(t, fwd[j], r, c, hasMoved, occ)
  {
    if |fwd| > 0 {
      ForwardMembership(t, fwd[1..], r, c, hasMoved, occ, cell);
      var x := fwd[0];
      if cell in ForwardWalk(t, fwd, r, c, hasMoved, occ) {
        if Target(x, r, c) == cell && !Skipped(x, hasMoved) && InBounds(t, cell) {
          assert (occ.Some? ==> cell !in occ.value);
        } else {
          var i :| 0 <= i < |fwd[1..]| && !Skipped(fwd[1..][i], hasMoved) && Target(fwd[1..][i], r, c) == cell
                   && InBounds(t, cell) && (occ.Some? ==> cell !in occ.value)
                   && forall j :: 0 <= j < i ==> !Stops(t, fwd[1..][j], r, c, hasMoved, occ);
          assert forall j :: 0 <= j < i + 1 ==> !Stops(t, fwd[j], r, c, hasMoved, occ) by {
            forall j | 0 <= j < i + 1
              ensures !Stops(t, fwd[j], r, c, hasMoved, occ)
            {
              if j > 0 {
                assert fwd[j] == fwd[1..][j - 1];
              }
            }
          }
        }
      }
    }
  }

  /** Every forward destination is the target of a live straight-ahead rule. */
  lemma {:induction false} ForwardFromRules(t: MoveTable, fwd: seq<Rule>, r: int, c: int, hasMoved: bool,
                                            occ: Option<Occupancy>, cell: Board.Cell)
    requires cell in ForwardWalk(t, fwd, r, c, hasMoved, occ)
    ensures exists x :: x in fwd && !Skipped(x, hasMoved) && Target(x, r, c) == cell
  {
    ForwardMembership(t, fwd, r, c, hasMoved, occ, cell);
    var i :| 0 <= i < |fwd| && !Skipped(fwd[i], hasMoved) && Target(fwd[i], r, c) == cell;
    assert fwd[i] in fwd;
  }

  /** `target_piece.get_id()[1] != self.piece_type[1]`. */
  predicate Opposing(id: string, pieceType: string)
    requires |id| >= 2 && |pieceType| >= 2
  {
    id[1] != pieceType[1]
  }

  /** One capture candidate: kept when on the board and held by an opposing piece. */
  function CaptureAt(t: MoveTable, cell: Board.Cell, occ: Occupancy): (cells: seq<Board.Cell>)
    requires CaptureReadable(t, cell, occ)
  {
    if InBounds(t, cell) && cell in occ && Opposing(occ[cell], t.pieceType) then [cell] else []
  }

  /** The diagonal captures (left, then right) followed by the straight-ahead capture. */
  function Captures(t: MoveTable, r: int, c: int, occ: Occupancy): (cells: seq<Board.Cell>)
    requires CapturesReadable(t, r, c, occ)
  {
    var d := Direction(t.pieceType);
    CaptureAt(t, Board.Cell(r + d, c - 1), occ)
      + CaptureAt(t, Board.Cell(r + d, c + 1), occ)
      + CaptureAt(t, Board.Cell(r + d, c), occ)
  }

  /** The sorted straight-ahead rules a pawn walks through. */
  function ForwardRules(t: MoveTable): seq<Rule> {
    SortByDistance(Straight(t.rules))
  }

  /** `get_moves(r, c, has_moved, pos_to_piece)`. */
  function GetMoves(t: MoveTable, r: int, c: int, hasMoved: bool, occ: Option<Occupancy>): (cells: seq<Board.Cell>)
    requires CanGenerate(t, r, c, occ)
    ensures forall cell :: cell in cells ==> InBounds(t, cell)
    ensures !IsPawn(t.pieceType) ==> cells == NonPawnMoves(t, t.rules, r, c)
  {
    if IsPawn(t.pieceType) then
      ForwardWalk(t, ForwardRules(t), r, c, hasMoved, occ)
        + (if occ.Some? then Captures(t, r, c, occ.value) else [])
    else NonPawnMoves(t, t.rules, r, c)
  }

  /** Non-pawn destinations never depend on the occupancy. */
  lemma NonPawnIgnoresOccupancy(t: MoveTable, r: int, c: int, hasMoved: bool, occ1: Option<Occupancy>,
                                occ2: Option<Occupancy>, hasMoved2: bool)
    requires !IsPawn(t.pieceType) && CanGenerate(t, r, c, occ1) && CanGenerate(t, r, c, occ2)
    ensures GetMoves(t, r, c, hasMoved, occ1) == GetMoves(t, r, c, hasMoved2, occ2)
  {
  }

  /** A pawn's destinations: its forward walk, then its captures when the occupancy is known. */
  lemma PawnMoves(t: MoveTable, r: int, c: int, hasMoved: bool, occ: Option<Occupancy>)
    requires IsPawn(t.pieceType) && CanGenerate(t, r, c, occ)
    ensures GetMoves(t, r, c, hasMoved, occ)
            == ForwardWalk(t, ForwardRules(t), r, c, hasMoved, occ) + (if occ.Some? then Captures(t, r, c, occ.value) else [])
  {
  }

  /** Every capture lies one row ahead, at most one column aside, on the board, on an opponent. */
  lemma CapturesAhead(t: MoveTable, r: int, c: int, occ: Occupancy, cell: Board.Cell)
    requires CapturesReadable(t, r, c, occ) && cell in Captures(t, r, c, occ)
    ensures cell.row == r + Direction(t.pieceType) && c - 1 <= cell.col <= c + 1
    ensures InBounds(t, cell) && cell in occ && |occ[cell]| >= 2 && |t.pieceType| >= 2 && Opposing(occ[cell], t.pieceType)
  {
  }

  /** The straight-ahead cell is a capture exactly when it is on the board and holds an opponent. */
  lemma FrontCapture(t: MoveTable, r: int, c: int, occ: Occupancy)
    requires CapturesReadable(t, r, c, occ)
    ensures var front := Board.Cell(r + Direction(t.pieceType), c);
            front in Captures(t, r, c, occ)
            <==> InBounds(t, front) && front in occ && |occ[front]| >= 2 && |t.pieceType| >= 2 && Opposing(occ[front], t.pieceType)
  {
    var d := Direction(t.pieceType);
    var front := Board.Cell(r + d, c);
    var left := CaptureAt(t, Board.Cell(r + d, c - 1), occ);
    var right := CaptureAt(t, Board.Cell(r + d, c + 1), occ);
    assert front !in left && front !in right;
    assert Captures(t, r, c, occ) == left + right + CaptureAt(t, front, occ);
  }

  /**
   * Every pawn destination is either a free forward cell reached by a straight-ahead rule,
   * or a cell one row ahead in the pawn's direction, at most one column aside, held by an
   * opposing piece. Without an occupancy map only forward cells are produced.
   */
  lemma PawnDestinations(t: MoveTable, r: int, c: int, hasMoved: bool, occ: Option<Occupancy>, cell: Board.Cell)
    requires IsPawn(t.pieceType) && CanGenerate(t, r, c, occ)
    requires cell in GetMoves(t, r, c, hasMoved, occ)
    ensures (cell.col == c && (occ.Some? ==> cell !in occ.value)
             && exists x :: x in t.rules && x.dc == 0 && !Skipped(x, hasMoved) && Target(x, r, c) == cell)
            || (occ.Some? && cell.row == r + Direction(t.pieceType) && c - 1 <= cell.col <= c + 1
                && cell in occ.value && |occ.value[cell]| >= 2 && |t.pieceType| >= 2 && Opposing(occ.value[cell], t.pieceType))
    ensures occ.None? ==> cell.col == c
  {
    var fwd := ForwardRules(t);
    if cell in ForwardWalk(t, fwd, r, c, hasMoved, occ) {
      ForwardFromRules(t, fwd, r, c, hasMoved, occ, cell);
      var x :| x in fwd && !Skipped(x, hasMoved) && Target(x, r, c) == cell;
      assert x in multiset(fwd);
      assert x in Straight(t.rules);
    } else {
      PawnMoves(t, r, c, hasMoved, occ);
      CapturesAhead(t, r, c, occ.value, cell);
    }
  }

  /** Every on-board cell one row ahead and at most one column aside that holds an opponent is a destination. */
  lemma PawnCapturesOpponents(t: MoveTable, r: int, c: int, hasMoved: bool, occ: Occupancy, cell: Board.Cell)
    requires IsPawn(t.pieceType) && CanGenerate(t, r, c, Some(occ))
    requires cell.row == r + Direction(t.pieceType) && c - 1 <= cell.col <= c + 1
    requires InBounds(t, cell) && cell in occ && |occ[cell]| >= 2 && |t.pieceType| >= 2 && Opposing(occ[cell], t.pieceType)
    ensures cell in GetMoves(t, r, c, hasMoved, Some(occ))
  {
    assert cell in Captures(t, r, c, occ);
  }

  /** Once a pawn has moved, no destination lies two rows away. */
  lemma MovedPawnNoDoubleStep(t: MoveTable, r: int, c: int, occ: Option<Occupancy>, cell: Board.Cell)
    requires IsPawn(t.pieceType) && CanGenerate(t, r, c, occ)
    requires cell in GetMoves(t, r, c, true, occ)
    ensures cell.row != r + 2 && cell.row != r - 2
  {
    PawnDestinations(t, r, c, true, occ, cell);
  }

  /** A pawn never targets its own colour, forward or capturing. */
  lemma PawnAvoidsFriends(t: MoveTable, r: int, c: int, hasMoved: bool, occ: Occupancy, cell: Board.Cell)
    requires IsPawn(t.pieceType) && CanGenerate(t, r, c, Some(occ))
    requires cell in GetMoves(t, r, c, hasMoved, Some(occ)) && cell in occ
    ensures |occ[cell]| >= 2 && |t.pieceType| >= 2 && Opposing(occ[cell], t.pieceType)
  {
    PawnDestinations(t, r, c, hasMoved, Some(occ), cell);
  }

  /** A standard white pawn's table: one and two steps up the board. */
  function WhitePawn(rows: int, cols: int): MoveTable {
    MoveTable([Rule(-1, 0), Rule(-2, 0)], "PW", rows, cols)
  }

  /** The white pawn walks its one-step rule before its two-step rule. */
  lemma WhitePawnForward(rows: int, cols: int)
    ensures ForwardRules(WhitePawn(rows, cols)) == [Rule(-1, 0), Rule(-2, 0)]
  {
    var one := Rule(-1, 0);
    var two := Rule(-2, 0);
    var rules := [one, two];
    assert rules[1..] == [two];
    assert rules[1..][1..] == [];
    assert Straight(rules[1..]) == [two];
    assert Straight(rules) == rules;
    assert rules[..1] == [one];
    assert SortByDistance([one]) == [one] by {
      assert [one][..0] == [];
    }
    assert SortByDistance(rules) == Insert(two, [one]);
  }

  /** A white pawn advances up the board. */
  lemma WhiteDirection(rows: int, cols: int)
    ensures Direction(WhitePawn(rows, cols).pieceType) == -1
  {
    assert "PW"[1] != "PB"[1];
  }

  /** A walk over the two-step rule alone. */
  lemma WalkTwo(t: MoveTable, r: int, c: int, hasMoved: bool, occ: Occupancy)
    requires InBounds(t, Board.Cell(r - 2, c))
    ensures ForwardWalk(t, [Rule(-2, 0)], r, c, hasMoved, Some(occ))
            == if hasMoved || Board.Cell(r - 2, c) in occ then [] else [Board.Cell(r - 2, c)]
  {
    assert [Rule(-2, 0)][1..] == [];
  }

  /** A walk over the one-step rule, then the two-step rule. */
  lemma WalkOneTwo(t: MoveTable, r: int, c: int, hasMoved: bool, occ: Occupancy)
    requires InBounds(t, Board.Cell(r - 1, c)) && InBounds(t, Board.Cell(r - 2, c))
    ensures ForwardWalk(t, [Rule(-1, 0), Rule(-2, 0)], r, c, hasMoved, Some(occ))
            == if Board.Cell(r - 1, c) in occ then []
               else if hasMoved || Board.Cell(r - 2, c) in occ then [Board.Cell(r - 1, c)]
               else [Board.Cell(r - 1, c), Board.Cell(r - 2, c)]
  {
    assert [Rule(-1, 0), Rule(-2, 0)][1..] == [Rule(-2, 0)];
    WalkTwo(t, r, c, hasMoved, occ);
  }

  /** The white pawn's forward walk from a cell two or more rows from the top edge. */
  lemma WhitePawnWalk(rows: int, cols: int, r: int, c: int, hasMoved: bool, occ: Occupancy)
    requires 2 <= r < rows && 0 <= c < cols
    ensures var one := Board.Cell(r - 1, c);
            var two := Board.Cell(r - 2, c);
            ForwardWalk(WhitePawn(rows, cols), ForwardRules(WhitePawn(rows, cols)), r, c, hasMoved, Some(occ))
            == if one in occ then []
               else if hasMoved || two in occ then [one]
               else [one, two]
  {
    WhitePawnForward(rows, cols);
    WalkOneTwo(WhitePawn(rows, cols), r, c, hasMoved, occ);
  }

  /**
   * The double step of a white pawn is offered exactly when the pawn has not moved and both
   * the cell in front of it and the one after are empty.
   */
  lemma DoubleStepAvailability(rows: int, cols: int, r: int, c: int, hasMoved: bool, occ: Occupancy)
    requires 2 <= r < rows && 0 <= c < cols && CanGenerate(WhitePawn(rows, cols), r, c, Some(occ))
    ensures Board.Cell(r - 2, c) in GetMoves(WhitePawn(rows, cols), r, c, hasMoved, Some(occ)) <==>
            !hasMoved && Board.Cell(r - 1, c) !in occ && Board.Cell(r - 2, c) !in occ
  {
    var t := WhitePawn(rows, cols);
    var two := Board.Cell(r - 2, c);
    PawnMoves(t, r, c, hasMoved, Some(occ));
    WhitePawnWalk(rows, cols, r, c, hasMoved, occ);
    WhiteDirection(rows, cols);
    if two in Captures(t, r, c, occ) {
      CapturesAhead(t, r, c, occ, two);
    }
  }

  /** On an empty board an unmoved white pawn with two rows ahead reaches one step, then two. */
  lemma WhitePawnOpening(rows: int, cols: int, r: int, c: int)
    requires 2 <= r < rows && 0 <= c < cols
    ensures GetMoves(WhitePawn(rows, cols), r, c, false, Some(map[])) == [Board.Cell(r - 1, c), Board.Cell(r - 2, c)]
  {
    var t := WhitePawn(rows, cols);
    PawnMoves(t, r, c, false, Some(map[]));
    WhitePawnWalk(rows, cols, r, c, false, map[]);
  }

  /** A white pawn whose front cell is taken has no forward move: only its captures remain. */
  lemma WhitePawnBlocked(rows: int, cols: int, r: int, c: int, hasMoved: bool, occ: Occupancy)
    requires 2 <= r < rows && 0 <= c < cols && CanGenerate(WhitePawn(rows, cols), r, c, Some(occ)) && Board.Cell(r - 1, c) in occ
    ensures GetMoves(WhitePawn(rows, cols), r, c, hasMoved, Some(occ)) == Captures(WhitePawn(rows, cols), r, c, occ)
  {
    PawnMoves(WhitePawn(rows, cols), r, c, hasMoved, Some(occ));
    WhitePawnWalk(rows, cols, r, c, hasMoved, occ);
  }

  /** The blocker itself is a destination exactly when it is not white. */
  lemma WhitePawnTakesBlocker(rows: int, cols: int, r: int, c: int, hasMoved: bool, occ: Occupancy)
    requires 2 <= r < rows && 0 <= c < cols && CanGenerate(WhitePawn(rows, cols), r, c, Some(occ)) && Board.Cell(r - 1, c) in occ
    ensures Board.Cell(r - 1, c) in GetMoves(WhitePawn(rows, cols), r, c, hasMoved, Some(occ))
            <==> occ[Board.Cell(r - 1, c)][1] != 'W'
  {
    var t := WhitePawn(rows, cols);
    WhitePawnBlocked(rows, cols, r, c, hasMoved, occ);
    WhiteDirection(rows, cols);
    FrontCapture(t, r, c, occ);
    assert t.pieceType[1] == 'W';
  }

  /** A rook-like table [(1,0)] at (4,4) on an empty 8x8 board reaches (5,4) only. */
  lemma NonPawnScenario()
    ensures GetMoves(MoveTable([Rule(1, 0)], "RW", 8, 8), 4, 4, false, Some(map[])) == [Board.Cell(5, 4)]
  {
  }
}
