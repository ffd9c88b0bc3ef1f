/**
 * Board geometry: conversions between algebraic square names, (row, col) cells and
 * integer pixel positions, and the bounds check. Algebraic names follow the notation of
 * Appendix C of the FIDE Laws of Chess, with rank 8 stored as row index 0.
 */
module Board {
  import opened Wrappers
  import Text

  /** A grid cell: row index (0 is the top rank) and column index (0 is file a). */
  datatype Cell = Cell(row: int, col: int)

  /** A pixel position: x grows with the column, y with the row. */
  datatype Pos = Pos(x: int, y: int)

  /** The board's dimensions; the background image is not modelled. */
  datatype Board = Board(cellHPix: int, cellWPix: int, cellHM: int, cellWM: int, wCells: int, hCells: int) {
    /** Pixel-to-cell conversions divide by the cell size, which must not be zero. */
    predicate Valid() {
      cellHPix != 0 && cellWPix != 0
    }
  }

  datatype NotationError = BadLength | BadColumn | BadRow | OutOfBounds

  /** Python's floor division `a // b`. */
  function FloorDiv(a: int, b: int): (q: int)
    requires b != 0
    ensures b > 0 ==> q * b <= a < q * b + b
    ensures b < 0 ==> q * b >= a > q * b + b
  {
    if b > 0 then a / b else (-a) / (-b)
  }

  lemma FloorDivUnique(a: int, b: int, q: int)
    requires b > 0 && q * b <= a < q * b + b
    ensures FloorDiv(a, b) == q
  {
    var r := FloorDiv(a, b);
    if r < q {
      MulMono(r + 1, q, b);
      assert false;
    } else if q < r {
      MulMono(q + 1, r, b);
      assert false;
    }
  }

  lemma MulMono(x: int, y: int, b: int)
    requires x <= y && b > 0
    ensures x * b <= y * b
  {
  }

  /** `cell_to_world`: the top-left pixel of a cell. */
  function CellToWorld(b: Board, c: Cell): Pos
  {
    Pos(c.col * b.cellWPix, c.row * b.cellHPix)
  }

  /** `world_to_cell`: the cell whose rectangle contains a pixel (floor division). */
  function WorldToCell(b: Board, p: Pos): Cell
    requires b.Valid()
  {
    Cell(FloorDiv(p.y, b.cellHPix), FloorDiv(p.x, b.cellWPix))
  }

  /** Every cell's top-left pixel converts back to that cell. */
  lemma WorldRoundTrip(b: Board, c: Cell)
    requires b.Valid()
    ensures WorldToCell(b, CellToWorld(b, c)) == c
  {
    var p := CellToWorld(b, c);
    if b.cellHPix > 0 {
      FloorDivUnique(p.y, b.cellHPix, c.row);
    } else {
      FloorDivUnique(-p.y, -b.cellHPix, c.row);
    }
    if b.cellWPix > 0 {
      FloorDivUnique(p.x, b.cellWPix, c.col);
    } else {
      FloorDivUnique(-p.x, -b.cellWPix, c.col);
    }
  }

  /** With positive cell sizes, every pixel inside a cell's rectangle converts to that cell. */
  lemma WorldToCellInRect(b: Board, c: Cell, p: Pos)
    requires b.cellHPix > 0 && b.cellWPix > 0
    requires CellToWorld(b, c).x <= p.x < CellToWorld(b, c).x + b.cellWPix
    requires CellToWorld(b, c).y <= p.y < CellToWorld(b, c).y + b.cellHPix
    ensures WorldToCell(b, p) == c
  {
    FloorDivUnique(p.y, b.cellHPix, c.row);
    FloorDivUnique(p.x, b.cellWPix, c.col);
  }

  /**
   * The first character of `c.lower()`, as far as the letters a..z are concerned: ASCII
   * capitals and the Kelvin sign map to small letters, and the capital I with dot above
   * lower-cases to `i` followed by a combining dot; every other character keeps a first
   * character outside a..z and is left as it is.
   */
  function ToLower(c: char): (l: char)
    ensures 'a' <= l <= 'z' <==> ('a' <= c <= 'z' || 'A' <= c <= 'Z' || c == '\U{212A}' || c == '\U{130}')
    ensures l == 'k' <==> (c == 'k' || c == 'K' || c == '\U{212A}')
    ensures 'a' <= c <= 'z' ==> l == c
  {
    if 'A' <= c <= 'Z' then (c as int + 32) as char
    else if c == '\U{212A}' then 'k'
    else if c == '\U{130}' then 'i'
    else c
  }

  /** The file letter of a two-character name, lower-cased, is one of a..h. */
  predicate FileOk(s: string)
    requires |s| == 2
  {
    'a' <= ToLower(s[0]) <= 'h'
  }

  /** The rank character of a two-character name is a digit 1..8. */
  predicate RankOk(s: string)
    requires |s| == 2
  {
    '1' <= s[1] <= '8'
  }

  /** A name `algebraic_to_cell` accepts. */
  predicate IsSquareName(s: string) {
    |s| == 2 && FileOk(s) && RankOk(s)
  }

  /** `algebraic_to_cell`: checks length, file and rank in that order. */
  function AlgebraicToCell(s: string): (r: Result<Cell, NotationError>)
    ensures r.Ok? <==> IsSquareName(s)
    ensures |s| != 2 ==> r == Err(BadLength)
    ensures |s| == 2 && !FileOk(s) ==> r == Err(BadColumn)
    ensures |s| == 2 && FileOk(s) && !RankOk(s) ==> r == Err(BadRow)
    ensures r.Ok? ==> 0 <= r.value.row < 8 && 0 <= r.value.col < 8
    ensures r.Ok? ==> r.value.row == 8 - Text.DigitValue(s[1])
    ensures r.Ok? ==> r.value.col == ToLower(s[0]) as int - 'a' as int
  {
    if |s| != 2 then Err(BadLength)
    else if !FileOk(s) then Err(BadColumn)
    else if !RankOk(s) then Err(BadRow)
    else Ok(Cell(8 - Text.DigitValue(s[1]), ToLower(s[0]) as int - 'a' as int))
  }

  /** `cell_to_algebraic`: defined on the fixed 8x8 range, whatever the board's size. */
  function CellToAlgebraic(c: Cell): (r: Result<string, NotationError>)
    ensures r.Ok? <==> 0 <= c.row < 8 && 0 <= c.col < 8
    ensures r.Err? ==> r.error == OutOfBounds
    ensures r.Ok? ==> IsSquareName(r.value) && 'a' <= r.value[0] <= 'h'
  {
    if !(0 <= c.row < 8 && 0 <= c.col < 8) then Err(OutOfBounds)
    else Ok([('a' as int + c.col) as char, Text.DigitChar(8 - c.row)])
  }

  /** Naming a square and reading the name back gives the lower-cased name. */
  lemma NameRoundTrip(s: string)
    requires IsSquareName(s)
    ensures AlgebraicToCell(s).Ok?
    ensures CellToAlgebraic(AlgebraicToCell(s).value) == Ok([ToLower(s[0]), s[1]])
    ensures 'a' <= s[0] <= 'h' ==> CellToAlgebraic(AlgebraicToCell(s).value) == Ok(s)
  {
    var c := AlgebraicToCell(s).value;
    var t := CellToAlgebraic(c).value;
    assert t[1] == s[1];
    assert t[0] == ToLower(s[0]);
    if 'a' <= s[0] <= 'h' {
      assert [s[0], s[1]] == s;
    }
  }

  /** Every cell of the 8x8 range survives naming and reading back. */
  lemma CellRoundTrip(c: Cell)
    requires 0 <= c.row < 8 && 0 <= c.col < 8
    ensures CellToAlgebraic(c).Ok?
    ensures AlgebraicToCell(CellToAlgebraic(c).value) == Ok(c)
  {
  }

  /** `cell_to_pix`: takes its cell as (col, row) and returns (x, y). */
  function CellToPix(b: Board, cell: (int, int)): (int, int)
  {
    (cell.0 * b.cellWPix, cell.1 * b.cellHPix)
  }

  /** `pix_to_cell`: takes (x, y) and returns the cell as (col, row). */
  function PixToCell(b: Board, pix: (int, int)): (int, int)
    requires b.Valid()
  {
    (FloorDiv(pix.0, b.cellWPix), FloorDiv(pix.1, b.cellHPix))
  }

  lemma PixRoundTrip(b: Board, cell: (int, int))
    requires b.Valid()
    ensures PixToCell(b, CellToPix(b, cell)) == cell
  {
    WorldRoundTrip(b, Cell(cell.1, cell.0));
  }

  /** `is_valid_cell`: inside the board's `H_cells` x `W_cells` grid. */
  predicate IsValidCell(b: Board, c: Cell) {
    0 <= c.row < b.hCells && 0 <= c.col < b.wCells
  }

  /** On an 8x8 board the valid cells are exactly those with an algebraic name. */
  lemma ValidCellsAreNamed(b: Board, c: Cell)
    requires b.hCells == 8 && b.wCells == 8
    ensures IsValidCell(b, c) <==> CellToAlgebraic(c).Ok?
  {
  }
}
