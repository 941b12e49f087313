/**
 * The board side of game_update.c: the static `game_config` record with its
 * background tracker (a row-major grid of `nrows * ncols` cells), the
 * initialisation that allocates and clears it, `update_background`, the
 * falling piece's starting position and `move_down`.
 *
 * Rendering (gl_init, gl_clear, gl_swap_buffer, drawSquare, wipe_screen)
 * is not part of this model: only the state the functions change is.
 */
module GameUpdate {
  import opened Pieces

  /**
   * One background cell: the zero colour the tracker is cleared to, or the
   * colour of a square of a fallen piece.
   */
  datatype Cell = Blank | Paint(color: GlColor)

  /** Row-major position of cell (x, y) in a grid with `ncols` columns: `background[y][x]`. */
  function CellIndex(ncols: int, x: int, y: int): int
  {
    y * ncols + x
  }

  /** Whether square s lies on a board of `nrows` rows and `ncols` columns. */
  predicate OnBoard(nrows: int, ncols: int, s: Square)
  {
    0 <= s.x < ncols && 0 <= s.y < nrows
  }

  /** Whether every one of `sqs` lies on the board. */
  predicate AllOnBoard(nrows: int, ncols: int, sqs: seq<Square>)
  {
    forall i :: 0 <= i < |sqs| ==> OnBoard(nrows, ncols, sqs[i])
  }

  /** A cell on the board has a row-major position inside the grid. */
  lemma CellIndexInRange(nrows: int, ncols: int, x: int, y: int)
    requires 0 <= x < ncols && 0 <= y < nrows
    ensures 0 <= CellIndex(ncols, x, y) < nrows * ncols
  {
    assert y * ncols + x < (y + 1) * ncols;
    MulMonotone(y + 1, nrows, ncols);
  }

  /** Multiplying by a non-negative number keeps the order. */
  lemma MulMonotone(a: int, b: int, n: int)
    requires 0 <= a <= b && 0 <= n
    ensures a * n <= b * n
  {
  }

  /** The position of a cell inside its row, and the row, can be read back from its index. */
  lemma CellIndexDecode(ncols: int, x: int, y: int)
    requires 0 <= x < ncols && 0 <= y
    ensures CellIndex(ncols, x, y) / ncols == y && CellIndex(ncols, x, y) % ncols == x
  {
    DivModUnique(CellIndex(ncols, x, y), ncols, y, x);
  }

  /** Quotient and remainder are the only ones with 0 <= r < n. */
  lemma DivModUnique(a: int, n: int, q: int, r: int)
    requires 0 <= r < n && a == q * n + r
    ensures a / n == q && a % n == r
  {
    var q', r' := a / n, a % n;
    assert a == q' * n + r';
    if q' < q {
      MulMonotone(q' + 1, q, n);
      assert false;
    } else if q < q' {
      MulMonotone(q + 1, q', n);
      assert false;
    }
  }

  /** Distinct cells of the board have distinct row-major positions. */
  lemma CellIndexInjective(ncols: int, x1: int, y1: int, x2: int, y2: int)
    requires 0 <= x1 < ncols && 0 <= y1
    requires 0 <= x2 < ncols && 0 <= y2
    ensures CellIndex(ncols, x1, y1) == CellIndex(ncols, x2, y2) <==> x1 == x2 && y1 == y2
  {
    CellIndexDecode(ncols, x1, y1);
    CellIndexDecode(ncols, x2, y2);
  }

  /**
   * The grid after `update_background` has been called on every one of
   * `sqs`, in order: each call paints the cell it names.
   */
  function Embed(grid: seq<Cell>, nrows: int, ncols: int, sqs: seq<Square>): (g: seq<Cell>)
    requires |grid| == nrows * ncols
    requires AllOnBoard(nrows, ncols, sqs)
    ensures |g| == |grid|
    decreases |sqs|
  {
    if sqs == [] then grid
    else
      var last := sqs[|sqs| - 1];
      assert OnBoard(nrows, ncols, last);
      CellIndexInRange(nrows, ncols, last.x, last.y);
      Embed(grid, nrows, ncols, sqs[..|sqs| - 1])[CellIndex(ncols, last.x, last.y) := Paint(last.color)]
  }

  /** Whether one of `sqs` names the cell at row-major position i. */
  predicate Covers(ncols: int, sqs: seq<Square>, i: int)
  {
    exists j :: 0 <= j < |sqs| && CellIndex(ncols, sqs[j].x, sqs[j].y) == i
  }

  /**
   * Embedding squares of one colour c paints exactly the cells they name
   * with c and leaves every other cell as it was.
   */
  lemma {:induction false} EmbedCell(grid: seq<Cell>, nrows: int, ncols: int, sqs: seq<Square>, c: GlColor, i: int)
    requires |grid| == nrows * ncols
    requires AllOnBoard(nrows, ncols, sqs)
    requires forall j :: 0 <= j < |sqs| ==> sqs[j].color == c
    requires 0 <= i < |grid|
    ensures Embed(grid, nrows, ncols, sqs)[i] == if Covers(ncols, sqs, i) then Paint(c) else grid[i]
    decreases |sqs|
  {
    if sqs != [] {
      var front := sqs[..|sqs| - 1];
      var last := sqs[|sqs| - 1];
      EmbedCell(grid, nrows, ncols, front, c, i);
      if CellIndex(ncols, last.x, last.y) == i {
        assert Covers(ncols, sqs, i);
      } else {
        if Covers(ncols, sqs, i) {
          var j :| 0 <= j < |sqs| && CellIndex(ncols, sqs[j].x, sqs[j].y) == i;
          assert j < |front| && front[j] == sqs[j];
        }
        if Covers(ncols, front, i) {
          var j :| 0 <= j < |front| && CellIndex(ncols, front[j].x, front[j].y) == i;
          assert sqs[j] == front[j];
        }
      }
    }
  }

  /** `game_config`: the board dimensions, the background colour and the background tracker. */
  class GameConfig {
    var nrows: int
    var ncols: int
    /** `bg_col`; Blank is the zero colour of the static record before initialisation. */
    var bgCol: Cell
    /** `background_tracker`, one cell per board square, in row-major order. */
    var background: array<Cell>

    /** The tracker holds one cell for each of the `nrows * ncols` board squares. */
    ghost predicate Valid()
      reads this
    {
      0 <= nrows && 0 <= ncols && background.Length == nrows * ncols
    }

    /** The zero-initialised static record: no board and no tracker yet. */
    constructor ()
      ensures Valid()
      ensures nrows == 0 && ncols == 0 && bgCol == Blank && background.Length == 0
    {
      nrows, ncols := 0, 0;
      bgCol := Blank;
      background := new Cell[0];
    }

    /**
     * `game_update_init(nrows, ncols)`: records the dimensions, sets the
     * background colour to indigo and replaces the tracker by a fresh one
     * of `nrows * ncols` cleared cells.
     */
    method GameUpdateInit(nrows: int, ncols: int)
      requires 0 <= nrows && 0 <= ncols
      modifies this
      ensures Valid()
      ensures this.nrows == nrows && this.ncols == ncols && bgCol == Paint(Indigo)
      ensures fresh(background)
      ensures forall i :: 0 <= i < background.Length ==> background[i] == Blank
    {
      this.nrows := nrows;
      this.ncols := ncols;
      bgCol := Paint(Indigo);
      background := new Cell[nrows * ncols](_ => Blank);
    }

    /**
     * `update_background(x, y, color)`: paints cell (x, y) with `color`,
     * leaves every other cell unchanged, and returns true. The square must be
     * on the board: the function is only called after the move was checked.
     */
    method UpdateBackground(x: int, y: int, color: GlColor) returns (ok: bool)
      requires Valid()
      requires 0 <= x < ncols && 0 <= y < nrows
      modifies background
      ensures ok
      ensures 0 <= CellIndex(ncols, x, y) < background.Length
      ensures background[..] == old(background[..])[CellIndex(ncols, x, y) := Paint(color)]
    {
      CellIndexInRange(nrows, ncols, x, y);
      background[CellIndex(ncols, x, y)] := Paint(color);
      ok := true;
    }

    /**
     * `init_falling_piece()`: the first piece of the table in rotation 0,
     * at the top row, with its 4x4 grid centred on the board (one column
     * further left when the width is odd), not yet fallen.
     */
    function InitFallingPiece(): (piece: FallingPiece)
      reads this
      requires Valid()
      ensures piece.pieceT == I && piece.rotation == 0 && piece.y == 0 && !piece.fallen
      ensures 0 <= ncols - (piece.x + 4) - piece.x <= 1
    {
      FallingPiece(PieceTable[0], 0, ncols / 2 - 2, 0, false)
    }

    /**
     * `iterateThroughPieceSquares(piece, update_background)`: every cell of
     * the piece is painted in scan order. No call is refused, since
     * `update_background` always returns true; the calls take effect in
     * the order the scan makes them.
     */
    method EmbedPiece(piece: FallingPiece) returns (ok: bool)
      requires Valid()
      requires AllOnBoard(nrows, ncols, PieceSquares(piece))
      modifies background
      ensures ok
      ensures background[..] == Embed(old(background[..]), nrows, ncols, PieceSquares(piece))
    {
      var calls;
      ok, calls := IterateThroughPieceSquares(piece, UpdateBackgroundResult);
      UpdateBackgroundAcceptsAll(PieceSquares(piece));
      AllAcceptedAtEnd(PieceSquares(piece), UpdateBackgroundResult);
      UpdateBackgroundEach(calls);
    }

    /** The effect of the `update_background` calls `calls`, made one after another. */
    method UpdateBackgroundEach(calls: seq<Square>)
      requires Valid()
      requires AllOnBoard(nrows, ncols, calls)
      modifies background
      ensures background[..] == Embed(old(background[..]), nrows, ncols, calls)
    {
      var i := 0;
      while i < |calls|
        invariant 0 <= i <= |calls|
        invariant background[..] == Embed(old(background[..]), nrows, ncols, calls[..i])
      {
        var square := calls[i];
        assert calls[..i + 1][..i] == calls[..i];
        assert OnBoard(nrows, ncols, calls[i]);
        var _ := UpdateBackground(square.x, square.y, square.color);
        i := i + 1;
      }
      assert calls[..|calls|] == calls;
    }

    /**
     * `move_down(piece)`: moves the piece one row down. When the piece had
     * already fallen, its cells at the new position are embedded into the
     * tracker and the result is true; otherwise the tracker is unchanged and
     * the result is false. The pointer argument is an in/out value here.
     */
    method MoveDown(piece: FallingPiece) returns (moved: FallingPiece, landed: bool)
      requires Valid()
      requires piece.fallen ==> AllOnBoard(nrows, ncols, PieceSquares(piece.(y := piece.y + 1)))
      modifies background
      ensures moved == piece.(y := piece.y + 1)
      ensures landed == piece.fallen
      ensures !landed ==> background[..] == old(background[..])
      ensures landed ==> background[..] == Embed(old(background[..]), nrows, ncols, PieceSquares(moved))
    {
      moved := piece.(y := piece.y + 1);
      if moved.fallen {
        var _ := EmbedPiece(moved);
        return moved, true;
      }
      return moved, false;
    }
  }

  /** What `update_background` returns to the scan: true for every square. */
  const UpdateBackgroundResult: Action := (x, y, c) => true

  /** So the scan run with `update_background` accepts every square. */
  lemma UpdateBackgroundAcceptsAll(sqs: seq<Square>)
    ensures AllAccept(sqs, UpdateBackgroundResult)
  {
  }

  /**
   * A piece that lands embeds exactly four cells: every cell of the piece
   * is painted with its colour, and every other cell keeps what it held.
   */
  lemma LandingPaintsPieceCells(grid: seq<Cell>, nrows: int, ncols: int, piece: FallingPiece, i: int)
    requires |grid| == nrows * ncols
    requires AllOnBoard(nrows, ncols, PieceSquares(piece))
    requires 0 <= i < |grid|
    ensures Embed(grid, nrows, ncols, PieceSquares(piece))[i] ==
              if Covers(ncols, PieceSquares(piece), i) then Paint(piece.pieceT.color) else grid[i]
  {
    PieceSquaresColor(piece);
    EmbedCell(grid, nrows, ncols, PieceSquares(piece), piece.pieceT.color, i);
  }

  /** Every callback argument of a piece carries the piece's colour. */
  lemma PieceSquaresColor(piece: FallingPiece)
    ensures forall j :: 0 <= j < |PieceSquares(piece)| ==> PieceSquares(piece)[j].color == piece.pieceT.color
  {
    var sqs := PieceSquares(piece);
    forall j | 0 <= j < |sqs| ensures sqs[j].color == piece.pieceT.color {
      ScanRangeMembership(Bits(RotationWord(piece)), piece.x, piece.y, piece.pieceT.color, 0, 16, sqs[j]);
    }
  }

  /** The I piece in rotation 0 occupies the second row of its grid, scan steps 4 .. 7. */
  lemma SpawnBits()
    ensures Bits(I.blockRotations[0]) ==
              [false, false, false, false, true, true, true, true,
               false, false, false, false, false, false, false, false]
  {
  }

  /**
   * The starting piece passes `checkIfValidMove` exactly when the board is
   * at least four columns wide and two rows high.
   */
  lemma SpawnIsValidIff(config: GameConfig)
    requires config.Valid()
    ensures var nrows, ncols := config.nrows, config.ncols;
            var check := (x, y, c) => CheckIfValidMove(nrows, ncols, x, y, c);
            AllAccept(PieceSquares(config.InitFallingPiece()), check) <==> 4 <= ncols && 2 <= nrows
  {
    var nrows, ncols := config.nrows, config.ncols;
    var piece := config.InitFallingPiece();
    var bits := Bits(RotationWord(piece));
    SpawnBits();
    ValidMoveIffOnBoard(piece, nrows, ncols);
    if 4 <= ncols && 2 <= nrows {
      forall k | 0 <= k < 16 && bits[k]
        ensures 0 <= piece.x + k % 4 < ncols && 0 <= piece.y + k / 4 < nrows
      {
        assert 4 <= k < 8;
      }
    } else {
      assert bits[4] && bits[7];
      assert 4 % 4 == 0 && 7 % 4 == 3 && 4 / 4 == 1;
    }
  }

  // ---------------------------------------------------------------------
  // Size of the background tracker
  // ---------------------------------------------------------------------

  /** Bytes in one `unsigned int` cell of `background[y][x]`. */
  const CellBytes := 4

  /** The byte size `game_update_init` passes to malloc and memset, as written: `nrows * ncols`. */
  function AllocatedBytesAsWritten(nrows: int, ncols: int): int
  {
    nrows * ncols
  }

  /** The allocation the indexing needs: `nrows * ncols` cells of `CellBytes` bytes. */
  function AllocatedBytes(nrows: int, ncols: int): int
  {
    CellBytes * (nrows * ncols)
  }

  /** Byte offset just past cell (x, y) of the tracker. */
  function CellEnd(ncols: int, x: int, y: int): int
  {
    CellBytes * (CellIndex(ncols, x, y) + 1)
  }

  /** On a 20x10 board the write to the bottom-right cell ends at byte 800 of a 200-byte buffer. */
  lemma AsWrittenBufferOverflows()
    ensures CellEnd(10, 9, 19) > AllocatedBytesAsWritten(20, 10)
  {
  }

  /** As written, the last cell of every non-empty board lies past the end of the buffer. */
  lemma AsWrittenLastCellOverflows(nrows: int, ncols: int)
    requires 0 < nrows && 0 < ncols
    ensures CellEnd(ncols, ncols - 1, nrows - 1) > AllocatedBytesAsWritten(nrows, ncols)
  {
    assert CellIndex(ncols, ncols - 1, nrows - 1) + 1 == nrows * ncols;
  }

  /** With `CellBytes` bytes per cell, every cell of the board lies inside the buffer. */
  lemma CellsFitAllocation(nrows: int, ncols: int, x: int, y: int)
    requires 0 <= x < ncols && 0 <= y < nrows
    ensures 0 <= CellBytes * CellIndex(ncols, x, y) && CellEnd(ncols, x, y) <= AllocatedBytes(nrows, ncols)
  {
    CellIndexInRange(nrows, ncols, x, y);
  }
}
