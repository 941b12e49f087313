/**
 * Tetris piece geometry of game_update.c: the seven-piece table, the
 * decoding of a 16-bit rotation word into the cells of a 4x4 grid, the
 * short-circuiting scan that hands every occupied cell to a callback,
 * and the board bounds check used as one such callback.
 *
 * A rotation word is scanned from bit 0x8000 (the k = 0 cell, top left of
 * the 4x4 grid) down to bit 0x0001 (k = 15, bottom right); the k-th cell
 * scanned sits at column k % 4 and row k / 4 of the grid.
 */
module Pieces {

  /** The low 16 bits of a rotation word: the only bits the scan reads. */
  type Word = bv16

  /** The gl colours the piece table names (gl.h is not part of this model). */
  datatype GlColor = Cyan | Blue | Orange | Yellow | Green | Purple | Red | Indigo

  /** `block_rotations[4]`: one word per rotation. */
  type Rotations = s: seq<Word> | |s| == 4 witness [0, 0, 0, 0]

  /** `char rotation`, documented as 0 through 3 and used as an index into `block_rotations`. */
  type Rotation = r: int | 0 <= r < 4

  /** `piece_t` */
  datatype Piece = Piece(name: char, color: GlColor, blockRotations: Rotations)

  /** `falling_piece_t` */
  datatype FallingPiece = FallingPiece(pieceT: Piece, rotation: Rotation, x: int, y: int, fallen: bool)

  /** The arguments of one callback call: `action(x, y, color)`. */
  datatype Square = Square(x: int, y: int, color: GlColor)

  /** A callback of type `functionPtr`, as the .c declares it: `bool (*)(int x, int y, color_t color)`. */
  type Action = (int, int, GlColor) -> bool

  const I: Piece := Piece('i', Cyan, [0x0F00, 0x2222, 0x00F0, 0x4444])
  const J: Piece := Piece('j', Blue, [0x44C0, 0x8E00, 0x6440, 0x0E20])
  const L: Piece := Piece('l', Orange, [0x4460, 0x0E80, 0xC440, 0x2E00])
  const O: Piece := Piece('o', Yellow, [0xCC00, 0xCC00, 0xCC00, 0xCC00])
  const S: Piece := Piece('s', Green, [0x06C0, 0x8C40, 0x6C00, 0x4620])
  const T: Piece := Piece('t', Purple, [0x0E40, 0x4C40, 0x4E00, 0x4640])
  const Z: Piece := Piece('z', Red, [0x0C60, 0x4C80, 0xC600, 0x2640])

  /** `pieces[7]` */
  const PieceTable: seq<Piece> := [I, J, L, O, S, T, Z]

  // ---------------------------------------------------------------------
  // Decoding a rotation word
  // ---------------------------------------------------------------------

  /**
   * The bit `bitSequence` holds at scan step k: 0x8000 at step 0, shifted
   * right by one at each further step.
   */
  function Mask(k: nat): Word
    requires k < 16
  {
    if k == 0 then 0x8000 else if k == 1 then 0x4000 else if k == 2 then 0x2000 else if k == 3 then 0x1000
    else if k == 4 then 0x0800 else if k == 5 then 0x0400 else if k == 6 then 0x0200 else if k == 7 then 0x0100
    else if k == 8 then 0x0080 else if k == 9 then 0x0040 else if k == 10 then 0x0020 else if k == 11 then 0x0010
    else if k == 12 then 0x0008 else if k == 13 then 0x0004 else if k == 14 then 0x0002 else 0x0001
  }

  /** The bits of w in scan order: entry k tells whether the cell of scan step k is occupied. */
  function Bits(w: Word): (b: seq<bool>)
    ensures |b| == 16
  {
    seq(16, k requires 0 <= k < 16 => w & Mask(k) != 0)
  }

  /** Entry k of Bits(w) is whether w has bit m, the bit of scan step k. */
  lemma BitsEntry(w: Word, k: nat, m: Word)
    requires k < 16 && m == Mask(k)
    ensures Bits(w)[k] == (w & m != 0)
  {
  }

  /** The callback arguments for scan step k of a piece at (x, y) of colour c. */
  function SquareAt(x: int, y: int, c: GlColor, k: nat): Square
  {
    Square(x + k % 4, y + k / 4, c)
  }

  /**
   * The callback arguments produced by scan steps lo .. hi-1, in scan order:
   * one Square per step whose bit is set.
   */
  function ScanRange(bits: seq<bool>, x: int, y: int, c: GlColor, lo: nat, hi: nat): (r: seq<Square>)
    requires lo <= hi <= |bits|
    ensures |r| <= hi - lo
    decreases hi
  {
    if hi == lo then []
    else ScanRange(bits, x, y, c, lo, hi - 1) + (if bits[hi - 1] then [SquareAt(x, y, c, hi - 1)] else [])
  }

  /** 1 for a set bit, 0 for a clear one. */
  function One(b: bool): nat
  {
    if b then 1 else 0
  }

  /** Number of set bits among scan steps lo .. hi-1. */
  function PopCount(bits: seq<bool>, lo: nat, hi: nat): nat
    requires lo <= hi <= |bits|
    decreases hi
  {
    if hi == lo then 0 else PopCount(bits, lo, hi - 1) + One(bits[hi - 1])
  }

  /** The cells a rotation word occupies for a 4x4 grid whose top-left corner is (x, y). */
  function Cells(w: Word, x: int, y: int, c: GlColor): seq<Square>
  {
    ScanRange(Bits(w), x, y, c, 0, 16)
  }

  /** `piece.pieceT.block_rotations[piece.rotation]` */
  function RotationWord(piece: FallingPiece): Word
  {
    piece.pieceT.blockRotations[piece.rotation]
  }

  /** The callback arguments the scan of `piece` produces when no call fails. */
  function PieceSquares(piece: FallingPiece): seq<Square>
  {
    Cells(RotationWord(piece), piece.x, piece.y, piece.pieceT.color)
  }

  /** Scan position of a square relative to the grid corner (x, y). */
  function ScanIndex(s: Square, x: int, y: int): int
  {
    4 * (s.y - y) + (s.x - x)
  }

  /** Scanning lo .. hi is scanning lo .. mid, then mid .. hi. */
  lemma {:induction false} ScanRangeSplit(bits: seq<bool>, x: int, y: int, c: GlColor, lo: nat, mid: nat, hi: nat)
    requires lo <= mid <= hi <= |bits|
    ensures ScanRange(bits, x, y, c, lo, hi) == ScanRange(bits, x, y, c, lo, mid) + ScanRange(bits, x, y, c, mid, hi)
    decreases hi
  {
    if hi > mid {
      ScanRangeSplit(bits, x, y, c, lo, mid, hi - 1);
    }
  }

  /** A square is produced by the scan exactly when its bit is set: both directions. */
  lemma {:induction false} ScanRangeMembership(bits: seq<bool>, x: int, y: int, c: GlColor, lo: nat, hi: nat, s: Square)
    requires lo <= hi <= |bits|
    ensures s in ScanRange(bits, x, y, c, lo, hi) <==>
              exists k :: lo <= k < hi && bits[k] && s == SquareAt(x, y, c, k)
    decreases hi
  {
    if hi > lo {
      ScanRangeMembership(bits, x, y, c, lo, hi - 1, s);
      if s == SquareAt(x, y, c, hi - 1) && bits[hi - 1] {
        assert s in ScanRange(bits, x, y, c, lo, hi);
      }
    }
  }

  /** Scan step k sits at scan position k of the grid. */
  lemma ScanIndexOfStep(x: int, y: int, c: GlColor, k: nat)
    ensures ScanIndex(SquareAt(x, y, c, k), x, y) == k
  {
  }

  /**
   * Squares whose scan positions relative to (x, y) lie in lo .. hi-1 and
   * strictly increase along the sequence.
   */
  predicate InScanOrder(r: seq<Square>, x: int, y: int, lo: int, hi: int)
  {
    && (forall i :: 0 <= i < |r| ==> lo <= ScanIndex(r[i], x, y) < hi)
    && (forall i, j :: 0 <= i < j < |r| ==> ScanIndex(r[i], x, y) < ScanIndex(r[j], x, y))
  }

  /**
   * The scan produces its squares in strictly increasing scan position, so
   * in scan order and with no cell twice; each position is a scan step in range.
   */
  lemma {:induction false} ScanRangeOrdered(bits: seq<bool>, x: int, y: int, c: GlColor, lo: nat, hi: nat)
    requires lo <= hi <= |bits|
    ensures InScanOrder(ScanRange(bits, x, y, c, lo, hi), x, y, lo, hi)
    decreases hi
  {
    if hi > lo {
      ScanRangeOrdered(bits, x, y, c, lo, hi - 1);
      var front := ScanRange(bits, x, y, c, lo, hi - 1);
      var last := if bits[hi - 1] then [SquareAt(x, y, c, hi - 1)] else [];
      var r := ScanRange(bits, x, y, c, lo, hi);
      assert r == front + last;
      ScanIndexOfStep(x, y, c, hi - 1);
      forall i | 0 <= i < |r|
        ensures lo <= ScanIndex(r[i], x, y) < hi
      {
        if i < |front| {
          assert r[i] == front[i];
        } else {
          assert r[i] == SquareAt(x, y, c, hi - 1);
        }
      }
      forall i, j | 0 <= i < j < |r|
        ensures ScanIndex(r[i], x, y) < ScanIndex(r[j], x, y)
      {
        assert r[i] == front[i];
        if j < |front| {
          assert r[j] == front[j];
        } else {
          assert r[j] == SquareAt(x, y, c, hi - 1);
        }
      }
    }
  }

  /** Every square the scan produces has colour c and lies in the 4x4 box [x, x+3] x [y, y+3]. */
  lemma {:induction false} ScanRangeInBox(bits: seq<bool>, x: int, y: int, c: GlColor, lo: nat, hi: nat)
    requires lo <= hi <= |bits| && hi <= 16
    ensures forall s :: s in ScanRange(bits, x, y, c, lo, hi) ==>
              s.color == c && x <= s.x <= x + 3 && y <= s.y <= y + 3
    decreases hi
  {
    if hi > lo {
      ScanRangeInBox(bits, x, y, c, lo, hi - 1);
      var k := hi - 1;
      assert k / 4 <= 3;
      assert ScanRange(bits, x, y, c, lo, hi) ==
               ScanRange(bits, x, y, c, lo, k) + if bits[k] then [SquareAt(x, y, c, k)] else [];
    }
  }

  /** The scan produces one square per set bit. */
  lemma {:induction false} ScanRangeLength(bits: seq<bool>, x: int, y: int, c: GlColor, lo: nat, hi: nat)
    requires lo <= hi <= |bits|
    ensures |ScanRange(bits, x, y, c, lo, hi)| == PopCount(bits, lo, hi)
    decreases hi
  {
    if hi > lo {
      ScanRangeLength(bits, x, y, c, lo, hi - 1);
    }
  }

  /** Counting set bits over lo .. hi is counting over lo .. mid, then mid .. hi. */
  lemma {:induction false} PopCountSplit(bits: seq<bool>, lo: nat, mid: nat, hi: nat)
    requires lo <= mid <= hi <= |bits|
    ensures PopCount(bits, lo, hi) == PopCount(bits, lo, mid) + PopCount(bits, mid, hi)
    decreases hi
  {
    if hi > mid {
      PopCountSplit(bits, lo, mid, hi - 1);
    }
  }

  /** The set bits among the four scan steps of grid row r. */
  lemma PopCountRow(bits: seq<bool>, r: nat)
    requires r < 4 && |bits| == 16
    ensures PopCount(bits, 4 * r, 4 * r + 4) ==
              One(bits[4 * r]) + One(bits[4 * r + 1]) + One(bits[4 * r + 2]) + One(bits[4 * r + 3])
  {
    assert PopCount(bits, 4 * r, 4 * r + 1) == One(bits[4 * r]);
    assert PopCount(bits, 4 * r, 4 * r + 2) == One(bits[4 * r]) + One(bits[4 * r + 1]);
    assert PopCount(bits, 4 * r, 4 * r + 3) == One(bits[4 * r]) + One(bits[4 * r + 1]) + One(bits[4 * r + 2]);
  }

  /** The set bits of w among the four bits m0 .. m3. */
  function RowBitCount(w: Word, m0: Word, m1: Word, m2: Word, m3: Word): nat
  {
    One(w & m0 != 0) + One(w & m1 != 0) + One(w & m2 != 0) + One(w & m3 != 0)
  }

  /** The number of set bits of a 16-bit word, written out row by row of the 4x4 grid. */
  function BitCount(w: Word): nat
  {
    RowBitCount(w, 0x8000, 0x4000, 0x2000, 0x1000) +
    RowBitCount(w, 0x0800, 0x0400, 0x0200, 0x0100) +
    RowBitCount(w, 0x0080, 0x0040, 0x0020, 0x0010) +
    RowBitCount(w, 0x0008, 0x0004, 0x0002, 0x0001)
  }

  /** A grid row whose scan-order bits agree with w's bits m0 .. m3 has as many set bits. */
  lemma RowFromBits(bits: seq<bool>, w: Word, r: nat, m0: Word, m1: Word, m2: Word, m3: Word)
    requires r < 4 && |bits| == 16
    requires bits[4 * r] == (w & m0 != 0) && bits[4 * r + 1] == (w & m1 != 0)
    requires bits[4 * r + 2] == (w & m2 != 0) && bits[4 * r + 3] == (w & m3 != 0)
    ensures PopCount(bits, 4 * r, 4 * r + 4) == RowBitCount(w, m0, m1, m2, m3)
  {
    PopCountRow(bits, r);
  }

  /** The top grid row has as many set bits in scan order as word w has among bits 0x8000 .. 0x1000. */
  lemma Row0BitCount(w: Word)
    ensures PopCount(Bits(w), 0, 4) == RowBitCount(w, 0x8000, 0x4000, 0x2000, 0x1000)
  {
    BitsEntry(w, 0, 0x8000);
    BitsEntry(w, 1, 0x4000);
    BitsEntry(w, 2, 0x2000);
    BitsEntry(w, 3, 0x1000);
    RowFromBits(Bits(w), w, 0, 0x8000, 0x4000, 0x2000, 0x1000);
  }

  /** The second grid row has as many set bits in scan order as word w has among bits 0x0800 .. 0x0100. */
  lemma Row1BitCount(w: Word)
    ensures PopCount(Bits(w), 4, 8) == RowBitCount(w, 0x0800, 0x0400, 0x0200, 0x0100)
  {
    BitsEntry(w, 4, 0x0800);
    BitsEntry(w, 5, 0x0400);
    BitsEntry(w, 6, 0x0200);
    BitsEntry(w, 7, 0x0100);
    RowFromBits(Bits(w), w, 1, 0x0800, 0x0400, 0x0200, 0x0100);
  }

  /** The third grid row has as many set bits in scan order as word w has among bits 0x0080 .. 0x0010. */
  lemma Row2BitCount(w: Word)
    ensures PopCount(Bits(w), 8, 12) == RowBitCount(w, 0x0080, 0x0040, 0x0020, 0x0010)
  {
    BitsEntry(w, 8, 0x0080);
    BitsEntry(w, 9, 0x0040);
    BitsEntry(w, 10, 0x0020);
    BitsEntry(w, 11, 0x0010);
    RowFromBits(Bits(w), w, 2, 0x0080, 0x0040, 0x0020, 0x0010);
  }

  /** The bottom grid row has as many set bits in scan order as word w has among bits 0x0008 .. 0x0001. */
  lemma Row3BitCount(w: Word)
    ensures PopCount(Bits(w), 12, 16) == RowBitCount(w, 0x0008, 0x0004, 0x0002, 0x0001)
  {
    BitsEntry(w, 12, 0x0008);
    BitsEntry(w, 13, 0x0004);
    BitsEntry(w, 14, 0x0002);
    BitsEntry(w, 15, 0x0001);
    RowFromBits(Bits(w), w, 3, 0x0008, 0x0004, 0x0002, 0x0001);
  }

  /** Counting set bits in scan order agrees with counting them bit by bit. */
  lemma PopCountIsBitCount(w: Word)
    ensures PopCount(Bits(w), 0, 16) == BitCount(w)
  {
    Row0BitCount(w);
    Row1BitCount(w);
    Row2BitCount(w);
    Row3BitCount(w);
    PopCountSplit(Bits(w), 0, 8, 16);
    PopCountSplit(Bits(w), 0, 4, 8);
    PopCountSplit(Bits(w), 8, 12, 16);
  }


  /** Each rotation word of piece I has four set bits. */
  lemma PieceIHasFourBits(r: Rotation)
    ensures BitCount(I.blockRotations[r]) == 4
  {
  }

  /** Each rotation word of piece J has four set bits. */
  lemma PieceJHasFourBits(r: Rotation)
    ensures BitCount(J.blockRotations[r]) == 4
  {
  }

  /** Each rotation word of piece L has four set bits. */
  lemma PieceLHasFourBits(r: Rotation)
    ensures BitCount(L.blockRotations[r]) == 4
  {
  }

  /** Each rotation word of piece O has four set bits. */
  lemma PieceOHasFourBits(r: Rotation)
    ensures BitCount(O.blockRotations[r]) == 4
  {
  }

  /** Each rotation word of piece S has four set bits. */
  lemma PieceSHasFourBits(r: Rotation)
    ensures BitCount(S.blockRotations[r]) == 4
  {
  }

  /** Each rotation word of piece T has four set bits. */
  lemma PieceTHasFourBits(r: Rotation)
    ensures BitCount(T.blockRotations[r]) == 4
  {
  }

  /** Each rotation word of piece Z has four set bits. */
  lemma PieceZHasFourBits(r: Rotation)
    ensures BitCount(Z.blockRotations[r]) == 4
  {
  }

  /** Every rotation word in the seven-piece table has exactly four set bits. */
  lemma TableWordsHaveFourBits(p: Piece, r: Rotation)
    requires p in PieceTable
    ensures BitCount(p.blockRotations[r]) == 4
  {
    assert p == I || p == J || p == L || p == O || p == S || p == T || p == Z;
    if p == I {
      PieceIHasFourBits(r);
    } else if p == J {
      PieceJHasFourBits(r);
    } else if p == L {
      PieceLHasFourBits(r);
    } else if p == O {
      PieceOHasFourBits(r);
    } else if p == S {
      PieceSHasFourBits(r);
    } else if p == T {
      PieceTHasFourBits(r);
    } else {
      PieceZHasFourBits(r);
    }
  }

  /** So a piece from the table occupies four cells in every rotation. */
  lemma TablePieceHasFourCells(piece: FallingPiece)
    requires piece.pieceT in PieceTable
    ensures |PieceSquares(piece)| == 4
  {
    var w := RotationWord(piece);
    TableWordsHaveFourBits(piece.pieceT, piece.rotation);
    PopCountIsBitCount(w);
    ScanRangeLength(Bits(w), piece.x, piece.y, piece.pieceT.color, 0, 16);
  }

  // ---------------------------------------------------------------------
  // The short-circuiting scan
  // ---------------------------------------------------------------------

  /** Whether the callback accepts the square. */
  predicate Accepts(action: Action, s: Square)
  {
    action(s.x, s.y, s.color)
  }

  /** Whether the callback accepts every one of `sqs`. */
  predicate AllAccept(sqs: seq<Square>, action: Action)
  {
    forall i :: 0 <= i < |sqs| ==> Accepts(action, sqs[i])
  }

  /**
   * The callback calls made when `sqs` are offered in order and offering
   * stops right after the first call that returns false.
   */
  function CallsMade(sqs: seq<Square>, action: Action): seq<Square>
    decreases |sqs|
  {
    if sqs == [] then []
    else if !Accepts(action, sqs[0]) then [sqs[0]]
    else [sqs[0]] + CallsMade(sqs[1..], action)
  }

  /**
   * The calls made are a prefix of `sqs` in which every call but the last
   * returned true; if every square is accepted, every square is offered;
   * otherwise the last call made returned false.
   */
  lemma {:induction false} CallsMadeShape(sqs: seq<Square>, action: Action)
    ensures var calls := CallsMade(sqs, action);
            && calls <= sqs
            && (forall i :: 0 <= i < |calls| - 1 ==> Accepts(action, calls[i]))
            && (AllAccept(sqs, action) ==> calls == sqs)
            && (!AllAccept(sqs, action) ==> |calls| > 0 && !Accepts(action, calls[|calls| - 1]))
    decreases |sqs|
  {
    if sqs != [] && Accepts(action, sqs[0]) {
      CallsMadeShape(sqs[1..], action);
      var rest := CallsMade(sqs[1..], action);
      assert CallsMade(sqs, action) == [sqs[0]] + rest;
      if AllAccept(sqs[1..], action) {
        assert AllAccept(sqs, action) by {
          forall i | 0 < i < |sqs| ensures Accepts(action, sqs[i]) {
            assert sqs[i] == sqs[1..][i - 1];
          }
        }
      } else {
        var j :| 0 <= j < |sqs[1..]| && !Accepts(action, sqs[1..][j]);
        assert !Accepts(action, sqs[j + 1]);
      }
    }
  }

  /** Squares that are all accepted are all offered, and offering goes on past them. */
  lemma {:induction false} CallsMadeAfterAccepted(done: seq<Square>, rest: seq<Square>, action: Action)
    requires AllAccept(done, action)
    ensures CallsMade(done + rest, action) == done + CallsMade(rest, action)
    decreases |done|
  {
    if done != [] {
      assert Accepts(action, done[0]);
      assert (done + rest)[0] == done[0];
      assert (done + rest)[1..] == done[1..] + rest;
      assert AllAccept(done[1..], action) by {
        forall i | 0 <= i < |done[1..]| ensures Accepts(action, done[1..][i]) {
          assert done[1..][i] == done[i + 1];
        }
      }
      CallsMadeAfterAccepted(done[1..], rest, action);
      calc {
        CallsMade(done + rest, action);
        [done[0]] + CallsMade(done[1..] + rest, action);
        [done[0]] + (done[1..] + CallsMade(rest, action));
        { assert [done[0]] + done[1..] == done; }
        done + CallsMade(rest, action);
      }
    } else {
      assert done + rest == rest;
    }
  }

  /**
   * The squares the scan loop still offers from the state (row, col, bit):
   * the cell at column col of row row when `w & bit` is set, then the rest
   * of the scan with the bit shifted right and the column advanced, wrapping
   * to the next row after column 3, until the bit is shifted out.
   */
  function RemainingScan(w: Word, x: int, y: int, c: GlColor, row: int, col: int, bit: Word): seq<Square>
    decreases bit
  {
    if bit == 0 then []
    else
      ShiftSmaller(bit);
      (if w & bit != 0 then [Square(x + col, y + row, c)] else []) +
      (if col + 1 == 4 then RemainingScan(w, x, y, c, row + 1, 0, bit >> 1)
       else RemainingScan(w, x, y, c, row, col + 1, bit >> 1))
  }

  /** Shifting a nonzero bit right makes it smaller, so the scan loop ends. */
  lemma ShiftSmaller(b: Word)
    requires b != 0
    ensures b >> 1 < b
  {
  }

  /** Scan step 4 * row + col produces the cell at column col of grid row row. */
  lemma SquareAtGrid(x: int, y: int, c: GlColor, row: nat, col: nat, k: nat)
    requires col < 4 && k == 4 * row + col
    ensures SquareAt(x, y, c, k) == Square(x + col, y + row, c)
  {
    GridPosition(row, col, k);
  }

  /** Scan step 4 * row + col sits at column col of grid row row. */
  lemma GridPosition(row: nat, col: nat, k: nat)
    requires col < 4 && k == 4 * row + col
    ensures k % 4 == col && k / 4 == row
  {
  }

  /** The scan of steps k .. hi-1 starts with the square of step k when its bit is set. */
  lemma ScanRangeFirst(bits: seq<bool>, x: int, y: int, c: GlColor, k: nat, hi: nat)
    requires k < hi <= |bits|
    ensures ScanRange(bits, x, y, c, k, hi) ==
              (if bits[k] then [SquareAt(x, y, c, k)] else []) + ScanRange(bits, x, y, c, k + 1, hi)
  {
    ScanRangeSplit(bits, x, y, c, k, k + 1, hi);
    assert ScanRange(bits, x, y, c, k, k + 1) == [] + if bits[k] then [SquareAt(x, y, c, k)] else [];
  }

  /**
   * One step of the loop against the specification: when the state
   * (row, col, bit) stands for scan step k = 4 * row + col and the state
   * after it offers the squares of steps k + 1 .. 15, the state itself offers
   * those of steps k .. 15.
   */
  lemma ScanStep(w: Word, x: int, y: int, c: GlColor, row: nat, col: nat, k: nat, bit: Word)
    requires col < 4 && k == 4 * row + col < 16
    requires bit != 0 && bit == Mask(k)
    requires NextScan(w, x, y, c, row, col, bit) == ScanRange(Bits(w), x, y, c, k + 1, 16)
    ensures RemainingScan(w, x, y, c, row, col, bit) == ScanRange(Bits(w), x, y, c, k, 16)
  {
    BitsEntry(w, k, bit);
    SquareAtGrid(x, y, c, row, col, k);
    ScanRangeFirst(Bits(w), x, y, c, k, 16);
    RemainingScanUnfold(w, x, y, c, row, col, bit);
  }

  /**
   * Two consecutive steps of grid row `row`, at columns col and col + 1 and
   * testing bits b0 and b1: the state before them offers the squares of
   * steps k .. 15 if the state after them offers those of steps k + 2 .. 15.
   */
  lemma ScanPair(w: Word, x: int, y: int, c: GlColor, row: nat, col: nat, k: nat, b0: Word, b1: Word)
    requires col + 1 < 4 && k == 4 * row + col && k + 1 < 16
    requires b0 != 0 && b1 != 0 && b0 >> 1 == b1
    requires b0 == Mask(k) && b1 == Mask(k + 1)
    requires NextScan(w, x, y, c, row, col + 1, b1) == ScanRange(Bits(w), x, y, c, k + 2, 16)
    ensures RemainingScan(w, x, y, c, row, col, b0) == ScanRange(Bits(w), x, y, c, k, 16)
  {
    ScanStep(w, x, y, c, row, col + 1, k + 1, b1);
    ScanStep(w, x, y, c, row, col, k, b0);
  }

  /**
   * The four steps of grid row `row`, testing bits b0 .. b3 in turn: if the
   * state that starts the next row offers the squares of steps
   * 4 * row + 4 .. 15, the state that starts this row offers those of steps
   * 4 * row .. 15.
   */
  lemma ScanRow(w: Word, x: int, y: int, c: GlColor, row: nat, b0: Word, b1: Word, b2: Word, b3: Word, next: Word)
    requires row < 4
    requires b0 != 0 && b1 != 0 && b2 != 0 && b3 != 0
    requires b0 >> 1 == b1 && b1 >> 1 == b2 && b2 >> 1 == b3 && b3 >> 1 == next
    requires b0 == Mask(4 * row) && b1 == Mask(4 * row + 1)
    requires b2 == Mask(4 * row + 2) && b3 == Mask(4 * row + 3)
    requires RemainingScan(w, x, y, c, row + 1, 0, next) == ScanRange(Bits(w), x, y, c, 4 * row + 4, 16)
    ensures RemainingScan(w, x, y, c, row, 0, b0) == ScanRange(Bits(w), x, y, c, 4 * row, 16)
  {
    assert RemainingScan(w, x, y, c, row, 2, b2) == ScanRange(Bits(w), x, y, c, 4 * row + 2, 16) by {
      ScanPair(w, x, y, c, row, 2, 4 * row + 2, b2, b3);
    }
    ScanPair(w, x, y, c, row, 0, 4 * row, b0, b1);
  }

  /**
   * The loop's initial state (row 0, column 0, bit 0x8000) offers the
   * squares of the whole word: its sixteen steps, the last row first.
   */
  lemma ScanFromStart(w: Word, x: int, y: int, c: GlColor)
    ensures RemainingScan(w, x, y, c, 0, 0, 0x8000) == Cells(w, x, y, c)
  {
    ScanRow(w, x, y, c, 3, 0x0008, 0x0004, 0x0002, 0x0001, 0);
    ScanRow(w, x, y, c, 2, 0x0080, 0x0040, 0x0020, 0x0010, 0x0008);
    ScanRow(w, x, y, c, 1, 0x0800, 0x0400, 0x0200, 0x0100, 0x0080);
    ScanRow(w, x, y, c, 0, 0x8000, 0x4000, 0x2000, 0x1000, 0x0800);
  }

  /** What the loop offers after the current step: the bit shifted right, the column advanced. */
  function NextScan(w: Word, x: int, y: int, c: GlColor, row: int, col: int, bit: Word): seq<Square>
    requires bit != 0
  {
    ShiftSmaller(bit);
    if col + 1 == 4 then RemainingScan(w, x, y, c, row + 1, 0, bit >> 1)
    else RemainingScan(w, x, y, c, row, col + 1, bit >> 1)
  }

  /** A state with a nonzero bit offers its own cell when the bit is set, then what the next state offers. */
  lemma RemainingScanUnfold(w: Word, x: int, y: int, c: GlColor, row: int, col: int, bit: Word)
    requires bit != 0
    ensures RemainingScan(w, x, y, c, row, col, bit) ==
              (if w & bit != 0 then [Square(x + col, y + row, c)] else []) + NextScan(w, x, y, c, row, col, bit)
  {
  }

  /**
   * One loop step: if `squares` is `done` followed by what the state
   * (row, col, bit) offers, then it is `done`, then the current cell when its
   * bit is set, then what the next state offers.
   */
  lemma ScanAdvance(squares: seq<Square>, done: seq<Square>, w: Word, x: int, y: int, c: GlColor, row: int, col: int, bit: Word)
    requires bit != 0
    requires squares == done + RemainingScan(w, x, y, c, row, col, bit)
    ensures w & bit != 0 ==> squares == done + [Square(x + col, y + row, c)] + NextScan(w, x, y, c, row, col, bit)
    ensures w & bit == 0 ==> squares == done + NextScan(w, x, y, c, row, col, bit)
    ensures bit >> 1 < bit
  {
    ShiftSmaller(bit);
    var rest := NextScan(w, x, y, c, row, col, bit);
    RemainingScanUnfold(w, x, y, c, row, col, bit);
    if w & bit != 0 {
      assert done + ([Square(x + col, y + row, c)] + rest) == done + [Square(x + col, y + row, c)] + rest;
    } else {
      assert [] + rest == rest;
    }
  }

  /**
   * `iterateThroughPieceSquares`: scans the piece's rotation word from bit
   * 0x8000 down to bit 0x0001, calls `action` on each occupied cell with the
   * piece's colour, and stops with false at the first call that returns
   * false. `calls` is the sequence of calls made.
   */
  method IterateThroughPieceSquares(piece: FallingPiece, action: Action) returns (ok: bool, calls: seq<Square>)
    ensures calls == CallsMade(PieceSquares(piece), action)
    ensures ok == AllAccept(PieceSquares(piece), action)
  {
    var pieceConfig := RotationWord(piece);
    ok, calls := ScanWord(pieceConfig, piece.x, piece.y, piece.pieceT.color, action);
    ScanFromStart(pieceConfig, piece.x, piece.y, piece.pieceT.color);
  }

  /**
   * The loop of `iterateThroughPieceSquares` over the word w for a grid at
   * (x, y) and colour c: the calls made are the squares the loop's initial
   * state offers, cut after the first refusal, and the result says whether
   * every one was accepted.
   */
  method ScanWord(w: Word, x: int, y: int, color: GlColor, action: Action) returns (ok: bool, calls: seq<Square>)
    ensures calls == CallsMade(RemainingScan(w, x, y, color, 0, 0, 0x8000), action)
    ensures ok == AllAccept(RemainingScan(w, x, y, color, 0, 0, 0x8000), action)
  {
    var pieceRow, pieceCol := 0, 0;
    var bitSequence: Word := 0x8000;
    calls := [];
    ghost var squares := RemainingScan(w, x, y, color, 0, 0, 0x8000);
    while bitSequence > 0
      invariant squares == calls + RemainingScan(w, x, y, color, pieceRow, pieceCol, bitSequence)
      invariant AllAccept(calls, action)
      decreases bitSequence
    {
      ghost var rest := NextScan(w, x, y, color, pieceRow, pieceCol, bitSequence);
      var square := Square(x + pieceCol, y + pieceRow, color);
      assert bitSequence >> 1 < bitSequence
          && (w & bitSequence != 0 ==> squares == calls + [square] + rest)
          && (w & bitSequence == 0 ==> squares == calls + rest) by {
        ScanAdvance(squares, calls, w, x, y, color, pieceRow, pieceCol, bitSequence);
      }
      if w & bitSequence != 0 {
        if !action(square.x, square.y, square.color) {
          assert CallsMade(squares, action) == calls + [square] && !AllAccept(squares, action) by {
            CallsStopAtRejected(calls, square, rest, action);
          }
          calls := calls + [square];
          ok := false;
          return;
        }
        AllAcceptAppend(calls, square, action);
        calls := calls + [square];
      }
      pieceCol := pieceCol + 1;
      if pieceCol == 4 {
        pieceCol := 0;
        pieceRow := pieceRow + 1;
      }
      bitSequence := bitSequence >> 1;
      assert rest == RemainingScan(w, x, y, color, pieceRow, pieceCol, bitSequence);
    }
    assert RemainingScan(w, x, y, color, pieceRow, pieceCol, bitSequence) == [];
    assert squares == calls;
    AllAcceptedAtEnd(calls, action);
    ok := true;
  }


  /** Accepting a further square extends an all-accepted prefix. */
  lemma AllAcceptAppend(sqs: seq<Square>, s: Square, action: Action)
    requires AllAccept(sqs, action) && Accepts(action, s)
    ensures AllAccept(sqs + [s], action)
  {
  }

  /** Offering stops right after the first rejected square. */
  lemma {:induction false} CallsStopAtRejected(done: seq<Square>, square: Square, rest: seq<Square>, action: Action)
    requires AllAccept(done, action) && !Accepts(action, square)
    ensures CallsMade(done + [square] + rest, action) == done + [square]
    ensures !AllAccept(done + [square] + rest, action)
  {
    var tail := [square] + rest;
    assert done + [square] + rest == done + tail;
    assert tail[0] == square;
    assert CallsMade(tail, action) == [square];
    CallsMadeAfterAccepted(done, tail, action);
    assert (done + tail)[|done|] == square;
  }

  /** When every square was accepted, the calls made are all of them. */
  lemma AllAcceptedAtEnd(sqs: seq<Square>, action: Action)
    requires AllAccept(sqs, action)
    ensures CallsMade(sqs, action) == sqs
  {
    CallsMadeShape(sqs, action);
  }

  // ---------------------------------------------------------------------
  // Bounds check
  // ---------------------------------------------------------------------

  /**
   * `checkIfValidMove(x, y, color)` against a board of `nrows` rows and
   * `ncols` columns (the dimensions recorded by `game_update_init`).
   */
  function CheckIfValidMove(nrows: int, ncols: int, x: int, y: int, color: GlColor): (ok: bool)
    ensures ok <==> 0 <= x < ncols && 0 <= y < nrows
  {
    if x < 0 || y < 0 then false
    else if x >= ncols || y >= nrows then false
    else true
  }

  /** A cell `checkIfValidMove` accepted lies on the board. */
  lemma AcceptedCellOnBoard(bits: seq<bool>, x: int, y: int, c: GlColor, nrows: int, ncols: int, k: nat)
    requires |bits| == 16 && k < 16 && bits[k]
    requires AllAccept(ScanRange(bits, x, y, c, 0, 16), (x, y, c) => CheckIfValidMove(nrows, ncols, x, y, c))
    ensures 0 <= x + k % 4 < ncols && 0 <= y + k / 4 < nrows
  {
    var sqs := ScanRange(bits, x, y, c, 0, 16);
    ScanRangeMembership(bits, x, y, c, 0, 16, SquareAt(x, y, c, k));
    var i :| 0 <= i < |sqs| && sqs[i] == SquareAt(x, y, c, k);
    assert Accepts((x, y, c) => CheckIfValidMove(nrows, ncols, x, y, c), sqs[i]);
  }

  /** When every occupied cell lies on the board, `checkIfValidMove` accepts them all. */
  lemma OnBoardCellsAccepted(bits: seq<bool>, x: int, y: int, c: GlColor, nrows: int, ncols: int)
    requires |bits| == 16
    requires forall k :: 0 <= k < 16 && bits[k] ==> 0 <= x + k % 4 < ncols && 0 <= y + k / 4 < nrows
    ensures AllAccept(ScanRange(bits, x, y, c, 0, 16), (x, y, c) => CheckIfValidMove(nrows, ncols, x, y, c))
  {
    var sqs := ScanRange(bits, x, y, c, 0, 16);
    forall i | 0 <= i < |sqs|
      ensures CheckIfValidMove(nrows, ncols, sqs[i].x, sqs[i].y, sqs[i].color)
    {
      ScanRangeMembership(bits, x, y, c, 0, 16, sqs[i]);
    }
  }

  /**
   * Offering the cells of `bits` at (x, y) to `checkIfValidMove` succeeds
   * exactly when every occupied cell lies on the board.
   */
  lemma ValidMoveIffInBounds(bits: seq<bool>, x: int, y: int, c: GlColor, nrows: int, ncols: int)
    requires |bits| == 16
    ensures var check := (x, y, c) => CheckIfValidMove(nrows, ncols, x, y, c);
            AllAccept(ScanRange(bits, x, y, c, 0, 16), check) <==>
              forall k :: 0 <= k < 16 && bits[k] ==> 0 <= x + k % 4 < ncols && 0 <= y + k / 4 < nrows
  {
    var check := (x, y, c) => CheckIfValidMove(nrows, ncols, x, y, c);
    if AllAccept(ScanRange(bits, x, y, c, 0, 16), check) {
      forall k | 0 <= k < 16 && bits[k]
        ensures 0 <= x + k % 4 < ncols && 0 <= y + k / 4 < nrows
      {
        AcceptedCellOnBoard(bits, x, y, c, nrows, ncols, k);
      }
    }
    if forall k :: 0 <= k < 16 && bits[k] ==> 0 <= x + k % 4 < ncols && 0 <= y + k / 4 < nrows {
      OnBoardCellsAccepted(bits, x, y, c, nrows, ncols);
    }
  }

  /**
   * `checkIfValidMove` accepts every cell of a piece exactly when every
   * occupied cell of its rotation word lies on the board.
   */
  lemma ValidMoveIffOnBoard(piece: FallingPiece, nrows: int, ncols: int)
    ensures var check := (x, y, c) => CheckIfValidMove(nrows, ncols, x, y, c);
            AllAccept(PieceSquares(piece), check) <==>
              forall k :: 0 <= k < 16 && Bits(RotationWord(piece))[k] ==>
                0 <= piece.x + k % 4 < ncols && 0 <= piece.y + k / 4 < nrows
  {
    ValidMoveIffInBounds(Bits(RotationWord(piece)), piece.x, piece.y, piece.pieceT.color, nrows, ncols);
  }
}
