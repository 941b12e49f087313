# Interrupt configuration and Tetris board logic, in Dafny

This project models two parts of a bare-metal Mango Pi (Allwinner D1-H) course repository.

**The interrupt configuration interface** of `cs107e/include/interrupts.h` (module `Interrupts`, file `interrupts.dfy`).
- `InterruptController` is the module's singleton state: the one-time `initialized` flag, the global enable, the set of enabled sources, one `(fn, aux_data)` slot per valid source, and the set of sources the hardware holds pending.
- `Init`, `GlobalEnable`, `GlobalDisable`, `EnableSource`, `DisableSource` and `RegisterHandler` follow the header's contract.
- A call the header says "raises an error" returns `Error(DoubleInit)` or `Error(InvalidSource)` and changes nothing.
- `Delivery` says which handler call a pending interrupt produces: the registered function, the interrupted pc and the registered aux data. It produces a call exactly when the module is initialised, delivery is globally on, the source is enabled and a handler is registered.
- Short call sequences (`InitTwice`, `RegisterThenEnable`, `SuspendAndResume`, `PendingSurvivesDisable`, ...) prove that behaviour end to end.

**The Tetris piece geometry and background tracker** of `game_update.c`.
- Module `Pieces` (file `pieces.dfy`) holds the seven-piece table and the decoding of a 16-bit rotation word into the cells of a 4x4 grid.
- `IterateThroughPieceSquares` reads the piece's rotation word and runs the bit-scanning loop `ScanWord` with its short-circuiting callback. `CheckIfValidMove` is the bounds check.
- The loop is proved against the scan it starts from (`RemainingScan`), and `ScanFromStart` equates that scan with the specification function `PieceSquares`. That function is built from `Bits` (the word's bits in scan order) and `ScanRange`.
- Module `GameUpdate` (file `game_update.dfy`) holds `game_config` as the class `GameConfig`. Its background tracker is an `array<Cell>` of `nrows * ncols` cells in row-major order.
- `GameConfig` has `GameUpdateInit`, `UpdateBackground`, `InitFallingPiece` and `MoveDown`.
- Landing is specified by the function `Embed`. `EmbedCell` proves that it paints exactly the piece's cells.

`wrappers.dfy` holds the `Option` type.

## Model

| member | source | states |
|---|---|---|
| Interrupts.ValidSourcesAreRanges | cs107e/include/interrupts.h:121-141 | a number is an accepted source exactly when it lies in 18-23, 25-28, 31-32, 71-72 or is odd in 85-95 |
| Interrupts.ValidSourcesCount | cs107e/include/interrupts.h:121-141 | the enumeration has exactly 20 distinct source numbers |
| Interrupts.AscendingCard | cs107e/include/interrupts.h:121-141 | an ascending list of source numbers has as many distinct members as entries |
| Interrupts.InterruptController.constructor | cs107e/include/interrupts.h:25-27 | before init the module is uninitialised, nothing is enabled, every slot is empty |
| Interrupts.InterruptController.Init | cs107e/include/interrupts.h:18-27 | the first call leaves all sources disabled, delivery globally off and every slot empty; a second call is the DoubleInit error and changes nothing |
| Interrupts.InterruptController.GlobalEnable | cs107e/include/interrupts.h:38-39 | delivery is on; enables, handlers and pending interrupts are unchanged |
| Interrupts.InterruptController.GlobalDisable | cs107e/include/interrupts.h:46-49 | delivery is off; handlers, per-source enables and pending interrupts are unchanged |
| Interrupts.InterruptController.EnableSource | cs107e/include/interrupts.h:56-62 | a valid source joins the enabled set and nothing else changes; any other value is the InvalidSource error with no change |
| Interrupts.InterruptController.DisableSource | cs107e/include/interrupts.h:69-74 | a valid source leaves the enabled set and its pending interrupt stays pending; any other value is the InvalidSource error with no change |
| Interrupts.InterruptController.RegisterHandler | cs107e/include/interrupts.h:93-110 | the source's one slot is overwritten with (fn, aux) and enables are untouched; with fn None the slot holds no handler; an invalid source is the InvalidSource error with no change |
| Interrupts.InterruptController.Latch | cs107e/include/interrupts.h:69-70 | the hardware marks a source pending; configuration is unchanged |
| Interrupts.InterruptController.ClearPending | cs107e/include/interrupts.h:69-70 | a pending interrupt is cleared; configuration is unchanged |
| Interrupts.InterruptController.WouldDispatch | cs107e/include/interrupts.h:38-58 | defines when an interrupt on a source reaches a handler: the module is initialised, delivery is globally on, the source is enabled and its slot holds a handler |
| Interrupts.InterruptController.Delivery | cs107e/include/interrupts.h:84-86 | a pending interrupt produces a handler call iff the source is enabled, delivery is globally on and a handler is registered; the call gets the interrupted pc and the registered aux data |
| Interrupts.InitTwice | cs107e/include/interrupts.h:25-27 | init succeeds once and the second init is the DoubleInit error |
| Interrupts.NothingAfterInit | cs107e/include/interrupts.h:19-23 | straight after init a pending interrupt reaches no handler |
| Interrupts.InvalidSourceRefused | cs107e/include/interrupts.h:108 | enable, disable and register on a number outside the enumeration all return InvalidSource |
| Interrupts.RegisterThenEnable | cs107e/include/interrupts.h:95-96 | registering does not enable: no call before the source and global enables, then exactly the call (fn, pc, aux) |
| Interrupts.Configured | cs107e/include/interrupts.h:93-96 | init, register, enable source and enable globally give exactly one configured source |
| Interrupts.SuspendAndResume | cs107e/include/interrupts.h:46-49 | a global disable stops delivery and a later global enable delivers the same call as before |
| Interrupts.PendingSurvivesDisable | cs107e/include/interrupts.h:69-70 | an interrupt on a disabled source is not delivered, stays pending, and is delivered once the source is enabled again |
| Interrupts.ReplaceThenRemove | cs107e/include/interrupts.h:109-110 | re-registering replaces fn and aux; registering NULL stops delivery though the source stays enabled |
| Interrupts.OtherSourcesUntouched | cs107e/include/interrupts.h:93-94 | configuring one source gives no delivery on any other source |
| Pieces.PieceIHasFourBits | game_update.c:14 | every rotation word of the I piece has four set bits |
| Pieces.PieceJHasFourBits | game_update.c:15 | every rotation word of the J piece has four set bits |
| Pieces.PieceLHasFourBits | game_update.c:16 | every rotation word of the L piece has four set bits |
| Pieces.PieceOHasFourBits | game_update.c:17 | every rotation word of the O piece has four set bits |
| Pieces.PieceSHasFourBits | game_update.c:18 | every rotation word of the S piece has four set bits |
| Pieces.PieceTHasFourBits | game_update.c:19 | every rotation word of the T piece has four set bits |
| Pieces.PieceZHasFourBits | game_update.c:20 | every rotation word of the Z piece has four set bits |
| Pieces.TableWordsHaveFourBits | game_update.c:14-22 | every word of every piece in the seven-piece table has exactly four set bits |
| Pieces.TablePieceHasFourCells | game_update.c:14-22 | a piece from the table occupies exactly four cells in every rotation |
| Pieces.PopCountIsBitCount | game_update.c:67-69 | counting the bits met by the scan agrees with counting the word's bits directly |
| Pieces.Cells | game_update.c:62-77 | defines the cells a rotation word occupies: one square (x + k % 4, y + k / 4) with the piece's colour per set bit, in scan order |
| Pieces.PieceSquares | game_update.c:62-77 | defines the callback arguments the scan of a falling piece produces: the cells of its current rotation word at its position |
| Pieces.Bits | game_update.c:69 | the scan reads exactly 16 bits, one per step |
| Pieces.BitsEntry | game_update.c:69 | step k of the scan tests bit Mask(k) of the word |
| Pieces.ScanRange | game_update.c:67-77 | scanning steps lo .. hi-1 makes at most one call per step |
| Pieces.ScanRangeMembership | game_update.c:69-70 | a square is offered iff its step's bit is set and the square is (x + k % 4, y + k / 4) with the piece's colour |
| Pieces.ScanRangeOrdered | game_update.c:67-77 | the squares come in strictly increasing scan position, so in scan order with no cell twice |
| Pieces.ScanRangeInBox | game_update.c:64-77 | every offered square has the piece's colour and lies in [x, x+3] x [y, y+3] |
| Pieces.ScanRangeLength | game_update.c:69-70 | one square is offered per set bit |
| Pieces.RemainingScan | game_update.c:66-77 | defines what the loop still offers from a state (row, column, bit): the cell of each later set bit, with the column wrapping to 0 and the row advancing after column 3 |
| Pieces.ScanFromStart | game_update.c:66-77 | the loop started at row 0, column 0 and bit 0x8000 offers exactly the cells of the word |
| Pieces.CallsMade | game_update.c:70 | defines the calls made when squares are offered in order: every square up to and including the first one the callback refuses |
| Pieces.CallsMadeShape | game_update.c:70 | the calls made are a prefix of the squares, all but the last accepted, and all of them when every square is accepted |
| Pieces.CallsStopAtRejected | game_update.c:70 | after the first call that returns false no further call is made |
| Pieces.ScanWord | game_update.c:66-78 | the loop, started at row 0, column 0 and bit 0x8000, makes the calls the word's occupied cells give in scan order, cut after the first refusal; it returns true iff the callback accepted every one |
| Pieces.IterateThroughPieceSquares | game_update.c:61-79 | the calls made are the piece's cells in scan order, cut after the first refusal; the result is true iff every cell was accepted |
| Pieces.CheckIfValidMove | game_update.c:81-85 | a cell passes the check iff 0 <= x < ncols and 0 <= y < nrows |
| Pieces.AcceptedCellOnBoard | game_update.c:81-85 | an occupied cell that checkIfValidMove accepted has 0 <= x < ncols and 0 <= y < nrows |
| Pieces.OnBoardCellsAccepted | game_update.c:81-85 | when every occupied cell lies on the board, checkIfValidMove accepts every cell offered |
| Pieces.ValidMoveIffInBounds | game_update.c:81-85 | checkIfValidMove accepts each cell of a grid iff every occupied cell has 0 <= x < ncols and 0 <= y < nrows |
| Pieces.ValidMoveIffOnBoard | game_update.c:81-85 | scanning a piece with checkIfValidMove succeeds iff every occupied cell of its rotation lies on the board |
| GameUpdate.CellIndex | game_update.c:98-99 | defines the row-major index y * ncols + x that `background[y][x]` addresses in the tracker |
| GameUpdate.CellIndexInRange | game_update.c:98-99 | the row-major index y * ncols + x of an on-board cell lies in the tracker |
| GameUpdate.CellIndexDecode | game_update.c:98-99 | row and column can be read back from a cell's index |
| GameUpdate.CellIndexInjective | game_update.c:98-99 | two on-board cells share an index iff they are the same cell |
| GameUpdate.Embed | game_update.c:127 | embedding squares keeps the tracker's size |
| GameUpdate.EmbedCell | game_update.c:127 | embedding squares of one colour paints exactly the cells they name and leaves every other cell as it was |
| GameUpdate.GameConfig.constructor | game_update.c:5-10 | the static record starts with no board and an empty tracker |
| GameUpdate.GameConfig.GameUpdateInit | game_update.c:25-33 | dimensions recorded, background colour indigo, a fresh tracker of nrows * ncols cleared cells |
| GameUpdate.GameConfig.UpdateBackground | game_update.c:97-101 | cell y * ncols + x is painted with the colour, every other cell is unchanged, and the result is true |
| GameUpdate.GameConfig.InitFallingPiece | game_update.c:44-50 | the I piece, rotation 0, top row, not fallen, its grid centred: left and right margins differ by at most one column |
| GameUpdate.GameConfig.EmbedPiece | game_update.c:127 | scanning with update_background succeeds and embeds exactly the piece's cells |
| GameUpdate.GameConfig.UpdateBackgroundEach | game_update.c:127 | a run of update_background calls leaves the tracker as Embed describes |
| GameUpdate.GameConfig.MoveDown | game_update.c:121-131 | y grows by exactly 1 and nothing else in the piece changes; a piece that had fallen is embedded and the result is true, otherwise the tracker is unchanged and the result is false |
| GameUpdate.LandingPaintsPieceCells | game_update.c:126-128 | after landing, every cell of the piece holds its colour and every other cell is as before |
| GameUpdate.PieceSquaresColor | game_update.c:70 | every callback argument carries the piece's colour |
| GameUpdate.UpdateBackgroundAcceptsAll | game_update.c:100 | update_background accepts every square, so the scan never stops early |
| GameUpdate.SpawnBits | game_update.c:14 | the I piece in rotation 0 occupies scan steps 4 to 7, its grid's second row |
| GameUpdate.SpawnIsValidIff | game_update.c:44-50 | the starting piece passes checkIfValidMove iff the board has at least 4 columns and 2 rows |
| GameUpdate.AsWrittenBufferOverflows | game_update.c:31-32 | as written, the bottom-right cell of a 20x10 board ends past the allocated bytes |
| GameUpdate.AsWrittenLastCellOverflows | game_update.c:31-32 | as written, the last cell of every non-empty board ends past the allocated bytes |
| GameUpdate.CellsFitAllocation | game_update.c:98-99 | with 4 bytes per cell, every cell of the board lies inside the allocation |

## Left out

- Hardware side of interrupts: installing the trap vector, the controller's registers and acknowledging a pending bit are not in the header. The hardware is represented only by `Latch` and `ClearPending`.
- Dispatch of an actual trap is not modelled: the trapped-pc capture, handling several pending sources in some order, and the fallback for an interrupt with no handler. `Delivery` states only which call a pending interrupt is eligible for.
- Interrupts.InterruptController.Init: clearing every slot is a modelling choice; the header promises only the disabled state. No slot can be written before init (`RegisterHandler` requires `initialized`), so the clearing cannot be observed. Pending interrupts are left as they were; the header says nothing about them.
- Interrupts.InterruptController.EnableSource: does not clear a pending interrupt, because the header gives no clear-on-enable rule.
- Interrupts.InterruptController.GlobalEnable, GlobalDisable, EnableSource, DisableSource, RegisterHandler: these require `initialized`. The header makes init a precondition of every other call and does not say what happens otherwise.
- Handler functions and aux pointers are opaque tokens (`HandlerId`, `AuxData`). Calling a handler is not modelled; the model only says which call would be made.
- Rendering: `gl_init`, `gl_clear`, `gl_swap_buffer`, `drawSquare` and `wipe_screen` are I/O with no state the model needs. So are the drawing scans in `init_falling_piece` and `move_down`.
- `malloc`, `free` and `memset` become a fresh Dafny array of cleared cells. Freeing the old tracker is implicit.
- Colours are the symbolic `GlColor` values the table names: gl.h is not part of this model. A tracker cell is `Blank` (the zero colour) or `Paint(colour)`.
- Pieces.IterateThroughPieceSquares: the callback is a pure function, and the method returns the calls it made. `update_background` has a side effect. `EmbedPiece` therefore applies those calls to the tracker after the scan, in the order they were made. This gives the same result because `update_background` always returns true and the scan never reads the tracker.
- GameUpdate.GameConfig.MoveDown: the `falling_piece_t*` argument is an in/out value rather than a pointer, so aliasing is not modelled.
- GameUpdate.GameConfig.UpdateBackground and MoveDown: they require the cells to be written to lie on the board. `update_background` writes without a check; it is documented as called only after a valid move (game_update.c:96). `move_down` itself (game_update.c:123-127) adds 1 to y and embeds the piece with no check, so the on-board obligation falls on `move_down`'s caller, and no code in this repository discharges it. The write of an off-board cell is undefined behaviour and is not modelled.
- GameUpdate.GameConfig.GameUpdateInit: requires non-negative dimensions. Negative ones make the C size computation meaningless.
- `int` overflow of `nrows * ncols`, `piece->y += 1` and the coordinate sums is not modelled: integers are unbounded.
- C's `ncols / 2` truncates toward zero. It agrees with Dafny's division because `ncols` is non-negative in every reachable state.
- `init_falling_piece` always picks `pieces[0]`: the "change to random" comment describes no behaviour.
- `move_left`, `move_right` and `rotate` are empty stubs.
- Header-only declarations of game_update.h that no shown code defines are not modelled. The header's differing prototypes for the callback type and `move_down` are not followed; the model uses the `.c` signatures.
- remote.c, passive_buzz_intr.h, i2c.h and music.h are drivers, declarations and constants with no modelled logic.

## Findings

| source | as written | input that shows it | evidently intended | confidence | as-written member | corrected member |
|---|---|---|---|---|---|---|
| game_update.c:31-33 | the tracker is allocated and cleared as `nrows * ncols` bytes, but line 98 indexes it as `unsigned int` cells of 4 bytes | nrows = 20, ncols = 10: the write to cell (9, 19) ends at byte 800 of a 200-byte buffer, and `memset` clears only the first quarter of the cells | allocate and clear `nrows * ncols * sizeof(unsigned int)` bytes | not executed | GameUpdate.AsWrittenBufferOverflows | GameUpdate.CellsFitAllocation |
