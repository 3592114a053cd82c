# Conway's Game of Life: board, hook and previews, in Dafny

This project models the core of a React implementation of Conway's Game of
Life and proves properties of it. The core has four parts:

- **The next-generation rule.** `getNextCellState` and `updateBoard` appear
  twice in the code, once in the board component and once in the `useBoard`
  hook. The two copies are identical, so module `LifeRule` defines them once.
  The rule is modelled as the code evaluates it:
  - row 0 has no row above, and column 0 has no left neighbour;
  - the last row has no row below;
  - every right-neighbour guard compares `columnIdx + 1` with the number of
    **rows**, not with the length of the row;
  - a read past the end of a row gives `undefined`, and adding it makes the sum
    NaN, which equals neither 2 nor 3. The datatype `JsSum` models this.

  A separate reference definition gives Conway's rule over the eight in-bounds
  Moore neighbours (`LiveNeighbours`, `Life`). On a square board of 0s and 1s,
  the code's rule equals the reference. On boards that are not square it does
  not:
  - a wide board drops the right neighbours of every cell in column
    `rows - 1` and beyond;
  - on a tall board, every cell of the last column dies.
- **The board component** (`BoardComponent`). It holds the fixed 100 x 100
  `emptyBoard`, the cell update behind `setCellAlive` (paint while drawing,
  toggle otherwise) and `countAlive`. The class `GameBoard` holds the
  component's `board`, `updating` and `enableDrawing` state. Its methods are
  the interval tick, the mouse handlers of the board and its cells, and the
  "Randomize Board" and "Clear Board" buttons.
- **The `useBoard` hook** (`UseBoard`). The class `BoardHook` holds `board`
  and `updating`, plus the tick and the two setters the hook returns.
- **The pattern previews** (`PreviewBoard`). `getNewPattern` copies a pattern
  into a grid with one dead cell of border on each side. It is modelled as a
  method over a two-dimensional array, proved against the function `Padded`.
  The preview card seeds its own hook with that grid and hands back the
  unpadded pattern when clicked. Take a one-row line of three live cells: the
  padded grid is 3 x 5, so the rule's row-count guard applies. Conway's rule
  would turn the line vertical. In the preview, the centre cell dies and no
  cell is born.

Module `Grid` holds the shared board type (`seq<seq<int>>`), the shape
predicates and `countAlive`.

## Model

| member | source | states |
|---|---|---|
| Grid.CountAliveCountsLive | src/Board/Board.tsx:104-109 | On a board of 0s and 1s, `countAlive` (a sum of row sums) equals the number of cells holding 1 |
| Grid.CountAliveOfDead | src/Board/Board.tsx:104-109 | A board with no live cell counts 0 alive |
| Grid.CountAliveUpdate | src/Board/Board.tsx:104-109 | Writing a value into one cell changes `countAlive` by the new value minus the old |
| LifeRule.NextCellState | src/Board/Board.tsx:17-51 | The next state of any cell the update visits is 0 or 1, on any board, ragged or not |
| LifeRule.UpdateBoard | src/Board/Board.tsx:53-56 | `updateBoard` keeps the number of rows and each row's length, and yields only 0s and 1s |
| LifeRule.NeighbourSumCountsGuarded | src/Board/Board.tsx:22-39 | On a rectangular 0/1 board at least as wide as it is tall, no read goes out of range. The sum counts the live neighbours the guards admit: none above row 0, none below the last row, none left of column 0, right neighbours only while `c + 1 < rows` |
| LifeRule.NeighbourSumIsMoore | src/Board/Board.tsx:22-39 | On a square 0/1 board, the neighbour sum equals the number of live in-bounds Moore neighbours |
| LifeRule.NeighbourSumAtMostEight | src/Board/Board.tsx:22-39 | On a square 0/1 board, the neighbour sum is a number between 0 and 8 |
| LifeRule.CornerAtMostThree | src/Board/Board.tsx:24-32 | On a square 0/1 board, the corner (0, 0) counts at most 3 neighbours, because the row-0 and column-0 guards drop the rest |
| LifeRule.NextCellStateIsLife | src/Board/Board.tsx:41-50 | On a square 0/1 board, `getNextCellState` is Conway's rule: birth with exactly 3 live neighbours, survival with 2 or 3, otherwise dead |
| LifeRule.UpdateBoardIsLife | src/Board/useBoard.tsx:41-44 | On a square 0/1 board, every cell of `updateBoard`'s result is the Conway successor of the same cell |
| LifeRule.DeadBoardStaysDead | src/Board/Board.tsx:41-56 | A board with no live cell is a fixed point of `updateBoard` |
| LifeRule.TallBoardLastColumnDies | src/Board/useBoard.tsx:12-36 | On a rectangular board with more rows than columns, the last column reads past the row's end. The sum is NaN, so every cell in that column becomes 0 |
| LifeRule.WideBoardDropsRight | src/Board/useBoard.tsx:16-25 | On a rectangular 0/1 board, a cell in column `c >= rows - 1` counts its live Moore neighbours minus its three right neighbours |
| BoardComponent.EmptyBoard | src/Board/Board.tsx:58-60 | `emptyBoard` is square, 100 rows of 100 cells, all 0 |
| BoardComponent.EmptyBoardCountsZero | src/Board/Board.tsx:100-109 | `countAlive` of the empty board is 0 |
| BoardComponent.EmptyBoardIsStill | src/Board/Board.tsx:53-60 | A tick on the empty board gives back the empty board |
| BoardComponent.Abs | src/Board/Board.tsx:89 | `Math.abs` gives `x` or `-x`, never negative |
| BoardComponent.ClickFlipsBit | src/Board/Board.tsx:89 | On a 0 or 1, `Math.abs(cell - 1)` is the other bit |
| BoardComponent.SetCellAlive | src/Board/Board.tsx:79-94 | The new board has the same shape. Cell (r, c) becomes 1 while drawing and `Math.abs(cell - 1)` otherwise. Every other cell is unchanged |
| BoardComponent.PaintIsIdempotent | src/Board/Board.tsx:80-85 | Painting the same cell twice while drawing gives the same board as painting it once |
| BoardComponent.ToggleTwiceRestores | src/Board/Board.tsx:86-91 | Clicking a 0/1 cell twice without drawing restores the original board |
| BoardComponent.SetCellAliveKeepsBinary | src/Board/Board.tsx:79-94 | A click keeps a 0/1 board 0/1 |
| BoardComponent.SetCellAliveCount | src/Board/Board.tsx:79-94 | Painting adds one live cell unless the cell was live. A toggle adds one to a dead cell or removes one from a live cell |
| BoardComponent.GameBoard.constructor | src/Board/Board.tsx:62-65 | The board starts as the given random 100 x 100 0/1 board, with updating on and drawing off |
| BoardComponent.GameBoard.Tick | src/Board/Board.tsx:66-77 | While updating, the board becomes `updateBoard` of the old board, and every cell follows Conway's rule. Otherwise it is unchanged. The board stays 100 x 100 and 0/1. The flags are kept |
| BoardComponent.GameBoard.MouseEnter | src/Board/Board.tsx:166-169 | Entering the board stops updating. The board and the drawing flag are kept |
| BoardComponent.GameBoard.MouseLeave | src/Board/Board.tsx:170-173 | Leaving the board stops drawing and resumes updating. The board is kept |
| BoardComponent.GameBoard.MouseDown | src/Board/Board.tsx:174 | A button press starts drawing. The other state is kept |
| BoardComponent.GameBoard.MouseUp | src/Board/Board.tsx:175 | A button release stops drawing. The other state is kept |
| BoardComponent.GameBoard.CellClick | src/Board/Board.tsx:187 | A cell click applies `setCellAlive` with the current drawing flag. The board stays 100 x 100 and 0/1 |
| BoardComponent.GameBoard.CellMouseEnter | src/Board/Board.tsx:188-192 | Entering a cell paints it only while drawing. Otherwise nothing changes |
| BoardComponent.GameBoard.Clear | src/Board/Board.tsx:100-102 | "Clear Board" leaves a valid board with no live cells, so `countAlive` is 0. The flags are kept |
| BoardComponent.GameBoard.Randomize | src/Board/Board.tsx:96-98 | "Randomize Board" installs the given random 0/1 board. The flags are kept |
| UseBoard.BoardHook.constructor | src/Board/useBoard.tsx:54-57 | The hook starts with `initBoard` and with updating on |
| UseBoard.BoardHook.Tick | src/Board/useBoard.tsx:58-69 | While updating, the board becomes `updateBoard` of the old board, otherwise it is unchanged. The shape is kept. On a square 0/1 board, every cell follows Conway's rule. `updating` is kept |
| UseBoard.BoardHook.SetBoard | src/Board/useBoard.tsx:71-73 | `setBoard` replaces the board and keeps `updating` |
| UseBoard.BoardHook.SetUpdating | src/Board/useBoard.tsx:74-75 | `setUpdating` sets the flag and keeps the board |
| PreviewBoard.MaxRowLength | src/Board/PatternLib/PreviewBoard.tsx:13 | The column count is at least every row's length, and equal to some row's length |
| PreviewBoard.MaxRowLengthOfRectangular | src/Board/PatternLib/PreviewBoard.tsx:13 | For a rectangular pattern, the column count is the common row length |
| PreviewBoard.Padded | src/Board/PatternLib/PreviewBoard.tsx:11-23 | The grid has two more rows and two more columns than the pattern. Its border is dead, and cell (i + 1, j + 1) holds pattern cell (i, j) |
| PreviewBoard.GetNewPattern | src/Board/PatternLib/PreviewBoard.tsx:11-23 | The allocated array is `(rows + 2) x (maxCols + 2)`. After the copy loops, its rows are exactly the padded pattern |
| PreviewBoard.PaddedCountAlive | src/Board/PatternLib/PreviewBoard.tsx:14-21 | Padding keeps the number of live cells |
| PreviewBoard.PaddedIsWellFormed | src/Board/PatternLib/PreviewBoard.tsx:14-21 | Padding a rectangular 0/1 pattern gives a rectangular 0/1 grid |
| PreviewBoard.PaddedSquareIff | src/Board/PatternLib/PreviewBoard.tsx:12-16 | The padded grid is square if and only if the pattern has as many rows as columns |
| PreviewBoard.PreviewCard.constructor | src/Board/PatternLib/PreviewBoard.tsx:27-31 | The card keeps its pattern. Its hook starts with the padded pattern, with updating on |
| PreviewBoard.PreviewCard.Click | src/Board/PatternLib/PreviewBoard.tsx:36 | A click selects the card's own pattern, not the padded grid |
| PreviewBoard.PaddedLineIsPreview | src/Board/PatternLib/PreviewBoard.tsx:11-23 | A line of three live cells pads to a 3 x 5 grid with the line in its middle row |
| PreviewBoard.PaddedLineCentreSurvives | src/Board/PatternLib/PreviewBoard.tsx:28-31 | By Conway's rule, the line's centre cell survives with two neighbours |
| PreviewBoard.PaddedLineCentreDies | src/Board/useBoard.tsx:12-38 | `getNextCellState` kills the centre, because its right neighbour is dropped |
| PreviewBoard.PaddedLineCentreSum | src/Board/useBoard.tsx:12-38 | The code counts 1 neighbour for the centre |
| PreviewBoard.PaddedLineBirthAbove | src/Board/PatternLib/PreviewBoard.tsx:28-31 | By Conway's rule, the cell above the centre is born with three neighbours |
| PreviewBoard.PaddedLineNoBirth | src/Board/useBoard.tsx:12-38 | `getNextCellState` leaves the cell above the centre dead |
| PreviewBoard.PaddedLineAboveSum | src/Board/useBoard.tsx:12-38 | The code counts only 2 neighbours for the cell above the centre |

## Left out

- `initRandomBoard` calls `Math.random()`. The random 0/1 board is a parameter of `GameBoard`'s constructor and of `Randomize`. The rounding of `Math.random() * 0.9` to 0 or 1 is not modelled.
- The percentage shown beside the live count is floating-point arithmetic, and its `boardSize^2` is a bitwise XOR. It is display only.
- Timers: `setInterval`, `clearInterval` and the `useEffect` re-subscription are not modelled. Each interval callback is one `Tick` call. The interval length `updateInterval` has no effect on the state.
- React scheduling: batched and deferred state updates and stale closures are not modelled. Each handler applies its update at once, reading the current state.
- `useBoard` on later renders: `useState` ignores a new `initBoard` after the first render. The model creates the hook once.
- Rendering: JSX, CSS classes, cell size and `console.log` are not modelled.
- The application shell, the pattern library and the choice of what `onSelect` does with a pattern are not part of this model.
- PreviewBoard.Padded: it requires a non-empty rectangular pattern. For a ragged pattern the code copies `undefined` cells. For an empty pattern, `Math.max()` is `-Infinity`, so the array allocation throws.
- PreviewBoard.GetNewPattern: it has the same requirement, for the same reason.
- BoardComponent.SetCellAlive: it is a value update. It does not model that the code copies the rows and writes into the copy. Since every write goes to a fresh copy, the shared `emptyBoard` array that "Clear Board" installs is never written, so treating boards as values loses no behaviour.
- LifeRule.NextCellState: cells are integers. Non-numeric cell contents, which JavaScript would coerce, are not modelled.
- LifeRule.NeighbourSumIsMoore: it is stated for square 0/1 boards only. On other boards, `NeighbourSumCountsGuarded`, `WideBoardDropsRight` and `TallBoardLastColumnDies` give the code's count instead.
- PreviewBoard.PaddedLineCentreDies: the line's preview is stated for two cells, the centre and the cell above it. The rest of the next grid is not stated.
