# Magnets puzzle solver, modelled in Dafny

The system solves the "Magnets" logic puzzle. An N×N board is divided into
dominoes of two blocks. Each domino is either empty, or holds a positive pole
on one block and a negative pole on the other. For each row and each column
the puzzle gives the number of positive and of negative poles it must hold,
and two like poles may not touch orthogonally across a domino boundary.

The program reads a layout of N rows of N characters. A `#` starts a
horizontal domino (with the block to its right); any other character starts a
vertical one (with the block below). It creates a section per row and per
column with its required pole counts, and pairs the blocks with a row-major
scan. It then runs a chronological backtracking search:

- For each row in turn it places positive dominoes, then negative ones, then
  does the same for each column.
- Every successful placement is pushed on a stack of guesses.
- When a line can no longer be completed, it pops guesses, undoes them and
  resumes one block past the undone guess.

The model follows the source file by file:

- `charges.dfy` (module `Charges`): a block's charge and its opposite.
- `sections.dfy` (module `Sections`): a row or column section with the counts
  it still needs (`posNum`, `negNum`), and the placement and removal of a pole.
- `layout.dfy` (module `Layout`): the pairing scan of the constructor.
  - The `skipNext`/`skipArray` flags are the pure function `Before`.
  - The partner the scan assigns is `Mate`.
  - `PairBlocks` is the constructor's nested loops, with `skipArray` kept as an
    `array<bool>`.
  - `AddAdjacents` builds a block's neighbour list.
- `counting.dfy` (module `Counting`): counting poles along a row or a column,
  and the bookkeeping that ties the section counters to the board.
- `magnets.dfy` (module `Board`): class `Magnets`, which holds the board and
  the search.
  - The source's `Puzzle` is folded into this class.
  - Blocks form an arena addressed by `Coord(row, col)`. Block (i, j) is the
    block that row section i and column section j share in the source.
  - `partner` and `adjacents` are fixed at construction.
  - `charge`, `rows` and `cols` are the fields that placement and search update.
  - `Block.possible/set/trySet/unset/fullUnset` become methods of the class
    taking the block's coordinate.
  - `solve` becomes `Solve` with a bounded outer loop, and `Round` is one
    pass of that loop. `FillSection` is the inner loop, specified by the
    reference function `Fill`. `EndLine` is the rest of the pass: `Advance`
    is the "line satisfied" branch, and `Retreat` is the other one, with
    `Backtrack` as its `do … while` of popping guesses.

The board invariant `Invariant()` is kept by every placement and undo and by
the whole search. It has four parts:

- `Consistent`: every counter equals its requirement minus the poles already
  in its line.
- `Separated`: no charged block has a neighbour of the same charge.
- `Balanced`: every domino is empty or holds opposite poles.
- `Topology`: the fixed pairing is symmetric and the neighbour lists are exact.

The search also carries ghost snapshots of the board and counters before each
guess (`History`). From these the model proves:

- an `Unsolvable` search gives back the starting state, and each pass of the
  outer loop (`Round`) ends in a board, counters and resumed charge fixed by
  the record (`HistoryDetermined`);
- a search started on an empty board always holds twice as many charged
  blocks as there are guesses (a loop invariant of `Solve`);
- a `Solved` result satisfies every line and, with non-negative requirements,
  is a solution of the puzzle.

## Model

All source cells refer to `src/main/java/com/bborchard/Magnets.java`.

| member | source | states |
|---|---|---|
| Charges.Opposite | src/main/java/com/bborchard/Magnets.java:357-364 | the opposite of a pole is a pole and differs from it; `None` has no opposite (precondition) |
| Charges.OppositeInvolution | src/main/java/com/bborchard/Magnets.java:357-364 | taking the opposite twice gives back the pole |
| Charges.Flip | src/main/java/com/bborchard/Magnets.java:357-364 | the charge a balanced partner carries: empty exactly when the block is empty, otherwise the opposite pole |
| Sections.Section.PlaceBlock | src/main/java/com/bborchard/Magnets.java:282-288 | placing a pole lowers that pole's `BlocksLeft` by one and leaves the other pole's alone; placing `None` changes nothing |
| Sections.Section.RemoveBlock | src/main/java/com/bborchard/Magnets.java:290-296 | removing a pole raises that pole's `BlocksLeft` by one and leaves the other pole's alone; removing `None` changes nothing |
| Sections.Section.BlocksLeft | src/main/java/com/bborchard/Magnets.java:298-305 | `posNum` for `Pos`, `negNum` for `Neg`, and `Unbounded`, the largest 32-bit integer, for `None` |
| Sections.RemoveAfterPlace | src/main/java/com/bborchard/Magnets.java:282-296 | removing a charge after placing it restores both counters exactly |
| Sections.UndoDomino | src/main/java/com/bborchard/Magnets.java:254-263 | undoing both placements of a domino, in full-unset order, restores every section of a list, even when both blocks share a line |
| Sections.PlaceKeepsSatisfied | src/main/java/com/bborchard/Magnets.java:282-288 | placing never raises a counter, so a satisfied line stays satisfied |
| Layout.MateIsPartner | src/main/java/com/bborchard/Magnets.java:39-63 | on a well-formed layout the scan's partner of a block is an in-bounds orthogonal neighbour, not the block itself, whose partner is the block; exactly one of the two starts the domino |
| Layout.HeadOfFacts | src/main/java/com/bborchard/Magnets.java:39-67 | every block belongs to the domino of exactly one scan head, which is the block or its partner |
| Layout.VisitFlags | src/main/java/com/bborchard/Magnets.java:39-67 | after one step of the scan, the block to the right is claimed exactly when this block starts a horizontal domino and the block below exactly when it starts a vertical one; every other column keeps its flag |
| Layout.BeforeFlags | src/main/java/com/bborchard/Magnets.java:30-67 | the scan starts with every flag down; after a block, a raised flag names the kind of domino that block started, and the two flags are never both up |
| Layout.AddAdjacents | src/main/java/com/bborchard/Magnets.java:74-89 | the list holds exactly the in-bounds orthogonal neighbours except the one in the partner's direction, each once (at most three) |
| Layout.StartDomino | src/main/java/com/bborchard/Magnets.java:39-63 | a head pairs with the block right of it (`#`) or below it, both neighbour lists are built, and the flags become the scan's next flags |
| Layout.VisitBlock | src/main/java/com/bborchard/Magnets.java:38-68 | one scan step keeps "every domino whose head was visited is paired, every other block is unpaired" and moves the flags one step |
| Layout.PairRow | src/main/java/com/bborchard/Magnets.java:36-69 | the scan of one row moves the flags from their state at the row's start to their state at its end, and pairs every domino whose head lies in the row |
| Layout.PairBlocks | src/main/java/com/bborchard/Magnets.java:26-72 | the constructor's scan gives every block the scan's partner and the exact list of its neighbours outside its domino |
| Layout.MatesArePairing | src/main/java/com/bborchard/Magnets.java:62-63 | the partners the scan assigns are symmetric orthogonal neighbours with exact neighbour lists |
| Counting.CountUpdate | src/main/java/com/bborchard/Magnets.java:238-263 | changing one block changes a line's count of a charge by what left and what arrived |
| Counting.PlaceKeepsTally | src/main/java/com/bborchard/Magnets.java:238-242 | charging an empty block and placing the charge in its section keeps every counter equal to requirement minus poles present |
| Counting.RemoveKeepsTally | src/main/java/com/bborchard/Magnets.java:259-263 | emptying a block and removing its charge from its section keeps every counter equal to requirement minus poles present |
| Counting.ColumnsAfterPut | src/main/java/com/bborchard/Magnets.java:330-336 | a block shared by row i and column j: changing it changes entry i of column j and no other column |
| Counting.FilledUpdate | src/main/java/com/bborchard/Magnets.java:238-263 | changing one block changes the number of charged blocks by at most one, as the old and new charges say |
| Board.NewSections | src/main/java/com/bborchard/Magnets.java:317-327 | row section i starts at requirements 0 and 1 at i, column section i at requirements 2 and 3 at i |
| Board.PlaceKeepsScan | src/main/java/com/bborchard/Magnets.java:123-155 | placing a pole only lowers counters, so the lines the scan has satisfied stay satisfied |
| Board.EmptyTally | src/main/java/com/bborchard/Magnets.java:317-337 | sections holding their requirements over an empty board are consistent with it |
| Board.SettledTally | src/main/java/com/bborchard/Magnets.java:144-153 | a consistent line whose counters are all exactly zero holds exactly its required poles |
| Board.ResumePoint | src/main/java/com/bborchard/Magnets.java:172-174 | resuming after a guess keeps its phase and its line, one block further along it |
| Board.Unwind | src/main/java/com/bborchard/Magnets.java:158-175 | the guess where backtracking stops is a stack index, or -1 when none is left |
| Board.UnwindStops | src/main/java/com/bborchard/Magnets.java:158-175 | backtracking stops at a guess that leaves a block after it on its line; every guess popped before it had none |
| Board.UnwindPop | src/main/java/com/bborchard/Magnets.java:158-175 | the top guess stops backtracking exactly when it leaves a block after it on its line; otherwise backtracking goes on as on the rest of the stack |
| Board.Advanced | src/main/java/com/bborchard/Magnets.java:129-156 | positive poles are followed by negative ones on the same line, restarted at position 0; negative ones by positive ones on the next line at position 0; the last row is always followed by column 0 of the column phase, and the phase changes nowhere else; solved exactly after the negative poles of the last column |
| Board.Magnets.Partner | src/main/java/com/bborchard/Magnets.java:62-63 | a block's partner is an in-bounds orthogonal neighbour, not itself, whose partner is the block; the block's neighbour list leaves it out |
| Board.Magnets.UndoPlaced | src/main/java/com/bborchard/Magnets.java:244-263 | emptying a domino restores exactly the counters that placing it changed |
| Board.Magnets.PlaceKeepsConsistent | src/main/java/com/bborchard/Magnets.java:238-242 | `set` on an empty block keeps every row and column counter equal to requirement minus poles present |
| Board.Magnets.RemoveKeepsConsistent | src/main/java/com/bborchard/Magnets.java:259-263 | `unset` keeps every row and column counter equal to requirement minus poles present |
| Board.Magnets.Around | src/main/java/com/bborchard/Magnets.java:74-89 | a block's neighbour list holds exactly its in-bounds orthogonal neighbours other than its partner |
| Board.Magnets.PlaceKeepsSeparated | src/main/java/com/bborchard/Magnets.java:221-226 | a domino placed where both halves pass `possible` never puts two like poles side by side |
| Board.Magnets.PlaceKeepsBalanced | src/main/java/com/bborchard/Magnets.java:244-252 | charging an empty domino with opposite poles keeps every domino balanced |
| Board.Magnets.ClearKeepsBalanced | src/main/java/com/bborchard/Magnets.java:254-257 | emptying both blocks of a domino keeps every domino balanced |
| Board.Magnets.ClearKeepsSeparated | src/main/java/com/bborchard/Magnets.java:254-257 | emptying both blocks of a domino keeps like poles apart |
| Board.Magnets.PlaceKeepsNonNegative | src/main/java/com/bborchard/Magnets.java:228-234 | with the `blocksLeft != 0` guards on both halves, no counter drops below zero |
| Board.Magnets.RemoveKeepsNonNegative | src/main/java/com/bborchard/Magnets.java:259-263 | removing poles only raises counters |
| Board.Magnets.DominoKeepsConsistent | src/main/java/com/bborchard/Magnets.java:244-252 | placing a whole domino on two empty blocks keeps the counters consistent with the board |
| Board.Magnets.ClearKeepsConsistent | src/main/java/com/bborchard/Magnets.java:254-263 | emptying a whole domino keeps the counters consistent with the board |
| Board.Magnets.BlankIsStable | src/main/java/com/bborchard/Magnets.java:208-210 | an all-empty board keeps like poles apart and every domino balanced |
| Board.Magnets.Possible | src/main/java/com/bborchard/Magnets.java:213-236 | true exactly when the block is empty, no neighbour holds the charge, and neither its row's nor its column's `blocksLeft` is zero; changes nothing |
| Board.Magnets.Set | src/main/java/com/bborchard/Magnets.java:238-242 | the block holds the charge and its row and column each record it; nothing else changes |
| Board.Magnets.Unset | src/main/java/com/bborchard/Magnets.java:259-263 | the row and column each give back the block's old charge and the block becomes empty |
| Board.Magnets.TrySet | src/main/java/com/bborchard/Magnets.java:244-252 | places the domino exactly when both halves are possible; then the block holds the charge, its partner the opposite, and exactly the four counters change; otherwise nothing changes; the invariant and non-negative counters are kept |
| Board.Magnets.FullUnset | src/main/java/com/bborchard/Magnets.java:254-257 | both blocks become empty and both charges are given back; on a balanced domino this is exactly the inverse of the placement; the invariant is kept |
| Board.Magnets.constructor | src/main/java/com/bborchard/Magnets.java:26-72 | the puzzle has side N, sections start at their requirements, every block is empty, partners are the scan's, and the board invariant holds |
| Board.Magnets.ClearDomino | src/main/java/com/bborchard/Magnets.java:244-257 | charging an empty domino and then emptying it gives back the board |
| Board.Magnets.SolvedIsSolution | src/main/java/com/bborchard/Magnets.java:144-153 | a board with every counter settled at zero holds exactly the required poles per line, keeps like poles apart and balances every domino |
| Board.Magnets.PushHistory | src/main/java/com/bborchard/Magnets.java:111-116 | pushing a guess after a successful placement extends the record of the search |
| Board.Magnets.PopHistory | src/main/java/com/bborchard/Magnets.java:164-171 | popping the last guess leaves the record of the state before it |
| Board.Magnets.TruncateHistory | src/main/java/com/bborchard/Magnets.java:158-175 | the first k guesses of a recorded search are the record of the state after them |
| Board.Magnets.HistoryDetermined | src/main/java/com/bborchard/Magnets.java:108-175 | a record of the search is fixed by its first state and the charge each guess placed: two records of the same guesses with the same start and charges hold the same states |
| Board.Magnets.ExtendsSelf | src/main/java/com/bborchard/Magnets.java:108-122 | a record continues itself |
| Board.Magnets.ExtendsPush | src/main/java/com/bborchard/Magnets.java:111-116 | pushing a guess that placed `x` continues the record |
| Board.Magnets.ExtendsTrans | src/main/java/com/bborchard/Magnets.java:108-122 | a record continued twice with the same charge continues the first |
| Board.Magnets.ExtendsTruncate | src/main/java/com/bborchard/Magnets.java:158-175 | backtracking a continued record to d guesses gives the old record's state when d lies in it, and otherwise a record that still continues the old one |
| Board.Magnets.FilledAlongHistory | src/main/java/com/bborchard/Magnets.java:108-122 | from an empty board, after k guesses exactly 2k blocks are charged |
| Board.Magnets.FilledTwiceStack | src/main/java/com/bborchard/Magnets.java:108-122 | a search started on an empty board holds twice as many charged blocks as guesses on its stack; `Solve` carries this as a loop invariant |
| Board.Magnets.GuessStep | src/main/java/com/bborchard/Magnets.java:110-116 | a successful placement during a line's scan is one recorded step of the search and keeps what the scan achieved |
| Board.Magnets.RecordGuess | src/main/java/com/bborchard/Magnets.java:110-116 | a guess placed during a line's scan extends the record: the new state is its last, the earlier record is kept and the guess placed `x` |
| Board.Magnets.Fill | src/main/java/com/bborchard/Magnets.java:108-122 | the reference scan of a line: it stops at the line's end or once the line needs no more of the charge, never before its start; the line's section gives up exactly one pole per guess; the guesses are of the scan's phase, on blocks of the line, at strictly increasing positions from the start up to the stop |
| Board.Magnets.PlacedOnLine | src/main/java/com/bborchard/Magnets.java:244-252 | a domino whose block lies on the line takes exactly one pole of the charge from the line's section |
| Board.Magnets.FillAdvance | src/main/java/com/bborchard/Magnets.java:110-121 | trying the block at the scan position, and pushing a guess exactly when its domino fits, leaves a rest of the scan that ends where the whole scan ends |
| Board.Magnets.FillDone | src/main/java/com/bborchard/Magnets.java:108-109 | once the loop condition fails, the state reached is the end `Fill` gives for the whole scan |
| Board.Magnets.TryGuess | src/main/java/com/bborchard/Magnets.java:110-116 | places the domino exactly when both halves fit on the board and counters before the call; then the board and counters are the placement's and one guess for the block, in the scan's phase, is pushed; otherwise board, counters and stack are unchanged; the invariant, the scan's progress and the record of the search are kept |
| Board.Magnets.ScanBlock | src/main/java/com/bborchard/Magnets.java:108-121 | one pass of the inner loop: tries the block at the scan position, moves on one block, and keeps the scan on course for the end `Fill` gives |
| Board.Magnets.FillSection | src/main/java/com/bborchard/Magnets.java:108-122 | stops where the line needs no more of the charge or at its end; the stop position, the board, the counters and the guesses pushed on top of the old stack are exactly those `Fill` gives from the old state; the invariant and the record of the search are kept |
| Board.Magnets.PopGuess | src/main/java/com/bborchard/Magnets.java:164-171 | pops the last guess; `x` is the charge its block held before the undo; the board and counters become exactly those recorded before that guess, and the record loses its last entry |
| Board.Magnets.UndoGuess | src/main/java/com/bborchard/Magnets.java:158-175 | one pass of the `do … while`: pops the latest guess kept, gives back the state recorded before it and the charge it placed; backtracking stops at it exactly when it leaves a block after it, and otherwise stops where it would on the shorter stack |
| Board.Magnets.Backtrack | src/main/java/com/bborchard/Magnets.java:158-175 | resumes exactly when `Unwind` finds a guess; the stack is then the prefix below that guess, otherwise empty; board, counters and record are those recorded before the undone guesses; the search resumes in that guess's phase and line, one block further, with the charge that guess had placed |
| Board.Magnets.UnwoundAfter | src/main/java/com/bborchard/Magnets.java:158-175 | backtracking as `Backtrack` promises, over a record continued by the line's guesses, ends in the state `Unwound` describes |
| Board.Magnets.ChargeFromRecord | src/main/java/com/bborchard/Magnets.java:170 | a guess that a continued record keeps from the old one is the same step in the old record and placed the same charge |
| Board.Magnets.Retreat | src/main/java/com/bborchard/Magnets.java:157-176 | the branch for a line that cannot be completed: guesses are undone as `Unwind` says; with none left the search finishes as unsolvable in the record's first state; otherwise it resumes after the last guess kept, in the state before the first guess undone, taken from the old record or from a continuation whose new guesses placed the line's charge, and with the charge that guess placed: the old record's charge for it, or the line's charge for a guess of the scan (line 170) |
| Board.Magnets.Advance | src/main/java/com/bborchard/Magnets.java:123-156 | the next scan state is exactly `Advanced`'s; solved only with every line satisfied; otherwise every line the scan has left behind is satisfied, and so are the positive poles of a line it goes on with for negative ones |
| Board.Magnets.EndLine | src/main/java/com/bborchard/Magnets.java:123-176 | after the line's scan: a satisfied line moves on as `Advanced` says and keeps the scan's board, counters and stack; otherwise it backtracks as `Retreat` says, resuming with the charge the guess it stops at had placed |
| Board.Magnets.Round | src/main/java/com/bborchard/Magnets.java:99-177 | fills the line as `Fill` says; a satisfied line then moves on as `Advanced` says, with the board, counters and stack `Fill` gives, and finishes only as solved; otherwise the guesses are undone as `Unwind` says, finishing as unsolvable in the starting state exactly when no guess is left, and otherwise resuming after the last guess kept in the state before the first guess undone, with the charge that guess placed: the one the given record holds, or the line's charge for a guess of this pass |
| Board.Magnets.Solve | src/main/java/com/bborchard/Magnets.java:91-185 | keeps the invariant; solved only with every line satisfied, which with non-negative requirements is a solution; unsolvable leaves the starting board and counters |

## Left out

- `main` (reading the puzzle file, splitting it and parsing the integers, the
  usage message) is not part of this model. The constructor takes the layout
  and the requirements as values.
- The `debug` flag and its logging, and the `toString` methods of blocks,
  sections, the puzzle and charges, have no effect on the search.
- The printing and `System.exit` calls in `solve` are replaced by the returned
  `Outcome`. Printing the solved grid is left out.
- Malformed input is not modelled. The constructor requires `WellFormed` and
  requirement lists at least N long instead. On the layouts `WellFormed`
  excludes, `Magnets.java` behaves as follows:
  - A non-square layout fails with an index exception, or leaves some blocks
    unpaired. Such a block's `adjacents`, `row`, `col` and `other` are all
    null, so `solve` fails with a NullPointerException once `trySet` reaches
    it. `Square` excludes such layouts.
  - A `#` on a block in the last column that starts a domino, or a vertical
    domino starting in the last row, fails with an index exception. A `#` in
    the last column on a block claimed from above is not a failure. The
    first conjunct of `Claimable` excludes the failing cases.
- A layout in which one block is claimed both from the left and from above
  does not make the source fail. The source takes the "already paired" branch
  there and builds an asymmetric pairing. In the 3×3 layout `#..`, `.#.`,
  `.#.`, block (0,2) gets partner (1,2), but (1,2) gets partner (1,1).
  `WellFormed` excludes such layouts through the second conjunct of
  `Claimable`, so the model does not describe this pairing.
- `Section` objects and the shared `Block` objects become values in the
  class's fields (an arena indexed by coordinate), so object aliasing is not
  modelled. That row i and column j share each block is captured by the
  coordinate.
- Board.Magnets.Solve: the source loops until it is solved or out of guesses.
  The model runs at most `fuel` outer iterations and returns `OutOfFuel`
  otherwise. Termination and completeness of the search are not modelled.
  The contract of `Solve` does not say which outcome the loop reaches, or
  after how many iterations; `Round` states what each iteration does.
- Board.Magnets.Solve requires N > 0. The source would index row 0 of an
  empty puzzle and fail.
- Java's 32-bit `int` is modelled as unbounded. `Integer.MAX_VALUE` is kept
  as the constant `Sections.Unbounded` for `blocksLeft(NONE)`, and counters
  never wrap.
- The source's null `other` of a block not yet paired never reaches the
  placement methods. The constructor pairs every block of a well-formed
  layout, and the methods address blocks by coordinate.
- Board.Magnets.Round: when backtracking stops at a guess that this pass's
  scan pushed, `Round` does not give the board and counters
  directly. It says that the record continues the one it was given, with
  every new guess placing the line's charge. With `HistoryDetermined`, this
  fixes that state.
