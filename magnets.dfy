/** The puzzle: blocks paired into dominoes, the rows and columns that count
    the poles still needed, the placement operations and the backtracking search. */
module Board {
  import opened Charges
  import opened Sections
  import opened Layout
  import opened Counting

  /** A successful placement, remembered so that it can be undone: the block
      that was set, the scan position, and whether rows or columns were being filled. */
  datatype Guess = Guess(block: Coord, rowIndex: int, colIndex: int, fillingRows: bool)

  /** How a search ends: `solve` prints the solved grid, or reports that the puzzle is unsolvable. */
  datatype Outcome = Solved | Unsolvable | OutOfFuel

  /** The counters of every row and every column at one moment. */
  datatype Counters = Counters(rows: seq<Section>, cols: seq<Section>)

  /** The requirement lists the constructor reads: positive and negative counts
      per row, then per column, each at least as long as the first. */
  predicate RequirementsShape(requirements: seq<seq<int>>)
  {
    |requirements| >= 4 && forall k :: 1 <= k < 4 ==> |requirements[k]| >= |requirements[0]|
  }

  /** Creates the sections of the puzzle: row i needs `requirements[0][i]`
      positive and `requirements[1][i]` negative poles, column i
      `requirements[2][i]` and `requirements[3][i]`. */
  method NewSections(requirements: seq<seq<int>>) returns (rows: seq<Section>, cols: seq<Section>)
    requires RequirementsShape(requirements)
    ensures |rows| == |requirements[0]| && |cols| == |requirements[0]|
    ensures forall i :: 0 <= i < |rows| ==>
              rows[i] == Section(requirements[0][i], requirements[1][i]) &&
              cols[i] == Section(requirements[2][i], requirements[3][i])
  {
    var puzzleSize := |requirements[0]|;
    rows, cols := [], [];
    for i := 0 to puzzleSize
      invariant |rows| == i && |cols| == i
      invariant forall k :: 0 <= k < i ==>
                  rows[k] == Section(requirements[0][k], requirements[1][k]) &&
                  cols[k] == Section(requirements[2][k], requirements[3][k])
    {
      rows := rows + [Section(requirements[0][i], requirements[1][i])];
      cols := cols + [Section(requirements[2][i], requirements[3][i])];
    }
  }

  /** No counter is negative. */
  ghost predicate NonNegative(s: Counters)
  {
    (forall i :: 0 <= i < |s.rows| ==> s.rows[i].posNum >= 0 && s.rows[i].negNum >= 0) &&
    (forall j :: 0 <= j < |s.cols| ==> s.cols[j].posNum >= 0 && s.cols[j].negNum >= 0)
  }

  /** Every row and every column needs no more poles. */
  ghost predicate AllSatisfied(s: Counters)
  {
    (forall i :: 0 <= i < |s.rows| ==> s.rows[i].Satisfied()) &&
    (forall j :: 0 <= j < |s.cols| ==> s.cols[j].Satisfied())
  }

  /** What the search has achieved when it scans line `line` for charge `x`:
      every earlier line of the phase (and, in the column phase, every row) is
      satisfied, and when scanning for negative poles this line already has
      all its positive ones. */
  ghost predicate ScanSatisfied(s: Counters, fillingRows: bool, line: int, x: Charge)
  {
    |s.rows| == |s.cols| && 0 <= line < |s.rows| &&
    if fillingRows then
      (forall i :: 0 <= i < line ==> s.rows[i].Satisfied()) &&
      (x == Neg ==> s.rows[line].posNum <= 0)
    else
      (forall i :: 0 <= i < |s.rows| ==> s.rows[i].Satisfied()) &&
      (forall j :: 0 <= j < line ==> s.cols[j].Satisfied()) &&
      (x == Neg ==> s.cols[line].posNum <= 0)
  }

  /** Placing a block only lowers counters, so it keeps what the scan achieved. */
  lemma PlaceKeepsScan(s: Counters, fillingRows: bool, line: int, x: Charge, r: int, c: int, y: Charge)
    requires ScanSatisfied(s, fillingRows, line, x) && 0 <= r < |s.rows| && 0 <= c < |s.cols|
    ensures ScanSatisfied(Counters(PlaceAt(s.rows, r, y), PlaceAt(s.cols, c, y)), fillingRows, line, x)
  {
    var s' := Counters(PlaceAt(s.rows, r, y), PlaceAt(s.cols, c, y));
    forall i | 0 <= i < |s.rows| ensures s'.rows[i].posNum <= s.rows[i].posNum && s'.rows[i].negNum <= s.rows[i].negNum {
    }
    forall j | 0 <= j < |s.cols| ensures s'.cols[j].posNum <= s.cols[j].posNum && s'.cols[j].negNum <= s.cols[j].negNum {
    }
  }

  /** Lines that hold no poles yet tally exactly their requirements. */
  lemma EmptyTally(lines: seq<Section>, pos: seq<int>, neg: seq<int>, content: seq<seq<Charge>>)
    requires |lines| == |content| && |lines| <= |pos| && |lines| <= |neg|
    requires forall i :: 0 <= i < |lines| ==> lines[i] == Section(pos[i], neg[i])
    requires forall i, j :: 0 <= i < |content| && 0 <= j < |content[i]| ==> content[i][j] == None
    ensures Tally(lines, pos, neg, content)
  {
    forall i | 0 <= i < |lines|
      ensures Count(content[i], Pos) == 0 && Count(content[i], Neg) == 0
    {
      CountAbsent(content[i], Pos);
      CountAbsent(content[i], Neg);
    }
  }

  /** When every line of a tally needs no more poles and none is over-filled,
      every line holds exactly its required poles. */
  lemma SettledTally(lines: seq<Section>, pos: seq<int>, neg: seq<int>, content: seq<seq<Charge>>)
    requires Tally(lines, pos, neg, content)
    requires forall i :: 0 <= i < |lines| ==> lines[i].Satisfied() && lines[i].posNum >= 0 && lines[i].negNum >= 0
    ensures forall i :: 0 <= i < |lines| ==> Count(content[i], Pos) == pos[i] && Count(content[i], Neg) == neg[i]
  {
  }

  /** The line the guess was made in. */
  function GuessLine(g: Guess): int
  {
    if g.fillingRows then g.rowIndex else g.colIndex
  }

  /** The position of the guess's block along its line. */
  function Position(g: Guess): int
  {
    if g.fillingRows then g.colIndex else g.rowIndex
  }

  /** The section of line `line`: a row in the row phase, a column in the column phase. */
  function Along(s: Counters, fillingRows: bool, line: int): Section
    requires 0 <= line < |s.rows| && line < |s.cols|
  {
    if fillingRows then s.rows[line] else s.cols[line]
  }

  /** The guesses were made in the phase `fillingRows` on blocks of line
      `line`, at strictly increasing positions in [lo, hi). */
  ghost predicate OnLine(guesses: seq<Guess>, fillingRows: bool, line: int, lo: int, hi: int)
  {
    (forall k :: 0 <= k < |guesses| ==>
       guesses[k].fillingRows == fillingRows && GuessLine(guesses[k]) == line &&
       guesses[k].block == Coord(guesses[k].rowIndex, guesses[k].colIndex) &&
       lo <= Position(guesses[k]) < hi) &&
    (forall k, l :: 0 <= k < l < |guesses| ==> Position(guesses[k]) < Position(guesses[l]))
  }

  /** A guess at position `lo`, followed by guesses further along the same line, is on the line. */
  lemma OnLineCons(guess: Guess, rest: seq<Guess>, fillingRows: bool, line: int, lo: int, hi: int)
    requires OnLine(rest, fillingRows, line, lo + 1, hi) && lo < hi
    requires guess.fillingRows == fillingRows && GuessLine(guess) == line && Position(guess) == lo
    requires guess.block == Coord(guess.rowIndex, guess.colIndex)
    ensures OnLine([guess] + rest, fillingRows, line, lo, hi)
  {
    var all := [guess] + rest;
    assert forall k :: 0 < k < |all| ==> all[k] == rest[k - 1];
  }

  /** Guesses on a line from `lo + 1` are on it from `lo`. */
  lemma OnLineWiden(guesses: seq<Guess>, fillingRows: bool, line: int, lo: int, hi: int)
    requires OnLine(guesses, fillingRows, line, lo + 1, hi)
    ensures OnLine(guesses, fillingRows, line, lo, hi)
  {
  }

  /** The outcome of scanning a line: the position where the scan stopped,
      the guesses it pushed, and the board and counters it left. */
  datatype Filling = Filling(next: int, guesses: seq<Guess>, grid: seq<seq<Charge>>, counters: Counters)

  /** The position along its line at which the search resumes after undoing the guess. */
  function Resume(g: Guess): int
  {
    if g.fillingRows then g.colIndex + 1 else g.rowIndex + 1
  }

  /** Where a scan stands: the phase (rows or columns) and the row and column indices. */
  datatype Cursor = Cursor(fillingRows: bool, rowIndex: int, colIndex: int)

  /** Where the search resumes after undoing the guess: the guess's phase,
      one block further along the guess's line. */
  function ResumePoint(g: Guess): (at: Cursor)
    ensures at.fillingRows == g.fillingRows
    ensures (if g.fillingRows then at.rowIndex else at.colIndex) == GuessLine(g)
    ensures (if g.fillingRows then at.colIndex else at.rowIndex) == Resume(g)
  {
    if g.fillingRows then Cursor(true, g.rowIndex, g.colIndex + 1) else Cursor(false, g.rowIndex + 1, g.colIndex)
  }

  /** The state of the scan between two lines: whether the puzzle is solved,
      where the scan stands and which charge it places next. */
  datatype ScanState = ScanState(solved: bool, at: Cursor, charge: Charge)

  /** Where the scan goes once its line needs no more of charge `x`, on a
      puzzle of side `n`. */
  function Advanced(fillingRows: bool, rowIndex: int, colIndex: int, x: Charge, n: int): (r: ScanState)
    ensures r.charge != None
    // positive poles are followed by negative ones on the same line, from its start
    ensures x == Pos ==> !r.solved && r.at.fillingRows == fillingRows && r.charge == Neg &&
                         if fillingRows then r.at.rowIndex == rowIndex && r.at.colIndex == 0
                         else r.at.colIndex == colIndex && r.at.rowIndex == 0
    // negative poles are followed by positive ones on the next line, from its start
    ensures x != Pos && (if fillingRows then rowIndex else colIndex) + 1 != n ==>
              r == ScanState(false, if fillingRows then Cursor(true, rowIndex + 1, 0) else Cursor(false, 0, colIndex + 1), Pos)
    // after the last row the column phase starts at column 0
    ensures fillingRows && x != Pos && rowIndex + 1 == n ==> r == ScanState(false, Cursor(false, 0, 0), Pos)
    // the phase changes only after the last row
    ensures r.at.fillingRows != fillingRows ==> fillingRows && x != Pos && rowIndex + 1 == n
    // solved exactly after the last column's negative poles
    ensures r.solved <==> !fillingRows && x != Pos && colIndex + 1 == n
  {
    if x == Pos then
      ScanState(false, Cursor(fillingRows, if fillingRows then rowIndex else 0, if fillingRows then 0 else colIndex), Neg)
    else
      var next := (if fillingRows then rowIndex else colIndex) + 1;
      if next != n then ScanState(false, Cursor(fillingRows, if fillingRows then next else 0, if fillingRows then 0 else next), Pos)
      else if fillingRows then ScanState(false, Cursor(false, 0, 0), Pos)
      else ScanState(true, Cursor(false, 0, next), Pos)
  }

  /** The guess at which backtracking stops: the latest one that leaves a
      block after it on its line of length `n`, or -1 when there is none.
      Every later guess is undone along the way. */
  function Unwind(stack: seq<Guess>, n: int): (d: int)
    ensures -1 <= d < |stack|
  {
    if |stack| == 0 then -1
    else if Resume(stack[|stack| - 1]) != n then |stack| - 1
    else Unwind(stack[..|stack| - 1], n)
  }

  /** Backtracking stops at a guess with a block left after it, and every
      guess it undoes on the way has none; with no such guess it empties
      the whole stack. */
  lemma {:induction false} UnwindStops(stack: seq<Guess>, n: int)
    ensures var d := Unwind(stack, n);
            (d >= 0 ==> Resume(stack[d]) != n) &&
            forall k :: d < k < |stack| ==> Resume(stack[k]) == n
  {
    if |stack| > 0 && Resume(stack[|stack| - 1]) == n {
      var front := stack[..|stack| - 1];
      UnwindStops(front, n);
      assert forall k :: 0 <= k < |front| ==> front[k] == stack[k];
    }
  }

  /** Popping the top guess: backtracking stops at it when it leaves a block
      after it, and otherwise goes on as on the rest of the stack. */
  lemma UnwindPop(stack: seq<Guess>, n: int)
    requires |stack| > 0
    ensures Resume(stack[|stack| - 1]) != n ==> Unwind(stack, n) == |stack| - 1
    ensures Resume(stack[|stack| - 1]) == n ==> Unwind(stack, n) == Unwind(stack[..|stack| - 1], n)
  {
  }

  /** Concatenation is associative. */
  lemma AppendAssoc<T>(a: seq<T>, b: seq<T>, c: seq<T>)
    ensures a + (b + c) == (a + b) + c
  {
  }

  /** Cutting a prefix short gives the shorter prefix. */
  lemma PrefixOfPrefix<T>(s: seq<T>, i: int, j: int)
    requires 0 <= j <= i <= |s|
    ensures s[..i][..j] == s[..j]
  {
  }

  /** A puzzle being solved: an arena of N×N blocks and the N row and N column
      sections. The domino pairing and the neighbour lists are fixed at
      construction; the search changes only the charges and the counters. */
  class Magnets {
    /** The side of the puzzle. */
    const n: nat
    /** The domino partner of every block (`Block.other` in `Magnets.java`). */
    const partner: seq<seq<Coord>>
    /** The neighbours of every block in other dominoes (`Block.adjacents` in `Magnets.java`). */
    const adjacents: seq<seq<seq<Coord>>>
    /** The requirements the sections started from. */
    ghost const requirements: seq<seq<int>>
    /** The charge of every block. */
    var charge: seq<seq<Charge>>
    /** The row sections and the column sections. */
    var rows: seq<Section>
    var cols: seq<Section>

    /** The fixed structure: every block's partner is a grid neighbour whose
        partner is the block, and every neighbour list holds exactly the other
        grid neighbours. */
    ghost predicate Topology()
    {
      Pairing(n, partner, adjacents) &&
      |requirements| >= 4 && forall k :: 0 <= k < 4 ==> |requirements[k]| >= n
    }

    ghost predicate Valid()
      reads this
    {
      Topology() && Shaped(charge, n) && |rows| == n && |cols| == n
    }

    /** The domino partner of block `b`. */
    function Partner(b: Coord): (p: Coord)
      requires Topology() && InBounds(n, b)
      ensures InBounds(n, p) && Orthogonal(p, b) && p != b && At(partner, p) == b
      ensures Adjacency(n, At(adjacents, b), b, p)
    {
      assert PairedAt(n, partner, adjacents, b);
      partner[b.row][b.col]
    }

    /** Each counter is its requirement minus the blocks of its line that already hold that pole. */
    ghost predicate Consistent(g: seq<seq<Charge>>, s: Counters)
      requires Topology() && Shaped(g, n)
    {
      Tally(s.rows, requirements[0], requirements[1], g) &&
      Tally(s.cols, requirements[2], requirements[3], Columns(g, n))
    }

    /** No charged block has a neighbour of the same charge. */
    ghost predicate Separated(g: seq<seq<Charge>>)
      requires Topology() && Shaped(g, n)
    {
      forall i, j, a :: 0 <= i < n && 0 <= j < n && a in adjacents[i][j] && InBounds(n, a) && g[i][j] != None ==>
        At(g, a) != g[i][j]
    }

    /** Every domino holds opposite poles or is empty. */
    ghost predicate Balanced(g: seq<seq<Charge>>)
      requires Topology() && Shaped(g, n)
    {
      forall i, j :: 0 <= i < n && 0 <= j < n ==> At(g, Partner(Coord(i, j))) == Flip(g[i][j])
    }

    /** The invariant of the puzzle state that placement and undo keep. */
    ghost predicate Invariant()
      reads this
    {
      Valid() && Consistent(charge, Counters(rows, cols)) && Separated(charge) && Balanced(charge)
    }

    /** The lines hold exactly the required poles, no poles of one sign touch
        across a domino boundary, and every domino is balanced. */
    ghost predicate IsSolution(g: seq<seq<Charge>>)
      requires Topology() && Shaped(g, n)
    {
      (forall i :: 0 <= i < n ==>
         Count(g[i], Pos) == requirements[0][i] && Count(g[i], Neg) == requirements[1][i] &&
         Count(Column(g, i), Pos) == requirements[2][i] && Count(Column(g, i), Neg) == requirements[3][i]) &&
      Separated(g) && Balanced(g)
    }

    /** Charge `x` may go on block `b`: the block is empty, no neighbour holds
        `x`, and neither its row nor its column has run out of `x`. */
    ghost predicate CanPlace(g: seq<seq<Charge>>, s: Counters, b: Coord, x: Charge)
      requires Topology() && Shaped(g, n) && |s.rows| == n && |s.cols| == n && InBounds(n, b)
    {
      At(g, b) == None &&
      (forall a :: a in adjacents[b.row][b.col] && InBounds(n, a) ==> At(g, a) != x) &&
      s.rows[b.row].BlocksLeft(x) != 0 && s.cols[b.col].BlocksLeft(x) != 0
    }

    /** The counters after the domino of `b` gets `x` on `b` and the opposite on its partner. */
    ghost function Placed(s: Counters, b: Coord, x: Charge): (r: Counters)
      requires Topology() && InBounds(n, b) && |s.rows| == n && |s.cols| == n && x != None
      ensures |r.rows| == n && |r.cols| == n
    {
      var p := Partner(b);
      Counters(PlaceAt(PlaceAt(s.rows, b.row, x), p.row, Opposite(x)),
               PlaceAt(PlaceAt(s.cols, b.col, x), p.col, Opposite(x)))
    }

    /** The counters after the domino of `b`, holding `x` on `b` and the
        opposite on its partner, is emptied the way `Block.fullUnset` does it. */
    ghost function Removed(s: Counters, b: Coord, x: Charge): (r: Counters)
      requires Topology() && InBounds(n, b) && |s.rows| == n && |s.cols| == n && x != None
      ensures |r.rows| == n && |r.cols| == n
    {
      var p := Partner(b);
      Counters(RemoveAt(RemoveAt(s.rows, b.row, x), p.row, Opposite(x)),
               RemoveAt(RemoveAt(s.cols, b.col, x), p.col, Opposite(x)))
    }

    /** Emptying a domino restores exactly the counters its placement changed. */
    lemma UndoPlaced(s: Counters, b: Coord, x: Charge)
      requires Topology() && InBounds(n, b) && |s.rows| == n && |s.cols| == n && x != None
      ensures Removed(Placed(s, b, x), b, x) == s
    {
      var p := Partner(b);
      UndoDomino(s.rows, b.row, x, p.row, Opposite(x));
      UndoDomino(s.cols, b.col, x, p.col, Opposite(x));
    }

    /** Charging an empty block with `x` and placing it in its row and column keeps the counters consistent. */
    lemma PlaceKeepsConsistent(g: seq<seq<Charge>>, s: Counters, b: Coord, x: Charge)
      requires Topology() && Shaped(g, n) && InBounds(n, b)
      requires Consistent(g, s) && At(g, b) == None
      ensures Consistent(Put(g, b, x), Counters(PlaceAt(s.rows, b.row, x), PlaceAt(s.cols, b.col, x)))
    {
      ColumnsAfterPut(g, n, b, x);
      PlaceKeepsTally(s.rows, requirements[0], requirements[1], g, b.row, b.col, x);
      PlaceKeepsTally(s.cols, requirements[2], requirements[3], Columns(g, n), b.col, b.row, x);
    }

    /** Emptying a block and removing its charge from its row and column keeps the counters consistent. */
    lemma RemoveKeepsConsistent(g: seq<seq<Charge>>, s: Counters, b: Coord)
      requires Topology() && Shaped(g, n) && InBounds(n, b)
      requires Consistent(g, s)
      ensures Consistent(Put(g, b, None), Counters(RemoveAt(s.rows, b.row, At(g, b)), RemoveAt(s.cols, b.col, At(g, b))))
    {
      ColumnsAfterPut(g, n, b, None);
      RemoveKeepsTally(s.rows, requirements[0], requirements[1], g, b.row, b.col);
      RemoveKeepsTally(s.cols, requirements[2], requirements[3], Columns(g, n), b.col, b.row);
    }

    /** The neighbour list of block `b` holds exactly its grid neighbours outside its domino. */
    lemma Around(b: Coord)
      requires Topology() && InBounds(n, b)
      ensures forall a :: a in adjacents[b.row][b.col] <==> InBounds(n, a) && Orthogonal(a, b) && a != Partner(b)
      ensures forall m :: 0 <= m < |adjacents[b.row][b.col]| ==> InBounds(n, adjacents[b.row][b.col][m])
    {
      assert Adjacency(n, adjacents[b.row][b.col], b, Partner(b));
      forall m | 0 <= m < |adjacents[b.row][b.col]|
        ensures InBounds(n, adjacents[b.row][b.col][m])
      {
        assert adjacents[b.row][b.col][m] in adjacents[b.row][b.col];
      }
    }

    /** A domino placed where both halves pass `CanPlace` keeps like poles apart. */
    lemma PlaceKeepsSeparated(g: seq<seq<Charge>>, s: Counters, b: Coord, x: Charge)
      requires Topology() && Shaped(g, n) && |s.rows| == n && |s.cols| == n && InBounds(n, b) && x != None
      requires Separated(g) && CanPlace(g, s, b, x) && CanPlace(g, s, Partner(b), Opposite(x))
      ensures Separated(Put(Put(g, b, x), Partner(b), Opposite(x)))
    {
      var p := Partner(b);
      var g' := Put(Put(g, b, x), p, Opposite(x));
      Around(b);
      Around(p);
      forall i, j, a | 0 <= i < n && 0 <= j < n && a in adjacents[i][j] && InBounds(n, a) && g'[i][j] != None
        ensures At(g', a) != g'[i][j]
      {
        var u := Coord(i, j);
        Around(u);
        if u == b {
          assert At(g', a) == At(g, a);
        } else if u == p {
          assert At(g', a) == At(g, a);
        } else {
          assert g'[i][j] == g[i][j];
          if a == b {
            assert u in adjacents[b.row][b.col];
          } else if a == p {
            assert u in adjacents[p.row][p.col];
          } else {
            assert At(g', a) == At(g, a);
          }
        }
      }
    }

    /** A domino charged with opposite poles on two empty blocks keeps every domino balanced. */
    lemma PlaceKeepsBalanced(g: seq<seq<Charge>>, b: Coord, x: Charge)
      requires Topology() && Shaped(g, n) && InBounds(n, b) && x != None
      requires Balanced(g) && At(g, b) == None
      ensures Balanced(Put(Put(g, b, x), Partner(b), Opposite(x)))
    {
      var p := Partner(b);
      var g' := Put(Put(g, b, x), p, Opposite(x));
      forall i, j | 0 <= i < n && 0 <= j < n
        ensures At(g', Partner(Coord(i, j))) == Flip(g'[i][j])
      {
        var u := Coord(i, j);
        if u != b && u != p {
          assert Partner(u) != b && Partner(u) != p;
        }
      }
    }

    /** Emptying both blocks of a domino keeps every domino balanced. */
    lemma ClearKeepsBalanced(g: seq<seq<Charge>>, b: Coord)
      requires Topology() && Shaped(g, n) && InBounds(n, b)
      requires Balanced(g)
      ensures Balanced(Put(Put(g, b, None), Partner(b), None))
    {
      var p := Partner(b);
      var g' := Put(Put(g, b, None), p, None);
      forall i, j | 0 <= i < n && 0 <= j < n
        ensures At(g', Partner(Coord(i, j))) == Flip(g'[i][j])
      {
        var u := Coord(i, j);
        var q := Partner(u);
        if u == b || u == p {
          assert q == p || q == b;
        } else {
          assert q != b && q != p;
          assert At(g', q) == At(g, q);
        }
      }
    }

    /** Emptying both blocks of a domino keeps like poles apart. */
    lemma ClearKeepsSeparated(g: seq<seq<Charge>>, b: Coord)
      requires Topology() && Shaped(g, n) && InBounds(n, b)
      requires Separated(g)
      ensures Separated(Put(Put(g, b, None), Partner(b), None))
    {
      var p := Partner(b);
      var g' := Put(Put(g, b, None), p, None);
      forall i, j, a | 0 <= i < n && 0 <= j < n && a in adjacents[i][j] && InBounds(n, a) && g'[i][j] != None
        ensures At(g', a) != g'[i][j]
      {
        assert g'[i][j] == g[i][j];
      }
    }

    /** A domino placed only where the rows and columns of both halves still
        need those poles leaves no counter negative. */
    lemma PlaceKeepsNonNegative(g: seq<seq<Charge>>, s: Counters, b: Coord, x: Charge)
      requires Topology() && Shaped(g, n) && |s.rows| == n && |s.cols| == n && InBounds(n, b) && x != None
      requires CanPlace(g, s, b, x) && CanPlace(g, s, Partner(b), Opposite(x)) && NonNegative(s)
      ensures NonNegative(Placed(s, b, x))
    {
      var p := Partner(b);
      var r1 := PlaceAt(s.rows, b.row, x);
      var c1 := PlaceAt(s.cols, b.col, x);
      assert NonNegative(Counters(r1, c1));
      assert r1[p.row].BlocksLeft(Opposite(x)) == s.rows[p.row].BlocksLeft(Opposite(x));
      assert c1[p.col].BlocksLeft(Opposite(x)) == s.cols[p.col].BlocksLeft(Opposite(x));
    }

    /** Emptying a domino only raises counters, so none becomes negative. */
    lemma RemoveKeepsNonNegative(s: Counters, r1: int, c1: int, x: Charge, r2: int, c2: int, y: Charge)
      requires 0 <= r1 < |s.rows| && 0 <= r2 < |s.rows| && 0 <= c1 < |s.cols| && 0 <= c2 < |s.cols|
      requires NonNegative(s)
      ensures NonNegative(Counters(RemoveAt(RemoveAt(s.rows, r1, x), r2, y), RemoveAt(RemoveAt(s.cols, c1, x), c2, y)))
    {
    }

    /** Placing a domino on two empty blocks keeps the counters consistent. */
    lemma DominoKeepsConsistent(g: seq<seq<Charge>>, s: Counters, b: Coord, x: Charge)
      requires Topology() && Shaped(g, n) && |s.rows| == n && |s.cols| == n && InBounds(n, b) && x != None
      requires Consistent(g, s) && At(g, b) == None && At(g, Partner(b)) == None
      ensures Consistent(Put(Put(g, b, x), Partner(b), Opposite(x)), Placed(s, b, x))
    {
      var p := Partner(b);
      var g1 := Put(g, b, x);
      var s1 := Counters(PlaceAt(s.rows, b.row, x), PlaceAt(s.cols, b.col, x));
      PlaceKeepsConsistent(g, s, b, x);
      assert At(g1, p) == None;
      PlaceKeepsConsistent(g1, s1, p, Opposite(x));
    }

    /** Emptying both blocks of a domino and giving their charges back keeps the counters consistent. */
    lemma ClearKeepsConsistent(g: seq<seq<Charge>>, s: Counters, b: Coord)
      requires Topology() && Shaped(g, n) && |s.rows| == n && |s.cols| == n && InBounds(n, b)
      requires Consistent(g, s)
      ensures Consistent(Put(Put(g, b, None), Partner(b), None),
                         Counters(RemoveAt(RemoveAt(s.rows, b.row, At(g, b)), Partner(b).row, At(g, Partner(b))),
                                  RemoveAt(RemoveAt(s.cols, b.col, At(g, b)), Partner(b).col, At(g, Partner(b)))))
    {
      var p := Partner(b);
      var g1 := Put(g, b, None);
      RemoveKeepsConsistent(g, s, b);
      assert At(g1, p) == At(g, p);
      RemoveKeepsConsistent(g1, Counters(RemoveAt(s.rows, b.row, At(g, b)), RemoveAt(s.cols, b.col, At(g, b))), p);
    }

    /** A grid with every block empty keeps like poles apart and every domino balanced. */
    lemma BlankIsStable(g: seq<seq<Charge>>)
      requires Topology() && Shaped(g, n) && AllEmpty(g)
      ensures Separated(g) && Balanced(g)
    {
      forall i, j | 0 <= i < n && 0 <= j < n
        ensures At(g, Partner(Coord(i, j))) == Flip(g[i][j])
      {
        assert InBounds(n, Partner(Coord(i, j)));
      }
    }

    /** Whether charge `x` may be placed on block `b` (`Block.possible` in `Magnets.java`); reads only. */
    method Possible(b: Coord, x: Charge) returns (possible: bool)
      requires Valid() && InBounds(n, b)
      ensures possible == CanPlace(charge, Counters(rows, cols), b, x)
    {
      if At(charge, b) != None {
        return false;
      }
      var adj := adjacents[b.row][b.col];
      Around(b);
      var k := 0;
      while k < |adj|
        invariant 0 <= k <= |adj|
        invariant forall m :: 0 <= m < k ==> At(charge, adj[m]) != x
      {
        if At(charge, adj[k]) == x {
          return false;
        }
        k := k + 1;
      }
      if rows[b.row].BlocksLeft(x) == 0 {
        return false;
      }
      if cols[b.col].BlocksLeft(x) == 0 {
        return false;
      }
      return true;
    }

    /** Puts charge `x` on block `b` and records it in its row and column (`Block.set` in `Magnets.java`). */
    method Set(b: Coord, x: Charge)
      requires Valid() && InBounds(n, b)
      modifies this
      ensures Valid()
      ensures charge == Put(old(charge), b, x)
      ensures rows == PlaceAt(old(rows), b.row, x) && cols == PlaceAt(old(cols), b.col, x)
    {
      charge := Put(charge, b, x);
      rows := PlaceAt(rows, b.row, x);
      cols := PlaceAt(cols, b.col, x);
    }

    /** Empties block `b` and gives its charge back to its row and column (`Block.unset` in `Magnets.java`). */
    method Unset(b: Coord)
      requires Valid() && InBounds(n, b)
      modifies this
      ensures Valid()
      ensures rows == RemoveAt(old(rows), b.row, old(At(charge, b)))
      ensures cols == RemoveAt(old(cols), b.col, old(At(charge, b)))
      ensures charge == Put(old(charge), b, None)
    {
      rows := RemoveAt(rows, b.row, At(charge, b));
      cols := RemoveAt(cols, b.col, At(charge, b));
      charge := Put(charge, b, None);
    }

    /** Places a whole domino: `x` on block `b` and the opposite pole on its
        partner, when both halves may take them, and otherwise nothing
        (`Block.trySet` in `Magnets.java`). */
    method TrySet(b: Coord, x: Charge) returns (placed: bool)
      requires Valid() && InBounds(n, b) && x != None
      modifies this
      ensures Valid()
      ensures placed == old(CanPlace(charge, Counters(rows, cols), b, x) &&
                            CanPlace(charge, Counters(rows, cols), Partner(b), Opposite(x)))
      ensures placed ==> charge == Put(Put(old(charge), b, x), Partner(b), Opposite(x))
      ensures placed ==> Counters(rows, cols) == Placed(old(Counters(rows, cols)), b, x)
      ensures !placed ==> charge == old(charge) && rows == old(rows) && cols == old(cols)
      ensures old(Invariant()) ==> Invariant()
      ensures old(NonNegative(Counters(rows, cols))) ==> NonNegative(Counters(rows, cols))
    {
      var oppositeCharge := Opposite(x);
      var other := Partner(b);
      var here := Possible(b, x);
      var there := false;
      if here {
        there := Possible(other, oppositeCharge);
      }
      if here && there {
        ghost var g, s := charge, Counters(rows, cols);
        Set(b, x);
        Set(other, oppositeCharge);
        if Consistent(g, s) {
          DominoKeepsConsistent(g, s, b, x);
        }
        if Separated(g) {
          PlaceKeepsSeparated(g, s, b, x);
        }
        if Balanced(g) {
          PlaceKeepsBalanced(g, b, x);
        }
        if NonNegative(s) {
          PlaceKeepsNonNegative(g, s, b, x);
        }
        return true;
      }
      return false;
    }

    /** Empties both blocks of the domino of `b`, giving both charges back to
        their rows and columns (`Block.fullUnset` in `Magnets.java`). */
    method FullUnset(b: Coord)
      requires Valid() && InBounds(n, b)
      modifies this
      ensures Valid()
      ensures charge == Put(Put(old(charge), b, None), Partner(b), None)
      ensures rows == RemoveAt(RemoveAt(old(rows), b.row, old(At(charge, b))), Partner(b).row, old(At(charge, Partner(b))))
      ensures cols == RemoveAt(RemoveAt(old(cols), b.col, old(At(charge, b))), Partner(b).col, old(At(charge, Partner(b))))
      ensures old(Balanced(charge)) && old(At(charge, b)) != None ==>
                Counters(rows, cols) == Removed(old(Counters(rows, cols)), b, old(At(charge, b)))
      ensures old(Invariant()) ==> Invariant()
      ensures old(NonNegative(Counters(rows, cols))) ==> NonNegative(Counters(rows, cols))
    {
      ghost var g, s := charge, Counters(rows, cols);
      var other := Partner(b);
      Unset(b);
      Unset(other);
      if Consistent(g, s) {
        ClearKeepsConsistent(g, s, b);
      }
      if Balanced(g) {
        ClearKeepsBalanced(g, b);
      }
      if Separated(g) {
        ClearKeepsSeparated(g, b);
      }
      if NonNegative(s) {
        RemoveKeepsNonNegative(s, b.row, b.col, At(g, b), other.row, other.col, At(g, other));
      }
      if Balanced(g) && At(g, b) != None {
        assert At(g, other) == Opposite(At(g, b));
      }
    }

    /** Builds the puzzle from a layout of N rows of N characters, where '#'
        starts a horizontal domino and any other character a vertical one, and
        from the four requirement lists. Every block starts empty. */
    constructor (grid: seq<seq<char>>, requirements: seq<seq<int>>)
      requires RequirementsShape(requirements) && WellFormed(grid, |requirements[0]|)
      ensures n == |requirements[0]| && this.requirements == requirements
      ensures Invariant() && AllEmpty(charge)
      ensures forall i :: 0 <= i < n ==>
                rows[i] == Section(requirements[0][i], requirements[1][i]) &&
                cols[i] == Section(requirements[2][i], requirements[3][i])
      ensures forall i, j :: 0 <= i < n && 0 <= j < n ==> partner[i][j] == Mate(grid, n, Coord(i, j))
    {
      var puzzleSize := |requirements[0]|;
      var rowSections, colSections := NewSections(requirements);
      var other, adj := PairBlocks(grid, puzzleSize);
      n := puzzleSize;
      partner := other;
      adjacents := adj;
      this.requirements := requirements;
      charge := Blank(puzzleSize);
      rows := rowSections;
      cols := colSections;
      new;
      MatesArePairing(grid, n, partner, adjacents);
      EmptyTally(rows, requirements[0], requirements[1], charge);
      EmptyTally(cols, requirements[2], requirements[3], Columns(charge, n));
      BlankIsStable(charge);
    }

    /** Charging the two empty blocks of a domino and emptying them again gives back the grid. */
    lemma ClearDomino(g: seq<seq<Charge>>, b: Coord, x: Charge, y: Charge)
      requires Topology() && Shaped(g, n) && InBounds(n, b)
      requires At(g, b) == None && At(g, Partner(b)) == None
      ensures Put(Put(Put(Put(g, b, x), Partner(b), y), b, None), Partner(b), None) == g
    {
      var p := Partner(b);
      var h := Put(Put(Put(Put(g, b, x), p, y), b, None), p, None);
      forall i | 0 <= i < n
        ensures h[i] == g[i]
      {
        assert |h[i]| == |g[i]|;
      }
    }

    /** A finished scan with every counter at or below zero, where none can
        drop below zero, is a solution of the puzzle. */
    lemma SolvedIsSolution(g: seq<seq<Charge>>, s: Counters)
      requires Topology() && Shaped(g, n) && |s.rows| == n && |s.cols| == n
      requires Consistent(g, s) && Separated(g) && Balanced(g)
      requires AllSatisfied(s) && NonNegative(s)
      ensures IsSolution(g)
    {
      SettledTally(s.rows, requirements[0], requirements[1], g);
      SettledTally(s.cols, requirements[2], requirements[3], Columns(g, n));
    }

    /** One guess of the search: from grid `g` and counters `s`, the block of
        `guess` and its partner, both empty, took opposite poles, which gave
        `g1` and `s1`, and the scan had reached the guess's line in the state it records. */
    ghost predicate Step(g: seq<seq<Charge>>, s: Counters, guess: Guess, g1: seq<seq<Charge>>, s1: Counters)
      requires Topology()
    {
      Shaped(g, n) && Shaped(g1, n) && |s.rows| == n && |s.cols| == n &&
      InBounds(n, guess.block) && guess.block == Coord(guess.rowIndex, guess.colIndex) &&
      At(g, guess.block) == None && At(g, Partner(guess.block)) == None &&
      At(g1, guess.block) != None &&
      g1 == Put(Put(g, guess.block, At(g1, guess.block)), Partner(guess.block), Opposite(At(g1, guess.block))) &&
      s1 == Placed(s, guess.block, At(g1, guess.block)) &&
      ScanSatisfied(s, guess.fillingRows, GuessLine(guess), At(g1, guess.block))
    }

    /** The stack of guesses replays the search: `grids` and `counters` hold
        the state before each guess, and after the last one the state is `g`, `s`. */
    ghost predicate History(g: seq<seq<Charge>>, s: Counters, stack: seq<Guess>,
                            grids: seq<seq<seq<Charge>>>, counters: seq<Counters>)
      requires Topology()
    {
      |grids| == |stack| + 1 && |counters| == |stack| + 1 &&
      grids[|stack|] == g && counters[|stack|] == s &&
      forall k :: 0 <= k < |stack| ==> StepAt(stack, grids, counters, k)
    }

    /** Guess `k` of the stack is a step of the search. */
    ghost predicate StepAt(stack: seq<Guess>, grids: seq<seq<seq<Charge>>>, counters: seq<Counters>, k: int)
      requires Topology()
    {
      0 <= k < |stack| && k + 1 < |grids| && k + 1 < |counters| &&
      Step(grids[k], counters[k], stack[k], grids[k + 1], counters[k + 1])
    }

    /** The charge guess `k` of a recorded search placed on its block. */
    ghost function GuessCharge(stack: seq<Guess>, grids: seq<seq<seq<Charge>>>, counters: seq<Counters>, k: int): Charge
      requires Topology() && StepAt(stack, grids, counters, k)
    {
      At(grids[k + 1], stack[k].block)
    }

    /** The record `st`, `gr`, `co` continues the record `stack`, `grids`,
        `counters`: it keeps all of it, and every guess pushed since placed `x`. */
    ghost predicate Extends(stack: seq<Guess>, grids: seq<seq<seq<Charge>>>, counters: seq<Counters>,
                            st: seq<Guess>, gr: seq<seq<seq<Charge>>>, co: seq<Counters>, x: Charge)
      requires Topology()
    {
      |stack| <= |st| && st[..|stack|] == stack &&
      |grids| <= |gr| && gr[..|grids|] == grids && |counters| <= |co| && co[..|counters|] == counters &&
      forall k :: |stack| <= k < |st| ==> StepAt(st, gr, co, k) && GuessCharge(st, gr, co, k) == x
    }

    /** A record continues itself. */
    lemma ExtendsSelf(stack: seq<Guess>, grids: seq<seq<seq<Charge>>>, counters: seq<Counters>, x: Charge)
      requires Topology()
      ensures Extends(stack, grids, counters, stack, grids, counters, x)
    {
      assert stack[..|stack|] == stack && grids[..|grids|] == grids && counters[..|counters|] == counters;
    }

    /** Pushing a guess that placed `x` continues the record. */
    lemma ExtendsPush(stack: seq<Guess>, grids: seq<seq<seq<Charge>>>, counters: seq<Counters>,
                      guess: Guess, g1: seq<seq<Charge>>, s1: Counters, x: Charge)
      requires Topology() && |grids| == |stack| + 1 && |counters| == |stack| + 1
      requires StepAt(stack + [guess], grids + [g1], counters + [s1], |stack|) && At(g1, guess.block) == x
      ensures Extends(stack, grids, counters, stack + [guess], grids + [g1], counters + [s1], x)
    {
      assert (stack + [guess])[..|stack|] == stack;
      assert (grids + [g1])[..|grids|] == grids;
      assert (counters + [s1])[..|counters|] == counters;
    }

    /** A record continued twice, with the same charge, continues the first. */
    lemma ExtendsTrans(stack: seq<Guess>, grids: seq<seq<seq<Charge>>>, counters: seq<Counters>,
                       st: seq<Guess>, gr: seq<seq<seq<Charge>>>, co: seq<Counters>,
                       st': seq<Guess>, gr': seq<seq<seq<Charge>>>, co': seq<Counters>, x: Charge)
      requires Topology() && Extends(stack, grids, counters, st, gr, co, x) && Extends(st, gr, co, st', gr', co', x)
      ensures Extends(stack, grids, counters, st', gr', co', x)
    {
      assert st'[..|stack|] == st'[..|st|][..|stack|];
      assert gr'[..|grids|] == gr'[..|gr|][..|grids|];
      assert co'[..|counters|] == co'[..|co|][..|counters|];
      forall k | |stack| <= k < |st|
        ensures StepAt(st', gr', co', k) && GuessCharge(st', gr', co', k) == x
      {
        assert StepAt(st, gr, co, k);
        assert st'[k] == st'[..|st|][k] && gr'[k] == gr'[..|gr|][k] && gr'[k + 1] == gr'[..|gr|][k + 1];
        assert co'[k] == co'[..|co|][k] && co'[k + 1] == co'[..|co|][k + 1];
      }
    }

    /** Backtracking a continued record to `d` guesses: the state is the one
        the old record holds when `d` lies in it, and otherwise the
        truncated record still continues the old one. */
    lemma ExtendsTruncate(stack: seq<Guess>, grids: seq<seq<seq<Charge>>>, counters: seq<Counters>,
                          st: seq<Guess>, gr: seq<seq<seq<Charge>>>, co: seq<Counters>, x: Charge, d: int)
      requires Topology() && Extends(stack, grids, counters, st, gr, co, x) && 0 <= d <= |st|
      requires |grids| == |stack| + 1 && |counters| == |stack| + 1 && |gr| == |st| + 1 && |co| == |st| + 1
      ensures d <= |stack| ==> gr[d] == grids[d] && co[d] == counters[d]
      ensures d >= |stack| ==> Extends(stack, grids, counters, st[..d], gr[..d + 1], co[..d + 1], x)
    {
      if d <= |stack| {
        assert gr[d] == gr[..|grids|][d] && co[d] == co[..|counters|][d];
      } else {
        var st1, gr1, co1 := st[..d], gr[..d + 1], co[..d + 1];
        forall k | |stack| <= k < d
          ensures StepAt(st1, gr1, co1, k) && GuessCharge(st1, gr1, co1, k) == x
        {
          assert StepAt(st, gr, co, k);
        }
      }
    }

    /** A record is fixed by its first state and the charge each guess placed:
        two records of the same guesses from the same start, with the same
        charges, hold the same states. */
    lemma HistoryDetermined(g: seq<seq<Charge>>, s: Counters, g': seq<seq<Charge>>, s': Counters, stack: seq<Guess>,
                            grids: seq<seq<seq<Charge>>>, counters: seq<Counters>,
                            grids': seq<seq<seq<Charge>>>, counters': seq<Counters>)
      requires Topology() && History(g, s, stack, grids, counters) && History(g', s', stack, grids', counters')
      requires grids[0] == grids'[0] && counters[0] == counters'[0]
      requires forall k :: 0 <= k < |stack| ==> GuessCharge(stack, grids, counters, k) == GuessCharge(stack, grids', counters', k)
      ensures grids == grids' && counters == counters' && g == g' && s == s'
    {
      forall k | 0 <= k <= |stack|
        ensures grids[k] == grids'[k] && counters[k] == counters'[k]
      {
        SameUpTo(stack, grids, counters, grids', counters', k);
      }
    }

    /** `HistoryDetermined` up to the state before guess `k`. */
    lemma {:induction false} SameUpTo(stack: seq<Guess>, grids: seq<seq<seq<Charge>>>, counters: seq<Counters>,
                                      grids': seq<seq<seq<Charge>>>, counters': seq<Counters>, k: int)
      requires Topology() && |grids| == |stack| + 1 && |counters| == |stack| + 1
      requires |grids'| == |stack| + 1 && |counters'| == |stack| + 1
      requires forall m :: 0 <= m < |stack| ==> StepAt(stack, grids, counters, m) && StepAt(stack, grids', counters', m)
      requires grids[0] == grids'[0] && counters[0] == counters'[0]
      requires forall m :: 0 <= m < |stack| ==> GuessCharge(stack, grids, counters, m) == GuessCharge(stack, grids', counters', m)
      requires 0 <= k <= |stack|
      ensures grids[k] == grids'[k] && counters[k] == counters'[k]
    {
      if k > 0 {
        SameUpTo(stack, grids, counters, grids', counters', k - 1);
        assert StepAt(stack, grids, counters, k - 1) && StepAt(stack, grids', counters', k - 1);
        assert GuessCharge(stack, grids, counters, k - 1) == GuessCharge(stack, grids', counters', k - 1);
      }
    }

    /** The first `k` guesses of a recorded search are the record of the state after them. */
    lemma TruncateHistory(g: seq<seq<Charge>>, s: Counters, stack: seq<Guess>,
                          grids: seq<seq<seq<Charge>>>, counters: seq<Counters>, k: int)
      requires Topology() && History(g, s, stack, grids, counters) && 0 <= k <= |stack|
      ensures History(grids[k], counters[k], stack[..k], grids[..k + 1], counters[..k + 1])
    {
      var st, gr, co := stack[..k], grids[..k + 1], counters[..k + 1];
      forall j | 0 <= j < k
        ensures StepAt(st, gr, co, j)
      {
        assert StepAt(stack, grids, counters, j);
      }
    }

    /** Pushing a guess extends the history. */
    lemma PushHistory(g: seq<seq<Charge>>, s: Counters, stack: seq<Guess>,
                      grids: seq<seq<seq<Charge>>>, counters: seq<Counters>,
                      guess: Guess, g1: seq<seq<Charge>>, s1: Counters)
      requires Topology() && History(g, s, stack, grids, counters) && Step(g, s, guess, g1, s1)
      ensures History(g1, s1, stack + [guess], grids + [g1], counters + [s1])
    {
      forall k | 0 <= k < |stack| + 1
        ensures StepAt(stack + [guess], grids + [g1], counters + [s1], k)
      {
        if k < |stack| {
          assert StepAt(stack, grids, counters, k);
        }
      }
    }

    /** Popping a guess leaves the history of the state before it. */
    lemma PopHistory(g: seq<seq<Charge>>, s: Counters, stack: seq<Guess>,
                     grids: seq<seq<seq<Charge>>>, counters: seq<Counters>)
      requires Topology() && History(g, s, stack, grids, counters) && |stack| > 0
      ensures Step(grids[|stack| - 1], counters[|stack| - 1], stack[|stack| - 1], g, s)
      ensures History(grids[|stack| - 1], counters[|stack| - 1], stack[..|stack| - 1], grids[..|stack|], counters[..|stack|])
    {
      assert StepAt(stack, grids, counters, |stack| - 1);
      var st, gr, co := stack[..|stack| - 1], grids[..|stack|], counters[..|stack|];
      forall k | 0 <= k < |stack| - 1
        ensures StepAt(st, gr, co, k)
      {
        assert StepAt(stack, grids, counters, k);
      }
    }

    /** Every guess on the stack charged two empty blocks: from an empty grid,
        the state after `k` guesses has exactly `2 * k` charged blocks. */
    lemma {:induction false} FilledAlongHistory(stack: seq<Guess>, grids: seq<seq<seq<Charge>>>, counters: seq<Counters>, k: int)
      requires Topology() && |grids| == |stack| + 1 && |counters| == |stack| + 1
      requires forall m :: 0 <= m < |stack| ==> StepAt(stack, grids, counters, m)
      requires AllEmpty(grids[0]) && 0 <= k <= |stack|
      ensures Filled(grids[k]) == 2 * k
    {
      if k == 0 {
        FilledZero(grids[0]);
      } else {
        FilledAlongHistory(stack, grids, counters, k - 1);
        assert StepAt(stack, grids, counters, k - 1);
        var b := stack[k - 1].block;
        var x := At(grids[k], b);
        FilledUpdate(grids[k - 1], b, x);
        FilledUpdate(Put(grids[k - 1], b, x), Partner(b), Opposite(x));
      }
    }

    /** A search started on an empty grid has twice as many charged blocks as guesses on its stack. */
    lemma FilledTwiceStack(g: seq<seq<Charge>>, s: Counters, stack: seq<Guess>,
                           grids: seq<seq<seq<Charge>>>, counters: seq<Counters>)
      requires Topology() && History(g, s, stack, grids, counters) && AllEmpty(grids[0])
      ensures Filled(g) == 2 * |stack|
    {
      FilledAlongHistory(stack, grids, counters, |stack|);
    }

    /** The section being filled: row `line` in the row phase, column `line` in the column phase. */
    function Current(fillingRows: bool, line: int): (section: Section)
      requires Valid() && 0 <= line < n
      reads this
      ensures section == if fillingRows then rows[line] else cols[line]
    {
      Along(Counters(rows, cols), fillingRows, line)
    }

    /** A domino placed where both halves fit, during a scan of the guess's
        line, is one step of the search and keeps what the scan achieved. */
    lemma GuessStep(g: seq<seq<Charge>>, s: Counters, guess: Guess, x: Charge)
      requires Topology() && Shaped(g, n) && |s.rows| == n && |s.cols| == n && x != None
      requires InBounds(n, guess.block) && guess.block == Coord(guess.rowIndex, guess.colIndex)
      requires CanPlace(g, s, guess.block, x) && CanPlace(g, s, Partner(guess.block), Opposite(x))
      requires ScanSatisfied(s, guess.fillingRows, GuessLine(guess), x)
      ensures Step(g, s, guess, Put(Put(g, guess.block, x), Partner(guess.block), Opposite(x)), Placed(s, guess.block, x))
      ensures ScanSatisfied(Placed(s, guess.block, x), guess.fillingRows, GuessLine(guess), x)
    {
      var b, p := guess.block, Partner(guess.block);
      var g1 := Put(Put(g, b, x), p, Opposite(x));
      PlaceKeepsScan(s, guess.fillingRows, GuessLine(guess), x, b.row, b.col, x);
      PlaceKeepsScan(Counters(PlaceAt(s.rows, b.row, x), PlaceAt(s.cols, b.col, x)), guess.fillingRows, GuessLine(guess), x, p.row, p.col, Opposite(x));
      assert At(g1, b) == x;
    }

    /** A guess placed during a line's scan extends the record of the search:
        the new state is the record's last, and the guess placed `x`. */
    lemma RecordGuess(g: seq<seq<Charge>>, s: Counters, stack: seq<Guess>,
                      grids: seq<seq<seq<Charge>>>, counters: seq<Counters>, guess: Guess, x: Charge)
      requires Topology() && Shaped(g, n) && |s.rows| == n && |s.cols| == n && x != None
      requires InBounds(n, guess.block) && guess.block == Coord(guess.rowIndex, guess.colIndex)
      requires CanPlace(g, s, guess.block, x) && CanPlace(g, s, Partner(guess.block), Opposite(x))
      requires ScanSatisfied(s, guess.fillingRows, GuessLine(guess), x)
      requires History(g, s, stack, grids, counters)
      ensures var g1, s1 := Put(Put(g, guess.block, x), Partner(guess.block), Opposite(x)), Placed(s, guess.block, x);
              ScanSatisfied(s1, guess.fillingRows, GuessLine(guess), x) &&
              History(g1, s1, stack + [guess], grids + [g1], counters + [s1]) &&
              (grids + [g1])[0] == grids[0] && (counters + [s1])[0] == counters[0] &&
              Extends(stack, grids, counters, stack + [guess], grids + [g1], counters + [s1], x)
    {
      var g1, s1 := Put(Put(g, guess.block, x), Partner(guess.block), Opposite(x)), Placed(s, guess.block, x);
      GuessStep(g, s, guess, x);
      PushHistory(g, s, stack, grids, counters, guess, g1, s1);
      assert StepAt(stack + [guess], grids + [g1], counters + [s1], |stack|);
      ExtendsPush(stack, grids, counters, guess, g1, s1, x);
    }

    /** The inner loop of the search as a reference definition: from
        position `pos` of line `line`, while the line still needs `x` and its
        end is not reached, a domino with `x` on the block and the opposite on
        its partner is placed, and a guess pushed, exactly where both halves fit.
        The scan stops at the end of the line or once the line needs no more
        `x`; the line's section gives up one `x` per guess; the guesses are of
        the scan's phase, for blocks of the line, at increasing positions from
        `pos` up to where the scan stopped. */
    ghost function Fill(g: seq<seq<Charge>>, s: Counters, fillingRows: bool, line: int, pos: int, x: Charge): (r: Filling)
      requires Topology() && Shaped(g, n) && |s.rows| == n && |s.cols| == n
      requires 0 <= line < n && 0 <= pos <= n && x != None
      ensures pos <= r.next <= n && Shaped(r.grid, n) && |r.counters.rows| == n && |r.counters.cols| == n
      ensures r.next == n || Along(r.counters, fillingRows, line).BlocksLeft(x) <= 0
      ensures Along(r.counters, fillingRows, line).BlocksLeft(x) == Along(s, fillingRows, line).BlocksLeft(x) - |r.guesses|
      ensures OnLine(r.guesses, fillingRows, line, pos, r.next)
      decreases n - pos
    {
      if Along(s, fillingRows, line).BlocksLeft(x) <= 0 || pos == n then Filling(pos, [], g, s)
      else
        var b := if fillingRows then Coord(line, pos) else Coord(pos, line);
        if CanPlace(g, s, b, x) && CanPlace(g, s, Partner(b), Opposite(x)) then
          var r := Fill(Put(Put(g, b, x), Partner(b), Opposite(x)), Placed(s, b, x), fillingRows, line, pos + 1, x);
          PlacedOnLine(s, b, x, fillingRows, line);
          OnLineCons(Guess(b, b.row, b.col, fillingRows), r.guesses, fillingRows, line, pos, r.next);
          Filling(r.next, [Guess(b, b.row, b.col, fillingRows)] + r.guesses, r.grid, r.counters)
        else
          var r := Fill(g, s, fillingRows, line, pos + 1, x);
          OnLineWiden(r.guesses, fillingRows, line, pos, r.next);
          r
    }

    /** A domino whose block lies on the line takes exactly one `x` from the line's section. */
    lemma PlacedOnLine(s: Counters, b: Coord, x: Charge, fillingRows: bool, line: int)
      requires Topology() && InBounds(n, b) && |s.rows| == n && |s.cols| == n && x != None
      requires line == (if fillingRows then b.row else b.col)
      ensures Along(Placed(s, b, x), fillingRows, line).BlocksLeft(x) == Along(s, fillingRows, line).BlocksLeft(x) - 1
    {
      var p := Partner(b);
      OppositeInvolution(x);
      if fillingRows {
        assert PlaceAt(s.rows, b.row, x)[line].BlocksLeft(x) == s.rows[line].BlocksLeft(x) - 1;
      } else {
        assert PlaceAt(s.cols, b.col, x)[line].BlocksLeft(x) == s.cols[line].BlocksLeft(x) - 1;
      }
    }

    /** Part way through the scan of a line begun at `index` from board `g0`
        and counters `s0` with stack `stack`: finishing the scan from board
        `g`, counters `s`, position `pos` and stack `st` ends where the whole
        scan ends. */
    ghost predicate Midway(g0: seq<seq<Charge>>, s0: Counters, fillingRows: bool, line: int, index: int, x: Charge,
                           stack: seq<Guess>, g: seq<seq<Charge>>, s: Counters, pos: int, st: seq<Guess>)
    {
      Topology() && Shaped(g0, n) && |s0.rows| == n && |s0.cols| == n && Shaped(g, n) && |s.rows| == n && |s.cols| == n &&
      0 <= line < n && 0 <= index <= pos <= n && x != None &&
      var f, rest := Fill(g0, s0, fillingRows, line, index, x), Fill(g, s, fillingRows, line, pos, x);
      f.next == rest.next && f.grid == rest.grid && f.counters == rest.counters && stack + f.guesses == st + rest.guesses
    }

    /** Trying the block at `pos`, and pushing a guess exactly when its domino
        was placed, keeps the scan on course. */
    lemma FillAdvance(g0: seq<seq<Charge>>, s0: Counters, fillingRows: bool, line: int, index: int, x: Charge, stack: seq<Guess>,
                      g: seq<seq<Charge>>, s: Counters, pos: int, st: seq<Guess>,
                      placed: bool, g': seq<seq<Charge>>, s': Counters, pos': int, st': seq<Guess>)
      requires Midway(g0, s0, fillingRows, line, index, x, stack, g, s, pos, st)
      requires Along(s, fillingRows, line).BlocksLeft(x) > 0 && pos < n && pos' == pos + 1
      requires var b := if fillingRows then Coord(line, pos) else Coord(pos, line);
               placed == (CanPlace(g, s, b, x) && CanPlace(g, s, Partner(b), Opposite(x))) &&
               (placed ==> g' == Put(Put(g, b, x), Partner(b), Opposite(x)) && s' == Placed(s, b, x) &&
                           st' == st + [Guess(b, b.row, b.col, fillingRows)]) &&
               (!placed ==> g' == g && s' == s && st' == st)
      ensures Midway(g0, s0, fillingRows, line, index, x, stack, g', s', pos', st')
    {
      if placed {
        var b := if fillingRows then Coord(line, pos) else Coord(pos, line);
        AppendAssoc(st, [Guess(b, b.row, b.col, fillingRows)], Fill(g', s', fillingRows, line, pos + 1, x).guesses);
      }
    }

    /** A scan that can go no further has reached the end the whole scan reaches. */
    lemma FillDone(g0: seq<seq<Charge>>, s0: Counters, fillingRows: bool, line: int, index: int, x: Charge, stack: seq<Guess>,
                   g: seq<seq<Charge>>, s: Counters, pos: int, st: seq<Guess>)
      requires Midway(g0, s0, fillingRows, line, index, x, stack, g, s, pos, st)
      requires Along(s, fillingRows, line).BlocksLeft(x) <= 0 || pos == n
      ensures var f := Fill(g0, s0, fillingRows, line, index, x);
              pos == f.next && st == stack + f.guesses && g == f.grid && s == f.counters
    {
    }

    /** One step of the inner loop: tries the domino of `block` with charge
        `x` and, when it fits, pushes a guess for it. */
    method TryGuess(fillingRows: bool, line: int, block: Coord, x: Charge, stack: seq<Guess>,
                    ghost grids: seq<seq<seq<Charge>>>, ghost counters: seq<Counters>)
      returns (placed: bool, stack': seq<Guess>, ghost grids': seq<seq<seq<Charge>>>, ghost counters': seq<Counters>)
      requires Invariant() && x != None && InBounds(n, block) && line == (if fillingRows then block.row else block.col)
      requires ScanSatisfied(Counters(rows, cols), fillingRows, line, x)
      requires History(charge, Counters(rows, cols), stack, grids, counters)
      modifies this
      ensures placed == old(CanPlace(charge, Counters(rows, cols), block, x) &&
                            CanPlace(charge, Counters(rows, cols), Partner(block), Opposite(x)))
      ensures placed ==> charge == Put(Put(old(charge), block, x), Partner(block), Opposite(x)) &&
                         Counters(rows, cols) == Placed(old(Counters(rows, cols)), block, x)
      ensures !placed ==> charge == old(charge) && rows == old(rows) && cols == old(cols)
      ensures stack' == if placed then stack + [Guess(block, block.row, block.col, fillingRows)] else stack
      ensures Invariant()
      ensures ScanSatisfied(Counters(rows, cols), fillingRows, line, x)
      ensures History(charge, Counters(rows, cols), stack', grids', counters')
      ensures grids'[0] == grids[0] && counters'[0] == counters[0]
      ensures Extends(stack, grids, counters, stack', grids', counters', x)
      ensures old(NonNegative(Counters(rows, cols))) ==> NonNegative(Counters(rows, cols))
    {
      stack', grids', counters' := stack, grids, counters;
      ghost var g, s := charge, Counters(rows, cols);
      placed := TrySet(block, x);
      if placed {
        var guess := Guess(block, block.row, block.col, fillingRows);
        RecordGuess(g, s, stack, grids, counters, guess, x);
        stack', grids', counters' := stack' + [guess], grids' + [charge], counters' + [Counters(rows, cols)];
      } else {
        ExtendsSelf(stack, grids, counters, x);
      }
    }

    /** The state part way through `FillSection`: the board is consistent, the
        scan of line `line` begun at `index` from board `g0` and counters `s0`
        is at position `next` with stack `st`, and `gr`, `co` record its history. */
    ghost predicate Scanning(g0: seq<seq<Charge>>, s0: Counters, fillingRows: bool, line: int, index: int, x: Charge,
                             stack: seq<Guess>, next: int, st: seq<Guess>, gr: seq<seq<seq<Charge>>>, co: seq<Counters>)
      reads this
    {
      Invariant() && index <= next <= n &&
      Midway(g0, s0, fillingRows, line, index, x, stack, charge, Counters(rows, cols), next, st) &&
      ScanSatisfied(Counters(rows, cols), fillingRows, line, x) &&
      History(charge, Counters(rows, cols), st, gr, co)
    }

    /** One pass of the inner loop: tries the domino of the block at position
        `next` of the line, and the scan moves on to the next position. */
    method ScanBlock(ghost g0: seq<seq<Charge>>, ghost s0: Counters, fillingRows: bool, line: int, ghost index: int, x: Charge,
                     ghost stack: seq<Guess>, next: int, st: seq<Guess>, ghost gr: seq<seq<seq<Charge>>>, ghost co: seq<Counters>)
      returns (next': int, st': seq<Guess>, ghost gr': seq<seq<seq<Charge>>>, ghost co': seq<Counters>)
      requires Scanning(g0, s0, fillingRows, line, index, x, stack, next, st, gr, co)
      requires Current(fillingRows, line).BlocksLeft(x) > 0 && next != n
      modifies this
      ensures next' == next + 1
      ensures Scanning(g0, s0, fillingRows, line, index, x, stack, next', st', gr', co')
      ensures gr'[0] == gr[0] && co'[0] == co[0]
      ensures Extends(st, gr, co, st', gr', co', x)
      ensures old(NonNegative(Counters(rows, cols))) ==> NonNegative(Counters(rows, cols))
    {
      var block := if fillingRows then Coord(line, next) else Coord(next, line);
      ghost var g, s := charge, Counters(rows, cols);
      var placed;
      placed, st', gr', co' := TryGuess(fillingRows, line, block, x, st, gr, co);
      next' := next + 1;
      FillAdvance(g0, s0, fillingRows, line, index, x, stack, g, s, next, st, placed, charge, Counters(rows, cols), next', st');
    }

    /** The inner loop of the search: walks along line `line` from position
        `index`, placing a domino with charge `x` on every block where one
        fits and pushing a guess for it, until the line needs no more `x` or
        its end is reached. */
    method FillSection(fillingRows: bool, line: int, index: int, x: Charge, stack: seq<Guess>,
                       ghost grids: seq<seq<seq<Charge>>>, ghost counters: seq<Counters>)
      returns (next: int, stack': seq<Guess>, ghost grids': seq<seq<seq<Charge>>>, ghost counters': seq<Counters>)
      requires Invariant() && x != None && 0 <= line < n && 0 <= index <= n
      requires ScanSatisfied(Counters(rows, cols), fillingRows, line, x)
      requires History(charge, Counters(rows, cols), stack, grids, counters)
      modifies this
      ensures Invariant() && index <= next <= n
      ensures ScanSatisfied(Counters(rows, cols), fillingRows, line, x)
      ensures History(charge, Counters(rows, cols), stack', grids', counters')
      ensures grids'[0] == grids[0] && counters'[0] == counters[0]
      ensures next == n || Current(fillingRows, line).BlocksLeft(x) <= 0
      ensures Extends(stack, grids, counters, stack', grids', counters', x)
      ensures old(NonNegative(Counters(rows, cols))) ==> NonNegative(Counters(rows, cols))
      ensures var f := Fill(old(charge), old(Counters(rows, cols)), fillingRows, line, index, x);
              next == f.next && stack' == stack + f.guesses && charge == f.grid && Counters(rows, cols) == f.counters
    {
      next, stack', grids', counters' := index, stack, grids, counters;
      ghost var g0, s0 := charge, Counters(rows, cols);
      while Current(fillingRows, line).BlocksLeft(x) > 0 && next != n
        invariant Scanning(g0, s0, fillingRows, line, index, x, stack, next, stack', grids', counters')
        invariant grids'[0] == grids[0] && counters'[0] == counters[0]
        invariant Extends(stack, grids, counters, stack', grids', counters', x)
        invariant old(NonNegative(Counters(rows, cols))) ==> NonNegative(Counters(rows, cols))
        decreases n - next
      {
        ghost var st, gr, co := stack', grids', counters';
        next, stack', grids', counters' := ScanBlock(g0, s0, fillingRows, line, index, x, stack, next, stack', grids', counters');
        ExtendsTrans(stack, grids, counters, st, gr, co, stack', grids', counters', x);
      }
      FillDone(g0, s0, fillingRows, line, index, x, stack, charge, Counters(rows, cols), next, stack');
    }

    /** Pops the latest guess and empties its domino, which gives back the
        state before that guess; `x` is the charge the guess had placed. */
    method PopGuess(stack: seq<Guess>, ghost grids: seq<seq<seq<Charge>>>, ghost counters: seq<Counters>)
      returns (lastGuess: Guess, x: Charge, stack': seq<Guess>, ghost grids': seq<seq<seq<Charge>>>, ghost counters': seq<Counters>)
      requires Invariant() && History(charge, Counters(rows, cols), stack, grids, counters) && |stack| > 0
      modifies this
      ensures Invariant() && History(charge, Counters(rows, cols), stack', grids', counters')
      ensures lastGuess == stack[|stack| - 1] && stack' == stack[..|stack| - 1]
      ensures grids' == grids[..|stack|] && counters' == counters[..|stack|]
      ensures charge == grids[|stack| - 1] && Counters(rows, cols) == counters[|stack| - 1]
      ensures grids'[0] == grids[0] && counters'[0] == counters[0]
      ensures x != None && InBounds(n, lastGuess.block) && lastGuess.block == Coord(lastGuess.rowIndex, lastGuess.colIndex)
      ensures x == old(At(charge, lastGuess.block)) == GuessCharge(stack, grids, counters, |stack| - 1)
      ensures ScanSatisfied(Counters(rows, cols), lastGuess.fillingRows, GuessLine(lastGuess), x)
      ensures old(NonNegative(Counters(rows, cols))) ==> NonNegative(Counters(rows, cols))
    {
      var k := |stack| - 1;
      PopHistory(charge, Counters(rows, cols), stack, grids, counters);
      lastGuess := stack[k];
      var b := lastGuess.block;
      x := At(charge, b);
      ClearDomino(grids[k], b, x, Opposite(x));
      UndoPlaced(counters[k], b, x);
      FullUnset(b);
      stack', grids', counters' := stack[..k], grids[..k + 1], counters[..k + 1];
    }

    /** Part way through `Backtrack` on the recorded search `stack`, `grids`,
        `counters`: the guesses after `st` are undone and the state is the one
        recorded before them. */
    ghost predicate Unwinding(stack: seq<Guess>, grids: seq<seq<seq<Charge>>>, counters: seq<Counters>,
                              st: seq<Guess>, nonNegative: bool)
      reads this
    {
      Invariant() && |grids| == |stack| + 1 && |counters| == |stack| + 1 &&
      History(grids[|stack|], counters[|stack|], stack, grids, counters) &&
      |st| <= |stack| && st == stack[..|st|] &&
      charge == grids[|st|] && Counters(rows, cols) == counters[|st|] &&
      History(charge, Counters(rows, cols), st, grids[..|st| + 1], counters[..|st| + 1]) &&
      (nonNegative ==> NonNegative(Counters(rows, cols)))
    }

    /** One pass of the backtracking loop: undoes the latest guess still on `st`. */
    method UndoGuess(ghost stack: seq<Guess>, ghost grids: seq<seq<seq<Charge>>>, ghost counters: seq<Counters>,
                     st: seq<Guess>, ghost nonNegative: bool)
      returns (lastGuess: Guess, x: Charge, st': seq<Guess>)
      requires Unwinding(stack, grids, counters, st, nonNegative) && |st| > 0
      modifies this
      ensures Unwinding(stack, grids, counters, st', nonNegative)
      ensures |st'| == |st| - 1 && lastGuess == stack[|st'|]
      ensures x == GuessCharge(stack, grids, counters, |st'|)
      ensures x != None && InBounds(n, lastGuess.block) && lastGuess.block == Coord(lastGuess.rowIndex, lastGuess.colIndex)
      ensures ScanSatisfied(Counters(rows, cols), lastGuess.fillingRows, GuessLine(lastGuess), x)
      ensures Resume(lastGuess) == n ==> Unwind(st', n) == Unwind(st, n)
      ensures Resume(lastGuess) != n ==> Unwind(st, n) == |st'|
    {
      var m := |st|;
      UnwindPop(st, n);
      ghost var gr, co;
      lastGuess, x, st', gr, co := PopGuess(st, grids[..m + 1], counters[..m + 1]);
      PrefixOfPrefix(stack, m, m - 1);
      PrefixOfPrefix(grids, m + 1, m);
      PrefixOfPrefix(counters, m + 1, m);
      assert StepAt(stack, grids, counters, m - 1);
    }

    /** Undoes guesses, most recent first, until one leaves a block to try
        after it; reports `false` when no guess is left. The search resumes
        where the undone guess was made, with the charge that guess had placed
        and one block further along its line. */
    method Backtrack(stack: seq<Guess>, ghost grids: seq<seq<seq<Charge>>>, ghost counters: seq<Counters>)
      returns (resumed: bool, x: Charge, fillingRows: bool, rowIndex: int, colIndex: int,
               stack': seq<Guess>, ghost grids': seq<seq<seq<Charge>>>, ghost counters': seq<Counters>)
      requires Invariant() && History(charge, Counters(rows, cols), stack, grids, counters)
      modifies this
      ensures Invariant() && History(charge, Counters(rows, cols), stack', grids', counters')
      ensures grids'[0] == grids[0] && counters'[0] == counters[0]
      ensures resumed <==> Unwind(stack, n) >= 0
      ensures stack' == if resumed then stack[..Unwind(stack, n)] else []
      ensures resumed ==> Cursor(fillingRows, rowIndex, colIndex) == ResumePoint(stack[Unwind(stack, n)])
      ensures resumed ==> x == GuessCharge(stack, grids, counters, Unwind(stack, n))
      ensures grids' == grids[..|stack'| + 1] && counters' == counters[..|stack'| + 1]
      ensures resumed ==> x != None && 0 <= rowIndex < n && 0 <= colIndex < n &&
                          ScanSatisfied(Counters(rows, cols), fillingRows, if fillingRows then rowIndex else colIndex, x)
      ensures old(NonNegative(Counters(rows, cols))) ==> NonNegative(Counters(rows, cols))
    {
      stack' := stack;
      resumed, x, fillingRows, rowIndex, colIndex := false, Pos, true, 0, 0;
      TruncateHistory(charge, Counters(rows, cols), stack, grids, counters, |stack|);
      while true
        invariant Unwinding(stack, grids, counters, stack', old(NonNegative(Counters(rows, cols))))
        invariant Unwind(stack', n) == Unwind(stack, n)
        decreases |stack'|
      {
        if |stack'| == 0 {
          grids', counters' := grids[..1], counters[..1];
          return;
        }
        var lastGuess;
        lastGuess, x, stack' := UndoGuess(stack, grids, counters, stack', old(NonNegative(Counters(rows, cols))));
        var at := ResumePoint(lastGuess);
        fillingRows, rowIndex, colIndex := at.fillingRows, at.rowIndex, at.colIndex;
        if Resume(lastGuess) != n {
          resumed := true;
          grids', counters' := grids[..|stack'| + 1], counters[..|stack'| + 1];
          return;
        }
      }
    }

    /** Moves the scan on once the current line needs no more of the current
        charge: from positive to negative poles on the same line, then to the
        next line with positive poles, from the last row to the first column,
        and after the last column the puzzle is solved. Reads only. */
    method Advance(fillingRows: bool, rowIndex: int, colIndex: int, x: Charge)
      returns (solved: bool, fillingRows': bool, rowIndex': int, colIndex': int, x': Charge)
      requires Valid() && x != None && 0 <= rowIndex <= n && 0 <= colIndex <= n
      requires ScanSatisfied(Counters(rows, cols), fillingRows, if fillingRows then rowIndex else colIndex, x)
      requires Current(fillingRows, if fillingRows then rowIndex else colIndex).BlocksLeft(x) <= 0
      ensures ScanState(solved, Cursor(fillingRows', rowIndex', colIndex'), x') == Advanced(fillingRows, rowIndex, colIndex, x, n)
      ensures solved ==> AllSatisfied(Counters(rows, cols))
      ensures !solved ==> x' != None && 0 <= rowIndex' <= n && 0 <= colIndex' <= n &&
                          ScanSatisfied(Counters(rows, cols), fillingRows', if fillingRows' then rowIndex' else colIndex', x')
    {
      solved, fillingRows', rowIndex', colIndex', x' := false, fillingRows, rowIndex, colIndex, x;
      if fillingRows' {
        colIndex' := 0;
      } else {
        rowIndex' := 0;
      }
      if x' == Pos {
        x' := Neg;
      } else {
        x' := Pos;
        if fillingRows' {
          rowIndex' := rowIndex' + 1;
        } else {
          colIndex' := colIndex' + 1;
        }
        if (if fillingRows' then rowIndex' else colIndex') == n {
          if fillingRows' {
            fillingRows' := false;
            rowIndex' := 0;
            colIndex' := 0;
            x' := Pos;
          } else {
            solved := true;
          }
        }
      }
    }

    /** A pass of the outer loop over a line that the scan satisfied: the
        board, counters and stack are those of the scan `f`, whose guesses
        placed `x` on top of the record `stack`, `grids`, `counters`; the scan
        moves on from where `f` stopped as `Advanced` says, and the search
        finishes only as solved. */
    ghost predicate Settled(f: Filling, fillingRows: bool, rowIndex: int, colIndex: int, x: Charge,
                            stack: seq<Guess>, grids: seq<seq<seq<Charge>>>, counters: seq<Counters>,
                            finished: bool, outcome: Outcome, fillingRows': bool, rowIndex': int, colIndex': int, x': Charge,
                            stack': seq<Guess>, grids': seq<seq<seq<Charge>>>, counters': seq<Counters>)
      reads this
    {
      Topology() &&
      charge == f.grid && Counters(rows, cols) == f.counters && stack' == stack + f.guesses &&
      Extends(stack, grids, counters, stack', grids', counters', x) &&
      ScanState(finished, Cursor(fillingRows', rowIndex', colIndex'), x') ==
        Advanced(fillingRows, if fillingRows then rowIndex else f.next, if fillingRows then f.next else colIndex, x, n) &&
      (finished ==> outcome == Solved)
    }

    /** A pass of the outer loop over a line the scan could not satisfy, with
        `stack1` the stack after the scan: the guesses are undone as `Unwind`
        says, down to guess `d`. With none left the search finishes as
        unsolvable in the record's first state; otherwise it resumes after
        guess `d` in the state before it, which is recorded in `grids`,
        `counters` when guess `d` was there before the scan, and is otherwise
        recorded by a continuation of them whose new guesses placed `x`. The
        search resumes with the charge guess `d` placed: the one the record
        holds for it, or `x` for a guess of the scan. */
    ghost predicate Unwound(stack: seq<Guess>, grids: seq<seq<seq<Charge>>>, counters: seq<Counters>, x: Charge,
                            stack1: seq<Guess>, finished: bool, outcome: Outcome,
                            fillingRows': bool, rowIndex': int, colIndex': int, x': Charge,
                            stack': seq<Guess>, grids': seq<seq<seq<Charge>>>, counters': seq<Counters>)
      reads this
    {
      Topology() && |grids| == |stack| + 1 && |counters| == |stack| + 1 &&
      var d := Unwind(stack1, n);
      (finished <==> d < 0) && (finished ==> outcome == Unsolvable) &&
      stack' == (if finished then [] else stack1[..d]) &&
      (!finished ==> Cursor(fillingRows', rowIndex', colIndex') == ResumePoint(stack1[d])) &&
      (finished ==> charge == grids[0] && Counters(rows, cols) == counters[0]) &&
      (!finished && d <= |stack| ==> charge == grids[d] && Counters(rows, cols) == counters[d]) &&
      (!finished && d >= |stack| ==> Extends(stack, grids, counters, stack', grids', counters', x) && x' == x) &&
      (!finished && d < |stack| ==> StepAt(stack, grids, counters, d) && x' == GuessCharge(stack, grids, counters, d))
    }

    /** Backtracking as `Backtrack` promises, over a continued record, ends as `Unwound` says. */
    lemma UnwoundAfter(stack: seq<Guess>, grids: seq<seq<seq<Charge>>>, counters: seq<Counters>, x: Charge,
                       stack1: seq<Guess>, grids1: seq<seq<seq<Charge>>>, counters1: seq<Counters>,
                       finished: bool, outcome: Outcome, fillingRows': bool, rowIndex': int, colIndex': int, x': Charge,
                       stack': seq<Guess>, grids': seq<seq<seq<Charge>>>, counters': seq<Counters>)
      requires Topology() && |grids| == |stack| + 1 && |counters| == |stack| + 1
      requires Extends(stack, grids, counters, stack1, grids1, counters1, x) && |grids1| == |stack1| + 1 && |counters1| == |stack1| + 1
      requires (finished <==> Unwind(stack1, n) < 0) && (finished ==> outcome == Unsolvable)
      requires stack' == (if finished then [] else stack1[..Unwind(stack1, n)])
      requires !finished ==> Cursor(fillingRows', rowIndex', colIndex') == ResumePoint(stack1[Unwind(stack1, n)])
      requires grids' == grids1[..|stack'| + 1] && counters' == counters1[..|stack'| + 1]
      requires charge == grids'[|stack'|] && Counters(rows, cols) == counters'[|stack'|]
      requires !finished ==> StepAt(stack1, grids1, counters1, Unwind(stack1, n)) &&
                             x' == GuessCharge(stack1, grids1, counters1, Unwind(stack1, n))
      ensures Unwound(stack, grids, counters, x, stack1, finished, outcome, fillingRows', rowIndex', colIndex', x', stack', grids', counters')
    {
      var d := |stack'|;
      assert charge == grids1[d] && Counters(rows, cols) == counters1[d];
      ExtendsTruncate(stack, grids, counters, stack1, grids1, counters1, x, d);
      if !finished && d < |stack| {
        ChargeFromRecord(stack, grids, counters, stack1, grids1, counters1, x, d);
      }
    }

    /** A guess the continued record keeps from the old one is the same step
        there, with the same charge. */
    lemma ChargeFromRecord(stack: seq<Guess>, grids: seq<seq<seq<Charge>>>, counters: seq<Counters>,
                           st: seq<Guess>, gr: seq<seq<seq<Charge>>>, co: seq<Counters>, x: Charge, d: int)
      requires Topology() && |grids| == |stack| + 1 && |counters| == |stack| + 1
      requires Extends(stack, grids, counters, st, gr, co, x) && 0 <= d < |stack| && StepAt(st, gr, co, d)
      ensures StepAt(stack, grids, counters, d) && GuessCharge(stack, grids, counters, d) == GuessCharge(st, gr, co, d)
    {
      assert st[d] == st[..|stack|][d];
      assert gr[d] == gr[..|grids|][d] && gr[d + 1] == gr[..|grids|][d + 1];
      assert co[d] == co[..|counters|][d] && co[d + 1] == co[..|counters|][d + 1];
    }

    /** The branch of the outer loop for a line that cannot be completed:
        backtracks over `stack1`, the record `stack`, `grids`, `counters`
        continued by the guesses of the line's scan with charge `x`. The
        search is finished, as unsolvable, exactly when no guess is left;
        otherwise it resumes after the last guess kept, in the state before
        the first guess undone, with the charge that guess had placed. */
    method Retreat(ghost stack: seq<Guess>, ghost grids: seq<seq<seq<Charge>>>, ghost counters: seq<Counters>, ghost x: Charge,
                   stack1: seq<Guess>, ghost grids1: seq<seq<seq<Charge>>>, ghost counters1: seq<Counters>)
      returns (finished: bool, outcome: Outcome, fillingRows': bool, rowIndex': int, colIndex': int, x': Charge,
               stack': seq<Guess>, ghost grids': seq<seq<seq<Charge>>>, ghost counters': seq<Counters>)
      requires Invariant() && History(charge, Counters(rows, cols), stack1, grids1, counters1)
      requires |grids| == |stack| + 1 && |counters| == |stack| + 1 && Extends(stack, grids, counters, stack1, grids1, counters1, x)
      modifies this
      ensures Invariant() && History(charge, Counters(rows, cols), stack', grids', counters')
      ensures grids'[0] == grids1[0] && counters'[0] == counters1[0]
      ensures old(NonNegative(Counters(rows, cols))) ==> NonNegative(Counters(rows, cols))
      ensures !finished ==> x' != None && 0 <= rowIndex' <= n && 0 <= colIndex' <= n &&
                            ScanSatisfied(Counters(rows, cols), fillingRows', if fillingRows' then rowIndex' else colIndex', x')
      ensures Unwound(stack, grids, counters, x, stack1, finished, outcome, fillingRows', rowIndex', colIndex', x', stack', grids', counters')
    {
      finished, outcome := false, OutOfFuel;
      ghost var d := Unwind(stack1, n);
      assert d >= 0 ==> StepAt(stack1, grids1, counters1, d);
      var resumed;
      resumed, x', fillingRows', rowIndex', colIndex', stack', grids', counters' := Backtrack(stack1, grids1, counters1);
      if !resumed {
        finished, outcome := true, Unsolvable;
      }
      UnwoundAfter(stack, grids, counters, x, stack1, grids1, counters1, finished, outcome,
                   fillingRows', rowIndex', colIndex', x', stack', grids', counters');
    }

    /** The rest of a pass of the outer loop once the scan `f` of the line has
        stopped at `next`, with `stack1`, `grids1`, `counters1` the record
        after it: moves the scan on when the line is satisfied, and
        backtracks otherwise. */
    method EndLine(ghost f: Filling, fillingRows: bool, rowIndex: int, colIndex: int, x: Charge, next: int,
                   ghost stack: seq<Guess>, ghost grids: seq<seq<seq<Charge>>>, ghost counters: seq<Counters>,
                   stack1: seq<Guess>, ghost grids1: seq<seq<seq<Charge>>>, ghost counters1: seq<Counters>)
      returns (finished: bool, outcome: Outcome, fillingRows': bool, rowIndex': int, colIndex': int, x': Charge,
               stack': seq<Guess>, ghost grids': seq<seq<seq<Charge>>>, ghost counters': seq<Counters>)
      requires Invariant() && x != None && 0 <= rowIndex <= n && 0 <= colIndex <= n && 0 <= next <= n
      requires ScanSatisfied(Counters(rows, cols), fillingRows, if fillingRows then rowIndex else colIndex, x)
      requires History(charge, Counters(rows, cols), stack1, grids1, counters1)
      requires |grids| == |stack| + 1 && |counters| == |stack| + 1 && Extends(stack, grids, counters, stack1, grids1, counters1, x)
      requires charge == f.grid && Counters(rows, cols) == f.counters && stack1 == stack + f.guesses && next == f.next
      requires next == n || Current(fillingRows, if fillingRows then rowIndex else colIndex).BlocksLeft(x) <= 0
      modifies this
      ensures Invariant() && History(charge, Counters(rows, cols), stack', grids', counters')
      ensures grids'[0] == grids1[0] && counters'[0] == counters1[0]
      ensures old(NonNegative(Counters(rows, cols))) ==> NonNegative(Counters(rows, cols))
      ensures finished ==> outcome != OutOfFuel
      ensures finished && outcome == Solved ==> AllSatisfied(Counters(rows, cols))
      ensures finished && outcome == Unsolvable ==> stack' == []
      ensures !finished ==> x' != None && 0 <= rowIndex' <= n && 0 <= colIndex' <= n &&
                            ScanSatisfied(Counters(rows, cols), fillingRows', if fillingRows' then rowIndex' else colIndex', x')
      ensures var line := if fillingRows then rowIndex else colIndex;
              if Along(f.counters, fillingRows, line).BlocksLeft(x) <= 0 then
                Settled(f, fillingRows, rowIndex, colIndex, x, stack, grids, counters,
                        finished, outcome, fillingRows', rowIndex', colIndex', x', stack', grids', counters')
              else
                Unwound(stack, grids, counters, x, stack + f.guesses, finished, outcome,
                        fillingRows', rowIndex', colIndex', x', stack', grids', counters')
    {
      var line := if fillingRows then rowIndex else colIndex;
      finished, outcome := false, OutOfFuel;
      stack', grids', counters' := stack1, grids1, counters1;
      if Current(fillingRows, line).BlocksLeft(x) <= 0 {
        var solved;
        solved, fillingRows', rowIndex', colIndex', x' :=
          Advance(fillingRows, if fillingRows then rowIndex else next, if fillingRows then next else colIndex, x);
        if solved {
          finished, outcome := true, Solved;
        }
      } else {
        finished, outcome, fillingRows', rowIndex', colIndex', x', stack', grids', counters' :=
          Retreat(stack, grids, counters, x, stack1, grids1, counters1);
      }
    }

    /** One pass of the search's outer loop: fills the current line with the
        current charge, then either moves the scan on or backtracks. Reports
        whether the search has finished, and how. */
    method Round(fillingRows: bool, rowIndex: int, colIndex: int, x: Charge, stack: seq<Guess>,
                 ghost grids: seq<seq<seq<Charge>>>, ghost counters: seq<Counters>)
      returns (finished: bool, outcome: Outcome, fillingRows': bool, rowIndex': int, colIndex': int, x': Charge,
               stack': seq<Guess>, ghost grids': seq<seq<seq<Charge>>>, ghost counters': seq<Counters>)
      requires Invariant() && x != None && 0 <= rowIndex <= n && 0 <= colIndex <= n
      requires ScanSatisfied(Counters(rows, cols), fillingRows, if fillingRows then rowIndex else colIndex, x)
      requires History(charge, Counters(rows, cols), stack, grids, counters)
      modifies this
      ensures Invariant() && History(charge, Counters(rows, cols), stack', grids', counters')
      ensures grids'[0] == grids[0] && counters'[0] == counters[0]
      ensures old(NonNegative(Counters(rows, cols))) ==> NonNegative(Counters(rows, cols))
      ensures finished ==> outcome != OutOfFuel
      ensures finished && outcome == Solved ==> AllSatisfied(Counters(rows, cols))
      ensures finished && outcome == Unsolvable ==> stack' == []
      ensures !finished ==> x' != None && 0 <= rowIndex' <= n && 0 <= colIndex' <= n &&
                            ScanSatisfied(Counters(rows, cols), fillingRows', if fillingRows' then rowIndex' else colIndex', x')
      // the line is scanned as Fill says; a satisfied line then moves on as Advanced says,
      // and otherwise the guesses are undone as Unwind says
      ensures var line := if fillingRows then rowIndex else colIndex;
              var f := Fill(old(charge), old(Counters(rows, cols)), fillingRows, line, if fillingRows then colIndex else rowIndex, x);
              if Along(f.counters, fillingRows, line).BlocksLeft(x) <= 0 then
                Settled(f, fillingRows, rowIndex, colIndex, x, stack, grids, counters,
                        finished, outcome, fillingRows', rowIndex', colIndex', x', stack', grids', counters')
              else
                Unwound(stack, grids, counters, x, stack + f.guesses, finished, outcome,
                        fillingRows', rowIndex', colIndex', x', stack', grids', counters')
    {
      var line := if fillingRows then rowIndex else colIndex;
      var index := if fillingRows then colIndex else rowIndex;
      index, stack', grids', counters' := FillSection(fillingRows, line, index, x, stack, grids, counters);
      ghost var f := Fill(old(charge), old(Counters(rows, cols)), fillingRows, line, if fillingRows then colIndex else rowIndex, x);
      finished, outcome, fillingRows', rowIndex', colIndex', x', stack', grids', counters' :=
        EndLine(f, fillingRows, rowIndex, colIndex, x, index, stack, grids, counters, stack', grids', counters');
    }

    /** The backtracking search: fills the rows one by one, first with
        positive then with negative poles, then the columns the same way,
        undoing the latest guess whenever a line can no longer be filled.
        `Magnets.solve` loops until it succeeds or runs out of guesses; here at
        most `fuel` lines are attempted. */
    method Solve(fuel: nat) returns (outcome: Outcome)
      requires Invariant() && n > 0
      modifies this
      ensures Invariant()
      ensures outcome == Solved ==> AllSatisfied(Counters(rows, cols))
      ensures outcome == Solved && old(NonNegative(Counters(rows, cols))) ==> IsSolution(charge)
      ensures outcome == Unsolvable ==> charge == old(charge) && rows == old(rows) && cols == old(cols)
    {
      var guessStack: seq<Guess> := [];
      ghost var grids, counters := [charge], [Counters(rows, cols)];
      var currentCharge := Pos;
      var currentRowIndex, currentColIndex := 0, 0;
      var fillingRows := true;
      var remaining := fuel;
      FilledZero(charge);
      while remaining > 0
        invariant Invariant() && currentCharge != None
        invariant 0 <= currentRowIndex <= n && 0 <= currentColIndex <= n
        invariant ScanSatisfied(Counters(rows, cols), fillingRows, if fillingRows then currentRowIndex else currentColIndex, currentCharge)
        invariant History(charge, Counters(rows, cols), guessStack, grids, counters)
        invariant grids[0] == old(charge) && counters[0] == old(Counters(rows, cols))
        invariant old(NonNegative(Counters(rows, cols))) ==> NonNegative(Counters(rows, cols))
        invariant old(AllEmpty(charge)) ==> Filled(charge) == 2 * |guessStack|
      {
        remaining := remaining - 1;
        var finished;
        finished, outcome, fillingRows, currentRowIndex, currentColIndex, currentCharge, guessStack, grids, counters :=
          Round(fillingRows, currentRowIndex, currentColIndex, currentCharge, guessStack, grids, counters);
        if old(AllEmpty(charge)) {
          FilledTwiceStack(charge, Counters(rows, cols), guessStack, grids, counters);
        }
        if finished {
          if outcome == Solved && old(NonNegative(Counters(rows, cols))) {
            SolvedIsSolution(charge, Counters(rows, cols));
          }
          return;
        }
      }
      return OutOfFuel;
    }
  }
}
