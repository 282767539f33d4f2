/** The domino layout of the grid: the row-major scan of the `Magnets`
    constructor in `Magnets.java` that pairs blocks, and the neighbour lists it builds. */
module Layout {

  /** The position of a block: puzzle row `row`, puzzle column `col`.
      Block (i, j) is the j-th block of row section i and the i-th block of
      column section j, so one coordinate names the block both sections share. */
  datatype Coord = Coord(row: int, col: int)

  /** The partner of a block the scan has not reached yet (a null `Block.other` in `Magnets.java`). */
  const NoBlock: Coord := Coord(-1, -1)

  predicate InBounds(n: nat, c: Coord)
  {
    0 <= c.row < n && 0 <= c.col < n
  }

  /** `a` and `b` are grid neighbours: directly above, below, left or right. */
  predicate Orthogonal(a: Coord, b: Coord)
  {
    (a.row == b.row && (a.col == b.col + 1 || b.col == a.col + 1)) ||
    (a.col == b.col && (a.row == b.row + 1 || b.row == a.row + 1))
  }

  /** The layout has n rows of n characters. */
  predicate Square(grid: seq<seq<char>>, n: nat)
  {
    |grid| == n && forall i :: 0 <= i < n ==> |grid[i]| == n
  }

  /** A nested sequence of n rows of n entries. */
  predicate Shaped<T>(g: seq<seq<T>>, n: nat)
  {
    |g| == n && forall i :: 0 <= i < n ==> |g[i]| == n
  }

  /** `g` with the entry of block `c` replaced by `x`. */
  function Put<T>(g: seq<seq<T>>, c: Coord, x: T): (r: seq<seq<T>>)
    requires 0 <= c.row < |g| && 0 <= c.col < |g[c.row]|
    ensures |r| == |g|
    ensures forall i :: 0 <= i < |g| ==> |r[i]| == |g[i]|
    ensures forall i, j :: 0 <= i < |g| && 0 <= j < |g[i]| ==>
              r[i][j] == if Coord(i, j) == c then x else g[i][j]
  {
    g[c.row := g[c.row][c.col := x]]
  }

  /** The entry of `g` for block `c`. */
  function At<T>(g: seq<seq<T>>, c: Coord): T
    requires 0 <= c.row < |g| && 0 <= c.col < |g[c.row]|
  {
    g[c.row][c.col]
  }

  /** The two flags of the scan: the block to the right is already paired,
      and, per column, the block below is already paired. */
  datatype Flags = Flags(skipNext: bool, skipArray: seq<bool>)

  /** One step of the scan, at block (i, j): a block not yet paired starts a
      domino, horizontal when it is marked '#', vertical otherwise; a block
      already paired clears the flags that pointed at it. */
  function Visit(grid: seq<seq<char>>, n: nat, f: Flags, i: nat, j: nat): (g: Flags)
    requires Square(grid, n) && i < n && j < n && |f.skipArray| == n
    ensures |g.skipArray| == n
  {
    if !f.skipNext && !f.skipArray[j] then
      if grid[i][j] == '#' then Flags(true, f.skipArray[j := false])
      else Flags(false, f.skipArray[j := true])
    else Flags(false, f.skipArray[j := false])
  }

  /** The flags just before the scan visits block (i, j); `Before(i, n)` is the
      state at the end of row i, which is also the state at the start of row
      i + 1 (the `Magnets` constructor does not reset `skipNext` between rows). */
  function Before(grid: seq<seq<char>>, n: nat, i: nat, j: nat): (f: Flags)
    requires Square(grid, n) && i < n && j <= n
    ensures |f.skipArray| == n
    decreases i, j
  {
    if j == 0 then
      if i == 0 then Flags(false, seq(n, _ => false)) else Before(grid, n, i - 1, n)
    else Visit(grid, n, Before(grid, n, i, j - 1), i, j - 1)
  }

  /** What one step of the scan does to the flags: the block to the right is
      claimed exactly when (i, j) starts a horizontal domino, the block below
      exactly when it starts a vertical one, and the other columns keep theirs. */
  lemma VisitFlags(grid: seq<seq<char>>, n: nat, f: Flags, i: nat, j: nat)
    requires Square(grid, n) && i < n && j < n && |f.skipArray| == n
    ensures var g := Visit(grid, n, f, i, j);
            (g.skipNext <==> !f.skipNext && !f.skipArray[j] && grid[i][j] == '#') &&
            (g.skipArray[j] <==> !f.skipNext && !f.skipArray[j] && grid[i][j] != '#') &&
            g.skipArray == f.skipArray[j := g.skipArray[j]]
  {
  }

  /** The scan starts with every flag down; right after block (i, j - 1) a
      raised flag names the kind of domino that block started, and the two
      flags for the next blocks are never both up. */
  lemma BeforeFlags(grid: seq<seq<char>>, n: nat, i: nat, j: nat)
    requires Square(grid, n) && i < n && j <= n
    ensures var f := Before(grid, n, i, j);
            (i == 0 && j == 0 ==> !f.skipNext && forall k :: 0 <= k < n ==> !f.skipArray[k]) &&
            (j > 0 ==> (f.skipNext ==> grid[i][j - 1] == '#') && (f.skipArray[j - 1] ==> grid[i][j - 1] != '#') &&
                       !(f.skipNext && f.skipArray[j - 1]))
  {
    if j > 0 {
      VisitFlags(grid, n, Before(grid, n, i, j - 1), i, j - 1);
    }
  }

  /** Block c starts a domino: no earlier block claimed it. */
  predicate IsHead(grid: seq<seq<char>>, n: nat, c: Coord)
    requires Square(grid, n) && InBounds(n, c)
  {
    !Before(grid, n, c.row, c.col).skipNext && !Before(grid, n, c.row, c.col).skipArray[c.col]
  }

  /** The scan handles block c without leaving the grid: a horizontal domino
      does not start in the last column, a vertical one not in the last row,
      and no block is claimed both from the left and from above. */
  predicate Claimable(grid: seq<seq<char>>, n: nat, c: Coord)
    requires Square(grid, n) && InBounds(n, c)
  {
    (IsHead(grid, n, c) ==> if grid[c.row][c.col] == '#' then c.col + 1 < n else c.row + 1 < n) &&
    !(Before(grid, n, c.row, c.col).skipNext && Before(grid, n, c.row, c.col).skipArray[c.col])
  }

  /** A layout the `Magnets` constructor pairs into dominoes without an index failure and
      without giving any block two partners. */
  predicate WellFormed(grid: seq<seq<char>>, n: nat)
  {
    Square(grid, n) && forall i, j | 0 <= i < n && 0 <= j < n :: Claimable(grid, n, Coord(i, j))
  }

  /** The partner the scan gives block c: the block right of or below a head,
      and for a claimed block the head that claimed it. */
  function Mate(grid: seq<seq<char>>, n: nat, c: Coord): Coord
    requires Square(grid, n) && InBounds(n, c)
  {
    if IsHead(grid, n, c) then
      if grid[c.row][c.col] == '#' then Coord(c.row, c.col + 1) else Coord(c.row + 1, c.col)
    else if Before(grid, n, c.row, c.col).skipNext then Coord(c.row, c.col - 1)
    else Coord(c.row - 1, c.col)
  }

  /** The head of the domino block c belongs to. */
  function HeadOf(grid: seq<seq<char>>, n: nat, c: Coord): Coord
    requires Square(grid, n) && InBounds(n, c)
  {
    if IsHead(grid, n, c) then c else Mate(grid, n, c)
  }

  /** Steps at other columns leave the below-flag of column `col` alone. */
  lemma {:induction false} KeepInRow(grid: seq<seq<char>>, n: nat, i: nat, j1: nat, j2: nat, col: nat)
    requires Square(grid, n) && i < n && j1 <= j2 <= n && col < n && (col < j1 || j2 <= col)
    ensures Before(grid, n, i, j2).skipArray[col] == Before(grid, n, i, j1).skipArray[col]
    decreases j2
  {
    if j2 > j1 {
      KeepInRow(grid, n, i, j1, j2 - 1, col);
    }
  }

  /** The below-flag of column `col` set at (i, col) is still set when the scan reaches (i + 1, col). */
  lemma KeepAcrossRow(grid: seq<seq<char>>, n: nat, i: nat, col: nat)
    requires Square(grid, n) && i + 1 < n && col < n
    ensures Before(grid, n, i + 1, col).skipArray[col] == Before(grid, n, i, col + 1).skipArray[col]
  {
    KeepInRow(grid, n, i + 1, 0, col, col);
    KeepInRow(grid, n, i, col + 1, n, col);
  }

  /** No horizontal domino is left open at the end of a row. */
  lemma EndOfRowClear(grid: seq<seq<char>>, n: nat, i: int)
    requires WellFormed(grid, n) && 0 <= i < n
    ensures !Before(grid, n, i, n).skipNext
  {
    assert Claimable(grid, n, Coord(i, n - 1));
  }

  /** A block skipped because of `skipNext` was claimed by a horizontal head on its left. */
  lemma ClaimedFromLeft(grid: seq<seq<char>>, n: nat, c: Coord)
    requires WellFormed(grid, n) && InBounds(n, c) && Before(grid, n, c.row, c.col).skipNext
    ensures c.col > 0 && IsHead(grid, n, Coord(c.row, c.col - 1)) && grid[c.row][c.col - 1] == '#'
  {
    if c.col == 0 {
      EndOfRowClear(grid, n, c.row - 1);
      assert false;
    }
  }

  /** A block skipped because of its column's flag was claimed by a vertical head above it. */
  lemma ClaimedFromAbove(grid: seq<seq<char>>, n: nat, c: Coord)
    requires Square(grid, n) && InBounds(n, c) && Before(grid, n, c.row, c.col).skipArray[c.col]
    ensures c.row > 0 && IsHead(grid, n, Coord(c.row - 1, c.col)) && grid[c.row - 1][c.col] != '#'
  {
    if c.row == 0 {
      KeepInRow(grid, n, 0, 0, c.col, c.col);
    } else {
      KeepAcrossRow(grid, n, c.row - 1, c.col);
    }
  }

  /** On a well-formed layout the pairing is a perfect matching of grid
      neighbours: every block has one partner, in bounds, next to it, not
      itself; the partner's partner is the block; exactly one of the two
      starts the domino. */
  lemma MateIsPartner(grid: seq<seq<char>>, n: nat, c: Coord)
    requires WellFormed(grid, n) && InBounds(n, c)
    ensures InBounds(n, Mate(grid, n, c))
    ensures Orthogonal(Mate(grid, n, c), c) && Mate(grid, n, c) != c
    ensures Mate(grid, n, Mate(grid, n, c)) == c
    ensures IsHead(grid, n, c) != IsHead(grid, n, Mate(grid, n, c))
  {
    assert Claimable(grid, n, c);
    var m := Mate(grid, n, c);
    if IsHead(grid, n, c) {
      if grid[c.row][c.col] == '#' {
        assert Before(grid, n, c.row, c.col + 1).skipNext;
      } else {
        KeepAcrossRow(grid, n, c.row, c.col);
        assert Claimable(grid, n, m);
      }
    } else if Before(grid, n, c.row, c.col).skipNext {
      ClaimedFromLeft(grid, n, c);
    } else {
      ClaimedFromAbove(grid, n, c);
    }
  }

  /** Every block belongs to the domino of exactly one head, and that head
      is the block itself or its partner. */
  lemma HeadOfFacts(grid: seq<seq<char>>, n: nat, c: Coord)
    requires WellFormed(grid, n) && InBounds(n, c)
    ensures InBounds(n, HeadOf(grid, n, c)) && IsHead(grid, n, HeadOf(grid, n, c))
    ensures c == HeadOf(grid, n, c) || c == Mate(grid, n, HeadOf(grid, n, c))
    ensures IsHead(grid, n, c) ==> HeadOf(grid, n, Mate(grid, n, c)) == c
  {
    MateIsPartner(grid, n, c);
  }

  /** Which neighbour `addAdjacents` leaves out of a block's list: the one its
      partner sits in, given whether the block is the second of its domino
      (`other`) and whether the domino is vertical. */
  function PartnerDirection(row: int, col: int, other: bool, vertical: bool): Coord
  {
    if vertical then (if other then Coord(row - 1, col) else Coord(row + 1, col))
    else (if other then Coord(row, col - 1) else Coord(row, col + 1))
  }

  /** `adjacents` lists exactly the in-bounds grid neighbours of `c` except `partner`, each once. */
  ghost predicate Adjacency(n: nat, adjacents: seq<Coord>, c: Coord, partner: Coord)
  {
    (forall a :: a in adjacents <==> InBounds(n, a) && Orthogonal(a, c) && a != partner) &&
    (forall k, l :: 0 <= k < l < |adjacents| ==> adjacents[k] != adjacents[l])
  }

  /** The neighbour list of block (row, col): up, left, down, right, each
      when inside the grid and not pointing at the partner. */
  method AddAdjacents(n: nat, row: int, col: int, other: bool, vertical: bool) returns (adjacents: seq<Coord>)
    requires InBounds(n, Coord(row, col))
    ensures Adjacency(n, adjacents, Coord(row, col), PartnerDirection(row, col, other, vertical))
    ensures |adjacents| <= 3
  {
    adjacents := [];
    if row != 0 && (!other || !vertical) {
      adjacents := adjacents + [Coord(row - 1, col)];
    }
    if col != 0 && (!other || vertical) {
      adjacents := adjacents + [Coord(row, col - 1)];
    }
    if row != n - 1 && (other || !vertical) {
      adjacents := adjacents + [Coord(row + 1, col)];
    }
    if col != n - 1 && (other || vertical) {
      adjacents := adjacents + [Coord(row, col + 1)];
    }
  }

  /** Block `h` comes before position (i, j) in the row-major scan. */
  predicate Earlier(h: Coord, i: int, j: int)
  {
    h.row < i || (h.row == i && h.col < j)
  }

  /** The partner of every block, as a table. */
  ghost function Mates(grid: seq<seq<char>>, n: nat): (t: seq<seq<Coord>>)
    requires Square(grid, n)
    ensures Shaped(t, n)
  {
    seq(n, a requires 0 <= a < n => seq(n, b requires 0 <= b < n => Mate(grid, n, Coord(a, b))))
  }

  /** The head of every block's domino, as a table. */
  ghost function Heads(grid: seq<seq<char>>, n: nat): (t: seq<seq<Coord>>)
    requires Square(grid, n)
    ensures Shaped(t, n)
  {
    seq(n, a requires 0 <= a < n => seq(n, b requires 0 <= b < n => HeadOf(grid, n, Coord(a, b))))
  }

  /** The entries of the two tables for block (a, b), with the facts about them. */
  lemma TablesAt(grid: seq<seq<char>>, n: nat, a: int, b: int)
    requires WellFormed(grid, n) && InBounds(n, Coord(a, b))
    ensures Mates(grid, n)[a][b] == Mate(grid, n, Coord(a, b))
    ensures Heads(grid, n)[a][b] == HeadOf(grid, n, Coord(a, b))
    ensures InBounds(n, HeadOf(grid, n, Coord(a, b))) && IsHead(grid, n, HeadOf(grid, n, Coord(a, b)))
    ensures Coord(a, b) == HeadOf(grid, n, Coord(a, b)) || Coord(a, b) == Mate(grid, n, HeadOf(grid, n, Coord(a, b)))
  {
    HeadOfFacts(grid, n, Coord(a, b));
  }

  /** What the scan has built once it reaches (i, j): the blocks of every
      domino whose head comes earlier know their partner and their
      neighbours; every other block still has no partner. */
  ghost predicate PairedUpTo(n: nat, mates: seq<seq<Coord>>, heads: seq<seq<Coord>>,
                             other: seq<seq<Coord>>, adjacents: seq<seq<seq<Coord>>>, i: int, j: int)
  {
    Shaped(mates, n) && Shaped(heads, n) && Shaped(other, n) && Shaped(adjacents, n) &&
    (forall a, b :: 0 <= a < n && 0 <= b < n ==>
       other[a][b] == if Earlier(heads[a][b], i, j) then mates[a][b] else NoBlock) &&
    (forall a, b :: 0 <= a < n && 0 <= b < n && Earlier(heads[a][b], i, j) ==>
       Adjacency(n, adjacents[a][b], Coord(a, b), mates[a][b]))
  }

  /** Pairing the head at (i, j) with its partner `o` extends the scan by one block. */
  lemma PairHead(grid: seq<seq<char>>, n: nat, other: seq<seq<Coord>>, adjacents: seq<seq<seq<Coord>>>,
                 i: int, j: int, o: Coord, adjB: seq<Coord>, adjO: seq<Coord>)
    requires WellFormed(grid, n) && InBounds(n, Coord(i, j)) && IsHead(grid, n, Coord(i, j))
    requires o == Mate(grid, n, Coord(i, j))
    requires PairedUpTo(n, Mates(grid, n), Heads(grid, n), other, adjacents, i, j)
    requires Adjacency(n, adjB, Coord(i, j), o)
    requires InBounds(n, o) ==> Adjacency(n, adjO, o, Coord(i, j))
    ensures InBounds(n, o)
    ensures PairedUpTo(n, Mates(grid, n), Heads(grid, n),
                       Put(Put(other, Coord(i, j), o), o, Coord(i, j)),
                       Put(Put(adjacents, Coord(i, j), adjB), o, adjO), i, j + 1)
  {
    var b := Coord(i, j);
    MateIsPartner(grid, n, b);
    var mates, heads := Mates(grid, n), Heads(grid, n);
    var other', adjacents' := Put(Put(other, b, o), o, b), Put(Put(adjacents, b, adjB), o, adjO);
    assert Shaped(other', n) && Shaped(adjacents', n);
    forall a, c | 0 <= a < n && 0 <= c < n
      ensures other'[a][c] == if Earlier(heads[a][c], i, j + 1) then mates[a][c] else NoBlock
      ensures Earlier(heads[a][c], i, j + 1) ==> Adjacency(n, adjacents'[a][c], Coord(a, c), mates[a][c])
    {
      PairHeadAt(grid, n, mates, heads, other, adjacents, i, j, o, adjB, adjO, a, c);
    }
  }

  /** `PairHead` at one block (a, c): only the new head and its partner change. */
  lemma PairHeadAt(grid: seq<seq<char>>, n: nat, mates: seq<seq<Coord>>, heads: seq<seq<Coord>>,
                   other: seq<seq<Coord>>, adjacents: seq<seq<seq<Coord>>>,
                   i: int, j: int, o: Coord, adjB: seq<Coord>, adjO: seq<Coord>, a: int, c: int)
    requires WellFormed(grid, n) && InBounds(n, Coord(i, j)) && IsHead(grid, n, Coord(i, j))
    requires mates == Mates(grid, n) && heads == Heads(grid, n)
    requires o == Mate(grid, n, Coord(i, j)) && InBounds(n, o)
    requires Shaped(other, n) && Shaped(adjacents, n) && 0 <= a < n && 0 <= c < n
    requires Adjacency(n, adjB, Coord(i, j), o) && Adjacency(n, adjO, o, Coord(i, j))
    requires other[a][c] == if Earlier(heads[a][c], i, j) then mates[a][c] else NoBlock
    requires Earlier(heads[a][c], i, j) ==> Adjacency(n, adjacents[a][c], Coord(a, c), mates[a][c])
    ensures Put(Put(other, Coord(i, j), o), o, Coord(i, j))[a][c] ==
            if Earlier(heads[a][c], i, j + 1) then mates[a][c] else NoBlock
    ensures Earlier(heads[a][c], i, j + 1) ==>
            Adjacency(n, Put(Put(adjacents, Coord(i, j), adjB), o, adjO)[a][c], Coord(a, c), mates[a][c])
  {
    TablesAt(grid, n, a, c);
    var b := Coord(i, j);
    MateIsPartner(grid, n, b);
    HeadOfFacts(grid, n, b);
    HeadOfFacts(grid, n, Coord(a, c));
    if Coord(a, c) == b {
      assert Put(Put(adjacents, b, adjB), o, adjO)[a][c] == adjB;
    } else if Coord(a, c) == o {
      assert Put(Put(adjacents, b, adjB), o, adjO)[a][c] == adjO;
    } else {
      assert HeadOf(grid, n, Coord(a, c)) != b;
      assert Put(Put(adjacents, b, adjB), o, adjO)[a][c] == adjacents[a][c];
    }
  }

  /** Passing over a block that an earlier head already claimed changes nothing built. */
  lemma PassClaimed(grid: seq<seq<char>>, n: nat, other: seq<seq<Coord>>, adjacents: seq<seq<seq<Coord>>>, i: int, j: int)
    requires WellFormed(grid, n) && InBounds(n, Coord(i, j)) && !IsHead(grid, n, Coord(i, j))
    requires PairedUpTo(n, Mates(grid, n), Heads(grid, n), other, adjacents, i, j)
    ensures PairedUpTo(n, Mates(grid, n), Heads(grid, n), other, adjacents, i, j + 1)
  {
    var heads := Heads(grid, n);
    forall a, c | 0 <= a < n && 0 <= c < n
      ensures Earlier(heads[a][c], i, j + 1) == Earlier(heads[a][c], i, j)
    {
      TablesAt(grid, n, a, c);
    }
  }

  /** The end of a row is the start of the next. */
  lemma NextRow(grid: seq<seq<char>>, n: nat, other: seq<seq<Coord>>, adjacents: seq<seq<seq<Coord>>>, i: int)
    requires WellFormed(grid, n) && 0 <= i < n
    requires PairedUpTo(n, Mates(grid, n), Heads(grid, n), other, adjacents, i, n)
    ensures PairedUpTo(n, Mates(grid, n), Heads(grid, n), other, adjacents, i + 1, 0)
  {
    var heads := Heads(grid, n);
    forall a, c | 0 <= a < n && 0 <= c < n
      ensures Earlier(heads[a][c], i + 1, 0) == Earlier(heads[a][c], i, n)
    {
      TablesAt(grid, n, a, c);
    }
  }

  /** Before the scan starts nothing is paired. */
  lemma NothingPaired(grid: seq<seq<char>>, n: nat)
    requires WellFormed(grid, n)
    ensures PairedUpTo(n, Mates(grid, n), Heads(grid, n), seq(n, _ => seq(n, _ => NoBlock)), seq(n, _ => seq(n, _ => [])), 0, 0)
  {
    var heads := Heads(grid, n);
    forall a, c | 0 <= a < n && 0 <= c < n
      ensures !Earlier(heads[a][c], 0, 0)
    {
      TablesAt(grid, n, a, c);
    }
  }

  /** Once the scan has passed the last row, every block is paired. */
  lemma AllPaired(grid: seq<seq<char>>, n: nat, other: seq<seq<Coord>>, adjacents: seq<seq<seq<Coord>>>)
    requires WellFormed(grid, n)
    requires PairedUpTo(n, Mates(grid, n), Heads(grid, n), other, adjacents, n, 0)
    ensures forall i, j :: 0 <= i < n && 0 <= j < n ==> other[i][j] == Mate(grid, n, Coord(i, j))
    ensures forall i, j :: 0 <= i < n && 0 <= j < n ==> Adjacency(n, adjacents[i][j], Coord(i, j), other[i][j])
  {
    var heads := Heads(grid, n);
    forall a, c | 0 <= a < n && 0 <= c < n
      ensures Earlier(heads[a][c], n, 0)
    {
      TablesAt(grid, n, a, c);
    }
  }

  /** The scan meets the head (i, j) of a new domino: pairs it with the block
      right of it (when marked '#') or below it, builds both neighbour lists
      and sets the flag that makes the scan skip the partner. */
  method StartDomino(grid: seq<seq<char>>, n: nat, i: int, j: int, skipArray: array<bool>,
                     other: seq<seq<Coord>>, adjacents: seq<seq<seq<Coord>>>)
    returns (skipNext': bool, other': seq<seq<Coord>>, adjacents': seq<seq<seq<Coord>>>)
    requires WellFormed(grid, n) && InBounds(n, Coord(i, j)) && skipArray.Length == n
    requires IsHead(grid, n, Coord(i, j)) && skipArray[..] == Before(grid, n, i, j).skipArray
    requires PairedUpTo(n, Mates(grid, n), Heads(grid, n), other, adjacents, i, j)
    modifies skipArray
    ensures skipNext' == Before(grid, n, i, j + 1).skipNext && skipArray[..] == Before(grid, n, i, j + 1).skipArray
    ensures PairedUpTo(n, Mates(grid, n), Heads(grid, n), other', adjacents', i, j + 1)
  {
    ghost var flags := Before(grid, n, i, j);
    assert Before(grid, n, i, j + 1) == Visit(grid, n, flags, i, j);
    var b := Coord(i, j);
    MateIsPartner(grid, n, b);
    var o: Coord;
    var adjB, adjO;
    if grid[i][j] == '#' {
      adjB := AddAdjacents(n, i, j, false, false);
      o := Coord(i, j + 1);
      adjO := AddAdjacents(n, i, j + 1, true, false);
      skipNext' := true;
      skipArray[j] := false;
      assert skipArray[..] == flags.skipArray[j := false];
    } else {
      adjB := AddAdjacents(n, i, j, false, true);
      o := Coord(i + 1, j);
      adjO := AddAdjacents(n, i + 1, j, true, true);
      skipArray[j] := true;
      skipNext' := false;
      assert skipArray[..] == flags.skipArray[j := true];
    }
    PairHead(grid, n, other, adjacents, i, j, o, adjB, adjO);
    adjacents' := Put(Put(adjacents, b, adjB), o, adjO);
    other' := Put(Put(other, b, o), o, b);
  }

  /** One step of the scan at block (i, j), the body of the
      constructor's inner loop: a head starts a domino; a block an earlier head claimed only
      clears the flags. */
  method VisitBlock(grid: seq<seq<char>>, n: nat, i: int, j: int, skipArray: array<bool>, skipNext: bool,
                    other: seq<seq<Coord>>, adjacents: seq<seq<seq<Coord>>>)
    returns (skipNext': bool, other': seq<seq<Coord>>, adjacents': seq<seq<seq<Coord>>>)
    requires WellFormed(grid, n) && InBounds(n, Coord(i, j)) && skipArray.Length == n
    requires skipNext == Before(grid, n, i, j).skipNext && skipArray[..] == Before(grid, n, i, j).skipArray
    requires PairedUpTo(n, Mates(grid, n), Heads(grid, n), other, adjacents, i, j)
    modifies skipArray
    ensures skipNext' == Before(grid, n, i, j + 1).skipNext && skipArray[..] == Before(grid, n, i, j + 1).skipArray
    ensures PairedUpTo(n, Mates(grid, n), Heads(grid, n), other', adjacents', i, j + 1)
  {
    if !skipNext && !skipArray[j] {
      assert IsHead(grid, n, Coord(i, j));
      skipNext', other', adjacents' := StartDomino(grid, n, i, j, skipArray, other, adjacents);
    } else {
      ghost var flags := Before(grid, n, i, j);
      assert Before(grid, n, i, j + 1) == Visit(grid, n, flags, i, j);
      PassClaimed(grid, n, other, adjacents, i, j);
      skipArray[j] := false;
      skipNext' := false;
      assert skipArray[..] == flags.skipArray[j := false];
      other', adjacents' := other, adjacents;
    }
  }

  /** The scan of row i, the constructor's inner loop: visits its blocks left to right. */
  method PairRow(grid: seq<seq<char>>, n: nat, i: int, skipArray: array<bool>, skipNext: bool,
                 other: seq<seq<Coord>>, adjacents: seq<seq<seq<Coord>>>)
    returns (skipNext': bool, other': seq<seq<Coord>>, adjacents': seq<seq<seq<Coord>>>)
    requires WellFormed(grid, n) && 0 <= i < n && skipArray.Length == n
    requires skipNext == Before(grid, n, i, 0).skipNext && skipArray[..] == Before(grid, n, i, 0).skipArray
    requires PairedUpTo(n, Mates(grid, n), Heads(grid, n), other, adjacents, i, 0)
    modifies skipArray
    ensures skipNext' == Before(grid, n, i, n).skipNext && skipArray[..] == Before(grid, n, i, n).skipArray
    ensures PairedUpTo(n, Mates(grid, n), Heads(grid, n), other', adjacents', i, n)
  {
    skipNext', other', adjacents' := skipNext, other, adjacents;
    var j := 0;
    while j < n
      invariant 0 <= j <= n
      invariant skipNext' == Before(grid, n, i, j).skipNext && skipArray[..] == Before(grid, n, i, j).skipArray
      invariant PairedUpTo(n, Mates(grid, n), Heads(grid, n), other', adjacents', i, j)
    {
      skipNext', other', adjacents' := VisitBlock(grid, n, i, j, skipArray, skipNext', other', adjacents');
      j := j + 1;
    }
  }

  /** A pairing of the n×n blocks into dominoes: every block's partner is a
      grid neighbour whose partner is the block, and every neighbour list holds
      exactly the block's other grid neighbours. */
  ghost predicate Pairing(n: nat, partner: seq<seq<Coord>>, adjacents: seq<seq<seq<Coord>>>)
  {
    Shaped(partner, n) && Shaped(adjacents, n) &&
    forall c {:trigger PairedAt(n, partner, adjacents, c)} :: InBounds(n, c) ==> PairedAt(n, partner, adjacents, c)
  }

  /** Block c's partner is a grid neighbour whose partner is c, and c's
      neighbour list holds exactly its other grid neighbours. */
  ghost predicate PairedAt(n: nat, partner: seq<seq<Coord>>, adjacents: seq<seq<seq<Coord>>>, c: Coord)
  {
    Shaped(partner, n) && Shaped(adjacents, n) && InBounds(n, c) &&
    InBounds(n, At(partner, c)) && Orthogonal(At(partner, c), c) &&
    At(partner, At(partner, c)) == c &&
    Adjacency(n, At(adjacents, c), c, At(partner, c))
  }

  /** The partners the scan gives a well-formed layout form a pairing. */
  lemma MatesArePairing(grid: seq<seq<char>>, n: nat, partner: seq<seq<Coord>>, adjacents: seq<seq<seq<Coord>>>)
    requires WellFormed(grid, n) && Shaped(partner, n) && Shaped(adjacents, n)
    requires forall i, j :: 0 <= i < n && 0 <= j < n ==> partner[i][j] == Mate(grid, n, Coord(i, j))
    requires forall i, j :: 0 <= i < n && 0 <= j < n ==> Adjacency(n, adjacents[i][j], Coord(i, j), partner[i][j])
    ensures Pairing(n, partner, adjacents)
  {
    forall c | InBounds(n, c)
      ensures PairedAt(n, partner, adjacents, c)
    {
      MateIsPartner(grid, n, c);
      assert partner[c.row][c.col] == Mate(grid, n, c);
    }
  }

  /** The pairing part of the `Magnets` constructor: a row-major scan over the
      layout driven by `skipNext` and `skipArray`, giving every block its
      partner and its list of neighbours in other dominoes. */
  method PairBlocks(grid: seq<seq<char>>, n: nat) returns (other: seq<seq<Coord>>, adjacents: seq<seq<seq<Coord>>>)
    requires WellFormed(grid, n)
    ensures Shaped(other, n) && Shaped(adjacents, n)
    ensures forall i, j :: 0 <= i < n && 0 <= j < n ==> other[i][j] == Mate(grid, n, Coord(i, j))
    ensures forall i, j :: 0 <= i < n && 0 <= j < n ==> Adjacency(n, adjacents[i][j], Coord(i, j), other[i][j])
  {
    ghost var mates, heads := Mates(grid, n), Heads(grid, n);
    var skipNext := false;
    var skipArray := new bool[n](_ => false);
    other := seq(n, _ => seq(n, _ => NoBlock));
    adjacents := seq(n, _ => seq(n, _ => []));
    NothingPaired(grid, n);
    var i := 0;
    while i < n
      invariant 0 <= i <= n
      invariant skipArray.Length == n
      invariant i < n ==> skipNext == Before(grid, n, i, 0).skipNext && skipArray[..] == Before(grid, n, i, 0).skipArray
      invariant PairedUpTo(n, mates, heads, other, adjacents, i, 0)
    {
      skipNext, other, adjacents := PairRow(grid, n, i, skipArray, skipNext, other, adjacents);
      NextRow(grid, n, other, adjacents, i);
      i := i + 1;
    }
    AllPaired(grid, n, other, adjacents);
  }
}
