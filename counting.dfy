/** Counting charges along a line of the grid. */
module Counting {
  import opened Charges
  import opened Sections
  import opened Layout

  /** How many blocks of `s` hold charge `c`. */
  function Count(s: seq<Charge>, c: Charge): (r: nat)
    ensures r <= |s|
  {
    if s == [] then 0 else (if s[0] == c then 1 else 0) + Count(s[1..], c)
  }

  /** Changing one block changes the count by what left and what arrived. */
  lemma {:induction false} CountUpdate(s: seq<Charge>, p: int, x: Charge, c: Charge)
    requires 0 <= p < |s|
    ensures Count(s[p := x], c) == Count(s, c) - (if s[p] == c then 1 else 0) + (if x == c then 1 else 0)
  {
    if p == 0 {
      assert s[p := x][1..] == s[1..];
    } else {
      assert s[p := x][1..] == s[1..][p - 1 := x];
      CountUpdate(s[1..], p - 1, x, c);
    }
  }

  /** Every block of `s` holds `c` exactly when the count is the whole length. */
  lemma {:induction false} CountAll(s: seq<Charge>, c: Charge)
    ensures Count(s, c) == |s| <==> forall k :: 0 <= k < |s| ==> s[k] == c
  {
    if s != [] {
      CountAll(s[1..], c);
      assert forall k :: 1 <= k < |s| ==> s[k] == s[1..][k - 1];
    }
  }

  /** Column `j` of a grid, top to bottom. */
  function Column(g: seq<seq<Charge>>, j: int): (col: seq<Charge>)
    ensures |col| == |g|
    ensures forall k :: 0 <= k < |g| && 0 <= j < |g[k]| ==> col[k] == g[k][j]
  {
    seq(|g|, k requires 0 <= k < |g| => if 0 <= j < |g[k]| then g[k][j] else None)
  }

  /** The n columns of a grid, each top to bottom. */
  function Columns(g: seq<seq<Charge>>, n: nat): (cs: seq<seq<Charge>>)
    ensures |cs| == n && forall j :: 0 <= j < n ==> cs[j] == Column(g, j)
  {
    seq(n, j => Column(g, j))
  }

  /** Changing block c of an n×n grid changes one entry of its column, and no other column. */
  lemma ColumnsAfterPut(g: seq<seq<Charge>>, n: nat, c: Coord, x: Charge)
    requires Shaped(g, n) && InBounds(n, c)
    ensures Columns(Put(g, c, x), n) == Columns(g, n)[c.col := Columns(g, n)[c.col][c.row := x]]
  {
    var h := Put(g, c, x);
    assert Column(h, c.col) == Column(g, c.col)[c.row := x];
    forall j | 0 <= j < n && j != c.col
      ensures Column(h, j) == Column(g, j)
    {
    }
  }

  /** Each section of `lines` still needs its required poles less those
      already placed in the matching line of `content`. */
  ghost predicate Tally(lines: seq<Section>, pos: seq<int>, neg: seq<int>, content: seq<seq<Charge>>)
  {
    |lines| == |content| && |lines| <= |pos| && |lines| <= |neg| &&
    forall i :: 0 <= i < |lines| ==>
      lines[i].posNum == pos[i] - Count(content[i], Pos) &&
      lines[i].negNum == neg[i] - Count(content[i], Neg)
  }

  /** Charging an empty block and placing that charge in its section keeps the tally. */
  lemma PlaceKeepsTally(lines: seq<Section>, pos: seq<int>, neg: seq<int>, content: seq<seq<Charge>>, k: int, p: int, x: Charge)
    requires Tally(lines, pos, neg, content) && 0 <= k < |lines| && 0 <= p < |content[k]|
    requires content[k][p] == None
    ensures Tally(PlaceAt(lines, k, x), pos, neg, content[k := content[k][p := x]])
  {
    CountUpdate(content[k], p, x, Pos);
    CountUpdate(content[k], p, x, Neg);
  }

  /** Emptying a block and removing its charge from its section keeps the tally. */
  lemma RemoveKeepsTally(lines: seq<Section>, pos: seq<int>, neg: seq<int>, content: seq<seq<Charge>>, k: int, p: int)
    requires Tally(lines, pos, neg, content) && 0 <= k < |lines| && 0 <= p < |content[k]|
    ensures Tally(RemoveAt(lines, k, content[k][p]), pos, neg, content[k := content[k][p := None]])
  {
    CountUpdate(content[k], p, None, Pos);
    CountUpdate(content[k], p, None, Neg);
  }

  /** The number of non-empty blocks of a grid. */
  function Filled(g: seq<seq<Charge>>): (r: nat)
  {
    if g == [] then 0 else (|g[0]| - Count(g[0], None)) + Filled(g[1..])
  }

  /** Every block of the grid is empty. */
  ghost predicate AllEmpty(g: seq<seq<Charge>>)
  {
    forall i, j :: 0 <= i < |g| && 0 <= j < |g[i]| ==> g[i][j] == None
  }

  /** The n×n grid with every block empty. */
  function Blank(n: nat): (g: seq<seq<Charge>>)
    ensures Shaped(g, n) && AllEmpty(g) && AllEmpty(Columns(g, n))
  {
    seq(n, _ => seq(n, _ => None))
  }

  /** Changing one block changes the number of non-empty blocks by at most one,
      up when an empty block is charged, down when a charged one is emptied. */
  lemma {:induction false} FilledUpdate(g: seq<seq<Charge>>, c: Coord, x: Charge)
    requires 0 <= c.row < |g| && 0 <= c.col < |g[c.row]|
    ensures Filled(Put(g, c, x)) ==
            Filled(g) - (if g[c.row][c.col] != None then 1 else 0) + (if x != None then 1 else 0)
  {
    if c.row == 0 {
      assert Put(g, c, x)[1..] == g[1..];
      CountUpdate(g[0], c.col, x, None);
    } else {
      assert Put(g, c, x)[1..] == Put(g[1..], Coord(c.row - 1, c.col), x);
      FilledUpdate(g[1..], Coord(c.row - 1, c.col), x);
    }
  }

  /** No block is filled exactly when every block is empty. */
  lemma {:induction false} FilledZero(g: seq<seq<Charge>>)
    ensures Filled(g) == 0 <==> AllEmpty(g)
  {
    if g != [] {
      FilledZero(g[1..]);
      CountAll(g[0], None);
      assert forall i :: 1 <= i < |g| ==> g[i] == g[1..][i - 1];
    }
  }

  /** A line in which no block holds `c` counts none of it. */
  lemma {:induction false} CountAbsent(s: seq<Charge>, c: Charge)
    requires forall k :: 0 <= k < |s| ==> s[k] != c
    ensures Count(s, c) == 0
  {
    if s != [] {
      assert forall k :: 0 <= k < |s| - 1 ==> s[1..][k] == s[k + 1];
      CountAbsent(s[1..], c);
    }
  }
}
