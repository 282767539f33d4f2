/** A row or a column of the puzzle and the pole counts it still needs. */
module Sections {
  import opened Charges

  /** What `BlocksLeft` answers for an empty charge: the largest 32-bit integer,
      so that it is never a binding constraint. */
  const Unbounded: int := 0x7fff_ffff

  /** The counters of one line. Which blocks belong to the line is given by
      their coordinates (see Layout), so a section holds only its counters. */
  datatype Section = Section(posNum: int, negNum: int) {

    /** How many more blocks of charge `c` this line still needs. */
    function BlocksLeft(c: Charge): (r: int)
      ensures c == Pos ==> r == posNum
      ensures c == Neg ==> r == negNum
      ensures c == None ==> r == Unbounded
    {
      if c == Pos then posNum else if c == Neg then negNum else Unbounded
    }

    /** Records that one block of this line now holds `c`. */
    function PlaceBlock(c: Charge): (s: Section)
      ensures c != None ==> s.BlocksLeft(c) == BlocksLeft(c) - 1
      ensures c != None ==> s.BlocksLeft(Opposite(c)) == BlocksLeft(Opposite(c))
      ensures c == None ==> s == this
    {
      if c == Pos then Section(posNum - 1, negNum)
      else if c == Neg then Section(posNum, negNum - 1)
      else this
    }

    /** Records that one block of this line no longer holds `c`. */
    function RemoveBlock(c: Charge): (s: Section)
      ensures c != None ==> s.BlocksLeft(c) == BlocksLeft(c) + 1
      ensures c != None ==> s.BlocksLeft(Opposite(c)) == BlocksLeft(Opposite(c))
      ensures c == None ==> s == this
    {
      if c == Pos then Section(posNum + 1, negNum)
      else if c == Neg then Section(posNum, negNum + 1)
      else this
    }

    /** The line needs no more poles of either sign. */
    predicate Satisfied()
    {
      posNum <= 0 && negNum <= 0
    }
  }

  /** Places `c` on section `k` of a list of sections. */
  function PlaceAt(ss: seq<Section>, k: int, c: Charge): (r: seq<Section>)
    requires 0 <= k < |ss|
    ensures |r| == |ss|
  {
    ss[k := ss[k].PlaceBlock(c)]
  }

  /** Removes `c` from section `k` of a list of sections. */
  function RemoveAt(ss: seq<Section>, k: int, c: Charge): (r: seq<Section>)
    requires 0 <= k < |ss|
    ensures |r| == |ss|
  {
    ss[k := ss[k].RemoveBlock(c)]
  }

  /** Removing a block restores exactly the counters that placing it changed. */
  lemma RemoveAfterPlace(s: Section, c: Charge)
    ensures s.PlaceBlock(c).RemoveBlock(c) == s
  {
  }

  /** Undoing the two placements of a domino, in the order
      `Block.fullUnset` does, gives back the sections as they were, even when both
      blocks lie in the same line. */
  lemma {:induction false} UndoDomino(ss: seq<Section>, k1: int, x: Charge, k2: int, y: Charge)
    requires 0 <= k1 < |ss| && 0 <= k2 < |ss|
    ensures RemoveAt(RemoveAt(PlaceAt(PlaceAt(ss, k1, x), k2, y), k1, x), k2, y) == ss
  {
    var placed := PlaceAt(PlaceAt(ss, k1, x), k2, y);
    var undone := RemoveAt(RemoveAt(placed, k1, x), k2, y);
    forall k | 0 <= k < |ss| ensures undone[k] == ss[k] {
      var s := ss[k];
      if k == k1 && k == k2 {
        assert undone[k] == s.PlaceBlock(x).PlaceBlock(y).RemoveBlock(x).RemoveBlock(y);
      }
    }
  }

  /** Placing a block never raises a counter, so a satisfied line stays satisfied. */
  lemma PlaceKeepsSatisfied(s: Section, c: Charge)
    requires s.Satisfied()
    ensures s.PlaceBlock(c).Satisfied()
  {
  }
}
