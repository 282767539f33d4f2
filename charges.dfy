/** The three states a block (one half of a domino) can be in. */
module Charges {

  /** A positive pole, a negative pole, or an empty block. */
  datatype Charge = Pos | Neg | None

  /** The pole a domino partner must carry. `Charge.opposite` in `Magnets.java` throws on `None`;
      here that case is excluded by the precondition. */
  function Opposite(c: Charge): (r: Charge)
    requires c != None
    ensures r != None && r != c
  {
    if c == Pos then Neg else Pos
  }

  /** The charge the partner of a block holds in a balanced domino:
      the opposite pole, or nothing when the block is empty. */
  function Flip(c: Charge): (r: Charge)
    ensures (r == None) == (c == None)
    ensures c != None ==> r == Opposite(c)
  {
    if c == None then None else Opposite(c)
  }

  /** Taking the opposite twice gives back the pole. */
  lemma OppositeInvolution(c: Charge)
    requires c != None
    ensures Opposite(Opposite(c)) == c
  {
  }
}
