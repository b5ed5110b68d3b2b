/** What every part of the model shares. */
module Basics {

  datatype Option<+T> = None | Some(value: T)

  // The range of a Go int on a 64-bit platform
  const MAX_INT: int := 0x7FFF_FFFF_FFFF_FFFF
  const MIN_INT: int := -0x8000_0000_0000_0000

  /** A set that is not empty has a member; the loops over map keys pick one. */
  lemma SomeMember(s: set<int>)
    ensures s == {} || exists x :: x in s
  {
    if forall x :: x !in s {
      assert s == {};
    }
  }
}
