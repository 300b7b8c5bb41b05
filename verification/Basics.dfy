/** Small things every part uses. */
module Basics {

  datatype Option<+T> = None | Some(value: T)

  /** All elements but the last. */
  function Front<A>(xs: seq<A>): seq<A>
    requires xs != []
  {
    xs[..|xs| - 1]
  }

  function Last<A>(xs: seq<A>): A
    requires xs != []
  {
    xs[|xs| - 1]
  }

  /** A multiple of m below m in size is zero. */
  lemma SmallMultiple(m: int, d: int)
    requires -m < m * d < m
    ensures d == 0
  {}
}
