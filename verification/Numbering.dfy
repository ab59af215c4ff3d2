/** The numbers a counter hands out. */
module Numbering {

  /** The numbers a + 1, ..., b. */
  function Numbers(a: nat, b: nat): (r: seq<nat>)
    requires a <= b
    ensures |r| == b - a
  {
    seq(b - a, i requires 0 <= i < b - a => a + 1 + i)
  }

  lemma NumbersJoin(a: nat, b: nat, c: nat)
    requires a <= b <= c
    ensures Numbers(a, b) + Numbers(b, c) == Numbers(a, c)
  {
  }

  lemma NumbersNext(a: nat, b: nat)
    requires a <= b
    ensures Numbers(a, b) + [b + 1] == Numbers(a, b + 1)
  {
  }
}
