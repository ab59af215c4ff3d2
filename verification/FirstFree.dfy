/** The search both renaming loops perform: try candidate 0, 1, 2, ... until one is free. */
module FirstFree {

  /** Candidate n is the first one outside the finite set `taken`. */
  ghost predicate IsFirst<T>(candidate: nat -> T, taken: set<T>, n: nat) {
    candidate(n) !in taken && forall k :: 0 <= k < n ==> candidate(k) in taken
  }

  /** Candidates with a number on them never coincide. */
  ghost predicate Numbered<T>(candidate: nat -> T) {
    forall m: nat, n: nat :: 0 < m < n ==> candidate(m) != candidate(n)
  }

  function Tried<T>(candidate: nat -> T, n: nat): set<T> {
    set k: nat | 1 <= k <= n :: candidate(k)
  }

  lemma {:induction false} TriedSize<T>(candidate: nat -> T, n: nat)
    requires Numbered(candidate)
    ensures |Tried(candidate, n)| == n
  {
    if n == 0 {
      assert Tried(candidate, 0) == {};
    } else {
      TriedSize(candidate, n - 1);
      assert Tried(candidate, n) == Tried(candidate, n - 1) + {candidate(n)};
      assert candidate(n) !in Tried(candidate, n - 1);
    }
  }

  lemma {:induction false} SubsetSize<T>(a: set<T>, b: set<T>)
    requires a <= b
    ensures |a| <= |b|
    decreases a
  {
    if a != {} {
      var x :| x in a;
      SubsetSize(a - {x}, b - {x});
    }
  }

  /** Pigeonhole: the search ends within |taken| + 1 attempts. */
  lemma SearchEnds<T>(candidate: nat -> T, taken: set<T>) returns (n: nat)
    requires Numbered(candidate)
    ensures IsFirst(candidate, taken, n) && n <= |taken| + 1
  {
    var bound := |taken| + 1;
    if forall k: nat :: k <= bound ==> candidate(k) in taken {
      assert Tried(candidate, bound) <= taken;
      SubsetSize(Tried(candidate, bound), taken);
      TriedSize(candidate, bound);
      assert false;
    }
    n := 0;
    while candidate(n) in taken
      invariant n <= bound && forall k :: 0 <= k < n ==> candidate(k) in taken
      decreases bound - n
    {
      n := n + 1;
    }
  }

  ghost function Index<T>(candidate: nat -> T, taken: set<T>): (n: nat)
    requires Numbered(candidate)
    ensures IsFirst(candidate, taken, n) && n <= |taken| + 1
  {
    assert exists n: nat :: IsFirst(candidate, taken, n) && n <= |taken| + 1 by {
      var n := SearchEnds(candidate, taken);
    }
    var n: nat :| IsFirst(candidate, taken, n) && n <= |taken| + 1;
    n
  }
}
