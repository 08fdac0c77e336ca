/** How many of the numbers below a bound have a property. */
module Counting {
  ghost function Those(p: nat -> bool, n: nat): set<nat> {
    set i: nat | i < n && p(i)
  }

  /** A count that starts at nothing and goes up by one at each that has the property is how many have it. */
  lemma CountGoesUp(p: nat -> bool, n: nat)
    ensures |Those(p, 0)| == 0
    ensures |Those(p, n + 1)| == |Those(p, n)| + if p(n) then 1 else 0
  {
    assert Those(p, 0) == {};
    if p(n) {
      assert Those(p, n + 1) == Those(p, n) + {n};
    } else {
      assert Those(p, n + 1) == Those(p, n);
    }
  }
}
