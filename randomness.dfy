/**
 * `Math.random()` as an explicit source of outcomes. The k-th call returns
 * `rolls(k)`; a proof that holds for every `rolls` with values in [0, 1)
 * holds for every run of the source.
 */
module Randomness {

  class RandomSource {
    /** The outcome of every call, in call order. */
    const rolls: nat -> real
    /** How many values have been drawn so far. */
    var draws: nat

    /** Every outcome lies in [0, 1), as `Math.random` promises. */
    ghost predicate Valid() {
      forall k: nat :: 0.0 <= rolls(k) < 1.0
    }

    constructor (rolls: nat -> real)
      requires forall k: nat :: 0.0 <= rolls(k) < 1.0
      ensures Valid() && this.rolls == rolls && draws == 0
    {
      this.rolls := rolls;
      draws := 0;
    }

    /** One call of `Math.random()`. */
    method Next() returns (r: real)
      requires Valid()
      modifies this
      ensures 0.0 <= r < 1.0
      ensures r == rolls(old(draws)) && draws == old(draws) + 1
    {
      r := rolls(draws);
      draws := draws + 1;
    }
  }

  /** `Math.floor(r * n)` for a random `r`: an index below `n`. */
  function Below(r: real, n: nat): (j: nat)
    requires 0.0 <= r < 1.0 && n > 0
    ensures j < n
    ensures j as real <= r * n as real < j as real + 1.0
  {
    var p := r * n as real;
    assert 0.0 <= p < n as real by {
      assert r * n as real < 1.0 * n as real;
    }
    p.Floor
  }
}
