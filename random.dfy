/**
 * The seeded random number generator the chunk consumes. The generator
 * itself (scripts/rng.js) is not part of this model: it is represented by
 * the stream of values it yields for a seed, and a cursor. The stream is
 * arbitrary; Rng.Valid() states that its values lie in [0, 1), and only the
 * bounds that need it assume it.
 */
module Random {

  class Rng {
    /** The values RNG(seed) yields, in order. */
    const draws: nat -> real
    /** How many values have been drawn so far. */
    var pos: nat

    /** Every value of a generator lies in [0, 1), as Math.random's do. */
    ghost predicate Valid() {
      forall i :: 0.0 <= draws(i) < 1.0
    }

    constructor (draws: nat -> real)
      ensures this.draws == draws && pos == 0
    {
      this.draws := draws;
      pos := 0;
    }

    /** rng.random(): the next value of the sequence. */
    method Random() returns (v: real)
      modifies this
      ensures v == draws(old(pos)) && pos == old(pos) + 1
    {
      v := draws(pos);
      pos := pos + 1;
    }

    /** What `new SimplexNoise(rng)` takes from the generator while it builds its tables. */
    method Advance(n: nat)
      modifies this
      ensures pos == old(pos) + n
    {
      pos := pos + n;
    }
  }

  /** JavaScript's Math.round: the nearest integer, halves rounded up. */
  function Round(v: real): (n: int)
    ensures v - 0.5 < n as real <= v + 0.5
  {
    (v + 0.5).Floor
  }

  /** Math.round(lo + (hi - lo) * v): a value drawn from [lo, hi] by a generator value v. */
  function RoundedDraw(lo: int, hi: int, v: real): int {
    Round(lo as real + (hi - lo) as real * v)
  }

  /** A draw in [0, 1) always rounds to a value in [lo, hi] (trunk heights, canopy radii). */
  lemma RoundedDrawInRange(lo: int, hi: int, v: real)
    requires lo <= hi && 0.0 <= v < 1.0
    ensures lo <= RoundedDraw(lo, hi, v) <= hi
  {
    var w := lo as real + (hi - lo) as real * v;
    assert (hi - lo) as real * v <= (hi - lo) as real by {
      assert (hi - lo) as real * (1.0 - v) >= 0.0;
    }
    assert lo as real <= w <= hi as real;
    assert (lo as real + 0.5).Floor == lo;
    assert (hi as real + 0.5).Floor == hi;
  }
}
