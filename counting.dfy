/**
 * Arithmetic behind the instance-table capacity. Every InstancedMesh is
 * allocated with room for width * width * height instances (the number of
 * cells); the lemmas here show that a table whose entries are distinct cells
 * never needs more, by numbering the cells in the scan order x, y, z.
 */
module Counting {

  /** Position of cell (x, y, z) in the x-then-y-then-z scan of a width x height x width grid. */
  function ScanIndex(x: int, y: int, z: int, width: int, height: int): int {
    (x * height + y) * width + z
  }

  /** a * w + r with 0 <= r < w determines a and r. */
  lemma MixedRadix(a1: int, r1: int, a2: int, r2: int, w: int)
    requires 0 <= r1 < w && 0 <= r2 < w
    requires a1 * w + r1 == a2 * w + r2
    ensures a1 == a2 && r1 == r2
  {
    assert (a1 - a2) * w == r2 - r1;
    MultipleBounds(a1 - a2, w);
  }

  /** A nonzero multiple of w is at least w away from zero. */
  lemma MultipleBounds(d: int, w: int)
    requires w >= 0
    ensures d >= 1 ==> d * w >= w
    ensures d <= -1 ==> d * w <= -w
  {
    assert (d - 1) * w == d * w - w;
    assert (d + 1) * w == d * w + w;
  }

  lemma MulMonotone(a: int, b: int, w: int)
    requires a <= b && w >= 0
    ensures a * w <= b * w
  {
  }

  /** Distinct cells of the grid have distinct scan positions. */
  lemma ScanIndexInjective(x1: int, y1: int, z1: int, x2: int, y2: int, z2: int, width: int, height: int)
    requires 0 <= y1 < height && 0 <= z1 < width
    requires 0 <= y2 < height && 0 <= z2 < width
    requires ScanIndex(x1, y1, z1, width, height) == ScanIndex(x2, y2, z2, width, height)
    ensures x1 == x2 && y1 == y2 && z1 == z2
  {
    MixedRadix(x1 * height + y1, z1, x2 * height + y2, z2, width);
    MixedRadix(x1, y1, x2, y2, height);
  }

  /** The scan position of a cell of the grid is below the number of cells. */
  lemma ScanIndexInRange(x: int, y: int, z: int, width: int, height: int)
    requires 0 <= x < width && 0 <= y < height && 0 <= z < width
    ensures 0 <= ScanIndex(x, y, z, width, height) < width * width * height
  {
    DigitBelow(x, y, width, height);
    DigitBelow(x * height + y, z, width * height, width);
    CellCount(width, height);
  }

  /** The grid's cell count, counted a layer of width * height at a time. */
  lemma CellCount(width: int, height: int)
    ensures (width * height) * width == width * width * height
  {
  }

  /** A first coordinate outside [0, width) puts the scan position outside [0, width * width * height). */
  lemma ScanIndexOutside(x: int, y: int, z: int, width: int, height: int)
    requires 0 <= y < height && 0 <= z < width
    requires x < 0 || x >= width
    ensures !(0 <= ScanIndex(x, y, z, width, height) < width * width * height)
  {
    var a := x * height + y;
    if x < 0 {
      MulMonotone(x, -1, height);
      assert a <= -1;
      MulMonotone(a, -1, width);
    } else {
      MulMonotone(width, x, height);
      assert a >= width * height;
      MulMonotone(width * height, a, width);
      assert (width * height) * width == width * width * height;
    }
  }

  /** Appending a digit below the radix keeps a number below its bound times the radix. */
  lemma DigitBelow(a: int, d: int, bound: int, radix: int)
    requires 0 <= a < bound && 0 <= d < radix
    ensures 0 <= a * radix + d < bound * radix
  {
    MulMonotone(0, a, radix);
    MulMonotone(a + 1, bound, radix);
    assert (a + 1) * radix == a * radix + radix;
  }

  predicate Distinct(s: seq<int>) {
    forall i, j :: 0 <= i < j < |s| ==> s[i] != s[j]
  }

  /** The numbers 0 .. n-1. */
  function Range(n: nat): (r: set<int>)
    ensures forall i :: i in r <==> 0 <= i < n
    ensures |r| == n
  {
    if n == 0 then {} else Range(n - 1) + {n - 1}
  }

  function Elements(s: seq<int>): (r: set<int>)
    ensures forall x :: x in r <==> x in s
  {
    set x | x in s
  }

  lemma {:induction false} ElementsSize(s: seq<int>)
    requires Distinct(s)
    ensures |Elements(s)| == |s|
  {
    if |s| > 0 {
      ElementsSize(s[1..]);
      assert Elements(s) == Elements(s[1..]) + {s[0]};
      assert s[0] !in Elements(s[1..]);
    }
  }

  lemma SubsetSize(a: set<int>, b: set<int>)
    requires a <= b
    ensures |a| <= |b|
  {
    assert b == a + (b - a);
  }

  /**
   * Pigeonhole: distinct numbers below n that avoid one value k < n are
   * fewer than n.
   */
  lemma Pigeonhole(s: seq<int>, n: nat, k: int)
    requires Distinct(s) && 0 <= k < n
    requires forall i :: 0 <= i < |s| ==> 0 <= s[i] < n && s[i] != k
    ensures |s| < n
  {
    ElementsSize(s);
    SubsetSize(Elements(s), Range(n) - {k});
    assert |Range(n) - {k}| == n - 1 by {
      assert Range(n) == (Range(n) - {k}) + {k};
    }
  }
}
