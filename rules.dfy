/**
 * The per-cell rules the generation stages of a chunk apply, as functions of
 * a cell's current block id, its coordinates and the foreign inputs (noise
 * samples, random draws, parameters). The resource, terrain and cloud
 * stages of WorldChunk and each single tree are proved to apply exactly these
 * rules; the tree stage as a whole is proved to change each cell only as
 * TreeStep allows. The lemmas here state what the rules mean.
 */
module Rules {
  import opened Blocks
  import opened Wrappers
  import opened Random
  import opened Counting

  /**
   * The simplex noise fields, which are foreign and floating point, as oracles.
   * Each generation stage builds its own SimplexNoise from the shared
   * generator, which takes setupDraws values from it.
   * - resource(k, wx, wy, wz): noise3d at the world cell, divided per axis by
   *   the scale of the k-th resource;
   * - terrain(wx, wz): noise at the world column divided by terrain.scale;
   * - cloud(wx, wz): noise at the world column divided by clouds.scale.
   */
  datatype Noise = Noise(
    setupDraws: nat,
    resource: (nat, int, int, int) -> real,
    terrain: (int, int) -> real,
    cloud: (int, int) -> real)

  datatype TerrainParams = TerrainParams(magnitude: real, offset: real, waterOffset: int)
  datatype TreeParams = TreeParams(
    frequency: real,
    minHeight: int, maxHeight: int,
    minRadius: int, maxRadius: int,
    density: real)
  datatype CloudParams = CloudParams(density: real)
  datatype Params = Params(terrain: TerrainParams, trees: TreeParams, clouds: CloudParams)

  // ---------------------------------------------------------------- resources

  /** The k-th resource's noise exceeds its scarcity at the world cell. */
  predicate ResourceHit(noise: Noise, k: nat, wx: int, wy: int, wz: int)
    requires k < |Resources|
  {
    noise.resource(k, wx, wy, wz) > Scarcity[k]
  }

  /** The id of a cell after the first n resources have been laid over cur. */
  function OreAfter(cur: int, n: nat, noise: Noise, wx: int, wy: int, wz: int): (r: int)
    requires n <= |Resources|
    ensures r == cur || r in Resources
    ensures IsBlockId(cur) ==> IsBlockId(r)
  {
    if n == 0 then cur
    else if ResourceHit(noise, n - 1, wx, wy, wz) then Resources[n - 1]
    else OreAfter(cur, n - 1, noise, wx, wy, wz)
  }

  /** The last resource of the list whose threshold is exceeded wins the cell. */
  lemma {:induction false} LastResourceWins(cur: int, n: nat, noise: Noise, wx: int, wy: int, wz: int, k: nat)
    requires k < n <= |Resources| && ResourceHit(noise, k, wx, wy, wz)
    requires forall j :: k < j < n ==> !ResourceHit(noise, j, wx, wy, wz)
    ensures OreAfter(cur, n, noise, wx, wy, wz) == Resources[k]
  {
    if k < n - 1 {
      LastResourceWins(cur, n - 1, noise, wx, wy, wz, k);
    }
  }

  /** A cell no resource's threshold reaches keeps what it held. */
  lemma {:induction false} NoResourceKeeps(cur: int, n: nat, noise: Noise, wx: int, wy: int, wz: int)
    requires n <= |Resources|
    requires forall j :: 0 <= j < n ==> !ResourceHit(noise, j, wx, wy, wz)
    ensures OreAfter(cur, n, noise, wx, wy, wz) == cur
  {
    if n > 0 {
      NoResourceKeeps(cur, n - 1, noise, wx, wy, wz);
    }
  }

  // ------------------------------------------------------------------ terrain

  /**
   * The surface height of a column: the scaled noise floored, then clamped
   * into [0, height - 1] with Math.max(0, Math.min(h, height - 1)).
   */
  function SurfaceHeight(p: TerrainParams, noiseValue: real, height: int): (h: int)
    ensures height >= 1 ==> 0 <= h <= height - 1
    ensures height < 1 ==> h == 0
    ensures var f := (p.offset + p.magnitude * noiseValue).Floor;
      && (0 <= f <= height - 1 ==> h == f)
      && (f < 0 ==> h == 0)
      && (height >= 1 && f > height - 1 ==> h == height - 1)
  {
    var f := (p.offset + p.magnitude * noiseValue).Floor;
    var m := if f < height - 1 then f else height - 1;
    if 0 > m then 0 else m
  }

  /**
   * What generateTerrain writes at height y of a column whose surface is h,
   * given the id cur the cell holds before.
   */
  function TerrainRule(cur: int, y: int, h: int, water: int): (r: int)
    ensures r == Empty <==> y > h
    ensures y <= h && y <= water ==> r == Sand
    ensures y == h && y > water ==> r == Grass
    ensures y < h && y > water ==> r == (if cur == Empty then Dirt else cur)
    ensures IsBlockId(cur) ==> IsBlockId(r)
  {
    if y <= water && y <= h then Sand
    else if y == h then Grass
    else if y < h && cur == Empty then Dirt
    else if y > h then Empty
    else cur
  }

  // ------------------------------------------------------------------- clouds

  /** The cloud noise, remapped from [-1, 1] to [0, 1], is below the density. */
  predicate CloudAt(noise: Noise, density: real, wx: int, wz: int) {
    (noise.cloud(wx, wz) + 1.0) * 0.5 < density
  }

  // -------------------------------------------------------------------- trees

  /** First y of the column holding grass, scanning upwards from 0. */
  function FirstGrass(col: seq<int>): (r: Option<nat>)
    ensures r.Some? ==> r.value < |col| && col[r.value] == Grass
    ensures r.Some? ==> forall j :: 0 <= j < r.value ==> col[j] != Grass
    ensures r.None? ==> forall j :: 0 <= j < |col| ==> col[j] != Grass
  {
    if |col| == 0 then None
    else if col[0] == Grass then Some(0)
    else match FirstGrass(col[1..])
      case None => None
      case Some(i) => Some(i + 1)
  }

  /**
   * How the tree stage may change a cell: not at all, an empty cell into
   * leaves, or into trunk on an interior column strictly above the column's
   * first grass cell (g, taken before the stage).
   */
  predicate TreeStep(before: int, after: int, g: Option<nat>, y: int, interior: bool) {
    || after == before
    || (after == Leaves && before == Empty)
    || (after == Tree && interior && g.Some? && y > g.value)
  }

  /** Two tree steps in a row, the second confined to the first's column, are one tree step. */
  lemma TreeStepThen(a: int, b: int, c: int, g: Option<nat>, g2: Option<nat>, y: int, interior: bool, here: bool)
    requires TreeStep(a, b, g, y, interior) && TreeStep(b, c, g2, y, here)
    requires here ==> interior && g2 == g
    ensures TreeStep(a, c, g, y, interior)
  {
  }

  /** Changes allowed by TreeStep never move a column's first grass cell. */
  lemma FirstGrassStable(before: seq<int>, after: seq<int>, interior: bool)
    requires |before| == |after|
    requires forall y :: 0 <= y < |after| ==> TreeStep(before[y], after[y], FirstGrass(before), y, interior)
    ensures FirstGrass(after) == FirstGrass(before)
  {
    var g := FirstGrass(before);
    if g.Some? {
      assert after[g.value] == Grass;
      var g' := FirstGrass(after);
      assert g'.Some? && g'.value <= g.value;
      assert after[g'.value] == Grass;
    } else {
      assert forall j :: 0 <= j < |after| ==> after[j] != Grass;
    }
  }

  /** Whether column (x, z) lies in the interior the tree stage visits. */
  predicate Interior(x: int, z: int, width: int, border: int) {
    border <= x < width - border && border <= z < width - border
  }

  /** The trunk of a tree of height h whose column's first grass is at g. */
  function TrunkCell(cur: int, onColumn: bool, y: int, g: int, h: int): int {
    if onColumn && g < y <= g + h then Tree else cur
  }

  predicate InCube(dx: int, dy: int, dz: int, r: int) {
    -r <= dx <= r && -r <= dy <= r && -r <= dz <= r
  }

  /**
   * Position of offset (dx, dy, dz) in the canopy's dx-then-dy-then-dz scan of
   * the cube [-r, r]^3: the number of random draws taken before its own.
   */
  function CubeIndex(dx: int, dy: int, dz: int, r: int): int {
    ScanIndex(dx + r, dy + r, dz + r, 2 * r + 1, 2 * r + 1)
  }

  /** Number of offsets in the cube [-r, r]^3, one random draw each. */
  function CubeVolume(r: int): nat {
    if r < 0 then 0 else CubeSide(r) * CubeSide(r) * CubeSide(r)
  }

  function CubeSide(r: nat): nat {
    2 * r + 1
  }

  lemma CubeIndexInRange(dx: int, dy: int, dz: int, r: int)
    requires InCube(dx, dy, dz, r)
    ensures 0 <= CubeIndex(dx, dy, dz, r) < CubeVolume(r)
  {
    ScanIndexInRange(dx + r, dy + r, dz + r, 2 * r + 1, 2 * r + 1);
  }

  /** Distinct offsets of the cube take distinct draws. */
  lemma CubeIndexInjective(a: int, b: int, c: int, d: int, e: int, f: int, r: int)
    requires InCube(a, b, c, r) && InCube(d, e, f, r)
    requires CubeIndex(a, b, c, r) == CubeIndex(d, e, f, r)
    ensures a == d && b == e && c == f
  {
    ScanIndexInjective(a + r, b + r, c + r, d + r, e + r, f + r, 2 * r + 1, 2 * r + 1);
  }

  /** The scan of the cube ends after CubeVolume(r) draws (none when r is negative). */
  lemma CubeScanEnd(r: int)
    ensures r >= 0 ==> CubeIndex(r + 1, -r, -r, r) == CubeVolume(r)
    ensures r < 0 ==> CubeIndex(-r, -r, -r, r) == CubeVolume(r)
  {
    if r >= 0 {
      var s := 2 * r + 1;
      assert CubeIndex(r + 1, -r, -r, r) == (s * s + 0) * s + 0;
    }
  }

  /** Whether offset (dx, dy, dz) lies in the canopy's sphere of radius r. */
  predicate InSphere(dx: int, dy: int, dz: int, r: int) {
    dx * dx + dy * dy + dz * dz <= r * r
  }

  /**
   * What the canopy does to one cell of the cube, n being that cell's own
   * draw: leaves on an empty cell of the sphere when n is below the density.
   */
  function LeafCell(cur: int, dx: int, dy: int, dz: int, r: int, n: real, density: real): (c: int)
    ensures c != cur ==> c == Leaves && cur == Empty && InSphere(dx, dy, dz, r) && n < density
    ensures InSphere(dx, dy, dz, r) && cur == Empty && n < density ==> c == Leaves
  {
    if InSphere(dx, dy, dz, r) && cur == Empty && n < density then Leaves else cur
  }

  /**
   * What a canopy of radius r gives the cell at offset (dx, dy, dz) from its
   * centre, cur being what the cell holds before: leaves when the offset lies
   * in the sphere, the cell is empty and the offset's own draw (taken at
   * base + CubeIndex) is below the density.
   */
  function CanopyCell(cur: int, dx: int, dy: int, dz: int, r: int, draws: nat -> real, base: nat, density: real): (n: int)
    ensures n != cur ==> n == Leaves && cur == Empty && InCube(dx, dy, dz, r) && InSphere(dx, dy, dz, r)
    ensures InCube(dx, dy, dz, r) && InSphere(dx, dy, dz, r) && cur == Empty ==>
      (n == Leaves <==> CanopyDraw(dx, dy, dz, r, draws, base) < density)
  {
    if InCube(dx, dy, dz, r) then
      LeafCell(cur, dx, dy, dz, r, CanopyDraw(dx, dy, dz, r, draws, base), density)
    else cur
  }

  /** The draw the canopy scan takes at offset (dx, dy, dz), base being the draw taken before the scan. */
  function CanopyDraw(dx: int, dy: int, dz: int, r: int, draws: nat -> real, base: nat): real
    requires InCube(dx, dy, dz, r)
  {
    CubeIndexInRange(dx, dy, dz, r);
    draws(base + CubeIndex(dx, dy, dz, r))
  }
}
