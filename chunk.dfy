/**
 * One chunk of the voxel world (scripts/worldChunk.js): a dense
 * width x height x width grid of cells, the pipeline that fills it, and one
 * instance table per block type listing the cells that are drawn.
 *
 * Each cell {id, instanceId} of the source is held as two parallel
 * three-dimensional arrays, blockIds and instanceIds. The instance tables
 * (one THREE.InstancedMesh per non-empty block type) are the rows of
 * matrices, indexed by block id then slot, with counts[id] the mesh's count;
 * a slot holds the coordinate its translation matrix encodes.
 */
module Chunk {
  import opened Blocks
  import opened Wrappers
  import opened Random
  import opened EditStore
  import opened Counting
  import opened Rules

  datatype Coord = Coord(x: int, y: int, z: int)

  /** What getBlock returns for a cell of the grid. */
  datatype Cell = Cell(id: int, instanceId: Option<nat>)

  /** (i, j, k) comes before (x, y, z) in a scan whose outer loop runs over the first coordinate. */
  predicate ScannedBefore(i: int, j: int, k: int, x: int, y: int, z: int) {
    i < x || (i == x && (j < y || (j == y && k < z)))
  }

  class WorldChunk {
    const width: nat
    const height: nat
    /** this.position: the chunk's origin in world space. */
    const originX: int
    const originY: int
    const originZ: int
    const params: Params
    /** The shared persisted edit store (this.dataStore). */
    const store: DataStore

    var loaded: bool
    /** The grid, allocated once; generate refills it in place. */
    const blockIds: array3<int>
    const instanceIds: array3<Option<nat>>
    /** The instance tables, allocated once; generateMeshes empties them before refilling. */
    const matrices: array2<Coord>
    const counts: array<nat>

    constructor (width: nat, height: nat, originX: int, originY: int, originZ: int, params: Params, store: DataStore)
      ensures this.width == width && this.height == height
      ensures this.originX == originX && this.originY == originY && this.originZ == originZ
      ensures this.params == params && this.store == store && !loaded
      ensures fresh(blockIds) && fresh(instanceIds) && fresh(matrices) && fresh(counts)
      ensures Valid()
      ensures forall x, y, z :: InBounds(x, y, z) ==> blockIds[x, y, z] == Empty && instanceIds[x, y, z] == None
      ensures forall t :: 0 <= t < BlockTypeCount ==> counts[t] == 0
    {
      this.width, this.height := width, height;
      this.originX, this.originY, this.originZ := originX, originY, originZ;
      this.params, this.store := params, store;
      loaded := false;
      blockIds := new int[width, height, width]((x, y, z) => Empty);
      instanceIds := new Option<nat>[width, height, width]((x, y, z) => None);
      matrices := new Coord[BlockTypeCount, width * width * height]((t, s) => Coord(0, 0, 0));
      counts := new nat[BlockTypeCount](t => 0);
    }

    // ------------------------------------------------------------ the grid

    /** The grid arrays have the chunk's dimensions. */
    ghost predicate Shaped()
    {
      && blockIds.Length0 == width && blockIds.Length1 == height && blockIds.Length2 == width
      && instanceIds.Length0 == width && instanceIds.Length1 == height && instanceIds.Length2 == width
    }

    predicate InBounds(x: int, y: int, z: int)
    {
      0 <= x < width && 0 <= y < height && 0 <= z < width
    }

    /**
     * The grid is exactly the cells whose position in the x, y, z scan lies
     * below maxCount, the capacity of every instance table.
     */
    lemma InBoundsScan(x: int, y: int, z: int)
      requires 0 <= y < height && 0 <= z < width
      ensures InBounds(x, y, z) <==> 0 <= ScanIndex(x, y, z, width, height) < Capacity()
    {
      if InBounds(x, y, z) {
        ScanIndexInRange(x, y, z, width, height);
      } else {
        ScanIndexOutside(x, y, z, width, height);
      }
    }

    /** Every cell holds a registered block id. */
    ghost predicate AllIds()
      reads blockIds
      requires Shaped()
    {
      forall x, y, z :: InBounds(x, y, z) ==> IsBlockId(blockIds[x, y, z])
    }

    function GetBlock(x: int, y: int, z: int): (b: Option<Cell>)
      reads blockIds, instanceIds
      requires Shaped()
      ensures b.None? <==> !(0 <= x < width && 0 <= y < height && 0 <= z < width)
      ensures b.Some? ==> b.value == Cell(blockIds[x, y, z], instanceIds[x, y, z])
    {
      if InBounds(x, y, z) then Some(Cell(blockIds[x, y, z], instanceIds[x, y, z])) else None
    }

    /** getBlock(x, y, z)?.id ?? blocks.empty.id: a cell outside the grid reads as empty. */
    function IdOrEmpty(x: int, y: int, z: int): (id: int)
      reads blockIds
      requires Shaped()
      ensures id == Empty <==> !Solid(x, y, z)
    {
      if InBounds(x, y, z) then blockIds[x, y, z] else Empty
    }

    /** The cell is in the grid and not empty. */
    ghost predicate Solid(x: int, y: int, z: int)
      reads blockIds
      requires Shaped()
    {
      InBounds(x, y, z) && blockIds[x, y, z] != Empty
    }

    function IsBlockObscured(x: int, y: int, z: int): (r: bool)
      reads blockIds
      requires Shaped()
      ensures r <==>
        && Solid(x, y + 1, z) && Solid(x, y - 1, z)
        && Solid(x + 1, y, z) && Solid(x - 1, y, z)
        && Solid(x, y, z + 1) && Solid(x, y, z - 1)
      ensures r ==> 0 < x < width - 1 && 0 < y < height - 1 && 0 < z < width - 1
    {
      var up := IdOrEmpty(x, y + 1, z);
      var down := IdOrEmpty(x, y - 1, z);
      var left := IdOrEmpty(x + 1, y, z);
      var right := IdOrEmpty(x - 1, y, z);
      var forward := IdOrEmpty(x, y, z + 1);
      var back := IdOrEmpty(x, y, z - 1);
      if up == Empty || down == Empty || left == Empty || right == Empty || forward == Empty || back == Empty then
        false
      else
        true
    }

    /** The ids of column (x, z) from y = 0 upwards; empty outside the grid. */
    ghost function Column(x: int, z: int): (col: seq<int>)
      reads blockIds
      requires Shaped()
      ensures |col| == height
      ensures forall y :: 0 <= y < height ==> col[y] == IdOrEmpty(x, y, z)
    {
      seq(height, y requires 0 <= y < height && Shaped() reads blockIds => IdOrEmpty(x, y, z))
    }

    method SetBlockId(x: int, y: int, z: int, id: int)
      requires Shaped()
      modifies blockIds
      ensures InBounds(x, y, z) ==> blockIds[x, y, z] == id
      ensures forall i, j, k :: InBounds(i, j, k) && (i, j, k) != (x, y, z) ==> blockIds[i, j, k] == old(blockIds[i, j, k])
    {
      if InBounds(x, y, z) {
        blockIds[x, y, z] := id;
      }
    }

    method SetBlockInstanceId(x: int, y: int, z: int, instanceId: Option<nat>)
      requires Shaped()
      modifies instanceIds
      ensures InBounds(x, y, z) ==> instanceIds[x, y, z] == instanceId
      ensures forall i, j, k :: InBounds(i, j, k) && (i, j, k) != (x, y, z) ==> instanceIds[i, j, k] == old(instanceIds[i, j, k])
    {
      if InBounds(x, y, z) {
        instanceIds[x, y, z] := instanceId;
      }
    }

    // -------------------------------------------------------- generation

    /** The key of local cell (x, y, z) in the edit store. */
    function Key(x: int, y: int, z: int): EditKey {
      EditKey(originX, originZ, x, y, z)
    }

    /** The clamped surface height generateTerrain computes for column (x, z). */
    function ColumnSurface(noise: Noise, x: int, z: int): int {
      SurfaceHeight(params.terrain, noise.terrain(originX + x, originZ + z), height)
    }

    /** initializeTerrain: a fresh grid of empty cells without instances. */
    method InitializeTerrain()
      requires Shaped()
      modifies blockIds, instanceIds
      ensures forall x, y, z :: InBounds(x, y, z) ==> blockIds[x, y, z] == Empty && instanceIds[x, y, z] == None
    {
      for x := 0 to width
        invariant forall i, j, l :: InBounds(i, j, l) && i < x ==> blockIds[i, j, l] == Empty && instanceIds[i, j, l] == None
      {
        for y := 0 to height
          invariant forall i, j, l :: InBounds(i, j, l) && ScannedBefore(i, j, 0, x, y, 0) ==> blockIds[i, j, l] == Empty && instanceIds[i, j, l] == None
        {
          for z := 0 to width
            invariant forall i, j, l :: InBounds(i, j, l) && ScannedBefore(i, j, l, x, y, z) ==> blockIds[i, j, l] == Empty && instanceIds[i, j, l] == None
          {
            blockIds[x, y, z] := Empty;
            instanceIds[x, y, z] := None;
          }
        }
      }
    }

    /** One pass of generateResources' forEach: lay the k-th resource wherever its noise is above its scarcity. */
    method PlaceResource(noise: Noise, k: nat)
      requires Shaped() && k < |Resources|
      modifies blockIds
      ensures forall x, y, z :: InBounds(x, y, z) ==>
        blockIds[x, y, z] == if ResourceHit(noise, k, originX + x, originY + y, originZ + z) then Resources[k] else old(blockIds[x, y, z])
    {
      for x := 0 to width
        invariant forall i, j, l :: InBounds(i, j, l) ==>
          blockIds[i, j, l] == if i < x && ResourceHit(noise, k, originX + i, originY + j, originZ + l) then Resources[k] else old(blockIds[i, j, l])
      {
        for y := 0 to height
          invariant forall i, j, l :: InBounds(i, j, l) ==>
            blockIds[i, j, l] == if ScannedBefore(i, j, 0, x, y, 0) && ResourceHit(noise, k, originX + i, originY + j, originZ + l) then Resources[k] else old(blockIds[i, j, l])
        {
          for z := 0 to width
            invariant forall i, j, l :: InBounds(i, j, l) ==>
              blockIds[i, j, l] == if ScannedBefore(i, j, l, x, y, z) && ResourceHit(noise, k, originX + i, originY + j, originZ + l) then Resources[k] else old(blockIds[i, j, l])
          {
            var value := noise.resource(k, originX + x, originY + y, originZ + z);
            if value > Scarcity[k] {
              SetBlockId(x, y, z, Resources[k]);
            }
          }
        }
      }
    }

    /** generateResources: the resources in list order, each overwriting what it hits. */
    method GenerateResources(noise: Noise, rng: Rng)
      requires Shaped() && AllIds()
      modifies blockIds, rng
      ensures AllIds()
      ensures rng.pos == old(rng.pos) + noise.setupDraws
      ensures forall x, y, z :: InBounds(x, y, z) ==>
        blockIds[x, y, z] == OreAfter(old(blockIds[x, y, z]), |Resources|, noise, originX + x, originY + y, originZ + z)
    {
      rng.Advance(noise.setupDraws);
      for k := 0 to |Resources|
        invariant rng.pos == old(rng.pos) + noise.setupDraws
        invariant forall i, j, l :: InBounds(i, j, l) ==>
          blockIds[i, j, l] == OreAfter(old(blockIds[i, j, l]), k, noise, originX + i, originY + j, originZ + l)
      {
        PlaceResource(noise, k);
      }
    }

    /** generateTerrain: the sand / grass / dirt / empty rule on every column, y running to height inclusive. */
    method GenerateTerrain(noise: Noise, rng: Rng)
      requires Shaped() && AllIds()
      modifies blockIds, rng
      ensures AllIds()
      ensures rng.pos == old(rng.pos) + noise.setupDraws
      ensures forall x, y, z :: InBounds(x, y, z) ==>
        blockIds[x, y, z] == TerrainRule(old(blockIds[x, y, z]), y, ColumnSurface(noise, x, z), params.terrain.waterOffset)
    {
      rng.Advance(noise.setupDraws);
      var water := params.terrain.waterOffset;
      for x := 0 to width
        modifies blockIds
        invariant forall i, j, l :: InBounds(i, j, l) ==>
          blockIds[i, j, l] == if i < x then TerrainRule(old(blockIds[i, j, l]), j, ColumnSurface(noise, i, l), water) else old(blockIds[i, j, l])
      {
        for z := 0 to width
          invariant forall i, j, l :: InBounds(i, j, l) ==>
            blockIds[i, j, l] == if ScannedBefore(i, l, 0, x, z, 0) then TerrainRule(old(blockIds[i, j, l]), j, ColumnSurface(noise, i, l), water) else old(blockIds[i, j, l])
        {
          var value := noise.terrain(originX + x, originZ + z);
          var h := SurfaceHeight(params.terrain, value, height);
          for y := 0 to height + 1
            invariant forall i, j, l :: InBounds(i, j, l) ==>
              blockIds[i, j, l] == if ScannedBefore(i, l, j, x, z, y) then TerrainRule(old(blockIds[i, j, l]), j, ColumnSurface(noise, i, l), water) else old(blockIds[i, j, l])
          {
            if y <= water && y <= h {
              SetBlockId(x, y, z, Sand);
            } else if y == h {
              SetBlockId(x, y, z, Grass);
            } else if y < h && GetBlock(x, y, z).value.id == Empty {
              SetBlockId(x, y, z, Dirt);
            } else if y > h {
              SetBlockId(x, y, z, Empty);
            }
          }
        }
      }
    }

    /** generateClouds: a cloud on the top layer of every column whose remapped noise is below the density. */
    method GenerateClouds(noise: Noise, rng: Rng)
      requires Shaped() && AllIds()
      modifies blockIds, rng
      ensures AllIds()
      ensures rng.pos == old(rng.pos) + noise.setupDraws
      ensures forall x, y, z :: InBounds(x, y, z) ==>
        blockIds[x, y, z] == if y == height - 1 && CloudAt(noise, params.clouds.density, originX + x, originZ + z) then Cloud else old(blockIds[x, y, z])
    {
      rng.Advance(noise.setupDraws);
      for x := 0 to width
        modifies blockIds
        invariant forall i, j, l :: InBounds(i, j, l) ==>
          blockIds[i, j, l] == if i < x && j == height - 1 && CloudAt(noise, params.clouds.density, originX + i, originZ + l) then Cloud else old(blockIds[i, j, l])
      {
        for z := 0 to width
          invariant forall i, j, l :: InBounds(i, j, l) ==>
            blockIds[i, j, l] == if ScannedBefore(i, l, 0, x, z, 0) && j == height - 1 && CloudAt(noise, params.clouds.density, originX + i, originZ + l) then Cloud else old(blockIds[i, j, l])
        {
          var value := (noise.cloud(originX + x, originZ + z) + 1.0) * 0.5;
          if value < params.clouds.density {
            SetBlockId(x, height - 1, z, Cloud);
          }
        }
      }
    }

    /** loadPlayerChanges: every cell with a stored edit takes the stored id. */
    method LoadPlayerChanges()
      requires Shaped() && AllIds() && store.Valid()
      modifies blockIds
      ensures AllIds()
      ensures forall x, y, z :: InBounds(x, y, z) ==>
        blockIds[x, y, z] == if Key(x, y, z) in store.edits then store.edits[Key(x, y, z)] else old(blockIds[x, y, z])
    {
      for x := 0 to width
        invariant forall i, j, l :: InBounds(i, j, l) ==>
          blockIds[i, j, l] == if i < x && Key(i, j, l) in store.edits then store.edits[Key(i, j, l)] else old(blockIds[i, j, l])
      {
        for y := 0 to height
          invariant forall i, j, l :: InBounds(i, j, l) ==>
            blockIds[i, j, l] == if ScannedBefore(i, j, 0, x, y, 0) && Key(i, j, l) in store.edits then store.edits[Key(i, j, l)] else old(blockIds[i, j, l])
        {
          for z := 0 to width
            invariant forall i, j, l :: InBounds(i, j, l) ==>
              blockIds[i, j, l] == if ScannedBefore(i, j, l, x, y, z) && Key(i, j, l) in store.edits then store.edits[Key(i, j, l)] else old(blockIds[i, j, l])
          {
            if store.Contains(Key(x, y, z)) {
              var blockId := store.Get(Key(x, y, z));
              SetBlockId(x, y, z, blockId);
            }
          }
        }
      }
    }

    /** The scan in generateTreeTrunk: the first grass cell of column (x, z), from y = 0 upwards. */
    method FindGrass(x: int, z: int) returns (g: Option<nat>)
      requires Shaped()
      ensures g == FirstGrass(Column(x, z))
    {
      for y := 0 to height
        invariant forall j :: 0 <= j < y ==> IdOrEmpty(x, j, z) != Grass
      {
        var block := GetBlock(x, y, z);
        if block.Some? && block.value.id == Grass {
          ghost var col := Column(x, z);
          assert col[y] == Grass;
          return Some(y);
        }
      }
      return None;
    }

    /**
     * The innermost loop of generateTreeCanopy: the cells at offsets (x, y, -r)
     * to (x, y, r) from the centre, one draw each.
     */
    method CanopyRow(centerX: int, centerY: int, centerZ: int, x: int, y: int, r: int, rng: Rng, ghost base: nat, density: real)
      requires Shaped()
      requires -r <= x <= r && -r <= y <= r
      requires rng.pos == base + CubeIndex(x, y, -r, r)
      modifies blockIds, rng
      ensures rng.pos == base + CubeIndex(x, y, r + 1, r)
      ensures forall i, j, l :: InBounds(i, j, l) ==>
        blockIds[i, j, l] == if i - centerX == x && j - centerY == y
          then CanopyCell(old(blockIds[i, j, l]), i - centerX, j - centerY, l - centerZ, r, rng.draws, base, density)
          else old(blockIds[i, j, l])
    {
      for z := -r to r + 1
        invariant rng.pos == base + CubeIndex(x, y, z, r)
        invariant forall i, j, l :: InBounds(i, j, l) ==>
          blockIds[i, j, l] == if i - centerX == x && j - centerY == y && l - centerZ < z
            then CanopyCell(old(blockIds[i, j, l]), i - centerX, j - centerY, l - centerZ, r, rng.draws, base, density)
            else old(blockIds[i, j, l])
      {
        var n := rng.Random();
        CanopyPoint(centerX, centerY, centerZ, x, y, z, r, n, density);
      }
    }

    /** The body of generateTreeCanopy's innermost loop, for offset (x, y, z) and its draw n. */
    method CanopyPoint(centerX: int, centerY: int, centerZ: int, x: int, y: int, z: int, r: int, n: real, density: real)
      requires Shaped()
      modifies blockIds
      ensures forall i, j, l :: InBounds(i, j, l) ==>
        blockIds[i, j, l] == if i - centerX == x && j - centerY == y && l - centerZ == z
          then LeafCell(old(blockIds[i, j, l]), x, y, z, r, n, density)
          else old(blockIds[i, j, l])
    {
      if !(x * x + y * y + z * z > r * r) {
        var block := GetBlock(centerX + x, centerY + y, centerZ + z);
        if !(block.Some? && block.value.id != Empty) {
          if n < density {
            SetBlockId(centerX + x, centerY + y, centerZ + z, Leaves);
          }
        }
      }
    }

    /** The middle loop of generateTreeCanopy: the cells at offsets (x, -r, -r) to (x, r, r). */
    method CanopySlice(centerX: int, centerY: int, centerZ: int, x: int, r: int, rng: Rng, ghost base: nat, density: real)
      requires Shaped()
      requires -r <= x <= r
      requires rng.pos == base + CubeIndex(x, -r, -r, r)
      modifies blockIds, rng
      ensures rng.pos == base + CubeIndex(x + 1, -r, -r, r)
      ensures forall i, j, l :: InBounds(i, j, l) ==>
        blockIds[i, j, l] == if i - centerX == x
          then CanopyCell(old(blockIds[i, j, l]), i - centerX, j - centerY, l - centerZ, r, rng.draws, base, density)
          else old(blockIds[i, j, l])
    {
      for y := -r to r + 1
        invariant rng.pos == base + CubeIndex(x, y, -r, r)
        invariant forall i, j, l :: InBounds(i, j, l) ==>
          blockIds[i, j, l] == if i - centerX == x && j - centerY < y
            then CanopyCell(old(blockIds[i, j, l]), i - centerX, j - centerY, l - centerZ, r, rng.draws, base, density)
            else old(blockIds[i, j, l])
      {
        CanopyRow(centerX, centerY, centerZ, x, y, r, rng, base, density);
        assert CubeIndex(x, y, r + 1, r) == CubeIndex(x, y + 1, -r, r) by {
          var s := 2 * r + 1;
          assert ((x + r) * s + (y + r) + 1) * s == ((x + r) * s + (y + r)) * s + s;
        }
      }
      assert CubeIndex(x, r + 1, -r, r) == CubeIndex(x + 1, -r, -r, r) by {
        var s := 2 * r + 1;
        assert (x + r) * s + s == (x + r + 1) * s;
      }
    }

    /**
     * generateTreeCanopy: draw a radius, then one value per offset of the cube
     * [-r, r]^3 (even where the sphere mask skips it), and put leaves on the
     * empty cells of the sphere whose value is below the density.
     */
    method GenerateTreeCanopy(centerX: int, centerY: int, centerZ: int, rng: Rng)
      requires Shaped()
      modifies blockIds, rng
      ensures var r := RoundedDraw(params.trees.minRadius, params.trees.maxRadius, rng.draws(old(rng.pos)));
        && rng.pos == old(rng.pos) + 1 + CubeVolume(r)
        && forall x, y, z :: InBounds(x, y, z) ==>
             blockIds[x, y, z] == CanopyCell(old(blockIds[x, y, z]), x - centerX, y - centerY, z - centerZ, r, rng.draws, old(rng.pos) + 1, params.trees.density)
      ensures rng.Valid() && 0 <= params.trees.minRadius <= params.trees.maxRadius ==>
        forall x, y, z :: InBounds(x, y, z) && blockIds[x, y, z] != old(blockIds[x, y, z]) ==>
          InCube(x - centerX, y - centerY, z - centerZ, params.trees.maxRadius)
    {
      var minR := params.trees.minRadius;
      var maxR := params.trees.maxRadius;
      var density := params.trees.density;
      var rv := rng.Random();
      var r := Round(minR as real + (maxR - minR) as real * rv);
      ghost var base := rng.pos;
      var x := -r;
      while x <= r
        invariant -r <= x && (r >= 0 ==> x <= r + 1) && (r < 0 ==> x == -r)
        invariant rng.pos == base + CubeIndex(x, -r, -r, r)
        invariant forall i, j, l :: InBounds(i, j, l) ==>
          blockIds[i, j, l] == if i - centerX < x
            then CanopyCell(old(blockIds[i, j, l]), i - centerX, j - centerY, l - centerZ, r, rng.draws, base, density)
            else old(blockIds[i, j, l])
      {
        CanopySlice(centerX, centerY, centerZ, x, r, rng, base, density);
        x := x + 1;
      }
      CubeScanEnd(r);
      assert rng.pos == base + CubeVolume(r);
      assert r == RoundedDraw(minR, maxR, rng.draws(old(rng.pos)));
      if rng.Valid() && 0 <= minR <= maxR {
        RoundedDrawInRange(minR, maxR, rv);
      }
    }

    /**
     * generateTreeTrunk: draw a trunk height, find the column's first grass
     * cell and, if there is one, put the trunk above it and the canopy on top.
     */
    method GenerateTreeTrunk(x: int, z: int, rng: Rng)
      requires Shaped()
      modifies blockIds, rng
      ensures var p := old(rng.pos);
        var h := RoundedDraw(params.trees.minHeight, params.trees.maxHeight, rng.draws(p));
        var g := old(FirstGrass(Column(x, z)));
        if g.None? then
          && rng.pos == p + 1
          && forall i, j, l :: InBounds(i, j, l) ==> blockIds[i, j, l] == old(blockIds[i, j, l])
        else
          var r := RoundedDraw(params.trees.minRadius, params.trees.maxRadius, rng.draws(p + 1));
          && rng.pos == p + 2 + CubeVolume(r)
          && forall i, j, l :: InBounds(i, j, l) ==>
               blockIds[i, j, l] == CanopyCell(TrunkCell(old(blockIds[i, j, l]), i == x && l == z, j, g.value, h),
                                               i - x, j - (g.value + h), l - z, r, rng.draws, p + 2, params.trees.density)
      ensures forall i, j, l :: InBounds(i, j, l) ==>
        TreeStep(old(blockIds[i, j, l]), blockIds[i, j, l], old(FirstGrass(Column(x, z))), j, i == x && l == z)
      ensures rng.Valid() && 0 <= params.trees.minRadius <= params.trees.maxRadius ==>
        forall i, j, l :: InBounds(i, j, l) && blockIds[i, j, l] != old(blockIds[i, j, l]) ==>
          -params.trees.maxRadius <= i - x <= params.trees.maxRadius && -params.trees.maxRadius <= l - z <= params.trees.maxRadius
    {
      var minH := params.trees.minHeight;
      var maxH := params.trees.maxHeight;
      var hv := rng.Random();
      var h := Round(minH as real + (maxH - minH) as real * hv);
      assert h == RoundedDraw(minH, maxH, rng.draws(old(rng.pos)));
      var g := FindGrass(x, z);
      assert g == old(FirstGrass(Column(x, z)));
      if g.Some? {
        var y := g.value;
        PlaceTrunk(x, z, y, h);
        label Trunk:
        GenerateTreeCanopy(x, y + h, z, rng);
        forall i, j, l | InBounds(i, j, l)
          ensures blockIds[i, j, l] == CanopyCell(TrunkCell(old(blockIds[i, j, l]), i == x && l == z, j, y, h),
                                                  i - x, j - (y + h), l - z, RoundedDraw(params.trees.minRadius, params.trees.maxRadius, rng.draws(old(rng.pos) + 1)),
                                                  rng.draws, old(rng.pos) + 2, params.trees.density)
        {
          assert old@Trunk(blockIds[i, j, l]) == TrunkCell(old(blockIds[i, j, l]), i == x && l == z, j, y, h);
        }
      }
    }

    /** The trunk loop of generateTreeTrunk: Tree in column (x, z) from y + 1 to y + h. */
    method PlaceTrunk(x: int, z: int, y: int, h: int)
      requires Shaped()
      modifies blockIds
      ensures forall i, j, l :: InBounds(i, j, l) ==>
        blockIds[i, j, l] == TrunkCell(old(blockIds[i, j, l]), i == x && l == z, j, y, h)
    {
      var treeY := y + 1;
      while treeY <= y + h
        invariant y + 1 <= treeY <= if h >= 0 then y + h + 1 else y + 1
        invariant forall i, j, l :: InBounds(i, j, l) ==>
          blockIds[i, j, l] == if i == x && l == z && y < j < treeY then Tree else old(blockIds[i, j, l])
      {
        SetBlockId(x, treeY, z, Tree);
        treeY := treeY + 1;
      }
    }

    /** Number of interior columns along each axis the tree stage visits. */
    function InteriorSpan(): nat {
      if width - 2 * params.trees.maxRadius > 0 then width - 2 * params.trees.maxRadius else 0
    }

    /**
     * generateTrees: one draw of the placement generator per interior column;
     * a tree where it is below the frequency, shaped by a second generator
     * started afresh from the seed.
     */
    method GenerateTrees(rng: Rng, seedDraws: nat -> real)
      requires Shaped() && AllIds()
      modifies blockIds, rng
      ensures AllIds()
      ensures rng.pos == old(rng.pos) + InteriorSpan() * InteriorSpan()
      ensures forall x, y, z :: InBounds(x, y, z) ==>
        TreeStep(old(blockIds[x, y, z]), blockIds[x, y, z], old(FirstGrass(Column(x, z))), y, Interior(x, z, width, params.trees.maxRadius))
    {
      var rng1 := new Rng(seedDraws);
      var offset := params.trees.maxRadius;
      var x := offset;
      while x < width - offset
        invariant offset <= x && (x <= width - offset || x == offset)
        invariant rng.pos == old(rng.pos) + (x - offset) * InteriorSpan()
        invariant forall i, j, l :: InBounds(i, j, l) ==>
          TreeStep(old(blockIds[i, j, l]), blockIds[i, j, l], old(FirstGrass(Column(i, l))), j, Interior(i, l, width, offset))
      {
        var z := offset;
        while z < width - offset
          invariant offset <= z <= width - offset
          invariant rng.pos == old(rng.pos) + (x - offset) * InteriorSpan() + (z - offset)
          invariant forall i, j, l :: InBounds(i, j, l) ==>
            TreeStep(old(blockIds[i, j, l]), blockIds[i, j, l], old(FirstGrass(Column(i, l))), j, Interior(i, l, width, offset))
        {
          var v := rng.Random();
          if v < params.trees.frequency {
            ghost var before := Column(x, z);
            forall y | 0 <= y < height
              ensures TreeStep(old(Column(x, z))[y], before[y], FirstGrass(old(Column(x, z))), y, Interior(x, z, width, offset))
            {
            }
            FirstGrassStable(old(Column(x, z)), before, Interior(x, z, width, offset));
            label Before:
            GenerateTreeTrunk(x, z, rng1);
            forall i, j, l | InBounds(i, j, l)
              ensures TreeStep(old(blockIds[i, j, l]), blockIds[i, j, l], old(FirstGrass(Column(i, l))), j, Interior(i, l, width, offset))
            {
              TreeStepThen(old(blockIds[i, j, l]), old@Before(blockIds[i, j, l]), blockIds[i, j, l],
                           old(FirstGrass(Column(i, l))), FirstGrass(before), j, Interior(i, l, width, offset), i == x && l == z);
            }
          }
          z := z + 1;
        }
        assert (x - offset) * InteriorSpan() + InteriorSpan() == (x + 1 - offset) * InteriorSpan();
        x := x + 1;
      }
    }

    // ---------------------------------------------------- instance tables

    /** maxCount in generateMeshes: the capacity of every instance table. */
    function Capacity(): nat {
      width * width * height
    }

    /** One table row per block id (row Empty is never used) and one count per row. */
    ghost predicate TablesShaped()
    {
      matrices.Length0 == BlockTypeCount && matrices.Length1 == Capacity() && counts.Length == BlockTypeCount
    }

    /** No table holds more entries than its capacity. */
    ghost predicate TablesBounded()
      reads counts
    {
      TablesShaped() && forall t :: 0 <= t < BlockTypeCount ==> counts[t] <= Capacity()
    }

    /** The cell is drawn: in the grid, not empty and not hidden on all six sides. */
    ghost predicate Exposed(x: int, y: int, z: int)
      reads blockIds
      requires Shaped()
    {
      InBounds(x, y, z) && blockIds[x, y, z] != Empty && !IsBlockObscured(x, y, z)
    }

    /** An empty cell has no slot; a slot a cell holds is live in its type's table and records the cell. */
    ghost predicate CellIndexed(x: int, y: int, z: int)
      reads blockIds, instanceIds, matrices, counts
      requires Shaped() && TablesBounded() && InBounds(x, y, z)
    {
      && (blockIds[x, y, z] == Empty ==> instanceIds[x, y, z] == None)
      && (instanceIds[x, y, z].Some? ==>
            && IsBlockId(blockIds[x, y, z])
            && instanceIds[x, y, z].value < counts[blockIds[x, y, z]]
            && matrices[blockIds[x, y, z], instanceIds[x, y, z].value] == Coord(x, y, z))
    }

    /** Slot s of table t records a cell of type t that holds slot s. */
    ghost predicate SlotOwned(t: int, s: int)
      reads blockIds, instanceIds, matrices
      requires Shaped() && TablesShaped() && 0 <= t < BlockTypeCount && 0 <= s < Capacity()
    {
      var c := matrices[t, s];
      InBounds(c.x, c.y, c.z) && blockIds[c.x, c.y, c.z] == t && instanceIds[c.x, c.y, c.z] == Some(s)
    }

    /**
     * The chunk after generate: every cell holds a block id, and the cells
     * holding a slot and the live slots 0 .. counts[t] - 1 of the tables
     * correspond one to one.
     */
    ghost predicate Valid()
      reads blockIds, instanceIds, matrices, counts
    {
      && Shaped() && AllIds() && TablesBounded()
      && counts[Empty] == 0
      && (forall x, y, z :: InBounds(x, y, z) ==> CellIndexed(x, y, z))
      && (forall t, s :: 0 <= t < BlockTypeCount && 0 <= s < counts[t] ==> SlotOwned(t, s))
    }

    /** Every drawn cell has an instance: nothing visible is missing from the scene. */
    ghost predicate Covered()
      reads blockIds, instanceIds
      requires Shaped()
    {
      forall x, y, z :: Exposed(x, y, z) ==> instanceIds[x, y, z].Some?
    }

    /**
     * The tables as generateMeshes has built them once its scan has reached
     * (x, y, z): exactly the exposed cells scanned so far hold live slots.
     */
    ghost predicate MeshedBefore(x: int, y: int, z: int)
      reads blockIds, instanceIds, matrices, counts
      requires Shaped() && TablesBounded()
    {
      && counts[Empty] == 0
      && (forall t :: 0 <= t < BlockTypeCount ==> counts[t] <= ScanIndex(x, y, z, width, height))
      && (forall i, j, l :: InBounds(i, j, l) && ScannedBefore(i, j, l, x, y, z) && Exposed(i, j, l) ==>
            instanceIds[i, j, l].Some? && CellIndexed(i, j, l))
      && (forall t, s :: 0 <= t < BlockTypeCount && 0 <= s < counts[t] ==>
            && SlotOwned(t, s)
            && ScannedBefore(matrices[t, s].x, matrices[t, s].y, matrices[t, s].z, x, y, z)
            && Exposed(matrices[t, s].x, matrices[t, s].y, matrices[t, s].z))
    }

    /** The body of generateMeshes' loops, for cell (x, y, z). */
    method MeshCell(x: int, y: int, z: int)
      requires Shaped() && AllIds() && TablesBounded()
      requires InBounds(x, y, z)
      requires MeshedBefore(x, y, z)
      modifies instanceIds, matrices, counts
      ensures TablesBounded() && MeshedBefore(x, y, z + 1)
      ensures forall i, j, l :: InBounds(i, j, l) && !((i, j, l) == (x, y, z) && Exposed(i, j, l)) ==>
        instanceIds[i, j, l] == old(instanceIds[i, j, l])
    {
      var blockId := GetBlock(x, y, z).value.id;
      if blockId != Empty {
        var instanceId := counts[blockId];
        if !IsBlockObscured(x, y, z) {
          ScanIndexInRange(x, y, z, width, height);
          matrices[blockId, instanceId] := Coord(x, y, z);
          SetBlockInstanceId(x, y, z, Some(instanceId));
          counts[blockId] := counts[blockId] + 1;
          forall i, j, l | InBounds(i, j, l) && ScannedBefore(i, j, l, x, y, z + 1) && Exposed(i, j, l)
            ensures instanceIds[i, j, l].Some? && CellIndexed(i, j, l)
          {
            if (i, j, l) != (x, y, z) {
              assert old(instanceIds[i, j, l].Some? && CellIndexed(i, j, l));
            }
          }
          forall t, s | 0 <= t < BlockTypeCount && 0 <= s < counts[t]
            ensures SlotOwned(t, s)
            ensures ScannedBefore(matrices[t, s].x, matrices[t, s].y, matrices[t, s].z, x, y, z + 1)
            ensures Exposed(matrices[t, s].x, matrices[t, s].y, matrices[t, s].z)
          {
            var c := matrices[t, s];
            if s < old(counts[t]) {
              assert old(SlotOwned(t, s));
              assert c == old(matrices[t, s]);
              assert old(Exposed(c.x, c.y, c.z));
            } else {
              assert c == Coord(x, y, z);
            }
          }
          return;
        }
      }
      MeshedSkip(x, y, z);
    }

    /** A cell that is not drawn leaves the tables as the scan found them. */
    lemma MeshedSkip(x: int, y: int, z: int)
      requires Shaped() && AllIds() && TablesBounded()
      requires InBounds(x, y, z) && !Exposed(x, y, z)
      requires MeshedBefore(x, y, z)
      ensures MeshedBefore(x, y, z + 1)
    {
      forall i, j, l | InBounds(i, j, l) && ScannedBefore(i, j, l, x, y, z + 1) && Exposed(i, j, l)
        ensures ScannedBefore(i, j, l, x, y, z)
      {
      }
      forall t | 0 <= t < BlockTypeCount
        ensures counts[t] <= ScanIndex(x, y, z + 1, width, height)
      {
      }
    }

    /** The innermost loop of generateMeshes, over the cells (x, y, 0) to (x, y, width - 1). */
    method GenerateMeshRow(x: int, y: int)
      requires Shaped() && AllIds() && TablesBounded()
      requires 0 <= x < width && 0 <= y < height
      requires MeshedBefore(x, y, 0)
      modifies instanceIds, matrices, counts
      ensures TablesBounded() && MeshedBefore(x, y + 1, 0)
      ensures forall i, j, l :: InBounds(i, j, l) && !(i == x && j == y && Exposed(i, j, l)) ==>
        instanceIds[i, j, l] == old(instanceIds[i, j, l])
    {
      for z := 0 to width
        invariant TablesBounded() && MeshedBefore(x, y, z)
        invariant forall i, j, l :: InBounds(i, j, l) && !(i == x && j == y && l < z && Exposed(i, j, l)) ==>
          instanceIds[i, j, l] == old(instanceIds[i, j, l])
      {
        MeshCell(x, y, z);
      }
      assert ScanIndex(x, y, width, width, height) == ScanIndex(x, y + 1, 0, width, height) by {
        assert (x * height + y) * width + width == (x * height + y + 1) * width;
      }
    }

    /** The middle loop of generateMeshes, over the cells (x, 0, 0) to (x, height - 1, width - 1). */
    method GenerateMeshSlice(x: int)
      requires Shaped() && AllIds() && TablesBounded()
      requires 0 <= x < width
      requires MeshedBefore(x, 0, 0)
      modifies instanceIds, matrices, counts
      ensures TablesBounded() && MeshedBefore(x + 1, 0, 0)
      ensures forall i, j, l :: InBounds(i, j, l) && !(i == x && Exposed(i, j, l)) ==>
        instanceIds[i, j, l] == old(instanceIds[i, j, l])
    {
      for y := 0 to height
        invariant TablesBounded() && MeshedBefore(x, y, 0)
        invariant forall i, j, l :: InBounds(i, j, l) && !(i == x && j < y && Exposed(i, j, l)) ==>
          instanceIds[i, j, l] == old(instanceIds[i, j, l])
      {
        GenerateMeshRow(x, y);
      }
      assert ScanIndex(x, height, 0, width, height) == ScanIndex(x + 1, 0, 0, width, height) by {
        assert x * height + height == (x + 1) * height;
      }
    }

    /** The loops of generateMeshes: the scan over the whole grid. */
    method FillTables()
      requires Shaped() && AllIds() && TablesBounded()
      requires MeshedBefore(0, 0, 0)
      modifies instanceIds, matrices, counts
      ensures TablesBounded() && MeshedBefore(width, 0, 0)
      ensures forall x, y, z :: InBounds(x, y, z) && !Exposed(x, y, z) ==> instanceIds[x, y, z] == old(instanceIds[x, y, z])
      ensures forall x, y, z :: Exposed(x, y, z) ==> instanceIds[x, y, z].Some? && CellIndexed(x, y, z)
    {
      for x := 0 to width
        invariant TablesBounded() && MeshedBefore(x, 0, 0)
        invariant forall i, j, l :: InBounds(i, j, l) && !(i < x && Exposed(i, j, l)) ==>
          instanceIds[i, j, l] == old(instanceIds[i, j, l])
      {
        GenerateMeshSlice(x);
      }
      forall x, y, z | Exposed(x, y, z)
        ensures instanceIds[x, y, z].Some? && CellIndexed(x, y, z)
      {
        assert ScannedBefore(x, y, z, width, 0, 0);
      }
    }

    /**
     * generateMeshes, its table part: fresh tables, then one instance for
     * every non-empty cell that is not obscured, in scan order.
     */
    method GenerateMeshes()
      requires Shaped() && AllIds() && TablesShaped()
      modifies instanceIds, matrices, counts
      ensures TablesBounded()
      ensures forall x, y, z :: InBounds(x, y, z) && !Exposed(x, y, z) ==> instanceIds[x, y, z] == old(instanceIds[x, y, z])
      ensures forall x, y, z :: Exposed(x, y, z) ==> instanceIds[x, y, z].Some? && CellIndexed(x, y, z)
      ensures (forall x, y, z :: InBounds(x, y, z) ==> old(instanceIds[x, y, z]) == None) ==> Valid() && Covered()
    {
      for t := 0 to BlockTypeCount
        modifies counts
        invariant forall u :: 0 <= u < t ==> counts[u] == 0
      {
        counts[t] := 0;
      }
      assert TablesBounded() && MeshedBefore(0, 0, 0);
      FillTables();
      if forall x, y, z :: InBounds(x, y, z) ==> old(instanceIds[x, y, z]) == None {
        MeshedComplete();
      }
    }

    /** Once the scan is over, tables built on a grid with no slots are valid and cover every exposed cell. */
    lemma MeshedComplete()
      requires Shaped() && AllIds() && TablesBounded() && MeshedBefore(width, 0, 0)
      requires forall x, y, z :: InBounds(x, y, z) && !Exposed(x, y, z) ==> instanceIds[x, y, z] == None
      ensures Valid() && Covered()
    {
      forall x, y, z | InBounds(x, y, z)
        ensures CellIndexed(x, y, z)
      {
        assert ScannedBefore(x, y, z, width, 0, 0);
      }
    }

    /** The scan indices of the cells recorded in slots 0 .. n - 1 of table t. */
    ghost function Owners(t: int, n: nat): (r: seq<int>)
      reads matrices
      requires TablesShaped() && 0 <= t < BlockTypeCount && n <= Capacity()
      ensures |r| == n
      ensures forall s :: 0 <= s < n ==> r[s] == ScanIndex(matrices[t, s].x, matrices[t, s].y, matrices[t, s].z, width, height)
    {
      if n == 0 then [] else Owners(t, n - 1) + [ScanIndex(matrices[t, n - 1].x, matrices[t, n - 1].y, matrices[t, n - 1].z, width, height)]
    }

    /**
     * A cell without a slot leaves room in every table: the live slots of a
     * table record distinct cells, none of them this one.
     */
    lemma CapacityLeft(x: int, y: int, z: int, t: int)
      requires Valid() && InBounds(x, y, z) && instanceIds[x, y, z] == None && 0 <= t < BlockTypeCount
      ensures counts[t] < Capacity()
    {
      var owners := Owners(t, counts[t]);
      var k := ScanIndex(x, y, z, width, height);
      forall i | 0 <= i < |owners|
        ensures 0 <= owners[i] < Capacity() && owners[i] != k
      {
        var c := matrices[t, i];
        assert SlotOwned(t, i);
        ScanIndexInRange(c.x, c.y, c.z, width, height);
        if owners[i] == k {
          ScanIndexInjective(c.x, c.y, c.z, x, y, z, width, height);
        }
      }
      forall i, j | 0 <= i < j < |owners|
        ensures owners[i] != owners[j]
      {
        var c, d := matrices[t, i], matrices[t, j];
        assert SlotOwned(t, i) && SlotOwned(t, j);
        if owners[i] == owners[j] {
          ScanIndexInjective(c.x, c.y, c.z, d.x, d.y, d.z, width, height);
        }
      }
      ScanIndexInRange(x, y, z, width, height);
      Pigeonhole(owners, Capacity(), k);
    }

    // --------------------------------------------------------- editing

    /** addBlockInstance's guard: an in-grid, non-empty cell without an instance. */
    ghost predicate Addable(x: int, y: int, z: int)
      reads blockIds, instanceIds
      requires Shaped()
    {
      InBounds(x, y, z) && blockIds[x, y, z] != Empty && instanceIds[x, y, z] == None
    }

    /**
     * The tables after cell (x, y, z) has been appended to table t: its
     * coordinate is the new last entry, the cell holds that slot, and no
     * other cell or entry has changed.
     */
    twostate predicate Appended(x: int, y: int, z: int, t: int)
      reads instanceIds, matrices, counts
      requires TablesShaped() && Shaped()
    {
      && InBounds(x, y, z) && 0 <= t < BlockTypeCount && old(counts[t]) < Capacity()
      && counts[..] == old(counts[..])[t := old(counts[t]) + 1]
      && instanceIds[x, y, z] == Some(old(counts[t]))
      && matrices[t, old(counts[t])] == Coord(x, y, z)
      && (forall i, j, l :: InBounds(i, j, l) && (i, j, l) != (x, y, z) ==> instanceIds[i, j, l] == old(instanceIds[i, j, l]))
      && (forall u, s :: 0 <= u < BlockTypeCount && 0 <= s < Capacity() && (u, s) != (t, old(counts[t])) ==>
            matrices[u, s] == old(matrices[u, s]))
    }

    /**
     * addBlockInstance: give the cell the next slot of its type's table,
     * recording the cell's coordinate there.
     */
    method AddBlockInstance(x: int, y: int, z: int)
      requires Valid()
      modifies instanceIds, matrices, counts
      ensures Valid()
      ensures old(Addable(x, y, z)) ==> Appended(x, y, z, blockIds[x, y, z])
      ensures !old(Addable(x, y, z)) ==> unchanged(instanceIds, matrices, counts)
      ensures forall i, j, l :: InBounds(i, j, l) && (old(instanceIds[i, j, l]).Some? || ((i, j, l) == (x, y, z) && blockIds[i, j, l] != Empty)) ==>
        instanceIds[i, j, l].Some?
    {
      var block := GetBlock(x, y, z);
      if block.Some? && block.value.id != Empty && block.value.instanceId == None {
        var t := block.value.id;
        CapacityLeft(x, y, z, t);
        var instanceId := counts[t];
        counts[t] := counts[t] + 1;
        SetBlockInstanceId(x, y, z, Some(instanceId));
        matrices[t, instanceId] := Coord(x, y, z);
        forall i, j, l | InBounds(i, j, l) && (i, j, l) != (x, y, z)
          ensures CellIndexed(i, j, l)
        {
          assert old(CellIndexed(i, j, l));
        }
        forall u, s | 0 <= u < BlockTypeCount && 0 <= s < counts[u] && (u, s) != (t, instanceId)
          ensures SlotOwned(u, s)
        {
          assert old(SlotOwned(u, s));
        }
      }
    }

    /** deleteBlockInstance's guard: a non-empty cell holding a slot. */
    ghost predicate Deletable(x: int, y: int, z: int)
      reads blockIds, instanceIds
      requires Shaped() && InBounds(x, y, z)
    {
      blockIds[x, y, z] != Empty && instanceIds[x, y, z].Some?
    }

    /**
     * The tables after the slot of cell (x, y, z) has been freed by
     * swap-with-last: the last entry of its table moves into the freed slot,
     * the cell that entry records is re-pointed there, the table shrinks by
     * one and (x, y, z) holds no slot; no other cell or entry changes.
     */
    twostate predicate SwappedOut(x: int, y: int, z: int)
      reads blockIds, instanceIds, matrices, counts
      requires old(Valid()) && InBounds(x, y, z) && old(Deletable(x, y, z))
    {
      var t := old(blockIds[x, y, z]);
      var slot := old(instanceIds[x, y, z].value);
      assert old(CellIndexed(x, y, z));
      var last := old(matrices[t, counts[t] - 1]);
      && counts[..] == old(counts[..])[t := old(counts[t]) - 1]
      && matrices[t, slot] == last
      && (forall u, s :: 0 <= u < BlockTypeCount && 0 <= s < Capacity() && (u, s) != (t, slot) ==>
            matrices[u, s] == old(matrices[u, s]))
      && instanceIds[x, y, z] == None
      && InBounds(last.x, last.y, last.z)
      && (last != Coord(x, y, z) ==> instanceIds[last.x, last.y, last.z] == Some(slot))
      && (forall i, j, l :: InBounds(i, j, l) && (i, j, l) != (x, y, z) && Coord(i, j, l) != last ==>
            instanceIds[i, j, l] == old(instanceIds[i, j, l]))
    }

    /**
     * deleteBlockInstance: move the table's last entry into the freed slot,
     * re-point the cell that entry records, shrink the table by one and
     * clear the cell's slot.
     */
    method DeleteBlockInstance(x: int, y: int, z: int)
      requires Valid() && InBounds(x, y, z)
      modifies instanceIds, matrices, counts
      ensures Valid()
      ensures old(Deletable(x, y, z)) ==> SwappedOut(x, y, z)
      ensures !old(Deletable(x, y, z)) ==> unchanged(instanceIds, matrices, counts)
      ensures forall i, j, l :: InBounds(i, j, l) && (i, j, l) != (x, y, z) && old(instanceIds[i, j, l]).Some? ==>
        instanceIds[i, j, l].Some?
    {
      var block := GetBlock(x, y, z).value;
      if block.id == Empty || block.instanceId == None {
        return;
      }
      var t := block.id;
      var instanceId := block.instanceId.value;
      var last := matrices[t, counts[t] - 1];
      assert SlotOwned(t, counts[t] - 1);
      SetBlockInstanceId(last.x, last.y, last.z, Some(instanceId));
      matrices[t, instanceId] := last;
      counts[t] := counts[t] - 1;
      SetBlockInstanceId(x, y, z, None);
      assert instanceId != counts[t] ==> last != Coord(x, y, z);
      forall i, j, l | InBounds(i, j, l)
        ensures CellIndexed(i, j, l)
      {
        if (i, j, l) != (x, y, z) && Coord(i, j, l) != last {
          assert old(CellIndexed(i, j, l));
        }
      }
      forall u, s | 0 <= u < BlockTypeCount && 0 <= s < counts[u]
        ensures SlotOwned(u, s)
      {
        if (u, s) != (t, instanceId) {
          assert old(SlotOwned(u, s));
          var c := old(matrices[u, s]);
          assert old(CellIndexed(c.x, c.y, c.z));
        }
      }
    }

    /**
     * setBlockId on a cell that holds no slot, as addBlock and removeBlock
     * use it: the tables stay consistent with the grid, and exposure can
     * change only at the cell itself and its six neighbours; filling an
     * empty cell exposes nothing else.
     */
    method Retype(x: int, y: int, z: int, id: int)
      requires Valid() && InBounds(x, y, z) && instanceIds[x, y, z] == None && IsBlockId(id)
      modifies blockIds
      ensures Valid()
      ensures blockIds[x, y, z] == id
      ensures forall i, j, l :: InBounds(i, j, l) && (i, j, l) != (x, y, z) ==> blockIds[i, j, l] == old(blockIds[i, j, l])
      ensures forall i, j, l :: Exposed(i, j, l) && (i, j, l) != (x, y, z) && !Adjacent(i, j, l, x, y, z) ==> old(Exposed(i, j, l))
      ensures old(blockIds[x, y, z]) == Empty ==>
        forall i, j, l :: Exposed(i, j, l) && (i, j, l) != (x, y, z) ==> old(Exposed(i, j, l))
    {
      SetBlockId(x, y, z, id);
      forall i, j, l | InBounds(i, j, l)
        ensures CellIndexed(i, j, l)
      {
        assert old(CellIndexed(i, j, l));
      }
      forall u, s | 0 <= u < BlockTypeCount && 0 <= s < counts[u]
        ensures SlotOwned(u, s)
      {
        assert old(SlotOwned(u, s));
      }
      forall a, b, c | (a, b, c) != (x, y, z)
        ensures Solid(a, b, c) == old(Solid(a, b, c))
      {
      }
      forall i, j, l | Exposed(i, j, l) && (i, j, l) != (x, y, z)
        ensures !Adjacent(i, j, l, x, y, z) || old(blockIds[x, y, z]) == Empty ==> old(Exposed(i, j, l))
      {
        assert !IsBlockObscured(i, j, l);
      }
    }

    /**
     * addBlock: on an empty cell, put the block, give it an instance and
     * record the edit in the store; on an occupied cell, nothing.
     */
    method AddBlock(x: int, y: int, z: int, blockId: int)
      requires Valid() && store.Valid()
      requires InBounds(x, y, z) && IsBlockId(blockId)
      modifies blockIds, instanceIds, matrices, counts, store
      ensures Valid() && store.Valid()
      ensures old(blockIds[x, y, z]) == Empty ==>
        && blockIds[x, y, z] == blockId
        && (forall i, j, l :: InBounds(i, j, l) && (i, j, l) != (x, y, z) ==> blockIds[i, j, l] == old(blockIds[i, j, l]))
        && store.edits == old(store.edits)[Key(x, y, z) := blockId]
        && (blockId != Empty ==> Appended(x, y, z, blockId))
        && (blockId == Empty ==> unchanged(instanceIds, matrices, counts))
      ensures old(blockIds[x, y, z]) != Empty ==> unchanged(blockIds, instanceIds, matrices, counts, store)
      ensures old(Covered()) ==> Covered()
    {
      if GetBlock(x, y, z).value.id == Empty {
        assert old(CellIndexed(x, y, z));
        Retype(x, y, z, blockId);
        assert unchanged(instanceIds, matrices, counts);
        AddBlockInstance(x, y, z);
        store.Set(Key(x, y, z), blockId);
        if old(Covered()) {
          forall i, j, l | Exposed(i, j, l)
            ensures instanceIds[i, j, l].Some?
          {
            if (i, j, l) != (x, y, z) {
              assert old(Exposed(i, j, l));
            }
          }
        }
      }
    }

    /** (i, j, l) is one of the six cells sharing a face with (x, y, z). */
    predicate Adjacent(i: int, j: int, l: int, x: int, y: int, z: int) {
      || (i, j, l) == (x + 1, y, z) || (i, j, l) == (x - 1, y, z)
      || (i, j, l) == (x, y + 1, z) || (i, j, l) == (x, y - 1, z)
      || (i, j, l) == (x, y, z + 1) || (i, j, l) == (x, y, z - 1)
    }

    /** Every exposed cell has an instance, except perhaps the six neighbours of (x, y, z). */
    ghost predicate CoveredExcept(x: int, y: int, z: int)
      reads blockIds, instanceIds
      requires Shaped()
    {
      forall i, j, l :: Exposed(i, j, l) && !Adjacent(i, j, l, x, y, z) ==> instanceIds[i, j, l].Some?
    }

    /**
     * removeBlock: on a non-empty cell, free its slot (if it has one), empty
     * it and record the edit in the store; on an empty or out-of-grid
     * cell, nothing.
     */
    method RemoveBlock(x: int, y: int, z: int)
      requires Valid() && store.Valid()
      modifies blockIds, instanceIds, matrices, counts, store
      ensures Valid() && store.Valid()
      ensures old(InBounds(x, y, z) && blockIds[x, y, z] != Empty) ==>
        && blockIds[x, y, z] == Empty
        && (forall i, j, l :: InBounds(i, j, l) && (i, j, l) != (x, y, z) ==> blockIds[i, j, l] == old(blockIds[i, j, l]))
        && store.edits == old(store.edits)[Key(x, y, z) := Empty]
        && (old(instanceIds[x, y, z]).Some? ==> SwappedOut(x, y, z))
        && (old(instanceIds[x, y, z]).None? ==> unchanged(instanceIds, matrices, counts))
      ensures !old(InBounds(x, y, z) && blockIds[x, y, z] != Empty) ==> unchanged(blockIds, instanceIds, matrices, counts, store)
      ensures old(Covered()) ==> CoveredExcept(x, y, z)
    {
      var block := GetBlock(x, y, z);
      if block.Some? && block.value.id != Empty {
        DeleteBlockInstance(x, y, z);
        label Deleted:
        Retype(x, y, z, Empty);
        store.Set(Key(x, y, z), Empty);
        if old(Covered()) {
          forall i, j, l | Exposed(i, j, l) && !Adjacent(i, j, l, x, y, z)
            ensures instanceIds[i, j, l].Some?
          {
            assert old(Exposed(i, j, l));
            assert old@Deleted(instanceIds[i, j, l]).Some?;
          }
        }
      }
    }

    /**
     * removeBlock reveals nothing: emptying the cell above an obscured block
     * that has no instance (as generate leaves every obscured block) leaves
     * that block exposed but still without an instance. Giving it one is
     * left to the caller of removeBlock.
     */
    method RemoveAboveObscured(x: int, y: int, z: int)
      requires Valid() && store.Valid()
      requires IsBlockObscured(x, y - 1, z) && blockIds[x, y - 1, z] != Empty && instanceIds[x, y - 1, z] == None
      modifies blockIds, instanceIds, matrices, counts, store
      ensures Exposed(x, y - 1, z) && instanceIds[x, y - 1, z] == None
      ensures !Covered()
    {
      ghost var last := Coord(x, y, z);
      if instanceIds[x, y, z].Some? {
        var t := blockIds[x, y, z];
        assert CellIndexed(x, y, z);
        assert SlotOwned(t, counts[t] - 1);
        last := matrices[t, counts[t] - 1];
      }
      assert last != Coord(x, y - 1, z);
      RemoveBlock(x, y, z);
      assert blockIds[x, y, z] == Empty && blockIds[x, y - 1, z] == old(blockIds[x, y - 1, z]);
    }

    /**
     * addBlock then removeBlock on the same empty cell: the grid, every
     * cell's slot and the live part of every table are as before; only the
     * store keeps a record (an empty edit) of the cell.
     */
    method AddThenRemove(x: int, y: int, z: int, blockId: int)
      requires Valid() && store.Valid()
      requires InBounds(x, y, z) && IsBlockId(blockId) && blockIds[x, y, z] == Empty
      modifies blockIds, instanceIds, matrices, counts, store
      ensures Valid()
      ensures forall i, j, l :: InBounds(i, j, l) ==> blockIds[i, j, l] == old(blockIds[i, j, l])
      ensures forall i, j, l :: InBounds(i, j, l) ==> instanceIds[i, j, l] == old(instanceIds[i, j, l])
      ensures counts[..] == old(counts[..])
      ensures forall t, s :: 0 <= t < BlockTypeCount && 0 <= s < counts[t] ==> matrices[t, s] == old(matrices[t, s])
      ensures store.edits == old(store.edits)[Key(x, y, z) := Empty]
    {
      if blockId == Empty {
        AddBlock(x, y, z, blockId);
        RemoveBlock(x, y, z);
      } else {
        ghost var n := counts[blockId];
        AddBlock(x, y, z, blockId);
        assert instanceIds[x, y, z] == Some(n) && counts[blockId] == n + 1;
        assert matrices[blockId, n] == Coord(x, y, z);
        label Added:
        RemoveBlock(x, y, z);
        forall i, j, l | InBounds(i, j, l)
          ensures instanceIds[i, j, l] == old(instanceIds[i, j, l])
        {
          if (i, j, l) != (x, y, z) {
            assert instanceIds[i, j, l] == old@Added(instanceIds[i, j, l]);
          }
        }
        forall t, s | 0 <= t < BlockTypeCount && 0 <= s < counts[t]
          ensures matrices[t, s] == old(matrices[t, s])
        {
          assert matrices[t, s] == old@Added(matrices[t, s]);
        }
      }
    }

    /** The id of cell (x, y, z) after the resource and terrain stages: the resources over an empty cell, then the terrain rule. */
    function Procedural(noise: Noise, x: int, y: int, z: int): int {
      TerrainRule(OreAfter(Empty, |Resources|, noise, originX + x, originY + y, originZ + z), y, ColumnSurface(noise, x, z), params.terrain.waterOffset)
    }

    /** Column (x, z) after the resource and terrain stages, empty outside the grid, as Column reads it. */
    ghost function ProceduralColumn(noise: Noise, x: int, z: int): seq<int> {
      seq(height, y => if InBounds(x, y, z) then Procedural(noise, x, y, z) else Empty)
    }

    /**
     * The grid stages of generate, from one generator seeded with the chunk's seed.
     * A cell that neither an edit nor a cloud claims holds its procedural id, or
     * what one tree step makes of it over the procedural column's first grass cell.
     */
    method GenerateGrid(noise: Noise, seedDraws: nat -> real)
      requires Shaped() && store.Valid()
      modifies blockIds, instanceIds
      ensures AllIds()
      ensures forall x, y, z :: InBounds(x, y, z) ==> instanceIds[x, y, z] == None
      ensures forall x, y, z :: InBounds(x, y, z) && Key(x, y, z) in store.edits ==> blockIds[x, y, z] == store.edits[Key(x, y, z)]
      ensures forall x, y, z ::
        InBounds(x, y, z) && y == height - 1 && Key(x, y, z) !in store.edits && CloudAt(noise, params.clouds.density, originX + x, originZ + z)
        ==> blockIds[x, y, z] == Cloud
      ensures forall x, y, z ::
        InBounds(x, y, z) && Key(x, y, z) !in store.edits && !(y == height - 1 && CloudAt(noise, params.clouds.density, originX + x, originZ + z))
        ==> TreeStep(Procedural(noise, x, y, z), blockIds[x, y, z], FirstGrass(ProceduralColumn(noise, x, z)), y, Interior(x, z, width, params.trees.maxRadius))
    {
      var rng := new Rng(seedDraws);
      InitializeTerrain();
      GenerateResources(noise, rng);
      GenerateTerrain(noise, rng);
      assert forall x, y, z :: InBounds(x, y, z) ==> blockIds[x, y, z] == Procedural(noise, x, y, z);
      forall x, z
        ensures Column(x, z) == ProceduralColumn(noise, x, z)
      {
      }
      GenerateTrees(rng, seedDraws);
      GenerateClouds(noise, rng);
      LoadPlayerChanges();
    }

    /** generate: the grid stages, then the instance tables. */
    method Generate(noise: Noise, seedDraws: nat -> real)
      requires Shaped() && TablesShaped() && store.Valid()
      modifies this, blockIds, instanceIds, matrices, counts
      ensures Valid() && Covered() && loaded
      ensures forall x, y, z :: InBounds(x, y, z) ==> (instanceIds[x, y, z].Some? <==> Exposed(x, y, z))
      ensures forall x, y, z :: InBounds(x, y, z) && Key(x, y, z) in store.edits ==> blockIds[x, y, z] == store.edits[Key(x, y, z)]
      ensures forall x, y, z ::
        InBounds(x, y, z) && y == height - 1 && Key(x, y, z) !in store.edits && CloudAt(noise, params.clouds.density, originX + x, originZ + z)
        ==> blockIds[x, y, z] == Cloud
      ensures forall x, y, z ::
        InBounds(x, y, z) && Key(x, y, z) !in store.edits && !(y == height - 1 && CloudAt(noise, params.clouds.density, originX + x, originZ + z))
        ==> TreeStep(Procedural(noise, x, y, z), blockIds[x, y, z], FirstGrass(ProceduralColumn(noise, x, z)), y, Interior(x, z, width, params.trees.maxRadius))
    {
      GenerateGrid(noise, seedDraws);
      GenerateMeshes();
      loaded := true;
    }
  }
}
