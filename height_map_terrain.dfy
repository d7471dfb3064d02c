/**
 * The height query of a height-map terrain: a square grid of height samples
 * spread over a square of side 400 world units, interpolated over the two
 * triangles of each grid cell.
 */
module HeightMap {
  datatype Vec3 = Vec3(x: real, y: real, z: real)
  datatype Vec2 = Vec2(x: real, y: real)

  /** The side of the terrain in world units. */
  const TerrainSize: real := 400.0

  /** A terrain whose height samples form a `width` by `width` grid, stored
      row by row (`z` selects the row). */
  datatype Terrain = Terrain(width: int, heightMagnitude: real, data: seq<real>)

  predicate ValidTerrain(t: Terrain) {
    t.width >= 0 && |t.data| == t.width * t.width
  }

  /** Java's `(int) Math.floor(x)`, leaving out the saturation at the int
      range. */
  function Floor(x: real): (n: int)
    ensures n as real <= x < n as real + 1.0
  {
    x.Floor
  }

  /** Java's float `%`: the remainder of division truncated toward zero, so
      it takes the sign of `a`. */
  function JavaRem(a: real, b: real): (r: real)
    requires b > 0.0
    ensures a >= 0.0 ==> r == a - b * Floor(a / b) as real
  {
    var q := a / b;
    var t := if q >= 0.0 then q.Floor else -((-q).Floor);
    a - b * t as real
  }

  /** The determinant `barryCentric` divides by; only `x` and `z` of the
      corners count. */
  function Det(p1: Vec3, p2: Vec3, p3: Vec3): real {
    (p2.z - p3.z) * (p1.x - p3.x) + (p3.x - p2.x) * (p1.z - p3.z)
  }

  /** The barycentric weights of `pos` (as `x`, `z`) in the triangle of the
      three corners. */
  function Weights(p1: Vec3, p2: Vec3, p3: Vec3, pos: Vec2): (real, real, real)
    requires Det(p1, p2, p3) != 0.0
  {
    var det := Det(p1, p2, p3);
    var l1 := ((p2.z - p3.z) * (pos.x - p3.x) + (p3.x - p2.x) * (pos.y - p3.z)) / det;
    var l2 := ((p3.z - p1.z) * (pos.x - p3.x) + (p1.x - p3.x) * (pos.y - p3.z)) / det;
    (l1, l2, 1.0 - l1 - l2)
  }

  /** Interpolates the corners' heights `y` at `pos`. */
  function BarryCentric(p1: Vec3, p2: Vec3, p3: Vec3, pos: Vec2): real
    requires Det(p1, p2, p3) != 0.0
  {
    var (l1, l2, l3) := Weights(p1, p2, p3, pos);
    l1 * p1.y + l2 * p2.y + l3 * p3.y
  }

  /** The weights sum to one and reproduce the position: they are the
      barycentric coordinates of `pos`. */
  lemma WeightsAreBarycentric(p1: Vec3, p2: Vec3, p3: Vec3, pos: Vec2)
    requires Det(p1, p2, p3) != 0.0
    ensures var (l1, l2, l3) := Weights(p1, p2, p3, pos);
            l1 + l2 + l3 == 1.0 &&
            l1 * p1.x + l2 * p2.x + l3 * p3.x == pos.x &&
            l1 * p1.z + l2 * p2.z + l3 * p3.z == pos.y
  {
    var det := Det(p1, p2, p3);
    var (l1, l2, l3) := Weights(p1, p2, p3, pos);
    var n1 := (p2.z - p3.z) * (pos.x - p3.x) + (p3.x - p2.x) * (pos.y - p3.z);
    var n2 := (p3.z - p1.z) * (pos.x - p3.x) + (p1.x - p3.x) * (pos.y - p3.z);
    assert l1 * det == n1 && l2 * det == n2;
    // Relative to p3 the weights solve a 2x2 linear system.
    assert n1 * (p1.x - p3.x) + n2 * (p2.x - p3.x) == det * (pos.x - p3.x);
    assert n1 * (p1.z - p3.z) + n2 * (p2.z - p3.z) == det * (pos.y - p3.z);
    assert (l1 * (p1.x - p3.x) + l2 * (p2.x - p3.x)) * det == (pos.x - p3.x) * det;
    assert (l1 * (p1.z - p3.z) + l2 * (p2.z - p3.z)) * det == (pos.y - p3.z) * det;
  }

  /** Corners of equal height interpolate to that height everywhere. */
  lemma BarryCentricFlat(p1: Vec3, p2: Vec3, p3: Vec3, pos: Vec2)
    requires Det(p1, p2, p3) != 0.0
    requires p1.y == p2.y == p3.y
    ensures BarryCentric(p1, p2, p3, pos) == p1.y
  {
    var (l1, l2, l3) := Weights(p1, p2, p3, pos);
    assert l1 * p1.y + l2 * p1.y + l3 * p1.y == (l1 + l2 + l3) * p1.y;
  }

  /** Both triangles of a cell have determinant 1, so the division in
      `barryCentric` is safe. */
  lemma CellTrianglesHaveUnitDet(h00: real, h10: real, h01: real, h11: real)
    ensures Det(Vec3(0.0, h00, 0.0), Vec3(1.0, h10, 0.0), Vec3(0.0, h01, 1.0)) == 1.0
    ensures Det(Vec3(1.0, h10, 0.0), Vec3(1.0, h11, 1.0), Vec3(0.0, h01, 1.0)) == 1.0
  {
  }

  /** The height inside a cell, before scaling: the upper-left triangle
      (corners 00, 10, 01) when `x <= 1 - z`, else the lower-right one
      (corners 10, 11, 01). */
  function CellHeight(h00: real, h10: real, h01: real, h11: real, x: real, z: real): real {
    CellTrianglesHaveUnitDet(h00, h10, h01, h11);
    if x <= 1.0 - z then
      BarryCentric(Vec3(0.0, h00, 0.0), Vec3(1.0, h10, 0.0), Vec3(0.0, h01, 1.0), Vec2(x, z))
    else
      BarryCentric(Vec3(1.0, h10, 0.0), Vec3(1.0, h11, 1.0), Vec3(0.0, h01, 1.0), Vec2(x, z))
  }

  /** The cell height in closed form: a plane over each triangle. */
  lemma CellHeightPlanes(h00: real, h10: real, h01: real, h11: real, x: real, z: real)
    ensures x <= 1.0 - z ==>
              CellHeight(h00, h10, h01, h11, x, z) == (1.0 - x - z) * h00 + x * h10 + z * h01
    ensures x > 1.0 - z ==>
              CellHeight(h00, h10, h01, h11, x, z) == (1.0 - z) * h10 + (x + z - 1.0) * h11 + (1.0 - x) * h01
  {
  }

  /** The two planes meet on the diagonal: the surface has no seam. */
  lemma DiagonalSeamAgrees(h00: real, h10: real, h01: real, h11: real, x: real, z: real)
    requires x + z == 1.0
    ensures (1.0 - x - z) * h00 + x * h10 + z * h01 ==
            (1.0 - z) * h10 + (x + z - 1.0) * h11 + (1.0 - x) * h01
  {
  }

  /** Inside the cell, the height lies between the lowest and the highest
      of the four corners. */
  lemma CellHeightBounded(h00: real, h10: real, h01: real, h11: real, x: real, z: real, lo: real, hi: real)
    requires 0.0 <= x < 1.0 && 0.0 <= z < 1.0
    requires lo <= h00 <= hi && lo <= h10 <= hi && lo <= h01 <= hi && lo <= h11 <= hi
    ensures lo <= CellHeight(h00, h10, h01, h11, x, z) <= hi
  {
    CellHeightPlanes(h00, h10, h01, h11, x, z);
    if x <= 1.0 - z {
      ConvexBounded(1.0 - x - z, x, z, h00, h10, h01, lo, hi);
    } else {
      ConvexBounded(1.0 - z, x + z - 1.0, 1.0 - x, h10, h11, h01, lo, hi);
    }
  }

  /** A convex combination of values in `[lo, hi]` stays in `[lo, hi]`. */
  lemma ConvexBounded(a: real, b: real, c: real, p: real, q: real, r: real, lo: real, hi: real)
    requires a >= 0.0 && b >= 0.0 && c >= 0.0 && a + b + c == 1.0
    requires lo <= p <= hi && lo <= q <= hi && lo <= r <= hi
    ensures lo <= a * p + b * q + c * r <= hi
  {
    var ap, bq, cr := a * p, b * q, c * r;
    assert a * lo <= ap <= a * hi;
    assert b * lo <= bq <= b * hi;
    assert c * lo <= cr <= c * hi;
    var sumLo := a * lo + b * lo + c * lo;
    var sumHi := a * hi + b * hi + c * hi;
    assert sumLo == (a + b + c) * lo == lo;
    assert sumHi == (a + b + c) * hi == hi;
    assert sumLo <= ap + bq + cr <= sumHi;
  }

  /** Row `j`, column `i` of the grid lies inside the sample array. */
  lemma IndexInGrid(w: int, i: int, j: int)
    requires 0 <= i < w && 0 <= j < w
    ensures 0 <= j * w + i < w * w
  {
    assert j * w <= (w - 1) * w;
  }

  /** The height sample at column `i`, row `j`. */
  function Sample(t: Terrain, i: int, j: int): real
    requires ValidTerrain(t) && 0 <= i < t.width && 0 <= j < t.width
  {
    IndexInGrid(t.width, i, j);
    t.data[j * t.width + i]
  }

  /** The side of one grid cell. */
  function CellSize(width: int): (g: real)
    requires width >= 2
    ensures g > 0.0
  {
    TerrainSize / (width - 1) as real
  }

  /** `getHeightAtWorldCoord`: the height of the terrain, translated by
      `translation`, below a world point; 0 off the grid. */
  function HeightAtWorldCoord(t: Terrain, translation: Vec3, worldX: real, worldZ: real): real
    requires ValidTerrain(t)
  {
    // With fewer than two samples per side the cell size is infinite or
    // negative, and no grid index passes the bounds check.
    if t.width < 2 then 0.0
    else HeightAtLocal(t, worldX - translation.x, worldZ - translation.z)
  }

  /** The query for a point relative to the terrain's corner. */
  function HeightAtLocal(t: Terrain, terrainX: real, terrainZ: real): real
    requires ValidTerrain(t) && t.width >= 2
  {
    var g := CellSize(t.width);
    var gridX := Floor(terrainX / g);
    var gridZ := Floor(terrainZ / g);
    if gridX >= t.width - 1 || gridZ >= t.width - 1 || gridX < 0 || gridZ < 0 then 0.0
    else HeightInCell(t, gridX, gridZ, JavaRem(terrainX, g) / g, JavaRem(terrainZ, g) / g)
  }

  /** The scaled height at offset (`x`, `z`) within the cell whose corner
      sample is at column `i`, row `j`. */
  function HeightInCell(t: Terrain, i: int, j: int, x: real, z: real): real
    requires ValidTerrain(t) && 0 <= i < t.width - 1 && 0 <= j < t.width - 1
  {
    CellHeight(Sample(t, i, j), Sample(t, i + 1, j), Sample(t, i, j + 1), Sample(t, i + 1, j + 1), x, z)
      * t.heightMagnitude
  }

  /** Dividing a local coordinate by the cell size: below 0 before the
      terrain, at least `width - 1` past its far edge. */
  lemma CellIndexBounds(w: int, local: real)
    requires w >= 2
    ensures local < 0.0 ==> Floor(local / CellSize(w)) < 0
    ensures local >= TerrainSize ==> Floor(local / CellSize(w)) >= w - 1
    ensures 0.0 <= local < TerrainSize ==> 0 <= Floor(local / CellSize(w)) <= w - 2
  {
    var g := CellSize(w);
    var n := (w - 1) as real;
    assert g * n == TerrainSize;
    if local >= TerrainSize {
      assert local / g >= TerrainSize / g == n;
    }
    if 0.0 <= local < TerrainSize {
      assert local / g < TerrainSize / g == n;
      assert Floor(local / g) as real < n;
    }
  }

  /** Outside the square the terrain covers, the height is 0. */
  lemma HeightOffTerrainIsZero(t: Terrain, translation: Vec3, worldX: real, worldZ: real)
    requires ValidTerrain(t)
    requires var x, z := worldX - translation.x, worldZ - translation.z;
             x < 0.0 || x >= TerrainSize || z < 0.0 || z >= TerrainSize
    ensures HeightAtWorldCoord(t, translation, worldX, worldZ) == 0.0
  {
    if t.width >= 2 {
      CellIndexBounds(t.width, worldX - translation.x);
      CellIndexBounds(t.width, worldZ - translation.z);
    }
  }

  /** On the terrain, the query reads the cell that holds the point
      relative to the terrain's translation, at the point's offset within
      that cell (both in `[0, 1)`). */
  lemma HeightOnTerrain(t: Terrain, translation: Vec3, worldX: real, worldZ: real)
    requires ValidTerrain(t) && t.width >= 2
    requires var x, z := worldX - translation.x, worldZ - translation.z;
             0.0 <= x < TerrainSize && 0.0 <= z < TerrainSize
    ensures var x, z := worldX - translation.x, worldZ - translation.z;
            var g := CellSize(t.width);
            var i, j := Floor(x / g), Floor(z / g);
            0 <= i <= t.width - 2 && 0 <= j <= t.width - 2 &&
            0.0 <= x / g - i as real < 1.0 && 0.0 <= z / g - j as real < 1.0 &&
            HeightAtWorldCoord(t, translation, worldX, worldZ) ==
              HeightInCell(t, i, j, x / g - i as real, z / g - j as real)
  {
    var x, z := worldX - translation.x, worldZ - translation.z;
    var g := CellSize(t.width);
    CellIndexBounds(t.width, x);
    CellIndexBounds(t.width, z);
    CellOffset(x, g);
    CellOffset(z, g);
  }

  /** For a point at or after the origin, `%` then division by the cell
      size gives the offset within the cell. */
  lemma CellOffset(local: real, g: real)
    requires local >= 0.0 && g > 0.0
    ensures JavaRem(local, g) / g == local / g - Floor(local / g) as real
    ensures 0.0 <= local / g - Floor(local / g) as real < 1.0
  {
    var i := Floor(local / g);
    assert JavaRem(local, g) == local - g * i as real;
    assert (local - g * i as real) / g == local / g - i as real;
  }

  /** In a cell whose four samples are all `h`, the height is `h`, scaled. */
  lemma FlatCell(t: Terrain, i: int, j: int, x: real, z: real, h: real)
    requires ValidTerrain(t) && 0 <= i < t.width - 1 && 0 <= j < t.width - 1
    requires Sample(t, i, j) == Sample(t, i + 1, j) == Sample(t, i, j + 1) == Sample(t, i + 1, j + 1) == h
    ensures HeightInCell(t, i, j, x, z) == h * t.heightMagnitude
  {
    CellHeightPlanes(h, h, h, h, x, z);
    assert (1.0 - x - z) * h + x * h + z * h == h;
    assert (1.0 - z) * h + (x + z - 1.0) * h + (1.0 - x) * h == h;
  }

  /** On a flat grid the query returns the common height, scaled. */
  lemma FlatTerrain(t: Terrain, translation: Vec3, worldX: real, worldZ: real, h: real)
    requires ValidTerrain(t) && t.width >= 2
    requires forall k :: 0 <= k < |t.data| ==> t.data[k] == h
    requires var x, z := worldX - translation.x, worldZ - translation.z;
             0.0 <= x < TerrainSize && 0.0 <= z < TerrainSize
    ensures HeightAtWorldCoord(t, translation, worldX, worldZ) == h * t.heightMagnitude
  {
    HeightOnTerrain(t, translation, worldX, worldZ);
    var x, z := worldX - translation.x, worldZ - translation.z;
    var g := CellSize(t.width);
    var i, j := Floor(x / g), Floor(z / g);
    IndexInGrid(t.width, i, j);
    IndexInGrid(t.width, i + 1, j + 1);
    IndexInGrid(t.width, i + 1, j);
    IndexInGrid(t.width, i, j + 1);
    FlatCell(t, i, j, x / g - i as real, z / g - j as real, h);
  }

  /** With a non-negative magnitude, the height within a cell lies between
      the lowest and the highest sample, scaled. */
  lemma CellWithinSamples(t: Terrain, i: int, j: int, x: real, z: real, lo: real, hi: real)
    requires ValidTerrain(t) && 0 <= i < t.width - 1 && 0 <= j < t.width - 1
    requires t.heightMagnitude >= 0.0
    requires 0.0 <= x < 1.0 && 0.0 <= z < 1.0
    requires forall k :: 0 <= k < |t.data| ==> lo <= t.data[k] <= hi
    ensures lo * t.heightMagnitude <= HeightInCell(t, i, j, x, z) <= hi * t.heightMagnitude
  {
    var h00, h10 := Sample(t, i, j), Sample(t, i + 1, j);
    var h01, h11 := Sample(t, i, j + 1), Sample(t, i + 1, j + 1);
    SampleWithin(t, i, j, lo, hi);
    SampleWithin(t, i + 1, j, lo, hi);
    SampleWithin(t, i, j + 1, lo, hi);
    SampleWithin(t, i + 1, j + 1, lo, hi);
    CellHeightBounded(h00, h10, h01, h11, x, z, lo, hi);
    ScaleBetween(lo, CellHeight(h00, h10, h01, h11, x, z), hi, t.heightMagnitude);
  }

  /** Every sample lies between bounds that hold for all of the data. */
  lemma SampleWithin(t: Terrain, i: int, j: int, lo: real, hi: real)
    requires ValidTerrain(t) && 0 <= i < t.width && 0 <= j < t.width
    requires forall k :: 0 <= k < |t.data| ==> lo <= t.data[k] <= hi
    ensures lo <= Sample(t, i, j) <= hi
  {
    IndexInGrid(t.width, i, j);
  }

  /** Scaling by a non-negative factor keeps a value between its bounds. */
  lemma ScaleBetween(lo: real, c: real, hi: real, m: real)
    requires lo <= c <= hi && m >= 0.0
    ensures lo * m <= c * m <= hi * m
  {
  }

  /** With a non-negative magnitude, the height on the terrain lies between
      the lowest and the highest sample, scaled. */
  lemma HeightWithinSamples(t: Terrain, translation: Vec3, worldX: real, worldZ: real, lo: real, hi: real)
    requires ValidTerrain(t) && t.width >= 2 && t.heightMagnitude >= 0.0
    requires forall k :: 0 <= k < |t.data| ==> lo <= t.data[k] <= hi
    requires var x, z := worldX - translation.x, worldZ - translation.z;
             0.0 <= x < TerrainSize && 0.0 <= z < TerrainSize
    ensures lo * t.heightMagnitude <= HeightAtWorldCoord(t, translation, worldX, worldZ) <= hi * t.heightMagnitude
  {
    HeightOnTerrain(t, translation, worldX, worldZ);
    var x, z := worldX - translation.x, worldZ - translation.z;
    var g := CellSize(t.width);
    var i, j := Floor(x / g), Floor(z / g);
    CellWithinSamples(t, i, j, x / g - i as real, z / g - j as real, lo, hi);
  }
}
