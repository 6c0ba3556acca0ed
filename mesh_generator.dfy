/**
 * The parametric mesh generator of MeshGenerator4D.cs: sampling a pair of
 * `Vector3 -> Vector4` functions over a lattice (a "hexahedral mesh"), the
 * flattening of lattice coordinates to vertex indices, and the per-cell
 * decomposition into tetrahedra.
 */
module MeshGen {
  import opened Wrappers
  import opened Geometry

  // ---------------------------------------------------------------------
  // Lattice coordinates and their flattening
  // ---------------------------------------------------------------------

  datatype Dimension3D = Dimension3D(x: int, y: int, z: int)

  predicate InLattice(x: int, y: int, z: int, dim: Dimension3D) {
    0 <= x < dim.x && 0 <= y < dim.y && 0 <= z < dim.z
  }

  function LatticeSize(dim: Dimension3D): int {
    dim.x * dim.y * dim.z
  }

  /** Row-major index of lattice point `(x, y, z)`. */
  function FlattenCoord3D(x: int, y: int, z: int, dim: Dimension3D): int {
    x * dim.y * dim.z + y * dim.z + z
  }

  /** The inverse of `FlattenCoord3D` on `[0, dx*dy*dz)`. */
  function Unflatten(i: int, dim: Dimension3D): (int, int, int)
    requires dim.y > 0 && dim.z > 0
  {
    (i / dim.z / dim.y, (i / dim.z) % dim.y, i % dim.z)
  }

  lemma MulMonotone(a: int, b: int, c: int)
    requires 0 <= a <= b && 0 <= c
    ensures a * c <= b * c
  {
  }

  /** A digit `r` below `d` after a prefix `q` below `m` stays below `m * d`. */
  lemma MixedRadixBound(q: int, r: int, d: int, m: int)
    requires 0 <= q < m && 0 <= r < d
    ensures 0 <= q * d + r < m * d
  {
    MulMonotone(q, m - 1, d);
    assert (m - 1) * d == m * d - d;
  }

  /** The mixed-radix digits of a number are unique. */
  lemma MixedRadixUnique(q: int, r: int, q': int, r': int, d: int)
    requires 0 <= r < d && 0 <= r' < d
    requires q * d + r == q' * d + r'
    ensures q == q' && r == r'
  {
    if q < q' {
      assert (q + 1) * d == q * d + d;
      MulMonotone(q + 1, q', d);
    } else if q' < q {
      assert (q' + 1) * d == q' * d + d;
      MulMonotone(q' + 1, q, d);
    }
  }

  lemma FlattenNested(x: int, y: int, z: int, dim: Dimension3D)
    ensures FlattenCoord3D(x, y, z, dim) == (x * dim.y + y) * dim.z + z
  {
    assert (x * dim.y + y) * dim.z == x * dim.y * dim.z + y * dim.z;
  }

  /** Every lattice point flattens into `[0, dx*dy*dz)`. */
  lemma FlattenInRange(x: int, y: int, z: int, dim: Dimension3D)
    requires InLattice(x, y, z, dim)
    ensures 0 <= FlattenCoord3D(x, y, z, dim) < LatticeSize(dim)
  {
    FlattenNested(x, y, z, dim);
    MixedRadixBound(x, y, dim.y, dim.x);
    MixedRadixBound(x * dim.y + y, z, dim.z, dim.x * dim.y);
  }

  /** `Unflatten` undoes `FlattenCoord3D` on the lattice. */
  lemma UnflattenFlatten(x: int, y: int, z: int, dim: Dimension3D)
    requires InLattice(x, y, z, dim)
    ensures Unflatten(FlattenCoord3D(x, y, z, dim), dim) == (x, y, z)
  {
    var i := FlattenCoord3D(x, y, z, dim);
    FlattenNested(x, y, z, dim);
    MixedRadixUnique(i / dim.z, i % dim.z, x * dim.y + y, z, dim.z);
    var q := i / dim.z;
    MixedRadixUnique(q / dim.y, q % dim.y, x, y, dim.y);
  }

  /** `FlattenCoord3D` undoes `Unflatten` on `[0, dx*dy*dz)`, landing in the lattice. */
  lemma FlattenUnflatten(i: int, dim: Dimension3D)
    requires dim.y > 0 && dim.z > 0
    requires 0 <= i < LatticeSize(dim)
    ensures InLattice(Unflatten(i, dim).0, Unflatten(i, dim).1, Unflatten(i, dim).2, dim)
    ensures FlattenCoord3D(Unflatten(i, dim).0, Unflatten(i, dim).1, Unflatten(i, dim).2, dim) == i
  {
    var q := i / dim.z;
    DivBelow(i, dim.z, dim.x * dim.y);
    DivBelow(q, dim.y, dim.x);
    var a := q / dim.y;
    FlattenNested(a, q % dim.y, i % dim.z, dim);
    assert a * dim.y + q % dim.y == q;
    assert q * dim.z + i % dim.z == i;
  }

  /** A number below `m * d` has a quotient by `d` below `m`. */
  lemma DivBelow(i: int, d: int, m: int)
    requires d > 0 && 0 <= i < m * d
    ensures 0 <= i / d < m
  {
    var q := i / d;
    assert i == q * d + i % d;
    if q >= m {
      MulMonotone(m, q, d);
      assert false;
    }
  }

  /** `FlattenCoord3D` is one-to-one on the lattice. */
  lemma FlattenInjective(x: int, y: int, z: int, x': int, y': int, z': int, dim: Dimension3D)
    requires InLattice(x, y, z, dim) && InLattice(x', y', z', dim)
    requires FlattenCoord3D(x, y, z, dim) == FlattenCoord3D(x', y', z', dim)
    ensures x == x' && y == y' && z == z'
  {
    UnflattenFlatten(x, y, z, dim);
    UnflattenFlatten(x', y', z', dim);
  }

  // ---------------------------------------------------------------------
  // The hexahedral mesh and the sampled parameter lattice
  // ---------------------------------------------------------------------

  /** `HexMesh4D`: positions and normals of the sampled lattice, as 3D arrays. */
  class HexMesh4D {
    const vertices: array3<Vec4>
    const normals: array3<Vec4>

    /** Both arrays are separate and have the same shape, as the constructor makes them. */
    ghost predicate Valid() {
      vertices != normals &&
      normals.Length0 == vertices.Length0 &&
      normals.Length1 == vertices.Length1 &&
      normals.Length2 == vertices.Length2
    }

    constructor (xSize: nat, ySize: nat, zSize: nat)
      ensures Valid() && fresh(vertices) && fresh(normals)
      ensures vertices.Length0 == xSize && vertices.Length1 == ySize && vertices.Length2 == zSize
    {
      vertices := new Vec4[xSize, ySize, zSize];
      normals := new Vec4[xSize, ySize, zSize];
    }

    /** The lattice size along each axis; it is the shape of both arrays. */
    function GetDimension(): (d: Dimension3D)
      ensures d.x >= 0 && d.y >= 0 && d.z >= 0
      ensures Valid() ==> d == Dimension3D(normals.Length0, normals.Length1, normals.Length2)
    {
      Dimension3D(vertices.Length0, vertices.Length1, vertices.Length2)
    }
  }

  /** `ParameterBounds`: the parameter box `[lo, hi]` and its sampling step. */
  datatype ParameterBounds = ParameterBounds(lo: Vec3, hi: Vec3, samplingInterval: real)

  /** The exceptions the generator lets escape. */
  datatype MeshError =
    | NonFiniteSampleCount   // a zero interval: the float quotient is infinite or NaN
    | NegativeArraySize      // `new T[n]` with `n < 0` throws OverflowException

  /** `Mathf.Ceil`, over the reals. */
  function Ceil(r: real): (c: int)
    ensures r <= c as real < r + 1.0
  {
    -((-r).Floor)
  }

  /** `(int)Mathf.Ceil((hi - lo) / interval)`: the number of samples along one axis. */
  function SampleCount(lo: real, hi: real, interval: real): int
    requires interval != 0.0
  {
    Ceil((hi - lo) / interval)
  }

  /** The sample counts along the three axes, or `None` when the interval is 0. */
  function SampleDimension(b: ParameterBounds): Option<Dimension3D> {
    if b.samplingInterval == 0.0 then None
    else Some(Dimension3D(SampleCount(b.lo.x, b.hi.x, b.samplingInterval),
                          SampleCount(b.lo.y, b.hi.y, b.samplingInterval),
                          SampleCount(b.lo.z, b.hi.z, b.samplingInterval)))
  }

  /** The parameter `lo + interval * (i, j, k)` sampled at lattice point `[i, j, k]`. */
  function SampleParams(b: ParameterBounds, i: int, j: int, k: int): Vec3 {
    Vec3(b.lo.x + i as real * b.samplingInterval,
         b.lo.y + j as real * b.samplingInterval,
         b.lo.z + k as real * b.samplingInterval)
  }

  /** Lattice point `(a, b, c)` comes before `(x, y, z)` in the order the loops visit them. */
  predicate LexBefore(a: int, b: int, c: int, x: int, y: int, z: int) {
    a < x || (a == x && b < y) || (a == x && b == y && c < z)
  }

  /** Every sample along an axis lies strictly below `hi`: the upper bound itself is never sampled. */
  lemma SamplesBelowHi(lo: real, hi: real, interval: real, i: int)
    requires interval > 0.0
    requires 0 <= i < SampleCount(lo, hi, interval)
    ensures lo + i as real * interval < hi
  {
    var q := (hi - lo) / interval;
    assert i as real < q;
    assert q * interval == hi - lo;
    assert i as real * interval < q * interval;
  }

  /** The samples reach to within one interval of `hi`: `lo + n * interval >= hi`. */
  lemma SamplesReachHi(lo: real, hi: real, interval: real)
    requires interval > 0.0
    ensures lo + SampleCount(lo, hi, interval) as real * interval >= hi
  {
    var q := (hi - lo) / interval;
    var n := SampleCount(lo, hi, interval);
    assert q <= n as real;
    assert q * interval == hi - lo;
    assert q * interval <= n as real * interval;
  }

  /** Bounds inverted by less than one interval give an empty axis, not an error. */
  lemma SlightlyInvertedIsEmpty(lo: real, hi: real, interval: real)
    requires interval > 0.0 && lo - interval < hi <= lo
    ensures SampleCount(lo, hi, interval) == 0
  {
    var q := (hi - lo) / interval;
    assert q * interval == hi - lo;
    assert -1.0 < q <= 0.0;
  }

  /** Bounds inverted by at least one interval make the array allocation fail. */
  lemma InvertedIsNegative(lo: real, hi: real, interval: real)
    requires interval > 0.0 && hi <= lo - interval
    ensures SampleCount(lo, hi, interval) < 0
  {
    var q := (hi - lo) / interval;
    assert q * interval == hi - lo;
    assert q <= -1.0;
  }

  /**
   * `GenerateHexMesh`: sample `positionGenerator` and `normalGenerator` at
   * `lo + interval * (i, j, k)` for every lattice point.
   */
  method GenerateHexMesh(positionGenerator: Vec3 -> Vec4, normalGenerator: Vec3 -> Vec4,
                         samplingBounds: ParameterBounds)
    returns (r: Result<HexMesh4D, MeshError>)
    ensures r.Failure? <==>
              SampleDimension(samplingBounds).None? ||
              var d := SampleDimension(samplingBounds).value; d.x < 0 || d.y < 0 || d.z < 0
    ensures r.Failure? ==>
              r.error == if samplingBounds.samplingInterval == 0.0 then NonFiniteSampleCount
                         else NegativeArraySize
    ensures r.Success? ==>
              var h := r.value;
              h.Valid() && fresh(h.vertices) && fresh(h.normals) &&
              Some(h.GetDimension()) == SampleDimension(samplingBounds) &&
              forall i, j, k :: InLattice(i, j, k, h.GetDimension()) ==>
                h.vertices[i, j, k] == positionGenerator(SampleParams(samplingBounds, i, j, k)) &&
                h.normals[i, j, k] == normalGenerator(SampleParams(samplingBounds, i, j, k))
  {
    var interval := samplingBounds.samplingInterval;
    if interval == 0.0 {
      return Failure(NonFiniteSampleCount);
    }
    var lo, hi := samplingBounds.lo, samplingBounds.hi;
    var xSize := SampleCount(lo.x, hi.x, interval);
    var ySize := SampleCount(lo.y, hi.y, interval);
    var zSize := SampleCount(lo.z, hi.z, interval);
    if xSize < 0 || ySize < 0 || zSize < 0 {
      return Failure(NegativeArraySize);
    }
    var hexMesh := new HexMesh4D(xSize, ySize, zSize);
    ghost var dim := hexMesh.GetDimension();

    for xSample := 0 to xSize
      invariant forall i, j, k :: InLattice(i, j, k, dim) && LexBefore(i, j, k, xSample, 0, 0) ==>
                  hexMesh.vertices[i, j, k] == positionGenerator(SampleParams(samplingBounds, i, j, k)) &&
                  hexMesh.normals[i, j, k] == normalGenerator(SampleParams(samplingBounds, i, j, k))
    {
      var u := lo.x + xSample as real * interval;
      for ySample := 0 to ySize
        invariant forall i, j, k :: InLattice(i, j, k, dim) && LexBefore(i, j, k, xSample, ySample, 0) ==>
                    hexMesh.vertices[i, j, k] == positionGenerator(SampleParams(samplingBounds, i, j, k)) &&
                    hexMesh.normals[i, j, k] == normalGenerator(SampleParams(samplingBounds, i, j, k))
      {
        var v := lo.y + ySample as real * interval;
        for zSample := 0 to zSize
          invariant forall i, j, k :: InLattice(i, j, k, dim) && LexBefore(i, j, k, xSample, ySample, zSample) ==>
                      hexMesh.vertices[i, j, k] == positionGenerator(SampleParams(samplingBounds, i, j, k)) &&
                      hexMesh.normals[i, j, k] == normalGenerator(SampleParams(samplingBounds, i, j, k))
        {
          var t := lo.z + zSample as real * interval;
          var sampledParams := Vec3(u, v, t);
          assert sampledParams == SampleParams(samplingBounds, xSample, ySample, zSample);
          hexMesh.vertices[xSample, ySample, zSample] := positionGenerator(sampledParams);
          hexMesh.normals[xSample, ySample, zSample] := normalGenerator(sampledParams);
        }
      }
    }
    return Success(hexMesh);
  }

  // ---------------------------------------------------------------------
  // Cells and their corner table
  // ---------------------------------------------------------------------

  /** `TetMesh4D`: flat vertex and normal arrays and a (nullable) tetrahedron array. */
  datatype TetMesh4D = TetMesh4D(points: seq<Vec4>, normals: seq<Vec4>, tetrahedra: seq<Option<Tet4D>>)

  /** The lattice of cells: cell `(cx, cy, cz)` has lattice point `(cx+1, cy+1, cz+1)` as corner 0. */
  function CellDimension(dim: Dimension3D): Dimension3D {
    Dimension3D(dim.x - 1, dim.y - 1, dim.z - 1)
  }

  /** `numHexahedra` as the source computes it; negative when an odd number of axes is empty. */
  function NumHexahedra(dim: Dimension3D): int {
    (dim.x - 1) * (dim.y - 1) * (dim.z - 1)
  }

  /** For factors of at least -1: the product is negative exactly when none is 0 and an odd number are -1. */
  lemma ProductSign(a: int, b: int, c: int)
    requires a >= -1 && b >= -1 && c >= -1
    ensures a * b * c < 0 <==> a != 0 && b != 0 && c != 0 && ((a < 0) != (b < 0)) != (c < 0)
  {
    if a == 0 || b == 0 || c == 0 {
      assert a * b * c == 0;
    } else {
      assert a * b > 0 <==> (a < 0) == (b < 0) by {
        if a > 0 && b > 0 { MulMonotone(1, a, b); }
        if a < 0 && b < 0 { assert a * b == (-a) * (-b); MulMonotone(1, -a, -b); }
        if a > 0 && b < 0 { assert a * b == -(a * (-b)); MulMonotone(1, a, -b); }
        if a < 0 && b > 0 { assert a * b == -((-a) * b); MulMonotone(1, -a, b); }
      }
      var ab := a * b;
      assert ab != 0;
      if ab > 0 && c > 0 { MulMonotone(1, ab, c); }
      if ab < 0 && c < 0 { assert ab * c == (-ab) * (-c); MulMonotone(1, -ab, -c); }
      if ab > 0 && c < 0 { assert ab * c == -(ab * (-c)); MulMonotone(1, ab, -c); }
      if ab < 0 && c > 0 { assert ab * c == -((-ab) * c); MulMonotone(1, -ab, c); }
    }
  }

  /**
   * With sample counts of at least 0, `numHexahedra` is negative, and the tetrahedron allocation
   * fails, exactly when an odd number of axes has no sample and no axis has exactly one.
   */
  lemma NegativeCellCount(dim: Dimension3D)
    requires dim.x >= 0 && dim.y >= 0 && dim.z >= 0
    ensures NumHexahedra(dim) < 0 <==>
              dim.x != 1 && dim.y != 1 && dim.z != 1 && ((dim.x == 0) != (dim.y == 0)) != (dim.z == 0)
  {
    ProductSign(dim.x - 1, dim.y - 1, dim.z - 1);
  }

  /** One axis without samples next to two with at least two each makes `numHexahedra` negative. */
  lemma OneEmptyAxisIsNegative(a: int, b: int)
    requires a >= 2 && b >= 2
    ensures NumHexahedra(Dimension3D(0, a, b)) < 0
    ensures NumHexahedra(Dimension3D(a, 0, b)) < 0
    ensures NumHexahedra(Dimension3D(a, b, 0)) < 0
  {
    NegativeCellCount(Dimension3D(0, a, b));
    NegativeCellCount(Dimension3D(a, 0, b));
    NegativeCellCount(Dimension3D(a, b, 0));
  }

  /** The number of lattice points with `x > 0 && y > 0 && z > 0`: the cells actually visited. */
  function CellCount(dim: Dimension3D): nat {
    Max0(dim.x - 1) * Max0(dim.y - 1) * Max0(dim.z - 1)
  }

  /**
   * The corner table of the cell whose greatest corner is `(x, y, z)`, in the code's order:
   * entry `k` steps back by bit 2 of `k` along x, bit 1 along y and bit 0 along z.
   */
  function CellVertices(x: int, y: int, z: int, dim: Dimension3D): (v: seq<int>)
    ensures |v| == 8
  {
    [ FlattenCoord3D(x, y, z, dim),
      FlattenCoord3D(x, y, z - 1, dim),
      FlattenCoord3D(x, y - 1, z, dim),
      FlattenCoord3D(x, y - 1, z - 1, dim),
      FlattenCoord3D(x - 1, y, z, dim),
      FlattenCoord3D(x - 1, y, z - 1, dim),
      FlattenCoord3D(x - 1, y - 1, z, dim),
      FlattenCoord3D(x - 1, y - 1, z - 1, dim) ]
  }

  /** The backward step of corner `k` along x, y and z: bit 2 of `k` for x, bit 1 for y, bit 0 for z. */
  function CornerOffset(k: nat): (int, int, int)
    requires k < 8
  {
    match k
    case 0 => (0, 0, 0) case 1 => (0, 0, 1) case 2 => (0, 1, 0) case 3 => (0, 1, 1)
    case 4 => (1, 0, 0) case 5 => (1, 0, 1) case 6 => (1, 1, 0) case 7 => (1, 1, 1)
  }

  /** The corner numbering rule: the offset of corner `k` is the binary digits of `k`, x first. */
  lemma CornerOffsetRule(k: nat)
    requires k < 8
    ensures CornerOffset(k) == (k / 4, (k / 2) % 2, k % 2)
  {
    match k
    case 0 => case 1 => case 2 => case 3 => case 4 => case 5 => case 6 => case 7 =>
  }

  /** Corner `k` is recovered from its offset, so different corners have different offsets. */
  lemma OffsetInjective(k: nat, k': nat)
    requires k < 8 && k' < 8 && k != k'
    ensures CornerOffset(k) != CornerOffset(k')
  {
    OffsetDigits(k);
    OffsetDigits(k');
  }

  lemma OffsetDigits(k: nat)
    requires k < 8
    ensures 4 * CornerOffset(k).0 + 2 * CornerOffset(k).1 + CornerOffset(k).2 == k
  {
    match k
    case 0 => case 1 => case 2 => case 3 => case 4 => case 5 => case 6 => case 7 =>
  }

  function CellCorner(x: int, y: int, z: int, k: nat, dim: Dimension3D): int
    requires k < 8
  {
    CellVertices(x, y, z, dim)[k]
  }

  /** Corner `k` is the lattice point `CornerOffset(k)` behind `(x, y, z)`. */
  lemma CornerAt(x: int, y: int, z: int, k: nat, dim: Dimension3D)
    requires k < 8
    ensures CellCorner(x, y, z, k, dim) ==
            FlattenCoord3D(x - CornerOffset(k).0, y - CornerOffset(k).1, z - CornerOffset(k).2, dim)
  {
  }

  /** Corner `k` of an interior cell is a lattice point. */
  lemma CornerInRange(x: int, y: int, z: int, k: nat, dim: Dimension3D)
    requires 0 < x < dim.x && 0 < y < dim.y && 0 < z < dim.z && k < 8
    ensures 0 <= CellCorner(x, y, z, k, dim) < LatticeSize(dim)
  {
    CornerAt(x, y, z, k, dim);
    var (a, b, c) := CornerOffset(k);
    FlattenInRange(x - a, y - b, z - c, dim);
  }

  /** Distinct corner numbers of an interior cell name distinct lattice points. */
  lemma CornersDistinct(x: int, y: int, z: int, k: nat, k': nat, dim: Dimension3D)
    requires 0 < x < dim.x && 0 < y < dim.y && 0 < z < dim.z && k < 8 && k' < 8 && k != k'
    ensures CellCorner(x, y, z, k, dim) != CellCorner(x, y, z, k', dim)
  {
    CornerAt(x, y, z, k, dim);
    CornerAt(x, y, z, k', dim);
    var o, o' := CornerOffset(k), CornerOffset(k');
    OffsetInjective(k, k');
    FlattenDistinct(x - o.0, y - o.1, z - o.2, x - o'.0, y - o'.1, z - o'.2, dim);
  }

  /** Distinct lattice points have distinct flat indices. */
  lemma FlattenDistinct(x: int, y: int, z: int, x': int, y': int, z': int, dim: Dimension3D)
    requires InLattice(x, y, z, dim) && InLattice(x', y', z', dim)
    requires x != x' || y != y' || z != z'
    ensures FlattenCoord3D(x, y, z, dim) != FlattenCoord3D(x', y', z', dim)
  {
    if FlattenCoord3D(x, y, z, dim) == FlattenCoord3D(x', y', z', dim) {
      FlattenInjective(x, y, z, x', y', z', dim);
    }
  }

  /** The eight corners of an interior cell are distinct vertices of the lattice. */
  lemma CellCornersValid(x: int, y: int, z: int, dim: Dimension3D)
    requires 0 < x < dim.x && 0 < y < dim.y && 0 < z < dim.z
    ensures forall k :: 0 <= k < 8 ==> 0 <= CellCorner(x, y, z, k, dim) < LatticeSize(dim)
    ensures forall k, k' :: 0 <= k < k' < 8 ==> CellCorner(x, y, z, k, dim) != CellCorner(x, y, z, k', dim)
  {
    forall k | 0 <= k < 8
      ensures 0 <= CellCorner(x, y, z, k, dim) < LatticeSize(dim)
    {
      CornerInRange(x, y, z, k, dim);
    }
    forall k, k' | 0 <= k < k' < 8
      ensures CellCorner(x, y, z, k, dim) != CellCorner(x, y, z, k', dim)
    {
      CornersDistinct(x, y, z, k, k', dim);
    }
  }

  // ---------------------------------------------------------------------
  // Generate6TetMeshFromHexMesh: the lattice copy and the loop counters
  // ---------------------------------------------------------------------

  /** The flat arrays hold the lattice: index `FlattenCoord3D(x, y, z)` holds `[x, y, z]`. */
  ghost predicate LatticeCopied(hexMesh: HexMesh4D, points: seq<Vec4>, normals: seq<Vec4>)
    reads hexMesh.vertices, hexMesh.normals
    requires hexMesh.Valid()
  {
    var d := hexMesh.GetDimension();
    |points| == LatticeSize(d) && |normals| == LatticeSize(d) &&
    forall x, y, z :: InLattice(x, y, z, d) ==>
      0 <= FlattenCoord3D(x, y, z, d) < LatticeSize(d) &&
      points[FlattenCoord3D(x, y, z, d)] == hexMesh.vertices[x, y, z] &&
      normals[FlattenCoord3D(x, y, z, d)] == hexMesh.normals[x, y, z]
  }

  /** The number of cells visited before lattice point `(x, y, z)`. */
  ghost function CellsBefore(x: int, y: int, z: int, dim: Dimension3D): int {
    Max0(x - 1) * Max0(dim.y - 1) * Max0(dim.z - 1) +
    (if x > 0 then Max0(y - 1) * Max0(dim.z - 1) else 0) +
    (if x > 0 && y > 0 then Max0(z - 1) else 0)
  }

  /** One step along z moves the flat index by one. */
  lemma FlattenStepZ(x: int, y: int, z: int, dim: Dimension3D)
    ensures FlattenCoord3D(x, y, z + 1, dim) == FlattenCoord3D(x, y, z, dim) + 1
  {
  }

  /** The end of a row is the start of the next one. */
  lemma FlattenStepY(x: int, y: int, dim: Dimension3D)
    ensures FlattenCoord3D(x, y, dim.z, dim) == FlattenCoord3D(x, y + 1, 0, dim)
  {
    assert (y + 1) * dim.z == y * dim.z + dim.z;
  }

  /** The end of a plane is the start of the next one. */
  lemma FlattenStepX(x: int, dim: Dimension3D)
    ensures FlattenCoord3D(x, dim.y, 0, dim) == FlattenCoord3D(x + 1, 0, 0, dim)
  {
    assert (x + 1) * dim.y * dim.z == x * dim.y * dim.z + dim.y * dim.z;
  }

  /** One step along z counts one more cell exactly when the point was interior. */
  lemma CellsStepZ(x: int, y: int, z: int, dim: Dimension3D)
    requires 0 <= z
    ensures CellsBefore(x, y, z + 1, dim) == CellsBefore(x, y, z, dim) + (if x > 0 && y > 0 && z > 0 then 1 else 0)
  {
  }

  /** The cells counted at the end of a row are those counted at the start of the next. */
  lemma CellsStepY(x: int, y: int, dim: Dimension3D)
    requires 0 <= y && dim.z >= 0
    ensures CellsBefore(x, y, dim.z, dim) == CellsBefore(x, y + 1, 0, dim)
  {
    var mz := Max0(dim.z - 1);
    if y > 0 {
      assert Max0(y) * mz == Max0(y - 1) * mz + mz;
    }
  }

  /** The cells counted at the end of a plane are those counted at the start of the next. */
  lemma CellsStepX(x: int, dim: Dimension3D)
    requires 0 <= x && dim.y >= 0
    ensures CellsBefore(x, dim.y, 0, dim) == CellsBefore(x + 1, 0, 0, dim)
  {
    var my, mz := Max0(dim.y - 1), Max0(dim.z - 1);
    if x > 0 {
      assert Max0(x) * my * mz == Max0(x - 1) * my * mz + my * mz;
    }
  }

  /** At an interior lattice point the running cell count is that cell's flattened index. */
  lemma CellsBeforeIsCellIndex(x: int, y: int, z: int, dim: Dimension3D)
    requires 0 < x < dim.x && 0 < y < dim.y && 0 < z < dim.z
    ensures CellsBefore(x, y, z, dim) == FlattenCoord3D(x - 1, y - 1, z - 1, CellDimension(dim))
    ensures 0 <= CellsBefore(x, y, z, dim) < NumHexahedra(dim)
  {
    FlattenInRange(x - 1, y - 1, z - 1, CellDimension(dim));
  }

  /** After the whole lattice the counts cover every point and every cell. */
  lemma LoopEnd(dim: Dimension3D)
    requires dim.x >= 0
    ensures CellsBefore(dim.x, 0, 0, dim) == CellCount(dim)
    ensures FlattenCoord3D(dim.x, 0, 0, dim) == LatticeSize(dim)
  {
  }

  /** The lattice points flattened below `n` are copied. */
  ghost predicate PointsCopied(mv: seq<Vec4>, mn: seq<Vec4>, hexMesh: HexMesh4D, n: int)
    reads hexMesh.vertices, hexMesh.normals
    requires hexMesh.Valid()
  {
    var d := hexMesh.GetDimension();
    |mv| == LatticeSize(d) && |mn| == LatticeSize(d) &&
    forall a, b, c :: InLattice(a, b, c, d) && 0 <= FlattenCoord3D(a, b, c, d) < n ==>
      FlattenCoord3D(a, b, c, d) < |mv| &&
      mv[FlattenCoord3D(a, b, c, d)] == hexMesh.vertices[a, b, c] &&
      mn[FlattenCoord3D(a, b, c, d)] == hexMesh.normals[a, b, c]
  }

  /** Copying lattice point `(x, y, z)` extends the copied prefix by one index. */
  lemma CopyPointStep(mv: seq<Vec4>, mn: seq<Vec4>, hexMesh: HexMesh4D, x: int, y: int, z: int)
    requires hexMesh.Valid() && InLattice(x, y, z, hexMesh.GetDimension())
    requires PointsCopied(mv, mn, hexMesh, FlattenCoord3D(x, y, z, hexMesh.GetDimension()))
    ensures 0 <= FlattenCoord3D(x, y, z, hexMesh.GetDimension()) < |mv|
    ensures var i := FlattenCoord3D(x, y, z, hexMesh.GetDimension());
            PointsCopied(mv[i := hexMesh.vertices[x, y, z]], mn[i := hexMesh.normals[x, y, z]], hexMesh, i + 1)
  {
    var d := hexMesh.GetDimension();
    var i := FlattenCoord3D(x, y, z, d);
    FlattenInRange(x, y, z, d);
    var mv', mn' := mv[i := hexMesh.vertices[x, y, z]], mn[i := hexMesh.normals[x, y, z]];
    forall a, b, c | InLattice(a, b, c, d) && 0 <= FlattenCoord3D(a, b, c, d) < i + 1
      ensures FlattenCoord3D(a, b, c, d) < |mv'|
      ensures mv'[FlattenCoord3D(a, b, c, d)] == hexMesh.vertices[a, b, c]
      ensures mn'[FlattenCoord3D(a, b, c, d)] == hexMesh.normals[a, b, c]
    {
      if FlattenCoord3D(a, b, c, d) == i {
        FlattenInjective(a, b, c, x, y, z, d);
      }
    }
  }

  /** All the lattice copied means the flat arrays hold the lattice. */
  lemma PointsCopiedAll(mv: seq<Vec4>, mn: seq<Vec4>, hexMesh: HexMesh4D)
    requires hexMesh.Valid()
    requires PointsCopied(mv, mn, hexMesh, LatticeSize(hexMesh.GetDimension()))
    ensures LatticeCopied(hexMesh, mv, mn)
  {
    var d := hexMesh.GetDimension();
    forall x, y, z | InLattice(x, y, z, d)
      ensures 0 <= FlattenCoord3D(x, y, z, d) < LatticeSize(d)
    {
      FlattenInRange(x, y, z, d);
    }
  }

  // ---------------------------------------------------------------------
  // The tetrahedron array
  // ---------------------------------------------------------------------

  /**
   * Which tetrahedra a cell writes. `AsWritten` is what the code does: the first at `tetIdx`
   * and five writes at `tetIdx + 1`, so two slots are set and four stay null. `Corrected` puts
   * the six tetrahedra around the diagonal `v1`-`v6` into the six slots.
   */
  datatype CellLayout = AsWritten | Corrected

  /** Four corner numbers (indices into the cell's corner table). */
  datatype CornerTet = CornerTet(a: nat, b: nat, c: nat, d: nat)

  /** The corner numbers of the tetrahedra that end up in a cell's slots, in slot order. */
  function CornerPattern(layout: CellLayout): (p: seq<CornerTet>)
    ensures |p| <= 6
    ensures forall j :: 0 <= j < |p| ==> p[j].a < 8 && p[j].b < 8 && p[j].c < 8 && p[j].d < 8
  {
    match layout
    case AsWritten => [CornerTet(0, 4, 6, 2), CornerTet(1, 3, 7, 6)]
    case Corrected =>
      [CornerTet(0, 4, 6, 1), CornerTet(0, 2, 6, 1), CornerTet(2, 3, 1, 6),
       CornerTet(4, 5, 6, 1), CornerTet(1, 7, 5, 6), CornerTet(1, 3, 7, 6)]
  }

  /** The tetrahedron with corner numbers `ct` in the cell with corner table `v`. */
  function TetOfCorners(ct: CornerTet, v: seq<int>): Tet4D
    requires |v| == 8 && ct.a < 8 && ct.b < 8 && ct.c < 8 && ct.d < 8
  {
    Tet4D(v[ct.a], v[ct.b], v[ct.c], v[ct.d])
  }

  /** The six slots a cell with corner table `v` leaves behind under `layout`; unwritten slots stay null. */
  function CellSlots(layout: CellLayout, v: seq<int>): (slots: seq<Option<Tet4D>>)
    requires |v| == 8
    ensures |slots| == 6
  {
    var p := CornerPattern(layout);
    seq(6, j requires 0 <= j < 6 => if j < |p| then Some(TetOfCorners(p[j], v)) else None)
  }

  /** The slots of cell `(cx, cy, cz)` of the cell lattice; its greatest corner is `(cx+1, cy+1, cz+1)`. */
  function SlotsOfCell(layout: CellLayout, cx: int, cy: int, cz: int, dim: Dimension3D): seq<Option<Tet4D>> {
    CellSlots(layout, CellVertices(cx + 1, cy + 1, cz + 1, dim))
  }

  /** The cells flattened below `k` hold their six slots. */
  ghost predicate CellsFilled(tets: seq<Option<Tet4D>>, dim: Dimension3D, layout: CellLayout, k: int) {
    var cd := CellDimension(dim);
    forall cx, cy, cz :: InLattice(cx, cy, cz, cd) && 0 <= FlattenCoord3D(cx, cy, cz, cd) < k ==>
      6 * FlattenCoord3D(cx, cy, cz, cd) + 6 <= |tets| &&
      tets[6 * FlattenCoord3D(cx, cy, cz, cd)..6 * FlattenCoord3D(cx, cy, cz, cd) + 6] ==
        SlotsOfCell(layout, cx, cy, cz, dim)
  }

  /** Every slot from `6 * k` on is null. */
  ghost predicate EmptyFrom(tets: seq<Option<Tet4D>>, k: int) {
    forall s :: 0 <= s < |tets| && s >= 6 * k ==> tets[s] == None
  }

  /**
   * The tetrahedron array the method returns: `6 * numHexahedra` slots; the six slots from
   * `6 * FlattenCoord3D(c)` belong to cell `c`, and every slot past the visited cells is null.
   */
  ghost predicate TetsLaidOut(tets: seq<Option<Tet4D>>, dim: Dimension3D, layout: CellLayout) {
    |tets| == 6 * NumHexahedra(dim) && CellsFilled(tets, dim, layout, CellCount(dim)) && EmptyFrom(tets, CellCount(dim))
  }

  /** Writing the cell at interior point `(x, y, z)` extends the filled cells by one. */
  lemma CellStep(tets: seq<Option<Tet4D>>, x: int, y: int, z: int, dim: Dimension3D, layout: CellLayout)
    requires 0 < x < dim.x && 0 < y < dim.y && 0 < z < dim.z
    requires |tets| == 6 * NumHexahedra(dim)
    requires CellsFilled(tets, dim, layout, CellsBefore(x, y, z, dim))
    requires EmptyFrom(tets, CellsBefore(x, y, z, dim))
    ensures 0 <= 6 * CellsBefore(x, y, z, dim) && 6 * CellsBefore(x, y, z, dim) + 6 <= |tets|
    ensures var k := CellsBefore(x, y, z, dim);
            var tets' := tets[..6 * k] + CellSlots(layout, CellVertices(x, y, z, dim)) + tets[6 * k + 6..];
            CellsFilled(tets', dim, layout, k + 1) && EmptyFrom(tets', k + 1)
  {
    var k := CellsBefore(x, y, z, dim);
    var cd := CellDimension(dim);
    CellsBeforeIsCellIndex(x, y, z, dim);
    var slots := CellSlots(layout, CellVertices(x, y, z, dim));
    var tets' := tets[..6 * k] + slots + tets[6 * k + 6..];
    assert |tets'| == |tets|;
    forall cx, cy, cz | InLattice(cx, cy, cz, cd) && 0 <= FlattenCoord3D(cx, cy, cz, cd) < k + 1
      ensures 6 * FlattenCoord3D(cx, cy, cz, cd) + 6 <= |tets'|
      ensures tets'[6 * FlattenCoord3D(cx, cy, cz, cd)..6 * FlattenCoord3D(cx, cy, cz, cd) + 6] ==
              SlotsOfCell(layout, cx, cy, cz, dim)
    {
      var i := FlattenCoord3D(cx, cy, cz, cd);
      if i == k {
        FlattenInjective(cx, cy, cz, x - 1, y - 1, z - 1, cd);
        assert tets'[6 * k..6 * k + 6] == slots;
      } else {
        assert tets'[6 * i..6 * i + 6] == tets[6 * i..6 * i + 6];
      }
    }
    forall s | 0 <= s < |tets'| && s >= 6 * (k + 1)
      ensures tets'[s] == None
    {
      assert tets'[s] == tets[s];
    }
  }

  /** Two writes at `6k` and `6k + 1` over four null slots lay out the code's six slots. */
  lemma AsWrittenSplice(tets: seq<Option<Tet4D>>, k: int, v: seq<int>)
    requires |v| == 8 && 0 <= 6 * k && 6 * k + 6 <= |tets|
    requires EmptyFrom(tets, k)
    ensures tets[6 * k := Some(Tet4D(v[0], v[4], v[6], v[2]))][6 * k + 1 := Some(Tet4D(v[1], v[3], v[7], v[6]))] ==
            tets[..6 * k] + CellSlots(AsWritten, v) + tets[6 * k + 6..]
  {
    var lhs := tets[6 * k := Some(Tet4D(v[0], v[4], v[6], v[2]))][6 * k + 1 := Some(Tet4D(v[1], v[3], v[7], v[6]))];
    var rhs := tets[..6 * k] + CellSlots(AsWritten, v) + tets[6 * k + 6..];
    forall s | 0 <= s < |tets|
      ensures lhs[s] == rhs[s]
    {
      if 6 * k <= s < 6 * k + 6 {
        assert rhs[s] == CellSlots(AsWritten, v)[s - 6 * k];
      }
    }
  }

  /**
   * The six writes the code makes for one cell, given its corner table: the first at `tetIdx`,
   * the other five all at `tetIdx + 1`, so only the last of those survives.
   */
  method WriteCellAsWritten(tetrahedra: array<Option<Tet4D>>, tetIdx: int, vertices: seq<int>)
    requires |vertices| == 8 && 0 <= tetIdx && tetIdx + 1 < tetrahedra.Length
    modifies tetrahedra
    ensures tetrahedra[..] == old(tetrahedra[..])
      [tetIdx := Some(Tet4D(vertices[0], vertices[4], vertices[6], vertices[2]))]
      [tetIdx + 1 := Some(Tet4D(vertices[1], vertices[3], vertices[7], vertices[6]))]
  {
    tetrahedra[tetIdx] := Some(Tet4D(vertices[0], vertices[4], vertices[6], vertices[2]));
    tetrahedra[tetIdx + 1] := Some(Tet4D(vertices[0], vertices[2], vertices[6], vertices[1]));
    tetrahedra[tetIdx + 1] := Some(Tet4D(vertices[2], vertices[3], vertices[1], vertices[6]));
    tetrahedra[tetIdx + 1] := Some(Tet4D(vertices[4], vertices[5], vertices[6], vertices[1]));
    tetrahedra[tetIdx + 1] := Some(Tet4D(vertices[1], vertices[7], vertices[5], vertices[6]));
    tetrahedra[tetIdx + 1] := Some(Tet4D(vertices[1], vertices[3], vertices[7], vertices[6]));
  }

  /** The intended writes: the six tetrahedra around the diagonal `v1`-`v6` in slots `tetIdx .. tetIdx + 5`. */
  method WriteCellCorrected(tetrahedra: array<Option<Tet4D>>, tetIdx: int, vertices: seq<int>)
    requires |vertices| == 8 && 0 <= tetIdx && tetIdx + 6 <= tetrahedra.Length
    modifies tetrahedra
    ensures tetrahedra[..] == old(tetrahedra[..])[..tetIdx] + CellSlots(Corrected, vertices) + old(tetrahedra[..])[tetIdx + 6..]
  {
    ghost var before := tetrahedra[..];
    tetrahedra[tetIdx] := Some(Tet4D(vertices[0], vertices[4], vertices[6], vertices[1]));
    tetrahedra[tetIdx + 1] := Some(Tet4D(vertices[0], vertices[2], vertices[6], vertices[1]));
    tetrahedra[tetIdx + 2] := Some(Tet4D(vertices[2], vertices[3], vertices[1], vertices[6]));
    tetrahedra[tetIdx + 3] := Some(Tet4D(vertices[4], vertices[5], vertices[6], vertices[1]));
    tetrahedra[tetIdx + 4] := Some(Tet4D(vertices[1], vertices[7], vertices[5], vertices[6]));
    tetrahedra[tetIdx + 5] := Some(Tet4D(vertices[1], vertices[3], vertices[7], vertices[6]));
    ghost var after := before[..tetIdx] + CellSlots(Corrected, vertices) + before[tetIdx + 6..];
    forall s | 0 <= s < tetrahedra.Length
      ensures tetrahedra[s] == after[s]
    {
      if tetIdx <= s < tetIdx + 6 {
        assert after[s] == CellSlots(Corrected, vertices)[s - tetIdx];
      }
    }
  }

  /** The writes of one cell under `layout`: slots `6k .. 6k+5` receive the cell's slot contents. */
  method WriteCell(tetrahedra: array<Option<Tet4D>>, ghost k: int, tetIdx: int, vertices: seq<int>, layout: CellLayout)
    requires |vertices| == 8 && tetIdx == 6 * k && 0 <= tetIdx && tetIdx + 6 <= tetrahedra.Length
    requires EmptyFrom(tetrahedra[..], k)
    modifies tetrahedra
    ensures tetrahedra[..] == old(tetrahedra[..])[..tetIdx] + CellSlots(layout, vertices) + old(tetrahedra[..])[tetIdx + 6..]
  {
    match layout {
      case AsWritten =>
        AsWrittenSplice(tetrahedra[..], k, vertices);
        WriteCellAsWritten(tetrahedra, tetIdx, vertices);
      case Corrected =>
        WriteCellCorrected(tetrahedra, tetIdx, vertices);
    }
  }

  /**
   * The body of the innermost loop at lattice point `(x, y, z)`: copy the point to the flat arrays,
   * and when it is the greatest corner of a cell write that cell's tetrahedra and advance `tetIdx` by 6.
   */
  method VisitLatticePoint(hexMesh: HexMesh4D, dim: Dimension3D, meshVertices: array<Vec4>, meshNormals: array<Vec4>,
                           tetrahedra: array<Option<Tet4D>>, tetIdx: int, x: int, y: int, z: int, layout: CellLayout)
    returns (nextIdx: int)
    requires hexMesh.Valid() && dim == hexMesh.GetDimension() && InLattice(x, y, z, dim)
    requires meshVertices != meshNormals
    requires tetrahedra.Length == 6 * NumHexahedra(dim)
    requires tetIdx == 6 * CellsBefore(x, y, z, dim)
    requires PointsCopied(meshVertices[..], meshNormals[..], hexMesh, FlattenCoord3D(x, y, z, dim))
    requires CellsFilled(tetrahedra[..], dim, layout, CellsBefore(x, y, z, dim))
    requires EmptyFrom(tetrahedra[..], CellsBefore(x, y, z, dim))
    modifies meshVertices, meshNormals, tetrahedra
    ensures nextIdx == 6 * CellsBefore(x, y, z + 1, dim)
    ensures PointsCopied(meshVertices[..], meshNormals[..], hexMesh, FlattenCoord3D(x, y, z + 1, dim))
    ensures CellsFilled(tetrahedra[..], dim, layout, CellsBefore(x, y, z + 1, dim))
    ensures EmptyFrom(tetrahedra[..], CellsBefore(x, y, z + 1, dim))
  {
    ghost var tetsAtStart := tetrahedra[..];
    CopyPointStep(meshVertices[..], meshNormals[..], hexMesh, x, y, z);
    meshVertices[FlattenCoord3D(x, y, z, dim)] := hexMesh.vertices[x, y, z];
    meshNormals[FlattenCoord3D(x, y, z, dim)] := hexMesh.normals[x, y, z];
    assert tetrahedra[..] == tetsAtStart;
    FlattenStepZ(x, y, z, dim);
    ghost var k := CellsBefore(x, y, z, dim);
    ghost var k' := CellsBefore(x, y, z + 1, dim);
    CellsStepZ(x, y, z, dim);
    nextIdx := tetIdx;
    if x > 0 && y > 0 && z > 0 {
      var vertices := CellVertices(x, y, z, dim);
      CellStep(tetsAtStart, x, y, z, dim, layout);
      WriteCell(tetrahedra, k, tetIdx, vertices, layout);
      nextIdx := tetIdx + 6;
    }
  }

  /**
   * `Generate6TetMeshFromHexMesh`: the lattice is copied to flat arrays and each cell's tetrahedra
   * are written at `6 * FlattenCoord3D(cell)`, under the code's layout or the corrected one.
   */
  method Generate6TetMeshFromHexMesh(hexMesh: HexMesh4D, layout: CellLayout) returns (r: Result<TetMesh4D, MeshError>)
    requires hexMesh.Valid()
    ensures r.Failure? <==> NumHexahedra(hexMesh.GetDimension()) < 0
    ensures r.Failure? ==> r.error == NegativeArraySize
    ensures r.Success? ==> LatticeCopied(hexMesh, r.value.points, r.value.normals)
    ensures r.Success? ==> TetsLaidOut(r.value.tetrahedra, hexMesh.GetDimension(), layout)
  {
    var hexMeshDimension := hexMesh.GetDimension();
    var numHexahedra := (hexMeshDimension.x - 1) * (hexMeshDimension.y - 1) * (hexMeshDimension.z - 1);
    var tetPerHex := 6;
    if numHexahedra * tetPerHex < 0 {
      return Failure(NegativeArraySize);
    }
    var meshVertices := new Vec4[hexMeshDimension.x * hexMeshDimension.y * hexMeshDimension.z];
    var meshNormals := new Vec4[hexMeshDimension.x * hexMeshDimension.y * hexMeshDimension.z];
    var tetrahedra := new Option<Tet4D>[numHexahedra * tetPerHex](_ => None);
    var tetIdx := 0;
    ghost var d := hexMeshDimension;
    assert tetrahedra.Length == 6 * NumHexahedra(d);

    for x := 0 to hexMeshDimension.x
      invariant tetIdx == 6 * CellsBefore(x, 0, 0, d)
      invariant PointsCopied(meshVertices[..], meshNormals[..], hexMesh, FlattenCoord3D(x, 0, 0, d))
      invariant CellsFilled(tetrahedra[..], d, layout, CellsBefore(x, 0, 0, d))
      invariant EmptyFrom(tetrahedra[..], CellsBefore(x, 0, 0, d))
    {
      for y := 0 to hexMeshDimension.y
        invariant tetIdx == 6 * CellsBefore(x, y, 0, d)
        invariant PointsCopied(meshVertices[..], meshNormals[..], hexMesh, FlattenCoord3D(x, y, 0, d))
        invariant CellsFilled(tetrahedra[..], d, layout, CellsBefore(x, y, 0, d))
        invariant EmptyFrom(tetrahedra[..], CellsBefore(x, y, 0, d))
      {
        for z := 0 to hexMeshDimension.z
          invariant tetIdx == 6 * CellsBefore(x, y, z, d)
          invariant PointsCopied(meshVertices[..], meshNormals[..], hexMesh, FlattenCoord3D(x, y, z, d))
          invariant CellsFilled(tetrahedra[..], d, layout, CellsBefore(x, y, z, d))
          invariant EmptyFrom(tetrahedra[..], CellsBefore(x, y, z, d))
        {
          tetIdx := VisitLatticePoint(hexMesh, hexMeshDimension, meshVertices, meshNormals, tetrahedra, tetIdx, x, y, z, layout);
        }
        FlattenStepY(x, y, d);
        CellsStepY(x, y, d);
      }
      FlattenStepX(x, d);
      CellsStepX(x, d);
    }
    LoopEnd(d);
    PointsCopiedAll(meshVertices[..], meshNormals[..], hexMesh);
    return Success(TetMesh4D(meshVertices[..], meshNormals[..], tetrahedra[..]));
  }

  // ---------------------------------------------------------------------
  // What the tetrahedron array holds
  // ---------------------------------------------------------------------

  /** The cell that slot `s` belongs to: cell number `s / 6` of the cell lattice. */
  function SlotCell(s: int, dim: Dimension3D): (int, int, int)
    requires dim.y > 1 && dim.z > 1
  {
    Unflatten(s / 6, CellDimension(dim))
  }

  /**
   * Slot `s` of a laid-out array: below `6 * CellCount` it is slot `s % 6` of cell `s / 6`
   * (and that cell lies in the cell lattice); from there on it is null.
   */
  lemma SlotContents(tets: seq<Option<Tet4D>>, dim: Dimension3D, layout: CellLayout, s: int)
    requires TetsLaidOut(tets, dim, layout) && 0 <= s < |tets|
    ensures s >= 6 * CellCount(dim) ==> tets[s] == None
    ensures s < 6 * CellCount(dim) ==>
              dim.x > 1 && dim.y > 1 && dim.z > 1 &&
              var (cx, cy, cz) := SlotCell(s, dim);
              InLattice(cx, cy, cz, CellDimension(dim)) && tets[s] == SlotsOfCell(layout, cx, cy, cz, dim)[s % 6]
  {
    if s < 6 * CellCount(dim) {
      var cd := CellDimension(dim);
      assert Max0(dim.x - 1) > 0 && Max0(dim.y - 1) > 0 && Max0(dim.z - 1) > 0;
      assert LatticeSize(cd) == CellCount(dim);
      var i := s / 6;
      FlattenUnflatten(i, cd);
      var (cx, cy, cz) := Unflatten(i, cd);
      assert FlattenCoord3D(cx, cy, cz, cd) == i;
      assert tets[6 * i..6 * i + 6] == SlotsOfCell(layout, cx, cy, cz, dim);
      assert tets[s] == tets[6 * i..6 * i + 6][s % 6];
    }
  }

  /** The corners of every tetrahedron in a pattern are four different corner numbers. */
  lemma PatternDistinct(layout: CellLayout, j: int)
    requires 0 <= j < |CornerPattern(layout)|
    ensures var ct := CornerPattern(layout)[j];
            ct.a != ct.b && ct.a != ct.c && ct.a != ct.d && ct.b != ct.c && ct.b != ct.d && ct.c != ct.d
  {
  }

  /** A pattern tetrahedron of an interior cell is valid over the lattice. */
  lemma TetOfCornersValid(ct: CornerTet, x: int, y: int, z: int, dim: Dimension3D)
    requires 0 < x < dim.x && 0 < y < dim.y && 0 < z < dim.z
    requires ct.a < 8 && ct.b < 8 && ct.c < 8 && ct.d < 8
    requires ct.a != ct.b && ct.a != ct.c && ct.a != ct.d && ct.b != ct.c && ct.b != ct.d && ct.c != ct.d
    ensures ValidTet(TetOfCorners(ct, CellVertices(x, y, z, dim)), LatticeSize(dim))
  {
    CellCornersValid(x, y, z, dim);
    CornersDistinct(x, y, z, ct.a, ct.b, dim);
    CornersDistinct(x, y, z, ct.a, ct.c, dim);
    CornersDistinct(x, y, z, ct.a, ct.d, dim);
    CornersDistinct(x, y, z, ct.b, ct.c, dim);
    CornersDistinct(x, y, z, ct.b, ct.d, dim);
    CornersDistinct(x, y, z, ct.c, ct.d, dim);
  }

  /** Every tetrahedron in a laid-out array has four distinct corners among the lattice's points. */
  lemma LaidOutTetsValid(tets: seq<Option<Tet4D>>, dim: Dimension3D, layout: CellLayout, s: int)
    requires TetsLaidOut(tets, dim, layout) && 0 <= s < |tets| && tets[s].Some?
    ensures ValidTet(tets[s].value, LatticeSize(dim))
  {
    SlotContents(tets, dim, layout, s);
    var (cx, cy, cz) := SlotCell(s, dim);
    var j := s % 6;
    var p := CornerPattern(layout);
    assert SlotsOfCell(layout, cx, cy, cz, dim)[j] == if j < |p| then Some(TetOfCorners(p[j], CellVertices(cx + 1, cy + 1, cz + 1, dim))) else None;
    PatternDistinct(layout, j);
    TetOfCornersValid(p[j], cx + 1, cy + 1, cz + 1, dim);
  }

  /**
   * Under the code's layout a slot holds a tetrahedron exactly when it is one of the first two
   * slots of a visited cell: the other four slots of every cell stay null.
   */
  lemma AsWrittenOccupancy(tets: seq<Option<Tet4D>>, dim: Dimension3D, s: int)
    requires TetsLaidOut(tets, dim, AsWritten) && 0 <= s < |tets|
    ensures tets[s].Some? <==> s < 6 * CellCount(dim) && s % 6 < 2
  {
    SlotContents(tets, dim, AsWritten, s);
  }

  /** Under the corrected layout every slot of every visited cell holds a tetrahedron. */
  lemma CorrectedOccupancy(tets: seq<Option<Tet4D>>, dim: Dimension3D, s: int)
    requires TetsLaidOut(tets, dim, Corrected) && 0 <= s < |tets|
    ensures tets[s].Some? <==> s < 6 * CellCount(dim)
  {
    SlotContents(tets, dim, Corrected, s);
  }

  /** With no empty axis the visited cells are exactly `numHexahedra`: the array has no slot beyond them. */
  lemma LaidOutLengthMatches(tets: seq<Option<Tet4D>>, dim: Dimension3D, layout: CellLayout)
    requires TetsLaidOut(tets, dim, layout) && dim.x >= 1 && dim.y >= 1 && dim.z >= 1
    ensures |tets| == 6 * CellCount(dim)
  {
    assert Max0(dim.x - 1) == dim.x - 1 && Max0(dim.y - 1) == dim.y - 1 && Max0(dim.z - 1) == dim.z - 1;
  }

  /**
   * A lattice with fewer than two points along some axis has no cell: every slot stays null,
   * even when two empty axes make `numHexahedra` positive and the array non-empty.
   */
  lemma ThinLatticeHasNoTets(tets: seq<Option<Tet4D>>, dim: Dimension3D, layout: CellLayout, s: int)
    requires TetsLaidOut(tets, dim, layout) && (dim.x < 2 || dim.y < 2 || dim.z < 2) && 0 <= s < |tets|
    ensures tets[s] == None
  {
    assert CellCount(dim) == 0;
  }

  /** A vector whose entries are -1, 0 or 1: every difference of two cube corners is one. */
  predicate Unit3(u: (int, int, int)) {
    -1 <= u.0 <= 1 && -1 <= u.1 <= 1 && -1 <= u.2 <= 1
  }

  /** `s * n` for a sign `s` in {-1, 0, 1}, written without multiplication. */
  function SignMul(s: int, n: int): (r: int)
    requires -1 <= s <= 1
    ensures r == s * n
  {
    if s == 0 then 0 else if s == 1 then n else -n
  }

  /** The 3x3 determinant with rows `u`, `v`, `w` (cofactor expansion along `u`). */
  function Det3(u: (int, int, int), v: (int, int, int), w: (int, int, int)): int
    requires Unit3(u) && Unit3(v) && Unit3(w)
  {
    SignMul(u.0, SignMul(v.1, w.2) - SignMul(v.2, w.1)) -
    SignMul(u.1, SignMul(v.0, w.2) - SignMul(v.2, w.0)) +
    SignMul(u.2, SignMul(v.0, w.1) - SignMul(v.1, w.0))
  }

  function Sub3(u: (int, int, int), v: (int, int, int)): (int, int, int) {
    (u.0 - v.0, u.1 - v.1, u.2 - v.2)
  }

  /** Corner offsets are 0/1 vectors. */
  lemma OffsetDifferenceUnit(k: nat, k': nat)
    requires k < 8 && k' < 8
    ensures Unit3(Sub3(CornerOffset(k), CornerOffset(k')))
  {
  }

  /**
   * Six times the signed volume of a pattern tetrahedron, measured on the cell's lattice offsets
   * (the unit cube of the parameter lattice).
   */
  function CornerVolume6(ct: CornerTet): int
    requires ct.a < 8 && ct.b < 8 && ct.c < 8 && ct.d < 8
  {
    var o := CornerOffset(ct.a);
    OffsetDifferenceUnit(ct.b, ct.a);
    OffsetDifferenceUnit(ct.c, ct.a);
    OffsetDifferenceUnit(ct.d, ct.a);
    Det3(Sub3(CornerOffset(ct.b), o), Sub3(CornerOffset(ct.c), o), Sub3(CornerOffset(ct.d), o))
  }

  function Abs(n: int): nat { if n < 0 then -n else n }

  /**
   * The first tetrahedron the code writes, `{v0, v4, v6, v2}`, lies in one face of the cell:
   * its four corners share the z offset, so its volume is zero.
   */
  lemma AsWrittenFirstTetFlat()
    ensures var ct := CornerPattern(AsWritten)[0];
            CornerOffset(ct.a).2 == CornerOffset(ct.b).2 == CornerOffset(ct.c).2 == CornerOffset(ct.d).2
    ensures CornerVolume6(CornerPattern(AsWritten)[0]) == 0
  {
  }

  /** Six times the signed volume of corrected tetrahedron `j`; the second one is wound the other way. */
  lemma CorrectedTetVolume(j: nat)
    requires j < 6
    ensures CornerVolume6(CornerPattern(Corrected)[j]) == if j == 1 then -1 else 1
  {
    match j {
      case 0 =>
        assert CornerPattern(Corrected)[0] == CornerTet(0, 4, 6, 1);
        assert CornerVolume6(CornerTet(0, 4, 6, 1)) == 1;
      case 1 =>
        assert CornerPattern(Corrected)[1] == CornerTet(0, 2, 6, 1);
        assert CornerVolume6(CornerTet(0, 2, 6, 1)) == -1;
      case 2 =>
        assert CornerPattern(Corrected)[2] == CornerTet(2, 3, 1, 6);
        assert CornerVolume6(CornerTet(2, 3, 1, 6)) == 1;
      case 3 =>
        assert CornerPattern(Corrected)[3] == CornerTet(4, 5, 6, 1);
        assert CornerVolume6(CornerTet(4, 5, 6, 1)) == 1;
      case 4 =>
        assert CornerPattern(Corrected)[4] == CornerTet(1, 7, 5, 6);
        assert CornerVolume6(CornerTet(1, 7, 5, 6)) == 1;
      case 5 =>
        assert CornerPattern(Corrected)[5] == CornerTet(1, 3, 7, 6);
        assert CornerVolume6(CornerTet(1, 3, 7, 6)) == 1;
    }
  }

  /** Each corrected tetrahedron has volume 1/6, and together they have the unit cell's volume. */
  lemma CorrectedTetsSolid()
    ensures forall j :: 0 <= j < 6 ==> Abs(CornerVolume6(CornerPattern(Corrected)[j])) == 1
    ensures var p := CornerPattern(Corrected);
            Abs(CornerVolume6(p[0])) + Abs(CornerVolume6(p[1])) + Abs(CornerVolume6(p[2])) +
            Abs(CornerVolume6(p[3])) + Abs(CornerVolume6(p[4])) + Abs(CornerVolume6(p[5])) == 6
  {
    forall j | 0 <= j < 6
      ensures Abs(CornerVolume6(CornerPattern(Corrected)[j])) == 1
    {
      CorrectedTetVolume(j);
    }
  }

  /**
   * The corrected six tetrahedra tile the cell: each is solid (volume 1/6), each is the tetrahedron
   * of a monotone edge path from corner 1 to corner 6, every such path (one per order of the three
   * axes) has its tetrahedron in the list, and no two are the same, so their volumes add up to the
   * unit cell's. These are the six simplices of the Kuhn triangulation around the diagonal 1-6.
   */
  lemma CorrectedTetsFillCell()
    ensures forall j :: 0 <= j < 6 ==> Abs(CornerVolume6(CornerPattern(Corrected)[j])) == 1
    ensures var p := CornerPattern(Corrected);
            Abs(CornerVolume6(p[0])) + Abs(CornerVolume6(p[1])) + Abs(CornerVolume6(p[2])) +
            Abs(CornerVolume6(p[3])) + Abs(CornerVolume6(p[4])) + Abs(CornerVolume6(p[5])) == 6
    ensures forall j :: 0 <= j < 6 ==> IsPathTet(CornerPattern(Corrected)[j])
    ensures forall a: nat, b: nat :: a < 3 && b < 3 && a != b ==> IsCorrectedTet(PathTet(a, b))
    ensures forall j, j' :: 0 <= j < j' < 6 ==> Corners(CornerPattern(Corrected)[j]) != Corners(CornerPattern(Corrected)[j'])
  {
    CorrectedTetsSolid();
    CorrectedTetsArePaths();
    PathsAreCorrectedTets();
    CorrectedTetsAllDistinct();
  }

  /** The corners of a pattern tetrahedron, as a set of corner numbers. */
  function Corners(ct: CornerTet): set<nat> {
    {ct.a, ct.b, ct.c, ct.d}
  }

  /** Corner `k` moved across the cell along `axis` (0 for x, 1 for y, 2 for z): one bit of `k` flipped. */
  function FlipCorner(k: nat, axis: nat): (r: nat)
    requires k < 8 && axis < 3
  {
    match axis
    case 0 => if k / 4 == 0 then k + 4 else k - 4
    case 1 => if (k / 2) % 2 == 0 then k + 2 else k - 2
    case _ => if k % 2 == 0 then k + 1 else k - 1
  }

  /** `FlipCorner` walks one edge of the cell: it changes the offset along `axis` and no other. */
  lemma FlipCornerIsEdge(k: nat, axis: nat)
    requires k < 8 && axis < 3
    ensures FlipCorner(k, axis) < 8
    ensures var o, o' := CornerOffset(k), CornerOffset(FlipCorner(k, axis));
            (if axis == 0 then o'.0 == 1 - o.0 else o'.0 == o.0) &&
            (if axis == 1 then o'.1 == 1 - o.1 else o'.1 == o.1) &&
            (if axis == 2 then o'.2 == 1 - o.2 else o'.2 == o.2)
  {
  }

  /**
   * The tetrahedron of the monotone edge path from corner 1 to corner 6 that crosses the cell along
   * axis `a`, then `b`, then the remaining axis: the path's four corners.
   */
  function PathTet(a: nat, b: nat): set<nat>
    requires a < 3 && b < 3 && a != b
  {
    FlipCornerIsEdge(1, a);
    var p1 := FlipCorner(1, a);
    FlipCornerIsEdge(p1, b);
    var p2 := FlipCorner(p1, b);
    FlipCornerIsEdge(p2, 3 - a - b);
    {1, p1, p2, FlipCorner(p2, 3 - a - b)}
  }

  /** Corners 1 and 6 are opposite: every path of three edges crossing the three axes joins them. */
  lemma PathJoinsDiagonal(a: nat, b: nat)
    requires a < 3 && b < 3 && a != b
    ensures 1 in PathTet(a, b) && 6 in PathTet(a, b) && |PathTet(a, b)| == 4
  {
    if a == 0 && b == 1 {
      assert PathTet(a, b) == {1, 5, 7, 6};
    } else if a == 0 {
      assert PathTet(a, b) == {1, 5, 4, 6};
    } else if a == 1 && b == 0 {
      assert PathTet(a, b) == {1, 3, 7, 6};
    } else if a == 1 {
      assert PathTet(a, b) == {1, 3, 2, 6};
    } else if b == 0 {
      assert PathTet(a, b) == {1, 0, 4, 6};
    } else {
      assert PathTet(a, b) == {1, 0, 2, 6};
    }
  }

  /** `ct` has the corners of some monotone path from corner 1 to corner 6. */
  predicate IsPathTet(ct: CornerTet) {
    exists a: nat, b: nat :: a < 3 && b < 3 && a != b && Corners(ct) == PathTet(a, b)
  }

  /** Some corrected tetrahedron has exactly the corners `cs`. */
  predicate IsCorrectedTet(cs: set<nat>) {
    exists j :: 0 <= j < 6 && Corners(CornerPattern(Corrected)[j]) == cs
  }

  /** Corrected tetrahedron `j` is the tetrahedron of a monotone path, with axis order `(a, b)`. */
  lemma CorrectedTetIsPath(j: nat) returns (a: nat, b: nat)
    requires j < 6
    ensures a < 3 && b < 3 && a != b && Corners(CornerPattern(Corrected)[j]) == PathTet(a, b)
  {
    match j
    case 0 => a, b := 2, 0; assert PathTet(a, b) == {1, 0, 4, 6};
    case 1 => a, b := 2, 1; assert PathTet(a, b) == {1, 0, 2, 6};
    case 2 => a, b := 1, 2; assert PathTet(a, b) == {1, 3, 2, 6};
    case 3 => a, b := 0, 2; assert PathTet(a, b) == {1, 5, 4, 6};
    case 4 => a, b := 0, 1; assert PathTet(a, b) == {1, 5, 7, 6};
    case 5 => a, b := 1, 0; assert PathTet(a, b) == {1, 3, 7, 6};
  }

  /** Every monotone path's tetrahedron is among the corrected ones. */
  lemma PathIsCorrectedTet(a: nat, b: nat) returns (j: nat)
    requires a < 3 && b < 3 && a != b
    ensures j < 6 && Corners(CornerPattern(Corrected)[j]) == PathTet(a, b)
  {
    if a == 0 && b == 1 {
      j := 4; assert PathTet(a, b) == {1, 5, 7, 6};
    } else if a == 0 {
      j := 3; assert PathTet(a, b) == {1, 5, 4, 6};
    } else if a == 1 && b == 0 {
      j := 5; assert PathTet(a, b) == {1, 3, 7, 6};
    } else if a == 1 {
      j := 2; assert PathTet(a, b) == {1, 3, 2, 6};
    } else if b == 0 {
      j := 0; assert PathTet(a, b) == {1, 0, 4, 6};
    } else {
      j := 1; assert PathTet(a, b) == {1, 0, 2, 6};
    }
  }

  /** Each corrected tetrahedron is a monotone path's tetrahedron. */
  lemma CorrectedTetsArePaths()
    ensures forall j :: 0 <= j < 6 ==> IsPathTet(CornerPattern(Corrected)[j])
  {
    forall j | 0 <= j < 6
      ensures IsPathTet(CornerPattern(Corrected)[j])
    {
      var a, b := CorrectedTetIsPath(j);
    }
  }

  /** Each of the six monotone paths has its tetrahedron among the corrected ones. */
  lemma PathsAreCorrectedTets()
    ensures forall a: nat, b: nat :: a < 3 && b < 3 && a != b ==> IsCorrectedTet(PathTet(a, b))
  {
    forall a: nat, b: nat | a < 3 && b < 3 && a != b
      ensures IsCorrectedTet(PathTet(a, b))
    {
      var j := PathIsCorrectedTet(a, b);
    }
  }

  /** The six corrected tetrahedra have pairwise different corner sets. */
  lemma CorrectedTetsAllDistinct()
    ensures forall j, j' :: 0 <= j < j' < 6 ==> Corners(CornerPattern(Corrected)[j]) != Corners(CornerPattern(Corrected)[j'])
  {
    forall j, j' | 0 <= j < j' < 6
      ensures Corners(CornerPattern(Corrected)[j]) != Corners(CornerPattern(Corrected)[j'])
    {
      CorrectedTetsDistinct(j, j');
    }
  }

  /** No two corrected tetrahedra have the same corners. */
  lemma CorrectedTetsDistinct(j: nat, j': nat)
    requires j < 6 && j' < 6 && j != j'
    ensures Corners(CornerPattern(Corrected)[j]) != Corners(CornerPattern(Corrected)[j'])
  {
    var p := CornerPattern(Corrected);
    // Apart from the shared diagonal 1-6, tetrahedron `j` holds the corners `{x, y}` below.
    var others := [(0, 4), (0, 2), (2, 3), (4, 5), (5, 7), (3, 7)];
    assert Corners(p[j]) - {1, 6} == {others[j].0, others[j].1};
    assert Corners(p[j']) - {1, 6} == {others[j'].0, others[j'].1};
  }

  /** Every corrected tetrahedron shares the diagonal `v1`-`v6` of its cell. */
  lemma CorrectedTetsShareDiagonal()
    ensures forall j :: 0 <= j < 6 ==>
              var ct := CornerPattern(Corrected)[j];
              1 in [ct.a, ct.b, ct.c, ct.d] && 6 in [ct.a, ct.b, ct.c, ct.d]
  {
  }
}
