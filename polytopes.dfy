/**
 * `PolytopeGenerator`: tetrahedral meshes of the regular 4D polytopes built from index lists.
 * The hypercube comes from `HypercubeGenerator`, which is not part of this model; it enters as
 * a parameter `cube`.
 */
module Polytopes {
  import opened Wrappers
  import opened Geometry

  /** `TetMesh4D.VertexData`: a position and a normal. */
  datatype VertexData = VertexData(position: Vec4, normal: Vec4)

  /** `TetMesh_raw`: a vertex list and a tetrahedron list indexing it. */
  datatype TetMeshRaw = TetMeshRaw(vertices: seq<VertexData>, tets: seq<Tet4D>)

  /** Every tetrahedron names four distinct vertices of the mesh. */
  predicate ValidMesh(m: TetMeshRaw) {
    forall i :: 0 <= i < |m.tets| ==> ValidTet(m.tets[i], |m.vertices|)
  }

  /** The `Polytope` enum; only some of them are implemented. */
  datatype Polytope = Cell5 | Cell8 | Cell16 | Cell24 | Cell120 | Cell600

  /** The single-precision constant `1.618033988749894f`, taken as the real it is written as. */
  const GoldenRatio: real := 1.618033988749894

  /** The first `n` axis points at distance `value`, with zero normals: `pos = 0; pos[j] = value`. */
  function AxisVertices(n: nat, value: real): (vs: seq<VertexData>)
    requires n <= 4
    ensures |vs| == n
    ensures forall j :: 0 <= j < n ==> vs[j] == VertexData(Axis(j, value), Zero4)
  {
    if n == 0 then [] else AxisVertices(n - 1, value) + [VertexData(Axis(n - 1, value), Zero4)]
  }

  // ---------------------------------------------------------------------
  // The 5-cell
  // ---------------------------------------------------------------------

  /** The 5-cell's vertices: 2 on each axis, then `(phi, phi, phi, phi)`; the code's `phi` is `GoldenRatio`. */
  function FiveCellVertices(phi: real): seq<VertexData> {
    AxisVertices(4, 2.0) + [VertexData(Vec4(phi, phi, phi, phi), Zero4)]
  }

  /**
   * The 5-cell is regular when `phi` is the exact golden ratio (`phi * phi == phi + 1`): each
   * pair of its five vertices is at squared distance 8. The constant in the code is a decimal
   * approximation of that root.
   */
  lemma FiveCellEquilateral(phi: real)
    requires phi * phi == phi + 1.0
    ensures forall a, b :: 0 <= a < b < 5 ==>
              SqDist(FiveCellVertices(phi)[a].position, FiveCellVertices(phi)[b].position) == 8.0
  {
    var vs := FiveCellVertices(phi);
    forall a, b | 0 <= a < b < 5
      ensures SqDist(vs[a].position, vs[b].position) == 8.0
    {
      if b < 4 {
        AxisSqDist(a, b, 2.0, 2.0);
      } else {
        assert vs[a].position == Axis(a, 2.0);
        assert SqDist(Axis(a, 2.0), Vec4(phi, phi, phi, phi)) == (2.0 - phi) * (2.0 - phi) + 3.0 * (phi * phi) by {
          match a {
            case 0 =>
            case 1 =>
            case 2 =>
            case 3 =>
          }
        }
        assert (2.0 - phi) * (2.0 - phi) == 4.0 - 4.0 * phi + phi * phi;
      }
    }
  }

  /*
   * The increasing 4-tuples below `n`, enumerated in the order of the four nested loops.
   * `QuadsL(i, j, k, l)` holds those with prefix `(i, j, k)` and last entry in `(k, l)`;
   * `QuadsK(i, j, k, n)` those with prefix `(i, j)` and third entry in `(j, k)`;
   * `QuadsJ(i, j, n)` those with first entry `i` and second in `(i, j)`;
   * `QuadsI(i, n)` those with first entry below `i`.
   */

  function QuadsL(i: int, j: int, k: int, l: int): seq<Tet4D>
    decreases l - k
  {
    if l <= k + 1 then [] else QuadsL(i, j, k, l - 1) + [Tet4D(i, j, k, l - 1)]
  }

  function QuadsK(i: int, j: int, k: int, n: int): seq<Tet4D>
    decreases k - j
  {
    if k <= j + 1 then [] else QuadsK(i, j, k - 1, n) + QuadsL(i, j, k - 1, n)
  }

  function QuadsJ(i: int, j: int, n: int): seq<Tet4D>
    decreases j - i
  {
    if j <= i + 1 then [] else QuadsJ(i, j - 1, n) + QuadsK(i, j - 1, n, n)
  }

  function QuadsI(i: int, n: int): seq<Tet4D>
    decreases i
  {
    if i <= 0 then [] else QuadsI(i - 1, n) + QuadsJ(i - 1, n, n)
  }

  /** All increasing 4-subsets of `{0, .., n-1}`, in lexicographic order. */
  function Quads(n: nat): seq<Tet4D> {
    QuadsI(n, n)
  }

  /** Strictly increasing corners below `n`. */
  predicate Increasing(t: Tet4D, n: int) {
    0 <= t.p0 < t.p1 < t.p2 < t.p3 < n
  }

  /** Membership in a concatenation whose parts have known members. */
  lemma MembersStep(t: Tet4D, whole: seq<Tet4D>, a: seq<Tet4D>, b: seq<Tet4D>, inA: bool, inB: bool)
    requires whole == a + b && (t in a <==> inA) && (t in b <==> inB)
    ensures t in whole <==> inA || inB
  {
  }

  lemma {:induction false} QuadsLMembers(i: int, j: int, k: int, l: int, t: Tet4D)
    ensures t in QuadsL(i, j, k, l) <==> t.p0 == i && t.p1 == j && t.p2 == k && k < t.p3 < l
    decreases l - k
  {
    if l > k + 1 {
      QuadsLMembers(i, j, k, l - 1, t);
      MembersStep(t, QuadsL(i, j, k, l), QuadsL(i, j, k, l - 1), [Tet4D(i, j, k, l - 1)],
        t.p0 == i && t.p1 == j && t.p2 == k && k < t.p3 < l - 1, t == Tet4D(i, j, k, l - 1));
    }
  }

  lemma {:induction false} QuadsKMembers(i: int, j: int, k: int, n: int, t: Tet4D)
    ensures t in QuadsK(i, j, k, n) <==> t.p0 == i && t.p1 == j && j < t.p2 < k && t.p2 < t.p3 < n
    decreases k - j
  {
    if k > j + 1 {
      QuadsKMembers(i, j, k - 1, n, t);
      QuadsLMembers(i, j, k - 1, n, t);
      MembersStep(t, QuadsK(i, j, k, n), QuadsK(i, j, k - 1, n), QuadsL(i, j, k - 1, n),
        t.p0 == i && t.p1 == j && j < t.p2 < k - 1 && t.p2 < t.p3 < n,
        t.p0 == i && t.p1 == j && t.p2 == k - 1 && k - 1 < t.p3 < n);
    }
  }

  lemma {:induction false} QuadsJMembers(i: int, j: int, n: int, t: Tet4D)
    ensures t in QuadsJ(i, j, n) <==> t.p0 == i && i < t.p1 < j && t.p1 < t.p2 < t.p3 < n
    decreases j - i
  {
    if j > i + 1 {
      QuadsJMembers(i, j - 1, n, t);
      QuadsKMembers(i, j - 1, n, n, t);
      MembersStep(t, QuadsJ(i, j, n), QuadsJ(i, j - 1, n), QuadsK(i, j - 1, n, n),
        t.p0 == i && i < t.p1 < j - 1 && t.p1 < t.p2 < t.p3 < n,
        t.p0 == i && t.p1 == j - 1 && j - 1 < t.p2 < n && t.p2 < t.p3 < n);
    }
  }

  lemma {:induction false} QuadsIMembers(i: int, n: int, t: Tet4D)
    ensures t in QuadsI(i, n) <==> 0 <= t.p0 < i && t.p0 < t.p1 < t.p2 < t.p3 < n
    decreases i
  {
    if i > 0 {
      QuadsIMembers(i - 1, n, t);
      QuadsJMembers(i - 1, n, n, t);
      MembersStep(t, QuadsI(i, n), QuadsI(i - 1, n), QuadsJ(i - 1, n, n),
        0 <= t.p0 < i - 1 && t.p0 < t.p1 < t.p2 < t.p3 < n,
        t.p0 == i - 1 && i - 1 < t.p1 < n && t.p1 < t.p2 < t.p3 < n);
    }
  }

  /** The enumeration holds exactly the increasing 4-tuples below `n`. */
  lemma QuadsExactly(n: nat, t: Tet4D)
    ensures t in Quads(n) <==> Increasing(t, n)
  {
    QuadsIMembers(n, n, t);
  }

  /** Lexicographic order on corner lists. */
  predicate LexLess(a: Tet4D, b: Tet4D) {
    a.p0 < b.p0 ||
    (a.p0 == b.p0 && (a.p1 < b.p1 ||
    (a.p1 == b.p1 && (a.p2 < b.p2 ||
    (a.p2 == b.p2 && a.p3 < b.p3)))))
  }

  /** The 5-cell's four-corner lists, in loop order. */
  const FiveCellTets: seq<Tet4D> :=
    [Tet4D(0, 1, 2, 3), Tet4D(0, 1, 2, 4), Tet4D(0, 1, 3, 4), Tet4D(0, 2, 3, 4), Tet4D(1, 2, 3, 4)]

  /** The 5-cell's tetrahedra: the five 4-subsets of `{0, .., 4}`, in this order. */
  lemma FiveCellTetsListed()
    ensures Quads(5) == FiveCellTets
  {
    FiveCellRowZero();
    FiveCellRowsLater();
    assert QuadsI(2, 5) == FiveCellTets;
    assert QuadsI(5, 5) == QuadsI(2, 5);
  }

  /** Tetrahedron `k` of the 5-cell omits vertex `4 - k`, so each vertex is left out of exactly one. */
  lemma FiveCellTetOmits()
    ensures forall k :: 0 <= k < 5 ==> (4 - k) !in FiveCellTets[k].Points()
  {
    forall k | 0 <= k < 5
      ensures (4 - k) !in FiveCellTets[k].Points()
    {
      match k
      case 0 =>
      case 1 =>
      case 2 =>
      case 3 =>
      case _ =>
    }
  }

  /** The 5-cell's tetrahedra come in strictly increasing lexicographic order. */
  lemma FiveCellTetsSorted()
    ensures forall a, b :: 0 <= a < b < 5 ==> LexLess(FiveCellTets[a], FiveCellTets[b])
  {
    forall a, b | 0 <= a < b < 5
      ensures LexLess(FiveCellTets[a], FiveCellTets[b])
    {
      match a
      case 0 =>
      case 1 =>
      case 2 =>
      case _ =>
    }
  }

  /** The loop row of `Quads(5)` for first corner 0: four tetrahedra. */
  lemma FiveCellRowZero()
    ensures QuadsJ(0, 5, 5) == FiveCellTets[..4]
  {
    assert QuadsL(0, 1, 2, 5) == [Tet4D(0, 1, 2, 3), Tet4D(0, 1, 2, 4)];
    assert QuadsL(0, 1, 3, 5) == [Tet4D(0, 1, 3, 4)];
    assert QuadsK(0, 1, 5, 5) == [Tet4D(0, 1, 2, 3), Tet4D(0, 1, 2, 4), Tet4D(0, 1, 3, 4)];
    assert QuadsK(0, 2, 5, 5) == [Tet4D(0, 2, 3, 4)];
    assert QuadsK(0, 3, 5, 5) == [] && QuadsK(0, 4, 5, 5) == [];
    assert QuadsJ(0, 3, 5) == QuadsK(0, 1, 5, 5) + QuadsK(0, 2, 5, 5);
  }

  /** The later loop rows of `Quads(5)`: one tetrahedron with first corner 1, none after. */
  lemma FiveCellRowsLater()
    ensures QuadsJ(1, 5, 5) == [Tet4D(1, 2, 3, 4)]
    ensures QuadsJ(2, 5, 5) == [] && QuadsJ(3, 5, 5) == [] && QuadsJ(4, 5, 5) == []
  {
    assert QuadsK(1, 2, 5, 5) == [Tet4D(1, 2, 3, 4)];
    assert QuadsK(1, 3, 5, 5) == [] && QuadsK(1, 4, 5, 5) == [];
    assert QuadsK(2, 3, 5, 5) == [] && QuadsK(2, 4, 5, 5) == [] && QuadsK(3, 4, 5, 5) == [];
  }

  /** The innermost loop: `t.Add({i, j, k, l})` for `l = k + 1 .. n - 1`. */
  method AddQuadsL(t: seq<Tet4D>, i: int, j: int, k: int, n: int) returns (t': seq<Tet4D>)
    requires k < n
    ensures t' == t + QuadsL(i, j, k, n)
  {
    t' := t;
    for l := k + 1 to n
      invariant t' == t + QuadsL(i, j, k, l)
    {
      t' := t' + [Tet4D(i, j, k, l)];
    }
  }

  /** The loop over `k = j + 1 .. n - 1` and the loop inside it. */
  method AddQuadsK(t: seq<Tet4D>, i: int, j: int, n: int) returns (t': seq<Tet4D>)
    requires j < n
    ensures t' == t + QuadsK(i, j, n, n)
  {
    t' := t;
    for k := j + 1 to n
      invariant t' == t + QuadsK(i, j, k, n)
    {
      t' := AddQuadsL(t', i, j, k, n);
      AppendAssoc(t, QuadsK(i, j, k, n), QuadsL(i, j, k, n));
    }
  }

  /** The loop over `j = i + 1 .. n - 1` and the loops inside it. */
  method AddQuadsJ(t: seq<Tet4D>, i: int, n: int) returns (t': seq<Tet4D>)
    requires i < n
    ensures t' == t + QuadsJ(i, n, n)
  {
    t' := t;
    for j := i + 1 to n
      invariant t' == t + QuadsJ(i, j, n)
    {
      t' := AddQuadsK(t', i, j, n);
      AppendAssoc(t, QuadsJ(i, j, n), QuadsK(i, j, n, n));
    }
  }

  /**
   * The four nested loops of the 5-cell branch, `t.Add({i, j, k, l})` for each `i < j < k < l < n`;
   * the branch runs them with `n == 5`.
   */
  method IncreasingQuads(n: nat) returns (t: seq<Tet4D>)
    ensures t == Quads(n)
  {
    t := [];
    for i := 0 to n
      invariant t == QuadsI(i, n)
    {
      t := AddQuadsJ(t, i, n);
    }
  }

  lemma AppendAssoc(a: seq<Tet4D>, b: seq<Tet4D>, c: seq<Tet4D>)
    ensures (a + b) + c == a + (b + c)
  {
  }

  /**
   * The 5-cell branch of `OnValidate`: four axis vertices at 2, the golden-ratio vertex, and one
   * tetrahedron per increasing `(i, j, k, l)`.
   */
  method Generate5Cell() returns (mesh: TetMeshRaw)
    ensures mesh.vertices == FiveCellVertices(GoldenRatio)
    ensures mesh.tets == FiveCellTets
  {
    var v: seq<VertexData> := [];
    var goldenRatio := GoldenRatio;
    for i := 0 to 4
      invariant v == AxisVertices(i, 2.0)
    {
      var pos := Axis(i, 2.0);
      var vertex := VertexData(pos, Zero4);
      v := v + [vertex];
    }
    var midPoint := Vec4(goldenRatio, goldenRatio, goldenRatio, goldenRatio);
    v := v + [VertexData(midPoint, Zero4)];
    var t := IncreasingQuads(5);
    FiveCellTetsListed();
    return TetMeshRaw(v, t);
  }

  /** The 5-cell mesh is valid over its five vertices. */
  lemma FiveCellValid()
    ensures |FiveCellVertices(GoldenRatio)| == 5 && |FiveCellTets| == 5
    ensures ValidMesh(TetMeshRaw(FiveCellVertices(GoldenRatio), FiveCellTets))
  {
    FiveCellTetsListed();
  }

  // ---------------------------------------------------------------------
  // The 16-cell
  // ---------------------------------------------------------------------

  /** The 16-cell's vertices: `radius + offset` on axes 0..3, then `-radius + offset` on axes 0..3. */
  function SixteenCellVertices(radius: real, offset: real): seq<VertexData> {
    AxisVertices(4, radius + offset) + AxisVertices(4, -radius + offset)
  }

  /** Bit `3 - p` of `m` (digit `p`, most significant first), times `half == 4`. */
  function Choice(m: int, p: nat): int
    requires 0 <= m < 16 && p < 4
  {
    match p
    case 0 => 4 * ((m / 8) % 2)
    case 1 => 4 * ((m / 4) % 2)
    case 2 => 4 * ((m / 2) % 2)
    case 3 => 4 * (m % 2)
  }

  /**
   * Tetrahedron `m` of the 16-cell: entry `p` is `startIndex + p + 4 * (bit 3-p of m)`, that is the
   * `+` vertex of axis `p` when the bit is 0 and the `-` vertex when it is 1.
   */
  function SixteenCellTet(m: int, startIndex: int): Tet4D
    requires 0 <= m < 16
  {
    Tet4D(startIndex + Choice(m, 0), startIndex + 1 + Choice(m, 1),
          startIndex + 2 + Choice(m, 2), startIndex + 3 + Choice(m, 3))
  }

  /** The 16 tetrahedra in the order of the four nested loops. */
  function SixteenCellTets(startIndex: int): (ts: seq<Tet4D>)
    ensures |ts| == 16
  {
    seq(16, m requires 0 <= m < 16 => SixteenCellTet(m, startIndex))
  }

  /** The loop counters `(a, b, c, d)` over `option = {0, half}` pick tetrahedron `8a + 4b + 2c + d`. */
  lemma SixteenCellTetAt(a: int, b: int, c: int, d: int, startIndex: int)
    requires 0 <= a < 2 && 0 <= b < 2 && 0 <= c < 2 && 0 <= d < 2
    ensures SixteenCellTet(8 * a + 4 * b + 2 * c + d, startIndex) ==
            Tet4D(4 * a + startIndex, 4 * b + 1 + startIndex, 4 * c + 2 + startIndex, 4 * d + 3 + startIndex)
  {
    var m := 8 * a + 4 * b + 2 * c + d;
    assert m / 8 == a;
    assert m / 4 == 2 * a + b;
    assert m / 2 == 4 * a + 2 * b + c;
  }

  /** The first `m + 1` tetrahedra are the first `m` and tetrahedron `m`. */
  lemma SixteenCellTetsPrefixStep(m: int, startIndex: int)
    requires 0 <= m < 16
    ensures SixteenCellTets(startIndex)[..m + 1] == SixteenCellTets(startIndex)[..m] + [SixteenCellTet(m, startIndex)]
  {
    var ts := SixteenCellTets(startIndex);
    assert ts[..m + 1] == ts[..m] + [ts[m]];
  }

  /** The inner vertex loop: one vertex at `value` on each of the four axes. */
  method AddAxisVertices(vertices: seq<VertexData>, value: real) returns (vertices': seq<VertexData>)
    ensures vertices' == vertices + AxisVertices(4, value)
  {
    vertices' := vertices;
    for j := 0 to 4
      invariant vertices' == vertices + AxisVertices(j, value)
    {
      var pos := Axis(j, value);
      var vertex := VertexData(pos, Zero4);
      vertices' := vertices' + [vertex];
    }
  }

  /**
   * The innermost tetrahedron loop, for outer counters `a`, `b`, `c` (`one`, `two`, `three` the
   * chosen options); `m` is the number of tetrahedra the outer loops have added so far.
   */
  method AddSixteenCellTetPair(tets: seq<Tet4D>, a: int, b: int, c: int, m: int, one: int, two: int, three: int,
                               option: seq<int>, startIndex: int)
    returns (tets': seq<Tet4D>)
    requires 0 <= a < 2 && 0 <= b < 2 && 0 <= c < 2 && m == 8 * a + 4 * b + 2 * c
    requires option == [0, 4] && one == option[a] && two == option[b] && three == option[c]
    requires tets == SixteenCellTets(startIndex)[..m]
    ensures tets' == SixteenCellTets(startIndex)[..m + 2]
  {
    tets' := tets;
    for d := 0 to 2
      invariant tets' == SixteenCellTets(startIndex)[..m + d]
    {
      var four := option[d];
      var tet := Tet4D(one + startIndex, two + 1 + startIndex, three + 2 + startIndex, four + 3 + startIndex);
      SixteenCellTetAt(a, b, c, d, startIndex);
      SixteenCellTetsPrefixStep(m + d, startIndex);
      tets' := tets' + [tet];
    }
  }

  /** The second-innermost tetrahedron loop, for outer counters `a` and `b` (`one`, `two` the chosen options). */
  method AddSixteenCellTets(tets: seq<Tet4D>, a: int, b: int, one: int, two: int, option: seq<int>, startIndex: int)
    returns (tets': seq<Tet4D>)
    requires 0 <= a < 2 && 0 <= b < 2 && option == [0, 4] && one == option[a] && two == option[b]
    requires tets == SixteenCellTets(startIndex)[..8 * a + 4 * b]
    ensures tets' == SixteenCellTets(startIndex)[..8 * a + 4 * b + 4]
  {
    tets' := tets;
    for c := 0 to 2
      invariant tets' == SixteenCellTets(startIndex)[..8 * a + 4 * b + 2 * c]
    {
      var three := option[c];
      tets' := AddSixteenCellTetPair(tets', a, b, c, 8 * a + 4 * b + 2 * c, one, two, three, option, startIndex);
    }
  }

  /** `Generate16Cell(radius, offset, startIndex)`. */
  method Generate16Cell(radius: real, offset: real, startIndex: int) returns (mesh: TetMeshRaw)
    ensures mesh.vertices == SixteenCellVertices(radius, offset)
    ensures mesh.tets == SixteenCellTets(startIndex)
  {
    var vertices: seq<VertexData> := [];
    var tets: seq<Tet4D> := [];

    var vals := [radius + offset, -radius + offset];
    for a := 0 to 2
      invariant vertices == if a == 0 then [] else if a == 1 then AxisVertices(4, vals[0]) else AxisVertices(4, vals[0]) + AxisVertices(4, vals[1])
    {
      vertices := AddAxisVertices(vertices, vals[a]);
    }

    var numVertices := 8;
    var half := numVertices / 2;
    var option := [0, half];

    for a := 0 to 2
      invariant tets == SixteenCellTets(startIndex)[..8 * a]
    {
      var one := option[a];
      for b := 0 to 2
        invariant tets == SixteenCellTets(startIndex)[..8 * a + 4 * b]
      {
        var two := option[b];
        tets := AddSixteenCellTets(tets, a, b, one, two, option, startIndex);
      }
    }
    assert SixteenCellTets(startIndex)[..16] == SixteenCellTets(startIndex);
    return TetMeshRaw(vertices, tets);
  }

  /** Vertex `j < 4` is `radius + offset` on axis `j`, vertex `4 + j` is `-radius + offset` on axis `j`; all else is 0. */
  lemma SixteenCellVertexCoordinates(radius: real, offset: real, m: int, c: nat)
    requires 0 <= m < 8 && c < 4
    ensures |SixteenCellVertices(radius, offset)| == 8
    ensures var vtx := SixteenCellVertices(radius, offset)[m];
            Get(vtx.position, c) == (if c != m % 4 then 0.0 else if m < 4 then radius + offset else -radius + offset) &&
            vtx.normal == Zero4
  {
  }

  /**
   * Each 16-cell tetrahedron takes, for every axis `p`, exactly one of its two vertices
   * `startIndex + p` and `startIndex + p + 4`; so its corners are distinct, lie in
   * `[startIndex, startIndex + 8)`, and no two are opposite.
   */
  lemma SixteenCellTetShape(m: int, startIndex: int)
    requires 0 <= m < 16
    ensures var t := SixteenCellTet(m, startIndex);
            t.p0 in {startIndex, startIndex + 4} && t.p1 in {startIndex + 1, startIndex + 5} &&
            t.p2 in {startIndex + 2, startIndex + 6} && t.p3 in {startIndex + 3, startIndex + 7}
    ensures var t := SixteenCellTet(m, startIndex);
            DistinctCorners(t) && CornersIn(t, startIndex, startIndex + 8)
    ensures var ps := SixteenCellTet(m, startIndex).Points();
            forall p, q :: 0 <= p < 4 && 0 <= q < 4 ==> ps[p] - ps[q] != 4
  {
  }

  /** The 16 tetrahedra are pairwise different: the 4 bits of `m` can be read back from the corners. */
  lemma SixteenCellTetsDistinct(startIndex: int)
    ensures forall m, m' :: 0 <= m < m' < 16 ==> SixteenCellTets(startIndex)[m] != SixteenCellTets(startIndex)[m']
  {
    forall m, m' | 0 <= m < m' < 16
      ensures SixteenCellTets(startIndex)[m] != SixteenCellTets(startIndex)[m']
    {
      SixteenCellTetDecodes(m, startIndex);
      SixteenCellTetDecodes(m', startIndex);
    }
  }

  /** The position of tetrahedron `m` in the list can be recomputed from its corners. */
  lemma SixteenCellTetDecodes(m: int, startIndex: int)
    requires 0 <= m < 16
    ensures var t := SixteenCellTet(m, startIndex);
            2 * (t.p0 - startIndex) + (t.p1 - startIndex - 1) + (t.p2 - startIndex - 2) / 2 + (t.p3 - startIndex - 3) / 4 == m
  {
    var a, b, c, d := m / 8, (m / 4) % 2, (m / 2) % 2, m % 2;
    assert m == 8 * a + 4 * b + 2 * c + d;
    SixteenCellTetAt(a, b, c, d, startIndex);
  }

  /**
   * Centred at the origin (`offset == 0`), every 16-cell tetrahedron is regular: each pair of its
   * corners is at squared distance `2 * radius * radius`.
   */
  lemma SixteenCellEquilateral(radius: real, m: int, p: nat, q: nat)
    requires 0 <= m < 16 && p < q < 4
    ensures var vs := SixteenCellVertices(radius, 0.0);
            var ps := SixteenCellTet(m, 0).Points();
            0 <= ps[p] < 8 && 0 <= ps[q] < 8 &&
            SqDist(vs[ps[p]].position, vs[ps[q]].position) == 2.0 * radius * radius
  {
    var vs := SixteenCellVertices(radius, 0.0);
    var ps := SixteenCellTet(m, 0).Points();
    SixteenCellTetShape(m, 0);
    var i, j := ps[p], ps[q];
    assert i == p || i == p + 4;
    assert j == q || j == q + 4;
    var a := SixteenCellVertexOnAxis(radius, i, p);
    var b := SixteenCellVertexOnAxis(radius, j, q);
    AxisSqDist(p, q, a, b);
  }

  /** Vertex `i` of a centred 16-cell lies on axis `p = i % 4` at `a`, with `a * a == radius * radius`. */
  lemma SixteenCellVertexOnAxis(radius: real, i: int, p: nat) returns (a: real)
    requires p < 4 && (i == p || i == p + 4)
    ensures SixteenCellVertices(radius, 0.0)[i].position == Axis(p, a)
    ensures a * a == radius * radius
  {
    var vs := SixteenCellVertices(radius, 0.0);
    if i < 4 {
      a := radius;
      assert vs[i] == AxisVertices(4, radius + 0.0)[i];
    } else {
      a := -radius;
      assert vs[i] == AxisVertices(4, -radius + 0.0)[p];
    }
  }

  /** A 16-cell started at `startIndex` is valid over any vertex list with at least `startIndex + 8` entries. */
  lemma SixteenCellValid(startIndex: int, n: int)
    requires 0 <= startIndex && startIndex + 8 <= n
    ensures forall i :: 0 <= i < 16 ==> ValidTet(SixteenCellTets(startIndex)[i], n)
  {
    forall i | 0 <= i < 16
      ensures ValidTet(SixteenCellTets(startIndex)[i], n)
    {
      SixteenCellTetShape(i, startIndex);
    }
  }

  // ---------------------------------------------------------------------
  // The 24-cell and `OnValidate`
  // ---------------------------------------------------------------------

  /** The 24-cell: the hypercube's lists, then a 16-cell of radius 2 indexed after the hypercube's vertices. */
  function TwentyFourCell(cube: TetMeshRaw): TetMeshRaw {
    TetMeshRaw(cube.vertices + SixteenCellVertices(2.0, 0.0), cube.tets + SixteenCellTets(|cube.vertices|))
  }

  /** The 24-cell branch of `OnValidate`. */
  method Generate24Cell(centerCube: TetMeshRaw) returns (mesh: TetMeshRaw)
    ensures mesh == TwentyFourCell(centerCube)
  {
    var v := centerCube.vertices;
    var t := centerCube.tets;
    var outer16 := Generate16Cell(2.0, 0.0, |v|);
    v := v + outer16.vertices;
    t := t + outer16.tets;
    return TetMeshRaw(v, t);
  }

  /**
   * The 24-cell keeps the hypercube's lists as prefixes, adds 8 vertices and 16 tetrahedra whose
   * indices all lie in `[n, n + 8)`, and is valid whenever the hypercube is.
   */
  lemma TwentyFourCellComposition(cube: TetMeshRaw)
    ensures var m := TwentyFourCell(cube);
            |m.vertices| == |cube.vertices| + 8 && |m.tets| == |cube.tets| + 16 &&
            m.vertices[..|cube.vertices|] == cube.vertices && m.tets[..|cube.tets|] == cube.tets
    ensures var m := TwentyFourCell(cube);
            forall i :: |cube.tets| <= i < |m.tets| ==> CornersIn(m.tets[i], |cube.vertices|, |cube.vertices| + 8)
    ensures ValidMesh(cube) ==> ValidMesh(TwentyFourCell(cube))
  {
    var n := |cube.vertices|;
    var m := TwentyFourCell(cube);
    SixteenCellValid(n, n + 8);
    forall i | |cube.tets| <= i < |m.tets|
      ensures CornersIn(m.tets[i], n, n + 8) && ValidTet(m.tets[i], |m.vertices|)
    {
      assert m.tets[i] == SixteenCellTets(n)[i - |cube.tets|];
      SixteenCellTetShape(i - |cube.tets|, n);
    }
    if ValidMesh(cube) {
      forall i | 0 <= i < |m.tets|
        ensures ValidTet(m.tets[i], |m.vertices|)
      {
        if i < |cube.tets| {
          assert m.tets[i] == cube.tets[i];
        }
      }
    }
  }

  /** The mesh `OnValidate` builds for each polytope type; the unimplemented types give empty lists. */
  function PolytopeMesh(polytope: Polytope, cube: TetMeshRaw): TetMeshRaw {
    match polytope
    case Cell5 => TetMeshRaw(FiveCellVertices(GoldenRatio), FiveCellTets)
    case Cell8 => cube
    case Cell16 => TetMeshRaw(SixteenCellVertices(1.0, 0.0), SixteenCellTets(0))
    case Cell24 => TwentyFourCell(cube)
    case _ => TetMeshRaw([], [])
  }

  /** Every implemented polytope mesh is valid (given a valid hypercube); the others are empty. */
  lemma PolytopeMeshValid(polytope: Polytope, cube: TetMeshRaw)
    requires ValidMesh(cube)
    ensures ValidMesh(PolytopeMesh(polytope, cube))
    ensures (polytope == Cell120 || polytope == Cell600) ==> PolytopeMesh(polytope, cube) == TetMeshRaw([], [])
  {
    match polytope
    case Cell5 => FiveCellValid();
    case Cell16 => SixteenCellValid(0, 8);
    case Cell24 => TwentyFourCellComposition(cube);
    case _ =>
  }

  /** The `PolytopeGenerator` component: the selected type and the inspector's generate button. */
  class PolytopeGenerator {
    var polytope: Polytope
    var generateButton: bool

    constructor ()
      ensures polytope == Cell5 && !generateButton
    {
      polytope := Cell5;
      generateButton := false;
    }

    /**
     * `OnValidate`: when the button is set, build the selected polytope's lists (the hypercube is
     * the `cube` argument), hand them to `CreateScriptableObject` (the returned mesh), and clear
     * the button; otherwise do nothing.
     */
    method OnValidate(cube: TetMeshRaw) returns (created: Option<TetMeshRaw>)
      modifies this
      ensures polytope == old(polytope)
      ensures !generateButton
      ensures old(generateButton) ==> created == Some(PolytopeMesh(polytope, cube))
      ensures !old(generateButton) ==> created == None
    {
      created := None;
      if generateButton {
        var mesh: TetMeshRaw;
        match polytope {
          case Cell5 =>
            mesh := Generate5Cell();
          case Cell8 =>
            mesh := TetMeshRaw(cube.vertices, cube.tets);
          case Cell16 =>
            mesh := Generate16Cell(1.0, 0.0, 0);
          case Cell24 =>
            mesh := Generate24Cell(cube);
          case _ =>
            mesh := TetMeshRaw([], []);
        }
        created := Some(mesh);
        generateButton := false;
      }
    }
  }
}
