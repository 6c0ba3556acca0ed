/**
 * `ProjectionRenderer.ProjectToMesh`: the points of an interpolation-based 4D shape are moved
 * into camera space, the shape's faces are fanned into triangles over the point list, and each
 * point is perspective-divided by its distance in w from the camera.
 *
 * The object-to-camera matrix product is a parameter `transform`, the camera's w a parameter
 * `camW`. `PointInfo` is a 4D position plus uv; its `position` is the xyz part and its `w` the
 * last coordinate. `Dictionary.Values` is taken to list entries in insertion order.
 */
module Projection {
  import opened Wrappers
  import opened Geometry

  /** `PointInfo`: a value type compared field by field (as `List.IndexOf` does). */
  datatype PointInfo = PointInfo(position4D: Vec4, uv: Vec2)

  /** `InterpolationPoint4D`: a dictionary key (its identity is `id`) with its subpoints. */
  datatype InterpolationPoint4D = InterpolationPoint4D(id: nat, subpoints: seq<PointInfo>)

  /** `Face<InterpolationPoint4D>`: the face's points, by identity. */
  datatype Face = Face(points: seq<nat>)

  /** `InterpolationBasedShape`: the values of `shape.points`, in enumeration order, and `faces4D`. */
  datatype InterpolationBasedShape = InterpolationBasedShape(points: seq<InterpolationPoint4D>, faces4D: seq<Face>)

  /** The exceptions `ProjectToMesh` can raise. */
  datatype ProjectionError =
    | MissingSubpoint(point: nat)   // `point.subpoints[0]` on an empty list
    | DuplicatePoint(point: nat)    // `pts.Add` of a key already present
    | UnknownFacePoint(face: nat)   // `pts[face.points[k]]` of a key not present

  /** An entry of `pts`, in insertion order. */
  datatype PointEntry = PointEntry(id: nat, info: PointInfo)

  /** The vertices and triangle indices handed to the mesh. */
  datatype ProjectionOutput = ProjectionOutput(vertices: seq<Vec3>, triangles: seq<int>)

  /** `PointInfo.position`: the xyz part. */
  function Position(p: PointInfo): Vec3 {
    Vec3(p.position4D.x, p.position4D.y, p.position4D.z)
  }

  // ---------------------------------------------------------------------
  // Collecting the points
  // ---------------------------------------------------------------------

  /** `point.subpoints[0]` with its position moved by `transform`. */
  function Transformed(point: InterpolationPoint4D, transform: Vec4 -> Vec4): PointInfo
    requires |point.subpoints| > 0
  {
    PointInfo(transform(point.subpoints[0].position4D), point.subpoints[0].uv)
  }

  /** The value stored under key `id`; later entries shadow earlier ones, as a dictionary update does. */
  function Lookup(entries: seq<PointEntry>, id: nat): Option<PointInfo>
    decreases |entries|
  {
    if |entries| == 0 then None
    else if entries[|entries| - 1].id == id then Some(entries[|entries| - 1].info)
    else Lookup(entries[..|entries| - 1], id)
  }

  /** `pts.Values.ToList()`. */
  function Values(entries: seq<PointEntry>): (vs: seq<PointInfo>)
    ensures |vs| == |entries|
    ensures forall j :: 0 <= j < |entries| ==> vs[j] == entries[j].info
  {
    seq(|entries|, j requires 0 <= j < |entries| => entries[j].info)
  }

  /**
   * The first loop of `ProjectToMesh` over `points`: each point adds its transformed first
   * subpoint under its key, failing at the first point without subpoints or with a key already added.
   */
  function Collect(points: seq<InterpolationPoint4D>, transform: Vec4 -> Vec4): Result<seq<PointEntry>, ProjectionError>
    decreases |points|
  {
    if |points| == 0 then Success([])
    else
      match Collect(points[..|points| - 1], transform)
      case Failure(e) => Failure(e)
      case Success(prev) =>
        var point := points[|points| - 1];
        if |point.subpoints| == 0 then Failure(MissingSubpoint(point.id))
        else if Lookup(prev, point.id).Some? then Failure(DuplicatePoint(point.id))
        else Success(prev + [PointEntry(point.id, Transformed(point, transform))])
  }

  /** An error in a prefix is the error of the whole list. */
  lemma {:induction false} CollectFailurePersists(points: seq<InterpolationPoint4D>, k: nat, transform: Vec4 -> Vec4)
    requires k <= |points| && Collect(points[..k], transform).Failure?
    ensures Collect(points, transform) == Collect(points[..k], transform)
    decreases |points| - k
  {
    if k < |points| {
      assert points[..k + 1][..k] == points[..k];
      CollectFailurePersists(points, k + 1, transform);
    } else {
      assert points[..k] == points;
    }
  }

  /** The keys of a point list are pairwise different. */
  predicate DistinctIds(points: seq<InterpolationPoint4D>) {
    forall a, b :: 0 <= a < b < |points| ==> points[a].id != points[b].id
  }

  /** Looking up a key among well-formed entries finds the entry with that key. */
  lemma {:induction false} LookupFinds(points: seq<InterpolationPoint4D>, entries: seq<PointEntry>, id: nat)
    requires |entries| == |points| && forall j :: 0 <= j < |points| ==> entries[j].id == points[j].id
    ensures Lookup(entries, id).Some? <==> exists j :: 0 <= j < |points| && points[j].id == id
    decreases |points|
  {
    if |points| > 0 {
      LookupFinds(points[..|points| - 1], entries[..|entries| - 1], id);
      if Lookup(entries, id).Some? && entries[|entries| - 1].id != id {
        var j :| 0 <= j < |points| - 1 && points[..|points| - 1][j].id == id;
        assert points[j].id == id;
      }
      if exists j :: 0 <= j < |points| && points[j].id == id {
        var j :| 0 <= j < |points| && points[j].id == id;
        if j < |points| - 1 {
          assert points[..|points| - 1][j].id == id;
        }
      }
    }
  }

  /** Every point has a first subpoint. */
  predicate AllHaveSubpoints(points: seq<InterpolationPoint4D>) {
    forall j :: 0 <= j < |points| ==> |points[j].subpoints| > 0
  }

  /** On success, one entry per point, in order, with the point's key and transformed first subpoint. */
  lemma {:induction false} CollectEntries(points: seq<InterpolationPoint4D>, transform: Vec4 -> Vec4)
    requires Collect(points, transform).Success?
    ensures var entries := Collect(points, transform).value;
            |entries| == |points| &&
            forall j :: 0 <= j < |points| ==>
              |points[j].subpoints| > 0 && entries[j] == PointEntry(points[j].id, Transformed(points[j], transform))
    decreases |points|
  {
    if |points| > 0 {
      var init := points[..|points| - 1];
      CollectEntries(init, transform);
      var prev := Collect(init, transform).value;
      assert Collect(points, transform).value == prev + [PointEntry(points[|points| - 1].id, Transformed(points[|points| - 1], transform))];
    }
  }

  /** Well-formedness of a list carries over to its initial part, whose keys all differ from the last. */
  lemma WellFormedPrefix(points: seq<InterpolationPoint4D>)
    requires |points| > 0 && AllHaveSubpoints(points) && DistinctIds(points)
    ensures var init := points[..|points| - 1];
            AllHaveSubpoints(init) && DistinctIds(init) &&
            forall j :: 0 <= j < |init| ==> init[j].id != points[|points| - 1].id
  {
    var init := points[..|points| - 1];
    assert forall j :: 0 <= j < |init| ==> init[j] == points[j];
  }

  /** A well-formed list extended by a point with a subpoint and a new key stays well-formed. */
  lemma WellFormedExtend(points: seq<InterpolationPoint4D>)
    requires |points| > 0
    requires var init := points[..|points| - 1];
             AllHaveSubpoints(init) && DistinctIds(init) && |points[|points| - 1].subpoints| > 0 &&
             forall j :: 0 <= j < |init| ==> init[j].id != points[|points| - 1].id
    ensures AllHaveSubpoints(points) && DistinctIds(points)
  {
    var init := points[..|points| - 1];
    assert forall j :: 0 <= j < |init| ==> init[j] == points[j];
  }

  /** Collecting succeeds exactly when every point has a subpoint and no key repeats. */
  lemma {:induction false} CollectSucceeds(points: seq<InterpolationPoint4D>, transform: Vec4 -> Vec4)
    ensures Collect(points, transform).Success? <==> AllHaveSubpoints(points) && DistinctIds(points)
    decreases |points|
  {
    if |points| > 0 {
      var init := points[..|points| - 1];
      var point := points[|points| - 1];
      CollectSucceeds(init, transform);
      if AllHaveSubpoints(points) && DistinctIds(points) {
        WellFormedPrefix(points);
      }
      if Collect(init, transform).Success? {
        var prev := Collect(init, transform).value;
        CollectEntries(init, transform);
        LookupFinds(init, prev, point.id);
        if Collect(points, transform).Success? {
          WellFormedExtend(points);
        }
      }
    }
  }

  // ---------------------------------------------------------------------
  // Fanning the faces
  // ---------------------------------------------------------------------


  /** `List.IndexOf`: the first position holding `x`, or -1. */
  function IndexOf(s: seq<PointInfo>, x: PointInfo): (r: int)
    ensures -1 <= r < |s|
    ensures r >= 0 ==> s[r] == x && forall j :: 0 <= j < r ==> s[j] != x
    ensures r == -1 <==> x !in s
    decreases |s|
  {
    if |s| == 0 then -1
    else if s[0] == x then 0
    else var r := IndexOf(s[1..], x); if r < 0 then -1 else r + 1
  }

  /** `vertices4d.IndexOf(pts[id])`, with -1 standing for a key that is not present. */
  function Resolve(entries: seq<PointEntry>, id: nat): int {
    match Lookup(entries, id)
    case None => -1
    case Some(info) => IndexOf(Values(entries), info)
  }

  /** A stored value is among the values. */
  lemma {:induction false} LookupInValues(entries: seq<PointEntry>, id: nat)
    requires Lookup(entries, id).Some?
    ensures Lookup(entries, id).value in Values(entries)
    decreases |entries|
  {
    var last := |entries| - 1;
    if entries[last].id != id {
      LookupInValues(entries[..last], id);
      var j :| 0 <= j < last && Values(entries[..last])[j] == Lookup(entries, id).value;
      assert Values(entries)[j] == Values(entries[..last])[j];
    } else {
      assert Values(entries)[last] == entries[last].info;
    }
  }

  /**
   * The fan of a polygon with corner indices `s`: triangles `(s[0], s[i], s[i+1])` for
   * `i = 1 .. |s| - 2`, flattened; entry `q` is corner `0` or `q / 3 + q % 3`.
   */
  function Fan(s: seq<int>): (f: seq<int>)
    ensures |f| == 3 * Max0(|s| - 2)
  {
    seq(3 * Max0(|s| - 2), q requires 0 <= q < 3 * Max0(|s| - 2) => if q % 3 == 0 then s[0] else s[q / 3 + q % 3])
  }

  /** Triangle `m` of the fan is `(s[0], s[m + 1], s[m + 2])`. */
  lemma FanTriangle(s: seq<int>, m: int)
    requires 0 <= m && m + 2 < |s|
    ensures 3 * m + 3 <= |Fan(s)|
    ensures Fan(s)[3 * m] == s[0] && Fan(s)[3 * m + 1] == s[m + 1] && Fan(s)[3 * m + 2] == s[m + 2]
  {
    assert (3 * m + 1) / 3 == m && (3 * m + 1) % 3 == 1;
    assert (3 * m + 2) / 3 == m && (3 * m + 2) % 3 == 2;
  }

  /** Every fan entry is a corner of the polygon. */
  lemma FanEntries(s: seq<int>, q: int)
    requires 0 <= q < |Fan(s)|
    ensures Fan(s)[q] in s
  {
  }

  /** The corner indices of a face: `Resolve` of each of its points. */
  function FaceIndices(face: Face, entries: seq<PointEntry>): (r: seq<int>)
    ensures |r| == |face.points|
  {
    seq(|face.points|, k requires 0 <= k < |face.points| => Resolve(entries, face.points[k]))
  }

  /** True when each of the face's points is a key of `pts`. */
  predicate FaceKnown(face: Face, entries: seq<PointEntry>) {
    forall k :: 0 <= k < |face.points| ==> Lookup(entries, face.points[k]).Some?
  }

  /**
   * The triangles of face number `f`: none for fewer than 3 points (no lookup happens), a key
   * error when one of its points is unknown, and otherwise the fan over the resolved indices.
   */
  function FaceTriangles(face: Face, f: nat, entries: seq<PointEntry>): Result<seq<int>, ProjectionError> {
    if |face.points| < 3 then Success([])
    else if FaceKnown(face, entries) then Success(Fan(FaceIndices(face, entries)))
    else Failure(UnknownFacePoint(f))
  }

  /** The second loop of `ProjectToMesh`: the faces' triangles one after the other, failing at the first bad face. */
  function Triangles(faces: seq<Face>, entries: seq<PointEntry>): Result<seq<int>, ProjectionError>
    decreases |faces|
  {
    if |faces| == 0 then Success([])
    else
      match Triangles(faces[..|faces| - 1], entries)
      case Failure(e) => Failure(e)
      case Success(ts) =>
        match FaceTriangles(faces[|faces| - 1], |faces| - 1, entries)
        case Failure(e) => Failure(e)
        case Success(ft) => Success(ts + ft)
  }

  lemma {:induction false} TrianglesFailurePersists(faces: seq<Face>, k: nat, entries: seq<PointEntry>)
    requires k <= |faces| && Triangles(faces[..k], entries).Failure?
    ensures Triangles(faces, entries) == Triangles(faces[..k], entries)
    decreases |faces| - k
  {
    if k < |faces| {
      assert faces[..k + 1][..k] == faces[..k];
      TrianglesFailurePersists(faces, k + 1, entries);
    } else {
      assert faces[..k] == faces;
    }
  }

  /** `Σ max(0, n_f - 2)` over the faces: the number of fan triangles. */
  function FanCount(faces: seq<Face>): nat
    decreases |faces|
  {
    if |faces| == 0 then 0 else FanCount(faces[..|faces| - 1]) + Max0(|faces[|faces| - 1].points| - 2)
  }

  /** Three indices per fan triangle, hence a multiple of 3. */
  lemma {:induction false} TrianglesCount(faces: seq<Face>, entries: seq<PointEntry>)
    requires Triangles(faces, entries).Success?
    ensures |Triangles(faces, entries).value| == 3 * FanCount(faces)
    ensures |Triangles(faces, entries).value| % 3 == 0
    decreases |faces|
  {
    if |faces| > 0 {
      TrianglesCount(faces[..|faces| - 1], entries);
    }
  }

  /** Every emitted index is a position in the vertex list. */
  lemma {:induction false} TrianglesInRange(faces: seq<Face>, entries: seq<PointEntry>)
    requires Triangles(faces, entries).Success?
    ensures forall q :: 0 <= q < |Triangles(faces, entries).value| ==> 0 <= Triangles(faces, entries).value[q] < |entries|
    decreases |faces|
  {
    if |faces| > 0 {
      var init := faces[..|faces| - 1];
      var face := faces[|faces| - 1];
      TrianglesInRange(init, entries);
      var ts := Triangles(init, entries).value;
      var ft := FaceTriangles(face, |faces| - 1, entries).value;
      forall q | 0 <= q < |ft|
        ensures 0 <= ft[q] < |entries|
      {
        var s := FaceIndices(face, entries);
        FanEntries(s, q);
        var k :| 0 <= k < |s| && s[k] == ft[q];
        LookupInValues(entries, face.points[k]);
      }
      assert Triangles(faces, entries).value == ts + ft;
    }
  }

  /**
   * An emitted index names the first vertex equal to the face point's value: that is, the entry
   * itself unless an earlier point carries an identical `PointInfo`.
   */
  lemma ResolveFirstEqual(entries: seq<PointEntry>, id: nat)
    requires Lookup(entries, id).Some?
    ensures 0 <= Resolve(entries, id) < |entries|
    ensures Values(entries)[Resolve(entries, id)] == Lookup(entries, id).value
    ensures forall j :: 0 <= j < Resolve(entries, id) ==> Values(entries)[j] != Lookup(entries, id).value
  {
    LookupInValues(entries, id);
  }

  // ---------------------------------------------------------------------
  // Projecting the points
  // ---------------------------------------------------------------------

  /** `0.0001f`, taken as the real it is written as. */
  const Epsilon: real := 0.0001

  function AbsReal(r: real): real { if r < 0.0 then -r else r }

  /** The guard on `deltaW`: a value closer to 0 than `Epsilon` is pushed `Epsilon` away, away from 0 (0 goes up). */
  function GuardDeltaW(deltaW: real): (r: real)
    ensures r != 0.0 && AbsReal(r) >= Epsilon
    ensures deltaW < 0.0 ==> r < 0.0
    ensures deltaW >= 0.0 ==> r > 0.0
    ensures AbsReal(deltaW) >= Epsilon ==> r == deltaW
    ensures AbsReal(deltaW) < Epsilon ==> r == deltaW + (if deltaW < 0.0 then -Epsilon else Epsilon)
  {
    if AbsReal(deltaW) < Epsilon then deltaW + (if deltaW < 0.0 then -1.0 else 1.0) * Epsilon else deltaW
  }

  /** Vertex `p` divided by its guarded distance in w from the camera; its w and uv are kept. */
  function ProjectPoint(p: PointInfo, camW: real): PointInfo {
    var d := GuardDeltaW(p.position4D.w - camW);
    PointInfo(Vec4(p.position4D.x / d, p.position4D.y / d, p.position4D.z / d, p.position4D.w), p.uv)
  }

  /** Multiplying back by the divisor gives the original xyz; w and uv are unchanged. */
  lemma ProjectPointInverts(p: PointInfo, camW: real)
    ensures var q := ProjectPoint(p, camW); var d := GuardDeltaW(p.position4D.w - camW);
            q.position4D.x * d == p.position4D.x && q.position4D.y * d == p.position4D.y &&
            q.position4D.z * d == p.position4D.z && q.position4D.w == p.position4D.w && q.uv == p.uv
  {
  }

  /** A quotient by a divisor at least `Epsilon` in size is at most `1 / Epsilon` times the dividend. */
  lemma BoundedQuotient(x: real, d: real)
    requires AbsReal(d) >= Epsilon
    ensures AbsReal(x / d) <= 10000.0 * AbsReal(x)
  {
    var q := x / d;
    assert q * d == x;
    assert AbsReal(q) * AbsReal(d) == AbsReal(x);
    assert AbsReal(q) * Epsilon <= AbsReal(q) * AbsReal(d);
  }

  /** A projected point is finite and within `10000` times the original coordinates, even at `deltaW == 0`. */
  lemma ProjectPointBounded(p: PointInfo, camW: real)
    ensures var q := ProjectPoint(p, camW);
            AbsReal(q.position4D.x) <= 10000.0 * AbsReal(p.position4D.x) &&
            AbsReal(q.position4D.y) <= 10000.0 * AbsReal(p.position4D.y) &&
            AbsReal(q.position4D.z) <= 10000.0 * AbsReal(p.position4D.z)
  {
    var d := GuardDeltaW(p.position4D.w - camW);
    BoundedQuotient(p.position4D.x, d);
    BoundedQuotient(p.position4D.y, d);
    BoundedQuotient(p.position4D.z, d);
  }

  /** What `ProjectToMesh` hands to the mesh, or the exception it raises. */
  function ProjectedMesh(shape: InterpolationBasedShape, transform: Vec4 -> Vec4, camW: real): Result<ProjectionOutput, ProjectionError> {
    match Collect(shape.points, transform)
    case Failure(e) => Failure(e)
    case Success(entries) =>
      match Triangles(shape.faces4D, entries)
      case Failure(e) => Failure(e)
      case Success(ts) =>
        Success(ProjectionOutput(seq(|entries|, j requires 0 <= j < |entries| => Position(ProjectPoint(entries[j].info, camW))), ts))
  }

  /**
   * On success there is one vertex per shape point, in order, each the projection of that point's
   * transformed first subpoint; the triangle list has 3 indices per fan triangle, each a valid vertex.
   */
  lemma ProjectedMeshShape(shape: InterpolationBasedShape, transform: Vec4 -> Vec4, camW: real)
    requires ProjectedMesh(shape, transform, camW).Success?
    ensures var out := ProjectedMesh(shape, transform, camW).value;
            |out.vertices| == |shape.points| &&
            (forall j :: 0 <= j < |shape.points| ==>
               |shape.points[j].subpoints| > 0 &&
               out.vertices[j] == Position(ProjectPoint(Transformed(shape.points[j], transform), camW))) &&
            |out.triangles| == 3 * FanCount(shape.faces4D) &&
            forall q :: 0 <= q < |out.triangles| ==> 0 <= out.triangles[q] < |out.vertices|
  {
    CollectEntries(shape.points, transform);
    var entries := Collect(shape.points, transform).value;
    TrianglesCount(shape.faces4D, entries);
    TrianglesInRange(shape.faces4D, entries);
  }

  // ---------------------------------------------------------------------
  // The steps of ProjectToMesh
  // ---------------------------------------------------------------------

  /** The dictionary `pts` and the list `pts.Values.ToList()` built by the first loop. */
  datatype Collected = Collected(pts: map<nat, PointInfo>, values: seq<PointInfo>)

  /** `pts` maps exactly the keys of `entries` to their values. */
  ghost predicate Indexes(pts: map<nat, PointInfo>, entries: seq<PointEntry>) {
    (forall id :: id in pts <==> Lookup(entries, id).Some?) &&
    forall id :: id in pts ==> pts[id] == Lookup(entries, id).value
  }

  /** The loop over `shape.points.Values` filling `pts`. */
  method CollectPoints(points: seq<InterpolationPoint4D>, transform: Vec4 -> Vec4) returns (r: Result<Collected, ProjectionError>)
    ensures Collect(points, transform).Failure? ==> r == Failure(Collect(points, transform).error)
    ensures Collect(points, transform).Success? ==>
            r.Success? && r.value.values == Values(Collect(points, transform).value) &&
            Indexes(r.value.pts, Collect(points, transform).value)
  {
    var pts: map<nat, PointInfo> := map[];
    var values: seq<PointInfo> := [];
    ghost var entries: seq<PointEntry> := [];
    for i := 0 to |points|
      invariant Collect(points[..i], transform) == Success(entries)
      invariant values == Values(entries)
      invariant Indexes(pts, entries)
    {
      var point := points[i];
      assert points[..i + 1][..i] == points[..i];
      if |point.subpoints| == 0 {
        CollectFailurePersists(points, i + 1, transform);
        return Failure(MissingSubpoint(point.id));
      }
      var point4d := point.subpoints[0];
      point4d := point4d.(position4D := transform(point4d.position4D));
      if point.id in pts {
        CollectFailurePersists(points, i + 1, transform);
        return Failure(DuplicatePoint(point.id));
      }
      pts := pts[point.id := point4d];
      entries := entries + [PointEntry(point.id, point4d)];
      values := values + [point4d];
    }
    assert points[..|points|] == points;
    r := Success(Collected(pts, values));
  }

  /** The fan's first `3 * i` entries are its first `3 * (i - 1)` and triangle `(s[0], s[i], s[i + 1])`. */
  lemma FanPrefixStep(s: seq<int>, i: int)
    requires 1 <= i && i + 1 < |s|
    ensures 3 * i <= |Fan(s)|
    ensures Fan(s)[..3 * i] == Fan(s)[..3 * (i - 1)] + [s[0], s[i], s[i + 1]]
  {
    FanTriangle(s, i - 1);
  }

  /** `vertices4d.IndexOf(pts[face.points[k]])` is the resolved index of the face's point `k`. */
  lemma ResolvedAt(face: Face, entries: seq<PointEntry>, pts: map<nat, PointInfo>, values: seq<PointInfo>, k: int)
    requires values == Values(entries) && Indexes(pts, entries)
    requires 0 <= k < |face.points| && face.points[k] in pts
    ensures Lookup(entries, face.points[k]).Some?
    ensures IndexOf(values, pts[face.points[k]]) == FaceIndices(face, entries)[k]
  {
  }

  /** The inner loop over one face: the fan `(0, i, i + 1)` through `pts` and `IndexOf`. */
  method FanFace(face: Face, f: nat, pts: map<nat, PointInfo>, values: seq<PointInfo>, ghost entries: seq<PointEntry>)
    returns (r: Result<seq<int>, ProjectionError>)
    requires values == Values(entries) && Indexes(pts, entries)
    ensures r == FaceTriangles(face, f, entries)
  {
    ghost var indices := FaceIndices(face, entries);
    var triangles: seq<int> := [];
    var i := 1;
    while i + 1 < |face.points|
      invariant i == 1 || 1 <= i <= |face.points| - 1
      invariant triangles == Fan(indices)[..3 * (i - 1)]
      invariant i >= 2 ==> forall k :: 0 <= k <= i ==> Lookup(entries, face.points[k]).Some?
    {
      if face.points[0] !in pts || face.points[i] !in pts || face.points[i + 1] !in pts {
        return Failure(UnknownFacePoint(f));
      }
      FanPrefixStep(indices, i);
      ResolvedAt(face, entries, pts, values, 0);
      ResolvedAt(face, entries, pts, values, i);
      ResolvedAt(face, entries, pts, values, i + 1);
      triangles := triangles + [IndexOf(values, pts[face.points[0]]),
                                IndexOf(values, pts[face.points[i]]),
                                IndexOf(values, pts[face.points[i + 1]])];
      i := i + 1;
    }
    if |face.points| >= 3 {
      assert FaceKnown(face, entries);
      assert Fan(indices)[..3 * (i - 1)] == Fan(indices);
    }
    r := Success(triangles);
  }

  /** The loop over `shape.faces4D`. */
  method FanFaces(faces: seq<Face>, pts: map<nat, PointInfo>, values: seq<PointInfo>, ghost entries: seq<PointEntry>)
    returns (r: Result<seq<int>, ProjectionError>)
    requires values == Values(entries) && Indexes(pts, entries)
    ensures r == Triangles(faces, entries)
  {
    var triangles: seq<int> := [];
    for f := 0 to |faces|
      invariant Triangles(faces[..f], entries) == Success(triangles)
    {
      assert faces[..f + 1][..f] == faces[..f];
      var ft := FanFace(faces[f], f, pts, values, entries);
      if ft.Failure? {
        TrianglesFailurePersists(faces, f + 1, entries);
        return Failure(ft.error);
      }
      triangles := triangles + ft.value;
    }
    assert faces[..|faces|] == faces;
    r := Success(triangles);
  }

  /** The loop over `vertices4d`: each slot is replaced by its projection, and only that slot. */
  method ProjectVertices(vertices4d: array<PointInfo>, camW: real)
    modifies vertices4d
    ensures forall j :: 0 <= j < vertices4d.Length ==> vertices4d[j] == ProjectPoint(old(vertices4d[j]), camW)
  {
    for i := 0 to vertices4d.Length
      invariant forall j :: 0 <= j < i ==> vertices4d[j] == ProjectPoint(old(vertices4d[j]), camW)
      invariant forall j :: i <= j < vertices4d.Length ==> vertices4d[j] == old(vertices4d[j])
    {
      var deltaW := vertices4d[i].position4D.w - camW;
      if AbsReal(deltaW) < Epsilon {
        deltaW := deltaW + (if deltaW < 0.0 then -1.0 else 1.0) * Epsilon;
      }
      assert deltaW == GuardDeltaW(vertices4d[i].position4D.w - camW);
      var p := vertices4d[i];
      var projected := Vec4(p.position4D.x / deltaW, p.position4D.y / deltaW, p.position4D.z / deltaW, p.position4D.w);
      vertices4d[i] := PointInfo(projected, vertices4d[i].uv);
    }
  }

  // ---------------------------------------------------------------------
  // The renderer
  // ---------------------------------------------------------------------

  /** The `ProjectionRenderer` component: its shape and the vertex and triangle lists it last uploaded. */
  class ProjectionRenderer {
    var shape: Option<InterpolationBasedShape>
    var v: seq<Vec3>
    var t: seq<int>

    constructor (shape: Option<InterpolationBasedShape>)
      ensures this.shape == shape && v == [] && t == []
    {
      this.shape := shape;
      v := [];
      t := [];
    }

    /**
     * `ProjectToMesh`. With no shape nothing happens. Otherwise the points are collected into
     * `pts`, the faces fanned into triangles, `vertices4d` projected in place, and the mesh's
     * lists stored in `v` and `t`; an exception leaves `v` and `t` as they were.
     */
    method ProjectToMesh(transform: Vec4 -> Vec4, camW: real) returns (error: Option<ProjectionError>)
      modifies this
      ensures shape == old(shape)
      ensures shape.None? ==> error.None? && v == old(v) && t == old(t)
      ensures shape.Some? ==>
        match ProjectedMesh(shape.value, transform, camW)
        case Success(out) => error.None? && v == out.vertices && t == out.triangles
        case Failure(e) => error == Some(e) && v == old(v) && t == old(t)
    {
      if shape.None? {
        return None;
      }
      var s := shape.value;
      var collected := CollectPoints(s.points, transform);
      if collected.Failure? {
        return Some(collected.error);
      }
      ghost var entries := Collect(s.points, transform).value;
      var pts := collected.value.pts;
      var values := collected.value.values;
      var triangles := FanFaces(s.faces4D, pts, values, entries);
      if triangles.Failure? {
        return Some(triangles.error);
      }
      var vertices4d := new PointInfo[|values|](j requires 0 <= j < |values| => values[j]);
      ProjectVertices(vertices4d, camW);
      v := seq(vertices4d.Length, j requires 0 <= j < vertices4d.Length reads vertices4d => Position(vertices4d[j]));
      t := triangles.value;
      error := None;
    }
  }
}
