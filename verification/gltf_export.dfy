/**
  The glTF exporter: the change of basis from the solver's OpenCV convention
  to glTF's, the 4x4 camera node matrix in column-major order, the rules that
  decide which cameras and points become nodes, and the failure cases.
 */
module GltfExport {
  import opened Wrappers
  import opened Linear
  import opened CalibrationData

  /** World basis change: x stays, the new y is the old z, the new z is minus the old y. */
  const OpenCvToGltf: Mat3 := Mat3(Vec3(1.0, 0.0, 0.0), Vec3(0.0, 0.0, 1.0), Vec3(0.0, -1.0, 0.0))

  /** Camera-local basis change: y and z are flipped. */
  const CameraConvention: Mat3 := Mat3(Vec3(1.0, 0.0, 0.0), Vec3(0.0, -1.0, 0.0), Vec3(0.0, 0.0, -1.0))

  /** A point of the reconstruction in glTF world coordinates. */
  function ToGltfPoint(p: Vec3): (q: Vec3)
    ensures q == Vec3(p.x, p.z, -p.y)
  {
    MatVec(OpenCvToGltf, p)
  }

  lemma WorldBasisLeftInverse()
    ensures MatMul(Transpose(OpenCvToGltf), OpenCvToGltf) == Identity
  {
  }

  lemma WorldBasisRightInverse()
    ensures MatMul(OpenCvToGltf, Transpose(OpenCvToGltf)) == Identity
  {
  }

  lemma WorldBasisDet()
    ensures Det(OpenCvToGltf) == 1.0
  {
  }

  /** The world basis change is a rotation: its transpose is its inverse and its determinant is +1. */
  lemma WorldBasisIsRotation()
    ensures IsRotation(OpenCvToGltf)
  {
    WorldBasisLeftInverse();
    WorldBasisRightInverse();
    WorldBasisDet();
  }

  /** Applying the transposed basis change to an exported point gives the solver's point back. */
  lemma WorldBasisUndo(v: Vec3)
    ensures MatVec(Transpose(OpenCvToGltf), ToGltfPoint(v)) == v
  {
    var q := ToGltfPoint(v);
    assert MatVec(Transpose(OpenCvToGltf), q) == Vec3(q.x, -q.z, q.y);
  }

  lemma CameraConventionSquare()
    ensures MatMul(CameraConvention, CameraConvention) == Identity
  {
  }

  lemma CameraConventionSymmetric()
    ensures Transpose(CameraConvention) == CameraConvention
  {
  }

  lemma CameraConventionDet()
    ensures Det(CameraConvention) == 1.0
  {
  }

  /** The camera basis change is a rotation and undoes itself. */
  lemma CameraConventionIsInvolution()
    ensures IsRotation(CameraConvention)
    ensures MatMul(CameraConvention, CameraConvention) == Identity
  {
    CameraConventionSquare();
    CameraConventionSymmetric();
    CameraConventionDet();
  }

  /** The camera rotation written to glTF: world basis change, pose, camera basis change. */
  function GltfRotation(r: Mat3): (g: Mat3)
    ensures g == Mat3(
      Vec3(r.r0.x, -r.r0.y, -r.r0.z),
      Vec3(r.r2.x, -r.r2.y, -r.r2.z),
      Vec3(-r.r1.x, r.r1.y, r.r1.z))
  {
    MatMul(MatMul(OpenCvToGltf, r), CameraConvention)
  }

  /** The camera position written to glTF. */
  function GltfTranslation(t: Vec3): Vec3 {
    ToGltfPoint(t)
  }

  /** The sign pattern that conjugation by diag(1, -1, -1) leaves on a matrix. */
  function FlipOffBlock(m: Mat3): Mat3 {
    Mat3(Vec3(m.r0.x, -m.r0.y, -m.r0.z), Vec3(-m.r1.x, m.r1.y, m.r1.z), Vec3(-m.r2.x, m.r2.y, m.r2.z))
  }

  /** G^T G is R^T R with its off-block entries negated. */
  lemma GltfRotationGram(r: Mat3)
    ensures MatMul(Transpose(GltfRotation(r)), GltfRotation(r)) == FlipOffBlock(MatMul(Transpose(r), r))
  {
  }

  /** G G^T is R R^T with its rows and columns moved as the world basis change moves them. */
  lemma GltfRotationCogram(r: Mat3)
    ensures var m := MatMul(r, Transpose(r));
      MatMul(GltfRotation(r), Transpose(GltfRotation(r)))
      == Mat3(Vec3(m.r0.x, m.r0.z, -m.r0.y), Vec3(m.r2.x, m.r2.z, -m.r2.y), Vec3(-m.r1.x, -m.r1.z, m.r1.y))
  {
  }

  /** A rotation stays a rotation after both basis changes. */
  lemma GltfRotationPreservesRotations(r: Mat3)
    requires IsRotation(r)
    ensures IsRotation(GltfRotation(r))
  {
    GltfRotationGram(r);
    GltfRotationCogram(r);
    assert Det(GltfRotation(r)) == Det(r);
  }

  function Component(v: Vec3, i: int): real
    requires 0 <= i < 3
  {
    if i == 0 then v.x else if i == 1 then v.y else v.z
  }

  function Entry(m: Mat3, row: int, col: int): real
    requires 0 <= row < 3 && 0 <= col < 3
  {
    Component(if row == 0 then m.r0 else if row == 1 then m.r1 else m.r2, col)
  }

  /**
    Entry (row, col) of the 4x4 camera-to-world transform: the rotation block,
    the translation in the last column, and a bottom row of 0, 0, 0, 1.
   */
  function NodeEntry(rot: Mat3, t: Vec3, row: int, col: int): real
    requires 0 <= row < 4 && 0 <= col < 4
  {
    if row < 3 && col < 3 then Entry(rot, row, col)
    else if row < 3 then Component(t, row)
    else if col < 3 then 0.0
    else 1.0
  }

  /** The sixteen entries of the transform, listed column after column. */
  function ColumnMajor(rot: Mat3, t: Vec3): (m: seq<real>)
    ensures |m| == 16
    ensures forall row, col :: 0 <= row < 4 && 0 <= col < 4 ==> m[4 * col + row] == NodeEntry(rot, t, row, col)
  {
    seq(16, i requires 0 <= i < 16 => NodeEntry(rot, t, i % 4, i / 4))
  }

  /** A glTF camera definition, made for one image (its perspective parameters are not modelled). */
  datatype CameraDef = CameraDef(imageIndex: int)

  /** A scene node: a camera placed by a column-major matrix, or an empty node at a point. */
  datatype Node =
    | CameraNode(imageIndex: int, camera: int, matrix: seq<real>)
    | PointNode(pointLabel: Option<int>, translation: Vec3)

  /** The exported scene; the scene lists every node, in order. */
  datatype Scene = Scene(cameras: seq<CameraDef>, nodes: seq<Node>)

  /**
    The results dictionary as the exporter receives it: each required key
    present or not. A results value that is missing, empty or not a dictionary
    is None where the exporter takes an Option<ResultsDict>, so a ResultsDict
    always stands for a non-empty dictionary.
   */
  datatype IntrinsicsEntry = IntrinsicsMap(k: map<int, Mat3>) | IntrinsicsOther

  datatype ResultsDict = ResultsDict(
    poses: Option<map<int, Pose>>,
    points3d: Option<seq<Vec3>>,
    pointIds: Option<seq<Option<int>>>,
    registeredIndices: Option<seq<int>>,
    intrinsics: Option<IntrinsicsEntry>)

  datatype ExportError =
    | InvalidResults
    | MissingKeys(keys: seq<string>)
    | IntrinsicsInvalid
    | NothingExported

  /** The required keys that are missing, in the order they are checked. */
  function MissingKeyNames(d: ResultsDict): (keys: seq<string>)
    ensures keys == [] <==> d.poses.Some? && d.points3d.Some? && d.pointIds.Some?
                            && d.registeredIndices.Some? && d.intrinsics.Some?
    ensures "poses" in keys <==> d.poses.None?
    ensures "points_3d" in keys <==> d.points3d.None?
    ensures "point_ids" in keys <==> d.pointIds.None?
    ensures "registered_indices" in keys <==> d.registeredIndices.None?
    ensures "intrinsics" in keys <==> d.intrinsics.None?
    ensures |keys| <= 5
  {
    (if d.poses.None? then ["poses"] else [])
    + (if d.points3d.None? then ["points_3d"] else [])
    + (if d.pointIds.None? then ["point_ids"] else [])
    + (if d.registeredIndices.None? then ["registered_indices"] else [])
    + (if d.intrinsics.None? then ["intrinsics"] else [])
  }

  /** An image gets a camera definition when it has a pose, a K matrix and positive dimensions. */
  predicate DefinesCamera(idx: int, poses: map<int, Pose>, k: map<int, Mat3>, dims: map<int, (int, int)>) {
    idx in poses && idx in k && idx in dims && dims[idx].0 > 0 && dims[idx].1 > 0
  }

  /** The images, in registration order and with repeats, that get a camera definition. */
  function CameraDefImages(reg: seq<int>, poses: map<int, Pose>, k: map<int, Mat3>, dims: map<int, (int, int)>): seq<int> {
    if reg == [] then []
    else
      var idx := reg[|reg| - 1];
      CameraDefImages(reg[..|reg| - 1], poses, k, dims) + (if DefinesCamera(idx, poses, k, dims) then [idx] else [])
  }

  /** The position of the last occurrence of x in s, or -1. */
  function LastIndex(s: seq<int>, x: int): int {
    if s == [] then -1
    else if s[|s| - 1] == x then |s| - 1
    else LastIndex(s[..|s| - 1], x)
  }

  lemma {:induction false} LastIndexFacts(s: seq<int>, x: int)
    ensures -1 <= LastIndex(s, x) < |s|
    ensures LastIndex(s, x) == -1 <==> x !in s
    ensures LastIndex(s, x) >= 0 ==> s[LastIndex(s, x)] == x
    ensures forall j :: LastIndex(s, x) < j < |s| ==> s[j] != x
  {
    if s != [] && s[|s| - 1] != x {
      var front := s[..|s| - 1];
      LastIndexFacts(front, x);
      assert s == front + [s[|s| - 1]];
    }
  }

  /** The camera node of one image, referring to camera definition cam. */
  function CameraNodeOf(idx: int, cam: int, pose: Pose): Node {
    CameraNode(idx, cam, ColumnMajor(GltfRotation(pose.rotation), GltfTranslation(pose.translation)))
  }

  /**
    The camera nodes: one per registered image (repeats included) that has a
    camera definition and a pose, referring to the last definition made for it.
   */
  function CameraNodes(reg: seq<int>, defs: seq<int>, poses: map<int, Pose>): seq<Node> {
    if reg == [] then []
    else
      var idx := reg[|reg| - 1];
      CameraNodes(reg[..|reg| - 1], defs, poses)
        + (if idx in defs && idx in poses then [CameraNodeOf(idx, LastIndex(defs, idx), poses[idx])] else [])
  }

  /**
    Camera nodes and camera definitions are made for the same images in the
    same order, and each node refers to a definition made for its own image.
   */
  lemma {:induction false} CameraNodesFollowDefs(reg: seq<int>, defs: seq<int>, poses: map<int, Pose>, k: map<int, Mat3>, dims: map<int, (int, int)>)
    requires forall x :: x in reg ==> (x in defs <==> DefinesCamera(x, poses, k, dims))
    ensures |CameraNodes(reg, defs, poses)| == |CameraDefImages(reg, poses, k, dims)|
    ensures forall i :: 0 <= i < |CameraNodes(reg, defs, poses)| ==>
      var idx := CameraDefImages(reg, poses, k, dims)[i];
      idx in poses && CameraNodes(reg, defs, poses)[i] == CameraNodeOf(idx, LastIndex(defs, idx), poses[idx])
  {
    if reg != [] {
      var front := reg[..|reg| - 1];
      assert reg == front + [reg[|reg| - 1]];
      CameraNodesFollowDefs(front, defs, poses, k, dims);
    }
  }

  /** In an export, every camera node refers to the camera definition made last for its image. */
  lemma CameraNodesReferToOwnDefs(reg: seq<int>, poses: map<int, Pose>, k: map<int, Mat3>, dims: map<int, (int, int)>)
    ensures var defs := CameraDefImages(reg, poses, k, dims);
      var nodes := CameraNodes(reg, defs, poses);
      |nodes| == |defs|
      && forall i :: 0 <= i < |nodes| ==>
        nodes[i].CameraNode? && nodes[i].imageIndex == defs[i]
        && 0 <= nodes[i].camera < |defs| && defs[nodes[i].camera] == defs[i]
        && forall j :: nodes[i].camera < j < |defs| ==> defs[j] != defs[i]
  {
    var defs := CameraDefImages(reg, poses, k, dims);
    CameraDefImagesMembers(reg, poses, k, dims);
    CameraNodesFollowDefs(reg, defs, poses, k, dims);
    forall i | 0 <= i < |defs| ensures LastIndex(defs, defs[i]) >= 0 {
      LastIndexFacts(defs, defs[i]);
    }
    forall x ensures -1 <= LastIndex(defs, x) < |defs| && (LastIndex(defs, x) >= 0 ==> defs[LastIndex(defs, x)] == x)
      && forall j :: LastIndex(defs, x) < j < |defs| ==> defs[j] != x
    {
      LastIndexFacts(defs, x);
    }
  }

  /** An image is given a camera definition exactly when it is registered and qualifies. */
  lemma {:induction false} CameraDefImagesMembers(reg: seq<int>, poses: map<int, Pose>, k: map<int, Mat3>, dims: map<int, (int, int)>)
    ensures forall x :: x in CameraDefImages(reg, poses, k, dims) <==> x in reg && DefinesCamera(x, poses, k, dims)
  {
    if reg != [] {
      var front := reg[..|reg| - 1];
      assert reg == front + [reg[|reg| - 1]];
      CameraDefImagesMembers(front, poses, k, dims);
    }
  }

  /** The export fails for want of nodes exactly when no image qualifies for a camera and there are no points. */
  lemma NothingExportedExactly(reg: seq<int>, poses: map<int, Pose>, k: map<int, Mat3>, dims: map<int, (int, int)>,
                               points: seq<Vec3>, ids: seq<Option<int>>)
    ensures var defs := CameraDefImages(reg, poses, k, dims);
      (CameraNodes(reg, defs, poses) == [] && PointNodes(points, PointLabels(points, ids)) == [])
      <==> ((forall x :: x in reg ==> !DefinesCamera(x, poses, k, dims)) && points == [])
  {
    var defs := CameraDefImages(reg, poses, k, dims);
    CameraDefImagesMembers(reg, poses, k, dims);
    CameraNodesFollowDefs(reg, defs, poses, k, dims);
    if defs != [] {
      assert defs[0] in defs;
    }
    assert |PointNodes(points, PointLabels(points, ids))| == |points|;
  }

  /** The labels of the point nodes: the given ids, or 0 .. n - 1 when the counts differ. */
  function PointLabels(points: seq<Vec3>, ids: seq<Option<int>>): seq<Option<int>> {
    if |ids| == |points| then ids else seq(|points|, i => Some(i))
  }

  /** The point nodes, one per point, in order. */
  function PointNodes(points: seq<Vec3>, labels: seq<Option<int>>): seq<Node>
    requires |labels| == |points|
  {
    seq(|points|, i requires 0 <= i < |points| => PointNode(labels[i], ToGltfPoint(points[i])))
  }

  /** The camera definitions, and for each image the index of its last definition. */
  method MakeCameraDefs(reg: seq<int>, poses: map<int, Pose>, k: map<int, Mat3>, dims: map<int, (int, int)>)
    returns (cameras: seq<CameraDef>, camIndex: map<int, int>)
    ensures |cameras| == |CameraDefImages(reg, poses, k, dims)|
    ensures forall i :: 0 <= i < |cameras| ==> cameras[i].imageIndex == CameraDefImages(reg, poses, k, dims)[i]
    ensures forall idx :: idx in camIndex <==> idx in CameraDefImages(reg, poses, k, dims)
    ensures forall idx :: idx in camIndex ==> camIndex[idx] == LastIndex(CameraDefImages(reg, poses, k, dims), idx)
  {
    cameras, camIndex := [], map[];
    ghost var defs: seq<int> := [];
    var n := 0;
    while n < |reg|
      invariant 0 <= n <= |reg|
      invariant defs == CameraDefImages(reg[..n], poses, k, dims)
      invariant |cameras| == |defs|
      invariant forall i :: 0 <= i < |cameras| ==> cameras[i].imageIndex == defs[i]
      invariant forall idx :: idx in camIndex <==> idx in defs
      invariant forall idx :: idx in camIndex ==> camIndex[idx] == LastIndex(defs, idx)
    {
      var idx := reg[n];
      assert reg[..n + 1][..n] == reg[..n];
      if idx in poses && idx in k && idx in dims && dims[idx].0 > 0 && dims[idx].1 > 0 {
        cameras := cameras + [CameraDef(idx)];
        camIndex := camIndex[idx := |cameras| - 1];
        defs := defs + [idx];
        assert forall x :: x != idx ==> LastIndex(defs, x) == LastIndex(defs[..|defs| - 1], x);
      }
      n := n + 1;
    }
    assert reg[..n] == reg;
  }

  /** The camera nodes, made in registration order. */
  method MakeCameraNodes(reg: seq<int>, ghost defs: seq<int>, camIndex: map<int, int>, poses: map<int, Pose>)
    returns (nodes: seq<Node>)
    requires forall idx :: idx in camIndex <==> idx in defs
    requires forall idx :: idx in camIndex ==> camIndex[idx] == LastIndex(defs, idx)
    ensures nodes == CameraNodes(reg, defs, poses)
  {
    nodes := [];
    var n := 0;
    while n < |reg|
      invariant 0 <= n <= |reg|
      invariant nodes == CameraNodes(reg[..n], defs, poses)
    {
      var idx := reg[n];
      assert reg[..n + 1][..n] == reg[..n];
      if idx in camIndex && idx in poses {
        var pose := poses[idx];
        var matrix := ColumnMajor(GltfRotation(pose.rotation), GltfTranslation(pose.translation));
        nodes := nodes + [CameraNode(idx, camIndex[idx], matrix)];
      }
      n := n + 1;
    }
    assert reg[..n] == reg;
  }

  /** The point nodes, made in point order. */
  method MakePointNodes(points: seq<Vec3>, ids: seq<Option<int>>) returns (nodes: seq<Node>)
    ensures nodes == PointNodes(points, PointLabels(points, ids))
    ensures |nodes| == |points|
    ensures forall i :: 0 <= i < |points| ==>
      nodes[i] == PointNode(if |ids| == |points| then ids[i] else Some(i), ToGltfPoint(points[i]))
  {
    var labels := if |ids| != |points| then seq(|points|, i => Some(i)) else ids;
    nodes := [];
    var i := 0;
    while i < |points|
      invariant 0 <= i <= |points|
      invariant |nodes| == i
      invariant forall j :: 0 <= j < i ==> nodes[j] == PointNode(labels[j], ToGltfPoint(points[j]))
    {
      nodes := nodes + [PointNode(labels[i], ToGltfPoint(points[i]))];
      i := i + 1;
    }
  }

  /**
    Exports calibration results: rejects a missing or empty dictionary, missing
    keys (listed in order) and intrinsics that are not a map; otherwise makes
    the camera definitions, then the camera nodes, then the point nodes, and
    fails only when neither a camera node nor a point node was made.
   */
  method ExportScene(results: Option<ResultsDict>, dims: map<int, (int, int)>) returns (r: Result<Scene, ExportError>)
    ensures results.None? ==> r == Err(InvalidResults)
    ensures results.Some? && MissingKeyNames(results.value) != [] ==> r == Err(MissingKeys(MissingKeyNames(results.value)))
    ensures results.Some? && MissingKeyNames(results.value) == [] && results.value.intrinsics.value.IntrinsicsOther?
      ==> r == Err(IntrinsicsInvalid)
    ensures results.Some? && MissingKeyNames(results.value) == [] && results.value.intrinsics.value.IntrinsicsMap? ==>
      var d := results.value;
      var defs := CameraDefImages(d.registeredIndices.value, d.poses.value, d.intrinsics.value.k, dims);
      var camNodes := CameraNodes(d.registeredIndices.value, defs, d.poses.value);
      var pointNodes := PointNodes(d.points3d.value, PointLabels(d.points3d.value, d.pointIds.value));
      if camNodes == [] && pointNodes == [] then r == Err(NothingExported)
      else
        r.Ok? && |r.value.cameras| == |defs|
        && (forall i :: 0 <= i < |defs| ==> r.value.cameras[i].imageIndex == defs[i])
        && r.value.nodes == camNodes + pointNodes
  {
    if results.None? {
      return Err(InvalidResults);
    }
    var d := results.value;
    var missing := MissingKeyNames(d);
    if missing != [] {
      return Err(MissingKeys(missing));
    }
    if d.intrinsics.value.IntrinsicsOther? {
      return Err(IntrinsicsInvalid);
    }
    var reg := d.registeredIndices.value;
    var poses := d.poses.value;
    var cameras, camIndex := MakeCameraDefs(reg, poses, d.intrinsics.value.k, dims);
    ghost var defs := CameraDefImages(reg, poses, d.intrinsics.value.k, dims);
    var camNodes := MakeCameraNodes(reg, defs, camIndex, poses);
    var pointNodes := MakePointNodes(d.points3d.value, d.pointIds.value);
    if |camNodes| == 0 && |pointNodes| == 0 {
      return Err(NothingExported);
    }
    return Ok(Scene(cameras, camNodes + pointNodes));
  }
}
