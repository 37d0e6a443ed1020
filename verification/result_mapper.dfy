/**
  Reading the solver's reconstructions back into the window's terms: choosing
  the reconstruction with the most registered images, mapping solver image
  ids back to image indices through file base names, extracting intrinsics
  and camera-to-world poses, and resolving every 3-D point to a point set.
 */
module ResultMapper {
  import opened Wrappers
  import opened Linear
  import opened SortedKeys
  import opened CalibrationData

  datatype CameraModel = SimplePinhole | OtherModel(modelId: int)

  datatype SolverCamera = SolverCamera(model: CameraModel, params: seq<real>)

  /** A world-to-camera rigid transform. */
  datatype Rigid3 = Rigid3(rotation: Mat3, translation: Vec3)

  datatype SolverImage = SolverImage(cameraId: int, camFromWorld: Rigid3)

  /** One observation of a 3-D point: a solver image id and a keypoint index in that image. */
  datatype TrackElement = TrackElement(imageId: int, point2DIdx: int)

  datatype Point3D = Point3D(xyz: Vec3, track: seq<TrackElement>)

  /** A reconstruction: its registered images by solver image id, its cameras by camera id, its points in order. */
  datatype Reconstruction = Reconstruction(
    numRegImages: nat,
    images: map<int, SolverImage>,
    cameras: map<int, SolverCamera>,
    points3D: seq<Point3D>)

  /** An image row of the solver's database. */
  datatype DbImage = DbImage(name: string, imageId: int)

  datatype SelectError = NoModels | TooFewRegistered

  /**
    The reconstruction to use: the first one with the largest number of
    registered images; none at all, or fewer than two registered images in
    the largest, is an error.
   */
  method SelectReconstruction(recs: seq<Reconstruction>) returns (r: Result<nat, SelectError>)
    ensures recs == [] ==> r == Err(NoModels)
    ensures r.Ok? ==>
      && r.value < |recs|
      && recs[r.value].numRegImages >= 2
      && (forall i :: 0 <= i < |recs| ==> recs[i].numRegImages <= recs[r.value].numRegImages)
      && (forall i :: 0 <= i < r.value ==> recs[i].numRegImages < recs[r.value].numRegImages)
    ensures r.Err? && recs != [] ==>
      && r == Err(TooFewRegistered)
      && (forall i :: 0 <= i < |recs| ==> recs[i].numRegImages < 2)
  {
    if recs == [] {
      return Err(NoModels);
    }
    var best: int := -1;
    var maxReg: int := -1;
    var i := 0;
    while i < |recs|
      invariant 0 <= i <= |recs|
      invariant i == 0 ==> best == -1 && maxReg == -1
      invariant i > 0 ==> 0 <= best < i && maxReg == recs[best].numRegImages
      invariant forall j :: 0 <= j < i ==> recs[j].numRegImages <= maxReg
      invariant forall j :: 0 <= j < best ==> recs[j].numRegImages < maxReg
    {
      if recs[i].numRegImages > maxReg {
        maxReg := recs[i].numRegImages;
        best := i;
      }
      i := i + 1;
    }
    if best == -1 || maxReg < 2 {
      return Err(TooFewRegistered);
    }
    return Ok(best);
  }

  /** The part of a path after its last '/'. */
  function Basename(path: string): string {
    if path == [] then []
    else if path[|path| - 1] == '/' then []
    else Basename(path[..|path| - 1]) + [path[|path| - 1]]
  }

  /** The base name is the longest suffix of the path without a '/'. */
  lemma {:induction false} BasenameFacts(path: string)
    ensures var b := Basename(path);
      && |b| <= |path| && path == path[..|path| - |b|] + b
      && '/' !in b
      && (|b| < |path| ==> path[|path| - |b| - 1] == '/')
  {
    if path != [] {
      var c := path[|path| - 1];
      var front := path[..|path| - 1];
      assert path == front + [c];
      if c != '/' {
        BasenameFacts(front);
        var b' := Basename(front);
        var k := |front| - |b'|;
        assert Basename(path) == b' + [c];
        assert path[..k] == front[..k];
        assert path == path[..k] + (b' + [c]);
        if k > 0 {
          assert path[k - 1] == front[k - 1];
        }
      }
    }
  }

  /** The database's name -> image id table; a later row with the same name wins. */
  function NameIndex(rows: seq<DbImage>): map<string, int> {
    if rows == [] then map[]
    else NameIndex(rows[..|rows| - 1])[rows[|rows| - 1].name := rows[|rows| - 1].imageId]
  }

  /** No row after row i carries the same name. */
  predicate LastWithName(rows: seq<DbImage>, i: int)
    requires 0 <= i < |rows|
  {
    forall j :: i < j < |rows| ==> rows[j].name != rows[i].name
  }

  /** The table holds exactly the names of the rows, each with the id of its last row. */
  lemma {:induction false} NameIndexFacts(rows: seq<DbImage>)
    ensures forall i :: 0 <= i < |rows| ==> rows[i].name in NameIndex(rows)
    ensures forall name :: name in NameIndex(rows) ==> exists i :: 0 <= i < |rows| && rows[i].name == name
    ensures forall i :: 0 <= i < |rows| && LastWithName(rows, i) ==> NameIndex(rows)[rows[i].name] == rows[i].imageId
  {
    if rows != [] {
      var front := rows[..|rows| - 1];
      NameIndexFacts(front);
      forall i | 0 <= i < |front| ensures rows[i] == front[i] { }
      forall name | name in NameIndex(rows) ensures exists i :: 0 <= i < |rows| && rows[i].name == name {
        if name != rows[|rows| - 1].name {
          var i :| 0 <= i < |front| && front[i].name == name;
          assert rows[i].name == name;
        }
      }
      forall i | 0 <= i < |rows| - 1 && LastWithName(rows, i) ensures LastWithName(front, i) { }
    }
  }

  /** image index -> solver image id, for the images whose base name is in the table. */
  function IndexIds(paths: seq<string>, nameToId: map<string, int>): map<int, int> {
    map idx | 0 <= idx < |paths| && Basename(paths[idx]) in nameToId :: nameToId[Basename(paths[idx])]
  }

  /** solver image id -> image index, filled in index order, so that a later index wins. */
  function IdIndex(paths: seq<string>, nameToId: map<string, int>): map<int, int> {
    if paths == [] then map[]
    else
      var rest := IdIndex(paths[..|paths| - 1], nameToId);
      var name := Basename(paths[|paths| - 1]);
      if name in nameToId then rest[nameToId[name] := |paths| - 1] else rest
  }

  /**
    Image index <-> solver image id, by base name: every image whose base name
    is in the database table gets that id; the reverse table keeps, for each
    id, the last image index mapped to it.
   */
  method MapImageNames(paths: seq<string>, nameToId: map<string, int>)
    returns (idxToId: map<int, int>, idToIdx: map<int, int>)
    ensures forall idx :: idx in idxToId <==> 0 <= idx < |paths| && Basename(paths[idx]) in nameToId
    ensures forall idx :: idx in idxToId ==> idxToId[idx] == nameToId[Basename(paths[idx])]
    ensures forall idx :: idx in idxToId ==> idxToId[idx] in idToIdx && idToIdx[idxToId[idx]] >= idx
    ensures forall id :: id in idToIdx ==> idToIdx[id] in idxToId && idxToId[idToIdx[id]] == id
    ensures idxToId == IndexIds(paths, nameToId) && idToIdx == IdIndex(paths, nameToId)
  {
    idxToId, idToIdx := map[], map[];
    var idx := 0;
    while idx < |paths|
      invariant 0 <= idx <= |paths|
      invariant forall i :: i in idxToId <==> 0 <= i < idx && Basename(paths[i]) in nameToId
      invariant forall i :: i in idxToId ==> idxToId[i] == nameToId[Basename(paths[i])]
      invariant forall i :: i in idxToId ==> idxToId[i] in idToIdx && idToIdx[idxToId[i]] >= i
      invariant forall id :: id in idToIdx ==> idToIdx[id] in idxToId && idxToId[idToIdx[id]] == id
      invariant idToIdx == IdIndex(paths[..idx], nameToId)
    {
      assert paths[..idx + 1][..idx] == paths[..idx];
      var name := Basename(paths[idx]);
      if name in nameToId {
        var id := nameToId[name];
        idxToId := idxToId[idx := id];
        idToIdx := idToIdx[id := idx];
      }
      assert idToIdx == IdIndex(paths[..idx + 1], nameToId);
      idx := idx + 1;
    }
    assert paths[..idx] == paths;
    var spec := IndexIds(paths, nameToId);
    assert forall i :: i in spec <==> i in idxToId;
    assert forall i :: i in spec ==> spec[i] == idxToId[i];
  }

  /** The K matrix of a simple pinhole camera with focal length f and principal point (cx, cy). */
  function PinholeK(f: real, cx: real, cy: real): Mat3 {
    Mat3(Vec3(f, 0.0, cx), Vec3(0.0, f, cy), Vec3(0.0, 0.0, 1.0))
  }

  /** Intrinsics are taken only from a simple pinhole camera with exactly three parameters. */
  function IntrinsicsOf(cam: SolverCamera): (k: Option<Mat3>)
    ensures k.Some? <==> cam.model == SimplePinhole && |cam.params| == 3
    ensures k.Some? ==>
      && k.value.r0.x == k.value.r1.y == cam.params[0]
      && k.value.r0.z == cam.params[1] && k.value.r1.z == cam.params[2]
  {
    if cam.model == SimplePinhole && |cam.params| == 3 then Some(PinholeK(cam.params[0], cam.params[1], cam.params[2]))
    else None
  }

  /** A simple pinhole camera with the wrong number of parameters gets no pose either; other models do. */
  predicate PoseAccepted(cam: SolverCamera) {
    !(cam.model == SimplePinhole && |cam.params| != 3)
  }

  /** The camera-to-world pose of a world-to-camera transform: R^T and -R^T t. */
  function InvertPose(p: Rigid3): Pose {
    Pose(Transpose(p.rotation), Neg(MatVec(Transpose(p.rotation), p.translation)))
  }

  /** With an orthonormal rotation, the inverted pose takes a point seen by the camera back to the world. */
  lemma InvertPoseUndoes(p: Rigid3, x: Vec3)
    requires MatMul(Transpose(p.rotation), p.rotation) == Identity
    ensures var inv := InvertPose(p);
      Add(MatVec(inv.rotation, Add(MatVec(p.rotation, x), p.translation)), inv.translation) == x
  {
    var rt := Transpose(p.rotation);
    MatVecAdd(rt, MatVec(p.rotation, x), p.translation);
    MatVecMatMul(rt, p.rotation, x);
    MatVecIdentity(x);
  }

  /** With an orthonormal rotation, the camera position of the inverted pose is the camera's own origin. */
  lemma InvertPoseCentre(p: Rigid3)
    requires MatMul(p.rotation, Transpose(p.rotation)) == Identity
    ensures Add(MatVec(p.rotation, InvertPose(p).translation), p.translation) == Zero
  {
    var rt := Transpose(p.rotation);
    MatVecNeg(p.rotation, MatVec(rt, p.translation));
    MatVecMatMul(p.rotation, rt, p.translation);
    MatVecIdentity(p.translation);
  }

  /** The solver image of app image idx, when that image is registered in the reconstruction. */
  predicate IsRegistered(idx: int, idxToId: map<int, int>, rec: Reconstruction) {
    idx in idxToId && idxToId[idx] in rec.images
  }

  function RegisteredImage(idx: int, idxToId: map<int, int>, rec: Reconstruction): SolverImage
    requires IsRegistered(idx, idxToId, rec)
  {
    var id := idxToId[idx];
    rec.images[id]
  }

  /** Every registered image's camera is in the reconstruction. */
  predicate CamerasKnown(rec: Reconstruction) {
    forall id :: id in rec.images ==> rec.images[id].cameraId in rec.cameras
  }

  function CameraOf(idx: int, idxToId: map<int, int>, rec: Reconstruction): SolverCamera
    requires IsRegistered(idx, idxToId, rec) && CamerasKnown(rec)
  {
    var image := RegisteredImage(idx, idxToId, rec);
    rec.cameras[image.cameraId]
  }

  /** The image indices, in the order given, that end up with a pose. */
  function PosedImages(order: seq<int>, idxToId: map<int, int>, rec: Reconstruction): seq<int>
    requires CamerasKnown(rec)
  {
    if order == [] then []
    else
      var idx := order[|order| - 1];
      PosedImages(order[..|order| - 1], idxToId, rec)
        + (if IsRegistered(idx, idxToId, rec) && PoseAccepted(CameraOf(idx, idxToId, rec)) then [idx] else [])
  }

  /**
    Intrinsics and camera-to-world poses of the mapped images that are
    registered, in mapping order.
   */
  method ExtractCameras(order: seq<int>, idxToId: map<int, int>, rec: Reconstruction)
    returns (intrinsics: map<int, Mat3>, poses: map<int, Pose>, registered: seq<int>)
    requires CamerasKnown(rec)
    ensures registered == PosedImages(order, idxToId, rec)
    ensures forall idx :: idx in poses <==>
      idx in order && IsRegistered(idx, idxToId, rec) && PoseAccepted(CameraOf(idx, idxToId, rec))
    ensures forall idx :: idx in poses ==>
      IsRegistered(idx, idxToId, rec) && poses[idx] == InvertPose(RegisteredImage(idx, idxToId, rec).camFromWorld)
    ensures forall idx :: idx in intrinsics <==>
      idx in order && IsRegistered(idx, idxToId, rec) && IntrinsicsOf(CameraOf(idx, idxToId, rec)).Some?
    ensures forall idx :: idx in intrinsics ==> Some(intrinsics[idx]) == IntrinsicsOf(CameraOf(idx, idxToId, rec))
  {
    intrinsics, poses, registered := map[], map[], [];
    var n := 0;
    while n < |order|
      invariant 0 <= n <= |order|
      invariant registered == PosedImages(order[..n], idxToId, rec)
      invariant forall idx :: idx in poses <==>
        idx in order[..n] && IsRegistered(idx, idxToId, rec) && PoseAccepted(CameraOf(idx, idxToId, rec))
      invariant forall idx :: idx in poses ==>
        IsRegistered(idx, idxToId, rec) && poses[idx] == InvertPose(RegisteredImage(idx, idxToId, rec).camFromWorld)
      invariant forall idx :: idx in intrinsics <==>
        idx in order[..n] && IsRegistered(idx, idxToId, rec) && IntrinsicsOf(CameraOf(idx, idxToId, rec)).Some?
      invariant forall idx :: idx in intrinsics ==> Some(intrinsics[idx]) == IntrinsicsOf(CameraOf(idx, idxToId, rec))
    {
      var idx := order[n];
      assert order[..n + 1] == order[..n] + [idx];
      if idx in idxToId && idxToId[idx] in rec.images {
        var id := idxToId[idx];
        var image := rec.images[id];
        var camera := rec.cameras[image.cameraId];
        var skip := false;
        if camera.model == SimplePinhole {
          if |camera.params| == 3 {
            intrinsics := intrinsics[idx := PinholeK(camera.params[0], camera.params[1], camera.params[2])];
          } else {
            skip := true;
          }
        }
        if !skip {
          var rt := Transpose(image.camFromWorld.rotation);
          poses := poses[idx := Pose(rt, Neg(MatVec(rt, image.camFromWorld.translation)))];
          registered := registered + [idx];
        }
      }
      n := n + 1;
    }
    assert order[..n] == order;
  }

  /** The inverse of a keypoint map, built over its keys in ascending order; a later key wins. */
  function InvertOver(keys: seq<int>, m: map<int, int>): map<int, int> {
    if keys == [] then map[]
    else
      var k := keys[|keys| - 1];
      var rest := InvertOver(keys[..|keys| - 1], m);
      if k in m then rest[m[k] := k] else rest
  }

  /** keypoint index -> set id for one image. */
  function Invert(m: map<int, int>): map<int, int> {
    InvertOver(SortedIds(m.Keys), m)
  }

  predicate Injective(m: map<int, int>) {
    forall a, b :: a in m && b in m && a != b ==> m[a] != m[b]
  }

  lemma {:induction false} InvertOverFacts(keys: seq<int>, m: map<int, int>)
    requires Injective(m)
    ensures forall v :: v in InvertOver(keys, m) ==>
      && InvertOver(keys, m)[v] in m && InvertOver(keys, m)[v] in keys
      && m[InvertOver(keys, m)[v]] == v
    ensures forall k :: k in keys && k in m ==> m[k] in InvertOver(keys, m) && InvertOver(keys, m)[m[k]] == k
  {
    if keys != [] {
      var front := keys[..|keys| - 1];
      assert keys == front + [keys[|keys| - 1]];
      InvertOverFacts(front, m);
    }
  }

  /** The inverse of an injective keypoint map is exact in both directions. */
  lemma InvertExact(m: map<int, int>)
    requires Injective(m)
    ensures forall k :: k in m ==> m[k] in Invert(m) && Invert(m)[m[k]] == k
    ensures forall v :: v in Invert(m) ==> Invert(m)[v] in m && m[Invert(m)[v]] == v
  {
    SortedIdsFacts(m.Keys);
    InvertOverFacts(SortedIds(m.Keys), m);
  }

  /** The inverse keypoint map of every image that has a keypoint map. */
  function InvertAll(maps: map<int, map<int, int>>): map<int, map<int, int>> {
    map img | img in maps :: Invert(maps[img])
  }

  /** A track element that names a mapped image and a keypoint with a known set. */
  predicate Resolvable(e: TrackElement, idToIdx: map<int, int>, inv: map<int, map<int, int>>) {
    e.imageId in idToIdx && idToIdx[e.imageId] in inv && e.point2DIdx in inv[idToIdx[e.imageId]]
  }

  function SetOf(e: TrackElement, idToIdx: map<int, int>, inv: map<int, map<int, int>>): int
    requires Resolvable(e, idToIdx, inv)
  {
    inv[idToIdx[e.imageId]][e.point2DIdx]
  }

  /** The set id of a 3-D point: that of the first track element that resolves to one, if any. */
  function ResolveTrack(track: seq<TrackElement>, idToIdx: map<int, int>, inv: map<int, map<int, int>>): Option<int> {
    if track == [] then None
    else if Resolvable(track[0], idToIdx, inv) then Some(SetOf(track[0], idToIdx, inv))
    else ResolveTrack(track[1..], idToIdx, inv)
  }

  /**
    A track resolves to nothing exactly when none of its elements resolves,
    and otherwise to the set of the first element that does.
   */
  lemma {:induction false} ResolveTrackFirst(track: seq<TrackElement>, idToIdx: map<int, int>, inv: map<int, map<int, int>>)
    ensures ResolveTrack(track, idToIdx, inv).None? <==>
      forall i :: 0 <= i < |track| ==> !Resolvable(track[i], idToIdx, inv)
    ensures ResolveTrack(track, idToIdx, inv).Some? ==>
      exists i :: 0 <= i < |track| && Resolvable(track[i], idToIdx, inv)
        && ResolveTrack(track, idToIdx, inv).value == SetOf(track[i], idToIdx, inv)
        && forall j :: 0 <= j < i ==> !Resolvable(track[j], idToIdx, inv)
  {
    if track != [] && !Resolvable(track[0], idToIdx, inv) {
      var tail := track[1..];
      ResolveTrackFirst(tail, idToIdx, inv);
      assert forall i :: 0 < i < |track| ==> track[i] == tail[i - 1];
      if ResolveTrack(tail, idToIdx, inv).Some? {
        var i :| 0 <= i < |tail| && Resolvable(tail[i], idToIdx, inv)
          && ResolveTrack(tail, idToIdx, inv).value == SetOf(tail[i], idToIdx, inv)
          && forall j :: 0 <= j < i ==> !Resolvable(tail[j], idToIdx, inv);
        assert track[i + 1] == tail[i];
      }
    }
  }

  /**
    When the inverse maps come from injective keypoint maps, a 3-D point
    resolves to set s only through an element whose keypoint index is the
    one set s was given in that element's image.
   */
  lemma ResolvedSetOwnsKeypoint(track: seq<TrackElement>, idToIdx: map<int, int>, maps: map<int, map<int, int>>)
    requires forall img :: img in maps ==> Injective(maps[img])
    ensures var r := ResolveTrack(track, idToIdx, InvertAll(maps));
      r.Some? ==> exists i ::
        && 0 <= i < |track| && track[i].imageId in idToIdx
        && idToIdx[track[i].imageId] in maps
        && r.value in maps[idToIdx[track[i].imageId]]
        && maps[idToIdx[track[i].imageId]][r.value] == track[i].point2DIdx
  {
    var inv := InvertAll(maps);
    ResolveTrackFirst(track, idToIdx, inv);
    var r := ResolveTrack(track, idToIdx, inv);
    if r.Some? {
      var i :| 0 <= i < |track| && Resolvable(track[i], idToIdx, inv) && r.value == SetOf(track[i], idToIdx, inv)
        && forall j :: 0 <= j < i ==> !Resolvable(track[j], idToIdx, inv);
      var img := idToIdx[track[i].imageId];
      InvertExact(maps[img]);
    }
  }

  /** The 3-D points in reconstruction order, each with its resolved set id. */
  method MapPoints(points: seq<Point3D>, idToIdx: map<int, int>, inv: map<int, map<int, int>>)
    returns (xyz: seq<Vec3>, ids: seq<Option<int>>)
    ensures |xyz| == |points| && |ids| == |points|
    ensures forall i :: 0 <= i < |points| ==> xyz[i] == points[i].xyz && ids[i] == ResolveTrack(points[i].track, idToIdx, inv)
  {
    xyz, ids := [], [];
    var i := 0;
    while i < |points|
      invariant 0 <= i <= |points|
      invariant |xyz| == i && |ids| == i
      invariant forall j :: 0 <= j < i ==> xyz[j] == points[j].xyz && ids[j] == ResolveTrack(points[j].track, idToIdx, inv)
    {
      var found: Option<int> := None;
      var t := 0;
      var track := points[i].track;
      while t < |track|
        invariant 0 <= t <= |track|
        invariant found.None? ==> ResolveTrack(track[t..], idToIdx, inv) == ResolveTrack(track, idToIdx, inv)
        invariant found.Some? ==> found == ResolveTrack(track, idToIdx, inv)
      {
        var e := track[t];
        assert track[t..][0] == e && track[t..][1..] == track[t + 1..];
        if e.imageId in idToIdx && idToIdx[e.imageId] in inv && e.point2DIdx in inv[idToIdx[e.imageId]] {
          found := Some(inv[idToIdx[e.imageId]][e.point2DIdx]);
          break;
        }
        t := t + 1;
      }
      xyz := xyz + [points[i].xyz];
      ids := ids + [found];
      i := i + 1;
    }
  }
}
