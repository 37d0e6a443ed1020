/**
  The data side of the main window: the point-set store and its id counter,
  the project file hooks, and the calibration run that builds the solver
  input and maps the solver's output back to image indices and set ids.
  Widgets, markers, message boxes and the status bar are not modelled.
 */
module Window {
  import opened Wrappers
  import opened SortedKeys
  import opened Observations
  import opened SolverInput
  import opened Linear
  import opened CalibrationData
  import opened ResultMapper
  import opened ProjectFile

  /** A camera as written to the solver database, seeded from the image size. */
  datatype CameraSeed = CameraSeed(name: string, width: int, height: int, focal: real, cx: real, cy: real)

  /** Everything the solver database is given: one camera per image, keypoints, and matches per image pair. */
  datatype DbInput = DbInput(
    cameras: seq<CameraSeed>,
    keypoints: map<int, seq<Keypoint>>,
    matches: map<(int, int), set<(int, int)>>)

  datatype PopulateError = InvalidDimensions(imageIndex: int)

  datatype CalibrationError =
    | TooFewImages
    | TooFewPointSets
    | DimensionsMissing
    | NoReconstruction
    | TooFewRegistered

  /** Focal length 1.2 times the larger side, principal point at the centre. */
  function SeedCamera(path: string, width: int, height: int): (c: CameraSeed)
    ensures c.name == Basename(path) && c.width == width && c.height == height
    ensures c.focal == 1.2 * width as real || c.focal == 1.2 * height as real
    ensures c.focal >= 1.2 * width as real && c.focal >= 1.2 * height as real
    ensures 2.0 * c.cx == width as real && 2.0 * c.cy == height as real
  {
    var side := if width >= height then width else height;
    CameraSeed(Basename(path), width, height, 1.2 * side as real, width as real / 2.0, height as real / 2.0)
  }

  predicate HasDims(dims: map<int, (int, int)>, img: int) {
    img in dims && dims[img].0 > 0 && dims[img].1 > 0
  }

  /** The sizes after the missing ones of images 0 .. n-1 are taken from the image files. */
  function FilledDims(dims: map<int, (int, int)>, fileDims: map<int, (int, int)>, n: int): map<int, (int, int)> {
    map img | img in dims.Keys + fileDims.Keys && (img in dims || 0 <= img < n) :: if img in dims then dims[img] else fileDims[img]
  }

  /**
    The sizes after filling stopped at image f: f is the first image with
    neither a size nor a readable file, and the images before it were filled.
   */
  ghost predicate FillStopped(dims: map<int, (int, int)>, before: map<int, (int, int)>, fileDims: map<int, (int, int)>, n: int) {
    exists f ::
      && 0 <= f < n && f !in before && f !in fileDims
      && (forall img :: 0 <= img < f ==> img in before || img in fileDims)
      && dims == FilledDims(before, fileDims, f)
  }

  /** Sizes that keep the old ones, add file sizes only for images 0 .. n-1, and cover all of them, are the filled sizes. */
  lemma FilledDimsExactly(dims: map<int, (int, int)>, before: map<int, (int, int)>, fileDims: map<int, (int, int)>, n: int)
    requires forall img :: 0 <= img < n ==> img in dims
    requires forall img :: img in before ==> img in dims && dims[img] == before[img]
    requires forall img :: img in dims && img !in before ==> 0 <= img < n && img in fileDims && dims[img] == fileDims[img]
    ensures dims == FilledDims(before, fileDims, n)
  {
    var filled := FilledDims(before, fileDims, n);
    assert forall img :: img in dims <==> img in filled;
  }

  /** Filling one more image adds its file size when it has no size yet. */
  lemma FilledDimsStep(before: map<int, (int, int)>, fileDims: map<int, (int, int)>, n: int)
    requires 0 <= n
    ensures n in FilledDims(before, fileDims, n) <==> n in before
    ensures FilledDims(before, fileDims, n + 1) ==
      if n in before || n !in fileDims then FilledDims(before, fileDims, n)
      else FilledDims(before, fileDims, n)[n := fileDims[n]]
  {
  }

  /**
    The calibration results read off one reconstruction: poses and intrinsics
    of the images mapped by base name, in index order, and every 3-D point
    with the set id its track resolves to.
   */
  ghost predicate ResultsFrom(cr: CalibrationResults, paths: seq<string>, rows: seq<DbImage>,
                              rec: Reconstruction, maps: KeypointMaps)
    requires CamerasKnown(rec)
  {
    var idxToId := IndexIds(paths, NameIndex(rows));
    && cr.registeredIndices == PosedImages(SortedIds(idxToId.Keys), idxToId, rec)
    && (forall idx :: idx in cr.poses <==>
          idx in idxToId && IsRegistered(idx, idxToId, rec) && PoseAccepted(CameraOf(idx, idxToId, rec)))
    && (forall idx :: idx in cr.poses ==>
          IsRegistered(idx, idxToId, rec) && cr.poses[idx] == InvertPose(RegisteredImage(idx, idxToId, rec).camFromWorld))
    && (forall idx :: idx in cr.intrinsics <==>
          idx in idxToId && IsRegistered(idx, idxToId, rec) && IntrinsicsOf(CameraOf(idx, idxToId, rec)).Some?)
    && (forall idx :: idx in cr.intrinsics ==> Some(cr.intrinsics[idx]) == IntrinsicsOf(CameraOf(idx, idxToId, rec)))
    && |cr.points3d| == |rec.points3D| && |cr.pointIds| == |rec.points3D|
    && (forall i :: 0 <= i < |rec.points3D| ==>
          && cr.points3d[i] == rec.points3D[i].xyz
          && cr.pointIds[i] == ResolveTrack(rec.points3D[i].track, IdIndex(paths, NameIndex(rows)), InvertAll(maps)))
  }

  /** The results of one reconstruction, as the run stores them. */
  method ParseReconstruction(paths: seq<string>, rows: seq<DbImage>, rec: Reconstruction, maps: KeypointMaps)
    returns (cr: CalibrationResults)
    requires CamerasKnown(rec)
    ensures ResultsFrom(cr, paths, rows, rec, maps)
  {
    var nameToId := NameIndex(rows);
    var idxToId, idToIdx := MapImageNames(paths, nameToId);
    var order := SortedIds(idxToId.Keys);
    SortedIdsFacts(idxToId.Keys);
    var intrinsics, poses, registered := ExtractCameras(order, idxToId, rec);
    var xyz, ids := MapPoints(rec.points3D, idToIdx, InvertAll(maps));
    cr := CalibrationResults(intrinsics, poses, xyz, ids, registered);
  }

  /**
    The point sets, sizes and names of a project file, and its largest set
    id; a missing sizes or names object gives an empty table.
   */
  method ReadProject(pointEntries: seq<(string, ObsField)>, dimsEntries: Option<seq<(string, DimsField)>>,
                     nameEntries: Option<seq<(string, NameField)>>)
    returns (dims: map<int, (int, int)>, pd: PointData, maxId: int, names: map<int, string>)
    ensures dims == (if dimsEntries.Some? then LoadDims(dimsEntries.value) else map[])
    ensures forall img :: img in dims ==> dims[img].0 > 0 && dims[img].1 > 0
    ensures pd == LoadSets(pointEntries) && maxId == MaxSetId(pointEntries)
    ensures maxId >= -1 && IdsBelow(pd, maxId + 1)
    ensures names == (if nameEntries.Some? then LoadNames(nameEntries.value) else map[])
    ensures forall s :: s in names ==> names[s] != [] && Stripped(names[s])
  {
    dims := map[];
    if dimsEntries.Some? {
      dims := ReadDims(dimsEntries.value);
      LoadDimsPositive(dimsEntries.value);
    }
    pd, maxId := ReadPointData(pointEntries);
    MaxSetIdFacts(pointEntries);
    names := map[];
    if nameEntries.Some? {
      names := ReadNames(nameEntries.value);
      LoadNamesStripped(nameEntries.value);
    }
  }

  /** A keypoint map gives distinct sets distinct indices. */
  lemma KeypointMapInjective(pd: PointData, img: int)
    ensures Injective(KeypointMap(pd, img))
  {
    var m := KeypointMap(pd, img);
    KeypointMapFacts(pd, img);
    forall a, b | a in m && b in m && a != b ensures m[a] != m[b] {
      if a < b {
        assert m[a] < m[b];
      } else {
        assert m[b] < m[a];
      }
    }
  }

  class MainWindow {
    var imagePaths: seq<string>
    var pointData: PointData
    var names: map<int, string>
    var imageDimensions: map<int, (int, int)>
    /** The id of the active point set, or -1 when none is active. */
    var activeSet: int
    var nextId: int
    var keypointMaps: KeypointMaps
    var calibrationResults: Option<CalibrationResults>

    /**
      The counter is above every live set id, the active set is live, image
      sizes are positive, and set names are stripped and not blank.
     */
    ghost predicate Valid()
      reads this
    {
      && nextId >= 0
      && IdsBelow(pointData, nextId)
      && (activeSet == -1 || activeSet in pointData)
      && (forall img :: img in imageDimensions ==> imageDimensions[img].0 > 0 && imageDimensions[img].1 > 0)
      && (forall s :: s in names ==> names[s] != [] && Stripped(names[s]))
    }

    /** The empty project. */
    constructor ()
      ensures Valid()
      ensures imagePaths == [] && pointData == map[] && names == map[] && imageDimensions == map[]
      ensures activeSet == -1 && nextId == 0 && keypointMaps == map[] && calibrationResults == None
    {
      imagePaths := [];
      pointData := map[];
      names := map[];
      imageDimensions := map[];
      activeSet := -1;
      nextId := 0;
      keypointMaps := map[];
      calibrationResults := None;
    }

    /** Clears the project: no images, sets, names, sizes, keypoint maps or results. */
    method ResetState()
      modifies this
      ensures Valid()
      ensures imagePaths == [] && pointData == map[] && names == map[] && imageDimensions == map[]
      ensures activeSet == -1 && nextId == 0 && keypointMaps == map[] && calibrationResults == None
    {
      imagePaths, pointData, names, imageDimensions := [], map[], map[], map[];
      activeSet, nextId := -1, 0;
      keypointMaps, calibrationResults := map[], None;
    }

    /**
      A new set under the next unused id, holding the one observation, which
      becomes the active set; the counter moves past it.
     */
    method CreateNewPointSet(img: int, p: Point2)
      requires Valid()
      modifies this
      ensures Valid()
      ensures old(nextId) !in old(pointData)
      ensures pointData == old(pointData)[old(nextId) := map[img := p]]
      ensures nextId == old(nextId) + 1 && activeSet == old(nextId)
      ensures imagePaths == old(imagePaths) && names == old(names) && imageDimensions == old(imageDimensions)
      ensures keypointMaps == old(keypointMaps) && calibrationResults == old(calibrationResults)
    {
      var newId := nextId;
      nextId := nextId + 1;
      pointData := pointData[newId := map[img := p]];
      activeSet := newId;
    }

    /**
      Adds the observation of image img to set setId; nothing changes when the
      set does not exist or already has an observation in that image.
     */
    method AddPointToSet(setId: int, img: int, p: Point2)
      requires Valid()
      modifies this
      ensures Valid()
      ensures setId !in old(pointData) || img in old(pointData)[setId] ==> pointData == old(pointData)
      ensures setId in old(pointData) && img !in old(pointData)[setId] ==>
        pointData == old(pointData)[setId := old(pointData)[setId][img := p]]
      ensures nextId == old(nextId) && activeSet == old(activeSet)
      ensures imagePaths == old(imagePaths) && names == old(names) && imageDimensions == old(imageDimensions)
      ensures keypointMaps == old(keypointMaps) && calibrationResults == old(calibrationResults)
    {
      if setId !in pointData {
        return;
      }
      if img in pointData[setId] {
        return;
      }
      pointData := pointData[setId := pointData[setId][img := p]];
    }

    /**
      A click at p in image img: with no active set, or when the active set
      already has an observation in this image, a new set is started;
      otherwise the point joins the active set.
     */
    method PlacePoint(img: int, p: Point2)
      requires Valid()
      modifies this
      ensures Valid()
      ensures old(activeSet) == -1 || img in old(pointData)[old(activeSet)] ==>
        && pointData == old(pointData)[old(nextId) := map[img := p]]
        && nextId == old(nextId) + 1 && activeSet == old(nextId)
      ensures old(activeSet) != -1 && img !in old(pointData)[old(activeSet)] ==>
        && pointData == old(pointData)[old(activeSet) := old(pointData)[old(activeSet)][img := p]]
        && nextId == old(nextId) && activeSet == old(activeSet)
      ensures imagePaths == old(imagePaths) && names == old(names) && imageDimensions == old(imageDimensions)
      ensures keypointMaps == old(keypointMaps) && calibrationResults == old(calibrationResults)
    {
      if activeSet == -1 {
        CreateNewPointSet(img, p);
      } else {
        var activePoints := if activeSet in pointData then pointData[activeSet] else map[];
        if img in activePoints {
          CreateNewPointSet(img, p);
        } else {
          AddPointToSet(activeSet, img, p);
        }
      }
    }

    /** A dragged marker: the observation of set setId in image img moves to p, if there is one. */
    method MovePoint(setId: int, img: int, p: Point2)
      requires Valid()
      modifies this
      ensures Valid()
      ensures setId in old(pointData) && img in old(pointData)[setId] ==>
        pointData == old(pointData)[setId := old(pointData)[setId][img := p]]
      ensures !(setId in old(pointData) && img in old(pointData)[setId]) ==> pointData == old(pointData)
      ensures pointData.Keys == old(pointData).Keys
      ensures forall s :: s in pointData ==> pointData[s].Keys == old(pointData)[s].Keys
      ensures nextId == old(nextId) && activeSet == old(activeSet)
      ensures imagePaths == old(imagePaths) && names == old(names) && imageDimensions == old(imageDimensions)
      ensures keypointMaps == old(keypointMaps) && calibrationResults == old(calibrationResults)
    {
      if setId in pointData && img in pointData[setId] {
        pointData := pointData[setId := pointData[setId][img := p]];
      }
    }

    /**
      Deletes the observation of set setId in image img once confirmed. A set
      left empty is removed, and is no longer active if it was; the counter
      never goes back, so its id is not handed out again.
     */
    method DeletePointObservation(setId: int, img: int, confirmed: bool)
      requires Valid()
      modifies this
      ensures Valid()
      ensures !(setId in old(pointData) && img in old(pointData)[setId] && confirmed) ==> unchanged(this)
      ensures setId in old(pointData) && img in old(pointData)[setId] && confirmed ==>
        var rest := old(pointData)[setId] - {img};
        && (rest != map[] ==> pointData == old(pointData)[setId := rest] && activeSet == old(activeSet))
        && (rest == map[] ==>
              && pointData == old(pointData) - {setId}
              && activeSet == (if old(activeSet) == setId then -1 else old(activeSet)))
      ensures forall s :: s in pointData ==> pointData[s] != map[] || (s in old(pointData) && pointData[s] == old(pointData)[s])
      ensures nextId == old(nextId)
      ensures imagePaths == old(imagePaths) && names == old(names) && imageDimensions == old(imageDimensions)
      ensures keypointMaps == old(keypointMaps) && calibrationResults == old(calibrationResults)
    {
      if !(setId in pointData && img in pointData[setId]) || !confirmed {
        return;
      }
      var rest := pointData[setId] - {img};
      pointData := pointData[setId := rest];
      if rest == map[] {
        pointData := pointData - {setId};
        if activeSet == setId {
          activeSet := -1;
        }
      }
    }

    /**
      The project file for the current state, or None when there are neither
      point sets nor images. Loading it gives back the same images, sets,
      names and sizes.
     */
    method WritePointsToFile() returns (j: Option<ProjectJson>)
      requires Valid()
      ensures j.None? <==> pointData == map[] && imagePaths == []
      ensures j.Some? ==> j.value == Save(imagePaths, pointData, names, imageDimensions)
      ensures j.Some? ==>
        && j.value.ProjectObject? && j.value.imagePaths == Some(imagePaths)
        && j.value.pointData.Some? && LoadSets(j.value.pointData.value) == pointData
        && j.value.dims.Some? && LoadDims(j.value.dims.value) == imageDimensions
        && j.value.names.Some? && LoadNames(j.value.names.value) == names
        && 0 <= MaxSetId(j.value.pointData.value) + 1 <= nextId
    {
      if pointData == map[] && imagePaths == [] {
        return None;
      }
      var pd := WritePointData(pointData);
      var nm := WriteNames(names);
      var dm := WriteDims(imageDimensions);
      j := Some(ProjectObject(Some(imagePaths), Some(pd), Some(dm), Some(nm)));
      SaveLoadRoundTrip(imagePaths, pointData, names, imageDimensions, nextId);
    }

    /**
      Replaces the project with the one in the file. A file that is not an
      object, or lacks the image list or the point data, is refused and
      nothing changes; otherwise the state is reset and filled from the file,
      and the counter is one more than the largest set id read (0 if none).
     */
    method LoadDataFromFile(j: ProjectJson) returns (ok: bool)
      requires Valid()
      modifies this
      ensures Valid()
      ensures ok <==> j.ProjectObject? && j.imagePaths.Some? && j.pointData.Some?
      ensures !ok ==> unchanged(this)
      ensures ok ==>
        && imagePaths == j.imagePaths.value
        && pointData == LoadSets(j.pointData.value)
        && nextId == MaxSetId(j.pointData.value) + 1
        && imageDimensions == (if j.dims.Some? then LoadDims(j.dims.value) else map[])
        && names == (if j.names.Some? then LoadNames(j.names.value) else map[])
        && activeSet == -1 && keypointMaps == map[] && calibrationResults == None
    {
      if !(j.ProjectObject? && j.imagePaths.Some? && j.pointData.Some?) {
        return false;
      }
      var dims, pd, maxId, nm := ReadProject(j.pointData.value, j.dims, j.names);
      ResetState();
      imagePaths, imageDimensions, pointData, names := j.imagePaths.value, dims, pd, nm;
      nextId := maxId + 1;
      ok := true;
    }

    /**
      Fills in the size of every image that has none from fileDims (the sizes
      of the image files that can be read), in index order, stopping at the
      first image that has neither.
     */
    method LoadMissingDimensions(fileDims: map<int, (int, int)>) returns (ok: bool)
      requires Valid()
      requires forall img :: img in fileDims ==> fileDims[img].0 > 0 && fileDims[img].1 > 0
      modifies this`imageDimensions
      ensures Valid()
      ensures ok <==> forall img :: 0 <= img < |imagePaths| ==> img in old(imageDimensions) || img in fileDims
      ensures ok ==> forall img :: 0 <= img < |imagePaths| ==> img in imageDimensions
      ensures forall img :: img in old(imageDimensions) ==> img in imageDimensions && imageDimensions[img] == old(imageDimensions)[img]
      ensures forall img :: img in imageDimensions && img !in old(imageDimensions) ==>
        0 <= img < |imagePaths| && img in fileDims && imageDimensions[img] == fileDims[img]
      ensures ok ==> imageDimensions == FilledDims(old(imageDimensions), fileDims, |imagePaths|)
      ensures !ok ==> FillStopped(imageDimensions, old(imageDimensions), fileDims, |imagePaths|)
    {
      var idx := 0;
      while idx < |imagePaths|
        invariant 0 <= idx <= |imagePaths|
        invariant forall img :: 0 <= img < idx ==> img in old(imageDimensions) || img in fileDims
        invariant imageDimensions == FilledDims(old(imageDimensions), fileDims, idx)
      {
        FilledDimsStep(old(imageDimensions), fileDims, idx);
        if idx !in imageDimensions {
          if idx !in fileDims {
            return false;
          }
          imageDimensions := imageDimensions[idx := fileDims[idx]];
        }
        idx := idx + 1;
      }
      ok := true;
    }

    /**
      The solver database contents: the keypoint maps are rebuilt first (and
      kept even when this fails); every image needs a positive size, else the
      first image without one is reported; each image gets a seeded camera,
      its keypoints, and every image pair sharing a set gets its matches.
     */
    method PopulateDatabase() returns (r: Result<DbInput, PopulateError>)
      modifies this`keypointMaps
      ensures keypointMaps == BuildMapsSpec(pointData, |imagePaths|)
      ensures r.Ok? <==> forall img :: 0 <= img < |imagePaths| ==> HasDims(imageDimensions, img)
      ensures r.Err? ==>
        && 0 <= r.error.imageIndex < |imagePaths| && !HasDims(imageDimensions, r.error.imageIndex)
        && forall img :: 0 <= img < r.error.imageIndex ==> HasDims(imageDimensions, img)
      ensures r.Ok? ==>
        && |r.value.cameras| == |imagePaths|
        && (forall img :: 0 <= img < |imagePaths| ==>
              && img in imageDimensions
              && r.value.cameras[img] == SeedCamera(imagePaths[img], imageDimensions[img].0, imageDimensions[img].1))
        && (forall img :: img in r.value.keypoints <==> 0 <= img < |imagePaths|)
        && (forall img :: 0 <= img < |imagePaths| ==> r.value.keypoints[img] == KeypointList(pointData, img))
        && (forall p :: p in r.value.matches <==>
              0 <= p.0 < p.1 < |imagePaths| && CommonSets(keypointMaps[p.0], keypointMaps[p.1]) != {})
        && (forall p :: p in r.value.matches ==> r.value.matches[p] == MatchPairs(keypointMaps[p.0], keypointMaps[p.1]))
    {
      var n := |imagePaths|;
      var maps, keypoints := BuildKeypointMaps(pointData, n);
      keypointMaps := maps;
      assert keypointMaps == BuildMapsSpec(pointData, n);
      var cameras: seq<CameraSeed> := [];
      var idx := 0;
      while idx < n
        invariant 0 <= idx <= n
        invariant |cameras| == idx
        invariant forall img :: 0 <= img < idx ==> HasDims(imageDimensions, img)
        invariant forall img :: 0 <= img < idx ==>
          && img in imageDimensions
          && cameras[img] == SeedCamera(imagePaths[img], imageDimensions[img].0, imageDimensions[img].1)
      {
        var (width, height) := if idx in imageDimensions then imageDimensions[idx] else (0, 0);
        if width <= 0 || height <= 0 {
          assert !HasDims(imageDimensions, idx);
          return Err(InvalidDimensions(idx));
        }
        cameras := cameras + [SeedCamera(imagePaths[idx], width, height)];
        idx := idx + 1;
      }
      var matches := WriteMatches(maps, n);
      r := Ok(DbInput(cameras, keypoints, matches));
    }

    /**
      The solver input step of a run: missing image sizes are loaded, then the
      keypoints, cameras and matches are built. It fails exactly when some
      image has no size available; once every image has a positive size the
      database step cannot refuse.
     */
    method PrepareSolverInput(fileDims: map<int, (int, int)>) returns (ok: bool)
      requires Valid()
      requires forall img :: img in fileDims ==> fileDims[img].0 > 0 && fileDims[img].1 > 0
      modifies this`imageDimensions, this`keypointMaps
      ensures Valid()
      ensures ok <==> forall img :: 0 <= img < |imagePaths| ==> img in old(imageDimensions) || img in fileDims
      ensures ok ==>
        && imageDimensions == FilledDims(old(imageDimensions), fileDims, |imagePaths|)
        && keypointMaps == BuildMapsSpec(pointData, |imagePaths|)
      ensures !ok ==>
        && FillStopped(imageDimensions, old(imageDimensions), fileDims, |imagePaths|)
        && keypointMaps == old(keypointMaps)
    {
      ok := LoadMissingDimensions(fileDims);
      if !ok {
        return;
      }
      assert forall img :: 0 <= img < |imagePaths| ==> HasDims(imageDimensions, img);
      var db := PopulateDatabase();
      assert db.Ok?;
    }

    /**
      A calibration run on the solver's reconstructions recs and the image
      rows rows the database returns. It refuses fewer than 2 images or fewer
      than 3 point sets without touching anything; otherwise it clears the
      previous results, and on success keeps those of the reconstruction with
      the most registered images (the first of equals), whose index it returns.
     */
    method RunCalibration(fileDims: map<int, (int, int)>, recs: seq<Reconstruction>, rows: seq<DbImage>)
      returns (r: Result<nat, CalibrationError>)
      requires Valid()
      requires forall img :: img in fileDims ==> fileDims[img].0 > 0 && fileDims[img].1 > 0
      requires forall i :: 0 <= i < |recs| ==> CamerasKnown(recs[i])
      modifies this
      ensures Valid()
      ensures imagePaths == old(imagePaths) && pointData == old(pointData) && names == old(names)
      ensures activeSet == old(activeSet) && nextId == old(nextId)
      ensures |imagePaths| < 2 ==> r == Err(TooFewImages) && unchanged(this)
      ensures |imagePaths| >= 2 && |pointData| < 3 ==> r == Err(TooFewPointSets) && unchanged(this)
      ensures r.Err? && |imagePaths| >= 2 && |pointData| >= 3 ==> calibrationResults == None
      ensures r == Err(DimensionsMissing) <==>
        && |imagePaths| >= 2 && |pointData| >= 3
        && exists img :: 0 <= img < |imagePaths| && img !in old(imageDimensions) && img !in fileDims
      ensures r == Err(DimensionsMissing) ==>
        && FillStopped(imageDimensions, old(imageDimensions), fileDims, |imagePaths|)
        && keypointMaps == old(keypointMaps)
      ensures r == Err(NoReconstruction) || r == Err(CalibrationError.TooFewRegistered) ==>
        keypointMaps == BuildMapsSpec(pointData, |imagePaths|)
      ensures
        && |imagePaths| >= 2 && |pointData| >= 3
        && (forall img :: 0 <= img < |imagePaths| ==> img in old(imageDimensions) || img in fileDims)
        ==>
        && imageDimensions == FilledDims(old(imageDimensions), fileDims, |imagePaths|)
        && (r == Err(NoReconstruction) <==> recs == [])
        && (r == Err(CalibrationError.TooFewRegistered) <==>
              recs != [] && forall i :: 0 <= i < |recs| ==> recs[i].numRegImages < 2)
        && (r.Ok? <==> exists i :: 0 <= i < |recs| && recs[i].numRegImages >= 2)
      ensures r.Ok? ==>
        && r.value < |recs|
        && recs[r.value].numRegImages >= 2
        && (forall i :: 0 <= i < |recs| ==> recs[i].numRegImages <= recs[r.value].numRegImages)
        && (forall i :: 0 <= i < r.value ==> recs[i].numRegImages < recs[r.value].numRegImages)
        && keypointMaps == BuildMapsSpec(pointData, |imagePaths|)
        && calibrationResults.Some?
        && ResultsFrom(calibrationResults.value, imagePaths, rows, recs[r.value], keypointMaps)
    {
      if |imagePaths| < 2 {
        return Err(TooFewImages);
      }
      if |pointData| < 3 {
        return Err(TooFewPointSets);
      }
      calibrationResults := None;
      var ready := PrepareSolverInput(fileDims);
      if !ready {
        return Err(DimensionsMissing);
      }
      var chosen := SelectReconstruction(recs);
      if chosen.Err? {
        return Err(if chosen.error == NoModels then NoReconstruction else CalibrationError.TooFewRegistered);
      }
      var b := chosen.value;
      var cr := ParseReconstruction(imagePaths, rows, recs[b], keypointMaps);
      calibrationResults := Some(cr);
      r := Ok(b);
    }
  }

  /** Every image pair gets exactly one match per set both images observe. */
  lemma KeypointMatchCount(pd: PointData, i: int, j: int)
    ensures |MatchPairs(KeypointMap(pd, i), KeypointMap(pd, j))| == |CommonSets(KeypointMap(pd, i), KeypointMap(pd, j))|
  {
    KeypointMapInjective(pd, i);
    MatchPairsCount(KeypointMap(pd, i), KeypointMap(pd, j));
  }

  /**
    A 3-D point whose track resolves to set s, against the keypoint maps of
    the run, was seen by the solver at the keypoint that set s was given in
    an image that s observes, and that keypoint is s's own observation there.
   */
  lemma PointIdsTraceBack(track: seq<TrackElement>, paths: seq<string>, rows: seq<DbImage>, pd: PointData)
    ensures var idToIdx := IdIndex(paths, NameIndex(rows));
      var r := ResolveTrack(track, idToIdx, InvertAll(BuildMapsSpec(pd, |paths|)));
      r.Some? ==> exists t ::
        && 0 <= t < |track| && track[t].imageId in idToIdx
        && var img := idToIdx[track[t].imageId];
          && 0 <= img < |paths| && r.value in pd && img in pd[r.value] && r.value in KeypointMap(pd, img)
          && KeypointMap(pd, img)[r.value] == track[t].point2DIdx
          && 0 <= track[t].point2DIdx < |KeypointList(pd, img)|
          && KeypointList(pd, img)[track[t].point2DIdx] == KeypointOf(pd[r.value][img])
  {
    var maps := BuildMapsSpec(pd, |paths|);
    var idToIdx := IdIndex(paths, NameIndex(rows));
    var r := ResolveTrack(track, idToIdx, InvertAll(maps));
    forall img | img in maps ensures Injective(maps[img]) {
      KeypointMapInjective(pd, img);
    }
    ResolvedSetOwnsKeypoint(track, idToIdx, maps);
    if r.Some? {
      var s := r.value;
      var t :| 0 <= t < |track| && track[t].imageId in idToIdx
        && idToIdx[track[t].imageId] in maps
        && s in maps[idToIdx[track[t].imageId]]
        && maps[idToIdx[track[t].imageId]][s] == track[t].point2DIdx;
      var img := idToIdx[track[t].imageId];
      KeypointMapFacts(pd, img);
      assert s in Observers(pd, img);
    }
  }

  /** The keypoint maps of images 0 .. n - 1, as the database population leaves them. */
  function BuildMapsSpec(pd: PointData, n: int): KeypointMaps {
    map img | 0 <= img < n :: KeypointMap(pd, img)
  }
}
