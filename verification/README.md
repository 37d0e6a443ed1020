# Pointgram data model

Pointgram is a desktop tool for marking the same physical feature in several
photographs. The user places points on images. Points that show one feature
form a *point set*. The sets are handed to a structure-from-motion solver as
hand-made keypoints and matches. The solver's cameras and 3-D points are then
mapped back to the app's image indices and set ids, and can be exported as a
glTF scene.

This project models the data side of that program in Dafny and proves what
it promises:

- **The point-set store.** A map from set id to a map from image index to
  pixel position, plus a counter for new ids. `Window.MainWindow` is a class
  whose methods update these fields in place.
- **The solver input.** For each image, the observing sets get keypoint
  indices 0 .. n-1 in ascending set-id order. Each image pair gets the
  matches of the sets it shares. See `SolverInput`, and
  `Window.MainWindow.PopulateDatabase`.
- **Reading the solver's output.** This covers choosing the largest
  reconstruction, mapping solver images back by base name, intrinsics and
  camera-to-world poses, and resolving each 3-D point's track to a set id.
  See `ResultMapper`, and `Window.MainWindow.RunCalibration`.
- **The project file.** It is modelled as a transform between dictionaries:
  integer keys become decimal text on save and are parsed back on load. See
  `ProjectFile`, `IntText`, `Window.MainWindow.WritePointsToFile` and
  `Window.MainWindow.LoadDataFromFile`.
- **The glTF export.** This covers the two basis-change matrices, the camera
  node transform in column-major order, and the rules that choose camera and
  point nodes and decide failure. See `GltfExport`.

Dictionary iteration follows insertion order in the program. The model walks
keys in ascending order wherever that is the program's order. The set ids are
explicitly sorted before keypoints are assigned. The image indices are
inserted in ascending order before poses are read.

Where the program's behaviour and its design description differ, the model
follows the code:

- **Model selection.** The code uses a strict `>` over the reconstructions,
  so the first of several equally large models wins. No point-count
  tie-break is applied.
- **Intrinsics.** A SIMPLE_PINHOLE camera with a parameter count other
  than 3 is skipped with `continue`. Such an image gets neither intrinsics
  nor a pose (`ResultMapper.PoseAccepted`). A camera of another model keeps
  its pose.

## Model

| member | source | states |
|---|---|---|
| IntText.ParseIntToString | main.py:870-884 | reading back the text written for an integer key, `int(str(n))`, gives `n` |
| IntText.IntToStringInjective | main.py:870-884 | distinct keys are written as distinct texts |
| IntText.IntToString | main.py:871 | `str(n)` is non-empty and starts with '-' exactly when `n` is negative |
| IntText.ParseInt | main.py:1012 | `int(text)` succeeds only on non-empty text, and a negative result comes from text starting with '-' |
| SortedKeys.SortedIdsFacts | main.py:1167 | `sorted(point_data.keys())` has the same members, one entry each, strictly ascending |
| SolverInput.ObservedInMembers | main.py:1172-1173 | the sets walked for an image are exactly the listed ids that observe it, in the listed order |
| SolverInput.KeypointOrderFacts | main.py:1167-1173 | the sets given keypoints in an image are exactly the sets observing it, in strictly ascending id order |
| SolverInput.ImageKeypointsStep | main.py:1169-1181 | one step of the walk: an observing set is appended to the order with the next index and its observation appended to the list; any other set changes nothing |
| SolverInput.ImageKeypoints | main.py:1169-1181 | the per-image loop builds exactly the keypoint map and keypoint list of the ascending walk, the counter advancing only on observing sets |
| SolverInput.BuildKeypointMaps | main.py:1164-1181 | keypoint maps and lists exist for images 0 .. n-1 exactly, each equal to that image's specification |
| SolverInput.MapOfOrderFacts | main.py:1179-1180 | walking an ascending order gives the k-th set the index k, and only listed sets get an index |
| SolverInput.ListOfOrderFacts | main.py:1174-1177 | the k-th keypoint written is the k-th set's observation with scale 1 and orientation 0 |
| SolverInput.OrderFacts | main.py:1169-1181 | for any ascending order of observing sets: index k for the k-th set, indices inside the list, the keypoint at a set's index is its observation, and larger ids get larger indices |
| SolverInput.KeypointMapFacts | main.py:1164-1181 | an image's keypoint map holds exactly the observing sets, indices are dense 0 .. n-1 without repeats, ascending with set id, and point at that set's own observation |
| SolverInput.MatchList | main.py:1254-1261 | the matches collected for a pair are exactly `{(m1[s], m2[s]) : s in both maps}` |
| SolverInput.WriteMatches | main.py:1243-1278 | matches are written for exactly the pairs i<j<n that share a set, each with exactly that pair's match set |
| SolverInput.MatchesAreCorrespondences | main.py:1252-1261 | every shared set yields its match; a match from set s's keypoint always pairs it with s's keypoint in the other image, so a set seen in one image only is in no match |
| SolverInput.MatchPairsSwap | main.py:1252-1261 | the matches of (j, i) are those of (i, j) reversed |
| SolverInput.MatchPairsCount | main.py:1252-1261 | when the first image's keypoint map gives distinct sets distinct indices, a pair has exactly one match per common set |
| Window.KeypointMatchCount | main.py:1164-1261 | every image pair gets exactly one match per set that both images observe |
| ResultMapper.SelectReconstruction | main.py:1529-1565 | no models is an error; otherwise the chosen model has the most registered images, every earlier model has strictly fewer, and fewer than 2 registered images everywhere is an error |
| ResultMapper.BasenameFacts | main.py:1593 | the base name is a suffix of the path with no '/', preceded by '/' or the start of the path |
| ResultMapper.NameIndexFacts | main.py:1591 | the name table holds exactly the database rows' names, each with the id of the last row carrying it |
| ResultMapper.MapImageNames | main.py:1592-1601 | an image index is mapped exactly when its base name is in the table, to that id; the reverse table is consistent with it and keeps the last index per id |
| ResultMapper.IntrinsicsOf | main.py:1625-1641 | a K matrix exists exactly for SIMPLE_PINHOLE with 3 parameters: focal length on the diagonal, principal point in the last column |
| ResultMapper.InvertPoseUndoes | main.py:1648-1653 | for a rotation, the camera-to-world pose undoes the world-to-camera transform |
| ResultMapper.InvertPoseCentre | main.py:1648-1653 | for a rotation, the camera-to-world translation is the point that the world-to-camera transform sends to the origin |
| ResultMapper.ExtractCameras | main.py:1614-1676 | registered indices are the posed images in mapping order; poses and intrinsics exist exactly for the registered images that qualify, with the inverted pose and the pinhole K |
| ResultMapper.InvertOverFacts | main.py:1685 | the inverse built key by key maps each index back to a key that has it, and has every key's index |
| ResultMapper.InvertExact | main.py:1682-1685 | for an injective keypoint map, the inverse `{v: k}` is exact in both directions |
| ResultMapper.ResolveTrackFirst | main.py:1700-1721 | a track resolves to nothing exactly when no element resolves; otherwise to the set of the first element that does |
| ResultMapper.ResolvedSetOwnsKeypoint | main.py:1700-1721 | a resolved set id is one whose keypoint index, in an image mapped from a track element, is that element's keypoint index |
| ResultMapper.MapPoints | main.py:1693-1733 | points and ids are index-aligned with the reconstruction's points; each id is the track's first resolved set, or None |
| ProjectFile.StripStartFacts | main.py:1050 | stripping the front leaves a suffix that is empty or starts with a non-space |
| ProjectFile.StripEndFacts | main.py:1050 | stripping the back leaves a prefix that is empty or ends with a non-space |
| ProjectFile.StripFacts | main.py:1050-1051 | a stripped name has no whitespace (any character Python's `str.isspace()` accepts) at either end, and stripping it again changes nothing |
| ProjectFile.ReadObservations | main.py:1024-1044 | the observation loop gives exactly the fold that keeps the entries with an int key and a coordinate pair, later ones winning |
| ProjectFile.ReadPointData | main.py:1010-1048 | the point-data loop gives exactly the sets of `LoadSets` and the running maximum of `MaxSetId` |
| ProjectFile.LoadSetsKeys | main.py:1011-1015 | a set is loaded for every entry whose key parses as an int, and for no other id |
| ProjectFile.LoadSetsLastWins | main.py:1013-1044 | the set of an id is the one read from the last entry naming it: its valid observations, or empty when they are not an object |
| ProjectFile.ReadDims | main.py:984-999 | only entries with an int key and a positive width and height are kept |
| ProjectFile.ReadNames | main.py:1045-1058 | only string names that are not blank are kept, stripped |
| ProjectFile.MaxSetIdFacts | main.py:1010-1015 | every loaded set id is at most the maximum; the maximum is -1 or a loaded id |
| ProjectFile.LoadDimsPositive | main.py:989-991 | every loaded size is positive |
| ProjectFile.LoadNamesStripped | main.py:1050-1051 | every loaded name is non-empty and stripped |
| ProjectFile.WriteObservations | main.py:874-879 | the observations of a set, written with text keys in ascending order |
| ProjectFile.WritePointData | main.py:870-879 | the point data, written with text keys in ascending order |
| ProjectFile.WriteDims | main.py:886-889 | the sizes, written with text keys in ascending order |
| ProjectFile.WriteNames | main.py:881-884 | the names, written with text keys in ascending order |
| ProjectFile.ObsRoundTrip | main.py:874-879 | loading written observations gives back the written entries |
| ProjectFile.SetsRoundTrip | main.py:870-879 | loading written point data gives back the written sets with their observations |
| ProjectFile.MaxSetIdOfSave | main.py:870-879 | the largest id read back is the largest written set id, or -1 |
| ProjectFile.DimsRoundTrip | main.py:886-889 | loading written positive sizes gives them back |
| ProjectFile.NamesRoundTrip | main.py:881-884 | loading written stripped, non-blank names gives them back |
| ProjectFile.SaveLoadRoundTrip | main.py:857-889 | save then load reproduces the image list, sets, sizes and names; the next id read back is above every set id and never above the saved counter |
| GltfExport.ToGltfPoint | gltf_exporter.py:98 | a point (x, y, z) is exported as (x, z, -y) |
| GltfExport.WorldBasisLeftInverse | gltf_exporter.py:34-38 | W^T W = I |
| GltfExport.WorldBasisRightInverse | gltf_exporter.py:34-38 | W W^T = I |
| GltfExport.WorldBasisDet | gltf_exporter.py:34-38 | det W = +1 |
| GltfExport.WorldBasisIsRotation | gltf_exporter.py:30-38 | the world basis change is a rotation |
| GltfExport.WorldBasisUndo | gltf_exporter.py:98 | W^T applied to an exported point gives the solver's point back |
| GltfExport.CameraConventionSquare | gltf_exporter.py:44-48 | C C = I |
| GltfExport.CameraConventionSymmetric | gltf_exporter.py:44-48 | C^T = C |
| GltfExport.CameraConventionDet | gltf_exporter.py:44-48 | det C = +1 |
| GltfExport.CameraConventionIsInvolution | gltf_exporter.py:40-48 | the camera basis change is a rotation and its own inverse |
| GltfExport.GltfRotation | gltf_exporter.py:184 | W R C, entry by entry, in terms of R's entries |
| GltfExport.GltfRotationGram | gltf_exporter.py:184 | (W R C)^T (W R C) is R^T R with the off-block signs flipped |
| GltfExport.GltfRotationCogram | gltf_exporter.py:184 | (W R C)(W R C)^T is R R^T with rows and columns moved by W |
| GltfExport.GltfRotationPreservesRotations | gltf_exporter.py:184 | a rotation stays a rotation after both basis changes |
| GltfExport.ColumnMajor | gltf_exporter.py:188-195 | 16 entries; entry (row, col) of [rotation, translation; 0 0 0 1] is at 4*col + row |
| GltfExport.MissingKeyNames | gltf_exporter.py:78-81 | the missing-key list is empty exactly when all five keys are present, and lists each of the five keys exactly when it is absent, at most five names |
| GltfExport.LastIndexFacts | gltf_exporter.py:161-162 | the definition index kept for an image is its last definition, or -1 for none |
| GltfExport.CameraDefImagesMembers | gltf_exporter.py:116-140 | an image gets a camera definition exactly when it is registered and has a pose, a K matrix and a positive size |
| GltfExport.CameraNodesFollowDefs | gltf_exporter.py:166-206 | camera nodes are made for the same images, in the same order, as the camera definitions |
| GltfExport.CameraNodesReferToOwnDefs | gltf_exporter.py:161-162 | every camera node refers to the last camera definition made for its own image |
| GltfExport.NothingExportedExactly | gltf_exporter.py:231-234 | no node at all is made exactly when no registered image qualifies for a camera and there are no points |
| GltfExport.MakeCameraDefs | gltf_exporter.py:116-162 | one definition per qualifying registered image, in order; each image's index is its last definition |
| GltfExport.MakeCameraNodes | gltf_exporter.py:164-206 | the camera nodes the loop makes are those specified, in registration order |
| GltfExport.MakePointNodes | gltf_exporter.py:211-225 | one point node per point, in order, at its converted position (x, z, -y), labelled with the point's id when there are as many ids as points, and with its index otherwise |
| GltfExport.ExportScene | gltf_exporter.py:75-234 | invalid results, missing keys (in order) and bad intrinsics are errors; otherwise the scene holds the camera nodes then the point nodes, and fails only when both are empty |
| Window.SeedCamera | main.py:1193-1213 | the camera seeded for an image: its base name and size, focal length 1.2 times the larger side, principal point at the centre |
| Window.ParseReconstruction | main.py:1573-1733 | the results read off a reconstruction: poses, intrinsics and registered indices as extracted, points and set ids as resolved |
| Window.KeypointMapInjective | main.py:1179-1180 | a keypoint map never gives two sets the same index |
| Window.ReadProject | main.py:979-1069 | the tables read from a project file are the load folds, with positive sizes, stripped names, and every set id below the maximum plus one |
| Window.PointIdsTraceBack | main.py:1700-1721 | a 3-D point labelled with set s was tracked at s's own keypoint in an image that s observes |
| Window.MainWindow.constructor | main.py:1074-1089 | the empty project satisfies the invariant |
| Window.MainWindow.ResetState | main.py:1074-1089 | everything is cleared: no images, sets, names, sizes, maps or results; no active set; counter 0 |
| Window.MainWindow.CreateNewPointSet | main.py:546-555 | the new set takes the counter's id, which was unused; it holds the one observation and becomes active; the counter goes up by one |
| Window.MainWindow.AddPointToSet | main.py:557-572 | an absent set or an image already observed leaves the data unchanged; otherwise exactly that observation is added |
| Window.MainWindow.PlacePoint | main.py:507-520 | with no active set, or an active set that already has this image, a new set is made; otherwise the point joins the active set |
| Window.MainWindow.MovePoint | main.py:526-544 | a moved marker updates only its own observation; the sets and images observed do not change |
| Window.MainWindow.DeletePointObservation | main.py:574-612 | a confirmed delete removes only that observation, then the set if it is left empty, and deactivates it if it was active; the counter stays, and no new empty set appears |
| Window.MainWindow.WritePointsToFile | main.py:857-889 | no file when there are neither sets nor images; otherwise loading the file gives back the same images, sets, sizes and names |
| Window.MainWindow.LoadDataFromFile | main.py:929-1069 | a malformed file is refused and nothing changes; otherwise the state is reset and filled from the file, and the counter is the largest set id plus one |
| Window.MainWindow.LoadMissingDimensions | main.py:1407-1423 | sizes are filled in only for images lacking one; the run fails exactly when some image has no size available; on success the sizes are the old ones plus the file sizes of the missing images; on failure, the sizes of the images before the first one with no size available are filled and kept |
| Window.FilledDimsStep | main.py:1407-1414 | filling one more image adds its file size exactly when it has no size yet and a file size exists; otherwise nothing changes |
| Window.FilledDimsExactly | main.py:1407-1423 | sizes that keep every old size, add only file sizes of images 0 .. n-1 and cover all of them are exactly the filled sizes |
| Window.MainWindow.PopulateDatabase | main.py:1124-1282 | keypoint maps for images 0 .. n-1; the first image without a positive size is an error; otherwise a seeded camera per image, keypoint lists, and the matches of exactly the pairs sharing a set |
| Window.MainWindow.PrepareSolverInput | main.py:1405-1434 | it fails exactly when some image has neither a size nor a readable file; otherwise the sizes are filled, the database step succeeds and the keypoint maps are rebuilt for images 0 .. n-1; on failure the sizes are filled up to the first image with none and the keypoint maps are untouched |
| Window.MainWindow.RunCalibration | main.py:1302-1733 | fewer than 2 images or 3 sets is refused without change; otherwise old results are cleared; a missing size is reported exactly when some image has neither a size nor a readable file, and then the sizes are filled up to that image and the keypoint maps are untouched; when no model is usable the keypoint maps have still been rebuilt; once every size is available, the sizes are filled, the run fails with no reconstruction exactly when there is none, with too few registered images exactly when every model has fewer than 2, and succeeds otherwise; success keeps the largest model's results as read off it, with fresh keypoint maps |

## Left out

- Qt widgets are not modelled: markers, lists, status bar, message boxes, zoom and the marker graphics. The confirm dialog of a delete is the `confirmed` parameter.
- The UI guards before placing a point are not modelled: tool not selected, no image shown, click outside the image (main.py:494-504).
- The solver library is not modelled. Its database writes, transactions, `incremental_mapping` and `read_all_images` are outside the model. The reconstructions and the database's image rows are parameters of `Window.MainWindow.RunCalibration`. The database's own ids are not modelled.
- Python's dictionary order for the reconstructions and their 3-D points is taken as the order of a sequence.
- File and OS I/O are not modelled: `json.dump`/`json.load`, the temporary directory, image copying and `gltf.save`. A project file is a parsed `ProjectJson` value.
- Image sizes read from image files (main.py:1097-1122) are the `fileDims` parameter. The refusal of `synthetic_images/` paths is part of what that parameter holds.
- Reprojection errors (main.py:1745-1808) are not modelled. They use floating point division and norms.
- The glTF camera's `yfov`/`aspectRatio` (gltf_exporter.py:143-158) are not modelled. They use `arctan` and clipping.
- NaN/Inf checks, and shape checks on numpy arrays, are not modelled (gltf_exporter.py:94-97, 132-137, 174-179, 192-193, 221). All values are finite reals of the right shape.
- Floating point is not modelled. Coordinates, poses and intrinsics are exact reals. The program uses double-precision Python floats, and the exporter casts to 32-bit floats (gltf_exporter.py:94, 124, 171-172), so the model does no rounding.
- ResultMapper.Basename: splits only at '/'. `os.path.basename` on Windows also splits at '\\', so Windows paths with backslashes are not modelled.
- ResultMapper.CamerasKnown: every image of a reconstruction is assumed to have its camera in the reconstruction's camera table. The solver library keeps that table consistent; the model takes it as a precondition of `ResultMapper.ExtractCameras`, `Window.ParseReconstruction` and `Window.MainWindow.RunCalibration`, and does not model a missing camera.
- The database step's own failures, exceptions while writing cameras, keypoints or matches (main.py:1124-1282), are not modelled. With every image size known, the modelled database step always succeeds.
- Node names in the glTF scene, the summary text and the glTF asset fields are not modelled.
- IntText.ParseInt: not modelled is Python `int()` accepting surrounding whitespace, underscores between digits and non-ASCII digits. Text the program itself wrote never has them.
- IntText.ParseInt: not modelled is `int()` applied to a float size in the file, which truncates. A size entry is either an integer pair or malformed.
- The order of keys in a written file is not modelled. It is ascending here, and insertion order in the program. Loading does not depend on it, except when two texts parse to the same integer; the model lists entries in the order of the parsed dictionary for that case.
- A parsed JSON object is a list of entries with distinct key texts, as `json.load` delivers it. A key text repeated in the file itself is not collapsed the way `json.load` collapses it: a repeat keeps its first position and takes its last value. Given such a raw list, `ProjectFile.LoadSets` and the other load folds would use the last entry's position instead.
- The `point_set_names` entries of deleted sets are kept, as in the program.
- The rename dialog and the names it sets are not modelled.
- `hasattr(self, "keypoint_maps") and self.keypoint_maps` (main.py:1684) is not modelled separately. It is always true at that point, and an empty inverse resolves nothing anyway.
- The exceptions of the solver calls and of the database read are not modelled (main.py:1502-1512, 1602-1612). Neither are the results dictionary check `not isinstance(reconstructions, dict)` (main.py:1518-1527) or the redundant `if not self.point_data` after the 3-set check.
- The export call from the window (main.py:1916) passes a keyword the exporter does not accept, and is not modelled. The exporter is modelled on its own.
