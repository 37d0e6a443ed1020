/**
  Translation of the point sets into the solver's input: one keypoint list per
  image, in ascending set-id order, the map from set id to keypoint index, and
  for every pair of images the keypoint-index pairs of the sets both observe.
 */
module SolverInput {
  import opened SortedKeys
  import opened Observations

  /** A solver keypoint: position, scale and orientation. */
  datatype Keypoint = Keypoint(x: real, y: real, scale: real, orientation: real)

  /** Every observation becomes a keypoint with scale 1 and orientation 0. */
  function KeypointOf(p: Point2): Keypoint {
    Keypoint(p.x, p.y, 1.0, 0.0)
  }

  /** image index -> (set id -> keypoint index) */
  type KeypointMaps = map<int, map<int, int>>

  /** The ids of ids, in their order, whose set observes image img. */
  function ObservedIn(ids: seq<int>, pd: PointData, img: int): (r: seq<int>)
  {
    if ids == [] then []
    else
      var last := ids[|ids| - 1];
      ObservedIn(ids[..|ids| - 1], pd, img) + (if last in pd && img in pd[last] then [last] else [])
  }

  /** The sets observing image img, in the order their keypoints are written. */
  function KeypointOrder(pd: PointData, img: int): seq<int> {
    ObservedIn(SortedIds(pd.Keys), pd, img)
  }

  /**
    The keypoint map built by walking order: the k-th set of order gets the
    keypoint index k.
   */
  function MapOfOrder(order: seq<int>): map<int, int> {
    if order == [] then map[]
    else MapOfOrder(order[..|order| - 1])[order[|order| - 1] := |order| - 1]
  }

  /** The keypoint list built by walking order: the observations of its sets in image img. */
  function ListOfOrder(order: seq<int>, pd: PointData, img: int): seq<Keypoint>
  {
    if order == [] then []
    else
      var last := order[|order| - 1];
      ListOfOrder(order[..|order| - 1], pd, img)
        + (if last in pd && img in pd[last] then [KeypointOf(pd[last][img])] else [])
  }

  /** The keypoint map of image img. */
  function KeypointMap(pd: PointData, img: int): map<int, int> {
    MapOfOrder(KeypointOrder(pd, img))
  }

  /** The keypoint list of image img. */
  function KeypointList(pd: PointData, img: int): seq<Keypoint> {
    ListOfOrder(KeypointOrder(pd, img), pd, img)
  }

  lemma {:induction false} ObservedInMembers(ids: seq<int>, pd: PointData, img: int)
    ensures forall s :: s in ObservedIn(ids, pd, img) <==> s in ids && s in pd && img in pd[s]
    ensures StrictlyIncreasing(ids) ==> StrictlyIncreasing(ObservedIn(ids, pd, img))
  {
    if ids != [] {
      var front := ids[..|ids| - 1];
      var last := ids[|ids| - 1];
      assert ids == front + [last];
      ObservedInMembers(front, pd, img);
      var r' := ObservedIn(front, pd, img);
      var r := ObservedIn(ids, pd, img);
      if StrictlyIncreasing(ids) {
        assert StrictlyIncreasing(front);
        forall i | 0 <= i < |r'| ensures r'[i] < last {
          assert r'[i] in r';
          assert r'[i] in front;
          var j :| 0 <= j < |front| && front[j] == r'[i];
          assert ids[j] == r'[i];
        }
        forall i, j | 0 <= i < j < |r| ensures r[i] < r[j] {
          if j < |r'| {
            assert r[i] == r'[i] && r[j] == r'[j];
          } else {
            assert r[i] == r'[i] && r[j] == last;
          }
        }
      }
    }
  }

  /** The order of image img lists exactly its observing sets, in ascending id order. */
  lemma KeypointOrderFacts(pd: PointData, img: int)
    ensures forall s :: s in KeypointOrder(pd, img) <==> s in Observers(pd, img)
    ensures StrictlyIncreasing(KeypointOrder(pd, img))
  {
    SortedIdsFacts(pd.Keys);
    ObservedInMembers(SortedIds(pd.Keys), pd, img);
  }

  lemma ObservedInStep(ids: seq<int>, k: nat, pd: PointData, img: int)
    requires k < |ids|
    ensures ObservedIn(ids[..k + 1], pd, img)
         == ObservedIn(ids[..k], pd, img) + (if ids[k] in pd && img in pd[ids[k]] then [ids[k]] else [])
  {
    assert ids[..k + 1][..k] == ids[..k];
  }

  lemma MapOfOrderStep(order: seq<int>, s: int)
    ensures MapOfOrder(order + [s]) == MapOfOrder(order)[s := |order|]
  {
    assert (order + [s])[..|order|] == order;
  }

  lemma ListOfOrderStep(order: seq<int>, s: int, pd: PointData, img: int)
    requires s in pd && img in pd[s]
    ensures ListOfOrder(order + [s], pd, img) == ListOfOrder(order, pd, img) + [KeypointOf(pd[s][img])]
  {
    assert (order + [s])[..|order|] == order;
  }

  /** One step of the walk over sortedIds: the set at position k takes the next index if it observes img. */
  lemma ImageKeypointsStep(sortedIds: seq<int>, k: nat, pd: PointData, img: int)
    requires k < |sortedIds|
    ensures var order := ObservedIn(sortedIds[..k], pd, img);
      var s := sortedIds[k];
      if s in pd && img in pd[s] then
        && ObservedIn(sortedIds[..k + 1], pd, img) == order + [s]
        && MapOfOrder(order + [s]) == MapOfOrder(order)[s := |order|]
        && ListOfOrder(order + [s], pd, img) == ListOfOrder(order, pd, img) + [KeypointOf(pd[s][img])]
      else
        ObservedIn(sortedIds[..k + 1], pd, img) == order
  {
    var order := ObservedIn(sortedIds[..k], pd, img);
    var s := sortedIds[k];
    ObservedInStep(sortedIds, k, pd, img);
    if s in pd && img in pd[s] {
      MapOfOrderStep(order, s);
      ListOfOrderStep(order, s, pd, img);
    }
  }

  /**
    The keypoint list and keypoint map of one image: the sets are walked in
    ascending id order and each set observed in the image takes the next
    keypoint index.
   */
  method ImageKeypoints(pd: PointData, sortedIds: seq<int>, img: int) returns (m: map<int, int>, kps: seq<Keypoint>)
    ensures m == MapOfOrder(ObservedIn(sortedIds, pd, img))
    ensures kps == ListOfOrder(ObservedIn(sortedIds, pd, img), pd, img)
  {
    m, kps := map[], [];
    var current := 0;
    ghost var order: seq<int> := [];
    var k := 0;
    while k < |sortedIds|
      invariant 0 <= k <= |sortedIds|
      invariant order == ObservedIn(sortedIds[..k], pd, img)
      invariant current == |order|
      invariant m == MapOfOrder(order)
      invariant kps == ListOfOrder(order, pd, img)
    {
      var s := sortedIds[k];
      ImageKeypointsStep(sortedIds, k, pd, img);
      if s in pd && img in pd[s] {
        kps := kps + [KeypointOf(pd[s][img])];
        m := m[s := current];
        current := current + 1;
        order := order + [s];
      }
      k := k + 1;
    }
    assert sortedIds[..k] == sortedIds;
  }

  /** The keypoint lists and keypoint maps of images 0 .. numImages - 1. */
  method BuildKeypointMaps(pd: PointData, numImages: nat) returns (maps: KeypointMaps, keypoints: map<int, seq<Keypoint>>)
    ensures forall img :: img in maps <==> 0 <= img < numImages
    ensures forall img :: img in keypoints <==> 0 <= img < numImages
    ensures forall img :: 0 <= img < numImages ==> maps[img] == KeypointMap(pd, img)
    ensures forall img :: 0 <= img < numImages ==> keypoints[img] == KeypointList(pd, img)
  {
    var sortedIds := SortedIds(pd.Keys);
    maps, keypoints := map[], map[];
    var img := 0;
    while img < numImages
      invariant 0 <= img <= numImages
      invariant forall i :: i in maps <==> 0 <= i < img
      invariant forall i :: i in keypoints <==> 0 <= i < img
      invariant forall i :: 0 <= i < img ==> maps[i] == MapOfOrder(ObservedIn(sortedIds, pd, i))
      invariant forall i :: 0 <= i < img ==> keypoints[i] == ListOfOrder(ObservedIn(sortedIds, pd, i), pd, i)
    {
      var m, kps := ImageKeypoints(pd, sortedIds, img);
      maps := maps[img := m];
      keypoints := keypoints[img := kps];
      img := img + 1;
    }
  }

  /** Walking a duplicate-free order gives the k-th set of the order the index k. */
  lemma {:induction false} MapOfOrderFacts(order: seq<int>)
    requires StrictlyIncreasing(order)
    ensures forall s :: s in MapOfOrder(order) <==> s in order
    ensures forall k :: 0 <= k < |order| ==> MapOfOrder(order)[order[k]] == k
  {
    if order != [] {
      var front := order[..|order| - 1];
      var last := order[|order| - 1];
      assert order == front + [last];
      MapOfOrderFacts(front);
      forall k | 0 <= k < |order| ensures MapOfOrder(order)[order[k]] == k {
        if k < |front| {
          assert order[k] == front[k] && front[k] < last;
        }
      }
    }
  }

  /** The k-th keypoint written is the observation of the k-th set of the order. */
  lemma {:induction false} ListOfOrderFacts(order: seq<int>, pd: PointData, img: int)
    requires forall s :: s in order ==> s in pd && img in pd[s]
    ensures |ListOfOrder(order, pd, img)| == |order|
    ensures forall k :: 0 <= k < |order| ==>
      order[k] in pd && img in pd[order[k]] && ListOfOrder(order, pd, img)[k] == KeypointOf(pd[order[k]][img])
  {
    if order != [] {
      var front := order[..|order| - 1];
      assert order == front + [order[|order| - 1]];
      assert forall s :: s in front ==> s in order;
      ListOfOrderFacts(front, pd, img);
    }
    forall k | 0 <= k < |order| ensures order[k] in pd && img in pd[order[k]] {
      var s := order[k];
      assert s in order;
      assert s in pd && img in pd[s];
    }
  }

  /**
    The keypoint map of an image holds exactly the sets observing it; the k-th
    set in ascending id order gets index k (so the indices are 0 .. count - 1,
    each used once), larger ids get larger indices, and the keypoint at a
    set's index is that set's observation.
   */
  lemma KeypointMapFacts(pd: PointData, img: int)
    ensures forall s :: s in KeypointMap(pd, img) <==> s in Observers(pd, img)
    ensures |KeypointList(pd, img)| == |KeypointOrder(pd, img)|
    ensures forall k :: 0 <= k < |KeypointOrder(pd, img)| ==>
      KeypointOrder(pd, img)[k] in KeypointMap(pd, img)
      && KeypointMap(pd, img)[KeypointOrder(pd, img)[k]] == k
    ensures forall s :: s in KeypointMap(pd, img) ==>
      0 <= KeypointMap(pd, img)[s] < |KeypointList(pd, img)|
      && KeypointList(pd, img)[KeypointMap(pd, img)[s]] == KeypointOf(pd[s][img])
    ensures forall s, t :: s in KeypointMap(pd, img) && t in KeypointMap(pd, img) && s < t ==>
      KeypointMap(pd, img)[s] < KeypointMap(pd, img)[t]
  {
    var order := KeypointOrder(pd, img);
    KeypointOrderFacts(pd, img);
    OrderFacts(order, pd, img);
  }

  /** The facts above, for any ascending order of sets that all observe the image. */
  lemma OrderFacts(order: seq<int>, pd: PointData, img: int)
    requires StrictlyIncreasing(order)
    requires forall s :: s in order ==> s in pd && img in pd[s]
    ensures forall s :: s in MapOfOrder(order) <==> s in order
    ensures |ListOfOrder(order, pd, img)| == |order|
    ensures forall k :: 0 <= k < |order| ==> order[k] in MapOfOrder(order) && MapOfOrder(order)[order[k]] == k
    ensures forall s :: s in MapOfOrder(order) ==>
      0 <= MapOfOrder(order)[s] < |ListOfOrder(order, pd, img)|
      && s in pd && img in pd[s]
      && ListOfOrder(order, pd, img)[MapOfOrder(order)[s]] == KeypointOf(pd[s][img])
    ensures forall s, t :: s in MapOfOrder(order) && t in MapOfOrder(order) && s < t ==>
      MapOfOrder(order)[s] < MapOfOrder(order)[t]
  {
    var m := MapOfOrder(order);
    var kps := ListOfOrder(order, pd, img);
    MapOfOrderFacts(order);
    ListOfOrderFacts(order, pd, img);
    forall s | s in m ensures 0 <= m[s] < |kps| && s in pd && img in pd[s] && kps[m[s]] == KeypointOf(pd[s][img]) {
      var k :| 0 <= k < |order| && order[k] == s;
    }
    forall s, t | s in m && t in m && s < t ensures m[s] < m[t] {
      var a :| 0 <= a < |order| && order[a] == s;
      var b :| 0 <= b < |order| && order[b] == t;
    }
  }

  /** The sets observed in both images of a pair. */
  function CommonSets(m1: map<int, int>, m2: map<int, int>): set<int> {
    m1.Keys * m2.Keys
  }

  /** The keypoint-index pairs written as matches (and inlier matches) for an image pair. */
  function MatchPairs(m1: map<int, int>, m2: map<int, int>): set<(int, int)> {
    set s | s in CommonSets(m1, m2) :: (m1[s], m2[s])
  }

  /** The matches of one image pair, one per common set, in no particular order. */
  method MatchList(m1: map<int, int>, m2: map<int, int>) returns (matches: set<(int, int)>)
    ensures matches == MatchPairs(m1, m2)
  {
    var common := m1.Keys * m2.Keys;
    var remaining := common;
    matches := {};
    while remaining != {}
      invariant remaining <= common
      invariant matches == set s | s in common - remaining :: (m1[s], m2[s])
      decreases |remaining|
    {
      NonEmptyHasElement(remaining);
      var s :| s in remaining;
      matches := matches + {(m1[s], m2[s])};
      remaining := remaining - {s};
    }
  }

  /**
    The matches of every image pair (i, j) with i < j < n that share at least
    one set; pairs with no common set get no entry.
   */
  method WriteMatches(maps: KeypointMaps, n: nat) returns (matches: map<(int, int), set<(int, int)>>)
    requires forall i :: 0 <= i < n ==> i in maps
    ensures forall p :: p in matches <==>
      0 <= p.0 < p.1 < n && CommonSets(maps[p.0], maps[p.1]) != {}
    ensures forall p :: p in matches ==> matches[p] == MatchPairs(maps[p.0], maps[p.1])
  {
    matches := map[];
    var i := 0;
    while i < n
      invariant 0 <= i <= n
      invariant forall p :: p in matches <==>
        0 <= p.0 < i && p.0 < p.1 < n && CommonSets(maps[p.0], maps[p.1]) != {}
      invariant forall p :: p in matches ==> matches[p] == MatchPairs(maps[p.0], maps[p.1])
    {
      var j := i + 1;
      while j < n
        invariant i + 1 <= j <= n
        invariant forall p :: p in matches <==>
          0 <= p.0 < n && p.0 < p.1 < n && (p.0 < i || (p.0 == i && p.1 < j))
          && CommonSets(maps[p.0], maps[p.1]) != {}
        invariant forall p :: p in matches ==> matches[p] == MatchPairs(maps[p.0], maps[p.1])
      {
        var common := maps[i].Keys * maps[j].Keys;
        if common != {} {
          var pairs := MatchList(maps[i], maps[j]);
          matches := matches[(i, j) := pairs];
        }
        j := j + 1;
      }
      i := i + 1;
    }
  }

  /**
    Every match of an image pair links the keypoints of one and the same set,
    each set seen in both images gives a match, and a keypoint whose set is
    not seen in the other image takes part in no match.
   */
  lemma MatchesAreCorrespondences(pd: PointData, i: int, j: int)
    ensures forall s :: s in KeypointMap(pd, i) && s in KeypointMap(pd, j) ==>
      (KeypointMap(pd, i)[s], KeypointMap(pd, j)[s]) in MatchPairs(KeypointMap(pd, i), KeypointMap(pd, j))
    ensures forall s, b ::
      s in KeypointMap(pd, i) && (KeypointMap(pd, i)[s], b) in MatchPairs(KeypointMap(pd, i), KeypointMap(pd, j))
      ==> s in KeypointMap(pd, j) && b == KeypointMap(pd, j)[s]
  {
    var mi := KeypointMap(pd, i);
    var mj := KeypointMap(pd, j);
    KeypointMapFacts(pd, i);
    forall s | s in mi && s in mj ensures (mi[s], mj[s]) in MatchPairs(mi, mj) {
      assert s in CommonSets(mi, mj);
    }
    forall s, b | s in mi && (mi[s], b) in MatchPairs(mi, mj) ensures s in mj && b == mj[s] {
      var t :| t in CommonSets(mi, mj) && (mi[t], mj[t]) == (mi[s], b);
      assert mi[t] == mi[s];
    }
  }

  /** The matches of a pair are those of the swapped pair, each reversed. */
  lemma MatchPairsSwap(m1: map<int, int>, m2: map<int, int>)
    ensures forall a, b :: (a, b) in MatchPairs(m1, m2) <==> (b, a) in MatchPairs(m2, m1)
  {
    forall a, b | (a, b) in MatchPairs(m1, m2) ensures (b, a) in MatchPairs(m2, m1) {
      var s :| s in CommonSets(m1, m2) && (m1[s], m2[s]) == (a, b);
      assert s in CommonSets(m2, m1);
    }
    forall a, b | (b, a) in MatchPairs(m2, m1) ensures (a, b) in MatchPairs(m1, m2) {
      var s :| s in CommonSets(m2, m1) && (m2[s], m1[s]) == (b, a);
      assert s in CommonSets(m1, m2);
    }
  }

  /** The match pairs of a subset of the common sets. */
  function PairsOver(keys: set<int>, m1: map<int, int>, m2: map<int, int>): set<(int, int)>
    requires keys <= CommonSets(m1, m2)
  {
    set s | s in keys :: (m1[s], m2[s])
  }

  lemma {:induction false} PairsOverCount(keys: set<int>, m1: map<int, int>, m2: map<int, int>)
    requires keys <= CommonSets(m1, m2)
    requires forall a, b :: a in m1 && b in m1 && a != b ==> m1[a] != m1[b]
    ensures |PairsOver(keys, m1, m2)| == |keys|
    decreases keys
  {
    if keys != {} {
      NonEmptyHasElement(keys);
      var k :| k in keys;
      var rest := keys - {k};
      PairsOverCount(rest, m1, m2);
      assert PairsOver(keys, m1, m2) == PairsOver(rest, m1, m2) + {(m1[k], m2[k])};
      assert (m1[k], m2[k]) !in PairsOver(rest, m1, m2);
    }
  }

  /**
    When the first image gives each set its own keypoint, as every keypoint
    map does, an image pair gets exactly one match per common set: no match
    is written twice.
   */
  lemma MatchPairsCount(m1: map<int, int>, m2: map<int, int>)
    requires forall a, b :: a in m1 && b in m1 && a != b ==> m1[a] != m1[b]
    ensures |MatchPairs(m1, m2)| == |CommonSets(m1, m2)|
  {
    PairsOverCount(CommonSets(m1, m2), m1, m2);
    assert MatchPairs(m1, m2) == PairsOver(CommonSets(m1, m2), m1, m2);
  }
}
