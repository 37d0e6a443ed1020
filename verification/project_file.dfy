/**
  The project file as dictionary transforms. Saving writes every integer key
  as decimal text; loading reads the keys back with int(), skipping entries
  whose key or value is malformed, rejecting non-positive image dimensions,
  stripping names and dropping empty ones, and noting the largest set id.

  A JSON object is modelled as the list of its (key, value) entries in the
  order the parsed dictionary yields them, one entry per distinct key text.
  Two texts naming the same integer ("3" and "03") both appear, and the later
  one wins as it does when the dictionary is filled.
 */
module ProjectFile {
  import opened Wrappers
  import opened IntText
  import opened SortedKeys
  import opened Observations

  datatype CoordField = Coord(x: real, y: real) | CoordMalformed
  datatype ObsField = ObsObject(entries: seq<(string, CoordField)>) | ObsNotObject
  datatype DimsField = DimsPair(width: int, height: int) | DimsMalformed
  datatype NameField = NameString(text: string) | NameNotString

  /**
    A parsed project file. A field is None when it is absent or not of the
    expected JSON type (a list for the image paths, an object for the rest).
   */
  datatype ProjectJson =
    | NotAnObject
    | ProjectObject(
        imagePaths: Option<seq<string>>,
        pointData: Option<seq<(string, ObsField)>>,
        dims: Option<seq<(string, DimsField)>>,
        names: Option<seq<(string, NameField)>>)

  // ---------------------------------------------------------------- Strip

  /** The whitespace characters str.strip() removes: those Python's str.isspace() accepts. */
  predicate IsSpace(c: char) {
    || '\U{09}' <= c <= '\U{0D}'
    || '\U{1C}' <= c <= '\U{20}'
    || c == '\U{85}' || c == '\U{A0}' || c == '\U{1680}'
    || '\U{2000}' <= c <= '\U{200A}'
    || c == '\U{2028}' || c == '\U{2029}' || c == '\U{202F}' || c == '\U{205F}' || c == '\U{3000}'
  }

  function StripStart(s: string): string {
    if s != [] && IsSpace(s[0]) then StripStart(s[1..]) else s
  }

  function StripEnd(s: string): string {
    if s != [] && IsSpace(s[|s| - 1]) then StripEnd(s[..|s| - 1]) else s
  }

  /** Python's str.strip() with no argument. */
  function Strip(s: string): string {
    StripEnd(StripStart(s))
  }

  predicate Stripped(s: string) {
    s == [] || (!IsSpace(s[0]) && !IsSpace(s[|s| - 1]))
  }

  /** Stripping the front removes a run of whitespace and keeps the rest. */
  lemma {:induction false} StripStartFacts(s: string)
    ensures StripStart(s) == [] || !IsSpace(StripStart(s)[0])
    ensures Stripped(s) ==> StripStart(s) == s
    ensures exists i :: 0 <= i <= |s| && StripStart(s) == s[i..]
    ensures |StripStart(s)| <= |s| && StripStart(s) == s[|s| - |StripStart(s)|..]
    ensures forall k :: 0 <= k < |s| - |StripStart(s)| ==> IsSpace(s[k])
  {
    if s != [] && IsSpace(s[0]) {
      StripStartFacts(s[1..]);
      var t := StripStart(s[1..]);
      assert s[1..][|s[1..]| - |t|..] == s[|s| - |t|..];
      forall k | 0 <= k < |s| - |t| ensures IsSpace(s[k]) {
        if k > 0 {
          assert s[k] == s[1..][k - 1];
        }
      }
    } else {
      assert s == s[0..];
    }
  }

  /** Stripping the back removes a run of whitespace and keeps the rest. */
  lemma {:induction false} StripEndFacts(s: string)
    ensures StripEnd(s) == [] || !IsSpace(StripEnd(s)[|StripEnd(s)| - 1])
    ensures Stripped(s) ==> StripEnd(s) == s
    ensures exists j :: 0 <= j <= |s| && StripEnd(s) == s[..j]
    ensures |StripEnd(s)| <= |s| && StripEnd(s) == s[..|StripEnd(s)|]
    ensures forall k :: |StripEnd(s)| <= k < |s| ==> IsSpace(s[k])
    ensures s != [] && !IsSpace(s[0]) && StripEnd(s) != [] ==> StripEnd(s)[0] == s[0]
    ensures s != [] && !IsSpace(s[0]) ==> StripEnd(s) != []
  {
    if s != [] && IsSpace(s[|s| - 1]) {
      var front := s[..|s| - 1];
      StripEndFacts(front);
      var t := StripEnd(front);
      assert front[..|t|] == s[..|t|];
      forall k | |t| <= k < |s| ensures IsSpace(s[k]) {
        if k < |s| - 1 {
          assert s[k] == front[k];
        }
      }
      if front != [] {
        assert front[0] == s[0];
      }
    } else {
      assert s == s[..|s|];
    }
  }

  /** The stripped text has no whitespace at either end, so stripping it again changes nothing. */
  lemma StripClean(s: string)
    ensures Stripped(Strip(s))
    ensures Strip(Strip(s)) == Strip(s)
  {
    var t := StripStart(s);
    StripStartFacts(s);
    StripEndFacts(t);
    var u := Strip(s);
    StripStartFacts(u);
    StripEndFacts(u);
  }

  /** The stripped text is a slice of the text with only whitespace before and after it. */
  lemma StripIsSlice(s: string)
    ensures exists i, j ::
      && 0 <= i <= j <= |s| && Strip(s) == s[i..j]
      && (forall k :: 0 <= k < i ==> IsSpace(s[k]))
      && (forall k :: j <= k < |s| ==> IsSpace(s[k]))
  {
    var t := StripStart(s);
    StripStartFacts(s);
    StripEndFacts(t);
    var u := Strip(s);
    var i := |s| - |t|;
    var j := i + |u|;
    assert u == s[i..j];
    forall k | j <= k < |s| ensures IsSpace(s[k]) {
      assert s[k] == t[k - i];
    }
  }

  /**
    Python's str.strip(): the result is a slice of the text with only
    whitespace before and after it, no whitespace at either end, and
    stripping it again changes nothing.
   */
  lemma StripFacts(s: string)
    ensures Stripped(Strip(s))
    ensures Strip(Strip(s)) == Strip(s)
    ensures exists i, j ::
      && 0 <= i <= j <= |s| && Strip(s) == s[i..j]
      && (forall k :: 0 <= k < i ==> IsSpace(s[k]))
      && (forall k :: j <= k < |s| ==> IsSpace(s[k]))
  {
    StripClean(s);
    StripIsSlice(s);
  }

  // ---------------------------------------------------------------- Load

  /** The observations of one set: entries with an int key and a coordinate pair. */
  function LoadObservations(entries: seq<(string, CoordField)>): map<int, Point2> {
    if entries == [] then map[]
    else
      var rest := LoadObservations(entries[..|entries| - 1]);
      var (key, value) := entries[|entries| - 1];
      var id := ParseInt(key);
      if id.Some? && value.Coord? then rest[id.value := Point2(value.x, value.y)] else rest
  }

  /**
    The point sets: every entry with an int key gets a set (a later entry
    with the same id replaces it), empty when its observations are not an object.
   */
  function LoadSets(entries: seq<(string, ObsField)>): PointData {
    if entries == [] then map[]
    else
      var rest := LoadSets(entries[..|entries| - 1]);
      var (key, value) := entries[|entries| - 1];
      var id := ParseInt(key);
      if id.None? then rest
      else rest[id.value := if value.ObsObject? then LoadObservations(value.entries) else map[]]
  }

  /** The largest set id among entries with an int key, starting from -1. */
  function MaxSetId(entries: seq<(string, ObsField)>): int {
    if entries == [] then -1
    else
      var rest := MaxSetId(entries[..|entries| - 1]);
      var id := ParseInt(entries[|entries| - 1].0);
      if id.Some? && id.value > rest then id.value else rest
  }

  /** The image dimensions: entries with an int key and a positive width and height. */
  function LoadDims(entries: seq<(string, DimsField)>): map<int, (int, int)> {
    if entries == [] then map[]
    else
      var rest := LoadDims(entries[..|entries| - 1]);
      var (key, value) := entries[|entries| - 1];
      var id := ParseInt(key);
      if id.Some? && value.DimsPair? && value.width > 0 && value.height > 0
      then rest[id.value := (value.width, value.height)]
      else rest
  }

  /** The set names: entries with an int key and a string that is not blank, stripped. */
  function LoadNames(entries: seq<(string, NameField)>): map<int, string> {
    if entries == [] then map[]
    else
      var rest := LoadNames(entries[..|entries| - 1]);
      var (key, value) := entries[|entries| - 1];
      var id := ParseInt(key);
      if id.Some? && value.NameString? && Strip(value.text) != [] then rest[id.value := Strip(value.text)] else rest
  }

  method ReadObservations(entries: seq<(string, CoordField)>) returns (obs: map<int, Point2>)
    ensures obs == LoadObservations(entries)
  {
    obs := map[];
    var k := 0;
    while k < |entries|
      invariant 0 <= k <= |entries|
      invariant obs == LoadObservations(entries[..k])
    {
      assert entries[..k + 1][..k] == entries[..k];
      var (key, value) := entries[k];
      var id := ParseInt(key);
      if id.Some? && value.Coord? {
        obs := obs[id.value := Point2(value.x, value.y)];
      }
      k := k + 1;
    }
    assert entries[..k] == entries;
  }

  method ReadPointData(entries: seq<(string, ObsField)>) returns (pd: PointData, maxId: int)
    ensures pd == LoadSets(entries)
    ensures maxId == MaxSetId(entries)
  {
    pd, maxId := map[], -1;
    var k := 0;
    while k < |entries|
      invariant 0 <= k <= |entries|
      invariant pd == LoadSets(entries[..k])
      invariant maxId == MaxSetId(entries[..k])
    {
      assert entries[..k + 1][..k] == entries[..k];
      var (key, value) := entries[k];
      var id := ParseInt(key);
      if id.Some? {
        var setId := id.value;
        maxId := if setId > maxId then setId else maxId;
        pd := pd[setId := map[]];
        if value.ObsObject? {
          var obs := ReadObservations(value.entries);
          pd := pd[setId := obs];
        }
      }
      k := k + 1;
    }
    assert entries[..k] == entries;
  }

  method ReadDims(entries: seq<(string, DimsField)>) returns (dims: map<int, (int, int)>)
    ensures dims == LoadDims(entries)
  {
    dims := map[];
    var k := 0;
    while k < |entries|
      invariant 0 <= k <= |entries|
      invariant dims == LoadDims(entries[..k])
    {
      assert entries[..k + 1][..k] == entries[..k];
      var (key, value) := entries[k];
      var id := ParseInt(key);
      if id.Some? && value.DimsPair? {
        if value.width > 0 && value.height > 0 {
          dims := dims[id.value := (value.width, value.height)];
        }
      }
      k := k + 1;
    }
    assert entries[..k] == entries;
  }

  method ReadNames(entries: seq<(string, NameField)>) returns (names: map<int, string>)
    ensures names == LoadNames(entries)
  {
    names := map[];
    var k := 0;
    while k < |entries|
      invariant 0 <= k <= |entries|
      invariant names == LoadNames(entries[..k])
    {
      assert entries[..k + 1][..k] == entries[..k];
      var (key, value) := entries[k];
      var id := ParseInt(key);
      if id.Some? && value.NameString? && Strip(value.text) != [] {
        names := names[id.value := Strip(value.text)];
      }
      k := k + 1;
    }
    assert entries[..k] == entries;
  }

  /** Every loaded set id is at most the recorded maximum, and the maximum is -1 or a loaded id. */
  lemma {:induction false} MaxSetIdFacts(entries: seq<(string, ObsField)>)
    ensures forall s :: s in LoadSets(entries) ==> s <= MaxSetId(entries)
    ensures MaxSetId(entries) == -1 || MaxSetId(entries) in LoadSets(entries)
    ensures MaxSetId(entries) >= -1
  {
    if entries != [] {
      MaxSetIdFacts(entries[..|entries| - 1]);
    }
  }

  /** The set an entry yields: its observations, or none when they are not an object. */
  function SetOfField(value: ObsField): map<int, Point2> {
    if value.ObsObject? then LoadObservations(value.entries) else map[]
  }

  /** Every entry with an int key yields a set, and only such entries do. */
  lemma {:induction false} LoadSetsKeys(entries: seq<(string, ObsField)>)
    ensures forall i :: 0 <= i < |entries| && ParseInt(entries[i].0).Some? ==>
      ParseInt(entries[i].0).value in LoadSets(entries)
    ensures forall s :: s in LoadSets(entries) ==>
      exists i :: 0 <= i < |entries| && ParseInt(entries[i].0) == Some(s)
  {
    if entries != [] {
      var last := |entries| - 1;
      var front := entries[..last];
      LoadSetsKeys(front);
      var id := ParseInt(entries[last].0);
      assert LoadSets(entries) == if id.None? then LoadSets(front) else LoadSets(front)[id.value := SetOfField(entries[last].1)];
      forall i | 0 <= i < |entries| && ParseInt(entries[i].0).Some?
        ensures ParseInt(entries[i].0).value in LoadSets(entries)
      {
        if i < last {
          assert front[i] == entries[i];
        }
      }
      forall s | s in LoadSets(entries)
        ensures exists i :: 0 <= i < |entries| && ParseInt(entries[i].0) == Some(s)
      {
        if id != Some(s) {
          var i :| 0 <= i < |front| && ParseInt(front[i].0) == Some(s);
          assert front[i] == entries[i];
        }
      }
    }
  }

  /**
    The set of an id comes from the last entry naming it, and is empty when
    that entry's observations are not an object.
   */
  lemma {:induction false} LoadSetsLastWins(entries: seq<(string, ObsField)>, i: int)
    requires 0 <= i < |entries| && ParseInt(entries[i].0).Some?
    requires forall j :: i < j < |entries| ==> ParseInt(entries[j].0) != ParseInt(entries[i].0)
    ensures ParseInt(entries[i].0).value in LoadSets(entries)
    ensures LoadSets(entries)[ParseInt(entries[i].0).value] == SetOfField(entries[i].1)
  {
    var last := |entries| - 1;
    var front := entries[..last];
    var id := ParseInt(entries[last].0);
    assert LoadSets(entries) == if id.None? then LoadSets(front) else LoadSets(front)[id.value := SetOfField(entries[last].1)];
    if i < last {
      assert front[i] == entries[i];
      forall j | i < j < |front| ensures ParseInt(front[j].0) != ParseInt(front[i].0) {
        assert front[j] == entries[j];
      }
      LoadSetsLastWins(front, i);
    }
  }

  /** Every dimension pair loaded is positive. */
  lemma {:induction false} LoadDimsPositive(entries: seq<(string, DimsField)>)
    ensures forall k :: k in LoadDims(entries) ==> LoadDims(entries)[k].0 > 0 && LoadDims(entries)[k].1 > 0
  {
    if entries != [] {
      LoadDimsPositive(entries[..|entries| - 1]);
    }
  }

  /** Every name loaded is non-empty and has no whitespace at either end. */
  lemma {:induction false} LoadNamesStripped(entries: seq<(string, NameField)>)
    ensures forall k :: k in LoadNames(entries) ==> LoadNames(entries)[k] != [] && Stripped(LoadNames(entries)[k])
  {
    if entries != [] {
      LoadNamesStripped(entries[..|entries| - 1]);
      var value := entries[|entries| - 1].1;
      if value.NameString? {
        StripFacts(value.text);
      }
    }
  }

  // ---------------------------------------------------------------- Save

  function EncodeObs(keys: seq<int>, obs: map<int, Point2>): seq<(string, CoordField)> {
    if keys == [] then []
    else
      var k := keys[|keys| - 1];
      EncodeObs(keys[..|keys| - 1], obs) + (if k in obs then [(IntToString(k), Coord(obs[k].x, obs[k].y))] else [])
  }

  function EncodeSets(keys: seq<int>, pd: PointData): seq<(string, ObsField)> {
    if keys == [] then []
    else
      var k := keys[|keys| - 1];
      EncodeSets(keys[..|keys| - 1], pd)
        + (if k in pd then [(IntToString(k), ObsObject(EncodeObs(SortedIds(pd[k].Keys), pd[k])))] else [])
  }

  function EncodeDims(keys: seq<int>, dims: map<int, (int, int)>): seq<(string, DimsField)> {
    if keys == [] then []
    else
      var k := keys[|keys| - 1];
      EncodeDims(keys[..|keys| - 1], dims) + (if k in dims then [(IntToString(k), DimsPair(dims[k].0, dims[k].1))] else [])
  }

  function EncodeNames(keys: seq<int>, names: map<int, string>): seq<(string, NameField)> {
    if keys == [] then []
    else
      var k := keys[|keys| - 1];
      EncodeNames(keys[..|keys| - 1], names) + (if k in names then [(IntToString(k), NameString(names[k]))] else [])
  }

  /** The file written for the given state: keys as text, in ascending key order. */
  function Save(imagePaths: seq<string>, pd: PointData, names: map<int, string>, dims: map<int, (int, int)>): ProjectJson {
    ProjectObject(
      Some(imagePaths),
      Some(EncodeSets(SortedIds(pd.Keys), pd)),
      Some(EncodeDims(SortedIds(dims.Keys), dims)),
      Some(EncodeNames(SortedIds(names.Keys), names)))
  }

  method WriteObservations(obs: map<int, Point2>) returns (entries: seq<(string, CoordField)>)
    ensures entries == EncodeObs(SortedIds(obs.Keys), obs)
  {
    var keys := SortedIds(obs.Keys);
    entries := [];
    var k := 0;
    while k < |keys|
      invariant 0 <= k <= |keys|
      invariant entries == EncodeObs(keys[..k], obs)
    {
      assert keys[..k + 1][..k] == keys[..k];
      var id := keys[k];
      if id in obs {
        entries := entries + [(IntToString(id), Coord(obs[id].x, obs[id].y))];
      }
      k := k + 1;
    }
    assert keys[..k] == keys;
  }

  method WritePointData(pd: PointData) returns (entries: seq<(string, ObsField)>)
    ensures entries == EncodeSets(SortedIds(pd.Keys), pd)
  {
    var keys := SortedIds(pd.Keys);
    entries := [];
    var k := 0;
    while k < |keys|
      invariant 0 <= k <= |keys|
      invariant entries == EncodeSets(keys[..k], pd)
    {
      assert keys[..k + 1][..k] == keys[..k];
      var id := keys[k];
      if id in pd {
        var obs := WriteObservations(pd[id]);
        entries := entries + [(IntToString(id), ObsObject(obs))];
      }
      k := k + 1;
    }
    assert keys[..k] == keys;
  }

  method WriteDims(dims: map<int, (int, int)>) returns (entries: seq<(string, DimsField)>)
    ensures entries == EncodeDims(SortedIds(dims.Keys), dims)
  {
    var keys := SortedIds(dims.Keys);
    entries := [];
    var k := 0;
    while k < |keys|
      invariant 0 <= k <= |keys|
      invariant entries == EncodeDims(keys[..k], dims)
    {
      assert keys[..k + 1][..k] == keys[..k];
      var id := keys[k];
      if id in dims {
        entries := entries + [(IntToString(id), DimsPair(dims[id].0, dims[id].1))];
      }
      k := k + 1;
    }
    assert keys[..k] == keys;
  }

  method WriteNames(names: map<int, string>) returns (entries: seq<(string, NameField)>)
    ensures entries == EncodeNames(SortedIds(names.Keys), names)
  {
    var keys := SortedIds(names.Keys);
    entries := [];
    var k := 0;
    while k < |keys|
      invariant 0 <= k <= |keys|
      invariant entries == EncodeNames(keys[..k], names)
    {
      assert keys[..k + 1][..k] == keys[..k];
      var id := keys[k];
      if id in names {
        entries := entries + [(IntToString(id), NameString(names[id]))];
      }
      k := k + 1;
    }
    assert keys[..k] == keys;
  }

  // ---------------------------------------------------------------- Round trip

  /** The entries of m whose keys are listed in keys. */
  function Restrict<V>(keys: seq<int>, m: map<int, V>): map<int, V> {
    map k | k in keys && k in m :: m[k]
  }

  lemma RestrictSnoc<V>(keys: seq<int>, m: map<int, V>)
    requires keys != []
    ensures var k := keys[|keys| - 1];
      Restrict(keys, m) == if k in m then Restrict(keys[..|keys| - 1], m)[k := m[k]] else Restrict(keys[..|keys| - 1], m)
  {
    assert forall x :: x in keys <==> x in keys[..|keys| - 1] || x == keys[|keys| - 1];
  }

  lemma RestrictAll<V>(keys: seq<int>, m: map<int, V>)
    requires forall x :: x in keys <==> x in m
    ensures Restrict(keys, m) == m
  {
    forall k | k in m
      ensures k in Restrict(keys, m)
    {
      assert k in keys;
    }
  }

  lemma {:induction false} ObsRoundTrip(keys: seq<int>, obs: map<int, Point2>)
    ensures LoadObservations(EncodeObs(keys, obs)) == Restrict(keys, obs)
  {
    if keys != [] {
      var front := keys[..|keys| - 1];
      var k := keys[|keys| - 1];
      ObsRoundTrip(front, obs);
      RestrictSnoc(keys, obs);
      var e := EncodeObs(front, obs);
      if k in obs {
        var entry := (IntToString(k), Coord(obs[k].x, obs[k].y));
        assert EncodeObs(keys, obs) == e + [entry];
        assert (e + [entry])[..|e|] == e;
        ParseIntToString(k);
      } else {
        assert EncodeObs(keys, obs) == e + [];
        assert e + [] == e;
      }
    }
  }

  lemma {:induction false} SetsRoundTrip(keys: seq<int>, pd: PointData)
    ensures LoadSets(EncodeSets(keys, pd)) == Restrict(keys, pd)
  {
    if keys != [] {
      var front := keys[..|keys| - 1];
      var k := keys[|keys| - 1];
      SetsRoundTrip(front, pd);
      RestrictSnoc(keys, pd);
      var e := EncodeSets(front, pd);
      if k in pd {
        var entry := (IntToString(k), ObsObject(EncodeObs(SortedIds(pd[k].Keys), pd[k])));
        assert EncodeSets(keys, pd) == e + [entry];
        assert (e + [entry])[..|e|] == e;
        ParseIntToString(k);
        ObsRoundTrip(SortedIds(pd[k].Keys), pd[k]);
        SortedIdsFacts(pd[k].Keys);
        RestrictAll(SortedIds(pd[k].Keys), pd[k]);
      } else {
        assert EncodeSets(keys, pd) == e + [];
        assert e + [] == e;
      }
    }
  }

  /** The id read back as the largest is -1 or a listed set, and no listed set is above it. */
  lemma {:induction false} MaxSetIdOfSave(keys: seq<int>, pd: PointData)
    ensures var m := MaxSetId(EncodeSets(keys, pd));
      && m >= -1
      && (forall k :: k in keys && k in pd ==> k <= m)
      && (m == -1 || (m in keys && m in pd))
  {
    if keys != [] {
      var front := keys[..|keys| - 1];
      var k := keys[|keys| - 1];
      MaxSetIdOfSave(front, pd);
      var e := EncodeSets(front, pd);
      if k in pd {
        var entry := (IntToString(k), ObsObject(EncodeObs(SortedIds(pd[k].Keys), pd[k])));
        assert EncodeSets(keys, pd) == e + [entry];
        assert (e + [entry])[..|e|] == e;
        ParseIntToString(k);
      } else {
        assert EncodeSets(keys, pd) == e + [];
        assert e + [] == e;
      }
      assert forall x :: x in keys <==> x in front || x == k;
    }
  }

  lemma {:induction false} DimsRoundTrip(keys: seq<int>, dims: map<int, (int, int)>)
    requires forall k :: k in dims ==> dims[k].0 > 0 && dims[k].1 > 0
    ensures LoadDims(EncodeDims(keys, dims)) == Restrict(keys, dims)
  {
    if keys != [] {
      var front := keys[..|keys| - 1];
      var k := keys[|keys| - 1];
      DimsRoundTrip(front, dims);
      RestrictSnoc(keys, dims);
      var e := EncodeDims(front, dims);
      if k in dims {
        var entry := (IntToString(k), DimsPair(dims[k].0, dims[k].1));
        assert EncodeDims(keys, dims) == e + [entry];
        assert (e + [entry])[..|e|] == e;
        ParseIntToString(k);
      } else {
        assert EncodeDims(keys, dims) == e + [];
        assert e + [] == e;
      }
    }
  }

  lemma {:induction false} NamesRoundTrip(keys: seq<int>, names: map<int, string>)
    requires forall k :: k in names ==> names[k] != [] && Stripped(names[k])
    ensures LoadNames(EncodeNames(keys, names)) == Restrict(keys, names)
  {
    if keys != [] {
      var front := keys[..|keys| - 1];
      var k := keys[|keys| - 1];
      NamesRoundTrip(front, names);
      RestrictSnoc(keys, names);
      var e := EncodeNames(front, names);
      if k in names {
        var entry := (IntToString(k), NameString(names[k]));
        assert EncodeNames(keys, names) == e + [entry];
        assert (e + [entry])[..|e|] == e;
        ParseIntToString(k);
        StripStartFacts(names[k]);
        StripEndFacts(names[k]);
      } else {
        assert EncodeNames(keys, names) == e + [];
        assert e + [] == e;
      }
    }
  }

  /**
    Saving and loading gives back the same point sets, dimensions and names,
    and the next id read back is one more than the largest set id (0 when
    there is no set), never above the one saved.
   */
  lemma SaveLoadRoundTrip(imagePaths: seq<string>, pd: PointData, names: map<int, string>,
                          dims: map<int, (int, int)>, nextId: int)
    requires IdsBelow(pd, nextId) && nextId >= 0
    requires forall k :: k in dims ==> dims[k].0 > 0 && dims[k].1 > 0
    requires forall k :: k in names ==> names[k] != [] && Stripped(names[k])
    ensures var j := Save(imagePaths, pd, names, dims);
      && j.imagePaths == Some(imagePaths)
      && LoadSets(j.pointData.value) == pd
      && LoadDims(j.dims.value) == dims
      && LoadNames(j.names.value) == names
      && IdsBelow(pd, MaxSetId(j.pointData.value) + 1)
      && 0 <= MaxSetId(j.pointData.value) + 1 <= nextId
      && (MaxSetId(j.pointData.value) == -1 || MaxSetId(j.pointData.value) in pd)
  {
    var ids := SortedIds(pd.Keys);
    SortedIdsFacts(pd.Keys);
    SetsRoundTrip(ids, pd);
    RestrictAll(ids, pd);
    MaxSetIdOfSave(ids, pd);
    SortedIdsFacts(dims.Keys);
    DimsRoundTrip(SortedIds(dims.Keys), dims);
    RestrictAll(SortedIds(dims.Keys), dims);
    SortedIdsFacts(names.Keys);
    NamesRoundTrip(SortedIds(names.Keys), names);
    RestrictAll(SortedIds(names.Keys), names);
  }
}
