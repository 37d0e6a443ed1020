/** Python's sorted() applied to a set of integer keys. */
module SortedKeys {

  predicate StrictlyIncreasing(s: seq<int>) {
    forall i, j :: 0 <= i < j < |s| ==> s[i] < s[j]
  }

  predicate IsMinimum(m: int, s: set<int>) {
    m in s && forall x :: x in s ==> m <= x
  }

  /** A set of keys that is not empty has an element. */
  lemma NonEmptyHasElement(s: set<int>)
    ensures s != {} ==> exists x :: x in s
  {
    if forall x :: x !in s {
      assert s == {};
    }
  }

  lemma {:induction false} MinimumExists(s: set<int>)
    ensures s != {} ==> exists m :: IsMinimum(m, s)
    decreases |s|
  {
    NonEmptyHasElement(s);
    if s != {} {
      var y :| y in s;
      var rest := s - {y};
      MinimumExists(rest);
      if rest == {} {
        forall x | x in s ensures y <= x {
          assert x !in rest;
        }
        assert IsMinimum(y, s);
      } else {
        var m :| IsMinimum(m, rest);
        if y < m {
          forall x | x in s ensures y <= x {
            assert x == y || x in rest;
          }
          assert IsMinimum(y, s);
        } else {
          forall x | x in s ensures m <= x {
            assert x == y || x in rest;
          }
          assert IsMinimum(m, s);
        }
      }
    }
  }

  /** The keys in ascending order (the behaviour of sorting a set of keys). */
  function SortedIds(s: set<int>): seq<int>
    decreases |s|
  {
    if s == {} then []
    else
      MinimumExists(s);
      var m :| IsMinimum(m, s);
      [m] + SortedIds(s - {m})
  }

  /** The sorted keys list every key exactly once, in strictly increasing order. */
  lemma {:induction false} SortedIdsFacts(s: set<int>)
    ensures |SortedIds(s)| == |s|
    ensures forall x :: x in SortedIds(s) <==> x in s
    ensures StrictlyIncreasing(SortedIds(s))
    decreases |s|
  {
    if s != {} {
      MinimumExists(s);
      var m :| IsMinimum(m, s) && SortedIds(s) == [m] + SortedIds(s - {m});
      var rest := SortedIds(s - {m});
      SortedIdsFacts(s - {m});
      var r := SortedIds(s);
      forall i, j | 0 <= i < j < |r| ensures r[i] < r[j] {
        assert r[j] == rest[j - 1];
        if i > 0 {
          assert r[i] == rest[i - 1];
        } else {
          assert rest[j - 1] in s - {m};
        }
      }
    }
  }
}
