/** The label lattice of a clustering run and the count that bounds its work. */
module Labels {
  import opened IndexLists

  /** Not yet looked at. */
  const UNCLASSIFIED: nat := 0
  /** Looked at and found not dense enough to seed a cluster. */
  const NOISE: nat := 1
  /** The id of the first real cluster; later clusters count up from here. */
  const FIRST_CLUSTER: nat := 2

  /** The number of positions still labelled UNCLASSIFIED. */
  function CountUnclassified(ids: seq<nat>): (c: nat)
    ensures c <= |ids|
    ensures c == 0 <==> forall j :: 0 <= j < |ids| ==> ids[j] != UNCLASSIFIED
  {
    if |ids| == 0 then 0
    else CountUnclassified(ids[..|ids| - 1]) + (if ids[|ids| - 1] == UNCLASSIFIED then 1 else 0)
  }

  /** Writing one label changes the count by exactly what was lost and what was written. */
  lemma {:induction false} CountUnclassifiedUpdate(ids: seq<nat>, j: nat, v: nat)
    requires j < |ids|
    ensures CountUnclassified(ids[j := v]) + (if ids[j] == UNCLASSIFIED then 1 else 0)
         == CountUnclassified(ids) + (if v == UNCLASSIFIED then 1 else 0)
  {
    var n := |ids| - 1;
    if j == n {
      assert ids[j := v][..n] == ids[..n];
    } else {
      assert ids[j := v][..n] == ids[..n][j := v];
      CountUnclassifiedUpdate(ids[..n], j, v);
    }
  }

  /** Positions that are known to be classified leave at most the rest unclassified. */
  lemma {:induction false} CountUnclassifiedBound(ids: seq<nat>, s: seq<nat>)
    requires StrictlyAscending(s)
    requires forall m :: 0 <= m < |s| ==> s[m] < |ids| && ids[s[m]] != UNCLASSIFIED
    ensures CountUnclassified(ids) + |s| <= |ids|
  {
    if |ids| > 0 {
      var n := |ids| - 1;
      if |s| > 0 && s[|s| - 1] == n {
        var s' := s[..|s| - 1];
        assert forall m :: 0 <= m < |s'| ==> s'[m] < n by {
          forall m | 0 <= m < |s'| ensures s'[m] < n {
            assert s[m] < s[|s| - 1];
          }
        }
        CountUnclassifiedBound(ids[..n], s');
      } else {
        assert forall m :: 0 <= m < |s| ==> s[m] < n by {
          forall m | 0 <= m < |s| ensures s[m] < n {
            assert m == |s| - 1 || s[m] < s[|s| - 1];
          }
        }
        CountUnclassifiedBound(ids[..n], s);
      }
    }
  }
}
