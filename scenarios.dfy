/**
 * Whole runs of the driver on small inputs with a known outcome, derived from
 * nothing but the contract of `Density.Dbscan`.
 */
module Scenarios {
  import opened IndexLists
  import opened Labels
  import opened Neighbourhood
  import opened Cluster

  /** When every two distinct objects are at least epsilon apart and minPoints is 2, everything is NOISE and no cluster forms. */
  method RunIsolated<T>(objects: seq<T>, dist: (T, T) -> real, eps: real) returns (ids: seq<nat>, clusters: nat)
    requires forall i, j :: 0 <= i < |objects| && 0 <= j < |objects| && i != j ==> dist(objects[i], objects[j]) >= eps
    ensures |ids| == |objects|
    ensures forall j :: 0 <= j < |ids| ==> ids[j] == NOISE
    ensures clusters == 0
  {
    var d := new Density();
    d.Dbscan(objects, dist, eps, 2);
    forall i | 0 <= i < |objects|
      ensures !IsCore(objects, dist, eps, 2, i)
    {
      NeighboursUnique(objects, dist, eps, i, [i]);
    }
    ids, clusters := d.clusterIds, d.totalClusters;
  }

  /** When every two objects are closer than epsilon, each is a neighbour of each, both ways, and each is core for minPoints 1. */
  lemma AllClose<T>(objects: seq<T>, dist: (T, T) -> real, eps: real)
    requires forall i, j :: 0 <= i < |objects| && 0 <= j < |objects| ==> dist(objects[i], objects[j]) < eps
    ensures forall i, j :: 0 <= i < |objects| && 0 <= j < |objects| ==> Near(objects, dist, eps, i, j)
    ensures NearSymmetricOn(objects, dist, eps)
    ensures forall i :: 0 <= i < |objects| ==> IsCore(objects, dist, eps, 1, i)
  {
    forall i | 0 <= i < |objects|
      ensures IsCore(objects, dist, eps, 1, i)
    {
      NeighboursSpec(objects, dist, eps, i);
    }
  }

  /** Any labelling `Clustered` allows for minPoints 1 and objects all close together is one cluster holding everything. */
  lemma AllCloseOutcome<T>(objects: seq<T>, dist: (T, T) -> real, eps: real, ids: seq<nat>, medoids: seq<nat>, cur: nat, total: nat)
    requires |objects| > 0
    requires forall i, j :: 0 <= i < |objects| && 0 <= j < |objects| ==> dist(objects[i], objects[j]) < eps
    requires Clustered(objects, dist, eps, 1, ids, medoids, cur, total)
    ensures |ids| == |objects|
    ensures forall j :: 0 <= j < |ids| ==> ids[j] == FIRST_CLUSTER
    ensures total == 1
  {
    AllClose(objects, dist, eps);
    ClusteredConnected(objects, dist, eps, 1, ids, medoids, cur, total);
    ReachedByCoreIntro(objects, dist, eps, 1, 0, 0);
    forall j | 0 <= j < |objects|
      ensures ids[j] == ids[0]
    {
      CoresConnectedPair(objects, dist, eps, 1, ids, 0, j);
    }
    // The first and the last cluster carry the same label, so they are one.
    assert ids[medoids[0]] == FIRST_CLUSTER;
    assert ids[medoids[total - 1]] == FIRST_CLUSTER + total - 1;
  }

  /**
   * With minPoints 1 and every two objects closer than epsilon, in both directions,
   * a non-empty input forms exactly one cluster that holds every object.
   */
  method RunAllClose<T>(objects: seq<T>, dist: (T, T) -> real, eps: real) returns (ids: seq<nat>, clusters: nat)
    requires |objects| > 0
    requires forall i, j :: 0 <= i < |objects| && 0 <= j < |objects| ==> dist(objects[i], objects[j]) < eps
    ensures |ids| == |objects|
    ensures forall j :: 0 <= j < |ids| ==> ids[j] == FIRST_CLUSTER
    ensures clusters == 1
  {
    var d := new Density();
    d.Dbscan(objects, dist, eps, 1);
    AllCloseOutcome(objects, dist, eps, d.clusterIds, d.medoidIds, d.currentClusterId, d.totalClusters);
    ids, clusters := d.clusterIds, d.totalClusters;
  }

  /** Distance on the real line. */
  function LineDistance(a: real, b: real): (r: real)
    ensures r >= 0.0 && (r == a - b || r == b - a)
  {
    if a >= b then a - b else b - a
  }

  /** Distance on the line is the same both ways, so the line example satisfies the symmetric guarantees. */
  lemma LineSymmetric(objects: seq<real>)
    ensures SymmetricOn(objects, LineDistance)
  {
    forall a: real, b: real
      ensures LineDistance(a, b) == LineDistance(b, a)
    {
    }
  }

  /** The six objects of the line example. */
  const Line: seq<real> := [0.0, 1.0, 2.0, 10.0, 11.0, 20.0]

  /** The expected neighbourhood of each object of the line example at epsilon 2. */
  function LineGroup(i: nat): (r: seq<nat>)
    requires i < 6
    ensures i in r
  {
    if i == 0 then [0, 1]
    else if i == 1 then [0, 1, 2]
    else if i == 2 then [1, 2]
    else if i < 5 then [3, 4]
    else [5]
  }

  /** Each object's neighbourhood in the line example is its `LineGroup`. */
  lemma LineNeighbourhood(i: nat)
    requires i < 6
    ensures Neighbours(Line, LineDistance, 2.0, i) == LineGroup(i)
  {
    NeighboursUnique(Line, LineDistance, 2.0, i, LineGroup(i));
  }

  /** Each of the first five objects of the line example is core, and so reached by a core object. */
  lemma LineCore(j: nat)
    requires j < 5
    ensures IsCore(Line, LineDistance, 2.0, 2, j) && ReachedByCore(Line, LineDistance, 2.0, 2, j)
  {
    LineNeighbourhood(j);
    ReachedByCoreIntro(Line, LineDistance, 2.0, 2, j, j);
  }

  /** The last object of the line example is reached by no core object. */
  lemma LineOutlier()
    ensures !ReachedByCore(Line, LineDistance, 2.0, 2, 5)
  {
    forall w | 0 <= w < |Line|
      ensures !(IsCore(Line, LineDistance, 2.0, 2, w) && Near(Line, LineDistance, 2.0, w, 5))
    {
      if w == 5 {
        LineNeighbourhood(5);
      }
    }
  }

  /** Any labelling of the line example that `Clustered` allows has 20 as NOISE and groups 0, 1, 2 and 10, 11. */
  lemma LineOutcome(ids: seq<nat>)
    requires |ids| == |Line|
    requires forall j :: 0 <= j < |Line| ==> ids[j] == NOISE || ids[j] >= FIRST_CLUSTER
    requires forall j :: 0 <= j < |Line| ==> (ids[j] == NOISE <==> !ReachedByCore(Line, LineDistance, 2.0, 2, j))
    requires CoresConnected(Line, LineDistance, 2.0, 2, ids)
    ensures |ids| == 6
    ensures ids[5] == NOISE
    ensures forall j :: 0 <= j < 5 ==> ids[j] >= FIRST_CLUSTER
    ensures ids[0] == ids[1] == ids[2] && ids[3] == ids[4]
  {
    forall j | 0 <= j < 5
      ensures ids[j] >= FIRST_CLUSTER
    {
      LineCore(j);
    }
    LineOutlier();
    LineCore(0);
    LineCore(1);
    LineCore(2);
    LineCore(3);
    LineCore(4);
    CoresConnectedPair(Line, LineDistance, 2.0, 2, ids, 0, 1);
    CoresConnectedPair(Line, LineDistance, 2.0, 2, ids, 1, 2);
    CoresConnectedPair(Line, LineDistance, 2.0, 2, ids, 3, 4);
  }

  /** In the line example a core object's neighbours lie on its own side of the gap between 2 and 10. */
  lemma LineSide(w: nat, j: nat)
    requires w < |Line| && j < |Line|
    requires IsCore(Line, LineDistance, 2.0, 2, w) && Near(Line, LineDistance, 2.0, w, j)
    ensures w < 3 <==> j < 3
  {
    LineNeighbourhood(w);
    NeighboursSpec(Line, LineDistance, 2.0, w);
    assert j in LineGroup(w);
  }

  /** The first three objects of the line example, and the last three, are each closed under core neighbourhoods. */
  lemma LineClosed()
    ensures ClosedUnderCores(Line, LineDistance, 2.0, 2, {0, 1, 2})
    ensures ClosedUnderCores(Line, LineDistance, 2.0, 2, {3, 4, 5})
  {
    forall w, j | 0 <= w < |Line| && 0 <= j < |Line| && IsCore(Line, LineDistance, 2.0, 2, w) && Near(Line, LineDistance, 2.0, w, j)
      ensures w in {0, 1, 2} <==> j in {0, 1, 2}
    {
      LineSide(w, j);
    }
  }

  /**
   * Six labels where the first three share a real id, the next two share another,
   * and the last is NOISE, with every cluster's medoid among the first five and
   * carrying its own id: the two ids are 2 and 3, in that order, and there are two
   * clusters.
   */
  lemma TwoGroups(ids: seq<nat>, medoids: seq<nat>, total: nat)
    requires |ids| == 6 && ids[5] == NOISE
    requires ids[0] == ids[1] == ids[2] && ids[3] == ids[4] && ids[0] != ids[3]
    requires forall j :: 0 <= j < 5 ==> FIRST_CLUSTER <= ids[j] < FIRST_CLUSTER + total
    requires |medoids| == total && StrictlyAscending(medoids)
    requires forall c :: 0 <= c < total ==> medoids[c] < 5 && ids[medoids[c]] == FIRST_CLUSTER + c
    ensures total == 2 && ids == [2, 2, 2, 3, 3, NOISE]
  {
    assert total >= 2;
    assert ids[medoids[0]] == FIRST_CLUSTER && ids[medoids[1]] == FIRST_CLUSTER + 1;
    assert ids[medoids[total - 1]] == FIRST_CLUSTER + total - 1;
    assert medoids[0] < medoids[1];
  }

  /** Every medoid of a clustering of the line example is one of its first five objects. */
  lemma LineMedoids(medoids: seq<nat>)
    requires forall c :: 0 <= c < |medoids| ==> medoids[c] < |Line| && IsCore(Line, LineDistance, 2.0, 2, medoids[c])
    ensures forall c :: 0 <= c < |medoids| ==> medoids[c] < 5
  {
    LineNeighbourhood(5);
  }

  /** For the line example, 0 and 10 never share a cluster that stays inside the closed sets holding its medoid. */
  lemma LineSeparated(ids: seq<nat>, medoids: seq<nat>)
    requires |ids| == |Line|
    requires forall c :: 0 <= c < |medoids| ==>
      medoids[c] < |Line| && ClusterWithin(Line, LineDistance, 2.0, 2, ids, medoids[c], FIRST_CLUSTER + c)
    requires FIRST_CLUSTER <= ids[0] < FIRST_CLUSTER + |medoids|
    ensures ids[0] != ids[3]
  {
    LineClosed();
    ClusteredSeparates(Line, LineDistance, 2.0, 2, ids, medoids, {0, 1, 2}, {3, 4, 5}, 0, 3);
  }

  /** Any labelling of the line example that `Clustered` allows, once neighbours are known to be symmetric, is the expected one. */
  lemma LineResult(ids: seq<nat>, medoids: seq<nat>, total: nat)
    requires |ids| == |Line| && |medoids| == total && StrictlyAscending(medoids)
    requires forall j :: 0 <= j < |Line| ==> ids[j] == NOISE || FIRST_CLUSTER <= ids[j] < FIRST_CLUSTER + total
    requires forall j :: 0 <= j < |Line| ==> (ids[j] == NOISE <==> !ReachedByCore(Line, LineDistance, 2.0, 2, j))
    requires CoresConnected(Line, LineDistance, 2.0, 2, ids)
    requires forall c :: 0 <= c < total ==>
      && medoids[c] < |Line| && IsCore(Line, LineDistance, 2.0, 2, medoids[c])
      && ids[medoids[c]] == FIRST_CLUSTER + c
      && ClusterWithin(Line, LineDistance, 2.0, 2, ids, medoids[c], FIRST_CLUSTER + c)
    ensures ids == [2, 2, 2, 3, 3, NOISE]
    ensures total == 2
  {
    LineOutcome(ids);
    LineSeparated(ids, medoids);
    LineMedoids(medoids);
    TwoGroups(ids, medoids, total);
  }

  /**
   * Objects 0, 1, 2, 10, 11, 20 on the line, epsilon 2, minPoints 2: the first
   * three form cluster 2, the next two form cluster 3, 20 is NOISE, and there are
   * two clusters.
   */
  method RunLine() returns (ids: seq<nat>, clusters: nat)
    ensures ids == [2, 2, 2, 3, 3, NOISE]
    ensures clusters == 2
  {
    var d := new Density();
    d.Dbscan(Line, LineDistance, 2.0, 2);
    ids, clusters := d.clusterIds, d.totalClusters;
    LineSymmetric(Line);
    SymmetricNear(Line, LineDistance, 2.0);
    ClusteredConnected(Line, LineDistance, 2.0, 2, ids, d.medoidIds, d.currentClusterId, clusters);
    LineResult(ids, d.medoidIds, clusters);
  }
}
