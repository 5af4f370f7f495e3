/**
 * The epsilon-neighbourhood of an object as a reference definition on values.
 * The metric is whatever the caller supplies; the only thing the clustering
 * ever asks of it is whether a distance is strictly below epsilon.
 */
module Neighbourhood {
  import opened IndexLists

  /** `j` is in the neighbourhood of `i`: `i` itself, whatever the metric says, or strictly closer than `eps`. */
  predicate Near<T>(objects: seq<T>, dist: (T, T) -> real, eps: real, i: nat, j: nat)
    requires i < |objects| && j < |objects|
  {
    j == i || dist(objects[i], objects[j]) < eps
  }

  /** The neighbours of `i` among the indices below `n`, in ascending order. */
  function NeighboursBelow<T>(objects: seq<T>, dist: (T, T) -> real, eps: real, i: nat, n: nat): seq<nat>
    requires i < |objects| && n <= |objects|
  {
    if n == 0 then []
    else NeighboursBelow(objects, dist, eps, i, n - 1) + (if Near(objects, dist, eps, i, n - 1) then [n - 1] else [])
  }

  /** The whole neighbourhood of `i`, as the range query is to return it. */
  function Neighbours<T>(objects: seq<T>, dist: (T, T) -> real, eps: real, i: nat): seq<nat>
    requires i < |objects|
  {
    NeighboursBelow(objects, dist, eps, i, |objects|)
  }

  /** A core object: its neighbourhood, itself included, has at least `minPts` members. */
  predicate IsCore<T>(objects: seq<T>, dist: (T, T) -> real, eps: real, minPts: nat, i: nat)
    requires i < |objects|
  {
    |Neighbours(objects, dist, eps, i)| >= minPts
  }

  /** `j` lies in the neighbourhood of some core object. */
  ghost predicate ReachedByCore<T>(objects: seq<T>, dist: (T, T) -> real, eps: real, minPts: nat, j: nat)
    requires j < |objects|
  {
    exists w :: 0 <= w < |objects| && IsCore(objects, dist, eps, minPts, w) && Near(objects, dist, eps, w, j)
  }

  /** The metric gives the same distance in both directions on these objects. */
  ghost predicate SymmetricOn<T>(objects: seq<T>, dist: (T, T) -> real)
  {
    forall i, j :: 0 <= i < |objects| && 0 <= j < |objects| ==> dist(objects[i], objects[j]) == dist(objects[j], objects[i])
  }

  /** The prefix scan yields exactly the neighbours below `n`, ascending. */
  lemma {:induction false} NeighboursBelowSpec<T>(objects: seq<T>, dist: (T, T) -> real, eps: real, i: nat, n: nat)
    requires i < |objects| && n <= |objects|
    ensures StrictlyAscending(NeighboursBelow(objects, dist, eps, i, n))
    ensures forall m :: 0 <= m < |NeighboursBelow(objects, dist, eps, i, n)| ==> NeighboursBelow(objects, dist, eps, i, n)[m] < n
    ensures forall j :: 0 <= j < n ==> (j in NeighboursBelow(objects, dist, eps, i, n) <==> Near(objects, dist, eps, i, j))
  {
    if n > 0 {
      NeighboursBelowSpec(objects, dist, eps, i, n - 1);
    }
  }

  /** The neighbourhood is ascending, within range, contains `i`, and holds exactly the near indices. */
  lemma NeighboursSpec<T>(objects: seq<T>, dist: (T, T) -> real, eps: real, i: nat)
    requires i < |objects|
    ensures StrictlyAscending(Neighbours(objects, dist, eps, i))
    ensures i in Neighbours(objects, dist, eps, i)
    ensures forall m :: 0 <= m < |Neighbours(objects, dist, eps, i)| ==> Neighbours(objects, dist, eps, i)[m] < |objects|
    ensures forall j :: 0 <= j < |objects| ==> (j in Neighbours(objects, dist, eps, i) <==> Near(objects, dist, eps, i, j))
  {
    NeighboursBelowSpec(objects, dist, eps, i, |objects|);
  }

  /** Any ascending list of exactly the near indices is the neighbourhood: the filter specification determines the result. */
  lemma NeighboursUnique<T>(objects: seq<T>, dist: (T, T) -> real, eps: real, i: nat, r: seq<nat>)
    requires i < |objects|
    requires StrictlyAscending(r)
    requires forall x :: x in r ==> x < |objects|
    requires forall j :: 0 <= j < |objects| ==> (j in r <==> Near(objects, dist, eps, i, j))
    ensures r == Neighbours(objects, dist, eps, i)
  {
    NeighboursSpec(objects, dist, eps, i);
    AscendingUnique(r, Neighbours(objects, dist, eps, i));
  }

  /** `S` contains every neighbour of each core object in it. */
  ghost predicate ClosedUnderCores<T>(objects: seq<T>, dist: (T, T) -> real, eps: real, minPts: nat, S: set<nat>)
  {
    forall w, j :: (0 <= w < |objects| && 0 <= j < |objects| && w in S &&
                    IsCore(objects, dist, eps, minPts, w) && Near(objects, dist, eps, w, j)) ==> j in S
  }

  /** The neighbour relation holds both ways between any two of these objects. */
  ghost predicate NearSymmetricOn<T>(objects: seq<T>, dist: (T, T) -> real, eps: real)
  {
    forall i, j :: 0 <= i < |objects| && 0 <= j < |objects| ==>
      (Near(objects, dist, eps, i, j) <==> Near(objects, dist, eps, j, i))
  }

  /** Under a symmetric metric the neighbour relation is symmetric too, at every epsilon. */
  lemma SymmetricNear<T>(objects: seq<T>, dist: (T, T) -> real, eps: real)
    requires SymmetricOn(objects, dist)
    ensures NearSymmetricOn(objects, dist, eps)
  {
    forall i, j | 0 <= i < |objects| && 0 <= j < |objects|
      ensures Near(objects, dist, eps, i, j) <==> Near(objects, dist, eps, j, i)
    {
      assert dist(objects[i], objects[j]) == dist(objects[j], objects[i]);
    }
  }

  /** A core object is a witness for every index in its neighbourhood. */
  lemma ReachedByCoreIntro<T>(objects: seq<T>, dist: (T, T) -> real, eps: real, minPts: nat, w: nat, j: nat)
    requires w < |objects| && j < |objects|
    requires IsCore(objects, dist, eps, minPts, w) && Near(objects, dist, eps, w, j)
    ensures ReachedByCore(objects, dist, eps, minPts, j)
  {
  }
}
