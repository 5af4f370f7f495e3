/**
 * DBSCAN (Ester et al., "A Density-Based Algorithm for Discovering Clusters in
 * Large Spatial Databases with Noise") as the class `cluster::density` runs it:
 * a driver over all objects, a flood fill from each unclassified seed, and a
 * linear-scan range query.
 */
module Cluster {
  import opened IndexLists
  import opened Labels
  import opened Neighbourhood

  /** Every index that `ids` already holds in a real cluster still holds a real cluster in `ids'`. */
  ghost predicate KeepsReal(ids: seq<nat>, ids': seq<nat>)
  {
    |ids| == |ids'| && forall j :: 0 <= j < |ids| && ids[j] >= FIRST_CLUSTER ==> ids'[j] >= FIRST_CLUSTER
  }

  /** Every neighbour of `w` holds a real cluster id in `ids`. */
  ghost predicate NeighboursClaimed<T>(objects: seq<T>, dist: (T, T) -> real, eps: real, ids: seq<nat>, w: nat)
    requires w < |objects| == |ids|
  {
    forall j :: 0 <= j < |objects| && Near(objects, dist, eps, w, j) ==> ids[j] >= FIRST_CLUSTER
  }

  /** A neighbourhood stays claimed when no real id is lost. */
  lemma NeighboursClaimedKept<T>(objects: seq<T>, dist: (T, T) -> real, eps: real, ids: seq<nat>, ids': seq<nat>, w: nat)
    requires w < |objects| == |ids|
    requires NeighboursClaimed(objects, dist, eps, ids, w) && KeepsReal(ids, ids')
    ensures NeighboursClaimed(objects, dist, eps, ids', w)
  {
  }

  /**
   * What one core worklist member does to the labels: each of its neighbours that is
   * UNCLASSIFIED or NOISE gets `cur`, and every other label stays as it was.
   */
  ghost predicate Claimed(neighbours: seq<nat>, cur: nat, ids: seq<nat>, ids': seq<nat>)
  {
    |ids'| == |ids| &&
    forall x :: 0 <= x < |ids| ==> ids'[x] == if x in neighbours && ids[x] <= NOISE then cur else ids[x]
  }

  /** Claiming one more neighbour `n` writes `cur` to it exactly when it is still UNCLASSIFIED or NOISE. */
  lemma ClaimedStep(prefix: seq<nat>, n: nat, cur: nat, start: seq<nat>, ids: seq<nat>)
    requires Claimed(prefix, cur, start, ids)
    requires n < |start| && cur >= FIRST_CLUSTER
    ensures Claimed(prefix + [n], cur, start, if ids[n] <= NOISE then ids[n := cur] else ids)
  {
    forall x | 0 <= x < |start|
      ensures x in prefix + [n] <==> x in prefix || x == n
    {
    }
  }

  /**
   * Part way through claiming `neighbours`: the first `j` are claimed, `seeds'` extends
   * `seeds` by exactly the claimed ones that were UNCLASSIFIED, without repeats, and
   * the count of UNCLASSIFIED labels dropped by the number of seeds added.
   */
  ghost predicate ClaimProgress(neighbours: seq<nat>, j: nat, cur: nat, start: seq<nat>,
                                seeds: seq<nat>, ids: seq<nat>, seeds': seq<nat>)
  {
    && j <= |neighbours|
    && (forall q :: 0 <= q < |neighbours| ==> neighbours[q] < |start|)
    && Claimed(neighbours[..j], cur, start, ids)
    && |seeds| <= |seeds'| && seeds'[..|seeds|] == seeds
    && NoDuplicates(seeds')
    && (forall m :: 0 <= m < |seeds'| ==> seeds'[m] < |ids| && ids[seeds'[m]] != UNCLASSIFIED)
    && (forall m :: |seeds| <= m < |seeds'| ==> seeds'[m] in neighbours[..j] && start[seeds'[m]] == UNCLASSIFIED)
    && (forall x :: 0 <= x < |ids| && x in neighbours[..j] && start[x] == UNCLASSIFIED ==> x in seeds')
    && |seeds'| - |seeds| + CountUnclassified(ids) == CountUnclassified(start)
  }

  /** The next neighbour already holds a real id: nothing is written, and the progress carries over. */
  lemma ClaimSkip(neighbours: seq<nat>, j: nat, cur: nat, start: seq<nat>,
                  seeds: seq<nat>, ids: seq<nat>, seeds': seq<nat>)
    requires ClaimProgress(neighbours, j, cur, start, seeds, ids, seeds')
    requires j < |neighbours| && cur >= FIRST_CLUSTER && ids[neighbours[j]] > NOISE
    ensures ClaimProgress(neighbours, j + 1, cur, start, seeds, ids, seeds')
  {
    var n := neighbours[j];
    assert neighbours[..j + 1] == neighbours[..j] + [n];
    ClaimedStep(neighbours[..j], n, cur, start, ids);
  }

  /** The next neighbour is NOISE: it is relabelled `cur` but not queued. */
  lemma ClaimNoise(neighbours: seq<nat>, j: nat, cur: nat, start: seq<nat>,
                   seeds: seq<nat>, ids: seq<nat>, seeds': seq<nat>)
    requires ClaimProgress(neighbours, j, cur, start, seeds, ids, seeds')
    requires j < |neighbours| && cur >= FIRST_CLUSTER && ids[neighbours[j]] == NOISE
    ensures ClaimProgress(neighbours, j + 1, cur, start, seeds, ids[neighbours[j] := cur], seeds')
  {
    var n := neighbours[j];
    assert neighbours[..j + 1] == neighbours[..j] + [n];
    ClaimedStep(neighbours[..j], n, cur, start, ids);
    CountUnclassifiedUpdate(ids, n, cur);
  }

  /** Queueing an UNCLASSIFIED neighbour keeps the worklist facts of `ClaimProgress`. */
  lemma QueueFresh(neighbours: seq<nat>, j: nat, cur: nat, start: seq<nat>,
                   seeds: seq<nat>, ids: seq<nat>, seeds': seq<nat>)
    requires ClaimProgress(neighbours, j, cur, start, seeds, ids, seeds')
    requires j < |neighbours| && cur >= FIRST_CLUSTER && ids[neighbours[j]] == UNCLASSIFIED
    ensures var n, ids', seeds'' := neighbours[j], ids[neighbours[j] := cur], seeds' + [neighbours[j]];
      && seeds''[..|seeds|] == seeds
      && NoDuplicates(seeds'')
      && (forall m :: 0 <= m < |seeds''| ==> seeds''[m] < |ids'| && ids'[seeds''[m]] != UNCLASSIFIED)
      && (forall m :: |seeds| <= m < |seeds''| ==> seeds''[m] in neighbours[..j + 1] && start[seeds''[m]] == UNCLASSIFIED)
      && (forall x :: 0 <= x < |ids'| && x in neighbours[..j + 1] && start[x] == UNCLASSIFIED ==> x in seeds'')
  {
    var n := neighbours[j];
    assert neighbours[..j + 1] == neighbours[..j] + [n];
    assert start[n] == UNCLASSIFIED;
    assert n !in seeds' by {
      forall m | 0 <= m < |seeds'|
        ensures seeds'[m] != n
      {
      }
    }
    var ids', seeds'' := ids[n := cur], seeds' + [n];
    assert seeds''[..|seeds|] == seeds'[..|seeds|];
    forall m | 0 <= m < |seeds''|
      ensures seeds''[m] < |ids'| && ids'[seeds''[m]] != UNCLASSIFIED
    {
      if m < |seeds'| {
        assert seeds''[m] == seeds'[m];
      }
    }
    forall m | |seeds| <= m < |seeds''|
      ensures seeds''[m] in neighbours[..j + 1] && start[seeds''[m]] == UNCLASSIFIED
    {
      if m < |seeds'| {
        assert seeds''[m] == seeds'[m];
      }
    }
  }

  /** The next neighbour is UNCLASSIFIED: it is labelled `cur` and queued. */
  lemma ClaimFresh(neighbours: seq<nat>, j: nat, cur: nat, start: seq<nat>,
                   seeds: seq<nat>, ids: seq<nat>, seeds': seq<nat>)
    requires ClaimProgress(neighbours, j, cur, start, seeds, ids, seeds')
    requires j < |neighbours| && cur >= FIRST_CLUSTER && ids[neighbours[j]] == UNCLASSIFIED
    ensures ClaimProgress(neighbours, j + 1, cur, start, seeds, ids[neighbours[j] := cur], seeds' + [neighbours[j]])
  {
    var n := neighbours[j];
    assert neighbours[..j + 1] == neighbours[..j] + [n];
    ClaimedStep(neighbours[..j], n, cur, start, ids);
    CountUnclassifiedUpdate(ids, n, cur);
    QueueFresh(neighbours, j, cur, start, seeds, ids, seeds');
  }

  /**
   * The worklist `seedList` grown from `seeds` while the labels went from `start` to `ids`:
   * it only grew, by indices UNCLASSIFIED at the start, has no index twice, all its
   * members carry `cur`, it holds every index that left UNCLASSIFIED, and its length
   * plus the number of UNCLASSIFIED labels is the fixed `budget`, below the object count.
   */
  ghost predicate WorklistShape(n: nat, cur: nat, start: seq<nat>, ids: seq<nat>, seeds: seq<nat>, seedList: seq<nat>, budget: nat)
  {
    && |ids| == n == |start|
    && |seedList| + CountUnclassified(ids) == budget < n
    && |seeds| <= |seedList| && seedList[..|seeds|] == seeds
    && NoDuplicates(seedList)
    && (forall m :: 0 <= m < |seedList| ==> seedList[m] < n && ids[seedList[m]] == cur)
    && (forall m :: |seeds| <= m < |seedList| ==> start[seedList[m]] == UNCLASSIFIED)
    && (forall j :: 0 <= j < n && start[j] == UNCLASSIFIED && ids[j] != UNCLASSIFIED ==> j in seedList)
  }

  /** Labels went from `start` to `ids` writing only `cur`, and only over UNCLASSIFIED or NOISE. */
  ghost predicate OnlyClaims(cur: nat, start: seq<nat>, ids: seq<nat>)
  {
    |ids| == |start| &&
    forall j :: 0 <= j < |start| ==> ids[j] == start[j] || (start[j] <= NOISE && ids[j] == cur)
  }

  /** Every core member among the first `k` of the worklist has all its neighbours in real clusters. */
  ghost predicate ProcessedClaimed<T>(objects: seq<T>, dist: (T, T) -> real, eps: real, minPts: nat,
                                      ids: seq<nat>, seedList: seq<nat>, k: nat)
  {
    && |ids| == |objects|
    && k <= |seedList|
    && (forall m :: 0 <= m < |seedList| ==> seedList[m] < |objects|)
    && (forall m :: 0 <= m < k && IsCore(objects, dist, eps, minPts, seedList[m]) ==>
          NeighboursClaimed(objects, dist, eps, ids, seedList[m]))
  }

  /** Worklist member `p` is core and has `j` in its neighbourhood. */
  ghost predicate ClaimsAt<T>(objects: seq<T>, dist: (T, T) -> real, eps: real, minPts: nat, seedList: seq<nat>, p: nat, j: nat)
  {
    && p < |seedList| && seedList[p] < |objects| && j < |objects|
    && IsCore(objects, dist, eps, minPts, seedList[p]) && Near(objects, dist, eps, seedList[p], j)
  }

  /** Some core member among the first `k` of the worklist has `j` in its neighbourhood. */
  ghost predicate ClaimedBy<T>(objects: seq<T>, dist: (T, T) -> real, eps: real, minPts: nat, seedList: seq<nat>, k: nat, j: nat)
  {
    exists p :: 0 <= p < k && ClaimsAt(objects, dist, eps, minPts, seedList, p, j)
  }

  /** A claim by one of the first `k` members is a claim by one of the first `k'` members of any extension of the worklist. */
  lemma ClaimedByGrow<T>(objects: seq<T>, dist: (T, T) -> real, eps: real, minPts: nat,
                         seedList: seq<nat>, seedList': seq<nat>, k: nat, k': nat, j: nat)
    requires k <= k' && k <= |seedList| <= |seedList'| && seedList'[..|seedList|] == seedList
    requires ClaimedBy(objects, dist, eps, minPts, seedList, k, j)
    ensures ClaimedBy(objects, dist, eps, minPts, seedList', k', j)
  {
    var p :| 0 <= p < k && ClaimsAt(objects, dist, eps, minPts, seedList, p, j);
    assert seedList'[p] == seedList[p];
    assert ClaimsAt(objects, dist, eps, minPts, seedList', p, j);
  }

  /**
   * Why the worklist phase did what it did: every label that differs from `start`
   * is in the neighbourhood of a core member among the first `k` of the worklist,
   * and every member appended after `seeds` is in the neighbourhood of a core
   * member that comes before it.
   */
  ghost predicate Justified<T>(objects: seq<T>, dist: (T, T) -> real, eps: real, minPts: nat,
                               start: seq<nat>, ids: seq<nat>, seeds: seq<nat>, seedList: seq<nat>, k: nat)
  {
    && |start| == |ids| == |objects|
    && (forall j :: 0 <= j < |objects| && ids[j] != start[j] ==> ClaimedBy(objects, dist, eps, minPts, seedList, k, j))
    && (forall m :: |seeds| <= m < |seedList| ==> ClaimedBy(objects, dist, eps, minPts, seedList, m, seedList[m]))
  }

  /** The state of the worklist phase once its first `k` members are processed. */
  ghost predicate Expanding<T>(objects: seq<T>, dist: (T, T) -> real, eps: real, minPts: nat, cur: nat,
                               start: seq<nat>, ids: seq<nat>, seeds: seq<nat>, seedList: seq<nat>, k: nat, budget: nat)
  {
    && WorklistShape(|objects|, cur, start, ids, seeds, seedList, budget)
    && OnlyClaims(cur, start, ids)
    && ProcessedClaimed(objects, dist, eps, minPts, ids, seedList, k)
    && Justified(objects, dist, eps, minPts, start, ids, seeds, seedList, k)
  }

  lemma WorklistShapeStep(n: nat, cur: nat, start: seq<nat>, before: seq<nat>, after: seq<nat>,
                          neighbours: seq<nat>, seeds: seq<nat>, seedList: seq<nat>, seedList': seq<nat>, budget: nat)
    requires cur >= FIRST_CLUSTER
    requires WorklistShape(n, cur, start, before, seeds, seedList, budget) && OnlyClaims(cur, start, before)
    requires Claimed(neighbours, cur, before, after)
    requires |seedList| <= |seedList'| && seedList'[..|seedList|] == seedList
    requires NoDuplicates(seedList')
    requires forall m :: |seedList| <= m < |seedList'| ==>
      seedList'[m] in neighbours && seedList'[m] < n && before[seedList'[m]] == UNCLASSIFIED
    requires forall x :: 0 <= x < n && x in neighbours && before[x] == UNCLASSIFIED ==> x in seedList'
    requires |seedList'| - |seedList| + CountUnclassified(after) == CountUnclassified(before)
    ensures WorklistShape(n, cur, start, after, seeds, seedList', budget)
  {
    assert forall m :: 0 <= m < |seedList| ==> seedList'[m] == seedList[m];
    assert seedList'[..|seeds|] == seeds by {
      assert seedList'[..|seeds|] == seedList'[..|seedList|][..|seeds|];
    }
    forall m | 0 <= m < |seedList'|
      ensures seedList'[m] < n && after[seedList'[m]] == cur
    {
      if m < |seedList| {
        assert seedList'[m] == seedList[m];
      }
    }
    forall m | |seeds| <= m < |seedList'|
      ensures start[seedList'[m]] == UNCLASSIFIED
    {
      if m >= |seedList| {
        assert before[seedList'[m]] == UNCLASSIFIED;
      }
    }
    forall j | 0 <= j < n && start[j] == UNCLASSIFIED && after[j] != UNCLASSIFIED
      ensures j in seedList'
    {
      if before[j] != UNCLASSIFIED {
        var m :| 0 <= m < |seedList| && seedList[m] == j;
        assert seedList'[m] == j;
      }
    }
  }

  lemma OnlyClaimsStep(cur: nat, start: seq<nat>, before: seq<nat>, after: seq<nat>, neighbours: seq<nat>)
    requires cur >= FIRST_CLUSTER
    requires OnlyClaims(cur, start, before) && Claimed(neighbours, cur, before, after)
    ensures OnlyClaims(cur, start, after)
  {
  }

  lemma ProcessedClaimedStep<T>(objects: seq<T>, dist: (T, T) -> real, eps: real, minPts: nat, cur: nat,
                                before: seq<nat>, after: seq<nat>, seedList: seq<nat>, seedList': seq<nat>, k: nat)
    requires cur >= FIRST_CLUSTER
    requires ProcessedClaimed(objects, dist, eps, minPts, before, seedList, k) && k < |seedList|
    requires Claimed(Neighbours(objects, dist, eps, seedList[k]), cur, before, after)
    requires |seedList| <= |seedList'| && seedList'[..|seedList|] == seedList
    requires forall m :: 0 <= m < |seedList'| ==> seedList'[m] < |objects|
    ensures ProcessedClaimed(objects, dist, eps, minPts, after, seedList', k + 1)
  {
    var w := seedList[k];
    NeighboursSpec(objects, dist, eps, w);
    assert forall m :: 0 <= m < |seedList| ==> seedList'[m] == seedList[m];
    assert KeepsReal(before, after);
    assert NeighboursClaimed(objects, dist, eps, after, w) by {
      forall j | 0 <= j < |objects| && Near(objects, dist, eps, w, j)
        ensures after[j] >= FIRST_CLUSTER
      {
        assert j in Neighbours(objects, dist, eps, w);
      }
    }
    forall m | 0 <= m < k + 1 && IsCore(objects, dist, eps, minPts, seedList'[m])
      ensures NeighboursClaimed(objects, dist, eps, after, seedList'[m])
    {
      if m < k {
        NeighboursClaimedKept(objects, dist, eps, before, after, seedList'[m]);
      }
    }
  }

  lemma JustifiedStep<T>(objects: seq<T>, dist: (T, T) -> real, eps: real, minPts: nat, cur: nat,
                         start: seq<nat>, before: seq<nat>, after: seq<nat>,
                         seeds: seq<nat>, seedList: seq<nat>, seedList': seq<nat>, k: nat)
    requires Justified(objects, dist, eps, minPts, start, before, seeds, seedList, k)
    requires k < |seedList| && seedList[k] < |objects| && IsCore(objects, dist, eps, minPts, seedList[k])
    requires Claimed(Neighbours(objects, dist, eps, seedList[k]), cur, before, after)
    requires |seedList| <= |seedList'| && seedList'[..|seedList|] == seedList
    requires forall m :: |seedList| <= m < |seedList'| ==> seedList'[m] in Neighbours(objects, dist, eps, seedList[k])
    ensures Justified(objects, dist, eps, minPts, start, after, seeds, seedList', k + 1)
  {
    var w := seedList[k];
    NeighboursSpec(objects, dist, eps, w);
    assert seedList'[k] == w;
    forall j | 0 <= j < |objects| && after[j] != start[j]
      ensures ClaimedBy(objects, dist, eps, minPts, seedList', k + 1, j)
    {
      if before[j] != start[j] {
        ClaimedByGrow(objects, dist, eps, minPts, seedList, seedList', k, k + 1, j);
      } else {
        assert ClaimsAt(objects, dist, eps, minPts, seedList', k, j);
      }
    }
    forall m | |seeds| <= m < |seedList'|
      ensures ClaimedBy(objects, dist, eps, minPts, seedList', m, seedList'[m])
    {
      if m < |seedList| {
        assert seedList'[m] == seedList[m];
        ClaimedByGrow(objects, dist, eps, minPts, seedList, seedList', m, m, seedList[m]);
      } else {
        assert ClaimsAt(objects, dist, eps, minPts, seedList', k, seedList'[m]);
      }
    }
  }

  /** Processing a core worklist member, whose neighbourhood was just claimed, keeps `Expanding`. */
  lemma ExpandStep<T>(objects: seq<T>, dist: (T, T) -> real, eps: real, minPts: nat, cur: nat,
                      start: seq<nat>, before: seq<nat>, after: seq<nat>,
                      seeds: seq<nat>, seedList: seq<nat>, seedList': seq<nat>, k: nat, budget: nat)
    requires Expanding(objects, dist, eps, minPts, cur, start, before, seeds, seedList, k, budget)
    requires k < |seedList| && cur >= FIRST_CLUSTER
    requires seedList[k] < |objects| && IsCore(objects, dist, eps, minPts, seedList[k])
    requires Claimed(Neighbours(objects, dist, eps, seedList[k]), cur, before, after)
    requires |seedList| <= |seedList'| && seedList'[..|seedList|] == seedList
    requires NoDuplicates(seedList')
    requires forall m :: |seedList| <= m < |seedList'| ==>
      seedList'[m] in Neighbours(objects, dist, eps, seedList[k]) && seedList'[m] < |objects| && before[seedList'[m]] == UNCLASSIFIED
    requires forall x :: 0 <= x < |objects| && x in Neighbours(objects, dist, eps, seedList[k]) && before[x] == UNCLASSIFIED ==> x in seedList'
    requires |seedList'| - |seedList| + CountUnclassified(after) == CountUnclassified(before)
    ensures Expanding(objects, dist, eps, minPts, cur, start, after, seeds, seedList', k + 1, budget)
  {
    var neighbours := Neighbours(objects, dist, eps, seedList[k]);
    WorklistShapeStep(|objects|, cur, start, before, after, neighbours, seeds, seedList, seedList', budget);
    OnlyClaimsStep(cur, start, before, after, neighbours);
    assert forall m :: 0 <= m < |seedList'| ==> seedList'[m] < |objects|;
    ProcessedClaimedStep(objects, dist, eps, minPts, cur, before, after, seedList, seedList', k);
    JustifiedStep(objects, dist, eps, minPts, cur, start, before, after, seeds, seedList, seedList', k);
  }

  /** Processing a worklist member that is not core changes nothing and keeps `Expanding`. */
  lemma ExpandSkip<T>(objects: seq<T>, dist: (T, T) -> real, eps: real, minPts: nat, cur: nat,
                      start: seq<nat>, ids: seq<nat>, seeds: seq<nat>, seedList: seq<nat>, k: nat, budget: nat)
    requires Expanding(objects, dist, eps, minPts, cur, start, ids, seeds, seedList, k, budget)
    requires k < |seedList| && seedList[k] < |objects| && !IsCore(objects, dist, eps, minPts, seedList[k])
    ensures Expanding(objects, dist, eps, minPts, cur, start, ids, seeds, seedList, k + 1, budget)
  {
    forall j | 0 <= j < |objects| && ids[j] != start[j]
      ensures ClaimedBy(objects, dist, eps, minPts, seedList, k + 1, j)
    {
      ClaimedByGrow(objects, dist, eps, minPts, seedList, seedList, k, k + 1, j);
    }
  }

  /**
   * A successful flood fill from `seed` took the labels from `before` to `after` and
   * left `worklist` behind. The worklist holds no index twice, fewer indices than
   * there are objects, and only indices now labelled `cur`. A label becomes `cur`
   * exactly when it is in the seed's neighbourhood, or is UNCLASSIFIED or NOISE and
   * in the neighbourhood of a core worklist member; every other label is kept. An
   * index is on the worklist exactly when it is a neighbour of the seed other than
   * the seed, or was UNCLASSIFIED and is in the neighbourhood of a core worklist
   * member, and each member is a neighbour of the seed or of a core member before
   * it. It follows that every core member's neighbours carry real ids and that
   * every changed label is in a core object's neighbourhood.
   */
  ghost predicate Expanded<T>(objects: seq<T>, dist: (T, T) -> real, eps: real, minPts: nat, cur: nat,
                              seed: nat, before: seq<nat>, after: seq<nat>, worklist: seq<nat>)
  {
    && seed < |objects| == |before| == |after|
    && NoDuplicates(worklist) && |worklist| < |objects|
    && (forall m :: 0 <= m < |worklist| ==> worklist[m] < |objects| && after[worklist[m]] == cur)
    && (forall j :: 0 <= j < |objects| ==>
          after[j] == if Near(objects, dist, eps, seed, j) ||
                         (before[j] <= NOISE && ClaimedBy(objects, dist, eps, minPts, worklist, |worklist|, j))
                      then cur else before[j])
    && (forall j :: 0 <= j < |objects| ==>
          (j in worklist <==>
             (j != seed && (Near(objects, dist, eps, seed, j) ||
                            (before[j] == UNCLASSIFIED && ClaimedBy(objects, dist, eps, minPts, worklist, |worklist|, j))))))
    && (forall m :: 0 <= m < |worklist| ==>
          Near(objects, dist, eps, seed, worklist[m]) || ClaimedBy(objects, dist, eps, minPts, worklist, m, worklist[m]))
    && (forall m :: 0 <= m < |worklist| && IsCore(objects, dist, eps, minPts, worklist[m]) ==>
          NeighboursClaimed(objects, dist, eps, after, worklist[m]))
    && (forall j :: 0 <= j < |objects| && after[j] != before[j] ==> ReachedByCore(objects, dist, eps, minPts, j))
  }

  /**
   * The flood fill's two phases as `ExpandCluster` runs them: `labelled` is `before`
   * with the seed's neighbourhood set to `cur`, `rest` is that neighbourhood without
   * the seed, and the worklist phase from `rest` ran to its end.
   */
  ghost predicate FloodFilled<T>(objects: seq<T>, dist: (T, T) -> real, eps: real, minPts: nat, cur: nat, seed: nat,
                                 before: seq<nat>, labelled: seq<nat>, after: seq<nat>, rest: seq<nat>, worklist: seq<nat>, budget: nat)
  {
    && seed < |objects| == |before| == |labelled| && cur >= FIRST_CLUSTER
    && (forall x :: 0 <= x < |objects| ==> labelled[x] == if Near(objects, dist, eps, seed, x) then cur else before[x])
    && (forall x :: x in rest <==> 0 <= x < |objects| && x != seed && Near(objects, dist, eps, seed, x))
    && Expanding(objects, dist, eps, minPts, cur, labelled, after, rest, worklist, |worklist|, budget)
  }

  /** After both phases, each label is `cur` exactly where the seed or a core worklist member claimed it. */
  lemma FloodLabels<T>(objects: seq<T>, dist: (T, T) -> real, eps: real, minPts: nat, cur: nat, seed: nat,
                       before: seq<nat>, labelled: seq<nat>, after: seq<nat>, rest: seq<nat>, worklist: seq<nat>, budget: nat)
    requires FloodFilled(objects, dist, eps, minPts, cur, seed, before, labelled, after, rest, worklist, budget)
    ensures forall j :: 0 <= j < |objects| ==>
      after[j] == if Near(objects, dist, eps, seed, j) ||
                     (before[j] <= NOISE && ClaimedBy(objects, dist, eps, minPts, worklist, |worklist|, j))
                  then cur else before[j]
  {
    forall j | 0 <= j < |objects|
      ensures after[j] == if Near(objects, dist, eps, seed, j) ||
                             (before[j] <= NOISE && ClaimedBy(objects, dist, eps, minPts, worklist, |worklist|, j))
                          then cur else before[j]
    {
      if !Near(objects, dist, eps, seed, j) && before[j] <= NOISE && ClaimedBy(objects, dist, eps, minPts, worklist, |worklist|, j) {
        var p :| 0 <= p < |worklist| && ClaimsAt(objects, dist, eps, minPts, worklist, p, j);
        assert NeighboursClaimed(objects, dist, eps, after, worklist[p]);
      }
    }
  }

  /** After both phases, each worklist member is not the seed, and is a neighbour of the seed or an UNCLASSIFIED index claimed by a core member before it. */
  lemma FloodOrder<T>(objects: seq<T>, dist: (T, T) -> real, eps: real, minPts: nat, cur: nat, seed: nat,
                      before: seq<nat>, labelled: seq<nat>, after: seq<nat>, rest: seq<nat>, worklist: seq<nat>, budget: nat)
    requires FloodFilled(objects, dist, eps, minPts, cur, seed, before, labelled, after, rest, worklist, budget)
    ensures forall m :: 0 <= m < |worklist| ==>
      && worklist[m] != seed
      && (Near(objects, dist, eps, seed, worklist[m]) ||
          (before[worklist[m]] == UNCLASSIFIED && ClaimedBy(objects, dist, eps, minPts, worklist, |worklist|, worklist[m])))
    ensures forall m :: 0 <= m < |worklist| ==>
      Near(objects, dist, eps, seed, worklist[m]) || ClaimedBy(objects, dist, eps, minPts, worklist, m, worklist[m])
  {
    forall m | 0 <= m < |worklist|
      ensures worklist[m] != seed
      ensures Near(objects, dist, eps, seed, worklist[m]) ||
        (before[worklist[m]] == UNCLASSIFIED && ClaimedBy(objects, dist, eps, minPts, worklist, |worklist|, worklist[m]))
      ensures Near(objects, dist, eps, seed, worklist[m]) || ClaimedBy(objects, dist, eps, minPts, worklist, m, worklist[m])
    {
      if m < |rest| {
        assert worklist[m] == rest[m];
        assert rest[m] in rest;
      } else {
        assert labelled[worklist[m]] == UNCLASSIFIED;
        ClaimedByGrow(objects, dist, eps, minPts, worklist, worklist, m, |worklist|, worklist[m]);
      }
    }
  }

  /** After both phases, the worklist holds exactly the seed's other neighbours and the UNCLASSIFIED indices a core member claimed. */
  lemma FloodMembers<T>(objects: seq<T>, dist: (T, T) -> real, eps: real, minPts: nat, cur: nat, seed: nat,
                        before: seq<nat>, labelled: seq<nat>, after: seq<nat>, rest: seq<nat>, worklist: seq<nat>, budget: nat)
    requires FloodFilled(objects, dist, eps, minPts, cur, seed, before, labelled, after, rest, worklist, budget)
    requires forall j :: 0 <= j < |objects| ==>
      after[j] == if Near(objects, dist, eps, seed, j) ||
                     (before[j] <= NOISE && ClaimedBy(objects, dist, eps, minPts, worklist, |worklist|, j))
                  then cur else before[j]
    ensures forall j :: 0 <= j < |objects| ==>
      (j in worklist <==>
         (j != seed && (Near(objects, dist, eps, seed, j) ||
                        (before[j] == UNCLASSIFIED && ClaimedBy(objects, dist, eps, minPts, worklist, |worklist|, j)))))
  {
    FloodOrder(objects, dist, eps, minPts, cur, seed, before, labelled, after, rest, worklist, budget);
    forall j | 0 <= j < |objects| && j != seed && (Near(objects, dist, eps, seed, j) ||
        (before[j] == UNCLASSIFIED && ClaimedBy(objects, dist, eps, minPts, worklist, |worklist|, j)))
      ensures j in worklist
    {
      if Near(objects, dist, eps, seed, j) {
        assert j in rest;
        var m :| 0 <= m < |rest| && rest[m] == j;
        assert worklist[m] == j;
      } else {
        assert labelled[j] == UNCLASSIFIED && after[j] != UNCLASSIFIED;
      }
    }
  }

  /** The two phases of the flood fill together establish `Expanded`. */
  lemma FloodExpanded<T>(objects: seq<T>, dist: (T, T) -> real, eps: real, minPts: nat, cur: nat, seed: nat,
                         before: seq<nat>, labelled: seq<nat>, after: seq<nat>, rest: seq<nat>, worklist: seq<nat>, budget: nat)
    requires FloodFilled(objects, dist, eps, minPts, cur, seed, before, labelled, after, rest, worklist, budget)
    requires IsCore(objects, dist, eps, minPts, seed)
    ensures Expanded(objects, dist, eps, minPts, cur, seed, before, after, worklist)
  {
    FloodLabels(objects, dist, eps, minPts, cur, seed, before, labelled, after, rest, worklist, budget);
    FloodMembers(objects, dist, eps, minPts, cur, seed, before, labelled, after, rest, worklist, budget);
    FloodOrder(objects, dist, eps, minPts, cur, seed, before, labelled, after, rest, worklist, budget);
    forall j | 0 <= j < |objects| && after[j] != before[j]
      ensures ReachedByCore(objects, dist, eps, minPts, j)
    {
      if Near(objects, dist, eps, seed, j) {
        ReachedByCoreIntro(objects, dist, eps, minPts, seed, j);
      } else {
        var p :| 0 <= p < |worklist| && ClaimsAt(objects, dist, eps, minPts, worklist, p, j);
        ReachedByCoreIntro(objects, dist, eps, minPts, worklist[p], j);
      }
    }
  }

  /** Every object labelled `clusterId` lies in each set closed under core neighbourhoods that contains `medoid`. */
  ghost predicate ClusterWithin<T>(objects: seq<T>, dist: (T, T) -> real, eps: real, minPts: nat,
                                   ids: seq<nat>, medoid: nat, clusterId: nat)
  {
    forall S :: ClosedUnderCores(objects, dist, eps, minPts, S) && medoid in S ==>
      forall j :: 0 <= j < |ids| && ids[j] == clusterId ==> j in S
  }

  /**
   * When each worklist member is a neighbour of the seed or of a core member before
   * it, each of the first `n` members lies in any set closed under core
   * neighbourhoods that holds the core seed.
   */
  lemma {:induction false} WorklistWithin<T>(objects: seq<T>, dist: (T, T) -> real, eps: real, minPts: nat,
                                            seed: nat, worklist: seq<nat>, S: set<nat>, n: nat)
    requires seed < |objects| && forall m :: 0 <= m < |worklist| ==> worklist[m] < |objects|
    requires forall m :: 0 <= m < |worklist| ==>
      Near(objects, dist, eps, seed, worklist[m]) || ClaimedBy(objects, dist, eps, minPts, worklist, m, worklist[m])
    requires IsCore(objects, dist, eps, minPts, seed) && seed in S && ClosedUnderCores(objects, dist, eps, minPts, S)
    requires n <= |worklist|
    ensures forall m :: 0 <= m < n ==> worklist[m] in S
  {
    if n > 0 {
      WorklistWithin(objects, dist, eps, minPts, seed, worklist, S, n - 1);
      if !Near(objects, dist, eps, seed, worklist[n - 1]) {
        var p :| 0 <= p < n - 1 && ClaimsAt(objects, dist, eps, minPts, worklist, p, worklist[n - 1]);
        assert worklist[p] in S;
      }
    }
  }

  /**
   * A flood fill stays inside any set closed under core neighbourhoods that holds
   * its seed: every worklist member is in it, and no label outside it changes.
   */
  lemma ExpandedWithin<T>(objects: seq<T>, dist: (T, T) -> real, eps: real, minPts: nat, cur: nat,
                          seed: nat, before: seq<nat>, after: seq<nat>, worklist: seq<nat>, S: set<nat>)
    requires Expanded(objects, dist, eps, minPts, cur, seed, before, after, worklist)
    requires IsCore(objects, dist, eps, minPts, seed) && seed in S && ClosedUnderCores(objects, dist, eps, minPts, S)
    ensures forall m :: 0 <= m < |worklist| ==> worklist[m] in S
    ensures forall j :: 0 <= j < |objects| && j !in S ==> after[j] == before[j]
  {
    WorklistWithin(objects, dist, eps, minPts, seed, worklist, S, |worklist|);
    forall j | 0 <= j < |objects| && j !in S
      ensures after[j] == before[j]
    {
    }
  }

  /**
   * The driver's state after it has scanned indices `0..i-1`: every scanned index is
   * classified; every label is UNCLASSIFIED, NOISE or a real id below `cur`; the
   * counters agree with the medoid list; medoids are ascending, scanned and core;
   * every classified core object has all its neighbours in real clusters; every real
   * label is in a core neighbourhood; each cluster so far stays inside every set that
   * holds its medoid and is closed under core neighbourhoods; and, when neighbours are
   * symmetric, each medoid still carries the id of the cluster it seeded.
   */
  ghost predicate Scanned<T>(objects: seq<T>, dist: (T, T) -> real, eps: real, minPts: nat,
                             ids: seq<nat>, medoids: seq<nat>, cur: nat, total: nat, i: nat)
  {
    && i <= |objects| == |ids|
    && (forall j :: 0 <= j < i ==> ids[j] != UNCLASSIFIED)
    && (forall j :: 0 <= j < |objects| ==> ids[j] <= NOISE || ids[j] < cur)
    && cur == FIRST_CLUSTER + total && |medoids| == total
    && StrictlyAscending(medoids)
    && (forall c :: 0 <= c < |medoids| ==> medoids[c] < i && IsCore(objects, dist, eps, minPts, medoids[c]))
    && (forall j :: 0 <= j < |objects| && ids[j] != UNCLASSIFIED && IsCore(objects, dist, eps, minPts, j) ==>
          NeighboursClaimed(objects, dist, eps, ids, j))
    && (forall j :: 0 <= j < |objects| && ids[j] >= FIRST_CLUSTER ==> ReachedByCore(objects, dist, eps, minPts, j))
    && (forall j :: 0 <= j < |objects| && ids[j] == NOISE ==> !IsCore(objects, dist, eps, minPts, j))
    && (forall c :: 0 <= c < |medoids| ==> ClusterWithin(objects, dist, eps, minPts, ids, medoids[c], FIRST_CLUSTER + c))
    && (NearSymmetricOn(objects, dist, eps) ==> SymmetricFacts(objects, dist, eps, minPts, ids, medoids))
  }

  /**
   * What symmetric neighbours add: each medoid still carries the id of the cluster it
   * seeded, and two neighbouring core objects, once classified, share their id.
   */
  ghost predicate SymmetricFacts<T>(objects: seq<T>, dist: (T, T) -> real, eps: real, minPts: nat,
                                    ids: seq<nat>, medoids: seq<nat>)
    requires |ids| == |objects|
    requires forall c :: 0 <= c < |medoids| ==> medoids[c] < |objects|
  {
    && (forall c :: 0 <= c < |medoids| ==> ids[medoids[c]] == FIRST_CLUSTER + c)
    && CoresConnected(objects, dist, eps, minPts, ids)
  }

  /** Any classified core object and any core object in its neighbourhood carry the same id. */
  ghost predicate CoresConnected<T>(objects: seq<T>, dist: (T, T) -> real, eps: real, minPts: nat, ids: seq<nat>)
    requires |ids| == |objects|
  {
    forall w, j ::
      (0 <= w < |objects| && 0 <= j < |objects| && ids[w] != UNCLASSIFIED &&
       IsCore(objects, dist, eps, minPts, w) && IsCore(objects, dist, eps, minPts, j) &&
       Near(objects, dist, eps, w, j)) ==> ids[j] == ids[w]
  }

  /** Under `CoresConnected`, a classified core object passes its id to every core object in its neighbourhood. */
  lemma CoresConnectedPair<T>(objects: seq<T>, dist: (T, T) -> real, eps: real, minPts: nat, ids: seq<nat>, w: nat, j: nat)
    requires |ids| == |objects| && w < |objects| && j < |objects|
    requires CoresConnected(objects, dist, eps, minPts, ids)
    requires ids[w] != UNCLASSIFIED && IsCore(objects, dist, eps, minPts, w) && IsCore(objects, dist, eps, minPts, j)
    requires Near(objects, dist, eps, w, j)
    ensures ids[j] == ids[w]
  {
  }

  /** Before the scan: every label UNCLASSIFIED, no clusters yet. */
  lemma ScanStart<T>(objects: seq<T>, dist: (T, T) -> real, eps: real, minPts: nat, ids: seq<nat>)
    requires |ids| == |objects|
    requires forall j :: 0 <= j < |ids| ==> ids[j] == UNCLASSIFIED
    ensures Scanned(objects, dist, eps, minPts, ids, [], FIRST_CLUSTER, 0, 0)
  {
  }

  /** An index the scan finds already classified is passed over. */
  lemma ScanClassified<T>(objects: seq<T>, dist: (T, T) -> real, eps: real, minPts: nat,
                          ids: seq<nat>, medoids: seq<nat>, cur: nat, total: nat, i: nat)
    requires Scanned(objects, dist, eps, minPts, ids, medoids, cur, total, i) && i < |objects|
    requires ids[i] != UNCLASSIFIED
    ensures Scanned(objects, dist, eps, minPts, ids, medoids, cur, total, i + 1)
  {
  }

  /** A failed expansion: the seed is not core, becomes NOISE, and the invariant survives. */
  lemma ScanNoise<T>(objects: seq<T>, dist: (T, T) -> real, eps: real, minPts: nat,
                     ids: seq<nat>, medoids: seq<nat>, cur: nat, total: nat, i: nat)
    requires Scanned(objects, dist, eps, minPts, ids, medoids, cur, total, i) && i < |objects|
    requires ids[i] == UNCLASSIFIED && !IsCore(objects, dist, eps, minPts, i)
    ensures Scanned(objects, dist, eps, minPts, ids[i := NOISE], medoids, cur, total, i + 1)
  {
    NoiseKeepsClaimed(objects, dist, eps, minPts, ids, i);
    NoiseKeepsWithin(objects, dist, eps, minPts, ids, medoids, i);
    NoiseKeepsSymmetric(objects, dist, eps, minPts, ids, medoids, i);
  }

  /** Relabelling an UNCLASSIFIED object NOISE keeps every classified core object's neighbourhood claimed. */
  lemma NoiseKeepsClaimed<T>(objects: seq<T>, dist: (T, T) -> real, eps: real, minPts: nat, ids: seq<nat>, i: nat)
    requires |ids| == |objects| && i < |objects| && ids[i] == UNCLASSIFIED && !IsCore(objects, dist, eps, minPts, i)
    requires forall j :: 0 <= j < |objects| && ids[j] != UNCLASSIFIED && IsCore(objects, dist, eps, minPts, j) ==>
      NeighboursClaimed(objects, dist, eps, ids, j)
    ensures forall j :: 0 <= j < |objects| && ids[i := NOISE][j] != UNCLASSIFIED && IsCore(objects, dist, eps, minPts, j) ==>
      NeighboursClaimed(objects, dist, eps, ids[i := NOISE], j)
  {
    var ids' := ids[i := NOISE];
    forall j | 0 <= j < |objects| && ids'[j] != UNCLASSIFIED && IsCore(objects, dist, eps, minPts, j)
      ensures NeighboursClaimed(objects, dist, eps, ids', j)
    {
      NeighboursClaimedKept(objects, dist, eps, ids, ids', j);
    }
  }

  /** Relabelling an object NOISE keeps every cluster inside the closed sets that hold its medoid. */
  lemma NoiseKeepsWithin<T>(objects: seq<T>, dist: (T, T) -> real, eps: real, minPts: nat, ids: seq<nat>, medoids: seq<nat>, i: nat)
    requires i < |ids|
    requires forall c :: 0 <= c < |medoids| ==> ClusterWithin(objects, dist, eps, minPts, ids, medoids[c], FIRST_CLUSTER + c)
    ensures forall c :: 0 <= c < |medoids| ==> ClusterWithin(objects, dist, eps, minPts, ids[i := NOISE], medoids[c], FIRST_CLUSTER + c)
  {
    forall c | 0 <= c < |medoids|
      ensures ClusterWithin(objects, dist, eps, minPts, ids[i := NOISE], medoids[c], FIRST_CLUSTER + c)
    {
      assert ClusterWithin(objects, dist, eps, minPts, ids, medoids[c], FIRST_CLUSTER + c);
    }
  }

  /** Relabelling an object that is neither core nor a medoid NOISE keeps the facts a symmetric neighbour relation adds. */
  lemma NoiseKeepsSymmetric<T>(objects: seq<T>, dist: (T, T) -> real, eps: real, minPts: nat, ids: seq<nat>, medoids: seq<nat>, i: nat)
    requires |ids| == |objects| && i < |objects| && !IsCore(objects, dist, eps, minPts, i)
    requires forall c :: 0 <= c < |medoids| ==> medoids[c] < i
    requires NearSymmetricOn(objects, dist, eps) ==> SymmetricFacts(objects, dist, eps, minPts, ids, medoids)
    ensures NearSymmetricOn(objects, dist, eps) ==> SymmetricFacts(objects, dist, eps, minPts, ids[i := NOISE], medoids)
  {
    if NearSymmetricOn(objects, dist, eps) {
      var ids' := ids[i := NOISE];
      forall w, j | 0 <= w < |objects| && 0 <= j < |objects| && ids'[w] != UNCLASSIFIED &&
        IsCore(objects, dist, eps, minPts, w) && IsCore(objects, dist, eps, minPts, j) && Near(objects, dist, eps, w, j)
        ensures ids'[j] == ids'[w]
      {
        CoresConnectedPair(objects, dist, eps, minPts, ids, w, j);
      }
    }
  }

  /** A successful expansion from `i` with id `cur`: record the medoid, count the cluster, and the invariant survives. */
  lemma ScanCluster<T>(objects: seq<T>, dist: (T, T) -> real, eps: real, minPts: nat,
                       ids: seq<nat>, ids': seq<nat>, worklist: seq<nat>, medoids: seq<nat>, cur: nat, total: nat, i: nat)
    requires Scanned(objects, dist, eps, minPts, ids, medoids, cur, total, i) && i < |objects|
    requires ids[i] == UNCLASSIFIED && IsCore(objects, dist, eps, minPts, i)
    requires Expanded(objects, dist, eps, minPts, cur, i, ids, ids', worklist)
    ensures Scanned(objects, dist, eps, minPts, ids', medoids + [i], cur + 1, total + 1, i + 1)
  {
    assert KeepsReal(ids, ids');
    forall j | 0 <= j < |objects| && ids'[j] != UNCLASSIFIED && IsCore(objects, dist, eps, minPts, j)
      ensures NeighboursClaimed(objects, dist, eps, ids', j)
    {
      if ids[j] != UNCLASSIFIED {
        NeighboursClaimedKept(objects, dist, eps, ids, ids', j);
      } else if j != i {
        var m :| 0 <= m < |worklist| && worklist[m] == j;
      }
    }
    forall j | 0 <= j < |objects| && ids'[j] >= FIRST_CLUSTER
      ensures ReachedByCore(objects, dist, eps, minPts, j)
    {
    }
    ScanClusterWithin(objects, dist, eps, minPts, ids, ids', worklist, medoids, cur, total, i);
    if NearSymmetricOn(objects, dist, eps) {
      ScanClusterSymmetric(objects, dist, eps, minPts, ids, ids', worklist, medoids, cur, total, i);
    }
  }

  /** After an expansion from `i`, each cluster, the new one included, stays inside every closed set that holds its medoid. */
  lemma ScanClusterWithin<T>(objects: seq<T>, dist: (T, T) -> real, eps: real, minPts: nat,
                             ids: seq<nat>, ids': seq<nat>, worklist: seq<nat>, medoids: seq<nat>, cur: nat, total: nat, i: nat)
    requires Scanned(objects, dist, eps, minPts, ids, medoids, cur, total, i) && i < |objects|
    requires ids[i] == UNCLASSIFIED && IsCore(objects, dist, eps, minPts, i)
    requires Expanded(objects, dist, eps, minPts, cur, i, ids, ids', worklist)
    ensures forall c :: 0 <= c < |medoids + [i]| ==>
      ClusterWithin(objects, dist, eps, minPts, ids', (medoids + [i])[c], FIRST_CLUSTER + c)
  {
    var medoids' := medoids + [i];
    forall c | 0 <= c < |medoids'|
      ensures ClusterWithin(objects, dist, eps, minPts, ids', medoids'[c], FIRST_CLUSTER + c)
    {
      if c < |medoids| {
        assert medoids'[c] == medoids[c];
        assert ClusterWithin(objects, dist, eps, minPts, ids, medoids[c], FIRST_CLUSTER + c);
        forall S, j | ClosedUnderCores(objects, dist, eps, minPts, S) && medoids[c] in S &&
            0 <= j < |ids'| && ids'[j] == FIRST_CLUSTER + c
          ensures j in S
        {
          assert ids[j] == FIRST_CLUSTER + c;
        }
      } else {
        forall S, j | ClosedUnderCores(objects, dist, eps, minPts, S) && i in S &&
            0 <= j < |ids'| && ids'[j] == cur
          ensures j in S
        {
          ExpandedWithin(objects, dist, eps, minPts, cur, i, ids, ids', worklist, S);
        }
      }
    }
  }

  /**
   * When neighbours are symmetric, a later seed lies in no classified core object's
   * neighbourhood, so its expansion leaves every classified core object's id alone.
   */
  lemma ClassifiedCoresKept<T>(objects: seq<T>, dist: (T, T) -> real, eps: real, minPts: nat,
                               ids: seq<nat>, ids': seq<nat>, worklist: seq<nat>, medoids: seq<nat>, cur: nat, total: nat, i: nat)
    requires NearSymmetricOn(objects, dist, eps)
    requires Scanned(objects, dist, eps, minPts, ids, medoids, cur, total, i) && i < |objects|
    requires ids[i] == UNCLASSIFIED
    requires Expanded(objects, dist, eps, minPts, cur, i, ids, ids', worklist)
    ensures forall p :: 0 <= p < |objects| && ids[p] != UNCLASSIFIED && IsCore(objects, dist, eps, minPts, p) ==> ids'[p] == ids[p]
  {
    forall p | 0 <= p < |objects| && ids[p] != UNCLASSIFIED && IsCore(objects, dist, eps, minPts, p)
      ensures ids'[p] == ids[p]
    {
      assert NeighboursClaimed(objects, dist, eps, ids, p);
      assert !Near(objects, dist, eps, p, i);
      assert Near(objects, dist, eps, i, p) <==> Near(objects, dist, eps, p, i);
    }
  }

  /** Under symmetric neighbours, after an expansion from `i` every classified core object shares its id with its core neighbours. */
  lemma ScanCoresConnected<T>(objects: seq<T>, dist: (T, T) -> real, eps: real, minPts: nat,
                              ids: seq<nat>, ids': seq<nat>, worklist: seq<nat>, medoids: seq<nat>, cur: nat, total: nat, i: nat)
    requires NearSymmetricOn(objects, dist, eps)
    requires Scanned(objects, dist, eps, minPts, ids, medoids, cur, total, i) && i < |objects|
    requires ids[i] == UNCLASSIFIED && IsCore(objects, dist, eps, minPts, i)
    requires Expanded(objects, dist, eps, minPts, cur, i, ids, ids', worklist)
    requires forall p :: 0 <= p < |objects| && ids[p] != UNCLASSIFIED && IsCore(objects, dist, eps, minPts, p) ==> ids'[p] == ids[p]
    ensures CoresConnected(objects, dist, eps, minPts, ids')
  {
    forall w, j | 0 <= w < |objects| && 0 <= j < |objects| && ids'[w] != UNCLASSIFIED &&
      IsCore(objects, dist, eps, minPts, w) && IsCore(objects, dist, eps, minPts, j) && Near(objects, dist, eps, w, j)
      ensures ids'[j] == ids'[w]
    {
      if ids[w] != UNCLASSIFIED {
        assert NeighboursClaimed(objects, dist, eps, ids, w);
      } else {
        assert Near(objects, dist, eps, j, w) <==> Near(objects, dist, eps, w, j);
        if w == i {
          assert ids'[j] == cur;
        } else {
          var m :| 0 <= m < |worklist| && worklist[m] == w;
          assert NeighboursClaimed(objects, dist, eps, ids', w);
          assert ids'[j] != UNCLASSIFIED;
          if j != i {
            var n :| 0 <= n < |worklist| && worklist[n] == j;
          }
        }
      }
    }
  }

  lemma ScanClusterSymmetric<T>(objects: seq<T>, dist: (T, T) -> real, eps: real, minPts: nat,
                                ids: seq<nat>, ids': seq<nat>, worklist: seq<nat>, medoids: seq<nat>, cur: nat, total: nat, i: nat)
    requires NearSymmetricOn(objects, dist, eps)
    requires Scanned(objects, dist, eps, minPts, ids, medoids, cur, total, i) && i < |objects|
    requires ids[i] == UNCLASSIFIED && IsCore(objects, dist, eps, minPts, i)
    requires Expanded(objects, dist, eps, minPts, cur, i, ids, ids', worklist)
    ensures SymmetricFacts(objects, dist, eps, minPts, ids', medoids + [i])
  {
    ClassifiedCoresKept(objects, dist, eps, minPts, ids, ids', worklist, medoids, cur, total, i);
    ScanCoresConnected(objects, dist, eps, minPts, ids, ids', worklist, medoids, cur, total, i);
    forall c | 0 <= c < |medoids + [i]|
      ensures ids'[(medoids + [i])[c]] == FIRST_CLUSTER + c
    {
      if c < |medoids| {
        assert (medoids + [i])[c] == medoids[c];
      }
    }
  }

  /**
   * What the driver leaves behind once every object is scanned. Every object is
   * NOISE or carries a real id below `cur`. There are `total` clusters, each with
   * its core seed recorded in ascending order as a medoid. An object is NOISE
   * exactly when no core object has it in its neighbourhood. No cluster forms
   * exactly when no object is core. Each cluster stays inside every set that holds
   * its medoid and is closed under core neighbourhoods. When neighbours are
   * symmetric, each medoid keeps the id of the cluster it seeded, and neighbouring
   * core objects share an id.
   */
  ghost predicate Clustered<T>(objects: seq<T>, dist: (T, T) -> real, eps: real, minPts: nat,
                               ids: seq<nat>, medoids: seq<nat>, cur: nat, total: nat)
  {
    && |ids| == |objects|
    && (forall j :: 0 <= j < |objects| ==> ids[j] == NOISE || FIRST_CLUSTER <= ids[j] < cur)
    && total == |medoids| == cur - FIRST_CLUSTER
    && StrictlyAscending(medoids)
    && (forall c :: 0 <= c < |medoids| ==> medoids[c] < |objects| && IsCore(objects, dist, eps, minPts, medoids[c]))
    && (forall j :: 0 <= j < |objects| ==> (ids[j] == NOISE <==> !ReachedByCore(objects, dist, eps, minPts, j)))
    && (total == 0 <==> forall j :: 0 <= j < |objects| ==> !IsCore(objects, dist, eps, minPts, j))
    && (forall c :: 0 <= c < |medoids| ==> ClusterWithin(objects, dist, eps, minPts, ids, medoids[c], FIRST_CLUSTER + c))
    && (NearSymmetricOn(objects, dist, eps) ==> SymmetricFacts(objects, dist, eps, minPts, ids, medoids))
  }

  /** At the end of the scan, NOISE marks exactly the objects no core object reaches. */
  lemma ScanNoiseExact<T>(objects: seq<T>, dist: (T, T) -> real, eps: real, minPts: nat,
                          ids: seq<nat>, medoids: seq<nat>, cur: nat, total: nat)
    requires Scanned(objects, dist, eps, minPts, ids, medoids, cur, total, |objects|)
    ensures forall j :: 0 <= j < |objects| ==> ids[j] == NOISE || FIRST_CLUSTER <= ids[j] < cur
    ensures forall j :: 0 <= j < |objects| ==> (ids[j] == NOISE <==> !ReachedByCore(objects, dist, eps, minPts, j))
  {
    forall j | 0 <= j < |objects| && ReachedByCore(objects, dist, eps, minPts, j)
      ensures ids[j] >= FIRST_CLUSTER
    {
      var w :| 0 <= w < |objects| && IsCore(objects, dist, eps, minPts, w) && Near(objects, dist, eps, w, j);
      assert ids[w] != UNCLASSIFIED;
      assert NeighboursClaimed(objects, dist, eps, ids, w);
    }
  }

  /** At the end of the scan, no cluster has formed exactly when no object is core. */
  lemma ScanNoCore<T>(objects: seq<T>, dist: (T, T) -> real, eps: real, minPts: nat,
                      ids: seq<nat>, medoids: seq<nat>, cur: nat, total: nat)
    requires Scanned(objects, dist, eps, minPts, ids, medoids, cur, total, |objects|)
    ensures total == 0 <==> forall j :: 0 <= j < |objects| ==> !IsCore(objects, dist, eps, minPts, j)
  {
    if total > 0 {
      assert IsCore(objects, dist, eps, minPts, medoids[0]);
    }
  }

  /** A finished scan leaves the clustering `Clustered` describes. */
  lemma ScanComplete<T>(objects: seq<T>, dist: (T, T) -> real, eps: real, minPts: nat,
                        ids: seq<nat>, medoids: seq<nat>, cur: nat, total: nat)
    requires Scanned(objects, dist, eps, minPts, ids, medoids, cur, total, |objects|)
    ensures Clustered(objects, dist, eps, minPts, ids, medoids, cur, total)
  {
    ScanNoiseExact(objects, dist, eps, minPts, ids, medoids, cur, total);
    ScanNoCore(objects, dist, eps, minPts, ids, medoids, cur, total);
  }

  /**
   * Split the indices into two sets, each closed under core neighbourhoods: when
   * every cluster stays inside the closed sets that hold its medoid, an object on
   * one side and an object on the other never share a real cluster id.
   */
  lemma ClusteredSeparates<T>(objects: seq<T>, dist: (T, T) -> real, eps: real, minPts: nat,
                              ids: seq<nat>, medoids: seq<nat>, S: set<nat>, S': set<nat>, j: nat, k: nat)
    requires |ids| == |objects|
    requires forall c :: 0 <= c < |medoids| ==>
      medoids[c] < |objects| && ClusterWithin(objects, dist, eps, minPts, ids, medoids[c], FIRST_CLUSTER + c)
    requires ClosedUnderCores(objects, dist, eps, minPts, S) && ClosedUnderCores(objects, dist, eps, minPts, S')
    requires forall x :: 0 <= x < |objects| ==> x in S || x in S'
    requires j < |objects| && k < |objects| && j in S && j !in S' && k in S' && k !in S
    requires FIRST_CLUSTER <= ids[j] < FIRST_CLUSTER + |medoids|
    ensures ids[k] != ids[j]
  {
    var c := ids[j] - FIRST_CLUSTER;
    assert ClusterWithin(objects, dist, eps, minPts, ids, medoids[c], FIRST_CLUSTER + c);
  }

  /**
   * When neighbours are symmetric, a finished clustering keeps neighbouring core
   * objects together, and cluster `c`'s medoid carries the id `FIRST_CLUSTER + c`.
   */
  lemma ClusteredConnected<T>(objects: seq<T>, dist: (T, T) -> real, eps: real, minPts: nat,
                              ids: seq<nat>, medoids: seq<nat>, cur: nat, total: nat)
    requires Clustered(objects, dist, eps, minPts, ids, medoids, cur, total) && NearSymmetricOn(objects, dist, eps)
    ensures |ids| == |objects| && CoresConnected(objects, dist, eps, minPts, ids)
    ensures forall c :: 0 <= c < |medoids| ==> medoids[c] < |objects| && ids[medoids[c]] == FIRST_CLUSTER + c
  {
  }

  class Density {
    /** Per object: UNCLASSIFIED, NOISE, or a real cluster id. */
    var clusterIds: seq<nat>
    /** The seed of each cluster found, in discovery order. */
    var medoidIds: seq<nat>
    /** Distances strictly below this make two objects neighbours. */
    var epsilon: real
    /** The neighbourhood size, the object itself included, that makes an object core. */
    var minPoints: nat
    /** The id the next cluster found is given. */
    var currentClusterId: nat
    /** The number of clusters found. */
    var totalClusters: nat

    /** The starting state the driver expects: no labels, no medoids, counters at FIRST_CLUSTER and 0. */
    constructor ()
      ensures clusterIds == [] && medoidIds == []
      ensures currentClusterId == FIRST_CLUSTER && totalClusters == 0
    {
      clusterIds, medoidIds := [], [];
      currentClusterId, totalClusters := FIRST_CLUSTER, 0;
    }

    /**
     * DBSCAN over `objects`: label every object, scanning indices in order and
     * growing a cluster from each one still UNCLASSIFIED. Needs the freshly made
     * state: no labels, no medoids, counters at FIRST_CLUSTER and 0.
     */
    method Dbscan<T>(objects: seq<T>, dist: (T, T) -> real, eps: real, minPts: nat)
      requires clusterIds == [] && medoidIds == []
      requires currentClusterId == FIRST_CLUSTER && totalClusters == 0
      modifies this
      ensures epsilon == eps && minPoints == minPts
      ensures Clustered(objects, dist, eps, minPts, clusterIds, medoidIds, currentClusterId, totalClusters)
    {
      epsilon := eps;
      minPoints := minPts;

      for i := 0 to |objects|
        invariant |clusterIds| == i
        invariant forall j :: 0 <= j < i ==> clusterIds[j] == UNCLASSIFIED
        invariant epsilon == eps && minPoints == minPts
        invariant medoidIds == [] && currentClusterId == FIRST_CLUSTER && totalClusters == 0
      {
        clusterIds := clusterIds + [UNCLASSIFIED];
      }
      ScanStart(objects, dist, eps, minPts, clusterIds);

      for i := 0 to |objects|
        invariant epsilon == eps && minPoints == minPts
        invariant Scanned(objects, dist, eps, minPts, clusterIds, medoidIds, currentClusterId, totalClusters, i)
      {
        ghost var worklist := ScanObject(objects, dist, i);
      }
      ScanComplete(objects, dist, eps, minPts, clusterIds, medoidIds, currentClusterId, totalClusters);
    }

    /**
     * One step of the driver's scan: object `i`, if still UNCLASSIFIED, seeds a
     * cluster or becomes NOISE; a new cluster is recorded with `i` as its medoid.
     */
    method ScanObject<T>(objects: seq<T>, dist: (T, T) -> real, i: nat) returns (ghost worklist: seq<nat>)
      requires i < |objects|
      requires Scanned(objects, dist, epsilon, minPoints, clusterIds, medoidIds, currentClusterId, totalClusters, i)
      modifies this`clusterIds, this`medoidIds, this`currentClusterId, this`totalClusters
      ensures Scanned(objects, dist, epsilon, minPoints, clusterIds, medoidIds, currentClusterId, totalClusters, i + 1)
      ensures forall j :: 0 <= j < |objects| && old(clusterIds)[j] != UNCLASSIFIED ==> clusterIds[j] != UNCLASSIFIED
      ensures old(clusterIds)[i] != UNCLASSIFIED ==> clusterIds == old(clusterIds)
      ensures old(clusterIds)[i] == UNCLASSIFIED && !IsCore(objects, dist, epsilon, minPoints, i) ==>
        clusterIds == old(clusterIds)[i := NOISE]
      ensures if old(clusterIds)[i] == UNCLASSIFIED && IsCore(objects, dist, epsilon, minPoints, i) then
          && medoidIds == old(medoidIds) + [i]
          && currentClusterId == old(currentClusterId) + 1 && totalClusters == old(totalClusters) + 1
        else
          && medoidIds == old(medoidIds)
          && currentClusterId == old(currentClusterId) && totalClusters == old(totalClusters)
      ensures old(clusterIds)[i] == UNCLASSIFIED && IsCore(objects, dist, epsilon, minPoints, i) ==>
        Expanded(objects, dist, epsilon, minPoints, old(currentClusterId), i, old(clusterIds), clusterIds, worklist)
    {
      worklist := [];
      if clusterIds[i] == UNCLASSIFIED {
        ghost var before := clusterIds;
        var ok;
        ok, worklist := ExpandCluster(objects, dist, i);
        if ok {
          ScanCluster(objects, dist, epsilon, minPoints, before, clusterIds, worklist, medoidIds, currentClusterId, totalClusters, i);
          medoidIds := medoidIds + [i];
          currentClusterId := currentClusterId + 1;
          totalClusters := totalClusters + 1;
        } else {
          ScanNoise(objects, dist, epsilon, minPoints, before, medoidIds, currentClusterId, totalClusters, i);
        }
      } else {
        ScanClassified(objects, dist, epsilon, minPoints, clusterIds, medoidIds, currentClusterId, totalClusters, i);
      }
    }

    /** The indices whose distance from `currentObject` is below epsilon, and `currentObject` itself, ascending. */
    method EpsilonRangeQuery<T>(objects: seq<T>, dist: (T, T) -> real, currentObject: nat) returns (result: seq<nat>)
      requires currentObject < |objects|
      ensures result == Neighbours(objects, dist, epsilon, currentObject)
      ensures StrictlyAscending(result) && currentObject in result
      ensures forall m :: 0 <= m < |result| ==> result[m] < |objects|
      ensures forall j :: 0 <= j < |objects| ==> (j in result <==> Near(objects, dist, epsilon, currentObject, j))
    {
      result := [];
      for i := 0 to |objects|
        invariant result == NeighboursBelow(objects, dist, epsilon, currentObject, i)
      {
        if i == currentObject {
          result := result + [i];
          continue;
        }
        if dist(objects[currentObject], objects[i]) < epsilon {
          result := result + [i];
        }
      }
      NeighboursSpec(objects, dist, epsilon, currentObject);
    }

    /**
     * The flood fill from `currentObject`. A seed whose neighbourhood is smaller
     * than minPoints becomes NOISE and nothing else changes. Otherwise the whole
     * neighbourhood joins the cluster `currentClusterId`, and each core member of
     * the growing worklist claims its UNCLASSIFIED and NOISE neighbours. The ghost
     * `worklist` is the worklist in its final state.
     */
    method ExpandCluster<T>(objects: seq<T>, dist: (T, T) -> real, currentObject: nat)
      returns (ok: bool, ghost worklist: seq<nat>)
      requires currentObject < |objects| == |clusterIds|
      requires currentClusterId >= FIRST_CLUSTER
      modifies this`clusterIds
      ensures |clusterIds| == |objects|
      ensures ok <==> IsCore(objects, dist, epsilon, minPoints, currentObject)
      ensures !ok ==> clusterIds == old(clusterIds)[currentObject := NOISE] && worklist == []
      ensures ok ==> Expanded(objects, dist, epsilon, minPoints, currentClusterId, currentObject, old(clusterIds), clusterIds, worklist)
    {
      var seedList: seq<nat> := EpsilonRangeQuery(objects, dist, currentObject);
      if |seedList| < minPoints {
        clusterIds := clusterIds[currentObject := NOISE];
        return false, [];
      }

      // Assign the current cluster id to the whole neighbourhood.
      ghost var neighbourhood := seedList;
      seedList := LabelNeighbourhood(seedList, currentObject);
      ghost var labelled, rest := clusterIds, seedList;
      CountUnclassifiedBound(clusterIds, neighbourhood);
      ghost var budget := |seedList| + CountUnclassified(clusterIds);
      forall m | 0 <= m < |seedList|
        ensures seedList[m] < |objects| && clusterIds[seedList[m]] == currentClusterId
      {
        assert seedList[m] in neighbourhood;
      }

      // Expand the search from every member of the worklist.
      seedList := ExpandWorklist(objects, dist, seedList);
      FloodExpanded(objects, dist, epsilon, minPoints, currentClusterId, currentObject,
                    old(clusterIds), labelled, clusterIds, rest, seedList, budget);
      return true, seedList;
    }

    /**
     * The worklist phase of the flood fill: each member in turn, including members
     * appended on the way, claims its neighbours if it is core.
     */
    method ExpandWorklist<T>(objects: seq<T>, dist: (T, T) -> real, seeds: seq<nat>) returns (seedList: seq<nat>)
      requires |clusterIds| == |objects|
      requires currentClusterId >= FIRST_CLUSTER
      requires NoDuplicates(seeds)
      requires forall m :: 0 <= m < |seeds| ==> seeds[m] < |objects| && clusterIds[seeds[m]] == currentClusterId
      requires |seeds| + CountUnclassified(clusterIds) < |objects|
      modifies this`clusterIds
      ensures Expanding(objects, dist, epsilon, minPoints, currentClusterId, old(clusterIds), clusterIds, seeds, seedList, |seedList|,
                        |seeds| + CountUnclassified(old(clusterIds)))
    {
      seedList := seeds;
      ghost var budget := |seedList| + CountUnclassified(clusterIds);
      var k := 0;
      while k < |seedList|
        invariant Expanding(objects, dist, epsilon, minPoints, currentClusterId, old(clusterIds), clusterIds, seeds, seedList, k, budget)
        decreases |objects| - k
      {
        seedList := ProcessMember(objects, dist, old(clusterIds), seeds, seedList, k, budget);
        k := k + 1;
      }
    }

    /** One step of the worklist phase: the member at position `k` claims its neighbours if it is core. */
    method ProcessMember<T>(objects: seq<T>, dist: (T, T) -> real, ghost start: seq<nat>, ghost seeds: seq<nat>,
                            seedList: seq<nat>, k: nat, ghost budget: nat) returns (seedList': seq<nat>)
      requires Expanding(objects, dist, epsilon, minPoints, currentClusterId, start, clusterIds, seeds, seedList, k, budget)
      requires k < |seedList|
      requires currentClusterId >= FIRST_CLUSTER
      modifies this`clusterIds
      ensures |seedList| <= |seedList'| && seedList'[..|seedList|] == seedList
      ensures if IsCore(objects, dist, epsilon, minPoints, seedList[k]) then
          && Claimed(Neighbours(objects, dist, epsilon, seedList[k]), currentClusterId, old(clusterIds), clusterIds)
          && (forall m :: |seedList| <= m < |seedList'| ==>
                && seedList'[m] in Neighbours(objects, dist, epsilon, seedList[k])
                && seedList'[m] < |objects| && old(clusterIds)[seedList'[m]] == UNCLASSIFIED)
          && (forall x :: 0 <= x < |objects| && x in Neighbours(objects, dist, epsilon, seedList[k]) && old(clusterIds)[x] == UNCLASSIFIED ==>
                x in seedList')
        else clusterIds == old(clusterIds) && seedList' == seedList
      ensures Expanding(objects, dist, epsilon, minPoints, currentClusterId, start, clusterIds, seeds, seedList', k + 1, budget)
    {
      seedList' := seedList;
      var currentNeighbour := seedList[k];
      var neighbourSeedList := EpsilonRangeQuery(objects, dist, currentNeighbour);
      if |neighbourSeedList| >= minPoints {
        ghost var before := clusterIds;
        seedList' := ClaimNeighbours(neighbourSeedList, seedList);
        ExpandStep(objects, dist, epsilon, minPoints, currentClusterId, start, before, clusterIds, seeds, seedList, seedList', k, budget);
      } else {
        ExpandSkip(objects, dist, epsilon, minPoints, currentClusterId, start, clusterIds, seeds, seedList, k, budget);
      }
    }

    /**
     * The first pass over a dense seed's neighbourhood: label every member with the
     * current cluster id and leave the members other than the seed as the worklist.
     */
    method LabelNeighbourhood(seedList: seq<nat>, currentObject: nat) returns (rest: seq<nat>)
      requires StrictlyAscending(seedList)
      requires forall m :: 0 <= m < |seedList| ==> seedList[m] < |clusterIds|
      modifies this`clusterIds
      ensures |clusterIds| == |old(clusterIds)|
      ensures forall x :: 0 <= x < |clusterIds| ==>
        clusterIds[x] == if x in seedList then currentClusterId else old(clusterIds)[x]
      ensures StrictlyAscending(rest)
      ensures forall x :: x in rest <==> x in seedList && x != currentObject
      ensures |rest| == if currentObject in seedList then |seedList| - 1 else |seedList|
    {
      rest := [];
      var i := 0;
      while i < |seedList|
        invariant 0 <= i <= |seedList|
        invariant |clusterIds| == |old(clusterIds)|
        invariant forall x :: 0 <= x < |clusterIds| ==>
          clusterIds[x] == if x in seedList[..i] then currentClusterId else old(clusterIds)[x]
        invariant StrictlyAscending(rest)
        invariant forall x :: x in rest <==> x in seedList[..i] && x != currentObject
        invariant forall m :: 0 <= m < |rest| ==> rest[m] in seedList[..i]
        invariant |rest| == if currentObject in seedList[..i] then i - 1 else i
      {
        var currentSeed := seedList[i];
        assert seedList[..i + 1] == seedList[..i] + [currentSeed];
        assert currentSeed !in seedList[..i] by {
          forall m | 0 <= m < i ensures seedList[m] != currentSeed {
            assert seedList[m] < seedList[i];
          }
        }
        clusterIds := clusterIds[currentSeed := currentClusterId];
        if currentSeed == currentObject {
          // the seed need not be expanded from itself
        } else {
          assert forall m :: 0 <= m < |rest| ==> rest[m] < currentSeed by {
            forall m | 0 <= m < |rest| ensures rest[m] < currentSeed {
              var a :| 0 <= a < i && seedList[a] == rest[m];
              assert seedList[a] < seedList[i];
            }
          }
          rest := rest + [currentSeed];
        }
        i := i + 1;
      }
      assert seedList[..i] == seedList;
    }

    /**
     * One core worklist member claims its neighbours: each UNCLASSIFIED or NOISE
     * neighbour gets the current cluster id, and the UNCLASSIFIED ones join the worklist.
     */
    method ClaimNeighbours(neighbours: seq<nat>, seeds: seq<nat>) returns (seeds': seq<nat>)
      requires forall q :: 0 <= q < |neighbours| ==> neighbours[q] < |clusterIds|
      requires forall m :: 0 <= m < |seeds| ==> seeds[m] < |clusterIds| && clusterIds[seeds[m]] != UNCLASSIFIED
      requires NoDuplicates(seeds)
      requires currentClusterId >= FIRST_CLUSTER
      modifies this`clusterIds
      ensures Claimed(neighbours, currentClusterId, old(clusterIds), clusterIds)
      ensures |seeds| <= |seeds'| && seeds'[..|seeds|] == seeds
      ensures NoDuplicates(seeds')
      ensures forall m :: 0 <= m < |seeds'| ==> seeds'[m] < |clusterIds| && clusterIds[seeds'[m]] != UNCLASSIFIED
      ensures forall m :: |seeds| <= m < |seeds'| ==> seeds'[m] in neighbours && seeds'[m] < |clusterIds| && old(clusterIds)[seeds'[m]] == UNCLASSIFIED
      ensures forall x :: 0 <= x < |clusterIds| && x in neighbours && old(clusterIds)[x] == UNCLASSIFIED ==> x in seeds'
      ensures |seeds'| - |seeds| + CountUnclassified(clusterIds) == CountUnclassified(old(clusterIds))
    {
      seeds' := seeds;
      var j := 0;
      while j < |neighbours|
        invariant j <= |neighbours|
        invariant ClaimProgress(neighbours, j, currentClusterId, old(clusterIds), seeds, clusterIds, seeds')
      {
        var n := neighbours[j];
        if clusterIds[n] == UNCLASSIFIED || clusterIds[n] == NOISE {
          if clusterIds[n] == UNCLASSIFIED {
            ClaimFresh(neighbours, j, currentClusterId, old(clusterIds), seeds, clusterIds, seeds');
            seeds' := seeds' + [n];
          } else {
            ClaimNoise(neighbours, j, currentClusterId, old(clusterIds), seeds, clusterIds, seeds');
          }
          clusterIds := clusterIds[n := currentClusterId];
        } else {
          ClaimSkip(neighbours, j, currentClusterId, old(clusterIds), seeds, clusterIds, seeds');
        }
        j := j + 1;
      }
      assert neighbours[..j] == neighbours;
    }
  }
}
