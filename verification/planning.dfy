/**
 * What `assembleQueryURL` computes from the pending jobs, stated as
 * functions of the job list: the coordinate list, the pick-up test, the
 * precedence pairs in `distributions`, the `keepTrack` list, the new
 * `garbageIndex` and the Optimization-API query.
 */
module Planning {
  import opened Features

  /** `warehouseLocation`, the depot and the fixed last stop of every trip. */
  const Warehouse: Coord := LngLat(77.35172, 28.68234)

  /** One `"garbageIndex,idx"` entry of `distributions`: stop `pickup` before stop `dropoff`. */
  datatype Precedence = Precedence(pickup: int, dropoff: int)

  /** An entry of `keepTrack`: the truck position, an `undefined`, or a job. */
  datatype TrackEntry = TruckAt(position: Coord) | Undefined | Job(feature: Feature)

  /**
   * The `driving` optimized-trips URL. Its fixed options (full overview,
   * steps, annotations, GeoJSON geometry, source first, destination last,
   * no round trip) and the access token are constant text, so only the
   * semicolon-separated stop list varies.
   */
  datatype Query = OptimizedTrips(stops: seq<Coord>)

  /** The job was ordered after the last depot visit. */
  predicate Qualifies(job: Feature, lastAtGarbage: int)
  {
    job.orderTime > lastAtGarbage
  }

  /** `restJobs.filter(d => d.properties.orderTime > lastAtGarbage)`. */
  function Pending(jobs: seq<Feature>, lastAtGarbage: int): seq<Feature>
  {
    if jobs == [] then []
    else
      var n := |jobs| - 1;
      Pending(jobs[..n], lastAtGarbage) + (if Qualifies(jobs[n], lastAtGarbage) then [jobs[n]] else [])
  }

  /** `needToPickUp`: the filter above is not empty. */
  predicate NeedToPickUp(jobs: seq<Feature>, lastAtGarbage: int)
  {
    |Pending(jobs, lastAtGarbage)| > 0
  }

  /** `coordinates` after the loop: the truck position, then each job's point. */
  function StopCoordinates(truck: Coord, jobs: seq<Feature>): seq<Coord>
  {
    if jobs == [] then [truck]
    else
      var n := |jobs| - 1;
      StopCoordinates(truck, jobs[..n]) + [jobs[n].coords]
  }

  /**
   * `distributions` after the loop: for each job that qualifies, the pair
   * (`garbageIndex`, index of that job in `coordinates`).
   */
  function Distributions(jobs: seq<Feature>, lastAtGarbage: int, garbageIndex: int): seq<Precedence>
  {
    if jobs == [] then []
    else
      var n := |jobs| - 1;
      Distributions(jobs[..n], lastAtGarbage, garbageIndex)
        + (if Qualifies(jobs[n], lastAtGarbage) then [Precedence(garbageIndex, n + 1)] else [])
  }

  /** The `keepTrack` pushes made by the loop, one per job. */
  function JobEntries(jobs: seq<Feature>): seq<TrackEntry>
  {
    if jobs == [] then []
    else
      var n := |jobs| - 1;
      JobEntries(jobs[..n]) + [Job(jobs[n])]
  }

  /**
   * `keepTrack` after the call: the truck, then `pointHopper.warehouse` when a
   * pick-up is needed, then the jobs. `pointHopper` only ever holds numeric
   * keys, so its `warehouse` property is `undefined`.
   */
  function KeepTrack(truck: Coord, jobs: seq<Feature>, lastAtGarbage: int): seq<TrackEntry>
  {
    [TruckAt(truck)]
      + (if |jobs| > 0 && NeedToPickUp(jobs, lastAtGarbage) then [Undefined] else [])
      + JobEntries(jobs)
  }

  /**
   * `garbageIndex` after the call: when a pick-up is needed it becomes the
   * length of `coordinates` at that point, which holds the truck alone
   * because the depot push is commented out; otherwise it keeps its value.
   */
  function GarbageIndexAfter(jobs: seq<Feature>, lastAtGarbage: int, previous: Option<int>): Option<int>
  {
    if |jobs| > 0 && NeedToPickUp(jobs, lastAtGarbage) then Some(1) else previous
  }

  /** The returned URL: `coordinates`, then the warehouse as the final stop. */
  function Url(coordinates: seq<Coord>, warehouse: Coord): Query
  {
    OptimizedTrips(coordinates + [warehouse])
  }

  /** The filter keeps exactly the jobs that qualify. */
  lemma {:induction false} PendingMembers(jobs: seq<Feature>, lastAtGarbage: int)
    ensures forall f :: f in Pending(jobs, lastAtGarbage) <==> f in jobs && Qualifies(f, lastAtGarbage)
  {
    if jobs != [] {
      var n := |jobs| - 1;
      PendingMembers(jobs[..n], lastAtGarbage);
      assert jobs == jobs[..n] + [jobs[n]];
    }
  }

  /** `needToPickUp` holds exactly when some job was ordered after the last depot visit. */
  lemma NeedToPickUpIff(jobs: seq<Feature>, lastAtGarbage: int)
    ensures NeedToPickUp(jobs, lastAtGarbage) <==> exists i :: 0 <= i < |jobs| && Qualifies(jobs[i], lastAtGarbage)
  {
    PendingMembers(jobs, lastAtGarbage);
    if NeedToPickUp(jobs, lastAtGarbage) {
      assert Pending(jobs, lastAtGarbage)[0] in jobs;
    }
  }

  /** The coordinate list starts with the truck and then lists every job, in job order. */
  lemma {:induction false} StopCoordinatesShape(truck: Coord, jobs: seq<Feature>)
    ensures |StopCoordinates(truck, jobs)| == |jobs| + 1
    ensures StopCoordinates(truck, jobs)[0] == truck
    ensures forall i :: 0 <= i < |jobs| ==> StopCoordinates(truck, jobs)[i + 1] == jobs[i].coords
  {
    if jobs != [] {
      var n := |jobs| - 1;
      StopCoordinatesShape(truck, jobs[..n]);
    }
  }

  /**
   * Each pair of `d` starts at `garbageIndex` and ends at the coordinate
   * index of a qualifying job, and the second indices strictly increase.
   */
  ghost predicate PairsQualifyingJobs(d: seq<Precedence>, jobs: seq<Feature>, lastAtGarbage: int, garbageIndex: int)
  {
    && (forall k :: 0 <= k < |d| ==>
          d[k].pickup == garbageIndex && 1 <= d[k].dropoff <= |jobs| && Qualifies(jobs[d[k].dropoff - 1], lastAtGarbage))
    && (forall k, l :: 0 <= k < l < |d| ==> d[k].dropoff < d[l].dropoff)
  }

  /** One pair per qualifying job: as many pairs as the filter keeps. */
  lemma {:induction false} DistributionsCount(jobs: seq<Feature>, lastAtGarbage: int, garbageIndex: int)
    ensures |Distributions(jobs, lastAtGarbage, garbageIndex)| == |Pending(jobs, lastAtGarbage)|
  {
    if jobs != [] {
      DistributionsCount(jobs[..|jobs| - 1], lastAtGarbage, garbageIndex);
    }
  }

  lemma {:induction false} DistributionsEntries(jobs: seq<Feature>, lastAtGarbage: int, garbageIndex: int)
    ensures PairsQualifyingJobs(Distributions(jobs, lastAtGarbage, garbageIndex), jobs, lastAtGarbage, garbageIndex)
  {
    if jobs != [] {
      var n := |jobs| - 1;
      var d := Distributions(jobs, lastAtGarbage, garbageIndex);
      var d' := Distributions(jobs[..n], lastAtGarbage, garbageIndex);
      DistributionsEntries(jobs[..n], lastAtGarbage, garbageIndex);
      assert PairsQualifyingJobs(d', jobs[..n], lastAtGarbage, garbageIndex);
      forall k | 0 <= k < |d|
        ensures d[k].pickup == garbageIndex && 1 <= d[k].dropoff <= |jobs| && Qualifies(jobs[d[k].dropoff - 1], lastAtGarbage)
      {
        if k < |d'| {
          assert d[k] == d'[k];
          assert jobs[..n][d'[k].dropoff - 1] == jobs[d'[k].dropoff - 1];
        }
      }
      forall k, l | 0 <= k < l < |d| ensures d[k].dropoff < d[l].dropoff {
        assert d[k] == d'[k];
        if l < |d'| {
          assert d[l] == d'[l];
        }
      }
    }
  }

  /** Every qualifying job has its pair. */
  lemma {:induction false} DistributionsComplete(jobs: seq<Feature>, lastAtGarbage: int, garbageIndex: int)
    ensures forall i :: 0 <= i < |jobs| && Qualifies(jobs[i], lastAtGarbage) ==>
      Precedence(garbageIndex, i + 1) in Distributions(jobs, lastAtGarbage, garbageIndex)
  {
    if jobs != [] {
      var n := |jobs| - 1;
      DistributionsComplete(jobs[..n], lastAtGarbage, garbageIndex);
      forall i | 0 <= i < n && Qualifies(jobs[i], lastAtGarbage)
        ensures Precedence(garbageIndex, i + 1) in Distributions(jobs, lastAtGarbage, garbageIndex)
      {
        assert jobs[..n][i] == jobs[i];
      }
    }
  }

  /**
   * `distributions` holds one pair per qualifying job and no other: each
   * pairs `garbageIndex` with the coordinate index of a qualifying job, the
   * pairs follow job order, and every qualifying job has its pair.
   */
  lemma DistributionsShape(jobs: seq<Feature>, lastAtGarbage: int, garbageIndex: int)
    ensures var d := Distributions(jobs, lastAtGarbage, garbageIndex);
      && |d| == |Pending(jobs, lastAtGarbage)|
      && (forall k :: 0 <= k < |d| ==>
            d[k].pickup == garbageIndex && 1 <= d[k].dropoff <= |jobs| && Qualifies(jobs[d[k].dropoff - 1], lastAtGarbage))
      && (forall k, l :: 0 <= k < l < |d| ==> d[k].dropoff < d[l].dropoff)
      && (forall i :: 0 <= i < |jobs| && Qualifies(jobs[i], lastAtGarbage) ==> Precedence(garbageIndex, i + 1) in d)
  {
    DistributionsCount(jobs, lastAtGarbage, garbageIndex);
    DistributionsEntries(jobs, lastAtGarbage, garbageIndex);
    DistributionsComplete(jobs, lastAtGarbage, garbageIndex);
  }

  /** `distributions` is empty exactly when no pick-up is needed. */
  lemma DistributionsEmptyIff(jobs: seq<Feature>, lastAtGarbage: int, garbageIndex: int)
    ensures Distributions(jobs, lastAtGarbage, garbageIndex) == [] <==> !NeedToPickUp(jobs, lastAtGarbage)
  {
    DistributionsShape(jobs, lastAtGarbage, garbageIndex);
  }

  /** Each pair's second index names, in the coordinate list, the job it was made for. */
  lemma DistributionsIndexCoordinates(truck: Coord, jobs: seq<Feature>, lastAtGarbage: int, garbageIndex: int)
    ensures var d := Distributions(jobs, lastAtGarbage, garbageIndex);
      forall k :: 0 <= k < |d| ==>
        && 1 <= d[k].dropoff < |StopCoordinates(truck, jobs)|
        && d[k].dropoff - 1 < |jobs|
        && StopCoordinates(truck, jobs)[d[k].dropoff] == jobs[d[k].dropoff - 1].coords
  {
    DistributionsShape(jobs, lastAtGarbage, garbageIndex);
    StopCoordinatesShape(truck, jobs);
  }

  lemma {:induction false} JobEntriesShape(jobs: seq<Feature>)
    ensures |JobEntries(jobs)| == |jobs|
    ensures forall i :: 0 <= i < |jobs| ==> JobEntries(jobs)[i] == Job(jobs[i])
  {
    if jobs != [] {
      JobEntriesShape(jobs[..|jobs| - 1]);
    }
  }

  /**
   * `keepTrack` is the truck, then one `undefined` exactly when a pick-up is
   * needed, then every job in order.
   */
  lemma KeepTrackShape(truck: Coord, jobs: seq<Feature>, lastAtGarbage: int)
    ensures var t := KeepTrack(truck, jobs, lastAtGarbage);
      var extra := if NeedToPickUp(jobs, lastAtGarbage) then 1 else 0;
      && |t| == 1 + extra + |jobs|
      && t[0] == TruckAt(truck)
      && (NeedToPickUp(jobs, lastAtGarbage) ==> t[1] == Undefined)
      && forall i :: 0 <= i < |jobs| ==> t[1 + extra + i] == Job(jobs[i])
  {
    JobEntriesShape(jobs);
    if jobs == [] {
      assert !NeedToPickUp(jobs, lastAtGarbage);
    }
  }

  /**
   * When a pick-up is needed, position 1 of the coordinate list, which is
   * what `garbageIndex` is set to, holds the first job rather than the
   * warehouse, since the warehouse is never pushed. Otherwise `garbageIndex`
   * is left as it was.
   */
  lemma GarbageIndexNamesFirstJob(truck: Coord, jobs: seq<Feature>, lastAtGarbage: int, previous: Option<int>)
    ensures NeedToPickUp(jobs, lastAtGarbage) ==>
      && |jobs| > 0
      && |StopCoordinates(truck, jobs)| > 1
      && StopCoordinates(truck, jobs)[1] == jobs[0].coords
      && GarbageIndexAfter(jobs, lastAtGarbage, previous) == Some(1)
    ensures !NeedToPickUp(jobs, lastAtGarbage) ==> GarbageIndexAfter(jobs, lastAtGarbage, previous) == previous
  {
    StopCoordinatesShape(truck, jobs);
    if jobs == [] {
      assert !NeedToPickUp(jobs, lastAtGarbage);
    }
  }

  /**
   * The query's stops are the coordinate list followed by the warehouse, so
   * the warehouse is the last stop and is added exactly once, whether or
   * not a pick-up is needed.
   */
  lemma UrlStops(truck: Coord, jobs: seq<Feature>, warehouse: Coord)
    ensures var s := Url(StopCoordinates(truck, jobs), warehouse).stops;
      && |s| == |jobs| + 2
      && s[0] == truck
      && (forall i :: 0 <= i < |jobs| ==> s[i + 1] == jobs[i].coords)
      && s[|s| - 1] == warehouse
      && multiset(s)[warehouse] == multiset(StopCoordinates(truck, jobs))[warehouse] + 1
  {
    StopCoordinatesShape(truck, jobs);
  }

  /** With no stop at the warehouse before it, the warehouse occurs once in the query. */
  lemma WarehouseOnce(truck: Coord, jobs: seq<Feature>, warehouse: Coord)
    requires truck != warehouse
    requires forall i :: 0 <= i < |jobs| ==> jobs[i].coords != warehouse
    ensures multiset(Url(StopCoordinates(truck, jobs), warehouse).stops)[warehouse] == 1
  {
    UrlStops(truck, jobs, warehouse);
    StopCoordinatesShape(truck, jobs);
    assert warehouse !in StopCoordinates(truck, jobs);
  }

  /**
   * In the running component `lastAtGarbage` stays 0 and every `orderTime`
   * is a positive `Date.now()`, so every job qualifies: `distributions`
   * pairs 1 with every job's index, and its first pair is (1, 1), a stop
   * ordered before itself.
   */
  lemma {:induction false} EveryOrderQualifies(jobs: seq<Feature>)
    requires forall i :: 0 <= i < |jobs| ==> jobs[i].orderTime > 0
    ensures |Distributions(jobs, 0, 1)| == |jobs|
    ensures forall i :: 0 <= i < |jobs| ==> Distributions(jobs, 0, 1)[i] == Precedence(1, i + 1)
    ensures jobs != [] ==> Distributions(jobs, 0, 1)[0] == Precedence(1, 1)
  {
    if jobs != [] {
      EveryOrderQualifies(jobs[..|jobs| - 1]);
    }
  }

  /**
   * One order placed after the last depot visit: the coordinate list is the truck and the order (no depot entry),
   * `distributions` is the single pair (1, 1), and the query appends the
   * warehouse once, as its last stop.
   */
  lemma OneLateOrder(truck: Coord, order: Feature, lastAtGarbage: int)
    requires order.orderTime > lastAtGarbage
    ensures StopCoordinates(truck, [order]) == [truck, order.coords]
    ensures Distributions([order], lastAtGarbage, 1) == [Precedence(1, 1)]
    ensures KeepTrack(truck, [order], lastAtGarbage) == [TruckAt(truck), Undefined, Job(order)]
    ensures Url(StopCoordinates(truck, [order]), Warehouse).stops == [truck, order.coords, Warehouse]
  {
    assert [order][..0] == [];
    assert Pending([order], lastAtGarbage) == [order];
    assert JobEntries([order]) == [Job(order)];
  }
}
