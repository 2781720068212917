/**
 * The dispatch state of the map component and its two operations: storing
 * a clicked drop-off (`newDropoff`) and assembling the Optimization-API
 * query for the truck (`assembleQueryURL`). The clock (`Date.now()`), the
 * random key (`Math.random()`) and the truck position are parameters.
 */
module Dispatch {
  import opened Features
  import opened Planning

  class MapComponent {
    /** Every stored drop-off under its key. */
    var pointHopper: Hopper
    /** `dropoffs.features`: every drop-off ever placed, in click order. */
    var dropoffs: seq<Feature>
    /** The stop list as last assembled. */
    var keepTrack: seq<TrackEntry>
    /**
     * The coordinate index the code means for the pick-up stop; since the
     * depot is never pushed it is 1, the first drop-off. `undefined` until a
     * pick-up is first needed.
     */
    var garbageIndex: Option<int>
    /** Time of the last depot visit; set to 0 and never updated. */
    var lastAtGarbage: int

    /**
     * The object is well formed; every stored drop-off sits under its own
     * key and was placed on the map; every placed drop-off's key is stored.
     */
    ghost predicate Valid()
      reads this`pointHopper, this`dropoffs
    {
      && pointHopper.Valid()
      && (forall k :: k in pointHopper.props ==> pointHopper.props[k].key == k && pointHopper.props[k] in dropoffs)
      && (forall i :: 0 <= i < |dropoffs| ==> dropoffs[i].key in pointHopper.props)
    }

    /**
     * What ties `pointHopper` to `dropoffs`: every job `objectToArray` hands
     * to `assembleQueryURL` is a drop-off placed on the map, no two jobs are
     * the same drop-off, so there are never more jobs than drop-offs.
     */
    lemma JobsArePlaced()
      requires Valid()
      ensures forall j :: j in ObjectToArray(pointHopper) ==> j in dropoffs
      ensures Distinct(ObjectToArray(pointHopper))
      ensures |ObjectToArray(pointHopper)| <= |dropoffs|
    {
      var jobs, ks := ObjectToArray(pointHopper), ObjectKeys(pointHopper);
      ObjectKeysSpec(pointHopper);
      forall i | 0 <= i < |jobs|
        ensures jobs[i].key == ks[i] && jobs[i] in dropoffs
      {
      }
      DistinctWithin(jobs, dropoffs);
    }

    constructor()
      ensures Valid()
      ensures pointHopper == EmptyHopper && dropoffs == [] && keepTrack == []
      ensures garbageIndex == None && lastAtGarbage == 0
    {
      pointHopper := EmptyHopper;
      dropoffs := [];
      keepTrack := [];
      garbageIndex := None;
      lastAtGarbage := 0;
    }

    /**
     * `assembleQueryURL()`: resets `keepTrack`, flags a pick-up when some job
     * was ordered after `lastAtGarbage`, walks the jobs in `objectToArray`
     * order and returns the query. `distributions`, which the source builds
     * and then drops, is returned as well so that its contents can be stated.
     */
    method AssembleQueryUrl(truck: Coord) returns (url: Query, distributions: seq<Precedence>)
      requires pointHopper.Valid()
      modifies this`keepTrack, this`garbageIndex
      ensures var jobs := ObjectToArray(pointHopper);
        && url == Url(StopCoordinates(truck, jobs), Warehouse)
        && distributions == Distributions(jobs, lastAtGarbage, 1)
        && keepTrack == KeepTrack(truck, jobs, lastAtGarbage)
        && garbageIndex == GarbageIndexAfter(jobs, lastAtGarbage, old(garbageIndex))
    {
      var coordinates := [truck];
      distributions := [];
      keepTrack := [TruckAt(truck)];
      var restJobs := ObjectToArray(pointHopper);
      if |restJobs| > 0 {
        var needToPickUp := |Pending(restJobs, lastAtGarbage)| > 0;
        if needToPickUp {
          garbageIndex := Some(|coordinates|);
          // The warehouse coordinate is not pushed; only `keepTrack` gets an entry.
          keepTrack := keepTrack + [Undefined];
        }
        coordinates, distributions := ForEachJob(truck, restJobs, needToPickUp);
      }
      url := Url(coordinates, Warehouse);
    }

    /**
     * The `restJobs.forEach` loop of `assembleQueryURL`, entered with
     * `coordinates` holding the truck alone: pushes every job onto
     * `keepTrack` and its point onto `coordinates`, and a precedence pair
     * for each job that still needs its pick-up.
     */
    method ForEachJob(truck: Coord, restJobs: seq<Feature>, needToPickUp: bool)
      returns (coordinates: seq<Coord>, distributions: seq<Precedence>)
      requires needToPickUp == NeedToPickUp(restJobs, lastAtGarbage)
      requires needToPickUp ==> garbageIndex == Some(1)
      modifies this`keepTrack
      ensures coordinates == StopCoordinates(truck, restJobs)
      ensures distributions == Distributions(restJobs, lastAtGarbage, 1)
      ensures keepTrack == old(keepTrack) + JobEntries(restJobs)
    {
      coordinates := [truck];
      distributions := [];
      NeedToPickUpIff(restJobs, lastAtGarbage);
      var i := 0;
      while i < |restJobs|
        invariant 0 <= i <= |restJobs|
        invariant coordinates == StopCoordinates(truck, restJobs[..i])
        invariant keepTrack == old(keepTrack) + JobEntries(restJobs[..i])
        invariant distributions == Distributions(restJobs[..i], lastAtGarbage, 1)
      {
        var d := restJobs[i];
        assert restJobs[..i + 1][..i] == restJobs[..i];
        StopCoordinatesShape(truck, restJobs[..i]);
        keepTrack := keepTrack + [Job(d)];
        coordinates := coordinates + [d.coords];
        if needToPickUp && d.orderTime > lastAtGarbage {
          distributions := distributions + [Precedence(garbageIndex.value, |coordinates| - 1)];
        }
        i := i + 1;
      }
      assert restJobs[..i] == restJobs;
    }

    /**
     * `newDropoff(coords)`: appends the new point to `dropoffs`, stores it in
     * `pointHopper` under its key, and assembles the query for the route
     * request that follows.
     */
    method NewDropoff(coords: Coord, now: int, key: Key, truck: Coord) returns (url: Query)
      requires Valid()
      modifies this`dropoffs, this`pointHopper, this`keepTrack, this`garbageIndex
      ensures Valid()
      ensures dropoffs == old(dropoffs) + [Point(coords, now, key)]
      ensures pointHopper == Assign(old(pointHopper), key, Point(coords, now, key))
      ensures var jobs := ObjectToArray(pointHopper);
        && url == Url(StopCoordinates(truck, jobs), Warehouse)
        && keepTrack == KeepTrack(truck, jobs, lastAtGarbage)
        && garbageIndex == GarbageIndexAfter(jobs, lastAtGarbage, old(garbageIndex))
    {
      var pt := Point(coords, now, key);
      dropoffs := dropoffs + [pt];
      pointHopper := Assign(pointHopper, key, pt);
      var distributions;
      url, distributions := AssembleQueryUrl(truck);
    }
  }
}
