/** Status derivation for a simulation (`GetActualStatus`): whether it is
    running, or else whether everything it refers to is present and ready. */
module Status {
  import opened Options
  import opened Models

  const StatusRunning := "Running"
  const StatusInvalid := "Invalid"
  const StatusValid := "Valid"
  const MapDownloading := "Downloading"

  /** What the status derivation reads from outside the simulation record:
      the id of the simulation the runner is executing (if any), whether the
      simulation's cluster row exists, the status of its map row (None when
      there is no such row), and the `status` column of the `vehicles` table
      by vehicle id. */
  datatype Lookups = Lookups(
    runningId: Option<int>,
    clusterExists: bool,
    mapStatus: Option<string>,
    vehicleStatus: map<int, string>)

  /** The map check: a valid map, or a downloading one when that is allowed. */
  predicate MapAccepted(status: string, allowDownloading: bool) {
    (allowDownloading && status == MapDownloading) || status == StatusValid
  }

  /** The per-vehicle filter of the count query. */
  predicate VehiclePasses(status: string, allowDownloading: bool) {
    if allowDownloading then status != StatusInvalid else status == StatusValid
  }

  /** The distinct vehicle ids a request names. */
  function DistinctIds(vehicles: seq<int>): set<int> {
    set v | v in vehicles
  }

  /** The set the count query counts: stored vehicles whose id is requested
      and whose status passes. */
  function PassingIds(ids: set<int>, stored: map<int, string>, allowDownloading: bool): (passing: set<int>)
    ensures passing <= ids
  {
    set v | v in ids && v in stored && VehiclePasses(stored[v], allowDownloading)
  }

  /** The ordered validation of a simulation. `vehicles` holds the vehicle ids
      of the simulation's connections, or None when its list is null. */
  function GetActualStatus(simulation: Simulation, vehicles: Option<seq<int>>,
                           allowDownloading: bool, lookups: Lookups): (status: string)
    ensures status == StatusRunning || status == StatusInvalid || status == StatusValid
    ensures status == StatusRunning <==> lookups.runningId == Some(simulation.id)
  {
    if lookups.runningId.Some? && simulation.id == lookups.runningId.value then StatusRunning
    else if !lookups.clusterExists then StatusInvalid
    else if simulation.apiOnly.GetOr(false) then StatusValid
    else if lookups.mapStatus.None? then StatusInvalid
    else if !MapAccepted(lookups.mapStatus.value, allowDownloading) then StatusInvalid
    else if vehicles.None? || |vehicles.value| == 0 then StatusInvalid
    else if |DistinctIds(vehicles.value)| !=
            |PassingIds(DistinctIds(vehicles.value), lookups.vehicleStatus, allowDownloading)|
    then StatusInvalid
    else StatusValid
  }

  /** Reference definition of the vehicle check: every requested vehicle is
      stored and its status passes. */
  predicate AllVehiclesPass(vehicles: seq<int>, stored: map<int, string>, allowDownloading: bool) {
    forall v :: v in vehicles ==> v in stored && VehiclePasses(stored[v], allowDownloading)
  }

  /** A subset of a finite set with the same size is the set itself. */
  lemma SubsetOfSameSize(a: set<int>, b: set<int>)
    requires a <= b && |a| == |b|
    ensures a == b
  {
    assert |b - a| == |b| - |a|;
    assert b - a == {};
  }

  /** Comparing the distinct-id count with the count of passing stored rows
      is the same as checking every requested vehicle individually. */
  lemma CountCheckMeansAllPass(vehicles: seq<int>, stored: map<int, string>, allowDownloading: bool)
    ensures |DistinctIds(vehicles)| == |PassingIds(DistinctIds(vehicles), stored, allowDownloading)|
            <==> AllVehiclesPass(vehicles, stored, allowDownloading)
  {
    var ids := DistinctIds(vehicles);
    var passing := PassingIds(ids, stored, allowDownloading);
    if |ids| == |passing| {
      SubsetOfSameSize(passing, ids);
      forall v | v in vehicles
        ensures v in stored && VehiclePasses(stored[v], allowDownloading)
      {
        assert v in ids;
      }
    }
    if AllVehiclesPass(vehicles, stored, allowDownloading) {
      forall v | v in ids ensures v in passing {
        assert v in vehicles;
      }
      assert passing == ids;
    }
  }

  /** The whole decision: a simulation is `"Valid"` exactly when it is not
      running, its cluster exists, and it is either API-only or has an
      accepted map and a non-empty list of vehicles that all pass. */
  lemma ValidIff(simulation: Simulation, vehicles: Option<seq<int>>,
                 allowDownloading: bool, lookups: Lookups)
    ensures GetActualStatus(simulation, vehicles, allowDownloading, lookups) == StatusValid
            <==>
            && lookups.runningId != Some(simulation.id)
            && lookups.clusterExists
            && (|| simulation.apiOnly == Some(true)
                || (&& lookups.mapStatus.Some?
                    && MapAccepted(lookups.mapStatus.value, allowDownloading)
                    && vehicles.Some? && |vehicles.value| > 0
                    && AllVehiclesPass(vehicles.value, lookups.vehicleStatus, allowDownloading)))
  {
    if vehicles.Some? {
      CountCheckMeansAllPass(vehicles.value, lookups.vehicleStatus, allowDownloading);
    }
  }

  /** Once the cluster exists, an API-only simulation is valid without its map
      or vehicles being consulted: changing them changes nothing. */
  lemma ApiOnlySkipsMapAndVehicles(simulation: Simulation, vehicles: Option<seq<int>>,
                                   other: Option<seq<int>>, allowDownloading: bool,
                                   lookups: Lookups, mapStatus: Option<string>,
                                   vehicleStatus: map<int, string>)
    requires simulation.apiOnly == Some(true)
    ensures GetActualStatus(simulation, vehicles, allowDownloading, lookups) ==
            GetActualStatus(simulation, other, allowDownloading,
                            lookups.(mapStatus := mapStatus, vehicleStatus := vehicleStatus))
    ensures lookups.runningId != Some(simulation.id) ==>
            GetActualStatus(simulation, vehicles, allowDownloading, lookups) ==
            (if lookups.clusterExists then StatusValid else StatusInvalid)
  {
  }

  /** Repeating a vehicle id in the request changes nothing: only the set of
      requested ids matters (the tolerance of the count comparison). */
  lemma DuplicatesTolerated(simulation: Simulation, vehicles: seq<int>, other: seq<int>,
                            allowDownloading: bool, lookups: Lookups)
    requires DistinctIds(vehicles) == DistinctIds(other)
    ensures GetActualStatus(simulation, Some(vehicles), allowDownloading, lookups) ==
            GetActualStatus(simulation, Some(other), allowDownloading, lookups)
  {
    assert |vehicles| == 0 <==> |other| == 0 by {
      if |vehicles| > 0 { assert vehicles[0] in DistinctIds(other); }
      if |other| > 0 { assert other[0] in DistinctIds(vehicles); }
    }
  }

  /** Allowing downloads only widens what is accepted: a simulation valid
      without it stays valid with it. */
  lemma AllowDownloadingWidens(simulation: Simulation, vehicles: Option<seq<int>>, lookups: Lookups)
    ensures GetActualStatus(simulation, vehicles, false, lookups) == StatusValid ==>
            GetActualStatus(simulation, vehicles, true, lookups) == StatusValid
  {
    ValidIff(simulation, vehicles, false, lookups);
    ValidIff(simulation, vehicles, true, lookups);
  }

  /** A map still downloading makes a simulation invalid unless downloads are
      allowed, in which case the vehicles decide. */
  lemma DownloadingMap(simulation: Simulation, vehicles: seq<int>, lookups: Lookups)
    requires lookups.runningId != Some(simulation.id) && lookups.clusterExists
    requires simulation.apiOnly != Some(true)
    requires lookups.mapStatus == Some(MapDownloading)
    ensures GetActualStatus(simulation, Some(vehicles), false, lookups) == StatusInvalid
    ensures GetActualStatus(simulation, Some(vehicles), true, lookups) == StatusValid <==>
            |vehicles| > 0 && AllVehiclesPass(vehicles, lookups.vehicleStatus, true)
  {
    ValidIff(simulation, Some(vehicles), true, lookups);
  }
}
