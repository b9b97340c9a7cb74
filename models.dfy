/** The records the simulation service reads and writes: the rows of the
    `simulations` and `connections` tables as values, and the in-memory model
    objects (`SimulationModel`, `ConnectionModel`) whose fields the service
    assigns in place. */
module Models {
  import opened Options

  /** A row of the `simulations` table. `owner == None` means the row is
      visible to every caller. */
  datatype Simulation = Simulation(
    id: int,
    name: string,
    owner: Option<string>,
    clusterId: int,
    mapId: int,
    apiOnly: Option<bool>)

  /** A row of the `connections` table: vehicle `vehicle` belongs to the
      simulation with id `simulation`. */
  datatype Connection = Connection(simulation: int, vehicle: int)

  /** The exception a service operation can raise in this model. */
  datatype Error = NullReference

  /** A vehicle connection as the service's caller holds it. */
  class ConnectionModel {
    var simulation: int
    var vehicle: int

    constructor (simulation: int, vehicle: int)
      ensures this.simulation == simulation && this.vehicle == vehicle
    {
      this.simulation := simulation;
      this.vehicle := vehicle;
    }

    /** The row this object is stored as. */
    function Row(): Connection
      reads this
    {
      Connection(simulation, vehicle)
    }
  }

  /** A simulation as the service's caller holds it; `vehicles` may be null. */
  class SimulationModel {
    var id: int
    var name: string
    var owner: Option<string>
    var clusterId: int
    var mapId: int
    var apiOnly: Option<bool>
    var vehicles: array?<ConnectionModel>

    /** A record fetched from the store, before its connections are loaded. */
    constructor FromRow(row: Simulation)
      ensures Row() == row && vehicles == null
    {
      id, name, owner := row.id, row.name, row.owner;
      clusterId, mapId, apiOnly := row.clusterId, row.mapId, row.apiOnly;
      vehicles := null;
    }

    /** The row this object is stored as. */
    function Row(): Simulation
      reads this
    {
      Simulation(id, name, owner, clusterId, mapId, apiOnly)
    }

    /** The connection objects the service may stamp. */
    function Connections(): set<ConnectionModel>
      reads this`vehicles, vehicles
    {
      if vehicles == null then {} else set j | 0 <= j < vehicles.Length :: vehicles[j]
    }
  }

  /** The rows a sequence of connection objects stands for, in order. */
  function Rows(cs: seq<ConnectionModel>): (rows: seq<Connection>)
    reads set c | c in cs
    ensures |rows| == |cs|
    ensures forall j :: 0 <= j < |cs| ==> rows[j] == cs[j].Row()
  {
    if cs == [] then [] else Rows(cs[..|cs| - 1]) + [cs[|cs| - 1].Row()]
  }

  /** The vehicle ids a sequence of connection objects refers to, in order
      (`Vehicles.Select(v => v.Vehicle)`). */
  function VehicleIds(cs: seq<ConnectionModel>): (ids: seq<int>)
    reads set c | c in cs
    ensures |ids| == |cs|
    ensures forall j :: 0 <= j < |cs| ==> ids[j] == cs[j].vehicle
  {
    if cs == [] then [] else VehicleIds(cs[..|cs| - 1]) + [cs[|cs| - 1].vehicle]
  }
}
