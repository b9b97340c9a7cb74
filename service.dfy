/** The simulation service over an in-memory store. Each public operation is
    one transaction and is modelled as one atomic method; an operation that
    throws leaves both tables as they were (the transaction is aborted). */
module Service {
  import opened Options
  import opened Models
  import opened Queries
  import opened ConnectionTables

  /** The two tables the service writes: `simulations` by primary key, and
      `connections` in insertion order. */
  class Database {
    var simulations: map<int, Simulation>
    var connections: seq<Connection>
    /** A bound above every simulation id in use; it only serves to show that
        the store can always hand out a fresh id. */
    ghost var nextId: int

    ghost predicate Valid()
      reads this
    {
      forall id :: id in simulations ==> simulations[id].id == id && id < nextId
    }

    /** Referential integrity: every connection belongs to a stored
        simulation. */
    ghost predicate Consistent()
      reads this
    {
      forall c :: c in connections ==> c.simulation in simulations
    }

    constructor ()
      ensures Valid() && Consistent()
      ensures simulations == map[] && connections == []
    {
      simulations, connections := map[], [];
      nextId := 0;
    }
  }

  /** Every member of a non-empty set can be named. */
  lemma NonEmptyHasMember(s: set<int>)
    requires s != {}
    ensures exists x :: x in s
  {
    if forall x :: x !in s {
      assert false;
    }
  }

  /** The ids `List` selects, before `LIMIT` and `ORDER BY`. */
  function Matching(simulations: map<int, Simulation>, filter: Option<string>,
                    caller: Option<string>, like: (string, string) -> bool): set<int>
  {
    set id | id in simulations && ListWhere(simulations[id], filter, caller, like)
  }

  /** Deletes the connections of simulation `id`. */
  method ClearConnections(db: Database, id: int)
    modifies db
    ensures db.simulations == old(db.simulations) && db.nextId == old(db.nextId)
    ensures db.connections == WithoutSimulation(old(db.connections), id)
  {
    db.connections := WithoutSimulation(db.connections, id);
  }

  /** Stamps every connection object of `simulation` with its id and inserts
      it, in list order. Only the objects' `simulation` fields change. */
  method UpdateConnections(db: Database, simulation: SimulationModel)
    requires simulation.vehicles != null
    modifies db, simulation.Connections()
    ensures db.simulations == old(db.simulations) && db.nextId == old(db.nextId)
    ensures db.connections ==
            old(db.connections) + Stamp(old(VehicleIds(simulation.vehicles[..])), simulation.id)
    ensures forall j :: 0 <= j < simulation.vehicles.Length ==>
              simulation.vehicles[j].simulation == simulation.id
    ensures forall j :: 0 <= j < simulation.vehicles.Length ==>
              simulation.vehicles[j].vehicle == old(simulation.vehicles[j].vehicle)
  {
    var vehicles, id := simulation.vehicles, simulation.id;
    ghost var ids := VehicleIds(vehicles[..]);
    var i := 0;
    while i < vehicles.Length
      invariant 0 <= i <= vehicles.Length
      invariant db.simulations == old(db.simulations) && db.nextId == old(db.nextId)
      invariant db.connections == old(db.connections) + Stamp(ids[..i], id)
      invariant forall j :: 0 <= j < i ==> vehicles[j].simulation == id
      invariant forall j :: 0 <= j < vehicles.Length ==> vehicles[j].vehicle == ids[j]
    {
      var connection := vehicles[i];
      connection.simulation := id;
      db.connections := db.connections + [connection.Row()];
      StampSnoc(ids, id, i);
      i := i + 1;
    }
    assert ids[..i] == ids;
  }

  /** The connections of simulation `id` as new objects, in id order. */
  method LoadConnections(db: Database, id: int) returns (vehicles: array<ConnectionModel>)
    ensures fresh(vehicles)
    ensures forall j :: 0 <= j < vehicles.Length ==> fresh(vehicles[j])
    ensures Rows(vehicles[..]) == ConnectionsOf(db.connections, id)
  {
    var rows := ConnectionsOf(db.connections, id);
    var loaded: seq<ConnectionModel> := [];
    var i := 0;
    while i < |rows|
      invariant 0 <= i <= |rows| && |loaded| == i
      invariant forall j :: 0 <= j < i ==> fresh(loaded[j]) && loaded[j].Row() == rows[j]
    {
      var connection := new ConnectionModel(rows[i].simulation, rows[i].vehicle);
      loaded := loaded + [connection];
      i := i + 1;
    }
    vehicles := new ConnectionModel[|loaded|](j requires 0 <= j < |loaded| => loaded[j]);
    assert vehicles[..] == loaded;
  }

  /** A record fetched from the store is its row with the connections of
      that row loaded, in id order. */
  ghost predicate Loaded(db: Database, simulation: SimulationModel)
    reads db, simulation, simulation.vehicles, simulation.Connections()
  {
    && simulation.vehicles != null
    && simulation.id in db.simulations
    && simulation.Row() == db.simulations[simulation.id]
    && Rows(simulation.vehicles[..]) == ConnectionsOf(db.connections, simulation.id)
  }

  /** Fetches row `id` and loads its connections (`sim.Vehicles = ...`). */
  method Fetch(db: Database, id: int) returns (simulation: SimulationModel)
    requires db.Valid() && id in db.simulations
    ensures fresh(simulation) && simulation.vehicles != null && fresh(simulation.vehicles)
    ensures simulation.id == id && Loaded(db, simulation)
  {
    simulation := new SimulationModel.FromRow(db.simulations[id]);
    var vehicles := LoadConnections(db, simulation.id);
    simulation.vehicles := vehicles;
  }

  /** The simulation `id`, provided the caller may see it, with its
      connections loaded. */
  method Get(db: Database, id: int, caller: Option<string>) returns (simulation: SimulationModel)
    requires db.Valid()
    requires id in db.simulations && Visible(db.simulations[id], caller)
    ensures fresh(simulation) && simulation.vehicles != null && fresh(simulation.vehicles)
    ensures simulation.Row() == db.simulations[id]
    ensures Rows(simulation.vehicles[..]) == ConnectionsOf(db.connections, id)
  {
    simulation := Fetch(db, id);
  }

  /** Appends the record of `ids`' last id to the records already fetched
      for the ids before it; those records stay as they were. */
  method FetchNext(db: Database, fetched: seq<SimulationModel>, ids: seq<int>)
      returns (extended: seq<SimulationModel>)
    requires db.Valid() && |ids| == |fetched| + 1 && ids[|fetched|] in db.simulations
    requires forall j :: 0 <= j < |fetched| ==> fetched[j].id == ids[j] && Loaded(db, fetched[j])
    ensures |extended| == |ids|
    ensures forall j :: 0 <= j < |ids| ==> extended[j].id == ids[j] && Loaded(db, extended[j])
  {
    var simulation := Fetch(db, ids[|fetched|]);
    forall j | 0 <= j < |fetched| ensures Loaded(db, fetched[j]) {
      var s := fetched[j];
      assert old(Loaded(db, s));
      assert s.Connections() == old(s.Connections());
    }
    extended := fetched + [simulation];
  }

  lemma IdsOfRecords(simulations: seq<SimulationModel>, ids: seq<int>)
    requires |ids| == |simulations|
    requires forall j :: 0 <= j < |simulations| ==> simulations[j].id == ids[j]
    ensures (set s | s in simulations :: s.id) == (set id | id in ids)
  {
    forall s | s in simulations ensures s.id in ids {
      var j :| 0 <= j < |simulations| && simulations[j] == s;
    }
    forall id | id in ids ensures exists s :: s in simulations && s.id == id {
      var j :| 0 <= j < |ids| && ids[j] == id;
      assert simulations[j] in simulations;
    }
  }

  /** The members of `s`, each once, in an order left open. */
  method Enumerate(s: set<int>) returns (xs: seq<int>)
    ensures |xs| == |s| && (set x | x in xs) == s
    ensures forall j :: 0 <= j < |xs| ==> xs[j] in s
  {
    var remaining := s;
    xs := [];
    while remaining != {}
      invariant remaining <= s && |xs| + |remaining| == |s|
      invariant (set x | x in xs) == s - remaining
      decreases |remaining|
    {
      NonEmptyHasMember(remaining);
      var x :| x in remaining;
      assert (set y | y in xs + [x]) == (set y | y in xs) + {x};
      xs := xs + [x];
      remaining := remaining - {x};
    }
  }

  /** One record per row the `WHERE` clause of `List` selects, each with its
      connections loaded. */
  method List(db: Database, filter: Option<string>, caller: Option<string>,
               like: (string, string) -> bool)
      returns (simulations: seq<SimulationModel>)
    requires db.Valid()
    ensures |simulations| == |Matching(db.simulations, filter, caller, like)|
    ensures (set s | s in simulations :: s.id) == Matching(db.simulations, filter, caller, like)
    ensures forall s :: s in simulations ==> Loaded(db, s)
  {
    var selected := Matching(db.simulations, filter, caller, like);
    var ids := Enumerate(selected);
    simulations := FetchAll(db, ids);
    IdsOfRecords(simulations, ids);
  }

  /** Fetches the rows `ids`, in that order, each with its connections. */
  method FetchAll(db: Database, ids: seq<int>) returns (simulations: seq<SimulationModel>)
    requires db.Valid()
    requires forall j :: 0 <= j < |ids| ==> ids[j] in db.simulations
    ensures |simulations| == |ids|
    ensures forall j :: 0 <= j < |ids| ==> simulations[j].id == ids[j] && Loaded(db, simulations[j])
  {
    simulations := [];
    var i := 0;
    while i < |ids|
      invariant 0 <= i <= |ids| && |simulations| == i
      invariant forall j :: 0 <= j < i ==> simulations[j].id == ids[j] && Loaded(db, simulations[j])
    {
      simulations := FetchNext(db, simulations, ids[..i + 1]);
      i := i + 1;
    }
  }

  /** Inserts the row of `simulation` under an id the store chooses among
      the unused ones, and writes that id into the object. */
  method Insert(db: Database, simulation: SimulationModel)
    requires db.Valid()
    modifies db, simulation
    ensures db.Valid() && db.nextId >= old(db.nextId)
    ensures simulation.id !in old(db.simulations)
    ensures simulation.Row() == old(simulation.Row()).(id := simulation.id)
    ensures simulation.vehicles == old(simulation.vehicles)
    ensures db.simulations == old(db.simulations)[simulation.id := simulation.Row()]
    ensures db.connections == old(db.connections)
  {
    ghost var unused := db.nextId;
    assert unused !in db.simulations;
    var id :| id !in db.simulations;
    simulation.id := id;
    db.simulations := db.simulations[id := simulation.Row()];
    db.nextId := if id < db.nextId then db.nextId else id + 1;
  }

  /** Inserts `simulation` under a fresh id chosen by the store, writes that
      id into the object, and replaces the connections: those of the id the
      object carried in are cleared, and its vehicles are stamped with the new
      id and inserted. A null vehicle list throws after the id was written
      into the object; the tables are then as before. */
  method Add(db: Database, simulation: SimulationModel) returns (r: Result<int, Error>)
    requires db.Valid()
    modifies db, simulation, simulation.Connections()
    ensures db.Valid()
    ensures simulation.id !in old(db.simulations)
    ensures simulation.vehicles == old(simulation.vehicles)
    ensures simulation.Row() == old(simulation.Row()).(id := simulation.id)
    ensures old(simulation.vehicles) == null ==>
              && r == Err(NullReference)
              && db.simulations == old(db.simulations) && db.connections == old(db.connections)
    ensures old(simulation.vehicles) != null ==>
              && r == Ok(simulation.id)
              && db.simulations == old(db.simulations)[simulation.id := simulation.Row()]
              && db.connections ==
                 WithoutSimulation(old(db.connections), old(simulation.id))
                 + Stamp(old(VehicleIds(simulation.vehicles[..])), simulation.id)
              && (forall j :: 0 <= j < simulation.vehicles.Length ==>
                    simulation.vehicles[j].simulation == simulation.id)
              && (forall j :: 0 <= j < simulation.vehicles.Length ==>
                    simulation.vehicles[j].vehicle == old(simulation.vehicles[j].vehicle))
    ensures old(db.Consistent()) ==> db.Consistent()
  {
    if simulation.vehicles == null {
      // Clearing and inserting happen first, then iterating a null list
      // throws: the transaction is aborted, the object keeps its new id.
      var savedSimulations, savedConnections := db.simulations, db.connections;
      ClearConnections(db, simulation.id);
      Insert(db, simulation);
      db.simulations, db.connections := savedSimulations, savedConnections;
      return Err(NullReference);
    }
    ghost var requested := VehicleIds(simulation.vehicles[..]);
    ghost var carried := simulation.id;
    ClearConnections(db, simulation.id);
    Insert(db, simulation);
    UpdateConnections(db, simulation);
    r := Ok(simulation.id);
    if old(db.Consistent()) {
      ReplacementKeepsIntegrity(old(db.connections), db.simulations.Keys, carried,
                                simulation.id, requested);
    }
  }

  /** Replaces the connections of `simulation.id` by its vehicles, then
      overwrites its row by primary key; the result is the number of rows
      updated. The connections are replaced even when no row has that id, and
      the caller's identity is not consulted. */
  method Update(db: Database, simulation: SimulationModel) returns (r: Result<int, Error>)
    requires db.Valid()
    modifies db, simulation.Connections()
    ensures db.Valid()
    ensures old(simulation.vehicles) == null ==>
              && r == Err(NullReference)
              && db.simulations == old(db.simulations) && db.connections == old(db.connections)
    ensures old(simulation.vehicles) != null ==>
              && r == Ok(if simulation.id in old(db.simulations) then 1 else 0)
              && db.simulations ==
                 (if simulation.id in old(db.simulations)
                  then old(db.simulations)[simulation.id := simulation.Row()]
                  else old(db.simulations))
              && db.connections ==
                 Replaced(old(db.connections), simulation.id, old(VehicleIds(simulation.vehicles[..])))
              && (forall j :: 0 <= j < simulation.vehicles.Length ==>
                    simulation.vehicles[j].simulation == simulation.id)
              && (forall j :: 0 <= j < simulation.vehicles.Length ==>
                    simulation.vehicles[j].vehicle == old(simulation.vehicles[j].vehicle))
    ensures old(db.Consistent()) && r == Ok(1) ==> db.Consistent()
  {
    if simulation.vehicles == null {
      // Clearing happens first, then iterating a null list throws: the
      // transaction is aborted.
      var savedConnections := db.connections;
      ClearConnections(db, simulation.id);
      db.connections := savedConnections;
      return Err(NullReference);
    }
    ClearConnections(db, simulation.id);
    UpdateConnections(db, simulation);
    if simulation.id in db.simulations {
      db.simulations := db.simulations[simulation.id := simulation.Row()];
      r := Ok(1);
    } else {
      r := Ok(0);
    }
  }

  /** Clears the connections of `id`, then deletes row `id` if the caller may
      see it; the result is the number of rows deleted. The connections are
      cleared whether or not the row is deleted. */
  method Delete(db: Database, id: int, caller: Option<string>) returns (deleted: int)
    requires db.Valid()
    modifies db
    ensures db.Valid()
    ensures db.connections == WithoutSimulation(old(db.connections), id)
    ensures deleted ==
            if id in old(db.simulations) && Visible(old(db.simulations)[id], caller) then 1 else 0
    ensures db.simulations ==
            if deleted == 1 then old(db.simulations) - {id} else old(db.simulations)
    ensures old(db.Consistent()) ==> db.Consistent()
  {
    ClearConnections(db, id);
    if id in db.simulations && Visible(db.simulations[id], caller) {
      db.simulations := db.simulations - {id};
      deleted := 1;
    } else {
      deleted := 0;
    }
  }

  /** On a store where every connection belongs to a stored simulation,
      fetching a freshly added simulation gives back exactly the vehicles it
      was added with, in order. */
  method AddThenGet(db: Database, simulation: SimulationModel) returns (fetched: SimulationModel)
    requires db.Valid() && db.Consistent()
    requires simulation.vehicles != null
    modifies db, simulation, simulation.Connections()
    ensures db.Valid() && db.Consistent()
    ensures simulation.vehicles == old(simulation.vehicles)
    ensures fetched.Row() == simulation.Row() && fetched.vehicles != null
    ensures Rows(fetched.vehicles[..]) ==
            Stamp(old(VehicleIds(simulation.vehicles[..])), simulation.id)
    ensures Rows(fetched.vehicles[..]) == Rows(simulation.vehicles[..])
  {
    ghost var before := db.connections;
    ghost var stored := db.simulations.Keys;
    var r := Add(db, simulation);
    NoConnectionsOfMissing(before, stored, simulation.id);
    AddedConnections(before, old(simulation.id), simulation.id, old(VehicleIds(simulation.vehicles[..])));
    fetched := Get(db, r.value, simulation.owner);
    assert Rows(simulation.vehicles[..]) ==
           Stamp(old(VehicleIds(simulation.vehicles[..])), simulation.id);
  }
}
