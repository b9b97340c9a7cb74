# Simulation service model

A Dafny model of `SimulationService`, the data-access service of the simulator's
web backend. The service keeps simulation records in a `simulations` table and
their vehicle connections in a `connections` table. It lists, fetches, adds,
updates and deletes them, and it derives a simulation's status (`"Running"`,
`"Invalid"` or `"Valid"`).

The model has six modules:

- `Options`: nullable values (`Option`, where `None` is C#'s `null`) and the
  outcome of an operation that may throw (`Result`).
- `Models`: the table rows as values (`Simulation`, `Connection`) and the
  objects the service assigns in place (`SimulationModel`, `ConnectionModel`).
- `Queries`: how a `List` filter becomes a `LIKE` pattern, the ownership
  condition `owner = caller OR owner IS NULL`, the `WHERE` clause of `List`,
  and `GetCurrent`.
- `Status`: `GetActualStatus` as a pure function. Its database lookups and the
  running simulation's id are inputs.
- `ConnectionTables`: the `connections` table as a sequence in insertion order,
  with clearing, stamping and replacement as functions, and lemmas about them.
- `Service`: the two tables as a `Database` object, and `Get`, `List`, `Add`,
  `Update`, `Delete`, `ClearConnections` and `UpdateConnections` as methods.
  Each public operation runs as one atomic method. When it throws, both tables
  end as they started, because the transaction is aborted.

Behaviours of the code that the model keeps and states:

- `Delete` clears the connections of the id before it checks ownership. A
  caller who cannot see a row still wipes that row's connections. The row
  stays and the result is 0.
- `Update` writes the row by primary key and ignores the caller. It replaces
  the connections even when no row has that id. The result is then 0, but the
  new connections are committed with no parent row.
- `Add` clears the connections of the id the object carried in, not of the
  new id. A null vehicle list makes the `foreach` at SimulationService.cs:161
  raise a `NullReferenceException`; by then `Add` has already written the new
  id into the object. The rollback does not undo that.
- With a null caller, the SQL condition `owner = NULL` is never true, so only
  ownerless rows are visible. `GetCurrent` uses C# `!=` instead. Lemma
  `GetCurrentAgreesWithVisible` shows the two rules give the same answer.
- The vehicle check compares two counts: the distinct requested ids, and the
  stored rows with those ids whose status passes. `CountCheckMeansAllPass`
  proves this equals checking every requested vehicle one by one. Repeated ids
  are tolerated (`DuplicatesTolerated`).
- A simulation's connections do not always mirror its last `Add`/`Update`:
  `Delete` on a row the caller cannot see and `Update` on a missing id leave
  them otherwise.
- `%` and `_` in a `List` filter are removed from the pattern
  (SimulationService.cs:27), so they can match neither as wildcards nor as
  literal characters.

## Model

| member | source | states |
|---|---|---|
| `Queries.RemoveChar` | Assets/Scripts/Database/Services/SimulationService.cs:27 | the result never contains the removed character, and every other character occurs in it exactly as often as in the input |
| `Queries.RemoveCharConcat` | Assets/Scripts/Database/Services/SimulationService.cs:27 | removing a character distributes over concatenation, so the kept characters stay in their original order |
| `Queries.SanitizeFilter` | Assets/Scripts/Database/Services/SimulationService.cs:25-27 | the pattern starts and ends with `%`, holds no `%` or `_` in between, and its interior keeps every other character of the filter exactly as often as the filter holds it |
| `Queries.RemoveWildcardsIsLiteral` | Assets/Scripts/Database/Services/SimulationService.cs:27 | stripping `%` and then `_` equals the single-pass reference filter `Literal`, which keeps the non-wildcard characters in order |
| `Queries.SanitizedPattern` | Assets/Scripts/Database/Services/SimulationService.cs:27 | the pattern is `%` + the literal part of the filter + `%`; a filter without wildcards is used unchanged between the two `%` |
| `Queries.SanitizeIdempotent` | Assets/Scripts/Database/Services/SimulationService.cs:27 | sanitising the interior of a sanitised pattern gives the same pattern back |
| `Queries.IsNullOrEmpty` | Assets/Scripts/Database/Services/SimulationService.cs:25 | the filter test: true for a null or empty string |
| `Queries.Visible` | Assets/Scripts/Database/Services/SimulationService.cs:47 | the SQL condition `owner = caller OR owner IS NULL` with NULL never equal to anything; its ensures state that a row is visible exactly when it has no owner or its owner is the caller, so a null caller sees only ownerless rows (the same condition as :76 and :141) |
| `Queries.ListWhere` | Assets/Scripts/Database/Services/SimulationService.cs:25-51 | the `WHERE` clause of `List`: the name `LIKE` the sanitised pattern when the filter is non-empty, the ownership condition otherwise |
| `Queries.ListWhereOwnerRule` | Assets/Scripts/Database/Services/SimulationService.cs:25-51 | with a non-empty filter the caller's identity does not affect which rows `List` selects; with an empty or null filter exactly the visible rows are selected |
| `Queries.GetCurrent` | Assets/Scripts/Database/Services/SimulationService.cs:224-237 | the result is null or the running simulation unchanged, and it is non-null only when the running simulation has no owner or belongs to the caller |
| `Queries.GetCurrentAgreesWithVisible` | Assets/Scripts/Database/Services/SimulationService.cs:224-237 | `GetCurrent` returns the running simulation exactly when the row ownership rule of `List`/`Get`/`Delete` would show it, and null otherwise |
| `Status.GetActualStatus` | Assets/Scripts/Database/Services/SimulationService.cs:168-221 | the status is one of `"Running"`, `"Invalid"`, `"Valid"`, and it is `"Running"` exactly when the simulation's id is the running simulation's id, whatever its cluster, map and vehicles are |
| `Status.MapAccepted` | Assets/Scripts/Database/Services/SimulationService.cs:196-203 | the map check: the map's status is `"Valid"`, or `"Downloading"` when downloads are allowed |
| `Status.VehiclePasses` | Assets/Scripts/Database/Services/SimulationService.cs:212 | the per-vehicle filter of the count query: status not `"Invalid"` when downloads are allowed, status `"Valid"` otherwise |
| `Status.DistinctIds` | Assets/Scripts/Database/Services/SimulationService.cs:214 | the distinct vehicle ids of the request, which `DistinctBy(v => v.Vehicle).Count()` counts |
| `Status.PassingIds` | Assets/Scripts/Database/Services/SimulationService.cs:211-212 | the rows the `COUNT(*)` query counts: requested ids present in the `vehicles` table whose status passes; its ensures state they are among the requested ids |
| `Models.VehicleIds` | Assets/Scripts/Database/Services/SimulationService.cs:211 | the vehicle ids of the connection list in order, one per connection (`Vehicles.Select(v => v.Vehicle)`) |
| `Status.CountCheckMeansAllPass` | Assets/Scripts/Database/Services/SimulationService.cs:210-217 | the distinct-id count equals the count of stored passing rows exactly when every requested vehicle is stored with a passing status |
| `Status.ValidIff` | Assets/Scripts/Database/Services/SimulationService.cs:168-221 | `"Valid"` exactly when not running, the cluster exists, and either `ApiOnly` is true or the map is accepted and the non-empty vehicle list all pass |
| `Status.ApiOnlySkipsMapAndVehicles` | Assets/Scripts/Database/Services/SimulationService.cs:178-187 | for an API-only simulation the map status, the vehicle list and the vehicle table do not affect the result; when it is not running the result is `"Valid"` if the cluster exists and `"Invalid"` if not |
| `Status.DownloadingMap` | Assets/Scripts/Database/Services/SimulationService.cs:189-203 | a downloading map gives `"Invalid"` unless downloads are allowed; when they are allowed, the result is `"Valid"` exactly when the vehicle list is non-empty and every vehicle passes |
| `Status.DuplicatesTolerated` | Assets/Scripts/Database/Services/SimulationService.cs:211-214 | two vehicle lists with the same set of ids give the same status |
| `Status.AllowDownloadingWidens` | Assets/Scripts/Database/Services/SimulationService.cs:196-212 | a simulation that is `"Valid"` with downloads disallowed is also `"Valid"` with downloads allowed |
| `ConnectionTables.ConnectionsOf` | Assets/Scripts/Database/Services/SimulationService.cs:37-39 | the hydration query returns exactly the connections of the given simulation, and only those |
| `ConnectionTables.WithoutSimulation` | Assets/Scripts/Database/Services/SimulationService.cs:156 | the cleared table holds exactly the old connections of other simulations |
| `ConnectionTables.Stamp` | Assets/Scripts/Database/Services/SimulationService.cs:161-165 | the rows the insert loop appends: one per vehicle, in list order, each carrying the simulation's id |
| `ConnectionTables.Replaced` | Assets/Scripts/Database/Services/SimulationService.cs:118-120 | the connections table after clear-then-insert: the old rows of other simulations, then the stamped vehicles |
| `ConnectionTables.ClearedConnections` | Assets/Scripts/Database/Services/SimulationService.cs:154-157 | after clearing, the simulation has no connections, and every other simulation's connections are unchanged, order included |
| `ConnectionTables.ClearPartitions` | Assets/Scripts/Database/Services/SimulationService.cs:154-157 | clearing removes exactly the simulation's connections: the kept rows plus the removed rows are the old table as a multiset |
| `ConnectionTables.ConnectionsOfStamp` | Assets/Scripts/Database/Services/SimulationService.cs:159-166 | the rows inserted for a stamped vehicle list belong to the stamped id and to no other simulation |
| `ConnectionTables.ReplacedConnections` | Assets/Scripts/Database/Services/SimulationService.cs:118-120 | after clear-then-insert, the id's connections are exactly the given vehicles in order, and every other simulation's connections are as before |
| `ConnectionTables.AddedConnections` | Assets/Scripts/Database/Services/SimulationService.cs:97-99 | when nothing referred to the new id beforehand, `Add` leaves exactly the given vehicles under it, whatever id the object carried in |
| `ConnectionTables.ReplacementKeepsIntegrity` | Assets/Scripts/Database/Services/SimulationService.cs:97-99 | clearing any id and inserting connections of a stored simulation keeps every connection pointing at a stored simulation |
| `Service.ClearConnections` | Assets/Scripts/Database/Services/SimulationService.cs:154-157 | the connections table loses exactly the rows of the id; the simulations table is untouched |
| `Service.UpdateConnections` | Assets/Scripts/Database/Services/SimulationService.cs:159-166 | every connection object is stamped with the simulation's id, and one row per object is appended in list order; vehicle ids are not changed |
| `Service.LoadConnections` | Assets/Scripts/Database/Services/SimulationService.cs:78 | returns a new array of new objects whose rows are exactly the simulation's connections, in id order |
| `Service.Fetch` | Assets/Scripts/Database/Services/SimulationService.cs:77-78 | a new record equal to the stored row, with its connections loaded |
| `Service.Get` | Assets/Scripts/Database/Services/SimulationService.cs:69-88 | for a row the caller can see, a new record equal to that row, whose connections are exactly that row's stored connections |
| `Service.Matching` | Assets/Scripts/Database/Services/SimulationService.cs:25-51 | the ids of the stored rows the `WHERE` clause of `List` selects, before `LIMIT` and `ORDER BY` |
| `Service.FetchAll` | Assets/Scripts/Database/Services/SimulationService.cs:53-56 | one loaded record per requested id, in the requested order |
| `Service.List` | Assets/Scripts/Database/Services/SimulationService.cs:18-67 | exactly one record per row the `WHERE` clause selects (filter pattern, or ownership when there is no filter), each equal to its row with its connections loaded |
| `Service.Insert` | Assets/Scripts/Database/Services/SimulationService.cs:98 | the row is stored under an id no stored row uses, that id is written into the object, and nothing else in the object changes |
| `Service.Add` | Assets/Scripts/Database/Services/SimulationService.cs:90-109 | the result is an id no stored row used, and the row is stored under it; the carried-in id's connections are cleared and the vehicles are appended stamped with the new id; a null vehicle list throws and leaves both tables unchanged; the connection objects keep their vehicle ids; referential integrity is preserved |
| `Service.Update` | Assets/Scripts/Database/Services/SimulationService.cs:111-131 | the connections of the id are replaced by the vehicles even when no row has that id; the result is 1 and the row is overwritten when the id exists, otherwise 0; the connection objects keep their vehicle ids; a null vehicle list throws and changes nothing; when a row was updated, referential integrity is preserved |
| `Service.Delete` | Assets/Scripts/Database/Services/SimulationService.cs:133-152 | no connection of the id remains in any case; the row is removed and the result is 1 exactly when the id exists and the caller can see it, otherwise the simulations table is unchanged and the result is 0 |
| `Service.AddThenGet` | Assets/Scripts/Database/Services/SimulationService.cs:97-101 | on a store with referential integrity, fetching a newly added simulation returns its row, and its connection rows equal the rows of the caller's own connection objects after the call: the vehicles it was added with, in order, stamped with the new id |

## Left out

- `Start` and `Stop` (SimulationService.cs:239-247) hand the simulation to the external runner without waiting; the runner is not part of this model. Its `CurrentSimulation` appears only as an input: the running id for `GetActualStatus`, the running simulation for `GetCurrent`. `GetCurrent` reads `CurrentSimulation` three times (:226, :231, :236); the model takes one snapshot, so its guarantee that another owner's running simulation is never returned assumes the three reads see the same value.
- Opening connections, `BeginTransaction`/`CompleteTransaction`/`AbortTransaction` and rethrowing are not modelled. Each operation is one atomic method, and an abort restores both tables.
- Store failures (connectivity, constraint violations) are not modelled. The only exception modelled is iterating a null vehicle list in `Add` and `Update`.
- SQL text building (`Sql.Builder`) and the engine's `LIKE` matching are not modelled. `LIKE` is a parameter `like` of `List`, applied to the row's name and the sanitised pattern.
- Service.List: ignores `offset` and `count` and does not order its result. The code appends `LIMIT offset, count` before `ORDER BY id`, and what that does depends on the database engine. The model returns every selected row once, in an order left open.
- Service.Get: requires that a visible row with the id exists. When there is none, `db.Single` throws; that error path is not modelled.
- Service.UpdateConnections: requires a non-null vehicle list. The exception a null list raises is modelled in its callers `Add` and `Update`.
- Service.Insert: the store's id assignment is modelled as a choice of any id not in use. Auto-increment policies that never reuse an id are a special case of this.
- Only these columns are modelled: id, name, owner, cluster, map and `ApiOnly` of a simulation, simulation and vehicle of a connection. `db.Insert` and `db.Update` write every mapped column; other columns of `SimulationModel`, `ConnectionModel`'s own row id and the `clusters`, `maps` and `vehicles` tables are not part of this model. The order of connection rows stands for their ids.
- Status.GetActualStatus: a `NULL` status in the `maps` or `vehicles` table is not modelled; statuses are strings. Its simulation argument is the row plus the vehicle ids of its connections, with `None` for a null list.
- Ids are unbounded integers; C#'s 64-bit `long` range is not modelled.
