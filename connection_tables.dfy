/** The `connections` table as a sequence of rows in insertion order (which
    is the order of their store-assigned ids), and the row-level effects of
    the service's connection maintenance. */
module ConnectionTables {
  import opened Models

  /** The rows `WHERE simulation = id ORDER BY id`: the connections that
      belong to simulation `id`, in insertion order. */
  function ConnectionsOf(cs: seq<Connection>, id: int): (r: seq<Connection>)
    ensures forall c :: c in r ==> c in cs && c.simulation == id
    ensures forall c :: c in cs && c.simulation == id ==> c in r
  {
    if cs == [] then []
    else (if cs[0].simulation == id then [cs[0]] else []) + ConnectionsOf(cs[1..], id)
  }

  /** The table after `DELETE ... WHERE simulation = id`. */
  function WithoutSimulation(cs: seq<Connection>, id: int): (r: seq<Connection>)
    ensures forall c :: c in r ==> c in cs && c.simulation != id
    ensures forall c :: c in cs && c.simulation != id ==> c in r
  {
    if cs == [] then []
    else (if cs[0].simulation != id then [cs[0]] else []) + WithoutSimulation(cs[1..], id)
  }

  /** The rows inserted for `vehicles` once each is stamped with simulation
      `id`, in the order of the list. */
  function Stamp(vehicles: seq<int>, id: int): seq<Connection> {
    seq(|vehicles|, j requires 0 <= j < |vehicles| => Connection(id, vehicles[j]))
  }

  /** Stamping one more vehicle appends one more row. */
  lemma StampSnoc(vehicles: seq<int>, id: int, i: nat)
    requires i < |vehicles|
    ensures Stamp(vehicles[..i + 1], id) == Stamp(vehicles[..i], id) + [Connection(id, vehicles[i])]
  {
  }

  /** The table after a connection set is replaced: the old connections of
      `id` cleared, then the new ones appended. */
  function Replaced(cs: seq<Connection>, id: int, vehicles: seq<int>): seq<Connection> {
    WithoutSimulation(cs, id) + Stamp(vehicles, id)
  }

  lemma {:induction false} ConnectionsOfConcat(a: seq<Connection>, b: seq<Connection>, id: int)
    ensures ConnectionsOf(a + b, id) == ConnectionsOf(a, id) + ConnectionsOf(b, id)
  {
    if a == [] {
      assert a + b == b;
    } else {
      assert (a + b)[1..] == a[1..] + b;
      ConnectionsOfConcat(a[1..], b, id);
    }
  }

  /** The stamped rows all belong to `id` and to no other simulation. */
  lemma {:induction false} ConnectionsOfStamp(vehicles: seq<int>, id: int, k: int)
    ensures ConnectionsOf(Stamp(vehicles, id), k) == if k == id then Stamp(vehicles, id) else []
  {
    if vehicles != [] {
      var s := Stamp(vehicles, id);
      assert s[1..] == Stamp(vehicles[1..], id);
      ConnectionsOfStamp(vehicles[1..], id, k);
    }
  }

  /** Clearing removes every connection of `id` and keeps the connections of
      every other simulation exactly, order included. */
  lemma {:induction false} ClearedConnections(cs: seq<Connection>, id: int, k: int)
    ensures ConnectionsOf(WithoutSimulation(cs, id), k) ==
            if k == id then [] else ConnectionsOf(cs, k)
  {
    if cs != [] {
      var head := if cs[0].simulation != id then [cs[0]] else [];
      ConnectionsOfConcat(head, WithoutSimulation(cs[1..], id), k);
      ClearedConnections(cs[1..], id, k);
    }
  }

  /** Clearing splits the table: what is removed is exactly the connections
      of `id`, and nothing is lost or duplicated. */
  lemma {:induction false} ClearPartitions(cs: seq<Connection>, id: int)
    ensures multiset(WithoutSimulation(cs, id)) + multiset(ConnectionsOf(cs, id)) == multiset(cs)
  {
    if cs != [] {
      ClearPartitions(cs[1..], id);
      assert cs == [cs[0]] + cs[1..];
    }
  }

  /** After a replacement the connections of `id` are exactly the given
      vehicles, in order, and every other simulation's connections are as
      they were. */
  lemma ReplacedConnections(cs: seq<Connection>, id: int, vehicles: seq<int>, k: int)
    ensures ConnectionsOf(Replaced(cs, id, vehicles), k) ==
            if k == id then Stamp(vehicles, id) else ConnectionsOf(cs, k)
  {
    ConnectionsOfConcat(WithoutSimulation(cs, id), Stamp(vehicles, id), k);
    ClearedConnections(cs, id, k);
    ConnectionsOfStamp(vehicles, id, k);
  }

  /** `Add` clears the connections of the id it was given and appends the
      new ones under the fresh id: the fresh id then owns exactly the new
      vehicles, provided no connection referred to it before. */
  lemma AddedConnections(cs: seq<Connection>, oldId: int, newId: int, vehicles: seq<int>)
    requires ConnectionsOf(cs, newId) == []
    ensures ConnectionsOf(WithoutSimulation(cs, oldId) + Stamp(vehicles, newId), newId) ==
            Stamp(vehicles, newId)
  {
    ConnectionsOfConcat(WithoutSimulation(cs, oldId), Stamp(vehicles, newId), newId);
    ClearedConnections(cs, oldId, newId);
    ConnectionsOfStamp(vehicles, newId, newId);
  }

  /** When every connection belongs to a stored simulation, an id that is
      not stored has no connections. */
  lemma NoConnectionsOfMissing(cs: seq<Connection>, stored: set<int>, id: int)
    requires forall c :: c in cs ==> c.simulation in stored
    requires id !in stored
    ensures ConnectionsOf(cs, id) == []
  {
  }

  /** Clearing the connections of any id and appending connections of a
      stored simulation keeps every connection pointing at a stored
      simulation. */
  lemma ReplacementKeepsIntegrity(cs: seq<Connection>, stored: set<int>, cleared: int,
                                  id: int, vehicles: seq<int>)
    requires forall c :: c in cs ==> c.simulation in stored
    requires id in stored
    ensures forall c :: c in WithoutSimulation(cs, cleared) + Stamp(vehicles, id) ==>
              c.simulation in stored
  {
    forall c | c in WithoutSimulation(cs, cleared) + Stamp(vehicles, id)
      ensures c.simulation in stored
    {
      if c !in WithoutSimulation(cs, cleared) {
        var j :| 0 <= j < |vehicles| && Stamp(vehicles, id)[j] == c;
      }
    }
  }
}
