/** The node registry: health and in-flight count per node id, between the health centre that writes
    health and the selection that reads it. */
module Registry {

  datatype Health = Unknown | OK | Bad

  datatype Record = Record(health: Health, inflight: int)

  type Records = map<int, Record>

  /** Unregistered nodes read as unknown and idle. */
  function HealthIn(m: Records, id: int): Health { if id in m then m[id].health else Unknown }

  function InflightIn(m: Records, id: int): int { if id in m then m[id].inflight else 0 }

  /** Counts never go below zero. */
  ghost predicate NonNegative(m: Records) {
    forall id :: id in m ==> m[id].inflight >= 0
  }

  function Registered(m: Records, id: int): Record {
    if id in m then m[id] else Record(Unknown, 0)
  }

  class NodeRegistry {
    var nodes: Records

    constructor ()
      ensures nodes == map[]
    {
      nodes := map[];
    }

    /** Register a node; a health conclusion already reached is kept. */
    method Ensure(id: int, init: Health)
      modifies this
      ensures nodes == old(nodes)[id :=
        if HealthIn(old(nodes), id) == Unknown then Registered(old(nodes), id).(health := init)
        else Registered(old(nodes), id)]
    {
      if id !in nodes {
        nodes := nodes[id := Record(Unknown, 0)];
      }
      if nodes[id].health == Unknown {
        nodes := nodes[id := nodes[id].(health := init)];
      }
    }

    method SetHealth(id: int, h: Health)
      modifies this
      ensures nodes == old(nodes)[id := Registered(old(nodes), id).(health := h)]
    {
      if id !in nodes {
        nodes := nodes[id := Record(Unknown, 0)];
      }
      nodes := nodes[id := nodes[id].(health := h)];
    }

    method Remove(id: int)
      modifies this
      ensures nodes == old(nodes) - {id}
    {
      nodes := nodes - {id};
    }

    /** A selection counts at once, registering the node if need be. */
    method IncInflight(id: int)
      modifies this
      ensures nodes == old(nodes)[id :=
        Registered(old(nodes), id).(inflight := InflightIn(old(nodes), id) + 1)]
      ensures old(NonNegative(nodes)) ==> NonNegative(nodes)
    {
      if id !in nodes {
        nodes := nodes[id := Record(Unknown, 0)];
      }
      nodes := nodes[id := nodes[id].(inflight := nodes[id].inflight + 1)];
    }

    /** A finished request counts down, never below zero and never on a missing record. */
    method DecInflight(id: int)
      modifies this
      ensures nodes == if InflightIn(old(nodes), id) > 0
        then old(nodes)[id := old(nodes)[id].(inflight := old(nodes)[id].inflight - 1)] else old(nodes)
      ensures old(NonNegative(nodes)) ==> NonNegative(nodes)
    {
      if id !in nodes {
        return;
      }
      if nodes[id].inflight > 0 {
        nodes := nodes[id := nodes[id].(inflight := nodes[id].inflight - 1)];
      }
    }
  }
}
