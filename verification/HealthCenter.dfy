/** The health centre: which nodes it keeps records and probe tasks for, how a rebuild moves from one
    input to the next, and what probes may write in between. */
module HealthCenter {
  import opened Iteration
  import opened Registry

  datatype UpstreamRow = UpstreamRow(id: int, enabled: bool)

  datatype NodeRow = NodeRow(id: int, url: string, path: string, interval: int, timeout: int, enabled: bool)

  datatype Relation = Relation(upstream: int, node: int, enabled: bool)

  datatype GraphInput = GraphInput(upstreams: seq<UpstreamRow>, nodes: seq<NodeRow>, relations: seq<Relation>)

  /** What identifies a probe task: any change of a parameter makes it another task. */
  datatype TaskKey = TaskKey(node: int, url: string, path: string, interval: int, timeout: int)

  type Members = map<int, TaskKey>

  function KeyOf(n: NodeRow): TaskKey { TaskKey(n.id, n.url, n.path, n.interval, n.timeout) }

  // ---- Which nodes an input asks for ----

  function EnabledUps(ups: seq<UpstreamRow>, k: nat): (r: set<int>)
    requires k <= |ups|
    ensures forall id :: id in r <==> exists i :: 0 <= i < k && ups[i].enabled && ups[i].id == id
  {
    if k == 0 then {}
    else EnabledUps(ups, k - 1) + (if ups[k - 1].enabled then {ups[k - 1].id} else {})
  }

  /** Row i is the last enabled one of this id among the first k. */
  predicate LastRow(nodes: seq<NodeRow>, k: nat, i: nat, id: int)
    requires i < k <= |nodes|
  {
    nodes[i].enabled && nodes[i].id == id && forall j :: i < j < k ==> !nodes[j].enabled || nodes[j].id != id
  }

  /** The enabled node rows by id; of several rows with one id the last stands. */
  function NodesById(nodes: seq<NodeRow>, k: nat): (r: map<int, NodeRow>)
    requires k <= |nodes|
    ensures forall id :: id in r <==> exists i :: 0 <= i < k && nodes[i].enabled && nodes[i].id == id
    ensures forall id :: id in r ==> r[id].id == id && r[id].enabled && r[id] in nodes[..k]
  {
    if k == 0 then map[]
    else
      var r := NodesById(nodes, k - 1);
      assert nodes[..k] == nodes[..k - 1] + [nodes[k - 1]];
      if nodes[k - 1].enabled then r[nodes[k - 1].id := nodes[k - 1]] else r
  }

  /** Row i is the node's last enabled one, and the task is for the row's url, path, interval and timeout. */
  predicate Asks(nodes: seq<NodeRow>, i: nat, id: int, key: TaskKey)
    requires i < |nodes|
  {
    && LastRow(nodes, |nodes|, i, id)
    && key == TaskKey(id, nodes[i].url, nodes[i].path, nodes[i].interval, nodes[i].timeout)
  }

  lemma {:induction false} RowIsLast(nodes: seq<NodeRow>, k: nat, id: int) returns (i: nat)
    requires k <= |nodes| && id in NodesById(nodes, k)
    ensures i < k && LastRow(nodes, k, i, id) && nodes[i] == NodesById(nodes, k)[id]
  {
    if nodes[k - 1].enabled && nodes[k - 1].id == id {
      i := k - 1;
    } else {
      i := RowIsLast(nodes, k - 1, id);
    }
  }

  predicate References(rel: Relation, ups: set<int>, id: int) {
    rel.enabled && rel.upstream in ups && rel.node == id
  }

  /** The members asked for by the first k relations: one key per referenced enabled node. */
  function Asked(rels: seq<Relation>, k: nat, ups: set<int>, byId: map<int, NodeRow>): Members
    requires k <= |rels|
  {
    if k == 0 then map[]
    else
      var r, rel := Asked(rels, k - 1, ups, byId), rels[k - 1];
      if rel.enabled && rel.upstream in ups && rel.node in byId then r[rel.node := KeyOf(byId[rel.node])] else r
  }

  lemma {:induction false} AskedMeans(rels: seq<Relation>, k: nat, ups: set<int>, byId: map<int, NodeRow>)
    requires k <= |rels|
    ensures var r := Asked(rels, k, ups, byId);
      && (forall id :: id in r <==> id in byId && exists i :: 0 <= i < k && References(rels[i], ups, id))
      && (forall id :: id in r ==> r[id] == KeyOf(byId[id]))
  {
    if k > 0 {
      AskedMeans(rels, k - 1, ups, byId);
      var rel := rels[k - 1];
      assert References(rel, ups, rel.node) <==> rel.enabled && rel.upstream in ups;
    }
  }

  /** The members an input asks for: a node is one exactly when it is enabled and some enabled relation of
      an enabled upstream refers to it. */
  function Wanted(g: GraphInput): (r: Members)
    ensures forall id :: id in r <==>
      (exists i :: 0 <= i < |g.nodes| && g.nodes[i].enabled && g.nodes[i].id == id)
      && exists i :: 0 <= i < |g.relations|
           && References(g.relations[i], EnabledUps(g.upstreams, |g.upstreams|), id)
    ensures forall id :: id in r ==> r[id].node == id
  {
    var ups, byId := EnabledUps(g.upstreams, |g.upstreams|), NodesById(g.nodes, |g.nodes|);
    AskedMeans(g.relations, |g.relations|, ups, byId);
    Asked(g.relations, |g.relations|, ups, byId)
  }

  /** What an input asks for, told from its rows: a node is asked for exactly when some enabled relation leads
      from an enabled upstream to it and it has an enabled row; and then with the url, path, interval and timeout
      of that row, the last one if there are several. */
  lemma WantedMeans(g: GraphInput, id: int)
    ensures id in Wanted(g) <==>
      && (exists i :: 0 <= i < |g.nodes| && g.nodes[i].enabled && g.nodes[i].id == id)
      && (exists r, u :: 0 <= r < |g.relations| && 0 <= u < |g.upstreams|
            && g.relations[r].enabled && g.relations[r].node == id
            && g.upstreams[u].enabled && g.upstreams[u].id == g.relations[r].upstream)
    ensures id in Wanted(g) ==> exists i :: 0 <= i < |g.nodes| && Asks(g.nodes, i, id, Wanted(g)[id])
  {
    var ups, byId := EnabledUps(g.upstreams, |g.upstreams|), NodesById(g.nodes, |g.nodes|);
    AskedMeans(g.relations, |g.relations|, ups, byId);
    if exists r, u :: 0 <= r < |g.relations| && 0 <= u < |g.upstreams|
         && g.relations[r].enabled && g.relations[r].node == id
         && g.upstreams[u].enabled && g.upstreams[u].id == g.relations[r].upstream {
      var r, u :| 0 <= r < |g.relations| && 0 <= u < |g.upstreams|
        && g.relations[r].enabled && g.relations[r].node == id
        && g.upstreams[u].enabled && g.upstreams[u].id == g.relations[r].upstream;
      assert References(g.relations[r], ups, id);
    }
    if id in Wanted(g) {
      var r :| 0 <= r < |g.relations| && References(g.relations[r], ups, id);
      var u :| 0 <= u < |g.upstreams| && g.upstreams[u].enabled && g.upstreams[u].id == g.relations[r].upstream;
      assert g.relations[r].enabled && g.relations[r].node == id;
      var i := RowIsLast(g.nodes, |g.nodes|, id);
      assert Asks(g.nodes, i, id, Wanted(g)[id]);
    }
  }

  // ---- The centre as a value ----

  datatype Center = Center(members: Members, tasks: set<TaskKey>, nodes: Records)

  /** Every member sits under its own id, and exactly the members with a probe path have a live task. */
  ghost predicate Consistent(c: Center) {
    && (forall id :: id in c.members ==> c.members[id].node == id)
    && (forall k :: k in c.tasks <==> k.node in c.members && c.members[k.node] == k && k.path != "")
  }

  /** The record of a node after a rebuild that finds key before (if any) and wants key after (if any). */
  function RecordAfter(m: Records, id: int, before: Members, after: Members): Records
  {
    if id !in after then (if id in before then m - {id} else m)
    else if id in before && before[id] == after[id] then m
    else if after[id].path == "" then m[id := Registered(m, id).(health := OK)]
    else m[id := Registered(m, id)]
  }

  /** c is what a rebuild to the wanted members makes of b: records of other nodes and of kept members are
      untouched, dropped ones are gone, new or changed ones are registered, path-less ones read OK. */
  ghost predicate RebuiltTo(b: Center, wanted: Members, c: Center) {
    && c.members == wanted
    && (forall k :: k in c.tasks <==> k.node in wanted && wanted[k.node] == k && k.path != "")
    && Registering(b, wanted, {}, c.nodes)
  }

  /** The record of a node when members in left have not been looked at for dropping. */
  function DroppedBut(b: Center, wanted: Members, left: set<int>, id: int): Records {
    if id in b.members && id !in left && id !in wanted then b.nodes - {id} else b.nodes
  }

  /** The record of a node when wanted members in left have not been registered. */
  function RebuiltBut(b: Center, wanted: Members, left: set<int>, id: int): Records {
    if id in left then b.nodes else RecordAfter(b.nodes, id, b.members, wanted)
  }

  ghost predicate Dropping(b: Center, wanted: Members, left: set<int>, nodes: Records) {
    forall id :: SameRecord(nodes, DroppedBut(b, wanted, left, id), id)
  }

  ghost predicate Registering(b: Center, wanted: Members, left: set<int>, nodes: Records) {
    forall id :: SameRecord(nodes, RebuiltBut(b, wanted, left, id), id)
  }

  lemma DropOne(b: Center, wanted: Members, left: set<int>, nodes: Records, id: int)
    requires Dropping(b, wanted, left, nodes) && id in left && id in b.members
    ensures Dropping(b, wanted, left - {id}, if id in wanted then nodes else nodes - {id})
  {
    var after := if id in wanted then nodes else nodes - {id};
    forall x
      ensures SameRecord(after, DroppedBut(b, wanted, left - {id}, x), x)
    {
      assert SameRecord(nodes, DroppedBut(b, wanted, left, x), x);
    }
  }

  lemma DroppedThenRegister(b: Center, wanted: Members, nodes: Records)
    requires Dropping(b, wanted, {}, nodes)
    ensures Registering(b, wanted, wanted.Keys, nodes)
  {
    forall x
      ensures SameRecord(nodes, RebuiltBut(b, wanted, wanted.Keys, x), x)
    {
      assert SameRecord(nodes, DroppedBut(b, wanted, {}, x), x);
    }
  }

  lemma RegisterOne(b: Center, wanted: Members, left: set<int>, nodes: Records, id: int)
    requires Registering(b, wanted, left, nodes) && id in left && id in wanted
    ensures Registering(b, wanted, left - {id}, RecordAfter(nodes, id, b.members, wanted))
  {
    var after := RecordAfter(nodes, id, b.members, wanted);
    forall x
      ensures SameRecord(after, RebuiltBut(b, wanted, left - {id}, x), x)
    {
      assert SameRecord(nodes, RebuiltBut(b, wanted, left, x), x);
    }
  }

  predicate SameRecord(m: Records, n: Records, id: int) {
    (id in m <==> id in n) && (id in m ==> m[id] == n[id])
  }

  method EnabledUpIds(ups: seq<UpstreamRow>) returns (r: set<int>)
    ensures r == EnabledUps(ups, |ups|)
  {
    r := {};
    for i := 0 to |ups|
      invariant r == EnabledUps(ups, i)
    {
      if ups[i].enabled {
        r := r + {ups[i].id};
      }
    }
  }

  method EnabledNodes(nodes: seq<NodeRow>) returns (r: map<int, NodeRow>)
    ensures r == NodesById(nodes, |nodes|)
  {
    r := map[];
    for i := 0 to |nodes|
      invariant r == NodesById(nodes, i)
    {
      if nodes[i].enabled {
        r := r[nodes[i].id := nodes[i]];
      }
    }
  }

  lemma SameEntry(m: Members, id: int, key: TaskKey)
    requires id in m && m[id] == key
    ensures m[id := key] == m
  {}

  /** The references of enabled upstreams to enabled nodes, each node once. */
  method TaskKeys(g: GraphInput) returns (keys: Members)
    ensures keys == Wanted(g)
  {
    var enabledUp := EnabledUpIds(g.upstreams);
    var nodeById := EnabledNodes(g.nodes);
    keys := map[];
    for i := 0 to |g.relations|
      invariant keys == Asked(g.relations, i, enabledUp, nodeById)
      invariant forall id :: id in keys ==> id in nodeById && keys[id] == KeyOf(nodeById[id])
    {
      var rel := g.relations[i];
      if !rel.enabled || rel.upstream !in enabledUp {
        continue;
      }
      if rel.node !in nodeById {
        continue;
      }
      if rel.node in keys {
        SameEntry(keys, rel.node, KeyOf(nodeById[rel.node]));
        continue;
      }
      keys := keys[rel.node := KeyOf(nodeById[rel.node])];
    }
  }

  class HealthCenterState {
    const reg: NodeRegistry
    var members: Members
    var tasks: set<TaskKey>

    constructor (reg: NodeRegistry)
      ensures this.reg == reg && members == map[] && tasks == {}
    {
      this.reg, members, tasks := reg, map[], {};
    }

    ghost function View(): Center
      reads this, reg
    {
      Center(members, tasks, reg.nodes)
    }

    /** First pass, in any order: stop and drop members no longer wanted, and stop changed tasks. */
    method DropStale(wanted: Members)
      requires Consistent(View())
      modifies this, reg
      ensures forall id :: id in members <==> KeptBy(old(members), wanted, id)
      ensures forall id :: id in members ==> id in old(members) && members[id] == old(members)[id]
      ensures forall k :: k in tasks <==> k in old(tasks) && k.node in members
      ensures Dropping(old(View()), wanted, {}, reg.nodes)
    {
      ghost var b := View();
      var left := members.Keys;
      while left != {}
        invariant left <= b.members.Keys
        invariant forall id :: id in members <==> id in b.members && (id in left || KeptBy(b.members, wanted, id))
        invariant forall id :: id in members ==> members[id] == b.members[id]
        invariant forall k :: k in tasks <==> k in b.tasks && k.node in members
        invariant Dropping(b, wanted, left, reg.nodes)
        decreases |left|
      {
        var id := AnyOf(left);
        DropOne(b, wanted, left, reg.nodes, id);
        left := left - {id};
        var key := members[id];
        if id !in wanted {
          tasks := tasks - {key};
          members := members - {id};
          reg.Remove(id);
        } else if wanted[id] != key {
          tasks := tasks - {key};
          members := members - {id};
        }
      }
    }

    /** Second pass, in any order: register what is wanted and not there, and start its task. */
    method AddNew(wanted: Members, ghost b: Center)
      requires forall id :: id in wanted ==> wanted[id].node == id
      requires forall id :: id in members <==> KeptBy(b.members, wanted, id)
      requires forall id :: id in members ==> id in b.members && members[id] == b.members[id]
      requires forall k :: k in tasks <==> k.node in members && members[k.node] == k && k.path != ""
      requires Dropping(b, wanted, {}, reg.nodes)
      modifies this, reg
      ensures RebuiltTo(b, wanted, View())
    {
      var left := wanted.Keys;
      DroppedThenRegister(b, wanted, reg.nodes);
      while left != {}
        invariant left <= wanted.Keys
        invariant forall id :: id in members <==> KeptBy(b.members, wanted, id) || (id in wanted && id !in left)
        invariant forall id :: id in members ==> members[id] == wanted[id]
        invariant forall k :: k in tasks <==> k.node in members && members[k.node] == k && k.path != ""
        invariant Registering(b, wanted, left, reg.nodes)
        decreases |left|
      {
        var id := AnyOf(left);
        ghost var was := reg.nodes;
        RegisterOne(b, wanted, left, was, id);
        left := left - {id};
        if id in members {
          continue;
        }
        var key := wanted[id];
        members := members[id := key];
        if key.path == "" {
          reg.SetHealth(id, OK);
        } else {
          reg.Ensure(id, Unknown);
          tasks := tasks + {key};
        }
      }
      SameMembers(members, wanted);
    }

    /** Move to the members the input asks for, visiting both maps in any order whatever. */
    method Rebuild(g: GraphInput)
      requires Consistent(View())
      modifies this, reg
      ensures RebuiltTo(old(View()), Wanted(g), View())
      ensures Consistent(View())
    {
      var taskKeys := TaskKeys(g);
      ghost var b := View();
      DropStale(taskKeys);
      AddNew(taskKeys, b);
    }

    /** A probe's conclusion writes its own node's health and nothing else. */
    method Probe(key: TaskKey, ok: bool)
      modifies reg
      ensures reg.nodes == old(reg.nodes)[key.node :=
        Registered(old(reg.nodes), key.node).(health := if ok then OK else Bad)]
    {
      reg.SetHealth(key.node, if ok then OK else Bad);
    }
  }

  /** A rebuild leaves alone the record of every member whose parameters did not change, health and
      in-flight count alike, and clears the record of every member it drops. */
  lemma RebuildOnRecords(b: Center, wanted: Members, c: Center, id: int)
    requires RebuiltTo(b, wanted, c)
    ensures KeptBy(b.members, wanted, id) ==> SameRecord(c.nodes, b.nodes, id)
    ensures id in b.members && id !in wanted ==> id !in c.nodes
    ensures id in wanted ==> InflightIn(c.nodes, id) == InflightIn(b.nodes, id)
    ensures id in wanted && !KeptBy(b.members, wanted, id) ==>
      id in c.nodes && HealthIn(c.nodes, id) == if wanted[id].path == "" then OK else HealthIn(b.nodes, id)
    ensures id !in wanted && id !in b.members ==> SameRecord(c.nodes, b.nodes, id)
  {
    assert SameRecord(c.nodes, RebuiltBut(b, wanted, {}, id), id);
  }

  lemma SameMembers(m: Members, n: Members)
    requires forall id :: id in m <==> id in n
    requires forall id :: id in m ==> m[id] == n[id]
    ensures m == n
  {
    forall id
      ensures (id in m <==> id in n) && (id in m ==> m[id] == n[id])
    {}
  }

  predicate KeptBy(before: Members, after: Members, id: int) {
    id in before && id in after && before[id] == after[id]
  }
}
