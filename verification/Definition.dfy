// Workflow definitions: structural validation and Kahn's topological order.
module Definition {
  import opened Wrappers
  import opened Text
  import opened Graph
  import opened Aggregates

  datatype NodeType = Source | Transform | Filter | Join | Aggregate | Output | Unknown(name: string)

  datatype AggregateConfig = AggregateConfig(groupBy: seq<string>, aggregations: seq<Agg>)

  datatype JoinKeys = JoinKeys(leftKey: string, rightKey: string)

  // A node's raw JSON, given by what decoding it into each node type's settings
  // yields; None where json.Unmarshal fails.
  datatype Config = Config(filter: Option<string>, aggregate: Option<AggregateConfig>, join: Option<JoinKeys>)

  datatype Node = Node(id: string, nodeType: NodeType, config: Config)

  datatype Edge = Edge(id: string, source: string, target: string, targetHandle: string)

  datatype Definition = Definition(nodes: seq<Node>, edges: seq<Edge>)

  const MAX_NODES := 200
  const MAX_EDGES := 500

  function Ids(nodes: seq<Node>): (ids: seq<string>)
    ensures |ids| == |nodes|
    ensures forall i :: 0 <= i < |nodes| ==> ids[i] == nodes[i].id
  {
    seq(|nodes|, i requires 0 <= i < |nodes| => nodes[i].id)
  }

  function IdSet(d: Definition): set<string> {
    set n | n in d.nodes :: n.id
  }

  // The targets of u's edges, in the order the edges are listed.
  function Targets(edges: seq<Edge>, u: string): seq<string> {
    if edges == [] then []
    else Targets(edges[..|edges| - 1], u) + if edges[|edges| - 1].source == u then [edges[|edges| - 1].target] else []
  }

  function Adjacency(edges: seq<Edge>): Dag {
    map u | u in (set e | e in edges :: e.source) :: Targets(edges, u)
  }

  // The graph of a definition.
  function DagOf(d: Definition): Dag {
    Adjacency(d.edges)
  }

  ghost predicate UniqueIds(d: Definition) {
    Distinct(Ids(d.nodes))
  }

  ghost predicate NoDanglingEdges(d: Definition) {
    forall e :: e in d.edges ==> e.source in IdSet(d) && e.target in IdSet(d)
  }

  ghost predicate WellFormed(d: Definition) {
    UniqueIds(d) && NoDanglingEdges(d)
  }

  lemma {:induction false} TargetsAreEdges(edges: seq<Edge>, u: string, v: string)
    ensures v in Targets(edges, u) <==> exists e :: e in edges && e.source == u && e.target == v
  {
    if edges != [] {
      var last := edges[|edges| - 1];
      TargetsAreEdges(edges[..|edges| - 1], u, v);
      assert edges == edges[..|edges| - 1] + [last];
    }
  }

  lemma ConnectsIsEdge(d: Definition, u: string, v: string)
    ensures Connects(DagOf(d), u, v) <==> exists e :: e in d.edges && e.source == u && e.target == v
  {
    TargetsAreEdges(d.edges, u, v);
  }

  // buildDAG
  method BuildDag(d: Definition) returns (dag: Dag)
    ensures dag == DagOf(d)
  {
    dag := map[];
    for i := 0 to |d.edges|
      invariant dag == Adjacency(d.edges[..i])
    {
      var edge := d.edges[i];
      AdjacencyGrows(d.edges[..i], edge);
      assert d.edges[..i + 1] == d.edges[..i] + [edge];
      dag := dag[edge.source := Succ(dag, edge.source) + [edge.target]];
    }
    assert d.edges[..|d.edges|] == d.edges;
  }

  lemma SourcesGrow(edges: seq<Edge>, e: Edge)
    ensures Adjacency(edges + [e]).Keys == Adjacency(edges).Keys + {e.source}
  {
    assert forall x :: x in edges + [e] <==> x in edges || x == e;
  }

  lemma TargetsSnoc(edges: seq<Edge>, e: Edge, u: string)
    ensures Targets(edges + [e], u) == if u == e.source then Targets(edges, u) + [e.target] else Targets(edges, u)
  {
    assert (edges + [e])[..|edges|] == edges;
    assert Targets(edges, u) + [] == Targets(edges, u);
  }

  lemma AdjacencyGrows(edges: seq<Edge>, e: Edge)
    ensures Adjacency(edges + [e]) == Adjacency(edges)[e.source := Succ(Adjacency(edges), e.source) + [e.target]]
  {
    SourcesGrow(edges, e);
    forall u | u in Adjacency(edges + [e])
      ensures Adjacency(edges + [e])[u]
           == Adjacency(edges)[e.source := Succ(Adjacency(edges), e.source) + [e.target]][u] {
      TargetsSnoc(edges, e, u);
      if u !in Adjacency(edges) {
        NoSourceNoTargets(edges, u);
      }
    }
  }

  lemma {:induction false} NoSourceNoTargets(edges: seq<Edge>, u: string)
    requires forall e :: e in edges ==> e.source != u
    ensures Targets(edges, u) == []
  {
    if edges != [] {
      NoSourceNoTargets(edges[..|edges| - 1], u);
    }
  }

  // ---- Kahn's algorithm ----

  // How often v occurs in s.
  function Count(s: seq<string>, v: string): nat {
    if s == [] then 0 else Count(s[..|s| - 1], v) + if s[|s| - 1] == v then 1 else 0
  }

  lemma {:induction false} CountSplits(s: seq<string>, t: seq<string>, v: string)
    ensures Count(s + t, v) == Count(s, v) + Count(t, v)
  {
    if t == [] {
      assert s + t == s;
    } else {
      CountSplits(s, t[..|t| - 1], v);
      assert (s + t)[..|s + t| - 1] == s + t[..|t| - 1];
    }
  }

  lemma {:induction false} CountIsMembership(s: seq<string>, v: string)
    ensures Count(s, v) > 0 <==> v in s
  {
    if s != [] {
      CountIsMembership(s[..|s| - 1], v);
      assert s == s[..|s| - 1] + [s[|s| - 1]];
    }
  }

  // Edges into v whose source is not done yet.
  ghost function Pending(edges: seq<Edge>, v: string, done: set<string>): nat {
    if edges == [] then 0
    else
      var last := edges[|edges| - 1];
      Pending(edges[..|edges| - 1], v, done) + if last.target == v && last.source !in done then 1 else 0
  }

  lemma {:induction false} PendingWhenDone(edges: seq<Edge>, v: string, done: set<string>, u: string)
    requires u !in done
    ensures Pending(edges, v, done) == Pending(edges, v, done + {u}) + Count(Targets(edges, u), v)
  {
    if edges != [] {
      var last := edges[|edges| - 1];
      PendingWhenDone(edges[..|edges| - 1], v, done, u);
      CountSplits(Targets(edges[..|edges| - 1], u), if last.source == u then [last.target] else [], v);
    }
  }

  lemma {:induction false} PendingEdge(edges: seq<Edge>, v: string, done: set<string>)
    ensures Pending(edges, v, done) > 0 <==> exists e :: e in edges && e.target == v && e.source !in done
  {
    if edges != [] {
      PendingEdge(edges[..|edges| - 1], v, done);
      assert edges == edges[..|edges| - 1] + [edges[|edges| - 1]];
    }
  }

  // Every edge goes from an earlier to a later position, and each node is listed once.
  ghost predicate TopologicallySorted(d: Definition, order: seq<string>) {
    && Distinct(order)
    && SetOf(order) == IdSet(d)
    && forall e :: e in d.edges ==> Before(order, e.source, e.target)
  }

  function At(m: map<string, int>, k: string): int {
    if k in m then m[k] else 0
  }

  ghost function Positive(m: map<string, int>): set<string> {
    set k | k in m && m[k] > 0
  }

  // The state of Kahn's loop: what is out, what waits, and what still blocks each
  // node; rest are the targets of the last node out that are not handled yet.
  ghost predicate KahnInvariant(d: Definition, order: seq<string>, queue: seq<string>,
                                indegree: map<string, int>, rest: seq<string>) {
    && Distinct(order + queue)
    && indegree.Keys == IdSet(d)
    && (forall v :: v in rest ==> v in indegree)
    && (forall v :: v in indegree ==> indegree[v] == Pending(d.edges, v, SetOf(order)) + Count(rest, v))
    && (forall v :: v in order + queue <==> v in indegree && indegree[v] == 0)
    && (forall e, k :: e in d.edges && 0 <= k < |order + queue| && (order + queue)[k] == e.target ==>
          OutBefore(order, e.source, k))
  }

  ghost predicate OutBefore(order: seq<string>, u: string, k: nat) {
    exists j :: 0 <= j < k && j < |order| && order[j] == u
  }

  lemma KahnStart(d: Definition, queue: seq<string>, indegree: map<string, int>)
    requires WellFormed(d)
    requires Distinct(queue) && indegree.Keys == IdSet(d)
    requires forall v :: v in indegree ==> indegree[v] == Pending(d.edges, v, {})
    requires forall v :: v in queue <==> v in indegree && indegree[v] == 0
    ensures KahnInvariant(d, [], queue, indegree, [])
  {
    assert [] + queue == queue && SetOf<string>([]) == {};
    forall e | e in d.edges ensures e.target !in queue {
      PendingEdge(d.edges, e.target, {});
    }
  }

  lemma KahnPop(d: Definition, order: seq<string>, queue: seq<string>, indegree: map<string, int>)
    requires WellFormed(d) && |queue| > 0 && KahnInvariant(d, order, queue, indegree, [])
    ensures KahnInvariant(d, order + [queue[0]], queue[1..], indegree, Targets(d.edges, queue[0]))
  {
    var id := queue[0];
    assert order + [id] + queue[1..] == order + queue;
    assert SetOf(order + [id]) == SetOf(order) + {id};
    forall v | v in Targets(d.edges, id) ensures v in indegree {
      TargetsAreEdges(d.edges, id, v);
    }
    forall i | 0 <= i < |order| ensures order[i] != id {
      assert (order + queue)[i] == order[i] && (order + queue)[|order|] == id;
    }
    forall v | v in indegree
      ensures indegree[v] == Pending(d.edges, v, SetOf(order + [id])) + Count(Targets(d.edges, id), v)
    {
      PendingWhenDone(d.edges, v, SetOf(order), id);
    }
    forall e, k | e in d.edges && 0 <= k < |order + queue| && (order + queue)[k] == e.target
      ensures OutBefore(order + [id], e.source, k)
    {
      assert OutBefore(order, e.source, k);
      var j :| 0 <= j < k && j < |order| && order[j] == e.source;
      assert (order + [id])[j] == e.source;
    }
  }

  lemma KahnRelax(d: Definition, order: seq<string>, queue: seq<string>, indegree: map<string, int>,
                  next: string, rest: seq<string>)
    requires KahnInvariant(d, order, queue, indegree, [next] + rest)
    requires next in indegree
    ensures var indegree' := indegree[next := indegree[next] - 1];
            KahnInvariant(d, order, if indegree'[next] == 0 then queue + [next] else queue, indegree', rest)
  {
    var indegree' := indegree[next := indegree[next] - 1];
    forall v | v in indegree ensures indegree'[v] == Pending(d.edges, v, SetOf(order)) + Count(rest, v) {
      CountSplits([next], rest, v);
      assert Count([next], v) == if v == next then 1 else 0;
    }
    CountSplits([next], rest, next);
    assert indegree[next] > 0;
    if indegree'[next] == 0 {
      var queue' := queue + [next];
      assert order + queue' == (order + queue) + [next];
      assert next !in order + queue;
      forall e, k | e in d.edges && 0 <= k < |order + queue'| && (order + queue')[k] == e.target
        ensures OutBefore(order, e.source, k)
      {
        if k == |order + queue| {
          PendingEdge(d.edges, next, SetOf(order));
          assert e.source in order;
        } else {
          assert (order + queue)[k] == e.target;
        }
      }
    }
  }

  lemma KahnComplete(d: Definition, order: seq<string>, indegree: map<string, int>)
    requires WellFormed(d) && KahnInvariant(d, order, [], indegree, [])
    requires |order| == |d.nodes|
    ensures TopologicallySorted(d, order) && Acyclic(DagOf(d))
  {
    assert order + [] == order;
    DistinctCardinality(order);
    DistinctCardinality(Ids(d.nodes));
    IdsAreIdSet(d);
    SameSize(SetOf(order), IdSet(d));
    forall e | e in d.edges ensures Before(order, e.source, e.target) {
      assert e.target in order;
      var k :| 0 <= k < |order| && order[k] == e.target;
      assert OutBefore(order, e.source, k);
    }
    SortedIsAcyclic(d, order);
  }

  lemma SortedIsAcyclic(d: Definition, order: seq<string>)
    requires TopologicallySorted(d, order)
    ensures Acyclic(DagOf(d))
  {
    forall u, v | Connects(DagOf(d), u, v) ensures Before(order, u, v) {
      ConnectsIsEdge(d, u, v);
    }
    ForwardEdgesAreAcyclic(DagOf(d), order);
  }

  lemma KahnStuck(d: Definition, order: seq<string>, indegree: map<string, int>)
    requires WellFormed(d) && KahnInvariant(d, order, [], indegree, [])
    requires |order| != |d.nodes|
    ensures exists p :: IsCycle(DagOf(d), p)
  {
    assert order + [] == order;
    DistinctCardinality(order);
    DistinctCardinality(Ids(d.nodes));
    IdsAreIdSet(d);
    var stuck := IdSet(d) - SetOf(order);
    assert SetOf(order) <= IdSet(d);
    assert |SetOf(order)| != |IdSet(d)|;
    SubsetIsSmaller(SetOf(order), IdSet(d));
    if IdSet(d) <= SetOf(order) {
      SubsetIsSmaller(IdSet(d), SetOf(order));
    }
    var open :| open in IdSet(d) && open !in SetOf(order);
    assert open in stuck;
    forall v {:trigger HasPredecessor(DagOf(d), stuck, v)} | v in stuck
      ensures HasPredecessor(DagOf(d), stuck, v)
    {
      assert indegree[v] != 0;
      PendingEdge(d.edges, v, SetOf(order));
      var e :| e in d.edges && e.target == v && e.source !in SetOf(order);
      ConnectsIsEdge(d, e.source, v);
      assert e.source in stuck && Connects(DagOf(d), e.source, v);
    }
    StuckSetHasCycle(DagOf(d), stuck);
  }

  lemma IdsAreIdSet(d: Definition)
    ensures SetOf(Ids(d.nodes)) == IdSet(d)
  {
    forall x | x in IdSet(d) ensures x in Ids(d.nodes) {
      var n :| n in d.nodes && n.id == x;
      var i :| 0 <= i < |d.nodes| && d.nodes[i] == n;
      assert Ids(d.nodes)[i] == x;
    }
  }

  lemma SameSize<T>(a: set<T>, b: set<T>)
    requires a <= b && |a| == |b|
    ensures a == b
  {
    forall x | x in b ensures x in a {
      if x !in a {
        SubsetIsSmaller(a, b - {x});
      }
    }
  }

  // The first loop of TopologicalOrder: every node starts with no incoming edge.
  method NoneIncoming(nodes: seq<Node>) returns (indegree: map<string, int>)
    ensures indegree.Keys == set n | n in nodes :: n.id
    ensures forall v :: v in indegree ==> indegree[v] == 0
  {
    indegree := map[];
    for i := 0 to |nodes|
      invariant indegree.Keys == set n | n in nodes[..i] :: n.id
      invariant forall v :: v in indegree ==> indegree[v] == 0
    {
      indegree := indegree[nodes[i].id := 0];
      assert nodes[..i + 1] == nodes[..i] + [nodes[i]];
    }
    assert nodes[..|nodes|] == nodes;
  }

  // Every counter is the number of edges into its node.
  ghost predicate CountsEdges(indegree: map<string, int>, edges: seq<Edge>) {
    forall v :: At(indegree, v) == Pending(edges, v, {})
  }

  lemma CountOneMore(indegree: map<string, int>, edges: seq<Edge>, e: Edge)
    requires CountsEdges(indegree, edges)
    ensures CountsEdges(indegree[e.target := At(indegree, e.target) + 1], edges + [e])
  {
    assert (edges + [e])[..|edges|] == edges;
    forall v ensures At(indegree[e.target := At(indegree, e.target) + 1], v) == Pending(edges + [e], v, {}) {
      assert At(indegree, v) == Pending(edges, v, {});
    }
  }

  // The second loop: indegrees, and the targets of every node.
  method Incoming(d: Definition) returns (indegree: map<string, int>, adjacency: Dag)
    ensures adjacency == DagOf(d)
    ensures indegree.Keys == IdSet(d) + set e | e in d.edges :: e.target
    ensures forall v :: v in indegree ==> indegree[v] == Pending(d.edges, v, {})
  {
    indegree := NoneIncoming(d.nodes);
    adjacency := map[];
    for i := 0 to |d.edges|
      invariant adjacency == Adjacency(d.edges[..i])
      invariant indegree.Keys == IdSet(d) + TargetsOf(d.edges[..i])
      invariant CountsEdges(indegree, d.edges[..i])
    {
      var edge := d.edges[i];
      PrefixStep(d.edges, i);
      AdjacencyGrows(d.edges[..i], edge);
      CountOneMore(indegree, d.edges[..i], edge);
      TargetsGrow(d.edges[..i], edge);
      adjacency := adjacency[edge.source := Succ(adjacency, edge.source) + [edge.target]];
      indegree := indegree[edge.target := At(indegree, edge.target) + 1];
    }
    assert d.edges[..|d.edges|] == d.edges;
    forall v | v in indegree ensures indegree[v] == Pending(d.edges, v, {}) {
      assert At(indegree, v) == Pending(d.edges, v, {});
    }
  }

  function TargetsOf(edges: seq<Edge>): set<string> {
    set e | e in edges :: e.target
  }

  lemma TargetsGrow(edges: seq<Edge>, e: Edge)
    ensures TargetsOf(edges + [e]) == TargetsOf(edges) + {e.target}
  {
    assert forall x :: x in edges + [e] <==> x in edges || x == e;
  }

  // The nodes nothing blocks, in definition order.
  method Unblocked(d: Definition, indegree: map<string, int>) returns (queue: seq<string>)
    ensures forall v :: v in queue <==> v in IdSet(d) && At(indegree, v) == 0
    ensures UniqueIds(d) ==> Distinct(queue)
  {
    queue := [];
    for i := 0 to |d.nodes|
      invariant forall v :: v in queue <==> v in Ids(d.nodes)[..i] && At(indegree, v) == 0
      invariant UniqueIds(d) ==> Distinct(queue)
    {
      assert Ids(d.nodes)[..i + 1] == Ids(d.nodes)[..i] + [d.nodes[i].id];
      if At(indegree, d.nodes[i].id) == 0 {
        queue := queue + [d.nodes[i].id];
      }
    }
    assert Ids(d.nodes)[..|d.nodes|] == Ids(d.nodes);
    IdsAreIdSet(d);
    assert forall v :: v in Ids(d.nodes) <==> v in SetOf(Ids(d.nodes));
  }

  // The inner loop: the node just taken out no longer blocks its targets. No step
  // raises the work left, since a node is queued only when its indegree stops being
  // positive.
  method Release(d: Definition, ghost order: seq<string>, queue0: seq<string>, indegree0: map<string, int>,
                 targets: seq<string>)
    returns (queue: seq<string>, indegree: map<string, int>)
    requires WellFormed(d) ==> KahnInvariant(d, order, queue0, indegree0, targets)
    ensures WellFormed(d) ==> KahnInvariant(d, order, queue, indegree, [])
    ensures WorkLeft(indegree, queue) <= WorkLeft(indegree0, queue0)
  {
    queue, indegree := queue0, indegree0;
    assert targets[0..] == targets;
    for k := 0 to |targets|
      invariant WellFormed(d) ==> KahnInvariant(d, order, queue, indegree, targets[k..])
      invariant WorkLeft(indegree, queue) <= WorkLeft(indegree0, queue0)
    {
      var next := targets[k];
      ghost var rest := targets[k + 1..];
      assert targets[k..] == [next] + rest;
      KahnStep(d, order, queue, indegree, next, rest);
      indegree := indegree[next := At(indegree, next) - 1];
      if At(indegree, next) == 0 {
        queue := queue + [next];
      }
    }
    assert targets[|targets|..] == [];
  }

  ghost function WorkLeft(indegree: map<string, int>, queue: seq<string>): nat {
    |Positive(indegree)| + |queue|
  }

  lemma KahnStep(d: Definition, order: seq<string>, queue: seq<string>, indegree: map<string, int>,
                 next: string, rest: seq<string>)
    requires WellFormed(d) ==> KahnInvariant(d, order, queue, indegree, [next] + rest)
    ensures var indegree' := indegree[next := At(indegree, next) - 1];
            var queue' := if At(indegree', next) == 0 then queue + [next] else queue;
            && (WellFormed(d) ==> KahnInvariant(d, order, queue', indegree', rest))
            && WorkLeft(indegree', queue') <= WorkLeft(indegree, queue)
  {
    var indegree' := indegree[next := At(indegree, next) - 1];
    if WellFormed(d) {
      assert next in [next] + rest;
      KahnRelax(d, order, queue, indegree, next, rest);
    }
    SubsetIsSmaller(Positive(indegree'), Positive(indegree));
    if At(indegree', next) == 0 {
      assert Positive(indegree') == Positive(indegree) - {next} && next in Positive(indegree);
    }
  }

  // Total on every definition: each push turns a positive indegree into zero, so the
  // loop stops even when ids repeat or edges dangle.
  method TopologicalOrder(d: Definition) returns (r: Result<seq<string>, ValidationError>)
    ensures WellFormed(d) ==> (r.Ok? <==> Acyclic(DagOf(d)))
    ensures WellFormed(d) && r.Ok? ==> TopologicallySorted(d, r.value)
    ensures WellFormed(d) && r.Err? ==> exists p :: IsCycle(DagOf(d), p)
    ensures r.Err? ==> r.error == Cycle
  {
    var indegree, adjacency := Incoming(d);
    var queue := Unblocked(d, indegree);
    if WellFormed(d) { KahnStart(d, queue, indegree); }
    var order: seq<string> := [];
    while |queue| > 0
      invariant WellFormed(d) ==> KahnInvariant(d, order, queue, indegree, [])
      decreases WorkLeft(indegree, queue)
    {
      if WellFormed(d) { KahnPop(d, order, queue, indegree); }
      var id := queue[0];
      queue := queue[1..];
      order := order + [id];
      var targets := Succ(adjacency, id);
      if id !in adjacency { NoSourceNoTargets(d.edges, id); }
      queue, indegree := Release(d, order, queue, indegree, targets);
    }

    if |order| != |d.nodes| {
      if WellFormed(d) {
        KahnStuck(d, order, indegree);
      }
      return Err(Cycle);
    }
    if WellFormed(d) { KahnComplete(d, order, indegree); }
    return Ok(order);
  }

  // ---- Validation ----

  datatype ValidationError =
    | TooManyNodes(count: nat)
    | TooManyEdges(count: nat)
    | MissingId
    | DuplicateId(id: string)
    | UnknownType(id: string, name: string)
    | UnknownSource(edgeId: string, source: string)
    | UnknownTarget(edgeId: string, target: string)
    | Cycle

  ghost predicate Valid(d: Definition) {
    && |d.nodes| <= MAX_NODES
    && |d.edges| <= MAX_EDGES
    && (forall n :: n in d.nodes ==> NodeIsGood(n))
    && WellFormed(d)
    && Acyclic(DagOf(d))
  }

  // What each reported error says is really wrong with the definition.
  ghost predicate Explains(d: Definition, e: ValidationError) {
    match e
    case TooManyNodes(count) => count == |d.nodes| > MAX_NODES
    case TooManyEdges(count) => count == |d.edges| > MAX_EDGES
    case MissingId => "" in IdSet(d)
    case DuplicateId(id) => exists i, j :: 0 <= i < j < |d.nodes| && d.nodes[i].id == id && d.nodes[j].id == id
    case UnknownType(id, name) => exists n :: n in d.nodes && n.id == id && n.nodeType == Unknown(name)
    case UnknownSource(edgeId, source) =>
      source !in IdSet(d) && exists e :: e in d.edges && e.id == edgeId && e.source == source
    case UnknownTarget(edgeId, target) =>
      target !in IdSet(d) && exists e :: e in d.edges && e.id == edgeId && e.target == target
    case Cycle => exists p :: IsCycle(DagOf(d), p)
  }

  ghost predicate NodeIsGood(n: Node) {
    n.id != "" && !n.nodeType.Unknown?
  }

  // What the loop over the nodes can find.
  ghost predicate ExplainsNodes(nodes: seq<Node>, e: ValidationError) {
    match e
    case MissingId => exists n :: n in nodes && n.id == ""
    case DuplicateId(id) => exists i, j :: 0 <= i < j < |nodes| && nodes[i].id == id && nodes[j].id == id
    case UnknownType(id, name) => exists n :: n in nodes && n.id == id && n.nodeType == Unknown(name)
    case _ => false
  }

  lemma SeenTwice(nodes: seq<Node>, i: nat)
    requires i < |nodes| && nodes[i].id in set n | n in nodes[..i] :: n.id
    ensures !Distinct(Ids(nodes)) && ExplainsNodes(nodes, DuplicateId(nodes[i].id))
  {
    var m :| m in nodes[..i] && m.id == nodes[i].id;
    var j :| 0 <= j < i && nodes[j] == m;
    assert Ids(nodes)[j] == Ids(nodes)[i];
  }

  lemma SeenOnce(nodes: seq<Node>, n: Node)
    requires Distinct(Ids(nodes)) && n.id !in set m | m in nodes :: m.id
    ensures Distinct(Ids(nodes + [n]))
    ensures (set m | m in nodes + [n] :: m.id) == (set m | m in nodes :: m.id) + {n.id}
  {
    assert forall m :: m in nodes + [n] <==> m in nodes || m == n;
    assert Ids(nodes + [n]) == Ids(nodes) + [n.id];
    forall i | 0 <= i < |nodes| ensures Ids(nodes)[i] != n.id {
      assert nodes[i] in nodes;
    }
  }

  // The loop over the nodes.
  method CheckNodes(nodes: seq<Node>) returns (ids: set<string>, err: Option<ValidationError>)
    ensures err.None? <==> Distinct(Ids(nodes)) && forall n :: n in nodes ==> NodeIsGood(n)
    ensures err.None? ==> ids == set n | n in nodes :: n.id
    ensures err.Some? ==> ExplainsNodes(nodes, err.value)
  {
    ids := {};
    for i := 0 to |nodes|
      invariant ids == set n | n in nodes[..i] :: n.id
      invariant forall j :: 0 <= j < i ==> NodeIsGood(nodes[j])
      invariant Distinct(Ids(nodes[..i]))
    {
      var n := nodes[i];
      assert n in nodes;
      if n.id == "" {
        return ids, Some(MissingId);
      }
      if n.id in ids {
        SeenTwice(nodes, i);
        return ids, Some(DuplicateId(n.id));
      }
      PrefixStep(nodes, i);
      SeenOnce(nodes[..i], n);
      ids := ids + {n.id};
      if n.nodeType.Unknown? {
        return ids, Some(UnknownType(n.id, n.nodeType.name));
      }
    }
    assert nodes[..|nodes|] == nodes;
    return ids, None;
  }

  // What the loop over the edges can find.
  ghost predicate ExplainsEdges(edges: seq<Edge>, ids: set<string>, e: ValidationError) {
    match e
    case UnknownSource(edgeId, source) =>
      source !in ids && exists e :: e in edges && e.id == edgeId && e.source == source
    case UnknownTarget(edgeId, target) =>
      target !in ids && exists e :: e in edges && e.id == edgeId && e.target == target
    case _ => false
  }

  // The loop over the edges.
  method CheckEdges(edges: seq<Edge>, ids: set<string>) returns (err: Option<ValidationError>)
    ensures err.None? <==> forall e :: e in edges ==> e.source in ids && e.target in ids
    ensures err.Some? ==> ExplainsEdges(edges, ids, err.value)
  {
    for i := 0 to |edges|
      invariant forall j :: 0 <= j < i ==> edges[j].source in ids && edges[j].target in ids
    {
      var e := edges[i];
      if e.source !in ids {
        return Some(UnknownSource(e.id, e.source));
      }
      if e.target !in ids {
        return Some(UnknownTarget(e.id, e.target));
      }
    }
    return None;
  }

  lemma NodeErrorExplains(d: Definition, e: ValidationError)
    requires ExplainsNodes(d.nodes, e)
    ensures Explains(d, e)
  {
  }

  lemma EdgeErrorExplains(d: Definition, e: ValidationError)
    requires ExplainsEdges(d.edges, IdSet(d), e)
    ensures Explains(d, e)
  {
  }

  method Validate(d: Definition) returns (r: Result<(), ValidationError>)
    ensures r.Ok? <==> Valid(d)
    ensures r.Err? ==> Explains(d, r.error)
  {
    if |d.nodes| > MAX_NODES {
      return Err(TooManyNodes(|d.nodes|));
    }
    if |d.edges| > MAX_EDGES {
      return Err(TooManyEdges(|d.edges|));
    }
    var ids, err := CheckNodes(d.nodes);
    if err.Some? {
      NodeErrorExplains(d, err.value);
      return Err(err.value);
    }
    err := CheckEdges(d.edges, ids);
    if err.Some? {
      EdgeErrorExplains(d, err.value);
      return Err(err.value);
    }
    var order := TopologicalOrder(d);
    if order.Err? {
      return Err(order.error);
    }
    return Ok(());
  }
}
