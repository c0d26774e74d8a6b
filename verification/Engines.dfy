// Running a workflow: every node in dependency order, on its upstreams' outputs.
module Engines {
  import opened Wrappers
  import opened Text
  import opened Graph
  import opened Definition
  import opened Projection
  import opened Frames

  type GoodTable = t: Table | ValidTable(t) witness EmptyTable([], map[])

  // What a node's executor does: yield a frame of its own, hand on the input wired
  // under a key (as the output node does), or fail.
  datatype Outcome = Produced(t: GoodTable) | Passed(key: string) | Failed

  // Executors as functions of the node, its inputs and the projection hint.
  type Executor = (Node, map<string, Table>, Option<seq<string>>) -> Outcome

  datatype Setup = Setup(d: Definition, exec: Executor, registry: set<NodeType>, maxRows: nat)

  const DEFAULT_INPUT_KEY := "default"
  const MAX_ROWS_PER_NODE: nat := 100_000

  // ---- Projection hints ----

  ghost function NamedSet(nodes: NodeMap, g: Dag, source: string): set<string> {
    set v, c | v in nodes && Met(nodes, g, source, v) && !Blocks(nodes[v]) && c in ColumnsOf(nodes[v]) :: c
  }

  // The hint Run hands to node id: sources only, and never an empty one.
  ghost function HintOf(d: Definition, id: string): Option<seq<string>> {
    var nodes, g := NodeById(d.nodes), DagOf(d);
    if id in nodes && nodes[id].nodeType == Source && !Hindered(nodes, g, id) && NamedSet(nodes, g, id) != {}
    then Some(SortedSet(NamedSet(nodes, g, id))) else None
  }

  method NodesById(d: Definition) returns (nodes: NodeMap)
    ensures nodes == NodeById(d.nodes)
  {
    nodes := map[];
    for i := 0 to |d.nodes|
      invariant nodes == NodeById(d.nodes[..i])
    {
      assert d.nodes[..i + 1][..i] == d.nodes[..i];
      nodes := nodes[d.nodes[i].id := d.nodes[i]];
    }
    assert d.nodes[..|d.nodes|] == d.nodes;
  }

  lemma {:induction false} NodeByIdKeys(nodes: seq<Node>)
    ensures NodeById(nodes).Keys == set n | n in nodes :: n.id
    ensures forall id :: id in NodeById(nodes) ==> NodeById(nodes)[id] in nodes && NodeById(nodes)[id].id == id
  {
    if nodes != [] {
      NodeByIdKeys(nodes[..|nodes| - 1]);
      assert nodes == nodes[..|nodes| - 1] + [nodes[|nodes| - 1]];
    }
  }

  function HintAt(hints: map<string, seq<string>>, id: string): Option<seq<string>> {
    if id in hints then Some(hints[id]) else None
  }

  ghost predicate HintsUpTo(d: Definition, nodes: seq<Node>, hints: map<string, seq<string>>) {
    forall id ::
      || HintOf(d, id) == HintAt(hints, id)
      || (id !in hints && forall n :: n in nodes ==> n.id != id)
  }

  method ProjectionHints(d: Definition) returns (hints: map<string, seq<string>>)
    requires WellFormed(d) && Acyclic(DagOf(d))
    ensures forall id :: HintOf(d, id) == HintAt(hints, id)
  {
    var nodes := NodesById(d);
    var dag := BuildDag(d);
    hints := map[];
    for i := 0 to |d.nodes|
      invariant HintsUpTo(d, d.nodes[..i], hints)
    {
      var node := d.nodes[i];
      assert d.nodes[..i + 1] == d.nodes[..i] + [node];
      NodeOfId(d, i);
      if node.nodeType != Source {
        continue;
      }
      var columns := CollectProjectedColumns(node.id, dag, nodes);
      HintIsHintOf(d, node.id, columns);
      if columns.Some? && |columns.value| > 0 {
        hints := hints[node.id := columns.value];
      }
    }
    assert d.nodes[..|d.nodes|] == d.nodes;
    NodeByIdKeys(d.nodes);
  }

  lemma NodeOfId(d: Definition, i: nat)
    requires UniqueIds(d) && i < |d.nodes|
    ensures d.nodes[i].id in NodeById(d.nodes) && NodeById(d.nodes)[d.nodes[i].id] == d.nodes[i]
  {
    NodeByIdKeys(d.nodes);
    var n := NodeById(d.nodes)[d.nodes[i].id];
    var j :| 0 <= j < |d.nodes| && d.nodes[j] == n;
    assert Ids(d.nodes)[i] == Ids(d.nodes)[j];
  }

  lemma HintIsHintOf(d: Definition, id: string, hint: Option<seq<string>>)
    requires id in NodeById(d.nodes) && NodeById(d.nodes)[id].nodeType == Source
    requires IsHint(NodeById(d.nodes), DagOf(d), id, hint)
    ensures HintOf(d, id) == if hint.Some? && |hint.value| > 0 then hint else None
  {
    if hint.Some? {
      var named := NamedSet(NodeById(d.nodes), DagOf(d), id);
      assert SetOf(hint.value) == named by {
        forall c ensures c in hint.value <==> c in named {
          assert c in hint.value <==> Names(NodeById(d.nodes), DagOf(d), id, c);
        }
      }
      AscendingIsUnique(hint.value, SortedSet(named));
      EmptySetOf(hint.value);
    }
  }

  // ---- What a node means ----

  function EdgesInto(edges: seq<Edge>, id: string): seq<Edge> {
    if edges == [] then []
    else
      var last := edges[|edges| - 1];
      EdgesInto(edges[..|edges| - 1], id) + if last.target == id then [last] else []
  }

  ghost function Upstreams(d: Definition, id: string): set<string> {
    set e | e in d.edges && e.target == id :: e.source
  }

  function HandleOf(e: Edge): string {
    if e.targetHandle == "" then DEFAULT_INPUT_KEY else e.targetHandle
  }

  // A node's inputs, each wired under its handle and under its source; later edges win.
  function Wire<T>(edges: seq<Edge>, outputs: map<string, T>): map<string, T>
    requires forall e :: e in edges ==> e.source in outputs
  {
    if edges == [] then map[]
    else
      var last := edges[|edges| - 1];
      Wire(edges[..|edges| - 1], outputs)[HandleOf(last) := outputs[last.source]][last.source := outputs[last.source]]
  }

  datatype Verdict = Yields(t: Table) | Fails | NoExecutor | Blocked

  // One node on given upstream tables.
  ghost function NodeStep(s: Setup, id: string, tables: map<string, Table>): Verdict
    requires Upstreams(s.d, id) <= tables.Keys
  {
    var nodes := NodeById(s.d.nodes);
    EdgesIntoSources(s.d, id);
    if id !in nodes || nodes[id].nodeType !in s.registry then NoExecutor
    else
      var inputs := Wire(EdgesInto(s.d.edges, id), tables);
      Settle(s.exec(nodes[id], inputs, HintOf(s.d, id)), inputs, s.maxRows)
  }

  // An executor's outcome with the row cap applied.
  function Settle(outcome: Outcome, inputs: map<string, Table>, maxRows: nat): Verdict {
    match outcome
    case Produced(t) => Yields(Limited(t, maxRows))
    case Passed(key) => if key in inputs then Yields(Limited(inputs[key], maxRows)) else Fails
    case Failed => Fails
  }

  lemma EdgesIntoSources(d: Definition, id: string)
    ensures forall e :: e in EdgesInto(d.edges, id) ==> e.source in Upstreams(d, id)
  {
    EdgesIntoAreEdges(d.edges, id);
  }

  lemma {:induction false} EdgesIntoAreEdges(edges: seq<Edge>, id: string)
    ensures forall e :: e in EdgesInto(edges, id) <==> e in edges && e.target == id
  {
    if edges != [] {
      EdgesIntoAreEdges(edges[..|edges| - 1], id);
      assert edges == edges[..|edges| - 1] + [edges[|edges| - 1]];
    }
  }

  // The meaning of a node: its own step on the meanings of its upstreams. No execution
  // order enters into it.
  ghost function Meaning(s: Setup, id: string): Verdict
    requires Acyclic(DagOf(s.d))
    decreases |Ancestors(DagOf(s.d), id)|
  {
    forall u | u in Upstreams(s.d, id) ensures |Ancestors(DagOf(s.d), u)| < |Ancestors(DagOf(s.d), id)| {
      ConnectsIsEdge(s.d, u, id);
      AncestorsShrink(DagOf(s.d), u, id);
    }
    if exists u :: u in Upstreams(s.d, id) && !Meaning(s, u).Yields? then Blocked
    else NodeStep(s, id, map u | u in Upstreams(s.d, id) :: Meaning(s, u).t)
  }

  // The meanings of all nodes, as a function.
  ghost function Meanings(s: Setup): string -> Verdict {
    id => if Acyclic(DagOf(s.d)) then Meaning(s, id) else Blocked
  }

  lemma NodeStepReadsUpstreams(s: Setup, id: string, a: map<string, Table>, b: map<string, Table>)
    requires Upstreams(s.d, id) <= a.Keys && Upstreams(s.d, id) <= b.Keys
    requires forall u :: u in Upstreams(s.d, id) ==> a[u] == b[u]
    ensures NodeStep(s, id, a) == NodeStep(s, id, b)
  {
    EdgesIntoSources(s.d, id);
    WireRestricts(EdgesInto(s.d.edges, id), a, b);
  }

  // The tables of the nodes that have run are what those nodes mean.
  ghost predicate Understood(m: string -> Verdict, tables: map<string, Table>) {
    forall id :: id in tables ==> m(id) == Yields(tables[id])
  }

  // With every upstream known, a node means its step on them.
  ghost predicate FollowsSteps(s: Setup, m: string -> Verdict) {
    forall id, tables: map<string, Table> :: Upstreams(s.d, id) <= tables.Keys && Understood(m, tables) ==>
      m(id) == NodeStep(s, id, tables)
  }

  lemma MeaningsFollowSteps(s: Setup)
    requires Acyclic(DagOf(s.d))
    ensures FollowsSteps(s, Meanings(s))
  {
    forall id, tables: map<string, Table> | Upstreams(s.d, id) <= tables.Keys && Understood(Meanings(s), tables)
      ensures Meanings(s)(id) == NodeStep(s, id, tables)
    {
      MeaningIsStep(s, id, tables);
    }
  }

  lemma MeaningIsStep(s: Setup, id: string, tables: map<string, Table>)
    requires Acyclic(DagOf(s.d)) && Upstreams(s.d, id) <= tables.Keys
    requires Understood(Meanings(s), tables)
    ensures Meanings(s)(id) == NodeStep(s, id, tables)
  {
    forall u | u in Upstreams(s.d, id) ensures Meaning(s, u) == Yields(tables[u]) {
      assert Meanings(s)(u) == Yields(tables[u]);
    }
    OwnMeaning(s, id, tables);
  }

  lemma OwnMeaning(s: Setup, id: string, tables: map<string, Table>)
    requires Acyclic(DagOf(s.d)) && Upstreams(s.d, id) <= tables.Keys
    requires forall u :: u in Upstreams(s.d, id) ==> Meaning(s, u) == Yields(tables[u])
    ensures Meaning(s, id) == NodeStep(s, id, tables)
  {
    var own := map u | u in Upstreams(s.d, id) :: Meaning(s, u).t;
    NodeStepReadsUpstreams(s, id, own, tables);
  }

  // ---- Running ----

  datatype NodeResult = NodeResult(id: string, rowsOut: nat, rowCap: nat, truncated: bool, failed: bool)

  datatype RunError =
    | CycleFound
    | DependencyNotRun(id: string, dependency: string)
    | Unregistered(id: string)
    | NodeFailed(id: string)

  datatype RunResult = RunResult(output: Option<Frame>, nodeResults: seq<NodeResult>, failedNode: Option<string>)

  function Success(id: string, t: Table, cap: nat): NodeResult {
    NodeResult(id, t.numRows, cap, t.truncated, false)
  }

  function Failure(id: string, cap: nat): NodeResult {
    NodeResult(id, 0, cap, false, true)
  }

  // Every node of ids has run: it yielded its meaning and said so.
  ghost predicate Ran(m: string -> Verdict, ids: seq<string>, results: seq<NodeResult>, cap: nat) {
    && |results| == |ids|
    && forall i :: 0 <= i < |ids| ==> m(ids[i]).Yields? && results[i] == Success(ids[i], m(ids[i]).t, cap)
  }

  // Where the loop ends: at the end of the order, or at the first node that does not
  // yield anything, with that node's error.
  ghost predicate Stops(m: string -> Verdict, order: seq<string>, ran: nat, err: Option<RunError>)
    requires ran <= |order|
  {
    if err.None? then ran == |order|
    else
      && ran < |order|
      && if err.value.Unregistered? then err.value.id == order[ran] && m(order[ran]) == NoExecutor
         else err.value == NodeFailed(order[ran]) && m(order[ran]) == Fails
  }

  function FailureOf(err: Option<RunError>, cap: nat): seq<NodeResult> {
    if err.Some? && err.value.NodeFailed? then [Failure(err.value.id, cap)] else []
  }

  // The report: the nodes that ran are exactly a prefix of the order, each with its
  // success, and only a failed node follows, with its error.
  ghost predicate Reports(m: string -> Verdict, order: seq<string>, ran: nat, results: seq<NodeResult>,
                          err: Option<RunError>, cap: nat)
  {
    && ran <= |order| && ran <= |results|
    && Ran(m, order[..ran], results[..ran], cap)
    && results[ran..] == FailureOf(err, cap)
    && Stops(m, order, ran, err)
  }

  // The frames are among those owned. Several ids may share a frame.
  ghost predicate Held(frames: map<string, Frame>, owned: set<Frame>) {
    forall k :: k in frames ==> frames[k] in owned
  }

  function ViewsOf(frames: map<string, Frame>, ghost owned: set<Frame>): map<string, Table>
    requires Held(frames, owned)
    reads owned
  {
    map k | k in frames :: frames[k].View()
  }

  predicate IsCapped(t: Table, maxRows: nat) {
    maxRows == 0 || t.numRows <= maxRows
  }

  ghost predicate AllCapped(owned: set<Frame>, maxRows: nat)
    reads owned
  {
    forall f :: f in owned ==> f.Valid() && IsCapped(f.View(), maxRows)
  }

  function IncomingAt(incoming: map<string, seq<Edge>>, id: string): seq<Edge> {
    if id in incoming then incoming[id] else []
  }

  method IncomingEdges(d: Definition) returns (incoming: map<string, seq<Edge>>)
    ensures forall id :: IncomingAt(incoming, id) == EdgesInto(d.edges, id)
  {
    incoming := map[];
    for i := 0 to |d.edges|
      invariant forall id :: IncomingAt(incoming, id) == EdgesInto(d.edges[..i], id)
    {
      var e := d.edges[i];
      assert d.edges[..i + 1][..i] == d.edges[..i];
      incoming := incoming[e.target := IncomingAt(incoming, e.target) + [e]];
    }
    assert d.edges[..|d.edges|] == d.edges;
  }

  // Wiring a node's inputs; the error names a dependency that has not run.
  method WireInputs(id: string, edges: seq<Edge>, outputs: map<string, Frame>)
    returns (inputs: map<string, Frame>, err: Option<RunError>)
    ensures err.None? <==> forall e :: e in edges ==> e.source in outputs
    ensures err.None? ==> inputs == Wire(edges, outputs)
    ensures err.Some? ==> exists e :: e in edges && e.source !in outputs && err.value == DependencyNotRun(id, e.source)
  {
    inputs := map[];
    for i := 0 to |edges|
      invariant forall e :: e in edges[..i] ==> e.source in outputs
      invariant inputs == Wire(edges[..i], outputs)
    {
      var e := edges[i];
      assert edges[..i + 1] == edges[..i] + [e] && edges[..i + 1][..i] == edges[..i];
      if e.source !in outputs {
        return inputs, Some(DependencyNotRun(id, e.source));
      }
      inputs := inputs[HandleOf(e) := outputs[e.source]][e.source := outputs[e.source]];
    }
    assert edges[..|edges|] == edges;
    err := None;
  }

  lemma {:induction false} WireViews(edges: seq<Edge>, outputs: map<string, Frame>, owned: set<Frame>)
    requires Held(outputs, owned)
    requires forall e :: e in edges ==> e.source in outputs
    ensures Held(Wire(edges, outputs), owned)
    ensures ViewsOf(Wire(edges, outputs), owned) == Wire(edges, ViewsOf(outputs, owned))
  {
    if edges != [] {
      WireViews(edges[..|edges| - 1], outputs, owned);
    }
  }

  lemma {:induction false} WireRestricts(edges: seq<Edge>, a: map<string, Table>, b: map<string, Table>)
    requires forall e :: e in edges ==> e.source in a && e.source in b && a[e.source] == b[e.source]
    ensures Wire(edges, a) == Wire(edges, b)
  {
    if edges != [] {
      WireRestricts(edges[..|edges| - 1], a, b);
    }
  }

  // The position of the last output node among the first n of the order.
  function LastOutput(nodes: NodeMap, order: seq<string>, n: nat): (i: Option<nat>)
    requires n <= |order|
    ensures i.Some? ==> i.value < n && order[i.value] in nodes && nodes[order[i.value]].nodeType == Output
    ensures forall j :: (if i.Some? then i.value + 1 else 0) <= j < n && order[j] in nodes ==>
              nodes[order[j]].nodeType != Output
  {
    if n == 0 then None
    else if order[n - 1] in nodes && nodes[order[n - 1]].nodeType == Output then Some(n - 1)
    else LastOutput(nodes, order, n - 1)
  }

  // The frame shown holds what the node means.
  ghost predicate Shows(m: string -> Verdict, id: string, output: Option<Frame>)
    reads if output.Some? then {output.value} else {}
  {
    output.Some? && output.value.Valid() && m(id) == Yields(output.value.View())
  }

  // The verdict behind what a turn of the loop returns.
  ghost function VerdictOf(out: Option<Frame>, err: Option<RunError>): Verdict
    reads if out.Some? then {out.value} else {}
  {
    if out.Some? then Yields(out.value.View())
    else if err.Some? && err.value.Unregistered? then NoExecutor
    else Fails
  }

  // The node at position i exists, and everything it needs comes before it.
  ghost predicate ReadyAt(d: Definition, order: seq<string>, i: nat)
    requires i < |order|
  {
    order[i] in NodeById(d.nodes) && Upstreams(d, order[i]) <= SetOf(order[..i])
  }

  lemma SortedIsReady(d: Definition, order: seq<string>, i: nat)
    requires TopologicallySorted(d, order) && i < |order|
    ensures ReadyAt(d, order, i)
  {
    NodeByIdKeys(d.nodes);
    assert order[i] in SetOf(order);
    forall u | u in Upstreams(d, order[i]) ensures u in order[..i] {
      var e :| e in d.edges && e.target == order[i] && e.source == u;
      assert Before(order, e.source, e.target);
      var j, k :| 0 <= j < k < |order| && order[j] == u && order[k] == order[i];
      assert order[..i][j] == u;
    }
  }

  // The in-place row cap. A frame handed on is shared with its upstream, but has been
  // capped already, so no frame kept so far changes.
  method CapRows(maxRows: nat, out: Frame, ghost owned: set<Frame>)
    requires AllCapped(owned, maxRows) && out.Valid()
    modifies out
    ensures forall f :: f in owned ==> f.View() == old(f.View())
    ensures out.Valid() && out.View() == Limited(old(out.View()), maxRows)
  {
    out.LimitRows(maxRows);
  }

  // The closing loop of Run: the last explicit output node wins over the last node.
  method ChooseOutput(nodes: NodeMap, order: seq<string>, outputs: map<string, Frame>, last: Option<Frame>)
    returns (r: Option<Frame>)
    requires forall id :: id in order ==> id in nodes && id in outputs
    ensures var marked := LastOutput(nodes, order, |order|);
            r == if marked.Some? && order[marked.value] in outputs then Some(outputs[order[marked.value]]) else last
  {
    for i := |order| downto 0
      invariant LastOutput(nodes, order, |order|) == LastOutput(nodes, order, i)
    {
      if nodes[order[i]].nodeType == Output {
        return Some(outputs[order[i]]);
      }
    }
    return last;
  }

  class Engine {
    const registry: set<NodeType>
    const exec: Executor
    const maxRows: nat

    constructor (registry: set<NodeType>, exec: Executor, maxRows: int)
      ensures this.registry == registry && this.exec == exec
      ensures this.maxRows == if maxRows <= 0 then MAX_ROWS_PER_NODE else maxRows
    {
      this.registry, this.exec := registry, exec;
      this.maxRows := if maxRows <= 0 then MAX_ROWS_PER_NODE else maxRows;
    }

    ghost function SetupFor(d: Definition): Setup {
      Setup(d, exec, registry, maxRows)
    }

    // One turn of the loop. Of its errors, a dependency that has not run never occurs.
    method RunNode(d: Definition, node: Node, edges: seq<Edge>, hint: Option<seq<string>>, outputs: map<string, Frame>,
                   ghost owned: set<Frame>)
      returns (out: Option<Frame>, err: Option<RunError>)
      requires Held(outputs, owned) && AllCapped(owned, maxRows)
      requires node.id in NodeById(d.nodes) && NodeById(d.nodes)[node.id] == node
      requires edges == EdgesInto(d.edges, node.id) && Upstreams(d, node.id) <= outputs.Keys
      requires hint == HintOf(d, node.id)
      modifies owned
      ensures forall f :: f in owned ==> f.View() == old(f.View())
      ensures out.Some? <==> err.None?
      ensures out.Some? ==> (fresh(out.value) || out.value in owned)
      ensures out.Some? ==> out.value.Valid() && IsCapped(out.value.View(), maxRows)
      ensures err.Some? ==> err.value in {Unregistered(node.id), NodeFailed(node.id)}
      ensures NodeStep(SetupFor(d), node.id, old(ViewsOf(outputs, owned))) == VerdictOf(out, err)
    {
      EdgesIntoSources(d, node.id);
      var inputs, missing := WireInputs(node.id, edges, outputs);
      if missing.Some? {
        return None, missing;
      }
      WireViews(edges, outputs, owned);
      if node.nodeType !in registry {
        return None, Some(Unregistered(node.id));
      }
      out := Execute(node, inputs, hint, owned);
      if out.None? {
        return None, Some(NodeFailed(node.id));
      }
      CapRows(maxRows, out.value, owned);
      err := None;
    }

    // The executor's frame: its own, or an input handed on.
    method Execute(node: Node, inputs: map<string, Frame>, hint: Option<seq<string>>, ghost owned: set<Frame>)
      returns (r: Option<Frame>)
      requires Held(inputs, owned) && AllCapped(owned, maxRows)
      ensures Settle(exec(node, ViewsOf(inputs, owned), hint), ViewsOf(inputs, owned), maxRows)
           == if r.Some? then Yields(Limited(r.value.View(), maxRows)) else Fails
      ensures r.Some? ==> r.value.Valid() && (fresh(r.value) || r.value in owned)
    {
      var outcome := exec(node, ViewsOf(inputs, owned), hint);
      if outcome.Produced? {
        var out := new Frame.Of(outcome.t);
        return Some(out);
      }
      if outcome.Passed? && outcome.key in inputs {
        return Some(inputs[outcome.key]);
      }
      return None;
    }

    // What the loop leaves behind: the frames of exactly the nodes that ran.
    ghost predicate LoopDone(m: string -> Verdict, ids: seq<string>, outputs: map<string, Frame>, owned: set<Frame>,
                             shown: Option<Frame>)
      reads owned
    {
      && outputs.Keys == SetOf(ids)
      && Held(outputs, owned) && AllCapped(owned, maxRows)
      && Understood(m, ViewsOf(outputs, owned))
      && shown == LastFrame(ids, outputs)
    }

    ghost function LastFrame(ids: seq<string>, outputs: map<string, Frame>): Option<Frame> {
      if ids != [] && ids[|ids| - 1] in outputs then Some(outputs[ids[|ids| - 1]]) else None
    }

    lemma LoopStep(m: string -> Verdict, order: seq<string>, i: nat, outputs: map<string, Frame>, owned: set<Frame>,
                   shown: Option<Frame>, out: Frame)
      requires i < |order| && LoopDone(m, order[..i], outputs, owned, shown)
      requires out.Valid() && IsCapped(out.View(), maxRows) && m(order[i]) == Yields(out.View())
      ensures LoopDone(m, order[..i + 1], outputs[order[i] := out], owned + {out}, Some(out))
    {
      var id := order[i];
      PrefixStep(order, i);
      assert SetOf(order[..i] + [id]) == SetOf(order[..i]) + {id};
      UnderstoodStep(m, outputs, owned, id, out);
    }

    lemma UnderstoodStep(m: string -> Verdict, outputs: map<string, Frame>, owned: set<Frame>, id: string, out: Frame)
      requires Held(outputs, owned) && Understood(m, ViewsOf(outputs, owned)) && m(id) == Yields(out.View())
      ensures Understood(m, ViewsOf(outputs[id := out], owned + {out}))
    {
      assert forall k :: k in outputs ==> m(k) == Yields(ViewsOf(outputs, owned)[k]);
    }

    lemma RanStep(m: string -> Verdict, order: seq<string>, i: nat, results: seq<NodeResult>, t: Table)
      requires i < |order| && Ran(m, order[..i], results, maxRows) && m(order[i]) == Yields(t)
      ensures Ran(m, order[..i + 1], results + [Success(order[i], t, maxRows)], maxRows)
    {
    }

    lemma RanThenStopped(m: string -> Verdict, order: seq<string>, n: nat, results: seq<NodeResult>,
                         err: Option<RunError>)
      requires n <= |order| && Ran(m, order[..n], results, maxRows) && Stops(m, order, n, err)
      ensures Reports(m, order, n, results + FailureOf(err, maxRows), err, maxRows)
      ensures results + [] == results
    {
      var last := FailureOf(err, maxRows);
      assert (results + last)[..n] == results && (results + last)[n..] == last;
    }

    // What the loop is given besides the definition.
    ghost predicate Prepared(d: Definition, order: seq<string>, nodes: NodeMap, incoming: map<string, seq<Edge>>,
                             hints: map<string, seq<string>>) {
      && nodes == NodeById(d.nodes)
      && (forall i :: 0 <= i < |order| ==> ReadyAt(d, order, i))
      && (forall id :: IncomingAt(incoming, id) == EdgesInto(d.edges, id))
      && forall id :: HintOf(d, id) == HintAt(hints, id)
    }

    // The loop's body without the report.
    method RunNext(ghost m: string -> Verdict, d: Definition, order: seq<string>, i: nat, nodes: NodeMap,
                   incoming: map<string, seq<Edge>>,
                   hints: map<string, seq<string>>, outputs: map<string, Frame>, ghost owned: set<Frame>,
                   ghost shown: Option<Frame>)
      returns (out: Option<Frame>, err: Option<RunError>)
      requires FollowsSteps(SetupFor(d), m) && i < |order| && Prepared(d, order, nodes, incoming, hints)
      requires LoopDone(m, order[..i], outputs, owned, shown)
      modifies owned
      ensures out.Some? <==> err.None?
      ensures LoopDone(m, order[..i], outputs, owned, shown)
      ensures out.Some? ==> (fresh(out.value) || out.value in owned)
      ensures out.Some? ==> out.value.Valid() && IsCapped(out.value.View(), maxRows)
      ensures out.Some? ==> m(order[i]) == Yields(out.value.View())
      ensures err.Some? ==> Stops(m, order, i, err)
    {
      var id := order[i];
      assert ReadyAt(d, order, i);
      NodeByIdKeys(d.nodes);
      ghost var tables := ViewsOf(outputs, owned);
      assert m(id) == NodeStep(SetupFor(d), id, tables);
      out, err := RunNode(d, nodes[id], IncomingAt(incoming, id), HintAt(hints, id), outputs, owned);
      assert ViewsOf(outputs, owned) == tables;
    }

    // One turn with its report; on an error nothing is kept.
    method Turn(ghost m: string -> Verdict, d: Definition, order: seq<string>, i: nat, nodes: NodeMap,
                incoming: map<string, seq<Edge>>,
                hints: map<string, seq<string>>, outputs0: map<string, Frame>, ghost owned0: set<Frame>,
                results0: seq<NodeResult>, shown0: Option<Frame>)
      returns (outputs: map<string, Frame>, ghost owned: set<Frame>, results: seq<NodeResult>, shown: Option<Frame>,
               err: Option<RunError>)
      requires FollowsSteps(SetupFor(d), m) && i < |order| && Prepared(d, order, nodes, incoming, hints)
      requires LoopDone(m, order[..i], outputs0, owned0, shown0)
      requires Ran(m, order[..i], results0, maxRows)
      modifies owned0
      ensures forall f :: f in owned ==> f in owned0 || fresh(f)
      ensures err.None? ==> LoopDone(m, order[..i + 1], outputs, owned, shown)
      ensures err.None? ==> Ran(m, order[..i + 1], results, maxRows)
      ensures err.Some? ==> LoopDone(m, order[..i], outputs, owned, shown) && results == results0
      ensures err.Some? ==> Stops(m, order, i, err)
    {
      var out;
      out, err := RunNext(m, d, order, i, nodes, incoming, hints, outputs0, owned0, shown0);
      if err.Some? {
        return outputs0, owned0, results0, shown0, err;
      }
      RanStep(m, order, i, results0, out.value.View());
      LoopStep(m, order, i, outputs0, owned0, shown0, out.value);
      results := results0 + [NodeResult(order[i], out.value.numRows, maxRows, out.value.truncated, false)];
      return outputs0[order[i] := out.value], owned0 + {out.value}, results, out, None;
    }

    method RunInOrder(ghost m: string -> Verdict, d: Definition, order: seq<string>, nodes: NodeMap,
                      incoming: map<string, seq<Edge>>,
                      hints: map<string, seq<string>>)
      returns (outputs: map<string, Frame>, ghost owned: set<Frame>, results: seq<NodeResult>, shown: Option<Frame>,
               err: Option<RunError>, ran: nat)
      requires FollowsSteps(SetupFor(d), m) && Prepared(d, order, nodes, incoming, hints)
      ensures Reports(m, order, ran, results, err, maxRows)
      ensures LoopDone(m, order[..ran], outputs, owned, shown)
    {
      outputs, owned, results, shown, err, ran := map[], {}, [], None, None, 0;
      while ran < |order|
        invariant ran <= |order| && err.None?
        invariant forall f :: f in owned ==> fresh(f)
        invariant LoopDone(m, order[..ran], outputs, owned, shown)
        invariant Ran(m, order[..ran], results, maxRows)
      {
        outputs, owned, results, shown, err :=
          Turn(m, d, order, ran, nodes, incoming, hints, outputs, owned, results, shown);
        if err.Some? {
          break;
        }
        ran := ran + 1;
      }
      RanThenStopped(m, order, ran, results, err);
      results := results + FailureOf(err, maxRows);
    }

    // The frame shown: on success the last output node's, else the last node's that ran.
    ghost predicate ShowsOutput(m: string -> Verdict, nodes: NodeMap, order: seq<string>, output: Option<Frame>,
                                ran: nat, complete: bool)
      requires ran <= |order|
      reads if output.Some? then {output.value} else {}
    {
      var marked := if complete then LastOutput(nodes, order, ran) else None;
      if marked.Some? then Shows(m, order[marked.value], output)
      else if ran > 0 then Shows(m, order[ran - 1], output)
      else output.None?
    }

    method Run(d: Definition)
      returns (result: RunResult, err: Option<RunError>, ghost order: seq<string>, ghost ran: nat)
      requires WellFormed(d)
      ensures err == Some(CycleFound) <==> !Acyclic(DagOf(d))
      ensures !Acyclic(DagOf(d)) ==> result == RunResult(None, [], None)
      ensures Acyclic(DagOf(d)) ==>
        && TopologicallySorted(d, order)
        && Reports(Meanings(SetupFor(d)), order, ran, result.nodeResults, err, maxRows)
        && ShowsOutput(Meanings(SetupFor(d)), NodeById(d.nodes), order, result.output, ran, err.None?)
      ensures result.failedNode == if err.Some? && err.value.NodeFailed? then Some(err.value.id) else None
    {
      var sorted := TopologicalOrder(d);
      if sorted.Err? {
        return RunResult(None, [], None), Some(CycleFound), [], 0;
      }
      order := sorted.value;
      var nodes := NodesById(d);
      var incoming := IncomingEdges(d);
      var hints := ProjectionHints(d);
      forall i | 0 <= i < |order| ensures ReadyAt(d, order, i) {
        SortedIsReady(d, order, i);
      }
      MeaningsFollowSteps(SetupFor(d));
      var outputs, results, shown;
      ghost var owned, n;
      outputs, owned, results, shown, err, n :=
        RunInOrder(Meanings(SetupFor(d)), d, sorted.value, nodes, incoming, hints);
      ran := n;
      LoopShows(Meanings(SetupFor(d)), order[..ran], outputs, owned, shown);
      if err.None? {
        assert order[..ran] == order;
        shown := ShownAtEnd(Meanings(SetupFor(d)), d, nodes, sorted.value, outputs, owned, shown);
      }
      result := RunResult(shown, results, if err.Some? && err.value.NodeFailed? then Some(err.value.id) else None);
    }

    method ShownAtEnd(ghost m: string -> Verdict, ghost d: Definition, nodes: NodeMap, order: seq<string>,
                      outputs: map<string, Frame>, ghost owned: set<Frame>, last: Option<Frame>)
      returns (shown: Option<Frame>)
      requires TopologicallySorted(d, order) && nodes == NodeById(d.nodes)
      requires LoopDone(m, order, outputs, owned, last)
      ensures ShowsOutput(m, nodes, order, shown, |order|, true)
    {
      LoopShows(m, order, outputs, owned, last);
      NodeByIdKeys(d.nodes);
      assert forall id :: id in order ==> id in SetOf(order);
      shown := ChooseOutput(nodes, order, outputs, last);
    }

    lemma LoopShows(m: string -> Verdict, ids: seq<string>, outputs: map<string, Frame>, owned: set<Frame>,
                    shown: Option<Frame>)
      requires LoopDone(m, ids, outputs, owned, shown)
      ensures if ids == [] then shown.None? else Shows(m, ids[|ids| - 1], shown)
      ensures forall i :: 0 <= i < |ids| ==> ids[i] in outputs && Shows(m, ids[i], Some(outputs[ids[i]]))
    {
      forall i | 0 <= i < |ids| ensures ids[i] in outputs && Shows(m, ids[i], Some(outputs[ids[i]])) {
        assert ids[i] in SetOf(ids);
        assert m(ids[i]) == Yields(ViewsOf(outputs, owned)[ids[i]]);
      }
    }
  }

  // ---- The execution order does not show ----

  // Under any two topological orders, a run completes under both or under neither, and
  // a node that ran under both has the same result in both reports.
  lemma ReportsIgnoreOrder(m: string -> Verdict, d: Definition, cap: nat,
                           order: seq<string>, ran: nat, results: seq<NodeResult>, err: Option<RunError>,
                           order': seq<string>, ran': nat, results': seq<NodeResult>, err': Option<RunError>)
    requires TopologicallySorted(d, order) && Reports(m, order, ran, results, err, cap)
    requires TopologicallySorted(d, order') && Reports(m, order', ran', results', err', cap)
    ensures err.None? <==> err'.None?
    ensures forall i, j :: 0 <= i < ran && 0 <= j < ran' && order[i] == order'[j] ==> results[i] == results'[j]
  {
    CompleteMeansAllYield(m, d, cap, order, ran, results, err);
    CompleteMeansAllYield(m, d, cap, order', ran', results', err');
    forall i, j | 0 <= i < ran && 0 <= j < ran' && order[i] == order'[j] ensures results[i] == results'[j] {
      assert order[..ran][i] == order[i] && results[..ran][i] == results[i];
      assert order'[..ran'][j] == order'[j] && results'[..ran'][j] == results'[j];
    }
  }

  lemma CompleteMeansAllYield(m: string -> Verdict, d: Definition, cap: nat,
                              order: seq<string>, ran: nat, results: seq<NodeResult>, err: Option<RunError>)
    requires TopologicallySorted(d, order) && Reports(m, order, ran, results, err, cap)
    ensures err.None? <==> forall id :: id in IdSet(d) ==> m(id).Yields?
  {
    if err.None? {
      forall id | id in IdSet(d) ensures m(id).Yields? {
        assert id in SetOf(order);
        var i :| 0 <= i < |order| && order[i] == id;
        assert order[..ran][i] == id;
      }
    } else {
      assert order[ran] in SetOf(order) && !m(order[ran]).Yields?;
    }
  }

  // With a single output node, neither does the order decide which frame is shown.
  lemma SingleOutputIgnoresOrder(d: Definition, order: seq<string>, order': seq<string>, id: string)
    requires TopologicallySorted(d, order) && TopologicallySorted(d, order')
    requires id in NodeById(d.nodes)
    requires forall n :: n in NodeById(d.nodes) ==> (NodeById(d.nodes)[n].nodeType == Output <==> n == id)
    ensures var i, j := LastOutput(NodeById(d.nodes), order, |order|), LastOutput(NodeById(d.nodes), order', |order'|);
            i.Some? && j.Some? && order[i.value] == order'[j.value] == id
  {
    NodeByIdKeys(d.nodes);
    assert id in SetOf(order) && id in SetOf(order');
  }
}
