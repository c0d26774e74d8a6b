// Which columns a source has to read: the walk over everything downstream of it
// that names columns.
module Projection {
  import opened Wrappers
  import opened Strings
  import opened Text
  import opened Graph
  import opened Aggregates
  import opened Definition

  // ---- Columns named by a filter expression ----

  // s[i..j] matches \b[A-Za-z_][A-Za-z0-9_]*\b.
  ghost predicate IsMatch(s: string, i: nat, j: nat) {
    && i < j <= |s|
    && IsBoundary(s, i) && IsBoundary(s, j)
    && IsIdentifierStart(s[i])
    && forall k :: i <= k < j ==> IsWord(s[k])
  }

  // The end of the run of word characters that starts at i.
  function WordEnd(s: string, i: nat): (j: nat)
    requires i <= |s|
    ensures i <= j <= |s|
    ensures forall k :: i <= k < j ==> IsWord(s[k])
    ensures j < |s| ==> !IsWord(s[j])
    decreases |s| - i
  {
    if i < |s| && IsWord(s[i]) then WordEnd(s, i + 1) else i
  }

  // identifierPattern.FindAllString, from position i on.
  function Identifiers(s: string, i: nat): seq<string>
    requires i <= |s|
    decreases |s| - i
  {
    if i == |s| then []
    else if IsWord(s[i]) then
      var j := WordEnd(s, i);
      (if IsIdentifierStart(s[i]) then [s[i..j]] else []) + Identifiers(s, j)
    else Identifiers(s, i + 1)
  }

  ghost predicate HasMatch(s: string, from: nat, x: string) {
    exists i: nat, j: nat :: from <= i && IsMatch(s, i, j) && x == s[i..j]
  }

  // The scan finds exactly the texts the pattern matches.
  lemma {:induction false} IdentifiersAreMatches(s: string, from: nat, x: string)
    requires from <= |s|
    requires from == 0 || from == |s| || IsBoundary(s, from) || !IsWord(s[from - 1])
    ensures x in Identifiers(s, from) <==> HasMatch(s, from, x)
    decreases |s| - from
  {
    if from < |s| {
      if IsWord(s[from]) {
        var end := WordEnd(s, from);
        IdentifiersAreMatches(s, end, x);
        if IsIdentifierStart(s[from]) {
          assert IsMatch(s, from, end);
        }
        forall i: nat, j: nat | from <= i && IsMatch(s, i, j) && x == s[i..j]
          ensures x in Identifiers(s, from)
        {
          MatchIsWholeRun(s, from, end, i, j);
        }
      } else {
        IdentifiersAreMatches(s, from + 1, x);
      }
    }
  }

  // A match that starts inside a run of word characters is the whole run.
  lemma MatchIsWholeRun(s: string, from: nat, end: nat, i: nat, j: nat)
    requires from < end <= |s| && forall k :: from <= k < end ==> IsWord(s[k])
    requires end < |s| ==> !IsWord(s[end])
    requires IsMatch(s, i, j) && from <= i
    ensures i >= end || (i == from && j == end)
  {
  }

  const KEYWORDS: set<string> := {"true", "false", "null", "and", "or"}

  ghost function ExpressionColumnSet(expression: string): set<string> {
    SetOf(Identifiers(expression, 0)) - KEYWORDS
  }

  method ExpressionColumns(expression: string) returns (out: seq<string>)
    ensures Ascending(out)
    ensures forall x :: x in out <==> HasMatch(expression, 0, x) && x !in KEYWORDS
    ensures SetOf(out) == ExpressionColumnSet(expression)
  {
    var matches := Identifiers(expression, 0);
    var seen: set<string> := {};
    for i := 0 to |matches|
      invariant seen == SetOf(matches[..i]) - KEYWORDS
    {
      assert matches[..i + 1] == matches[..i] + [matches[i]];
      if matches[i] in KEYWORDS {
        continue;
      }
      seen := seen + {matches[i]};
    }
    assert matches[..|matches|] == matches;
    out := SortedKeys(seen);
    forall x ensures x in out <==> HasMatch(expression, 0, x) && x !in KEYWORDS {
      IdentifiersAreMatches(expression, 0, x);
      assert x in out <==> x in SetOf(out);
    }
  }

  // Any word between quotes is taken for a column, whatever stands around it.
  lemma LiteralTakenForColumn(before: string, word: string, behind: string)
    requires IsIdentifier(word) && word !in KEYWORDS
    ensures word in ExpressionColumnSet(before + "\"" + word + "\"" + behind)
  {
    var e := before + "\"" + word + "\"" + behind;
    var i := |before| + 1;
    var j := i + |word|;
    assert e[i..j] == word && e[i - 1] == '"' && e[j] == '"';
    assert forall k :: i <= k < j ==> e[k] == word[k - i];
    assert IsMatch(e, i, j);
    assert HasMatch(e, 0, word);
    IdentifiersAreMatches(e, 0, word);
  }

  // ---- The walk ----

  type NodeMap = map<string, Node>

  // nodeByID: the last node with an id wins.
  function NodeById(nodes: seq<Node>): NodeMap {
    if nodes == [] then map[]
    else NodeById(nodes[..|nodes| - 1])[nodes[|nodes| - 1].id := nodes[|nodes| - 1]]
  }

  // A node the hint cannot look past: its output shape is unknown, or its settings do
  // not decode.
  predicate Blocks(n: Node) {
    match n.nodeType
    case Filter => n.config.filter.None?
    case Aggregate => n.config.aggregate.None?
    case Join => n.config.join.None?
    case Transform => true
    case _ => false
  }

  ghost function ColumnsOf(n: Node): set<string>
    requires !Blocks(n)
  {
    match n.nodeType
    case Filter => ExpressionColumnSet(n.config.filter.value)
    case Aggregate =>
      var cfg := n.config.aggregate.value;
      SetOf(cfg.groupBy) + set a | a in cfg.aggregations && a.field != "" :: a.field
    case Join =>
      var keys := n.config.join.value;
      {keys.leftKey, keys.rightKey} - {""}
    case _ => {}
  }

  // Only a join ends the walk; ids without a node lead nowhere.
  predicate Expands(nodes: NodeMap, u: string) {
    u in nodes && !nodes[u].nodeType.Join?
  }

  // A way from the source to p's end that passes through no join.
  ghost predicate IsJoinFree(nodes: NodeMap, g: Dag, source: string, p: seq<string>) {
    && |p| >= 2 && IsPath(g, p) && p[0] == source
    && forall i :: 1 <= i < |p| - 1 ==> Expands(nodes, p[i])
  }

  ghost predicate Met(nodes: NodeMap, g: Dag, source: string, v: string) {
    exists p :: IsJoinFree(nodes, g, source, p) && p[|p| - 1] == v
  }

  // Whether some node met on the way blocks the hint.
  ghost predicate Hindered(nodes: NodeMap, g: Dag, source: string) {
    exists v :: v in nodes && Met(nodes, g, source, v) && Blocks(nodes[v])
  }

  ghost predicate Names(nodes: NodeMap, g: Dag, source: string, column: string) {
    exists v :: v in nodes && Met(nodes, g, source, v) && !Blocks(nodes[v]) && column in ColumnsOf(nodes[v])
  }

  // No hint exactly when the way is hindered; otherwise exactly the columns named on it,
  // in ascending order.
  ghost predicate IsHint(nodes: NodeMap, g: Dag, source: string, hint: Option<seq<string>>) {
    && (hint.None? <==> Hindered(nodes, g, source))
    && (hint.Some? ==> Ascending(hint.value) && forall c :: c in hint.value <==> Names(nodes, g, source, c))
  }

  lemma MetNext(nodes: NodeMap, g: Dag, source: string, u: string, v: string)
    requires u == source || (Met(nodes, g, source, u) && Expands(nodes, u))
    requires Connects(g, u, v)
    ensures Met(nodes, g, source, v)
  {
    if u == source {
      assert IsJoinFree(nodes, g, source, [u, v]);
    } else {
      var p :| IsJoinFree(nodes, g, source, p) && p[|p| - 1] == u;
      assert IsJoinFree(nodes, g, source, p + [v]);
    }
  }

  // done is closed under expansion, up to what still waits in the queue.
  ghost predicate Closed(nodes: NodeMap, g: Dag, source: string, done: set<string>, queue: seq<string>) {
    forall u, v :: (u == source || (u in done && Expands(nodes, u))) && Connects(g, u, v) ==> v in done || v in queue
  }

  lemma {:induction false} ClosedContainsMet(nodes: NodeMap, g: Dag, source: string, done: set<string>, p: seq<string>)
    requires Closed(nodes, g, source, done, [])
    requires IsJoinFree(nodes, g, source, p)
    ensures p[|p| - 1] in done
  {
    assert Connects(g, p[|p| - 2], p[|p| - 1]);
    if |p| > 2 {
      ClosedContainsMet(nodes, g, source, done, p[..|p| - 1]);
    }
  }

  ghost predicate Collected(nodes: NodeMap, done: set<string>, seen: set<string>) {
    && (forall v :: v in done && v in nodes ==> !Blocks(nodes[v]) && ColumnsOf(nodes[v]) <= seen)
    && (forall c :: c in seen ==> exists v :: v in done && v in nodes && !Blocks(nodes[v]) && c in ColumnsOf(nodes[v]))
  }

  // What one node that does not block adds to the columns seen.
  method NamedColumns(n: Node) returns (columns: set<string>)
    requires !Blocks(n)
    ensures columns == ColumnsOf(n)
  {
    columns := {};
    match n.nodeType {
      case Filter =>
        var names := ExpressionColumns(n.config.filter.value);
        columns := SetOf(names);
      case Aggregate =>
        var cfg := n.config.aggregate.value;
        columns := SetOf(cfg.groupBy);
        for i := 0 to |cfg.aggregations|
          invariant columns == SetOf(cfg.groupBy) + set a | a in cfg.aggregations[..i] && a.field != "" :: a.field
        {
          var agg := cfg.aggregations[i];
          assert cfg.aggregations[..i + 1] == cfg.aggregations[..i] + [agg];
          if agg.field != "" {
            columns := columns + {agg.field};
          }
        }
        assert cfg.aggregations[..|cfg.aggregations|] == cfg.aggregations;
      case Join =>
        var keys := n.config.join.value;
        if keys.leftKey != "" {
          columns := columns + {keys.leftKey};
        }
        if keys.rightKey != "" {
          columns := columns + {keys.rightKey};
        }
      case _ =>
    }
  }

  lemma ClosedIsMet(nodes: NodeMap, g: Dag, source: string, done: set<string>)
    requires Closed(nodes, g, source, done, [])
    ensures forall v :: Met(nodes, g, source, v) ==> v in done
  {
    forall v | Met(nodes, g, source, v) ensures v in done {
      var p :| IsJoinFree(nodes, g, source, p) && p[|p| - 1] == v;
      ClosedContainsMet(nodes, g, source, done, p);
    }
  }

  // Where the walk ends, the columns seen are the hint.
  lemma CollectedIsHint(nodes: NodeMap, g: Dag, source: string, done: set<string>, out: seq<string>)
    requires Closed(nodes, g, source, done, []) && Collected(nodes, done, SetOf(out)) && Ascending(out)
    requires forall v :: v in done ==> Met(nodes, g, source, v)
    ensures IsHint(nodes, g, source, Some(out))
  {
    ClosedIsMet(nodes, g, source, done);
    forall c ensures c in out <==> Names(nodes, g, source, c) {
      assert c in out <==> c in SetOf(out);
    }
  }

  lemma SuccessorsAreMet(nodes: NodeMap, g: Dag, source: string, u: string)
    requires u == source || (Met(nodes, g, source, u) && Expands(nodes, u))
    ensures forall v :: v in Succ(g, u) ==> Met(nodes, g, source, v)
  {
    forall v | v in Succ(g, u) ensures Met(nodes, g, source, v) {
      MetNext(nodes, g, source, u, v);
    }
  }

  // Taking the head of the queue: its successors are queued if the walk goes on from it.
  lemma VisitKeepsClosed(nodes: NodeMap, g: Dag, source: string, done: set<string>, queue: seq<string>,
                         more: seq<string>)
    requires queue != [] && Closed(nodes, g, source, done, queue)
    requires more == if Expands(nodes, queue[0]) then Succ(g, queue[0]) else []
    ensures Closed(nodes, g, source, done + {queue[0]}, queue[1..] + more)
  {
    assert queue == [queue[0]] + queue[1..];
  }

  lemma VisitKeepsCollected(nodes: NodeMap, done: set<string>, seen: set<string>, id: string)
    requires Collected(nodes, done, seen) && (id in nodes ==> !Blocks(nodes[id]))
    ensures Collected(nodes, done + {id}, seen + if id in nodes then ColumnsOf(nodes[id]) else {})
  {
    var seen' := seen + if id in nodes then ColumnsOf(nodes[id]) else {};
    forall c | c in seen' && c !in seen
      ensures exists v :: v in done + {id} && v in nodes && !Blocks(nodes[v]) && c in ColumnsOf(nodes[v])
    {
      assert id in done + {id};
    }
  }

  // The walk revisits a node once per way to reach it; on an acyclic graph there are
  // finitely many ways.
  method CollectProjectedColumns(source: string, dag: Dag, nodes: NodeMap) returns (r: Option<seq<string>>)
    requires Acyclic(dag)
    ensures IsHint(nodes, dag, source, r)
  {
    var seen: set<string> := {};
    var queue := Succ(dag, source);
    ghost var done: set<string> := {};
    SuccessorsAreMet(nodes, dag, source, source);
    while |queue| > 0
      invariant forall v :: v in queue || v in done ==> Met(nodes, dag, source, v)
      invariant Closed(nodes, dag, source, done, queue)
      invariant Collected(nodes, done, seen)
      decreases QueueWork(dag, queue)
    {
      var id := queue[0];
      ExpandingIsProgress(dag, queue);
      VisitKeepsClosed(nodes, dag, source, done, queue, if Expands(nodes, id) then Succ(dag, id) else []);
      assert queue[1..] + [] == queue[1..];
      assert queue == [id] + queue[1..];
      queue := queue[1..];
      if id !in nodes {
        VisitKeepsCollected(nodes, done, seen, id);
        assert seen + {} == seen;
        done := done + {id};
        continue;
      }
      var node := nodes[id];
      if Blocks(node) {
        return None;
      }
      VisitKeepsCollected(nodes, done, seen, id);
      var columns := NamedColumns(node);
      seen := seen + columns;
      done := done + {id};
      if !node.nodeType.Join? {
        SuccessorsAreMet(nodes, dag, source, id);
        queue := queue + Succ(dag, id);
      }
    }
    var out := SortedKeys(seen);
    CollectedIsHint(nodes, dag, source, done, out);
    return Some(out);
  }
}
