// Directed graphs as the workflow engine keeps them: a map from a node id to the
// list of its targets, an id without an entry having none.
module Graph {
  import opened Text

  type Dag = map<string, seq<string>>

  function Succ(g: Dag, u: string): seq<string> {
    if u in g then g[u] else []
  }

  ghost predicate Connects(g: Dag, u: string, v: string) {
    v in Succ(g, u)
  }

  ghost predicate IsPath(g: Dag, p: seq<string>) {
    |p| >= 1 && forall i :: 0 <= i < |p| - 1 ==> Connects(g, p[i], p[i + 1])
  }

  ghost predicate IsCycle(g: Dag, p: seq<string>) {
    |p| >= 2 && IsPath(g, p) && p[0] == p[|p| - 1]
  }

  ghost predicate Acyclic(g: Dag) {
    forall p: seq<string> :: !IsCycle(g, p)
  }

  // A non-empty walk from u to v.
  ghost predicate IsWalk(g: Dag, u: string, v: string, p: seq<string>) {
    |p| >= 2 && IsPath(g, p) && p[0] == u && p[|p| - 1] == v
  }

  ghost predicate Reaches(g: Dag, u: string, v: string) {
    exists p :: IsWalk(g, u, v, p)
  }

  ghost function AllTargets(g: Dag): set<string> {
    set u, v | u in g && v in g[u] :: v
  }

  ghost function Descendants(g: Dag, u: string): set<string> {
    set v | v in AllTargets(g) && Reaches(g, u, v)
  }

  ghost function Ancestors(g: Dag, v: string): set<string> {
    set u | u in g && Reaches(g, u, v)
  }

  lemma EdgeReaches(g: Dag, u: string, v: string)
    requires Connects(g, u, v)
    ensures Reaches(g, u, v)
  {
    assert IsWalk(g, u, v, [u, v]);
  }

  lemma ReachesIsTransitive(g: Dag, u: string, v: string, w: string)
    requires Reaches(g, u, v) && Reaches(g, v, w)
    ensures Reaches(g, u, w)
  {
    var p :| IsWalk(g, u, v, p);
    var q :| IsWalk(g, v, w, q);
    var r := p + q[1..];
    forall i | 0 <= i < |r| - 1 ensures Connects(g, r[i], r[i + 1]) {
      if i >= |p| - 1 {
        assert r[i] == q[i - |p| + 1] && r[i + 1] == q[i - |p| + 2];
      }
    }
    assert IsWalk(g, u, w, r);
  }

  lemma AcyclicHasNoLoop(g: Dag, u: string)
    requires Acyclic(g)
    ensures !Reaches(g, u, u)
  {
    forall p ensures !IsWalk(g, u, u, p) {
      assert IsWalk(g, u, u, p) ==> IsCycle(g, p);
    }
  }

  // Following an edge strictly shrinks what lies ahead; this is what makes a walk
  // without a visited set stop on an acyclic graph.
  lemma DescendantsShrink(g: Dag, u: string, v: string)
    requires Acyclic(g) && Connects(g, u, v)
    ensures |Descendants(g, v)| < |Descendants(g, u)|
  {
    EdgeReaches(g, u, v);
    AcyclicHasNoLoop(g, v);
    assert v in AllTargets(g);
    forall w | w in Descendants(g, v) ensures w in Descendants(g, u) {
      ReachesIsTransitive(g, u, v, w);
    }
    assert v in Descendants(g, u) - Descendants(g, v);
    SubsetIsSmaller(Descendants(g, v), Descendants(g, u) - {v});
  }

  lemma AncestorsShrink(g: Dag, u: string, v: string)
    requires Acyclic(g) && Connects(g, u, v)
    ensures |Ancestors(g, u)| < |Ancestors(g, v)|
  {
    EdgeReaches(g, u, v);
    AcyclicHasNoLoop(g, u);
    forall w | w in Ancestors(g, u) ensures w in Ancestors(g, v) {
      ReachesIsTransitive(g, w, u, v);
    }
    assert u in Ancestors(g, v) - Ancestors(g, u);
    SubsetIsSmaller(Ancestors(g, u), Ancestors(g, v) - {u});
  }

  ghost predicate HasPredecessor(g: Dag, from: set<string>, v: string) {
    exists u :: u in from && Connects(g, u, v)
  }

  // Every member of the stuck set has a predecessor in it, so one can walk
  // backwards for ever: the walk must come back to where it has been.
  lemma StuckSetHasCycle(g: Dag, stuck: set<string>)
    requires stuck != {}
    requires forall v {:trigger HasPredecessor(g, stuck, v)} :: v in stuck ==> HasPredecessor(g, stuck, v)
    ensures exists p :: IsCycle(g, p)
  {
    var p := WalkBack(g, stuck, |stuck| + 1);
    if Distinct(p) {
      DistinctCardinality(p);
      SubsetIsSmaller(SetOf(p), stuck);
    } else {
      var i, j :| 0 <= i < j < |p| && p[i] == p[j];
      SliceIsPath(g, p, i, j);
      assert IsCycle(g, p[i..j + 1]);
    }
  }

  lemma SliceIsPath(g: Dag, p: seq<string>, i: nat, j: nat)
    requires IsPath(g, p) && i < j < |p|
    ensures IsPath(g, p[i..j + 1])
  {
    var q := p[i..j + 1];
    forall k | 0 <= k < |q| - 1 ensures Connects(g, q[k], q[k + 1]) {
      assert q[k] == p[i + k] && q[k + 1] == p[i + k + 1];
    }
  }

  lemma {:induction false} WalkBack(g: Dag, stuck: set<string>, n: nat) returns (p: seq<string>)
    requires stuck != {} && n >= 1
    requires forall v {:trigger HasPredecessor(g, stuck, v)} :: v in stuck ==> HasPredecessor(g, stuck, v)
    ensures |p| == n && IsPath(g, p) && forall x :: x in p ==> x in stuck
  {
    if n == 1 {
      var v :| v in stuck;
      p := [v];
    } else {
      var q := WalkBack(g, stuck, n - 1);
      assert q[0] in stuck && HasPredecessor(g, stuck, q[0]);
      var u :| u in stuck && Connects(g, u, q[0]);
      p := [u] + q;
    }
  }

  // An order in which every edge goes forward leaves no room for a cycle.
  lemma ForwardEdgesAreAcyclic(g: Dag, order: seq<string>)
    requires Distinct(order)
    requires forall u, v :: Connects(g, u, v) ==> Before(order, u, v)
    ensures Acyclic(g)
  {
    forall p ensures !IsCycle(g, p) {
      if IsCycle(g, p) {
        PathGoesForward(g, order, p, |p| - 1);
        assert false;
      }
    }
  }

  ghost predicate Before(order: seq<string>, u: string, v: string) {
    exists i, j :: 0 <= i < j < |order| && order[i] == u && order[j] == v
  }

  lemma {:induction false} PathGoesForward(g: Dag, order: seq<string>, p: seq<string>, k: nat)
    requires Distinct(order)
    requires forall u, v :: Connects(g, u, v) ==> Before(order, u, v)
    requires IsPath(g, p) && 1 <= k < |p|
    ensures Before(order, p[0], p[k])
  {
    assert Connects(g, p[k - 1], p[k]);
    if k > 1 {
      PathGoesForward(g, order, p, k - 1);
    }
  }

  // ---- The work of a walk that keeps no visited set ----

  // The number of walks that start at u, the empty one included: what a queue that
  // re-expands every node it meets has to process on u's account.
  ghost function Walks(g: Dag, u: string): nat
    requires Acyclic(g)
    decreases |Descendants(g, u)|, |Succ(g, u)| + 1
  {
    forall v | v in Succ(g, u) ensures |Descendants(g, v)| < |Descendants(g, u)| {
      DescendantsShrink(g, u, v);
    }
    1 + WalksFrom(g, Succ(g, u), |Descendants(g, u)|)
  }

  ghost function WalksFrom(g: Dag, us: seq<string>, bound: nat): nat
    requires Acyclic(g)
    requires forall u :: u in us ==> |Descendants(g, u)| < bound
    decreases bound, |us|
  {
    if us == [] then 0 else Walks(g, us[0]) + WalksFrom(g, us[1..], bound)
  }

  // The measure of a queue.
  ghost function QueueWork(g: Dag, queue: seq<string>): nat
    requires Acyclic(g)
  {
    if queue == [] then 0 else Walks(g, queue[0]) + QueueWork(g, queue[1..])
  }

  lemma {:induction false} QueueWorkIsWalksFrom(g: Dag, us: seq<string>, bound: nat)
    requires Acyclic(g)
    requires forall u :: u in us ==> |Descendants(g, u)| < bound
    ensures QueueWork(g, us) == WalksFrom(g, us, bound)
  {
    if us != [] {
      QueueWorkIsWalksFrom(g, us[1..], bound);
    }
  }

  lemma {:induction false} QueueWorkSplits(g: Dag, a: seq<string>, b: seq<string>)
    requires Acyclic(g)
    ensures QueueWork(g, a + b) == QueueWork(g, a) + QueueWork(g, b)
  {
    if a == [] {
      assert a + b == b;
    } else {
      assert (a + b)[1..] == a[1..] + b;
      QueueWorkSplits(g, a[1..], b);
    }
  }

  // Replacing the head of the queue by its targets at the back leaves less to do.
  lemma ExpandingIsProgress(g: Dag, queue: seq<string>)
    requires Acyclic(g) && |queue| > 0
    ensures QueueWork(g, queue[1..] + Succ(g, queue[0])) < QueueWork(g, queue)
    ensures QueueWork(g, queue[1..]) < QueueWork(g, queue)
  {
    var u := queue[0];
    forall v | v in Succ(g, u) ensures |Descendants(g, v)| < |Descendants(g, u)| {
      DescendantsShrink(g, u, v);
    }
    QueueWorkIsWalksFrom(g, Succ(g, u), |Descendants(g, u)|);
    QueueWorkSplits(g, queue[1..], Succ(g, u));
  }
}
