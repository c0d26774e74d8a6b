// Pushdown in the engine: with the executors of the nodes package, when an aggregate behind
// filters can tell a hinted source from an unhinted one.
module EnginePushdown {
  import opened Wrappers
  import opened Text
  import opened Graph
  import opened Definition
  import opened Projection
  import opened Frames
  import opened Dictionaries
  import opened Nodes
  import opened Pushdown
  import opened Engines

  // What the executors work with: a database, the query of a source node, if its settings
  // give one, the limits on the frames handed on, and the expression language.
  datatype World = World(db: Database, query: Node -> Option<string>, maxCols: int, maxBytes: int, threshold: int,
                         lang: Language, show: Cell -> string)

  ghost predicate OneInput(inputs: map<string, Table>, t: Table) {
    inputs != map[] && forall k :: k in inputs ==> inputs[k] == t
  }

  function Hinted(hint: Option<seq<string>>): seq<string> {
    if hint.Some? then hint.value else []
  }

  function NamesRead(read: Option<seq<Row>>): set<string> {
    if read.Some? then NamesIn(read.value) else {}
  }

  // An executor fails, or yields the rows in a frame with these columns.
  ghost predicate Answers(o: Outcome, names: set<string>, rows: Option<seq<Row>>) {
    if rows.None? then o.Failed? else o.Produced? && o.t.cols.Keys == names && RowsOf(o.t) == rows.value
  }

  ghost predicate Builds(o: Outcome, rows: Option<seq<Row>>) {
    if rows.None? then o.Failed? else o.Produced? && BuiltFrom(o.t, rows.value)
  }

  // Every row has every column.
  ghost predicate IsUniform(rows: seq<Row>) {
    forall r :: r in rows ==> r.Keys == NamesIn(rows)
  }

  // The rows a source's connector hands over.
  ghost function FetchFor(w: World, n: Node, hint: Option<seq<string>>): Option<seq<Row>> {
    if w.query(n).None? then None else Fetch(w.db, w.query(n).value, Hinted(hint))
  }

  ghost predicate SameButFlag(a: Table, b: Table) {
    a.(truncated := true) == b.(truncated := true)
  }

  // A source fails, or yields a frame built from the rows fetched, in some order of columns,
  // that has been through the guardrails.
  ghost predicate Serves(o: Outcome, w: World, fetched: Option<seq<Row>>) {
    if fetched.None? then o.Failed?
    else
      && o.Produced?
      && exists built: Table ::
           BuiltFrom(built, fetched.value) && SameButFlag(o.t, Guarded(built, w.maxCols, w.maxBytes, w.threshold))
  }

  // One source node's executor, which has no inputs.
  ghost predicate RunsSource(exec: Executor, w: World, n: Node) {
    forall hint: Option<seq<string>> :: Serves(exec(n, map[], hint), w, FetchFor(w, n, hint))
  }

  ghost predicate RunsFilters(exec: Executor, w: World) {
    forall n: Node, inputs: map<string, Table>, hint: Option<seq<string>>, t: GoodTable ::
      n.nodeType.Filter? && n.config.filter.Some? && OneInput(inputs, t) ==>
        Answers(exec(n, inputs, hint), t.cols.Keys, FilterNode(w.lang, n.config.filter.value, RowsOf(t)))
  }

  ghost predicate RunsAggregates(exec: Executor, w: World) {
    forall n: Node, inputs: map<string, Table>, hint: Option<seq<string>>, t: GoodTable ::
      n.nodeType.Aggregate? && n.config.aggregate.Some? && OneInput(inputs, t) ==>
        Builds(exec(n, inputs, hint), AggregateNode(w.show, t.cols.Keys, n.config.aggregate.value, RowsOf(t)))
  }

  // ---- A node with one upstream ----

  lemma {:induction false} WireOne(edges: seq<Edge>, u: string, t: Table)
    requires edges != [] && forall e :: e in edges ==> e.source == u
    ensures OneInput(Wire(edges, map[u := t]), t)
  {
    var init, last := edges[..|edges| - 1], edges[|edges| - 1];
    assert last in edges;
    if init != [] {
      WireOne(init, u, t);
    }
    var wired := Wire(init, map[u := t]);
    assert forall k :: k in wired ==> wired[k] == t;
    assert Wire(edges, map[u := t]) == wired[HandleOf(last) := t][u := t];
    assert u in Wire(edges, map[u := t]);
  }

  // Its inputs are all its upstream's table.
  lemma StepOnOne(s: Setup, v: string, u: string, t: Table)
    requires Upstreams(s.d, v) == {u}
    ensures forall e :: e in EdgesInto(s.d.edges, v) ==> e.source == u
    ensures OneInput(Wire(EdgesInto(s.d.edges, v), map[u := t]), t)
  {
    EdgesIntoAreEdges(s.d.edges, v);
    EdgesIntoSources(s.d, v);
    assert u in Upstreams(s.d, v);
    WireOne(EdgesInto(s.d.edges, v), u, t);
  }

  lemma MeaningOnOne(s: Setup, v: string, u: string)
    requires Acyclic(DagOf(s.d)) && Upstreams(s.d, v) == {u}
    ensures Meaning(s, v) == if Meaning(s, u).Yields? then NodeStep(s, v, map[u := Meaning(s, u).t]) else Blocked
  {
    assert u in Upstreams(s.d, v);
    if Meaning(s, u).Yields? {
      OwnMeaning(s, v, map[u := Meaning(s, u).t]);
    }
  }

  // ---- What the nodes of a path mean ----

  // A node yields the rows in a frame with these columns, or does not yield anything.
  ghost predicate Holds(v: Verdict, names: set<string>, rows: Option<seq<Row>>) {
    if rows.None? then !v.Yields?
    else v.Yields? && ValidTable(v.t) && v.t.cols.Keys == names && RowsOf(v.t) == rows.value
  }

  function Capped(rows: Option<seq<Row>>, maxRows: nat): Option<seq<Row>> {
    if rows.Some? then Some(Cap(rows.value, maxRows)) else None
  }

  lemma LimitedIsValid(t: Table, maxRows: nat)
    requires ValidTable(t)
    ensures ValidTable(Limited(t, maxRows)) && Limited(t, maxRows).cols.Keys == t.cols.Keys
    ensures Limited(t, maxRows).numRows == |Cap(RowsOf(t), maxRows)|
  {
  }

  lemma LimitedRow(t: Table, maxRows: nat, i: nat)
    requires ValidTable(t) && ValidTable(Limited(t, maxRows)) && i < Limited(t, maxRows).numRows <= t.numRows
    requires Limited(t, maxRows).cols.Keys == t.cols.Keys
    ensures RowAt(Limited(t, maxRows), i) == RowAt(t, i)
  {
  }

  lemma LimitedRows(t: Table, maxRows: nat)
    requires ValidTable(t)
    ensures ValidTable(Limited(t, maxRows)) && Limited(t, maxRows).cols.Keys == t.cols.Keys
    ensures RowsOf(Limited(t, maxRows)) == Cap(RowsOf(t), maxRows)
  {
    LimitedIsValid(t, maxRows);
    forall i | 0 <= i < Limited(t, maxRows).numRows
      ensures RowsOf(Limited(t, maxRows))[i] == Cap(RowsOf(t), maxRows)[i] {
      LimitedRow(t, maxRows, i);
    }
  }

  lemma SettledHolds(o: Outcome, inputs: map<string, Table>, maxRows: nat, names: set<string>, rows: Option<seq<Row>>)
    requires Answers(o, names, rows)
    ensures Holds(Settle(o, inputs, maxRows), names, Capped(rows, maxRows))
  {
    if rows.Some? {
      LimitedRows(o.t, maxRows);
    }
  }

  ghost predicate Registered(s: Setup) {
    {NodeType.Source, NodeType.Filter, NodeType.Aggregate} <= s.registry
  }

  lemma SourceMeans(s: Setup, id: string, read: Option<seq<Row>>)
    requires Acyclic(DagOf(s.d)) && Registered(s) && Upstreams(s.d, id) == {} && Reads(s, id, read)
    requires NodeById(s.d.nodes)[id].nodeType.Source?
    ensures Holds(Meaning(s, id), NamesRead(read), Capped(read, s.maxRows))
  {
    OwnMeaning(s, id, map[]);
    EdgesIntoSources(s.d, id);
    var inputs := Wire(EdgesInto(s.d.edges, id), map[]);
    assert inputs == map[];
    SettledHolds(s.exec(NodeById(s.d.nodes)[id], inputs, HintOf(s.d, id)), inputs, s.maxRows, NamesRead(read), read);
  }

  // The source's executor reads these rows.
  ghost predicate Reads(s: Setup, id: string, read: Option<seq<Row>>) {
    && id in NodeById(s.d.nodes)
    && Answers(s.exec(NodeById(s.d.nodes)[id], map[], HintOf(s.d, id)), NamesRead(read), read)
  }

  function Filtered(lang: Language, e: string, rows: Option<seq<Row>>): Option<seq<Row>> {
    if rows.Some? then FilterNode(lang, e, rows.value) else None
  }

  lemma FilterMeans(s: Setup, w: World, v: string, u: string, names: set<string>, rows: Option<seq<Row>>)
    requires Acyclic(DagOf(s.d)) && Registered(s) && Upstreams(s.d, v) == {u} && RunsFilters(s.exec, w)
    requires IsFilter(NodeById(s.d.nodes), v)
    requires Holds(Meaning(s, u), names, rows)
    ensures var e := NodeById(s.d.nodes)[v].config.filter.value;
            Holds(Meaning(s, v), names, Capped(Filtered(w.lang, e, rows), s.maxRows))
  {
    MeaningOnOne(s, v, u);
    if rows.Some? {
      var t: GoodTable, n := Meaning(s, u).t, NodeById(s.d.nodes)[v];
      StepOnOne(s, v, u, t);
      var inputs := Wire(EdgesInto(s.d.edges, v), map[u := t]);
      assert OneInput(inputs, t);
      SettledHolds(s.exec(n, inputs, HintOf(s.d, v)), inputs, s.maxRows, names,
                   FilterNode(w.lang, n.config.filter.value, RowsOf(t)));
    }
  }

  function WidenAll(rows: seq<Row>): seq<Row> {
    seq(|rows|, i requires 0 <= i < |rows| => Widen(rows[i], NamesIn(rows)))
  }

  // The rows an aggregate shows.
  function Shown(out: Option<seq<Row>>, maxRows: nat): Option<seq<Row>> {
    if out.Some? then Some(Cap(WidenAll(out.value), maxRows)) else None
  }

  // The rows a node yields, if it yields anything.
  ghost predicate Shows(v: Verdict, rows: Option<seq<Row>>) {
    if rows.None? then !v.Yields? else v.Yields? && ValidTable(v.t) && RowsOf(v.t) == rows.value
  }

  lemma AggregateMeans(s: Setup, w: World, v: string, u: string, names: set<string>, rows: Option<seq<Row>>)
    requires Acyclic(DagOf(s.d)) && Registered(s) && Upstreams(s.d, v) == {u} && RunsAggregates(s.exec, w)
    requires var nodes := NodeById(s.d.nodes);
             v in nodes && nodes[v].nodeType.Aggregate? && nodes[v].config.aggregate.Some?
    requires Holds(Meaning(s, u), names, rows)
    ensures var cfg := NodeById(s.d.nodes)[v].config.aggregate.value;
            Shows(Meaning(s, v),
                  Shown(if rows.Some? then AggregateNode(w.show, names, cfg, rows.value) else None, s.maxRows))
  {
    MeaningOnOne(s, v, u);
    if rows.Some? {
      var t: GoodTable, n := Meaning(s, u).t, NodeById(s.d.nodes)[v];
      StepOnOne(s, v, u, t);
      var inputs := Wire(EdgesInto(s.d.edges, v), map[u := t]);
      assert OneInput(inputs, t);
      var o := s.exec(n, inputs, HintOf(s.d, v));
      var out := AggregateNode(w.show, names, n.config.aggregate.value, rows.value);
      assert Builds(o, out);
      if out.Some? {
        BuiltRows(o.t, out.value);
        LimitedRows(o.t, s.maxRows);
      }
    }
  }

  // ---- Along the path ----

  lemma {:induction false} FiltersSnoc(lang: Language, es: seq<string>, e: string, maxRows: nat, rows: seq<Row>)
    ensures RunFilters(lang, es + [e], maxRows, rows)
         == Capped(Filtered(lang, e, RunFilters(lang, es, maxRows, rows)), maxRows)
  {
    if es == [] {
      assert es + [e] == [e] && [e][1..] == [];
    } else {
      assert (es + [e])[1..] == es[1..] + [e];
      var out := FilterNode(lang, es[0], rows);
      if out.Some? {
        FiltersSnoc(lang, es[1..], e, maxRows, Cap(out.value, maxRows));
      }
    }
  }

  function AfterFilters(lang: Language, es: seq<string>, maxRows: nat, read: Option<seq<Row>>): Option<seq<Row>> {
    if read.Some? then RunFilters(lang, es, maxRows, Cap(read.value, maxRows)) else None
  }

  // Nothing feeds the first node of a path, and each other one only the node before it.
  ghost predicate IsChain(d: Definition, p: seq<string>) {
    && p != [] && Upstreams(d, p[0]) == {}
    && forall k :: 1 <= k < |p| ==> Upstreams(d, p[k]) == {p[k - 1]}
  }

  ghost function PlanOf(s: Setup, w: World, p: seq<string>): Plan {
    Plan(w.lang, w.show, NodeById(s.d.nodes), DagOf(s.d), p, s.maxRows)
  }

  ghost predicate IsPipeline(s: Setup, w: World, p: seq<string>) {
    && Acyclic(DagOf(s.d)) && Registered(s) && IsChain(s.d, p) && PlanOf(s, w, p).Valid()
    && p[0] in NodeById(s.d.nodes) && NodeById(s.d.nodes)[p[0]].nodeType.Source?
  }

  lemma {:induction false} ChainMeans(s: Setup, w: World, p: seq<string>, read: Option<seq<Row>>, k: nat)
    requires IsPipeline(s, w, p) && RunsFilters(s.exec, w) && Reads(s, p[0], read) && k < |p| - 1
    ensures var es := PlanOf(s, w, p).Filters();
            k <= |es| && Holds(Meaning(s, p[k]), NamesRead(read), AfterFilters(w.lang, es[..k], s.maxRows, read))
  {
    var es := PlanOf(s, w, p).Filters();
    if k == 0 {
      SourceMeans(s, p[0], read);
      assert es[..0] == [];
    } else {
      ChainMeans(s, w, p, read, k - 1);
      assert IsFilter(NodeById(s.d.nodes), p[k]);
      FilterMeans(s, w, p[k], p[k - 1], NamesRead(read), AfterFilters(w.lang, es[..k - 1], s.maxRows, read));
      PrefixStep(es, k - 1);
      if read.Some? {
        FiltersSnoc(w.lang, es[..k - 1], es[k - 1], s.maxRows, Cap(read.value, s.maxRows));
      }
    }
  }

  // The aggregate at the end of a pipeline shows what running its path on the rows read
  // yields.
  lemma PipelineMeans(s: Setup, w: World, p: seq<string>, read: Option<seq<Row>>)
    requires IsPipeline(s, w, p) && RunsFilters(s.exec, w) && RunsAggregates(s.exec, w) && Reads(s, p[0], read)
    ensures Shows(Meaning(s, p[|p| - 1]), Shown(PlanOf(s, w, p).Run(read), s.maxRows))
  {
    var es, last := PlanOf(s, w, p).Filters(), |p| - 1;
    ChainMeans(s, w, p, read, last - 1);
    assert es[..last - 1] == es;
    AggregateMeans(s, w, p[last], p[last - 1], NamesRead(read), AfterFilters(w.lang, es, s.maxRows, read));
  }

  // ---- What a source yields ----

  lemma KeysOfNarrowed(t: Table, maxCols: int)
    requires ValidTable(t)
    ensures MayKeep(t.cols.Keys, maxCols, Narrowed(t, maxCols).cols.Keys)
  {
    DistinctCardinality(t.names);
    if 0 < maxCols < |t.names| {
      var kept := t.names[..maxCols];
      KeptAreColumns(t.names, maxCols);
      assert Distinct(kept);
      DistinctCardinality(kept);
      assert Narrowed(t, maxCols).cols.Keys == SetOf(kept);
    }
  }

  lemma NarrowedRow(t: Table, maxCols: int, i: nat)
    requires ValidTable(t) && ValidTable(Narrowed(t, maxCols)) && i < t.numRows
    ensures Narrowed(t, maxCols).numRows == t.numRows
    ensures RowAt(Narrowed(t, maxCols), i) == Narrow(RowAt(t, i), Narrowed(t, maxCols).cols.Keys)
  {
    if 0 < maxCols < |t.names| {
      KeptAreColumns(t.names, maxCols);
    }
  }

  lemma NarrowedRows(t: Table, maxCols: int)
    requires ValidTable(t)
    ensures ValidTable(Narrowed(t, maxCols))
    ensures RowsOf(Narrowed(t, maxCols)) == Project(RowsOf(t), Narrowed(t, maxCols).cols.Keys)
  {
    NarrowedIsValid(t, maxCols);
    forall i | 0 <= i < t.numRows
      ensures RowAt(Narrowed(t, maxCols), i) == Narrow(RowAt(t, i), Narrowed(t, maxCols).cols.Keys)
    {
      NarrowedRow(t, maxCols, i);
    }
  }

  lemma TruncatedCell(t: Table, maxBytes: int, n: string, i: nat)
    requires ValidTable(t) && i < t.numRows && n in t.cols
    ensures n in Truncated(t, maxBytes).cols && |Truncated(t, maxBytes).cols[n].cells| == t.numRows
    ensures Truncated(t, maxBytes).cols[n].cells[i] == CutCell(t.cols[n].cells[i], maxBytes)
  {
  }

  lemma TruncatedRow(t: Table, maxBytes: int, i: nat)
    requires ValidTable(t) && ValidTable(Truncated(t, maxBytes)) && i < t.numRows
    ensures RowAt(Truncated(t, maxBytes), i) == Clip(RowAt(t, i), maxBytes)
  {
    var cut, clipped := RowAt(Truncated(t, maxBytes), i), Clip(RowAt(t, i), maxBytes);
    assert cut.Keys == t.cols.Keys && clipped.Keys == t.cols.Keys;
    forall n | n in t.cols ensures cut[n] == clipped[n] {
      TruncatedCell(t, maxBytes, n, i);
    }
  }

  lemma TruncatedRows(t: Table, maxBytes: int)
    requires ValidTable(t)
    ensures ValidTable(Truncated(t, maxBytes)) && Truncated(t, maxBytes).cols.Keys == t.cols.Keys
    ensures RowsOf(Truncated(t, maxBytes)) == ClipAll(RowsOf(t), maxBytes)
  {
    forall i | 0 <= i < t.numRows ensures RowAt(Truncated(t, maxBytes), i) == Clip(RowAt(t, i), maxBytes) {
      TruncatedRow(t, maxBytes, i);
    }
  }

  // Dictionaries are no part of the rows.
  lemma DictsApart(t: Table, dicts: map<string, Dictionary>)
    requires ValidTable(t)
    ensures ValidTable(t.(dicts := dicts)) && RowsOf(t.(dicts := dicts)) == RowsOf(t)
  {
    forall i | 0 <= i < t.numRows ensures RowAt(t.(dicts := dicts), i) == RowAt(t, i) {
    }
  }

  // A frame through the guardrails holds the rows narrowed to the columns kept and clipped.
  lemma ServedRows(t: Table, w: World)
    requires ValidTable(t)
    ensures var t' := Guarded(t, w.maxCols, w.maxBytes, w.threshold);
            && ValidTable(t') && MayKeep(t.cols.Keys, w.maxCols, t'.cols.Keys)
            && RowsOf(t') == ClipAll(Project(RowsOf(t), t'.cols.Keys), w.maxBytes)
  {
    var narrow := Narrowed(t, w.maxCols);
    var cut := Truncated(narrow, w.maxBytes);
    NarrowedRows(t, w.maxCols);
    KeysOfNarrowed(t, w.maxCols);
    TruncatedRows(narrow, w.maxBytes);
    if w.threshold > 0 {
      DictsApart(cut, DictsAfter(cut, w.threshold, cut.names));
    }
  }

  lemma WidenIsSame(row: Row, names: set<string>)
    requires row.Keys == names
    ensures Widen(row, names) == row
  {
  }

  lemma UniformBuilt(built: Table, rows: seq<Row>)
    requires BuiltFrom(built, rows) && IsUniform(rows)
    ensures RowsOf(built) == rows
  {
    BuiltRows(built, rows);
    forall i | 0 <= i < |rows| ensures Widen(rows[i], NamesIn(rows)) == rows[i] {
      WidenIsSame(rows[i], NamesIn(rows));
    }
  }

  lemma RowsButFlag(a: Table, b: Table)
    requires SameButFlag(a, b) && ValidTable(a) && ValidTable(b)
    ensures RowsOf(a) == RowsOf(b) && a.cols == b.cols
  {
    assert a.cols == a.(truncated := true).cols && a.numRows == a.(truncated := true).numRows;
    assert b.cols == b.(truncated := true).cols && b.numRows == b.(truncated := true).numRows;
    forall i | 0 <= i < a.numRows ensures RowAt(a, i) == RowAt(b, i) {
    }
  }

  // What a source yields is what was fetched, with some columns kept that the limit allows.
  lemma ServesRows(o: Outcome, w: World, rows: seq<Row>)
    requires Serves(o, w, Some(rows)) && IsUniform(rows)
    ensures MayKeep(NamesIn(rows), w.maxCols, o.t.cols.Keys)
    ensures RowsOf(o.t) == ClipAll(Project(rows, o.t.cols.Keys), w.maxBytes)
  {
    var built: Table :|
      BuiltFrom(built, rows) && SameButFlag(o.t, Guarded(built, w.maxCols, w.maxBytes, w.threshold));
    UniformBuilt(built, rows);
    ServedRows(built, w);
    RowsButFlag(o.t, Guarded(built, w.maxCols, w.maxBytes, w.threshold));
  }

  // The columns of the frame a source yields.
  ghost function KeptBy(o: Outcome): set<string> {
    if o.Produced? then o.t.cols.Keys else {}
  }

  lemma NamesServed(rows: seq<Row>, kept: set<string>, maxBytes: int)
    requires kept <= NamesIn(rows)
    ensures NamesIn(ClipAll(Project(rows, kept), maxBytes)) == kept
  {
    NamesClip(Project(rows, kept), maxBytes);
    NamesNarrow(rows, kept);
  }

  lemma AnswersServed(w: World, sql: string, hint: seq<string>, o: Outcome)
    requires Serves(o, w, Fetch(w.db, sql, hint))
    requires Fetch(w.db, sql, hint).Some? ==> IsUniform(Fetch(w.db, sql, hint).value)
    ensures var read := ReadSource(w.db, sql, hint, w.maxBytes, KeptBy(o)); Answers(o, NamesRead(read), read)
  {
    var fetched := Fetch(w.db, sql, hint);
    if fetched.Some? {
      ServesRows(o, w, fetched.value);
      assert o.t.cols.Keys <= NamesIn(fetched.value);
      NamesServed(fetched.value, o.t.cols.Keys, w.maxBytes);
    }
  }

  // ---- With hints and without ----

  // The same engine, were no hint ever handed out.
  function Unhinted(s: Setup): Setup {
    s.(exec := (n, inputs, _) => s.exec(n, inputs, None))
  }

  ghost predicate SameRows(a: Verdict, b: Verdict) {
    && (a.Yields? <==> b.Yields?)
    && (a.Yields? ==> ValidTable(a.t) && ValidTable(b.t) && RowsOf(a.t) == RowsOf(b.t))
  }

  lemma HintOfIsHint(d: Definition, id: string)
    requires HintOf(d, id).Some?
    ensures IsHint(NodeById(d.nodes), DagOf(d), id, HintOf(d, id))
  {
    var nodes, g := NodeById(d.nodes), DagOf(d);
    var hint := SortedSet(NamedSet(nodes, g, id));
    forall c ensures c in hint <==> Names(nodes, g, id, c) {
      assert c in hint <==> c in SetOf(hint);
    }
  }

  lemma UnhintedRunsAlike(s: Setup, w: World)
    requires RunsFilters(s.exec, w) && RunsAggregates(s.exec, w)
    ensures RunsFilters(Unhinted(s).exec, w) && RunsAggregates(Unhinted(s).exec, w)
  {
  }

  // The database answers the source's query, and that query inside a projection.
  ghost predicate IsAnswered(s: Setup, w: World, source: string)
    requires source in NodeById(s.d.nodes)
  {
    var sql, hint := w.query(NodeById(s.d.nodes)[source]), HintOf(s.d, source);
    sql.Some? ==>
      && (w.db(sql.value).Some? ==> IsAnswer(w.db(sql.value).value))
      && (hint.Some? ==> Nests(w.db, sql.value, hint.value))
  }

  lemma SameKeysAreUniform(rows: seq<Row>, names: set<string>)
    requires forall r :: r in rows ==> r.Keys == names
    ensures IsUniform(rows)
  {
    forall r | r in rows ensures r.Keys == NamesIn(rows) {
      assert forall n :: n in names ==> n in r && n in NamesIn(rows);
    }
  }

  lemma ProjectedKeys(a: Answer, hint: set<string>)
    requires IsAnswer(a)
    ensures forall r :: r in Project(a.rows, hint) ==> r.Keys == SetOf(a.columns) * hint
  {
    forall r | r in Project(a.rows, hint) ensures r.Keys == SetOf(a.columns) * hint {
      var i :| 0 <= i < |a.rows| && Project(a.rows, hint)[i] == r;
      assert a.rows[i] in a.rows;
    }
  }

  lemma FetchedIsUniform(db: Database, sql: string, hint: seq<string>)
    requires db(sql).Some? ==> IsAnswer(db(sql).value)
    requires hint == [] || (Nests(db, sql, hint) && Ascending(hint))
    ensures Fetch(db, sql, hint).Some? ==> IsUniform(Fetch(db, sql, hint).value)
  {
    if db(sql).Some? {
      var a := db(sql).value;
      SameKeysAreUniform(a.rows, SetOf(a.columns));
      ProjectedKeys(a, SetOf(hint));
      SameKeysAreUniform(Project(a.rows, SetOf(hint)), SetOf(a.columns) * SetOf(hint));
    }
    if SqlGuard.Applies(sql, hint) {
      HintedFetch(db, sql, hint);
    }
  }

  // What the source yields as Run calls it, and as it would be called without hints.
  ghost function HintedOutcome(s: Setup, source: string): Outcome
    requires source in NodeById(s.d.nodes)
  {
    s.exec(NodeById(s.d.nodes)[source], map[], HintOf(s.d, source))
  }

  ghost function FullOutcome(s: Setup, source: string): Outcome
    requires source in NodeById(s.d.nodes)
  {
    s.exec(NodeById(s.d.nodes)[source], map[], None)
  }

  lemma PipelineReads(s: Setup, w: World, id: string, sql: string)
    requires id in NodeById(s.d.nodes) && NodeById(s.d.nodes)[id].nodeType.Source?
    requires RunsSource(s.exec, w, NodeById(s.d.nodes)[id]) && IsAnswered(s, w, id)
    requires w.query(NodeById(s.d.nodes)[id]) == Some(sql)
    ensures var hint := Hinted(HintOf(s.d, id));
            && Reads(s, id, ReadSource(w.db, sql, hint, w.maxBytes, KeptBy(HintedOutcome(s, id))))
            && Reads(Unhinted(s), id, ReadSource(w.db, sql, [], w.maxBytes, KeptBy(FullOutcome(s, id))))
  {
    var n, hint := NodeById(s.d.nodes)[id], HintOf(s.d, id);
    if hint.Some? {
      HintOfIsHint(s.d, id);
    }
    FetchedIsUniform(w.db, sql, Hinted(hint));
    FetchedIsUniform(w.db, sql, []);
    assert Serves(s.exec(n, map[], hint), w, FetchFor(w, n, hint));
    assert Serves(s.exec(n, map[], None), w, FetchFor(w, n, None));
    AnswersServed(w, sql, Hinted(hint), HintedOutcome(s, id));
    assert Unhinted(s).exec(n, map[], hint) == s.exec(n, map[], None);
    AnswersServed(w, sql, [], FullOutcome(s, id));
  }

  // A source with a query, its executor, and a database for it.
  ghost predicate RunsPipeline(s: Setup, w: World, p: seq<string>)
    requires IsPipeline(s, w, p)
  {
    && RunsSource(s.exec, w, NodeById(s.d.nodes)[p[0]]) && RunsFilters(s.exec, w) && RunsAggregates(s.exec, w)
    && IsAnswered(s, w, p[0])
  }

  // What the path makes of the rows read, by the source's hint and without.
  ghost function HintedResult(s: Setup, w: World, p: seq<string>): Option<seq<Row>>
    requires IsPipeline(s, w, p)
  {
    var sql := w.query(NodeById(s.d.nodes)[p[0]]);
    if sql.None? then None
    else
      PlanOf(s, w, p).Run(ReadSource(w.db, sql.value, Hinted(HintOf(s.d, p[0])), w.maxBytes,
                                     KeptBy(HintedOutcome(s, p[0]))))
  }

  ghost function FullResult(s: Setup, w: World, p: seq<string>): Option<seq<Row>>
    requires IsPipeline(s, w, p)
  {
    var sql := w.query(NodeById(s.d.nodes)[p[0]]);
    if sql.None? then None
    else PlanOf(s, w, p).Run(ReadSource(w.db, sql.value, [], w.maxBytes, KeptBy(FullOutcome(s, p[0]))))
  }

  lemma PipelinesMean(s: Setup, w: World, p: seq<string>)
    requires IsPipeline(s, w, p) && RunsPipeline(s, w, p)
    ensures Shows(Meaning(s, p[|p| - 1]), Shown(HintedResult(s, w, p), s.maxRows))
    ensures Shows(Meaning(Unhinted(s), p[|p| - 1]), Shown(FullResult(s, w, p), s.maxRows))
  {
    var n := NodeById(s.d.nodes)[p[0]];
    UnhintedRunsAlike(s, w);
    assert PlanOf(Unhinted(s), w, p) == PlanOf(s, w, p);
    if w.query(n).Some? {
      var sql := w.query(n).value;
      PipelineReads(s, w, p[0], sql);
      var hint := Hinted(HintOf(s.d, p[0]));
      PipelineMeans(s, w, p, ReadSource(w.db, sql, hint, w.maxBytes, KeptBy(HintedOutcome(s, p[0]))));
      PipelineMeans(Unhinted(s), w, p, ReadSource(w.db, sql, [], w.maxBytes, KeptBy(FullOutcome(s, p[0]))));
    } else {
      assert Serves(s.exec(n, map[], HintOf(s.d, p[0])), w, FetchFor(w, n, HintOf(s.d, p[0])));
      assert Serves(s.exec(n, map[], None), w, FetchFor(w, n, None));
      assert Unhinted(s).exec(n, map[], HintOf(s.d, p[0])) == s.exec(n, map[], None);
      PipelineMeans(s, w, p, None);
      PipelineMeans(Unhinted(s), w, p, None);
    }
  }

  // The frame, if there is one, holds every column of the answer that the path names.
  ghost predicate FrameCovers(s: Setup, w: World, p: seq<string>, o: Outcome)
    requires IsPipeline(s, w, p)
  {
    var sql := w.query(NodeById(s.d.nodes)[p[0]]);
    sql.Some? && o.Produced? ==> Covers(PlanOf(s, w, p), w.db, sql.value, KeptBy(o))
  }

  // The source has no query or the hint is ignored, there is no result to be had, or the
  // hint does not change whether the query is allowed and answered.
  ghost predicate HintIsHarmless(s: Setup, w: World, p: seq<string>)
    requires IsPipeline(s, w, p)
  {
    var sql, hint := w.query(NodeById(s.d.nodes)[p[0]]), Hinted(HintOf(s.d, p[0]));
    || sql.None? || !SqlGuard.Applies(sql.value, hint)
    || PlanOf(s, w, p).Run(Whole(w.db, sql.value, w.maxBytes)).None?
    || (SqlGuard.Accepted(sql.value) <==> Projects(w.db, sql.value, hint))
  }

  // Where a source fails, it does not matter which columns would have been kept.
  ghost function KeptOrNamed(plan: Plan, o: Outcome): set<string>
    requires plan.Valid()
  {
    if o.Produced? then o.t.cols.Keys else plan.Named()
  }

  lemma FailedReadsNothing(w: World, plan: Plan, sql: string, hint: seq<string>, o: Outcome)
    requires plan.Valid() && Serves(o, w, Fetch(w.db, sql, hint))
    ensures ReadSource(w.db, sql, hint, w.maxBytes, KeptBy(o))
         == ReadSource(w.db, sql, hint, w.maxBytes, KeptOrNamed(plan, o))
  {
  }

  lemma ServesBoth(s: Setup, w: World, p: seq<string>, sql: string)
    requires IsPipeline(s, w, p) && RunsPipeline(s, w, p) && w.query(NodeById(s.d.nodes)[p[0]]) == Some(sql)
    ensures Serves(FullOutcome(s, p[0]), w, Fetch(w.db, sql, []))
    ensures Serves(HintedOutcome(s, p[0]), w, Fetch(w.db, sql, Hinted(HintOf(s.d, p[0]))))
  {
    var n, hint := NodeById(s.d.nodes)[p[0]], HintOf(s.d, p[0]);
    assert Serves(s.exec(n, map[], hint), w, FetchFor(w, n, hint));
    assert Serves(s.exec(n, map[], None), w, FetchFor(w, n, None));
  }

  // Results under the hint differ from those without only in that one of them fails.
  lemma ResultsAgreeIff(s: Setup, w: World, p: seq<string>)
    requires IsPipeline(s, w, p) && RunsPipeline(s, w, p) && PlanOf(s, w, p).ReadsOnlyNamed()
    requires FrameCovers(s, w, p, FullOutcome(s, p[0])) && FrameCovers(s, w, p, HintedOutcome(s, p[0]))
    ensures HintedResult(s, w, p) == FullResult(s, w, p) <==> HintIsHarmless(s, w, p)
    ensures HintedResult(s, w, p) == FullResult(s, w, p) || HintedResult(s, w, p).None? != FullResult(s, w, p).None?
  {
    var plan, n, hint := PlanOf(s, w, p), NodeById(s.d.nodes)[p[0]], HintOf(s.d, p[0]);
    if w.query(n).Some? {
      var sql := w.query(n).value;
      ServesBoth(s, w, p, sql);
      FailedReadsNothing(w, plan, sql, [], FullOutcome(s, p[0]));
      FailedReadsNothing(w, plan, sql, Hinted(hint), HintedOutcome(s, p[0]));
      var kept, kept' := KeptOrNamed(plan, FullOutcome(s, p[0])), KeptOrNamed(plan, HintedOutcome(s, p[0]));
      if SqlGuard.Applies(sql, Hinted(hint)) {
        HintOfIsHint(s.d, p[0]);
        PushdownPreservesAggregates(plan, hint.value, w.db, sql, w.maxBytes, kept, kept');
      } else {
        IgnoredHintReadsAlike(w.db, sql, Hinted(hint), w.maxBytes, kept');
        FullRun(plan, w.db, sql, w.maxBytes, kept);
        FullRun(plan, w.db, sql, w.maxBytes, kept');
      }
    }
  }

  // For every aggregate fed through filters by a source, in frames that hold what the path
  // names: the engine yields the same rows with hints as without exactly when the source's
  // hint is harmless.
  lemma HintsPreserveAggregates(s: Setup, w: World, p: seq<string>)
    requires IsPipeline(s, w, p) && RunsPipeline(s, w, p) && PlanOf(s, w, p).ReadsOnlyNamed()
    requires FrameCovers(s, w, p, FullOutcome(s, p[0])) && FrameCovers(s, w, p, HintedOutcome(s, p[0]))
    ensures SameRows(Meaning(s, p[|p| - 1]), Meaning(Unhinted(s), p[|p| - 1])) <==> HintIsHarmless(s, w, p)
  {
    PipelinesMean(s, w, p);
    ResultsAgreeIff(s, w, p);
  }

  // Frames of an answer within the column limit do hold it.
  lemma WithinLimitCovers(s: Setup, w: World, p: seq<string>, sql: string)
    requires IsPipeline(s, w, p) && RunsPipeline(s, w, p) && w.query(NodeById(s.d.nodes)[p[0]]) == Some(sql)
    requires w.db(sql).Some? ==> IsWithin(NamesIn(w.db(sql).value.rows), w.maxCols)
    ensures FrameCovers(s, w, p, FullOutcome(s, p[0])) && FrameCovers(s, w, p, HintedOutcome(s, p[0]))
  {
    var hint := HintOf(s.d, p[0]);
    ServesBoth(s, w, p, sql);
    FrameWithinCovers(s, w, p, sql, [], FullOutcome(s, p[0]));
    if hint.Some? {
      HintOfIsHint(s.d, p[0]);
      HintCoversPath(PlanOf(s, w, p), hint.value);
    }
    FrameWithinCovers(s, w, p, sql, Hinted(hint), HintedOutcome(s, p[0]));
  }

  lemma FrameWithinCovers(s: Setup, w: World, p: seq<string>, sql: string, hint: seq<string>, o: Outcome)
    requires IsPipeline(s, w, p) && IsAnswered(s, w, p[0]) && w.query(NodeById(s.d.nodes)[p[0]]) == Some(sql)
    requires Serves(o, w, Fetch(w.db, sql, hint))
    requires w.db(sql).Some? ==> IsWithin(NamesIn(w.db(sql).value.rows), w.maxCols)
    requires hint == [] || (Nests(w.db, sql, hint) && Ascending(hint) && PlanOf(s, w, p).Named() <= SetOf(hint))
    ensures FrameCovers(s, w, p, o)
  {
    var fetched := Fetch(w.db, sql, hint);
    FetchedIsUniform(w.db, sql, hint);
    if fetched.Some? && w.db(sql).Some? {
      var rows := w.db(sql).value.rows;
      ServesRows(o, w, fetched.value);
      if SqlGuard.Applies(sql, hint) {
        HintedFetch(w.db, sql, hint);
        NamesNarrow(rows, SetOf(hint));
        SubsetIsSmaller(NamesIn(rows) * SetOf(hint), NamesIn(rows));
      }
    }
  }

  // And over the limit, with a group key cut off, the engine without hints fails there.
  lemma CutKeyFailsUnhinted(s: Setup, w: World, p: seq<string>, key: string)
    requires IsPipeline(s, w, p) && RunsPipeline(s, w, p) && key in PlanOf(s, w, p).Aggregate().groupBy
    requires FullOutcome(s, p[0]).Produced? && key !in KeptBy(FullOutcome(s, p[0]))
    ensures !Meaning(Unhinted(s), p[|p| - 1]).Yields?
  {
    var sql, kept := w.query(NodeById(s.d.nodes)[p[0]]), KeptBy(FullOutcome(s, p[0]));
    PipelinesMean(s, w, p);
    if sql.Some? {
      CutKeyShows(PlanOf(s, w, p), [], w.db, sql.value, w.maxBytes, kept, kept, key);
    }
  }
}
