// Projection pushdown: a source that reads only the hinted columns gives the same
// result downstream, as long as the result is an aggregate.
module Pushdown {
  import opened Wrappers
  import opened Strings
  import opened Text
  import opened Graph
  import opened Aggregates
  import opened Definition
  import opened Projection
  import opened Frames
  import opened Dictionaries
  import opened GroupBys
  import opened Nodes
  import opened SqlGuard

  // ---- The nodes on a path, as functions of rows ----

  ghost predicate AgreeOn(names: set<string>, a: Row, b: Row) {
    forall n :: n in names ==> ((n in a <==> n in b) && (n in a ==> a[n] == b[n]))
  }

  ghost predicate ReadsOnly(cond: Condition, names: set<string>) {
    forall a: Row, b: Row :: AgreeOn(names, a, b) ==> cond(a) == cond(b)
  }

  // An expression is evaluated by the columns that can be read off it.
  ghost predicate ReadsOnlyItsColumns(lang: Language, e: string) {
    lang(e).Some? ==> ReadsOnly(lang(e).value, ExpressionColumnSet(e))
  }

  // The engine's row cap; none at zero.
  function Cap(rows: seq<Row>, maxRows: nat): seq<Row> {
    if maxRows == 0 || |rows| <= maxRows then rows else rows[..maxRows]
  }

  function RunFilters(lang: Language, es: seq<string>, maxRows: nat, rows: seq<Row>): Option<seq<Row>> {
    if es == [] then Some(rows)
    else
      var out := FilterNode(lang, es[0], rows);
      if out.None? then None else RunFilters(lang, es[1..], maxRows, Cap(out.value, maxRows))
  }

  // ---- Projection commutes with what reads only projected columns ----

  function Narrow(row: Row, hint: set<string>): Row {
    map n | n in row && n in hint :: row[n]
  }

  function Project(rows: seq<Row>, hint: set<string>): (out: seq<Row>)
    ensures |out| == |rows|
    ensures forall i :: 0 <= i < |rows| ==> out[i] == Narrow(rows[i], hint)
  {
    seq(|rows|, i requires 0 <= i < |rows| => Narrow(rows[i], hint))
  }

  lemma ProjectInit(rows: seq<Row>, hint: set<string>)
    requires rows != []
    ensures Project(rows, hint)[..|rows| - 1] == Project(rows[..|rows| - 1], hint)
  {
  }

  lemma {:induction false} KeptCommutes(cond: Condition, names: set<string>, rows: seq<Row>, hint: set<string>)
    requires ReadsOnly(cond, names) && names <= hint
    ensures var full := Kept(cond, rows);
            Kept(cond, Project(rows, hint)) == if full.Some? then Some(Project(full.value, hint)) else None
  {
    if rows != [] {
      var last := rows[|rows| - 1];
      ProjectInit(rows, hint);
      KeptCommutes(cond, names, rows[..|rows| - 1], hint);
      assert AgreeOn(names, last, Narrow(last, hint));
      if Kept(cond, rows).Some? {
        var init := Kept(cond, rows[..|rows| - 1]).value;
        assert Project(init + [last], hint) == Project(init, hint) + [Narrow(last, hint)];
        assert Project(init + [], hint) == Project(init, hint) + [];
      }
    }
  }

  lemma FilterCommutes(lang: Language, e: string, rows: seq<Row>, hint: set<string>)
    requires ReadsOnlyItsColumns(lang, e) && ExpressionColumnSet(e) <= hint
    ensures var full := FilterNode(lang, e, rows);
            FilterNode(lang, e, Project(rows, hint)) == if full.Some? then Some(Project(full.value, hint)) else None
  {
    if lang(e).Some? {
      KeptCommutes(lang(e).value, ExpressionColumnSet(e), rows, hint);
    }
  }

  lemma {:induction false} FiltersCommute(lang: Language, es: seq<string>, maxRows: nat, rows: seq<Row>,
                                          hint: set<string>)
    requires forall e :: e in es ==> ReadsOnlyItsColumns(lang, e) && ExpressionColumnSet(e) <= hint
    ensures var full := RunFilters(lang, es, maxRows, rows);
            RunFilters(lang, es, maxRows, Project(rows, hint))
              == if full.Some? then Some(Project(full.value, hint)) else None
  {
    if es != [] {
      FilterCommutes(lang, es[0], rows, hint);
      var out := FilterNode(lang, es[0], rows);
      if out.Some? {
        assert Cap(Project(out.value, hint), maxRows) == Project(Cap(out.value, maxRows), hint);
        FiltersCommute(lang, es[1..], maxRows, Cap(out.value, maxRows), hint);
      }
    }
  }

  ghost predicate CoversAggregate(cfg: AggregateConfig, hint: set<string>) {
    && (forall k :: k in cfg.groupBy ==> k in hint)
    && forall a :: a in cfg.aggregations && a.field != "" ==> a.field in hint
  }

  lemma NarrowKeepsKey(show: Cell -> string, row: Row, keys: seq<string>, hint: set<string>)
    requires forall k :: k in keys ==> k in hint
    ensures KeyTexts(show, Narrow(row, hint), keys) == KeyTexts(show, row, keys)
    ensures KeyCells(Narrow(row, hint), keys) == KeyCells(row, keys)
  {
    forall i | 0 <= i < |keys| ensures CellAt(Narrow(row, hint), keys[i]) == CellAt(row, keys[i]) {
      assert keys[i] in keys;
    }
  }

  lemma {:induction false} NarrowKeepsValues(row: Row, aggs: seq<Agg>, name: string, hint: set<string>)
    requires "" !in row && forall a :: a in aggs && a.field != "" ==> a.field in hint
    ensures RowValues(Narrow(row, hint), aggs, name) == RowValues(row, aggs, name)
  {
    if aggs != [] {
      NarrowKeepsValues(row, aggs[..|aggs| - 1], name, hint);
      assert aggs[|aggs| - 1] in aggs;
    }
  }

  lemma {:induction false} MembersCommute(show: Cell -> string, rows: seq<Row>, keys: seq<string>, key: string,
                                          hint: set<string>)
    requires forall k :: k in keys ==> k in hint
    ensures Members(show, Project(rows, hint), keys, key) == Project(Members(show, rows, keys, key), hint)
  {
    if rows != [] {
      var last := rows[|rows| - 1];
      ProjectInit(rows, hint);
      MembersCommute(show, rows[..|rows| - 1], keys, key, hint);
      NarrowKeepsKey(show, last, keys, hint);
      var init := Members(show, rows[..|rows| - 1], keys, key);
      assert Project(init + [last], hint) == Project(init, hint) + [Narrow(last, hint)];
      assert Project(init + [], hint) == Project(init, hint) + [];
    }
  }

  lemma KeysCommute(show: Cell -> string, rows: seq<Row>, keys: seq<string>, hint: set<string>)
    requires forall k :: k in keys ==> k in hint
    ensures KeysOf(show, Project(rows, hint), keys) == KeysOf(show, rows, keys)
  {
    forall key ensures key in KeysOf(show, Project(rows, hint), keys) <==> key in KeysOf(show, rows, keys) {
      MembersNonEmpty(show, rows, keys, key);
      MembersNonEmpty(show, Project(rows, hint), keys, key);
      MembersCommute(show, rows, keys, key, hint);
    }
  }

  lemma {:induction false} ValuesCommute(members: seq<Row>, aggs: seq<Agg>, name: string, hint: set<string>)
    requires forall r :: r in members ==> "" !in r
    requires forall a :: a in aggs && a.field != "" ==> a.field in hint
    ensures ValuesOf(Project(members, hint), aggs, name) == ValuesOf(members, aggs, name)
  {
    if members != [] {
      ProjectInit(members, hint);
      ValuesCommute(members[..|members| - 1], aggs, name, hint);
      NarrowKeepsValues(members[|members| - 1], aggs, name, hint);
    }
  }

  ghost predicate CoversAggs(aggs: seq<Agg>, hint: set<string>) {
    forall a :: a in aggs && a.field != "" ==> a.field in hint
  }

  lemma CellCommutes(members: seq<Row>, aggs: seq<Agg>, a: Agg, hint: set<string>)
    requires CoversAggs(aggs, hint) && forall r :: r in members ==> "" !in r
    ensures AggCell(Project(members, hint), aggs, a) == AggCell(members, aggs, a)
  {
    ValuesCommute(members, aggs, a.OutName(), hint);
  }

  lemma {:induction false} SummaryCommutes(members: seq<Row>, keys: seq<string>, aggs: seq<Agg>, hint: set<string>,
                                           i: nat)
    requires members != [] && i <= |aggs|
    requires CoversAggs(aggs, hint) && forall k :: k in keys ==> k in hint
    requires forall r :: r in members ==> "" !in r
    ensures SummaryUpTo(Project(members, hint), keys, aggs, i) == SummaryUpTo(members, keys, aggs, i)
  {
    if i == 0 {
      NarrowKeepsKey(_ => "", members[0], keys, hint);
    } else {
      SummaryCommutes(members, keys, aggs, hint, i - 1);
      CellCommutes(members, aggs, aggs[i - 1], hint);
    }
  }

  lemma {:induction false} MembersAreRows(show: Cell -> string, rows: seq<Row>, keys: seq<string>, key: string)
    ensures forall r :: r in Members(show, rows, keys, key) ==> r in rows
  {
    if rows != [] {
      MembersAreRows(show, rows[..|rows| - 1], keys, key);
    }
  }

  lemma AggregateCommutes(show: Cell -> string, names: set<string>, cfg: AggregateConfig, rows: seq<Row>,
                          hint: set<string>)
    requires CoversAggregate(cfg, hint)
    requires "" !in names && forall r :: r in rows ==> r.Keys <= names
    ensures AggregateNode(show, names * hint, cfg, Project(rows, hint)) == AggregateNode(show, names, cfg, rows)
  {
    var keys, aggs := cfg.groupBy, cfg.aggregations;
    KeysCommute(show, rows, keys, hint);
    var order := SortedSet(KeysOf(show, rows, keys));
    forall i | 0 <= i < |order|
      ensures GroupedRow(show, Project(rows, hint), keys, aggs, order[i])
           == GroupedRow(show, rows, keys, aggs, order[i])
    {
      var members := Members(show, rows, keys, order[i]);
      MembersCommute(show, rows, keys, order[i], hint);
      MembersAreRows(show, rows, keys, order[i]);
      if members != [] {
        SummaryCommutes(members, keys, aggs, hint, |aggs|);
      }
    }
    assert GroupedRows(show, Project(rows, hint), keys, aggs) == GroupedRows(show, rows, keys, aggs);
    assert forall k :: k in keys ==> (k in names * hint <==> k in names);
    assert forall a :: a in aggs ==> (a.field in names * hint <==> a.field in names);
  }

  // ---- What a source reads ----

  // What a database answers to a query; None is an error. A name may be there twice.
  datatype Answer = Answer(columns: seq<string>, rows: seq<Row>)
  type Database = string -> Option<Answer>

  // Every column has a name and every row has every column, the last of a name winning.
  ghost predicate IsAnswer(a: Answer) {
    "" !in a.columns && forall r :: r in a.rows ==> r.Keys == SetOf(a.columns)
  }

  // Every one of the names is the name of exactly one column.
  ghost predicate Resolves(columns: seq<string>, names: seq<string>) {
    forall c :: c in names ==> multiset(columns)[c] == 1
  }

  // A database that takes the hint's columns out of the query's answer, and fails when one
  // of them is not there or there twice.
  ghost predicate Nests(db: Database, sql: string, hint: seq<string>) {
    db(Wrapped(sql, hint)) ==
      if db(sql).Some? && Resolves(db(sql).value.columns, hint)
      then Some(Answer(hint, Project(db(sql).value.rows, SetOf(hint))))
      else None
  }

  function Clip(row: Row, maxBytes: int): Row {
    map n | n in row :: CutCell(row[n], maxBytes)
  }

  // Every text cut at the size limit.
  function ClipAll(rows: seq<Row>, maxBytes: int): (out: seq<Row>)
    ensures |out| == |rows|
    ensures forall i :: 0 <= i < |rows| ==> out[i] == Clip(rows[i], maxBytes)
  {
    seq(|rows|, i requires 0 <= i < |rows| => Clip(rows[i], maxBytes))
  }

  // The columns that can be left of a frame under a column limit: the frame's order of
  // columns is that in which a map was ranged over.
  ghost predicate MayKeep(names: set<string>, maxCols: int, kept: set<string>) {
    if maxCols <= 0 || |names| <= maxCols then kept == names else kept <= names && |kept| == maxCols
  }

  // The rows the connector hands over.
  ghost function Fetch(db: Database, sql: string, hint: seq<string>): Option<seq<Row>> {
    var text := Sent(sql, hint);
    if !Accepted(text) || db(text).None? then None else Some(db(text).value.rows)
  }

  // The rows the source yields, with these columns kept and texts cut. Its frame has the
  // columns that some row has.
  ghost function ReadSource(db: Database, sql: string, hint: seq<string>, maxBytes: int, kept: set<string>)
    : Option<seq<Row>>
  {
    var rows := Fetch(db, sql, hint);
    if rows.None? then None else Some(ClipAll(Project(rows.value, kept), maxBytes))
  }

  lemma ClipProjects(rows: seq<Row>, kept: set<string>, maxBytes: int)
    ensures ClipAll(Project(rows, kept), maxBytes) == Project(ClipAll(rows, maxBytes), kept)
  {
    forall i | 0 <= i < |rows|
      ensures Clip(Narrow(rows[i], kept), maxBytes) == Narrow(Clip(rows[i], maxBytes), kept) {
    }
  }

  lemma ProjectTwice(rows: seq<Row>, a: set<string>, b: set<string>)
    ensures Project(Project(rows, a), b) == Project(rows, a * b)
  {
    forall i | 0 <= i < |rows| ensures Narrow(Narrow(rows[i], a), b) == Narrow(rows[i], a * b) {
    }
  }

  lemma NamesClip(rows: seq<Row>, maxBytes: int)
    ensures NamesIn(ClipAll(rows, maxBytes)) == NamesIn(rows)
  {
    var out := ClipAll(rows, maxBytes);
    forall n | n in NamesIn(rows) ensures n in NamesIn(out) {
      var r :| r in rows && n in r;
      var i :| 0 <= i < |rows| && rows[i] == r;
      assert n in out[i] && out[i] in out;
    }
    forall n | n in NamesIn(out) ensures n in NamesIn(rows) {
      var r :| r in out && n in r;
      var i :| 0 <= i < |rows| && out[i] == r;
      assert rows[i] in rows;
    }
  }

  lemma NamesNarrow(rows: seq<Row>, h: set<string>)
    ensures NamesIn(Project(rows, h)) == NamesIn(rows) * h
  {
    forall n | n in NamesIn(rows) * h ensures n in NamesIn(Project(rows, h)) {
      var r :| r in rows && n in r;
      var i :| 0 <= i < |rows| && rows[i] == r;
      assert n in Project(rows, h)[i] && Project(rows, h)[i] in Project(rows, h);
    }
    forall n | n in NamesIn(Project(rows, h)) ensures n in NamesIn(rows) * h {
      var r :| r in Project(rows, h) && n in r;
      var i :| 0 <= i < |rows| && Project(rows, h)[i] == r;
      assert rows[i] in rows;
    }
  }

  // ---- On the workflow graph ----

  // A path of the graph, with what its nodes are run by and the row cap between them.
  datatype Plan = Plan(lang: Language, show: Cell -> string, nodes: NodeMap, g: Dag, path: seq<string>, maxRows: nat) {
    // A path from a source through filters to an aggregate.
    ghost predicate Valid() {
      && |path| >= 2 && IsPath(g, path)
      && (forall i :: 1 <= i < |path| - 1 ==> IsFilter(nodes, path[i]))
      && Last() in nodes && nodes[Last()].nodeType.Aggregate? && nodes[Last()].config.aggregate.Some?
    }

    function Last(): string
      requires |path| >= 2
    {
      path[|path| - 1]
    }

    ghost function Aggregate(): AggregateConfig
      requires Valid()
    {
      nodes[Last()].config.aggregate.value
    }

    ghost function Filters(): seq<string>
      requires Valid()
    {
      seq(|path| - 2, i requires 0 <= i < |path| - 2 =>
        if IsFilter(nodes, path[i + 1]) then nodes[path[i + 1]].config.filter.value else "")
    }

    // Every column the path's nodes name.
    ghost function Named(): set<string>
      requires Valid()
    {
      ColumnsOf(nodes[Last()]) + set e, c | e in Filters() && c in ExpressionColumnSet(e) :: c
    }

    ghost predicate ReadsOnlyNamed()
      requires Valid()
    {
      forall e :: e in Filters() ==> ReadsOnlyItsColumns(lang, e)
    }

    // Running the path's nodes on what the source yields.
    ghost function Run(read: Option<seq<Row>>): Option<seq<Row>>
      requires Valid()
    {
      if read.None? then None
      else
        var out := RunFilters(lang, Filters(), maxRows, Cap(read.value, maxRows));
        if out.None? then None else AggregateNode(show, NamesIn(read.value), Aggregate(), out.value)
    }
  }

  predicate IsFilter(nodes: NodeMap, u: string) {
    u in nodes && nodes[u].nodeType.Filter? && nodes[u].config.filter.Some?
  }

  // Every node on the path is met by the walk.
  lemma PathIsMet(plan: Plan, k: nat)
    requires plan.Valid() && 1 <= k < |plan.path|
    ensures Met(plan.nodes, plan.g, plan.path[0], plan.path[k])
  {
    var q := plan.path[..k + 1];
    assert forall i :: 1 <= i < |q| - 1 ==> IsFilter(plan.nodes, plan.path[i]);
    assert IsJoinFree(plan.nodes, plan.g, plan.path[0], q) && q[|q| - 1] == plan.path[k];
  }

  lemma PathNodeIsOpen(plan: Plan, k: nat)
    requires plan.Valid() && 1 <= k < |plan.path|
    ensures plan.path[k] in plan.nodes && !Blocks(plan.nodes[plan.path[k]])
  {
    assert k < |plan.path| - 1 ==> IsFilter(plan.nodes, plan.path[k]);
  }

  // So the hint covers what the nodes on it name.
  lemma HintCoversNode(plan: Plan, hint: seq<string>, k: nat)
    requires plan.Valid() && IsHint(plan.nodes, plan.g, plan.path[0], Some(hint)) && 1 <= k < |plan.path|
    ensures plan.path[k] in plan.nodes && !Blocks(plan.nodes[plan.path[k]])
    ensures ColumnsOf(plan.nodes[plan.path[k]]) <= SetOf(hint)
  {
    PathIsMet(plan, k);
    PathNodeIsOpen(plan, k);
    forall c | c in ColumnsOf(plan.nodes[plan.path[k]]) ensures c in hint {
      assert Names(plan.nodes, plan.g, plan.path[0], c);
    }
  }

  lemma HintCoversPath(plan: Plan, hint: seq<string>)
    requires plan.Valid() && IsHint(plan.nodes, plan.g, plan.path[0], Some(hint))
    ensures plan.Named() <= SetOf(hint)
  {
    HintCoversNode(plan, hint, |plan.path| - 1);
    forall e, c | e in plan.Filters() && c in ExpressionColumnSet(e) ensures c in SetOf(hint) {
      var i :| 0 <= i < |plan.Filters()| && plan.Filters()[i] == e;
      HintCoversNode(plan, hint, i + 1);
    }
  }

  lemma {:induction false} FiltersKeepRows(lang: Language, es: seq<string>, maxRows: nat, rows: seq<Row>,
                                           names: set<string>)
    requires forall r :: r in rows ==> r.Keys <= names
    ensures var out := RunFilters(lang, es, maxRows, rows); out.Some? ==> forall r :: r in out.value ==> r.Keys <= names
  {
    if es != [] {
      FilterKeepsRows(lang, es[0], rows);
      var out := FilterNode(lang, es[0], rows);
      if out.Some? {
        FiltersKeepRows(lang, es[1..], maxRows, Cap(out.value, maxRows), names);
      }
    }
  }

  lemma {:induction false} FilterKeepsRows(lang: Language, e: string, rows: seq<Row>)
    ensures var out := FilterNode(lang, e, rows); out.Some? ==> forall r :: r in out.value ==> r in rows
  {
    if rows != [] {
      FilterKeepsRows(lang, e, rows[..|rows| - 1]);
    }
  }

  lemma CapProjects(rows: seq<Row>, h: set<string>, maxRows: nat)
    ensures Cap(Project(rows, h), maxRows) == Project(Cap(rows, maxRows), h)
  {
  }

  // The path's nodes make the same of the rows and of what is left of them by columns that
  // cover all the path names.
  lemma CoveredRunsAlike(plan: Plan, rows: seq<Row>, h: set<string>)
    requires plan.Valid() && plan.ReadsOnlyNamed() && plan.Named() <= h && "" !in NamesIn(rows)
    ensures plan.Run(Some(Project(rows, h))) == plan.Run(Some(rows))
  {
    var names, es := NamesIn(rows), plan.Filters();
    NamesNarrow(rows, h);
    CapProjects(rows, h, plan.maxRows);
    assert forall e :: e in es ==> ExpressionColumnSet(e) <= plan.Named();
    FiltersCommute(plan.lang, es, plan.maxRows, Cap(rows, plan.maxRows), h);
    FiltersKeepRows(plan.lang, es, plan.maxRows, Cap(rows, plan.maxRows), names);
    var full := RunFilters(plan.lang, es, plan.maxRows, Cap(rows, plan.maxRows));
    if full.Some? {
      CoverFromColumns(plan.nodes[plan.Last()], h);
      AggregateCommutes(plan.show, names, plan.Aggregate(), full.value, h);
    }
  }

  // So they do for any columns kept that hold those of the frame the path names.
  lemma KeptRunsAlike(plan: Plan, rows: seq<Row>, kept: set<string>)
    requires plan.Valid() && plan.ReadsOnlyNamed() && plan.Named() * NamesIn(rows) <= kept && "" !in NamesIn(rows)
    ensures plan.Run(Some(Project(rows, kept))) == plan.Run(Some(rows))
  {
    var h := kept + plan.Named();
    CoveredRunsAlike(plan, rows, h);
    assert Project(rows, h) == Project(rows, kept) by {
      forall i | 0 <= i < |rows| ensures Narrow(rows[i], h) == Narrow(rows[i], kept) {
        assert rows[i] in rows;
        assert forall n :: n in rows[i] ==> n in NamesIn(rows);
      }
    }
  }

  // Without one of its group keys the aggregate fails.
  lemma CutKeyFails(plan: Plan, rows: seq<Row>, kept: set<string>, key: string)
    requires plan.Valid() && key in plan.Aggregate().groupBy && key !in kept
    ensures plan.Run(Some(Project(rows, kept))).None?
  {
    NamesNarrow(rows, kept);
  }

  // ---- With the hint and without ----

  // The query's answer as the source would hand it on if nothing were refused or cut off.
  ghost function Whole(db: Database, sql: string, maxBytes: int): Option<seq<Row>> {
    if db(sql).Some? then Some(ClipAll(db(sql).value.rows, maxBytes)) else None
  }

  // The columns kept hold those of the answer that the path names.
  ghost predicate Covers(plan: Plan, db: Database, sql: string, kept: set<string>)
    requires plan.Valid()
  {
    db(sql).Some? ==> plan.Named() * NamesIn(db(sql).value.rows) <= kept
  }

  lemma NamesOfAnswer(a: Answer, maxBytes: int)
    requires IsAnswer(a)
    ensures "" !in NamesIn(ClipAll(a.rows, maxBytes))
  {
    NamesClip(a.rows, maxBytes);
  }

  // A run that reads everything, in a frame that covers the path.
  lemma FullRun(plan: Plan, db: Database, sql: string, maxBytes: int, kept: set<string>)
    requires plan.Valid() && plan.ReadsOnlyNamed() && Covers(plan, db, sql, kept)
    requires db(sql).Some? ==> IsAnswer(db(sql).value)
    ensures plan.Run(ReadSource(db, sql, [], maxBytes, kept))
         == if Accepted(sql) then plan.Run(Whole(db, sql, maxBytes)) else None
  {
    if db(sql).Some? {
      var a := db(sql).value;
      NamesOfAnswer(a, maxBytes);
      NamesClip(a.rows, maxBytes);
      ClipProjects(a.rows, kept, maxBytes);
      KeptRunsAlike(plan, ClipAll(a.rows, maxBytes), kept);
    }
  }

  // The projected query is allowed and answered.
  ghost predicate Projects(db: Database, sql: string, hint: seq<string>) {
    Accepted(Wrapped(sql, hint)) && db(sql).Some? && Resolves(db(sql).value.columns, hint)
  }

  lemma HintedFetch(db: Database, sql: string, hint: seq<string>)
    requires Applies(sql, hint) && Nests(db, sql, hint) && Ascending(hint)
    ensures Fetch(db, sql, hint)
         == if Projects(db, sql, hint) then Some(Project(db(sql).value.rows, SetOf(hint))) else None
  {
    AscendingIsDistinct(hint);
    FirstsOfDistinct(hint);
  }

  // A run under a hint that applies, in a frame that covers the path.
  lemma HintedRun(plan: Plan, hint: seq<string>, db: Database, sql: string, maxBytes: int, kept: set<string>)
    requires plan.Valid() && plan.ReadsOnlyNamed() && IsHint(plan.nodes, plan.g, plan.path[0], Some(hint))
    requires Applies(sql, hint) && Nests(db, sql, hint) && (db(sql).Some? ==> IsAnswer(db(sql).value))
    requires Covers(plan, db, sql, kept)
    ensures plan.Run(ReadSource(db, sql, hint, maxBytes, kept))
         == if Projects(db, sql, hint) then plan.Run(Whole(db, sql, maxBytes)) else None
  {
    HintedFetch(db, sql, hint);
    if Projects(db, sql, hint) {
      var a, h := db(sql).value, SetOf(hint);
      NamesOfAnswer(a, maxBytes);
      NamesClip(a.rows, maxBytes);
      HintCoversPath(plan, hint);
      ProjectTwice(a.rows, h, kept);
      ClipProjects(a.rows, h * kept, maxBytes);
      KeptRunsAlike(plan, ClipAll(a.rows, maxBytes), h * kept);
    }
  }

  // On every path through filters to an aggregate, and whatever columns a limit leaves of
  // either frame as long as those the path names are among them: reading only the hint
  // gives what reading everything gives exactly when there is no result to be had, or the
  // projected query is allowed and answered just when the query by itself is allowed.
  lemma PushdownPreservesAggregates(plan: Plan, hint: seq<string>, db: Database, sql: string, maxBytes: int,
                                    kept: set<string>, kept': set<string>)
    requires plan.Valid() && plan.ReadsOnlyNamed() && IsHint(plan.nodes, plan.g, plan.path[0], Some(hint))
    requires Applies(sql, hint) && Nests(db, sql, hint) && (db(sql).Some? ==> IsAnswer(db(sql).value))
    requires Covers(plan, db, sql, kept) && Covers(plan, db, sql, kept')
    ensures var full := plan.Run(ReadSource(db, sql, [], maxBytes, kept));
            var hinted := plan.Run(ReadSource(db, sql, hint, maxBytes, kept'));
            var whole := plan.Run(Whole(db, sql, maxBytes));
            && (hinted == full <==> whole.None? || (Accepted(sql) <==> Projects(db, sql, hint)))
            && (hinted == full || (hinted.None? != full.None?))
  {
    FullRun(plan, db, sql, maxBytes, kept);
    HintedRun(plan, hint, db, sql, maxBytes, kept');
  }

  // A hint that does not apply changes nothing in what is read.
  lemma IgnoredHintReadsAlike(db: Database, sql: string, hint: seq<string>, maxBytes: int, kept: set<string>)
    requires !Applies(sql, hint)
    ensures ReadSource(db, sql, hint, maxBytes, kept) == ReadSource(db, sql, [], maxBytes, kept)
  {
  }

  // The hint fits an allowed query: no semicolon ends it, and every column of the hint is
  // the name of just one of the answer's and not that of a keyword.
  ghost predicate Fits(db: Database, sql: string, hint: seq<string>) {
    ';' !in sql && !NamesKeyword(hint) && db(sql).Some? && Resolves(db(sql).value.columns, hint)
  }

  lemma FitsIffProjects(db: Database, sql: string, hint: seq<string>)
    requires Accepted(sql) && AllSafe(hint)
    ensures Fits(db, sql, hint) <==> Projects(db, sql, hint)
  {
    AllowedStaysAllowedIff(sql, hint);
  }

  // For an allowed query that is exactly when the run fails anyway or the hint fits.
  lemma PushdownPreservesAllowed(plan: Plan, hint: seq<string>, db: Database, sql: string, maxBytes: int,
                                 kept: set<string>, kept': set<string>)
    requires plan.Valid() && plan.ReadsOnlyNamed() && IsHint(plan.nodes, plan.g, plan.path[0], Some(hint))
    requires Applies(sql, hint) && Nests(db, sql, hint) && (db(sql).Some? ==> IsAnswer(db(sql).value))
    requires Covers(plan, db, sql, kept) && Covers(plan, db, sql, kept') && Accepted(sql)
    ensures var full := plan.Run(ReadSource(db, sql, [], maxBytes, kept));
            var hinted := plan.Run(ReadSource(db, sql, hint, maxBytes, kept'));
            hinted == full <==> full.None? || Fits(db, sql, hint)
  {
    PushdownPreservesAggregates(plan, hint, db, sql, maxBytes, kept, kept');
    FullRun(plan, db, sql, maxBytes, kept);
    FitsIffProjects(db, sql, hint);
  }

  // Where a group key is cut off, the run that reads everything fails, so the hint is
  // harmless only if it fails the run as well.
  lemma CutKeyShows(plan: Plan, hint: seq<string>, db: Database, sql: string, maxBytes: int,
                    kept: set<string>, kept': set<string>, key: string)
    requires plan.Valid() && key in plan.Aggregate().groupBy && key !in kept
    ensures plan.Run(ReadSource(db, sql, [], maxBytes, kept)).None?
    ensures var full := plan.Run(ReadSource(db, sql, [], maxBytes, kept));
            var hinted := plan.Run(ReadSource(db, sql, hint, maxBytes, kept'));
            hinted == full <==> hinted.None?
  {
    var rows := Fetch(db, sql, []);
    if rows.Some? {
      ClipProjects(rows.value, kept, maxBytes);
      CutKeyFails(plan, ClipAll(rows.value, maxBytes), kept, key);
    }
  }

  // ---- Under a column limit ----

  lemma {:induction false} SomeSubset(s: set<string>, n: nat) returns (t: set<string>)
    requires n <= |s|
    ensures t <= s && |t| == n
  {
    if n == |s| {
      t := s;
    } else {
      var x :| x in s;
      t := SomeSubset(s - {x}, n);
    }
  }

  // A frame over the limit may lose any of its columns.
  lemma MayLose(names: set<string>, maxCols: int, c: string) returns (kept: set<string>)
    requires 0 < maxCols < |names| && c in names
    ensures MayKeep(names, maxCols, kept) && c !in kept
  {
    kept := SomeSubset(names - {c}, maxCols);
  }

  lemma KeepsAllWithin(names: set<string>, maxCols: int, kept: set<string>)
    requires MayKeep(names, maxCols, kept)
    ensures maxCols <= 0 || |names| <= maxCols ==> kept == names
  {
  }

  ghost predicate IsWithin(names: set<string>, maxCols: int) {
    maxCols <= 0 || |names| <= maxCols
  }

  // Whatever columns the limit leaves of the whole frame, the run gives that result.
  ghost predicate AlwaysGives(plan: Plan, db: Database, sql: string, maxBytes: int, maxCols: int,
                              result: Option<seq<Row>>)
    requires plan.Valid() && db(sql).Some?
  {
    forall kept :: MayKeep(NamesIn(db(sql).value.rows), maxCols, kept) ==>
      plan.Run(ReadSource(db, sql, [], maxBytes, kept)) == result
  }

  lemma WithinCovers(plan: Plan, hint: seq<string>, db: Database, sql: string, maxCols: int, kept': set<string>)
    requires plan.Valid() && plan.Named() <= SetOf(hint) && db(sql).Some? && IsWithin(SetOf(hint), maxCols)
    requires MayKeep(SetOf(hint) * NamesIn(db(sql).value.rows), maxCols, kept')
    ensures Covers(plan, db, sql, kept')
  {
    var names := SetOf(hint) * NamesIn(db(sql).value.rows);
    SubsetIsSmaller(names, SetOf(hint));
    KeepsAllWithin(names, maxCols, kept');
  }

  // Of an allowed query with a group key behind it, under a hint within the column limit:
  // the hinted run yields a result exactly when the hint fits and there is one to be had,
  // and then it is sure to be that of reading everything exactly when the answer is within
  // the limit as well. Over it that depends on the order in which a map is ranged over.
  lemma HintIsSureIffWithin(plan: Plan, hint: seq<string>, db: Database, sql: string, maxBytes: int, maxCols: int,
                            kept': set<string>)
    requires plan.Valid() && plan.ReadsOnlyNamed() && IsHint(plan.nodes, plan.g, plan.path[0], Some(hint))
    requires Applies(sql, hint) && Nests(db, sql, hint) && Accepted(sql) && db(sql).Some? && IsAnswer(db(sql).value)
    requires plan.Aggregate().groupBy != [] && IsWithin(SetOf(hint), maxCols)
    requires MayKeep(SetOf(hint) * NamesIn(db(sql).value.rows), maxCols, kept')
    ensures var hinted := plan.Run(ReadSource(db, sql, hint, maxBytes, kept'));
            var isSure := AlwaysGives(plan, db, sql, maxBytes, maxCols, hinted);
            && (hinted.Some? <==> Fits(db, sql, hint) && plan.Run(Whole(db, sql, maxBytes)).Some?)
            && (hinted.Some? ==> (isSure <==> IsWithin(NamesIn(db(sql).value.rows), maxCols)))
  {
    var names, key := NamesIn(db(sql).value.rows), plan.Aggregate().groupBy[0];
    HintCoversPath(plan, hint);
    WithinCovers(plan, hint, db, sql, maxCols, kept');
    HintedRun(plan, hint, db, sql, maxBytes, kept');
    FitsIffProjects(db, sql, hint);
    var hinted := plan.Run(ReadSource(db, sql, hint, maxBytes, kept'));
    if hinted.Some? {
      if IsWithin(names, maxCols) {
        AlwaysWhole(plan, db, sql, maxBytes, maxCols);
      } else {
        SomeKeyIsNamed(plan, db(sql).value.rows, maxBytes);
        var kept := MayLose(names, maxCols, key);
        CutKeyShows(plan, [], db, sql, maxBytes, kept, kept', key);
      }
    }
  }

  lemma AlwaysWhole(plan: Plan, db: Database, sql: string, maxBytes: int, maxCols: int)
    requires plan.Valid() && plan.ReadsOnlyNamed() && Accepted(sql) && db(sql).Some? && IsAnswer(db(sql).value)
    requires IsWithin(NamesIn(db(sql).value.rows), maxCols)
    ensures AlwaysGives(plan, db, sql, maxBytes, maxCols, plan.Run(Whole(db, sql, maxBytes)))
  {
    var names := NamesIn(db(sql).value.rows);
    forall kept | MayKeep(names, maxCols, kept)
      ensures plan.Run(ReadSource(db, sql, [], maxBytes, kept)) == plan.Run(Whole(db, sql, maxBytes))
    {
      KeepsAllWithin(names, maxCols, kept);
      FullRun(plan, db, sql, maxBytes, kept);
    }
  }

  lemma SomeKeyIsNamed(plan: Plan, rows: seq<Row>, maxBytes: int)
    requires plan.Valid() && plan.Aggregate().groupBy != [] && plan.Run(Some(ClipAll(rows, maxBytes))).Some?
    ensures plan.Aggregate().groupBy[0] in NamesIn(rows)
  {
    assert plan.Aggregate().groupBy[0] in plan.Aggregate().groupBy;
    NamesClip(rows, maxBytes);
  }

  // Whatever the database would answer, a hint that names a keyword, or is put around a
  // query with a semicolon, leaves an allowed query without result.
  lemma RefusedUnderHint(db: Database, sql: string, hint: seq<string>)
    requires Accepted(sql) && Applies(sql, hint) && (';' in sql || NamesKeyword(hint))
    ensures Fetch(db, sql, hint).None?
  {
    FirstsAreColumns(hint);
    assert NamesKeyword(hint) ==> NamesKeyword(Firsts(hint));
    AllowedStaysAllowedIff(sql, Firsts(hint));
  }

  // A source without rows has no columns, so grouping by any fails, hint or not.
  lemma NoRowsNoKeys(plan: Plan)
    requires plan.Valid() && plan.Aggregate().groupBy != []
    ensures plan.Run(Some([])).None?
  {
    assert plan.Aggregate().groupBy[0] in plan.Aggregate().groupBy && plan.Aggregate().groupBy[0] !in NamesIn([]);
  }

  lemma CoverFromColumns(n: Node, hint: set<string>)
    requires n.nodeType.Aggregate? && n.config.aggregate.Some? && ColumnsOf(n) <= hint
    ensures CoversAggregate(n.config.aggregate.value, hint)
  {
    var cfg := n.config.aggregate.value;
    forall k | k in cfg.groupBy ensures k in hint {
      assert k in SetOf(cfg.groupBy);
    }
    forall a | a in cfg.aggregations && a.field != "" ensures a.field in hint {
      assert a.field in ColumnsOf(n);
    }
  }

  // ---- Where pushdown shows ----

  // Without an aggregate at the end, the rows that come out are the same exactly when
  // no surviving row has a column outside the hint.
  lemma ProjectionShowsIff(lang: Language, es: seq<string>, maxRows: nat, rows: seq<Row>, hint: set<string>)
    requires forall e :: e in es ==> ReadsOnlyItsColumns(lang, e) && ExpressionColumnSet(e) <= hint
    requires RunFilters(lang, es, maxRows, rows).Some?
    ensures RunFilters(lang, es, maxRows, Project(rows, hint)) == RunFilters(lang, es, maxRows, rows)
        <==> forall r :: r in RunFilters(lang, es, maxRows, rows).value ==> r.Keys <= hint
  {
    FiltersCommute(lang, es, maxRows, rows, hint);
    var out := RunFilters(lang, es, maxRows, rows).value;
    ProjectedIsSame(out, hint);
  }

  lemma NarrowedIsSame(r: Row, hint: set<string>)
    ensures Narrow(r, hint) == r <==> r.Keys <= hint
  {
    assert Narrow(r, hint).Keys == r.Keys * hint;
  }

  lemma ProjectedIsSame(rows: seq<Row>, hint: set<string>)
    ensures Project(rows, hint) == rows <==> forall r :: r in rows ==> r.Keys <= hint
  {
    forall i | 0 <= i < |rows| ensures Project(rows, hint)[i] == rows[i] <==> rows[i].Keys <= hint {
      NarrowedIsSame(rows[i], hint);
    }
  }

  function FilterThenOutput(): (NodeMap, Dag) {
    var none := Config(None, None, None);
    (map["s" := Node("s", Source, none), "f" := Node("f", NodeType.Filter, none.(filter := Some("x"))),
         "o" := Node("o", Output, none)],
     map["s" := ["f"], "f" := ["o"]])
  }

  // source, filter on x, output: the hint is x alone, so any other column is lost.
  lemma OutputLosesColumns(lang: Language)
    requires ReadsOnlyItsColumns(lang, "x") && lang("x").Some?
    requires lang("x").value(map["x" := Bool(true), "y" := Bool(true)]) == Some(true)
    ensures var (nodes, g) := FilterThenOutput();
            IsHint(nodes, g, "s", Some(["x"]))
    ensures var rows: seq<Row> := [map["x" := Bool(true), "y" := Bool(true)]];
            RunFilters(lang, ["x"], 1, Project(rows, {"x"})) != RunFilters(lang, ["x"], 1, rows)
  {
    var (nodes, g) := FilterThenOutput();
    SingleWord();
    HintOfFilterThenOutput(nodes, g);
    var row: Row := map["x" := Bool(true), "y" := Bool(true)];
    var rows: seq<Row> := [row];
    assert rows[..0] == [];
    assert Kept(lang("x").value, rows) == Some([] + [row]);
    assert FilterNode(lang, "x", rows) == Some([] + [row]);
    assert RunFilters(lang, [], 1, rows) == Some(rows);
    assert ["x"][1..] == [] && ["x"][0] == "x";
    assert Cap([] + [row], 1) == rows;
    assert RunFilters(lang, ["x"], 1, rows) == Some(rows);
    ProjectionShowsIff(lang, ["x"], 1, rows, {"x"});
    assert rows[0] in rows && "y" in row.Keys && "y" !in {"x"};
  }

  lemma SingleWord()
    ensures ExpressionColumnSet("x") == {"x"}
  {
    assert WordEnd("x", 0) == 1;
    assert Identifiers("x", 1) == [];
    assert Identifiers("x", 0) == ["x"[0..1]] + [] && "x"[0..1] == "x";
    assert SetOf(["x"]) == {"x"};
  }

  lemma HintOfFilterThenOutput(nodes: NodeMap, g: Dag)
    requires (nodes, g) == FilterThenOutput() && ExpressionColumnSet("x") == {"x"}
    ensures IsHint(nodes, g, "s", Some(["x"]))
  {
    var done := {"f", "o"};
    assert Succ(g, "s") == ["f"] && Succ(g, "f") == ["o"] && Succ(g, "o") == [];
    assert Closed(nodes, g, "s", done, []);
    forall v | Met(nodes, g, "s", v) ensures v in done {
      var p :| IsJoinFree(nodes, g, "s", p) && p[|p| - 1] == v;
      ClosedContainsMet(nodes, g, "s", done, p);
    }
    assert Connects(g, "s", "f");
    MetNext(nodes, g, "s", "s", "f");
    assert ColumnsOf(nodes["f"]) == {"x"} && ColumnsOf(nodes["o"]) == {};
    assert Names(nodes, g, "s", "x");
    assert forall c :: Names(nodes, g, "s", c) ==> c == "x";
  }
}
