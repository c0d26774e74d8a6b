// The filter and the aggregate node: on rows, and on frames.
module Nodes {
  import opened Wrappers
  import opened Text
  import opened Aggregates
  import opened Definition
  import opened Frames
  import opened GroupBys

  // ---- Filter ----

  // Evaluating a compiled expression on a row: whether the result is truthy, or an error.
  type Condition = Row -> Option<bool>

  // Compiling an expression; None where it is invalid.
  type Language = string -> Option<Condition>

  // The rows a condition holds of; the first evaluation error fails all.
  function Kept(cond: Condition, rows: seq<Row>): Option<seq<Row>> {
    if rows == [] then Some([])
    else
      var init, last := Kept(cond, rows[..|rows| - 1]), cond(rows[|rows| - 1]);
      if init.None? || last.None? then None
      else Some(init.value + if last.value then [rows[|rows| - 1]] else [])
  }

  // What the filter node makes of rows. An empty or invalid expression fails even where
  // there are no rows.
  function FilterNode(lang: Language, e: string, rows: seq<Row>): Option<seq<Row>> {
    if e == "" || lang(e).None? then None else Kept(lang(e).value, rows)
  }

  lemma {:induction false} KeptIsFiltered(cond: Condition, rows: seq<Row>)
    ensures Kept(cond, rows).None? <==> exists r :: r in rows && cond(r).None?
    ensures Kept(cond, rows).Some? ==> Kept(cond, rows).value == FilterRows(rows, KeepTrue(cond))
  {
    if rows != [] {
      KeptIsFiltered(cond, rows[..|rows| - 1]);
      assert rows == rows[..|rows| - 1] + [rows[|rows| - 1]];
    }
  }

  // The node on its input frame. Its predicate remembers the first error, for which the
  // filtered frame is thrown away.
  method RunFilter(lang: Language, e: string, input: Frame) returns (out: Option<Frame>)
    requires input.Valid()
    ensures out.None? <==> FilterNode(lang, e, RowsOf(input.View())).None?
    ensures out.Some? ==>
      && fresh(out.value) && out.value.Valid() && out.value.names == input.names
      && RowsOf(out.value.View()) == FilterNode(lang, e, RowsOf(input.View())).value
  {
    if e == "" || lang(e).None? {
      return None;
    }
    ghost var rows := RowsOf(input.View());
    KeptIsFiltered(lang(e).value, rows);
    var failed := AnyFails(lang(e).value, input);
    var frame := input.Filter(KeepTrue(lang(e).value));
    if failed {
      return None;
    }
    return Some(frame);
  }

  function KeepTrue(cond: Condition): Row -> bool {
    r => cond(r) == Some(true)
  }

  // Whether the condition cannot be evaluated on some row.
  method AnyFails(cond: Condition, input: Frame) returns (failed: bool)
    requires input.Valid()
    ensures failed <==> exists r :: r in RowsOf(input.View()) && cond(r).None?
  {
    ghost var rows := RowsOf(input.View());
    for i := 0 to input.numRows
      invariant forall j :: 0 <= j < i ==> cond(rows[j]).Some?
    {
      var row := input.GetRow(i);
      assert row == rows[i] && rows[i] in rows;
      if cond(row).None? {
        return true;
      }
    }
    return false;
  }

  // ---- Aggregate ----

  ghost predicate CanGroup(names: set<string>, cfg: AggregateConfig, rows: seq<Row>) {
    && cfg.aggregations != []
    && (forall k :: k in cfg.groupBy ==> k in names)
    && (rows != [] ==> forall a :: a in cfg.aggregations && a.op != Count ==> a.field in names)
  }

  // What the aggregate node makes of rows with the given columns; None where it fails.
  ghost function AggregateNode(show: Cell -> string, names: set<string>, cfg: AggregateConfig, rows: seq<Row>)
    : Option<seq<Row>>
  {
    if CanGroup(names, cfg, rows) then Some(GroupedRows(show, rows, cfg.groupBy, cfg.aggregations)) else None
  }

  ghost function GroupedRows(show: Cell -> string, rows: seq<Row>, keys: seq<string>, aggs: seq<Agg>): seq<Row> {
    var order := SortedSet(KeysOf(show, rows, keys));
    seq(|order|, i requires 0 <= i < |order| => GroupedRow(show, rows, keys, aggs, order[i]))
  }

  ghost function GroupedRow(show: Cell -> string, rows: seq<Row>, keys: seq<string>, aggs: seq<Agg>, key: string): Row {
    var members := Members(show, rows, keys, key);
    if members == [] then map[] else Summary(members, keys, aggs)
  }

  // GroupedRows is what GroupBy emits.
  lemma GroupingIsGroupedRows(show: Cell -> string, rows: seq<Row>, keys: seq<string>, aggs: seq<Agg>,
                              order: seq<string>, out: seq<Row>)
    requires IsGrouping(show, rows, keys, aggs, order, out)
    ensures out == GroupedRows(show, rows, keys, aggs)
  {
    AscendingIsUnique(order, SortedSet(KeysOf(show, rows, keys)));
    forall i | 0 <= i < |out| ensures out[i] == GroupedRow(show, rows, keys, aggs, order[i]) {
      assert IsSummary(show, rows, keys, aggs, order[i], out[i]);
    }
  }

  method RunAggregate(show: Cell -> string, cfg: AggregateConfig, input: Frame) returns (out: Option<Frame>)
    requires input.Valid()
    ensures out.None? <==> AggregateNode(show, input.View().cols.Keys, cfg, RowsOf(input.View())).None?
    ensures out.Some? ==>
      && fresh(out.value)
      && BuiltFrom(out.value.View(), AggregateNode(show, input.View().cols.Keys, cfg, RowsOf(input.View())).value)
  {
    if |cfg.aggregations| == 0 {
      return None;
    }
    var r, order, rows := GroupBy(show, input, cfg.groupBy, cfg.aggregations);
    if r.Err? {
      return None;
    }
    GroupingIsGroupedRows(show, RowsOf(input.View()), cfg.groupBy, cfg.aggregations, order, rows);
    return Some(r.value);
  }
}
