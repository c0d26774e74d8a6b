// SQL-style grouping and aggregation.
module GroupBys {
  import opened Wrappers
  import opened Strings
  import opened Text
  import opened Frames
  import opened Aggregates

  const SEPARATOR: char := '\U{1f}'
  const NULL_KEY: string := "\0null"

  function ToFloat(c: Cell): Option<real> {
    match c
    case Float(_, x) => Some(x)
    case Int(OtherInt(_), _) => None
    case Int(_, n) => Some(n as real)
    case Number(_, _, asFloat) => asFloat
    case _ => None
  }

  // show stands for fmt.Sprint.
  function ToKeyString(show: Cell -> string, c: Cell): string {
    match c
    case Null => NULL_KEY
    case Str(s) => s
    case _ => show(c)
  }

  function KeyTexts(show: Cell -> string, row: Row, keys: seq<string>): (texts: seq<string>)
    ensures |texts| == |keys|
  {
    seq(|keys|, k requires 0 <= k < |keys| => ToKeyString(show, CellAt(row, keys[k])))
  }

  function GroupKey(show: Cell -> string, row: Row, keys: seq<string>): string {
    Join(KeyTexts(show, row, keys), [SEPARATOR])
  }

  // ---- Reduction ----

  function Total(values: seq<real>): real {
    if values == [] then 0.0 else Total(values[..|values| - 1]) + values[|values| - 1]
  }

  function Least(values: seq<real>): real
    requires values != []
  {
    if |values| == 1 then values[0]
    else
      var m := Least(values[..|values| - 1]);
      if values[|values| - 1] < m then values[|values| - 1] else m
  }

  function Greatest(values: seq<real>): real
    requires values != []
  {
    if |values| == 1 then values[0]
    else
      var m := Greatest(values[..|values| - 1]);
      if values[|values| - 1] > m then values[|values| - 1] else m
  }

  function Reduce(op: AggOp, values: seq<real>): real {
    if values == [] then 0.0
    else
      match op
      case Sum => Total(values)
      case Avg => Total(values) / |values| as real
      case Min => Least(values)
      case Max => Greatest(values)
      case _ => 0.0
  }

  method ReduceFloat(op: AggOp, values: seq<real>) returns (r: real)
    ensures r == Reduce(op, values)
  {
    if |values| == 0 {
      return 0.0;
    }
    if op == Sum || op == Avg {
      var sum := 0.0;
      for i := 0 to |values|
        invariant sum == Total(values[..i])
      {
        assert values[..i + 1][..i] == values[..i];
        sum := sum + values[i];
      }
      assert values[..|values|] == values;
      return if op == Avg then sum / |values| as real else sum;
    } else if op == Min {
      var m := values[0];
      for i := 0 to |values|
        invariant m == Least(if i == 0 then values[..1] else values[..i])
      {
        assert values[..i + 1][..i] == values[..i];
        if values[i] < m {
          m := values[i];
        }
      }
      assert values[..|values|] == values;
      return m;
    } else if op == Max {
      var m := values[0];
      for i := 0 to |values|
        invariant m == Greatest(if i == 0 then values[..1] else values[..i])
      {
        assert values[..i + 1][..i] == values[..i];
        if values[i] > m {
          m := values[i];
        }
      }
      assert values[..|values|] == values;
      return m;
    }
    return 0.0;
  }

  lemma {:induction false} LeastAndGreatestBound(values: seq<real>)
    requires values != []
    ensures Least(values) in values && Greatest(values) in values
    ensures forall v :: v in values ==> Least(values) <= v <= Greatest(values)
  {
    if |values| > 1 {
      LeastAndGreatestBound(values[..|values| - 1]);
      assert values == values[..|values| - 1] + [values[|values| - 1]];
    }
  }

  // ---- What grouping means ----

  // The rows of one group, in their order.
  function Members(show: Cell -> string, rows: seq<Row>, keys: seq<string>, key: string): seq<Row> {
    if rows == [] then []
    else
      var last := rows[|rows| - 1];
      Members(show, rows[..|rows| - 1], keys, key) + if GroupKey(show, last, keys) == key then [last] else []
  }

  ghost function KeysOf(show: Cell -> string, rows: seq<Row>, keys: seq<string>): set<string> {
    set r | r in rows :: GroupKey(show, r, keys)
  }

  // The values one row contributes under an output name: aggregations that share the
  // name share the list.
  function RowValues(row: Row, aggs: seq<Agg>, name: string): seq<real> {
    if aggs == [] then []
    else
      var last := aggs[|aggs| - 1];
      RowValues(row, aggs[..|aggs| - 1], name)
      + if last.op != Count && last.OutName() == name && ToFloat(CellAt(row, last.field)).Some?
        then [ToFloat(CellAt(row, last.field)).value] else []
  }

  function ValuesOf(members: seq<Row>, aggs: seq<Agg>, name: string): seq<real> {
    if members == [] then []
    else
      ValuesOf(members[..|members| - 1], aggs, name) + RowValues(members[|members| - 1], aggs, name)
  }

  function KeyCells(row: Row, keys: seq<string>): Row {
    map k | k in keys :: CellAt(row, k)
  }

  function AggCell(members: seq<Row>, aggs: seq<Agg>, a: Agg): Cell {
    if a.op == Count then Int(GoInt64, |members|)
    else Float(GoFloat64, Reduce(a.op, ValuesOf(members, aggs, a.OutName())))
  }

  // The key cells with the first i aggregations written over them.
  function SummaryUpTo(members: seq<Row>, keys: seq<string>, aggs: seq<Agg>, i: nat): Row
    requires members != [] && i <= |aggs|
  {
    if i == 0 then KeyCells(members[0], keys)
    else SummaryUpTo(members, keys, aggs, i - 1)[aggs[i - 1].OutName() := AggCell(members, aggs, aggs[i - 1])]
  }

  function Summary(members: seq<Row>, keys: seq<string>, aggs: seq<Agg>): Row
    requires members != []
  {
    SummaryUpTo(members, keys, aggs, |aggs|)
  }

  // One summary per group key, in the order of the keys.
  ghost predicate IsGrouping(show: Cell -> string, rows: seq<Row>, keys: seq<string>, aggs: seq<Agg>,
                             order: seq<string>, out: seq<Row>) {
    && Ascending(order) && SetOf(order) == KeysOf(show, rows, keys)
    && |out| == |order|
    && forall i :: 0 <= i < |order| ==> IsSummary(show, rows, keys, aggs, order[i], out[i])
  }

  ghost predicate IsSummary(show: Cell -> string, rows: seq<Row>, keys: seq<string>, aggs: seq<Agg>,
                            key: string, row: Row) {
    var members := Members(show, rows, keys, key);
    members != [] && row == Summary(members, keys, aggs)
  }

  lemma {:induction false} MembersNonEmpty(show: Cell -> string, rows: seq<Row>, keys: seq<string>, key: string)
    ensures Members(show, rows, keys, key) != [] <==> key in KeysOf(show, rows, keys)
  {
    if rows != [] {
      MembersNonEmpty(show, rows[..|rows| - 1], keys, key);
      assert rows == rows[..|rows| - 1] + [rows[|rows| - 1]];
    }
  }

  // ---- The algorithm ----

  datatype Group = Group(keyValues: Row, values: map<string, seq<real>>, count: nat)

  function ValuesAt(values: map<string, seq<real>>, name: string): seq<real> {
    if name in values then values[name] else []
  }

  datatype GroupError = UnknownColumn(name: string) | IndexOutOfRange

  ghost predicate FieldsKnown(t: Table, aggs: seq<Agg>) {
    forall a :: a in aggs && a.op != Count ==> a.field in t.cols
  }

  ghost predicate Groupable(t: Table, keys: seq<string>, aggs: seq<Agg>) {
    (forall k :: k in keys ==> k in t.cols) && (t.numRows > 0 ==> FieldsKnown(t, aggs))
  }

  ghost predicate GroupFails(t: Table, keys: seq<string>, aggs: seq<Agg>, e: GroupError) {
    match e
    case UnknownColumn(name) => name in keys && name !in t.cols
    case IndexOutOfRange => (forall k :: k in keys ==> k in t.cols) && t.numRows > 0 && !FieldsKnown(t, aggs)
  }

  method UnknownKey(f: Frame, keys: seq<string>) returns (r: Option<string>)
    requires f.Valid()
    ensures r.None? <==> forall k :: k in keys ==> k in f.cols
    ensures r.Some? ==> r.value in keys && r.value !in f.cols
  {
    for i := 0 to |keys|
      invariant forall k :: k in keys[..i] ==> k in f.cols
    {
      if keys[i] !in f.cols {
        return Some(keys[i]);
      }
      assert keys[..i + 1] == keys[..i] + [keys[i]];
    }
    assert keys[..|keys|] == keys;
    return None;
  }

  function AddAll(values: map<string, seq<real>>, row: Row, aggs: seq<Agg>): map<string, seq<real>> {
    if aggs == [] then values
    else AddOne(AddAll(values, row, aggs[..|aggs| - 1]), row, aggs[|aggs| - 1])
  }

  function AddOne(values: map<string, seq<real>>, row: Row, a: Agg): map<string, seq<real>> {
    var v := ToFloat(CellAt(row, a.field));
    if a.op == Count || v.None? then values
    else values[a.OutName() := ValuesAt(values, a.OutName()) + [v.value]]
  }

  lemma {:induction false} AddAllAt(values: map<string, seq<real>>, row: Row, aggs: seq<Agg>, name: string)
    ensures ValuesAt(AddAll(values, row, aggs), name) == ValuesAt(values, name) + RowValues(row, aggs, name)
  {
    if aggs != [] {
      AddAllAt(values, row, aggs[..|aggs| - 1], name);
    }
  }

  // A group's accumulators once its members have been seen.
  function Accumulated(members: seq<Row>, aggs: seq<Agg>): map<string, seq<real>> {
    if members == [] then map[]
    else AddAll(Accumulated(members[..|members| - 1], aggs), members[|members| - 1], aggs)
  }

  lemma {:induction false} AccumulatedAt(members: seq<Row>, aggs: seq<Agg>, name: string)
    ensures ValuesAt(Accumulated(members, aggs), name) == ValuesOf(members, aggs, name)
  {
    if members != [] {
      AccumulatedAt(members[..|members| - 1], aggs, name);
      AddAllAt(Accumulated(members[..|members| - 1], aggs), members[|members| - 1], aggs, name);
    }
  }

  function GroupOf(members: seq<Row>, keys: seq<string>, aggs: seq<Agg>): Group
    requires members != []
  {
    Group(KeyCells(members[0], keys), Accumulated(members, aggs), |members|)
  }

  ghost predicate Holds(g: Group, members: seq<Row>, keys: seq<string>, aggs: seq<Agg>) {
    members != [] && g == GroupOf(members, keys, aggs)
  }

  lemma AddOneMore(values: map<string, seq<real>>, row: Row, aggs: seq<Agg>, j: nat)
    requires j < |aggs|
    ensures var before, a := AddAll(values, row, aggs[..j]), aggs[j];
            AddAll(values, row, aggs[..j + 1])
              == if a.op == Count || ToFloat(CellAt(row, a.field)).None? then before
                 else before[a.OutName() := ValuesAt(before, a.OutName()) + [ToFloat(CellAt(row, a.field)).value]]
  {
    assert aggs[..j + 1][..j] == aggs[..j];
  }

  lemma KnownOneMore(t: Table, aggs: seq<Agg>, j: nat)
    requires j < |aggs|
    ensures FieldsKnown(t, aggs[..j + 1])
       <==> FieldsKnown(t, aggs[..j]) && (aggs[j].op != Count ==> aggs[j].field in t.cols)
    ensures FieldsKnown(t, aggs) ==> (aggs[j].op != Count ==> aggs[j].field in t.cols)
  {
    assert aggs[..j + 1] == aggs[..j] + [aggs[j]];
  }

  // One row's contribution to a group's value lists; indexing a missing column panics.
  method AddValues(f: Frame, i: nat, aggs: seq<Agg>, values0: map<string, seq<real>>)
    returns (r: Option<map<string, seq<real>>>)
    requires f.Valid() && i < f.numRows
    ensures r.Some? <==> FieldsKnown(f.View(), aggs)
    ensures r.Some? ==> r.value == AddAll(values0, RowAt(f.View(), i), aggs)
  {
    var values := values0;
    for j := 0 to |aggs|
      invariant FieldsKnown(f.View(), aggs[..j])
      invariant values == AddAll(values0, RowAt(f.View(), i), aggs[..j])
    {
      var agg := aggs[j];
      AddOneMore(values0, RowAt(f.View(), i), aggs, j);
      KnownOneMore(f.View(), aggs, j);
      if agg.op == Count {
        continue;
      }
      if agg.field !in f.cols {
        return None;
      }
      var v := ToFloat(f.cols[agg.field].cells[i]);
      if v.Some? {
        values := values[agg.OutName() := ValuesAt(values, agg.OutName()) + [v.value]];
      }
    }
    assert aggs[..|aggs|] == aggs;
    return Some(values);
  }

  method RowKey(show: Cell -> string, f: Frame, i: nat, keys: seq<string>) returns (key: string, keyValues: Row)
    requires f.Valid() && i < f.numRows && forall k :: k in keys ==> k in f.cols
    ensures key == GroupKey(show, RowAt(f.View(), i), keys)
    ensures keyValues == KeyCells(RowAt(f.View(), i), keys)
  {
    var parts: seq<string> := [];
    keyValues := map[];
    ghost var row := RowAt(f.View(), i);
    for k := 0 to |keys|
      invariant parts == KeyTexts(show, row, keys)[..k]
      invariant keyValues == KeyCells(row, keys[..k])
    {
      var v := f.cols[keys[k]].cells[i];
      assert keys[..k + 1] == keys[..k] + [keys[k]];
      parts := parts + [ToKeyString(show, v)];
      keyValues := keyValues[keys[k] := v];
    }
    assert KeyTexts(show, row, keys)[..|keys|] == KeyTexts(show, row, keys);
    assert keys[..|keys|] == keys;
    key := Join(parts, [SEPARATOR]);
  }

  ghost predicate Grouped(show: Cell -> string, rows: seq<Row>, keys: seq<string>, aggs: seq<Agg>,
                          groups: map<string, Group>, order: seq<string>) {
    && Distinct(order)
    && groups.Keys == SetOf(order) == KeysOf(show, rows, keys)
    && AllHold(show, rows, keys, aggs, groups)
  }

  ghost predicate AllHold(show: Cell -> string, rows: seq<Row>, keys: seq<string>, aggs: seq<Agg>,
                          groups: map<string, Group>) {
    forall k :: k in groups ==> Holds(groups[k], Members(show, rows, keys, k), keys, aggs)
  }

  lemma MembersStep(show: Cell -> string, rows: seq<Row>, keys: seq<string>, row: Row, key: string)
    ensures Members(show, rows + [row], keys, key)
         == if GroupKey(show, row, keys) == key then Members(show, rows, keys, key) + [row]
            else Members(show, rows, keys, key)
  {
    assert (rows + [row])[..|rows|] == rows;
    assert Members(show, rows, keys, key) + [] == Members(show, rows, keys, key);
  }

  lemma KeysStep(show: Cell -> string, rows: seq<Row>, keys: seq<string>, row: Row)
    ensures KeysOf(show, rows + [row], keys) == KeysOf(show, rows, keys) + {GroupKey(show, row, keys)}
  {
    assert forall r :: r in rows + [row] <==> r in rows || r == row;
  }

  lemma AllHoldStep(show: Cell -> string, rows: seq<Row>, keys: seq<string>, aggs: seq<Agg>,
                    groups: map<string, Group>, row: Row, g: Group)
    requires AllHold(show, rows, keys, aggs, groups)
    requires Holds(g, Members(show, rows, keys, GroupKey(show, row, keys)) + [row], keys, aggs)
    ensures AllHold(show, rows + [row], keys, aggs, groups[GroupKey(show, row, keys) := g])
  {
    var groups' := groups[GroupKey(show, row, keys) := g];
    forall key | key in groups' ensures Holds(groups'[key], Members(show, rows + [row], keys, key), keys, aggs) {
      MembersStep(show, rows, keys, row, key);
    }
  }

  lemma OrderStep(order: seq<string>, k: string)
    requires Distinct(order)
    ensures var order' := if k in SetOf(order) then order else order + [k];
            Distinct(order') && SetOf(order') == SetOf(order) + {k}
  {
    assert SetOf(order + [k]) == SetOf(order) + {k};
  }

  // The first pass: every row lands in its group.
  method Accumulate(show: Cell -> string, f: Frame, keys: seq<string>, aggs: seq<Agg>)
    returns (ok: bool, groups: map<string, Group>, order: seq<string>)
    requires f.Valid() && forall k :: k in keys ==> k in f.cols
    ensures ok <==> (f.numRows > 0 ==> FieldsKnown(f.View(), aggs))
    ensures ok ==> Grouped(show, RowsOf(f.View()), keys, aggs, groups, order)
  {
    groups, order := map[], [];
    ghost var rows := RowsOf(f.View());
    for i := 0 to f.numRows
      invariant i > 0 ==> FieldsKnown(f.View(), aggs)
      invariant Grouped(show, rows[..i], keys, aggs, groups, order)
    {
      assert rows[..i + 1] == rows[..i] + [rows[i]];
      ok, groups, order := AddRow(show, f, i, keys, aggs, groups, order, rows[..i]);
      if !ok {
        return;
      }
    }
    assert rows[..f.numRows] == rows;
    ok := true;
  }

  method AddRow(show: Cell -> string, f: Frame, i: nat, keys: seq<string>, aggs: seq<Agg>,
                groups0: map<string, Group>, order0: seq<string>, ghost rows: seq<Row>)
    returns (ok: bool, groups: map<string, Group>, order: seq<string>)
    requires f.Valid() && i < f.numRows && forall k :: k in keys ==> k in f.cols
    requires Grouped(show, rows, keys, aggs, groups0, order0)
    ensures ok <==> FieldsKnown(f.View(), aggs)
    ensures ok ==> Grouped(show, rows + [RowAt(f.View(), i)], keys, aggs, groups, order)
  {
    groups, order := groups0, order0;
    var key, keyValues := RowKey(show, f, i, keys);
    var g := if key in groups then groups[key] else Group(keyValues, map[], 0);
    var values := AddValues(f, i, aggs, g.values);
    if values.None? {
      return false, groups, order;
    }
    GroupStep(show, rows, keys, aggs, groups, order, RowAt(f.View(), i), g);
    if key !in groups {
      order := order + [key];
    }
    groups := groups[key := Group(g.keyValues, values.value, g.count + 1)];
    ok := true;
  }

  lemma GroupStep(show: Cell -> string, rows: seq<Row>, keys: seq<string>, aggs: seq<Agg>,
                  groups: map<string, Group>, order: seq<string>, row: Row, g: Group)
    requires Grouped(show, rows, keys, aggs, groups, order)
    requires var k := GroupKey(show, row, keys);
             g == if k in groups then groups[k] else Group(KeyCells(row, keys), map[], 0)
    ensures var k := GroupKey(show, row, keys);
            Grouped(show, rows + [row], keys, aggs,
                    groups[k := Group(g.keyValues, AddAll(g.values, row, aggs), g.count + 1)],
                    if k in groups then order else order + [k])
  {
    HoldsStep(show, rows, keys, aggs, groups, row, g);
    AllHoldStep(show, rows, keys, aggs, groups, row, Group(g.keyValues, AddAll(g.values, row, aggs), g.count + 1));
    KeysStep(show, rows, keys, row);
    OrderStep(order, GroupKey(show, row, keys));
  }

  lemma HoldsStep(show: Cell -> string, rows: seq<Row>, keys: seq<string>, aggs: seq<Agg>,
                  groups: map<string, Group>, row: Row, g: Group)
    requires AllHold(show, rows, keys, aggs, groups) && groups.Keys == KeysOf(show, rows, keys)
    requires var k := GroupKey(show, row, keys);
             g == if k in groups then groups[k] else Group(KeyCells(row, keys), map[], 0)
    ensures Holds(Group(g.keyValues, AddAll(g.values, row, aggs), g.count + 1),
                  Members(show, rows, keys, GroupKey(show, row, keys)) + [row], keys, aggs)
  {
    var members := Members(show, rows, keys, GroupKey(show, row, keys));
    MembersNonEmpty(show, rows, keys, GroupKey(show, row, keys));
    assert (members + [row])[..|members|] == members;
    if members == [] {
      assert Accumulated([row], aggs) == AddAll(map[], row, aggs);
    } else {
      assert (members + [row])[0] == members[0];
    }
  }

  method Summarise(g: Group, keys: seq<string>, aggs: seq<Agg>, ghost members: seq<Row>) returns (row: Row)
    requires Holds(g, members, keys, aggs)
    ensures row == Summary(members, keys, aggs)
  {
    row := g.keyValues;
    for i := 0 to |aggs|
      invariant row == SummaryUpTo(members, keys, aggs, i)
    {
      var name := aggs[i].OutName();
      var cell := SummaryCell(g, keys, aggs, aggs[i], members);
      row := row[name := cell];
    }
  }

  method SummaryCell(g: Group, keys: seq<string>, aggs: seq<Agg>, a: Agg, ghost members: seq<Row>) returns (c: Cell)
    requires Holds(g, members, keys, aggs)
    ensures c == AggCell(members, aggs, a)
  {
    if a.op == Count {
      return Int(GoInt64, g.count);
    }
    AccumulatedAt(members, aggs, a.OutName());
    var x := ReduceFloat(a.op, ValuesAt(g.values, a.OutName()));
    return Float(GoFloat64, x);
  }

  // The second pass: one summary per key, in the order of the keys.
  method Emit(show: Cell -> string, keys: seq<string>, aggs: seq<Agg>, groups: map<string, Group>,
              order: seq<string>, ghost rows: seq<Row>)
    returns (result: Frame, ghost out: seq<Row>)
    requires SetOf(order) == groups.Keys
    requires AllHold(show, rows, keys, aggs, groups)
    ensures fresh(result) && BuiltFrom(result.View(), out)
    ensures |out| == |order|
    ensures forall i :: 0 <= i < |order| ==> IsSummary(show, rows, keys, aggs, order[i], out[i])
  {
    result := new Frame();
    out := [];
    for i := 0 to |order|
      invariant fresh(result) && BuiltFrom(result.View(), out)
      invariant |out| == i
      invariant forall j :: 0 <= j < i ==> IsSummary(show, rows, keys, aggs, order[j], out[j])
    {
      var key := order[i];
      assert key in SetOf(order);
      var row := Summarise(groups[key], keys, aggs, Members(show, rows, keys, key));
      AppendBuilt(result, row, out);
      out := out + [row];
    }
  }

  method GroupBy(show: Cell -> string, f: Frame, keys: seq<string>, aggs: seq<Agg>)
    returns (r: Result<Frame, GroupError>, order: seq<string>, ghost out: seq<Row>)
    requires f.Valid()
    ensures r.Ok? <==> Groupable(f.View(), keys, aggs)
    ensures r.Err? ==> GroupFails(f.View(), keys, aggs, r.error)
    ensures r.Ok? ==> fresh(r.value) && BuiltFrom(r.value.View(), out)
    ensures r.Ok? ==> IsGrouping(show, RowsOf(f.View()), keys, aggs, order, out)
  {
    order, out := [], [];
    var unknown := UnknownKey(f, keys);
    if unknown.Some? {
      return Err(UnknownColumn(unknown.value)), order, out;
    }
    var ok, groups, unsorted := Accumulate(show, f, keys, aggs);
    if !ok {
      return Err(IndexOutOfRange), order, out;
    }
    order := SortStrings(unsorted);
    assert SetOf(order) == KeysOf(show, RowsOf(f.View()), keys);
    var result;
    result, out := Emit(show, keys, aggs, groups, order, RowsOf(f.View()));
    return Ok(result), order, out;
  }

  // ---- When rows share a group ----

  lemma {:induction false} SplitAfterPart(part: string, rest: string, sep: char)
    requires sep !in part
    ensures Split(part + [sep] + rest, sep) == [part] + Split(rest, sep)
  {
    var s := part + [sep] + rest;
    if part == "" {
      assert s[1..] == rest;
    } else {
      SplitAfterPart(part[1..], rest, sep);
      assert s[1..] == part[1..] + [sep] + rest;
      assert [part[0]] + part[1..] == part;
    }
  }

  lemma {:induction false} SplitPart(part: string, sep: char)
    requires sep !in part
    ensures Split(part, sep) == [part]
  {
    if part != "" {
      SplitPart(part[1..], sep);
      assert [part[0]] + part[1..] == part;
    }
  }

  // Joined parts can be split again exactly when none of them holds the separator.
  lemma {:induction false} SplitUndoesJoin(parts: seq<string>, sep: char)
    requires parts != []
    ensures Split(Join(parts, [sep]), sep) == parts <==> FreeOf(parts, sep)
  {
    SplitIsFree(Join(parts, [sep]), sep);
    if FreeOf(parts, sep) {
      assert parts[0] in parts;
      if |parts| == 1 {
        SplitPart(parts[0], sep);
      } else {
        SplitUndoesJoin(parts[1..], sep);
        SplitAfterPart(parts[0], Join(parts[1..], [sep]), sep);
      }
    }
  }

  function Separators(s: string, sep: char): nat {
    if s == "" then 0 else (if s[0] == sep then 1 else 0) + Separators(s[1..], sep)
  }

  lemma {:induction false} SplitCountsSeparators(s: string, sep: char)
    ensures |Split(s, sep)| == Separators(s, sep) + 1
  {
    if s != "" { SplitCountsSeparators(s[1..], sep); }
  }

  lemma {:induction false} SeparatorsAdd(a: string, b: string, sep: char)
    ensures Separators(a + b, sep) == Separators(a, sep) + Separators(b, sep)
    ensures Separators(a, sep) > 0 <==> sep in a
  {
    if a == "" {
      assert a + b == b;
    } else {
      SeparatorsAdd(a[1..], b, sep);
      assert (a + b)[1..] == a[1..] + b;
    }
  }

  lemma {:induction false} JoinSeparators(parts: seq<string>, sep: char)
    requires parts != []
    ensures Separators(Join(parts, [sep]), sep) >= |parts| - 1
    ensures !FreeOf(parts, sep) ==> Separators(Join(parts, [sep]), sep) > |parts| - 1
  {
    SeparatorsAdd(parts[0], "", sep);
    if |parts| > 1 {
      JoinSeparators(parts[1..], sep);
      var rest := Join(parts[1..], [sep]);
      SeparatorsAdd(parts[0] + [sep], rest, sep);
      SeparatorsAdd(parts[0], [sep], sep);
      assert parts == [parts[0]] + parts[1..];
    }
  }

  // Two rows share a group exactly when their key texts agree column by column, if one
  // of them has no separator in its texts, or if there is at most one key.
  lemma SameGroupIffSameTexts(show: Cell -> string, keys: seq<string>, a: Row, b: Row)
    requires |keys| <= 1 || FreeOf(KeyTexts(show, a, keys), SEPARATOR)
    ensures GroupKey(show, a, keys) == GroupKey(show, b, keys) <==> KeyTexts(show, a, keys) == KeyTexts(show, b, keys)
  {
    var p, q := KeyTexts(show, a, keys), KeyTexts(show, b, keys);
    if |keys| > 1 && GroupKey(show, a, keys) == GroupKey(show, b, keys) {
      SplitUndoesJoin(p, SEPARATOR);
      SplitCountsSeparators(Join(p, [SEPARATOR]), SEPARATOR);
      JoinSeparators(q, SEPARATOR);
      SplitUndoesJoin(q, SEPARATOR);
    }
  }

  // Where a separator moves from one text into its neighbour, the join stays the same.
  lemma {:induction false} JoinMoves(parts: seq<string>, i: nat, s: string, t: string, sep: string)
    requires i + 1 < |parts| && parts[i] + sep + parts[i + 1] == s + sep + t
    ensures Join(parts[i := s][i + 1 := t], sep) == Join(parts, sep)
    decreases i
  {
    var moved := parts[i := s][i + 1 := t];
    if i == 0 {
      assert moved[1..][1..] == parts[1..][1..];
      if |parts| > 2 {
        var rest := sep + Join(parts[2..], sep);
        assert Join(parts, sep) == parts[0] + sep + (parts[1] + rest) by { assert parts[1..][1..] == parts[2..]; }
        assert Join(moved, sep) == s + sep + (t + rest) by { assert moved[1..][1..] == parts[2..]; }
        JoinRegroups(parts[0], sep, parts[1], rest);
        JoinRegroups(s, sep, t, rest);
      }
    } else {
      assert moved[1..] == parts[1..][i - 1 := s][i := t];
      JoinMoves(parts[1..], i - 1, s, t, sep);
    }
  }

  lemma JoinRegroups(a: string, sep: string, b: string, rest: string)
    ensures a + sep + (b + rest) == a + sep + b + rest
  {
  }

  // A text cut in two at its first separator.
  lemma {:induction false} CutAtSeparator(text: string, sep: char) returns (x: string, y: string)
    requires sep in text
    ensures text == x + [sep] + y
  {
    if text[0] == sep {
      x, y := "", text[1..];
    } else {
      assert text == [text[0]] + text[1..];
      x, y := CutAtSeparator(text[1..], sep);
      x := [text[0]] + x;
    }
  }

  // Other texts with the same join.
  lemma OtherTexts(texts: seq<string>, sep: char) returns (other: seq<string>)
    requires |texts| > 1 && !FreeOf(texts, sep)
    ensures |other| == |texts| && other != texts && Join(other, [sep]) == Join(texts, [sep])
  {
    var i :| 0 <= i < |texts| && sep in texts[i];
    var x, y := CutAtSeparator(texts[i], sep);
    var at, s, t: string := i, x, y;
    if i + 1 < |texts| {
      t := y + [sep] + texts[i + 1];
      assert texts[i] + [sep] + texts[i + 1] == s + [sep] + t;
    } else {
      at, s := i - 1, texts[i - 1] + [sep] + x;
      assert texts[at] + [sep] + texts[at + 1] == s + [sep] + t;
    }
    JoinMoves(texts, at, s, t, [sep]);
    other := texts[at := s][at + 1 := t];
    assert |other[i]| < |texts[i]|;
  }

  // The row whose cells are the given texts.
  function RowWith(keys: seq<string>, texts: seq<string>): Row
    requires |texts| == |keys|
  {
    if keys == [] then map[]
    else RowWith(keys[..|keys| - 1], texts[..|keys| - 1])[keys[|keys| - 1] := Str(texts[|keys| - 1])]
  }

  lemma {:induction false} RowWithHas(keys: seq<string>, texts: seq<string>, k: nat)
    requires Distinct(keys) && |texts| == |keys| && k < |keys|
    ensures CellAt(RowWith(keys, texts), keys[k]) == Str(texts[k])
  {
    if k < |keys| - 1 {
      RowWithHas(keys[..|keys| - 1], texts[..|keys| - 1], k);
    }
  }

  // Every row with a separator in one of several key texts shares its group with a row
  // whose texts differ.
  lemma SeparatorMergesGroups(show: Cell -> string, keys: seq<string>, a: Row) returns (b: Row)
    requires Distinct(keys) && |keys| > 1 && !FreeOf(KeyTexts(show, a, keys), SEPARATOR)
    ensures GroupKey(show, a, keys) == GroupKey(show, b, keys) && KeyTexts(show, a, keys) != KeyTexts(show, b, keys)
  {
    var other := OtherTexts(KeyTexts(show, a, keys), SEPARATOR);
    b := RowWith(keys, other);
    forall k | 0 <= k < |keys| ensures KeyTexts(show, b, keys)[k] == other[k] {
      RowWithHas(keys, other, k);
    }
    assert KeyTexts(show, b, keys) == other;
  }

  // A row shares its group with exactly the rows of its own key texts if and only if there
  // is at most one key or none of its texts holds the separator.
  lemma OwnGroupIffFree(show: Cell -> string, keys: seq<string>, a: Row)
    requires Distinct(keys)
    ensures (forall b :: GroupKey(show, a, keys) == GroupKey(show, b, keys)
                         <==> KeyTexts(show, a, keys) == KeyTexts(show, b, keys))
       <==> |keys| <= 1 || FreeOf(KeyTexts(show, a, keys), SEPARATOR)
  {
    if |keys| <= 1 || FreeOf(KeyTexts(show, a, keys), SEPARATOR) {
      forall b ensures GroupKey(show, a, keys) == GroupKey(show, b, keys)
                       <==> KeyTexts(show, a, keys) == KeyTexts(show, b, keys) {
        SameGroupIffSameTexts(show, keys, a, b);
      }
    } else {
      var b := SeparatorMergesGroups(show, keys, a);
    }
  }

  // ---- Conservation ----

  ghost function SumOf(rows: seq<Row>, weight: Row -> real): real {
    if rows == [] then 0.0 else SumOf(rows[..|rows| - 1], weight) + weight(rows[|rows| - 1])
  }

  ghost function SumOverGroups(show: Cell -> string, rows: seq<Row>, keys: seq<string>, order: seq<string>,
                               weight: Row -> real): real {
    if order == [] then 0.0
    else
      SumOverGroups(show, rows, keys, order[..|order| - 1], weight)
      + SumOf(Members(show, rows, keys, order[|order| - 1]), weight)
  }

  // One more row raises the sum over all groups by its own weight.
  lemma {:induction false} OneMoreRow(show: Cell -> string, rows: seq<Row>, row: Row, keys: seq<string>,
                                      order: seq<string>, weight: Row -> real)
    requires Distinct(order)
    ensures SumOverGroups(show, rows + [row], keys, order, weight)
         == SumOverGroups(show, rows, keys, order, weight)
          + if GroupKey(show, row, keys) in order then weight(row) else 0.0
  {
    if order != [] {
      var init, last := order[..|order| - 1], order[|order| - 1];
      assert order == init + [last];
      OneMoreRow(show, rows, row, keys, init, weight);
      MembersStep(show, rows, keys, row, last);
      var members := Members(show, rows, keys, last);
      assert (members + [row])[..|members|] == members;
    }
  }

  // Grouping is a partition: whatever is summed over each group sums to the whole.
  lemma {:induction false} GroupsPartition(show: Cell -> string, rows: seq<Row>, keys: seq<string>,
                                           order: seq<string>, weight: Row -> real)
    requires Distinct(order) && KeysOf(show, rows, keys) <= SetOf(order)
    ensures SumOverGroups(show, rows, keys, order, weight) == SumOf(rows, weight)
  {
    if rows == [] {
      NoRowsNoSum(show, keys, order, weight);
    } else {
      var init, last := rows[..|rows| - 1], rows[|rows| - 1];
      assert rows == init + [last];
      KeysStep(show, init, keys, last);
      assert GroupKey(show, last, keys) in SetOf(order);
      GroupsPartition(show, init, keys, order, weight);
      OneMoreRow(show, init, last, keys, order, weight);
    }
  }

  lemma {:induction false} NoRowsNoSum(show: Cell -> string, keys: seq<string>, order: seq<string>, weight: Row -> real)
    ensures SumOverGroups(show, [], keys, order, weight) == 0.0
  {
    if order != [] { NoRowsNoSum(show, keys, order[..|order| - 1], weight); }
  }

  ghost predicate DistinctNames(aggs: seq<Agg>) {
    forall i, j :: 0 <= i < j < |aggs| ==> aggs[i].OutName() != aggs[j].OutName()
  }

  lemma {:induction false} SummaryAt(members: seq<Row>, keys: seq<string>, aggs: seq<Agg>, i: nat, n: nat)
    requires members != [] && DistinctNames(aggs) && i < n <= |aggs|
    ensures var row := SummaryUpTo(members, keys, aggs, n);
            aggs[i].OutName() in row && row[aggs[i].OutName()] == AggCell(members, aggs, aggs[i])
  {
    if i < n - 1 {
      SummaryAt(members, keys, aggs, i, n - 1);
    }
  }

  function CountIn(c: Cell): int {
    if c.Int? then c.n else 0
  }

  function SumIn(c: Cell): real {
    if c.Float? then c.x else 0.0
  }

  function TotalCount(out: seq<Row>, name: string): int {
    if out == [] then 0 else TotalCount(out[..|out| - 1], name) + CountIn(CellAt(out[|out| - 1], name))
  }

  function TotalSum(out: seq<Row>, name: string): real {
    if out == [] then 0.0 else TotalSum(out[..|out| - 1], name) + SumIn(CellAt(out[|out| - 1], name))
  }

  // The group counts add up to the number of rows.
  lemma CountsAddUp(show: Cell -> string, rows: seq<Row>, keys: seq<string>, aggs: seq<Agg>, order: seq<string>,
                    out: seq<Row>, i: nat)
    requires IsGrouping(show, rows, keys, aggs, order, out)
    requires DistinctNames(aggs) && i < |aggs| && aggs[i].op == Count
    ensures TotalCount(out, aggs[i].OutName()) == |rows|
  {
    AscendingIsDistinct(order);
    CountsOfGroups(show, rows, keys, aggs, order, out, i);
    GroupsPartition(show, rows, keys, order, (_: Row) => 1.0);
    OnesCount(rows);
  }

  lemma {:induction false} OnesCount(rows: seq<Row>)
    ensures SumOf(rows, (_: Row) => 1.0) == |rows| as real
  {
    if rows != [] { OnesCount(rows[..|rows| - 1]); }
  }

  lemma {:induction false} CountsOfGroups(show: Cell -> string, rows: seq<Row>, keys: seq<string>, aggs: seq<Agg>,
                                          order: seq<string>, out: seq<Row>, i: nat)
    requires |out| == |order|
    requires forall j :: 0 <= j < |order| ==> IsSummary(show, rows, keys, aggs, order[j], out[j])
    requires DistinctNames(aggs) && i < |aggs| && aggs[i].op == Count
    ensures TotalCount(out, aggs[i].OutName()) as real == SumOverGroups(show, rows, keys, order, (_: Row) => 1.0)
  {
    if order != [] {
      var last := |order| - 1;
      CountsOfGroups(show, rows, keys, aggs, order[..last], out[..last], i);
      var members := Members(show, rows, keys, order[last]);
      assert IsSummary(show, rows, keys, aggs, order[last], out[last]);
      SummaryAt(members, keys, aggs, i, |aggs|);
      OnesCount(members);
    }
  }

  // The numbers of one column, cells that are not numbers left out.
  function ColumnValues(rows: seq<Row>, field: string): seq<real> {
    if rows == [] then []
    else
      var v := ToFloat(CellAt(rows[|rows| - 1], field));
      ColumnValues(rows[..|rows| - 1], field) + if v.Some? then [v.value] else []
  }

  function Number0(row: Row, field: string): real {
    var v := ToFloat(CellAt(row, field));
    if v.Some? then v.value else 0.0
  }

  lemma {:induction false} ColumnTotal(rows: seq<Row>, field: string)
    ensures Total(ColumnValues(rows, field)) == SumOf(rows, (r: Row) => Number0(r, field))
  {
    if rows != [] {
      var init := rows[..|rows| - 1];
      ColumnTotal(init, field);
      var values, v := ColumnValues(init, field), ToFloat(CellAt(rows[|rows| - 1], field));
      if v.Some? {
        assert (values + [v.value])[..|values|] == values;
      } else {
        assert values + [] == values;
      }
    }
  }

  // No other aggregation writes into the value list of the i-th.
  ghost predicate OwnsList(aggs: seq<Agg>, i: nat)
    requires i < |aggs|
  {
    forall j :: 0 <= j < |aggs| && j != i && aggs[j].op != Count ==> aggs[j].OutName() != aggs[i].OutName()
  }

  lemma {:induction false} OwnRowValues(row: Row, aggs: seq<Agg>, i: nat, n: nat)
    requires i < |aggs| && n <= |aggs| && OwnsList(aggs, i) && aggs[i].op != Count
    ensures RowValues(row, aggs[..n], aggs[i].OutName())
         == if i < n && ToFloat(CellAt(row, aggs[i].field)).Some?
            then [ToFloat(CellAt(row, aggs[i].field)).value] else []
  {
    if n > 0 {
      OwnRowValues(row, aggs, i, n - 1);
      assert aggs[..n][..n - 1] == aggs[..n - 1];
    }
  }

  lemma {:induction false} OwnValues(members: seq<Row>, aggs: seq<Agg>, i: nat)
    requires i < |aggs| && OwnsList(aggs, i) && aggs[i].op != Count
    ensures ValuesOf(members, aggs, aggs[i].OutName()) == ColumnValues(members, aggs[i].field)
  {
    if members != [] {
      OwnValues(members[..|members| - 1], aggs, i);
      OwnRowValues(members[|members| - 1], aggs, i, |aggs|);
      assert aggs[..|aggs|] == aggs;
    }
  }

  // An aggregation sees exactly its own column, whatever the rows, if and only if no
  // other one that collects values has the same output name.
  lemma OwnColumnIffOwnName(aggs: seq<Agg>, i: nat)
    requires i < |aggs| && aggs[i].op != Count
    ensures (forall members :: ValuesOf(members, aggs, aggs[i].OutName()) == ColumnValues(members, aggs[i].field))
            <==> OwnsList(aggs, i)
  {
    if OwnsList(aggs, i) {
      forall members ensures ValuesOf(members, aggs, aggs[i].OutName()) == ColumnValues(members, aggs[i].field) {
        OwnValues(members, aggs, i);
      }
    } else {
      var j :| 0 <= j < |aggs| && j != i && aggs[j].op != Count && aggs[j].OutName() == aggs[i].OutName();
      var members := [map[aggs[i].field := Float(GoFloat64, 1.0)][aggs[j].field := Float(GoFloat64, 1.0)]];
      SharedListSeesBoth(members, aggs, i, j);
    }
  }

  // One row with a number in both fields.
  lemma SharedListSeesBoth(members: seq<Row>, aggs: seq<Agg>, i: nat, j: nat)
    requires i < |aggs| && j < |aggs| && i != j && |members| == 1
    requires aggs[i].op != Count && aggs[j].op != Count && aggs[j].OutName() == aggs[i].OutName()
    requires ToFloat(CellAt(members[0], aggs[i].field)).Some? && ToFloat(CellAt(members[0], aggs[j].field)).Some?
    ensures |ColumnValues(members, aggs[i].field)| <= 1 < |ValuesOf(members, aggs, aggs[i].OutName())|
  {
    TwoValues(members[0], aggs, i, j, |aggs|);
    assert aggs[..|aggs|] == aggs;
    assert members[..0] == [] && ColumnValues([], aggs[i].field) == [];
    assert ValuesOf(members, aggs, aggs[i].OutName()) == [] + RowValues(members[0], aggs, aggs[i].OutName());
  }

  lemma {:induction false} TwoValues(row: Row, aggs: seq<Agg>, i: nat, j: nat, n: nat)
    requires i < |aggs| && j < |aggs| && i != j && n <= |aggs|
    requires aggs[i].op != Count && aggs[j].op != Count && aggs[j].OutName() == aggs[i].OutName()
    requires ToFloat(CellAt(row, aggs[i].field)).Some? && ToFloat(CellAt(row, aggs[j].field)).Some?
    ensures |RowValues(row, aggs[..n], aggs[i].OutName())| >= (if i < n then 1 else 0) + if j < n then 1 else 0
  {
    if n > 0 {
      TwoValues(row, aggs, i, j, n - 1);
      assert aggs[..n][..n - 1] == aggs[..n - 1];
    }
  }

  // The group sums of a column add up to the column's total.
  lemma SumsAddUp(show: Cell -> string, rows: seq<Row>, keys: seq<string>, aggs: seq<Agg>, order: seq<string>,
                  out: seq<Row>, i: nat)
    requires IsGrouping(show, rows, keys, aggs, order, out)
    requires DistinctNames(aggs) && i < |aggs| && aggs[i].op == Sum
    ensures TotalSum(out, aggs[i].OutName()) == Total(ColumnValues(rows, aggs[i].field))
  {
    AscendingIsDistinct(order);
    var weight := (r: Row) => Number0(r, aggs[i].field);
    SumsOfGroups(show, rows, keys, aggs, order, out, i);
    GroupsPartition(show, rows, keys, order, weight);
    ColumnTotal(rows, aggs[i].field);
  }

  lemma {:induction false} SumsOfGroups(show: Cell -> string, rows: seq<Row>, keys: seq<string>, aggs: seq<Agg>,
                                        order: seq<string>, out: seq<Row>, i: nat)
    requires |out| == |order|
    requires forall j :: 0 <= j < |order| ==> IsSummary(show, rows, keys, aggs, order[j], out[j])
    requires DistinctNames(aggs) && i < |aggs| && aggs[i].op == Sum
    ensures TotalSum(out, aggs[i].OutName())
         == SumOverGroups(show, rows, keys, order, (r: Row) => Number0(r, aggs[i].field))
  {
    if order != [] {
      var last := |order| - 1;
      SumsOfGroups(show, rows, keys, aggs, order[..last], out[..last], i);
      var members := Members(show, rows, keys, order[last]);
      assert IsSummary(show, rows, keys, aggs, order[last], out[last]);
      SummaryAt(members, keys, aggs, i, |aggs|);
      OwnValues(members, aggs, i);
      ColumnTotal(members, aggs[i].field);
    }
  }
}
