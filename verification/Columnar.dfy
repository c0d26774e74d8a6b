// The columnar form: each column's non-null values in a slice of its own type, those that
// do not convert in a slice beside it, and a null flag for every row.
module Columnar {
  import opened Wrappers
  import opened Text
  import opened Frames
  import Dictionaries
  import GroupBys

  function ToInt64(c: Cell): Option<int> {
    match c
    case Int(GoInt, n) => Some(n)
    case Int(GoInt64, n) => Some(n)
    case Int(GoInt32, n) => Some(n)
    case Number(_, asInt, _) => asInt
    case _ => None
  }

  // Only the slice that matches the column's type is ever used, so one field holds it.
  datatype TypedColumn = TypedColumn(kind: ColType, typed: seq<Cell>, values: seq<Cell>, nulls: seq<bool>)

  datatype ColumnarFrame = ColumnarFrame(names: seq<string>, fields: map<string, Column>,
                                         columns: map<string, TypedColumn>, numRows: nat, truncated: bool)

  // The typed value a non-null cell becomes, none when it goes to values instead. text is
  // what GetString says of the cell.
  function Typed(kind: ColType, c: Cell, text: string): Option<Cell> {
    match kind
    case TInt64 => if ToInt64(c).Some? then Some(Int(GoInt64, ToInt64(c).value)) else None
    case TFloat64 => if GroupBys.ToFloat(c).Some? then Some(Float(GoFloat64, GroupBys.ToFloat(c).value)) else None
    case TBool => if c.Bool? then Some(c) else None
    case TString => Some(Str(text))
    case TTime => if c.Time? then Some(c) else None
    case TJson => Some(c)
    case TNull => None
  }

  // The typed slice and the values slice after the given cells.
  function TypedSlice(kind: ColType, cells: seq<Cell>, texts: seq<string>): seq<Cell>
    requires |texts| == |cells|
  {
    if cells == [] then []
    else
      var last := |cells| - 1;
      var before := TypedSlice(kind, cells[..last], texts[..last]);
      if cells[last].Null? then before
      else
        match Typed(kind, cells[last], texts[last])
        case Some(c) => before + [c]
        case None => before
  }

  function ValuesSlice(kind: ColType, cells: seq<Cell>, texts: seq<string>): seq<Cell>
    requires |texts| == |cells|
  {
    if cells == [] then []
    else
      var last := |cells| - 1;
      var before := ValuesSlice(kind, cells[..last], texts[..last]);
      if cells[last].Null? || Typed(kind, cells[last], texts[last]).Some? then before else before + [cells[last]]
  }

  function Nulls(cells: seq<Cell>): (r: seq<bool>)
    ensures |r| == |cells|
  {
    seq(|cells|, i requires 0 <= i < |cells| => cells[i].Null?)
  }

  function ColumnarOf(kind: ColType, cells: seq<Cell>, texts: seq<string>): TypedColumn
    requires |texts| == |cells|
  {
    TypedColumn(kind, TypedSlice(kind, cells, texts), ValuesSlice(kind, cells, texts), Nulls(cells))
  }

  // The rank of a row among the non-null rows.
  function Rank(nulls: seq<bool>, row: nat): nat
    requires row <= |nulls|
  {
    if row == 0 then 0 else Rank(nulls, row - 1) + if nulls[row - 1] then 0 else 1
  }

  function Pick(col: TypedColumn, seen: nat): Cell {
    if seen < |col.typed| then col.typed[seen] else if seen < |col.values| then col.values[seen] else Null
  }

  // What valueAt reads for a row.
  function At(col: TypedColumn, row: nat): Cell {
    if row < |col.nulls| && !col.nulls[row] then Pick(col, Rank(col.nulls, row)) else Null
  }

  method ValueAt(col: TypedColumn, row: nat) returns (c: Cell)
    ensures c == At(col, row)
  {
    var seen := 0;
    var i := 0;
    while i <= row && i < |col.nulls|
      invariant i <= row + 1 && i <= |col.nulls|
      invariant seen == Rank(col.nulls, i)
      invariant i == row + 1 ==> col.nulls[row]
    {
      if col.nulls[i] {
        i := i + 1;
        continue;
      }
      if i != row {
        seen := seen + 1;
        i := i + 1;
        continue;
      }
      return Pick(col, seen);
    }
    return Null;
  }

  // ---- One column there and back ----

  // The numeric normal form of a cell in a column of a given type.
  function Normal(kind: ColType, c: Cell): Cell {
    if kind == TInt64 && ToInt64(c).Some? then Int(GoInt64, ToInt64(c).value)
    else if kind == TFloat64 && GroupBys.ToFloat(c).Some? then Float(GoFloat64, GroupBys.ToFloat(c).value)
    else c
  }

  ghost predicate ComesBack(kind: ColType, cells: seq<Cell>, texts: seq<string>)
    requires |texts| == |cells|
  {
    forall i :: 0 <= i < |cells| ==> At(ColumnarOf(kind, cells, texts), i) == Normal(kind, cells[i])
  }

  // All non-null cells land in the same slice.
  ghost predicate OneSlice(kind: ColType, cells: seq<Cell>, texts: seq<string>)
    requires |texts| == |cells|
  {
    TypedSlice(kind, cells, texts) == [] || ValuesSlice(kind, cells, texts) == []
  }

  // In a string column every non-null cell is the string GetString says.
  ghost predicate TextsAgree(kind: ColType, cells: seq<Cell>, texts: seq<string>)
    requires |texts| == |cells|
  {
    kind == TString ==> forall i :: 0 <= i < |cells| && !cells[i].Null? ==> cells[i] == Str(texts[i])
  }

  lemma {:induction false} RankOfPrefix(a: seq<bool>, b: seq<bool>, row: nat)
    requires row <= |a| && row <= |b| && a[..row] == b[..row]
    ensures Rank(a, row) == Rank(b, row)
  {
    if row > 0 {
      assert a[row - 1] == a[..row][row - 1] == b[..row][row - 1] == b[row - 1];
      assert a[..row - 1] == a[..row][..row - 1] == b[..row][..row - 1] == b[..row - 1];
      RankOfPrefix(a, b, row - 1);
    }
  }

  // The two slices together hold one cell for every non-null row.
  lemma {:induction false} SlicesFillRanks(kind: ColType, cells: seq<Cell>, texts: seq<string>)
    requires |texts| == |cells|
    ensures |TypedSlice(kind, cells, texts)| + |ValuesSlice(kind, cells, texts)| == Rank(Nulls(cells), |cells|)
  {
    if cells != [] {
      var last := |cells| - 1;
      SlicesFillRanks(kind, cells[..last], texts[..last]);
      assert Nulls(cells)[..last] == Nulls(cells[..last])[..last];
      RankOfPrefix(Nulls(cells), Nulls(cells[..last]), last);
    }
  }

  // With the values slice empty, the typed slice lists the cells by rank.
  lemma {:induction false} TypedByRank(kind: ColType, cells: seq<Cell>, texts: seq<string>, row: nat)
    requires |texts| == |cells| && ValuesSlice(kind, cells, texts) == []
    requires row < |cells| && !cells[row].Null?
    ensures var r := Rank(Nulls(cells), row);
            && r < |TypedSlice(kind, cells, texts)|
            && Typed(kind, cells[row], texts[row]) == Some(TypedSlice(kind, cells, texts)[r])
  {
    var last := |cells| - 1;
    var init, texts' := cells[..last], texts[..last];
    assert Nulls(cells)[..row] == Nulls(init + [cells[last]])[..row] by { assert cells == init + [cells[last]]; }
    if row < last {
      TypedByRank(kind, init, texts', row);
      assert Nulls(cells)[..row] == Nulls(init)[..row];
      RankOfPrefix(Nulls(cells), Nulls(init), row);
    } else {
      SlicesFillRanks(kind, init, texts');
      assert Nulls(cells)[..last] == Nulls(init)[..last];
      RankOfPrefix(Nulls(cells), Nulls(init), last);
    }
  }

  lemma {:induction false} ValuesByRank(kind: ColType, cells: seq<Cell>, texts: seq<string>, row: nat)
    requires |texts| == |cells| && TypedSlice(kind, cells, texts) == []
    requires row < |cells| && !cells[row].Null?
    ensures var r := Rank(Nulls(cells), row);
            && Typed(kind, cells[row], texts[row]) == None
            && r < |ValuesSlice(kind, cells, texts)| && cells[row] == ValuesSlice(kind, cells, texts)[r]
  {
    var last := |cells| - 1;
    var init, texts' := cells[..last], texts[..last];
    if row < last {
      ValuesByRank(kind, init, texts', row);
      assert Nulls(cells)[..row] == Nulls(init)[..row];
      RankOfPrefix(Nulls(cells), Nulls(init), row);
    } else {
      SlicesFillRanks(kind, init, texts');
      assert Nulls(cells)[..last] == Nulls(init)[..last];
      RankOfPrefix(Nulls(cells), Nulls(init), last);
    }
  }

  lemma TypedIsNormal(kind: ColType, c: Cell, text: string)
    requires !c.Null? && (kind == TString ==> c == Str(text))
    ensures Typed(kind, c, text) == Some(Normal(kind, c)) || (Typed(kind, c, text) == None && Normal(kind, c) == c)
  {
  }

  lemma OneSliceComesBack(kind: ColType, cells: seq<Cell>, texts: seq<string>)
    requires |texts| == |cells| && OneSlice(kind, cells, texts) && TextsAgree(kind, cells, texts)
    ensures ComesBack(kind, cells, texts)
  {
    var col := ColumnarOf(kind, cells, texts);
    forall i | 0 <= i < |cells| ensures At(col, i) == Normal(kind, cells[i]) {
      if !cells[i].Null? {
        TypedIsNormal(kind, cells[i], texts[i]);
        if col.values == [] { TypedByRank(kind, cells, texts, i); } else { ValuesByRank(kind, cells, texts, i); }
      }
    }
  }

  // The row of a given rank.
  lemma {:induction false} RowOfRank(nulls: seq<bool>, rank: nat, n: nat) returns (row: nat)
    requires n <= |nulls| && rank < Rank(nulls, n)
    ensures row < n && !nulls[row] && Rank(nulls, row) == rank
  {
    if !nulls[n - 1] && Rank(nulls, n - 1) == rank {
      row := n - 1;
    } else {
      row := RowOfRank(nulls, rank, n - 1);
    }
  }

  // Cells in both slices leave the last non-null row without one.
  lemma TwoSlicesLose(kind: ColType, cells: seq<Cell>, texts: seq<string>)
    requires |texts| == |cells| && !OneSlice(kind, cells, texts)
    ensures !ComesBack(kind, cells, texts)
  {
    SlicesFillRanks(kind, cells, texts);
    var row := RowOfRank(Nulls(cells), Rank(Nulls(cells), |cells|) - 1, |cells|);
    assert At(ColumnarOf(kind, cells, texts), row) == Null;
  }

  lemma OtherTextsLose(cells: seq<Cell>, texts: seq<string>)
    requires |texts| == |cells| && !TextsAgree(TString, cells, texts)
    ensures !ComesBack(TString, cells, texts)
  {
    var i :| 0 <= i < |cells| && !cells[i].Null? && cells[i] != Str(texts[i]);
    if ValuesSlice(TString, cells, texts) == [] {
      TypedByRank(TString, cells, texts, i);
      assert At(ColumnarOf(TString, cells, texts), i) == Str(texts[i]);
    } else if TypedSlice(TString, cells, texts) == [] {
      ValuesByRank(TString, cells, texts, i);
    } else {
      TwoSlicesLose(TString, cells, texts);
    }
  }

  // A column comes back, up to numeric normalisation, exactly when its cells all landed in
  // one slice and, for strings, the texts read are the cells' own.
  lemma ColumnComesBackIff(kind: ColType, cells: seq<Cell>, texts: seq<string>)
    requires |texts| == |cells|
    ensures ComesBack(kind, cells, texts) <==> OneSlice(kind, cells, texts) && TextsAgree(kind, cells, texts)
  {
    if !OneSlice(kind, cells, texts) {
      TwoSlicesLose(kind, cells, texts);
    } else if !TextsAgree(kind, cells, texts) {
      OtherTextsLose(cells, texts);
    } else {
      OneSliceComesBack(kind, cells, texts);
    }
  }

  // ---- Frames ----

  function TextsOf(t: Table, name: string, n: nat): (r: seq<string>)
    ensures |r| == n
  {
    seq(n, i requires 0 <= i < n => Dictionaries.GetString(t, name, i))
  }

  function ColumnarColumn(t: Table, name: string): TypedColumn
    requires name in t.cols
  {
    ColumnarOf(t.cols[name].typ, t.cols[name].cells, TextsOf(t, name, |t.cols[name].cells|))
  }

  function ColumnarTable(t: Table): ColumnarFrame {
    ColumnarFrame(t.names, t.cols, map n | n in t.cols :: ColumnarColumn(t, n), t.numRows, t.truncated)
  }

  lemma SlicesStep(kind: ColType, cells: seq<Cell>, texts: seq<string>, i: nat)
    requires |texts| == |cells| && i < |cells|
    ensures var typed, values := TypedSlice(kind, cells[..i], texts[..i]), ValuesSlice(kind, cells[..i], texts[..i]);
            && (cells[i].Null? ==>
                  TypedSlice(kind, cells[..i + 1], texts[..i + 1]) == typed
                  && ValuesSlice(kind, cells[..i + 1], texts[..i + 1]) == values)
            && (!cells[i].Null? && Typed(kind, cells[i], texts[i]).Some? ==>
                  TypedSlice(kind, cells[..i + 1], texts[..i + 1]) == typed + [Typed(kind, cells[i], texts[i]).value]
                  && ValuesSlice(kind, cells[..i + 1], texts[..i + 1]) == values)
            && (!cells[i].Null? && Typed(kind, cells[i], texts[i]).None? ==>
                  TypedSlice(kind, cells[..i + 1], texts[..i + 1]) == typed
                  && ValuesSlice(kind, cells[..i + 1], texts[..i + 1]) == values + [cells[i]])
  {
    assert cells[..i + 1][..i] == cells[..i] && texts[..i + 1][..i] == texts[..i];
  }

  // One turn of the loop over the schema.
  method ToTypedColumn(t: Table, name: string) returns (col: TypedColumn)
    requires name in t.cols
    ensures col == ColumnarColumn(t, name)
  {
    var kind, cells := t.cols[name].typ, t.cols[name].cells;
    ghost var texts := TextsOf(t, name, |cells|);
    var typed: seq<Cell>, values: seq<Cell> := [], [];
    var nulls := seq(|cells|, _ => false);
    for i := 0 to |cells|
      invariant typed == TypedSlice(kind, cells[..i], texts[..i])
      invariant values == ValuesSlice(kind, cells[..i], texts[..i])
      invariant |nulls| == |cells|
      invariant forall k :: 0 <= k < |cells| ==> nulls[k] == (k < i && cells[k].Null?)
    {
      SlicesStep(kind, cells, texts, i);
      var raw := cells[i];
      if raw == Null {
        nulls := nulls[i := true];
        continue;
      }
      var landed := Typed(kind, raw, Dictionaries.GetString(t, name, i));
      if landed.Some? {
        typed := typed + [landed.value];
      } else {
        values := values + [raw];
      }
    }
    assert cells[..|cells|] == cells && texts[..|cells|] == texts;
    assert nulls == Nulls(cells);
    col := TypedColumn(kind, typed, values, nulls);
  }

  method ToColumnar(f: Frame) returns (c: ColumnarFrame)
    requires f.Valid()
    ensures c == ColumnarTable(f.View())
  {
    var t := f.View();
    var columns: map<string, TypedColumn> := map[];
    for i := 0 to |t.names|
      invariant columns == map n | n in SetOf(t.names[..i]) && n in t.cols :: ColumnarColumn(t, n)
    {
      NextOf(t.names, i);
      var col := ToTypedColumn(t, t.names[i]);
      columns := columns[t.names[i] := col];
    }
    assert t.names[..|t.names|] == t.names;
    c := ColumnarFrame(t.names, t.cols, columns, t.numRows, t.truncated);
  }

  ghost predicate WellFormed(c: ColumnarFrame) {
    && Distinct(c.names) && SetOf(c.names) == c.fields.Keys && c.columns.Keys == c.fields.Keys
    && forall n :: n in c.columns ==> |c.columns[n].nulls| == c.numRows
  }

  // The rows as the columnar form tells them.
  function RowOf(c: ColumnarFrame, i: nat): Row {
    map n | n in c.columns :: At(c.columns[n], i)
  }

  function Reported(c: ColumnarFrame, n: nat): (r: seq<Row>)
    ensures |r| == n
  {
    seq(n, i requires 0 <= i < n => RowOf(c, i))
  }

  lemma ReportedStep(c: ColumnarFrame, n: nat)
    ensures Reported(c, n + 1) == Reported(c, n) + [RowOf(c, n)]
  {
  }

  // The cells of a row in the first k columns.
  function PartOfRow(c: ColumnarFrame, i: nat, k: nat): Row
    requires WellFormed(c) && i < c.numRows && k <= |c.names|
  {
    map n | n in SetOf(c.names[..k]) && n in c.columns :: At(c.columns[n], i)
  }

  lemma PartGrows(c: ColumnarFrame, i: nat, k: nat)
    requires WellFormed(c) && i < c.numRows && k < |c.names|
    ensures c.names[k] in c.columns
    ensures PartOfRow(c, i, k + 1) == PartOfRow(c, i, k)[c.names[k] := At(c.columns[c.names[k]], i)]
  {
    NextOf(c.names, k);
  }

  // One row of ToFrame.
  method ToRow(c: ColumnarFrame, i: nat) returns (row: Row)
    requires WellFormed(c) && i < c.numRows
    ensures row == RowOf(c, i)
  {
    row := map[];
    for k := 0 to |c.names|
      invariant row == PartOfRow(c, i, k)
    {
      var name := c.names[k];
      PartGrows(c, i, k);
      if c.columns[name].nulls[i] {
        row := row[name := Null];
        continue;
      }
      var value := ValueAt(c.columns[name], i);
      row := row[name := value];
    }
    assert c.names[..|c.names|] == c.names;
  }

  method ToFrame(c: ColumnarFrame) returns (f: Frame)
    requires WellFormed(c)
    ensures fresh(f) && f.Valid() && f.names == c.names
    ensures RowsOf(f.View()) == Reported(c, c.numRows)
  {
    f := new Frame.Of(WithoutRows(Table(c.names, c.fields, map[], 0, false)));
    for i := 0 to c.numRows
      invariant fresh(f) && f.Valid() && f.names == c.names
      invariant RowsOf(f.View()) == Reported(c, i)
    {
      ReportedStep(c, i);
      var row := ToRow(c, i);
      AddRow(f, row);
    }
  }

  method AddRow(f: Frame, row: Row)
    requires f.Valid() && row.Keys == f.cols.Keys
    modifies f
    ensures f.Valid() && f.names == old(f.names)
    ensures RowsOf(f.View()) == old(RowsOf(f.View())) + [row]
  {
    ghost var before := f.View();
    f.AppendRow(row);
    AppendSameColumns(before, row, f.View());
  }

  // Every row with its cells in numeric normal form.
  ghost function NormalRows(t: Table): (r: seq<Row>)
    requires ValidTable(t)
    ensures |r| == t.numRows
  {
    seq(t.numRows, i requires 0 <= i < t.numRows => map n | n in t.cols :: Normal(t.cols[n].typ, t.cols[n].cells[i]))
  }

  lemma ColumnarTableIsWellFormed(t: Table)
    requires ValidTable(t)
    ensures WellFormed(ColumnarTable(t))
  {
  }

  ghost predicate ColumnComesBack(t: Table, n: string)
    requires n in t.cols
  {
    var cells := t.cols[n].cells;
    OneSlice(t.cols[n].typ, cells, TextsOf(t, n, |cells|)) && TextsAgree(t.cols[n].typ, cells, TextsOf(t, n, |cells|))
  }

  lemma RowsGiveColumn(t: Table, n: string)
    requires ValidTable(t) && n in t.cols
    requires Reported(ColumnarTable(t), t.numRows) == NormalRows(t)
    ensures ColumnComesBack(t, n)
  {
    forall i | 0 <= i < t.numRows ensures At(ColumnarColumn(t, n), i) == Normal(t.cols[n].typ, t.cols[n].cells[i]) {
      assert Reported(ColumnarTable(t), t.numRows)[i][n] == NormalRows(t)[i][n];
    }
    ColumnComesBackIff(t.cols[n].typ, t.cols[n].cells, TextsOf(t, n, t.numRows));
  }

  lemma ColumnsGiveRow(t: Table, i: nat)
    requires ValidTable(t) && i < t.numRows
    requires forall n :: n in t.cols ==> ColumnComesBack(t, n)
    ensures RowOf(ColumnarTable(t), i) == NormalRows(t)[i]
  {
    forall n | n in t.cols ensures At(ColumnarColumn(t, n), i) == Normal(t.cols[n].typ, t.cols[n].cells[i]) {
      assert ColumnComesBack(t, n);
      ColumnComesBackIff(t.cols[n].typ, t.cols[n].cells, TextsOf(t, n, t.numRows));
    }
  }

  // ToFrame after ToColumnar gives back every row, normalised, exactly when every column
  // comes back.
  lemma RowsComeBackIff(t: Table)
    requires ValidTable(t)
    ensures var back := Reported(ColumnarTable(t), t.numRows);
            back == NormalRows(t) <==> forall n :: n in t.cols ==> ColumnComesBack(t, n)
  {
    if Reported(ColumnarTable(t), t.numRows) == NormalRows(t) {
      forall n | n in t.cols ensures ColumnComesBack(t, n) {
        RowsGiveColumn(t, n);
      }
    }
    if forall n :: n in t.cols ==> ColumnComesBack(t, n) {
      forall i | 0 <= i < t.numRows ensures RowOf(ColumnarTable(t), i) == NormalRows(t)[i] {
        ColumnsGiveRow(t, i);
      }
    }
  }

  // There and back: the rows are the frame's own, normalised, exactly when every column
  // comes back.
  method RoundTrip(f: Frame) returns (back: Frame)
    requires f.Valid()
    ensures fresh(back) && back.Valid() && back.names == f.names
    ensures RowsOf(back.View()) == NormalRows(f.View()) <==> forall n :: n in f.cols ==> ColumnComesBack(f.View(), n)
  {
    ghost var t := f.View();
    var c := ToColumnar(f);
    ColumnarTableIsWellFormed(t);
    back := ToFrame(c);
    RowsComeBackIff(t);
  }
}
