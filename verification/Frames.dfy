// The tabular data contract: typed columns that widen as rows arrive.
module Frames {
  import opened Wrappers
  import opened Text

  // The Go number types a cell can hold; OtherInt stands for the sized and unsigned
  // integers that type inference knows but number conversion does not.
  datatype IntKind = GoInt | GoInt64 | GoInt32 | OtherInt(name: string)
  datatype FloatKind = GoFloat64 | GoFloat32

  // A json.Number carries its text and what the library parses it as. Json stands for
  // maps and slices, which Go cannot hash. Go tells equal instants in different locations
  // apart.
  datatype Cell =
    | Null
    | Str(text: string)
    | Bool(flag: bool)
    | Int(intKind: IntKind, n: int)
    | Float(floatKind: FloatKind, x: real)
    | Number(digits: string, asInt: Option<int>, asFloat: Option<real>)
    | Time(instant: int, location: string)
    | Json(document: string)

  datatype ColType = TString | TInt64 | TFloat64 | TBool | TTime | TJson | TNull

  function InferType(c: Cell): ColType {
    match c
    case Null => TNull
    case Str(_) => TString
    case Bool(_) => TBool
    case Int(_, _) => TInt64
    case Float(_, _) => TFloat64
    case Time(_, _) => TTime
    case Number(_, asInt, _) => if asInt.Some? then TInt64 else TFloat64
    case Json(_) => TJson
  }

  function UnifyType(a: ColType, b: ColType): ColType {
    if a == b then a
    else if a == TNull then b
    else if b == TNull then a
    else if (a == TInt64 && b == TFloat64) || (a == TFloat64 && b == TInt64) then TFloat64
    else TJson
  }

  // The widening order: a fits in b when seeing an a leaves b as it is.
  predicate Fits(a: ColType, b: ColType) {
    UnifyType(b, a) == b
  }

  lemma UnifyIsLeastUpperBound(a: ColType, b: ColType, c: ColType)
    ensures Fits(TNull, a) && Fits(a, TJson)
    ensures Fits(a, UnifyType(a, b)) && Fits(b, UnifyType(a, b))
    ensures Fits(a, c) && Fits(b, c) ==> Fits(UnifyType(a, b), c)
    ensures Fits(a, b) && Fits(b, a) ==> a == b
    ensures Fits(a, b) && Fits(b, c) ==> Fits(a, c)
  {
  }

  type Row = map<string, Cell>

  function CellAt(row: Row, name: string): Cell {
    if name in row then row[name] else Null
  }

  // The row as a frame with the given columns reports it.
  function Widen(row: Row, names: set<string>): Row {
    map n | n in names :: CellAt(row, n)
  }

  // A schema field together with its values.
  datatype Column = Column(typ: ColType, nullable: bool, cells: seq<Cell>)

  datatype Dictionary = Dictionary(entries: seq<string>, indexes: seq<int>)

  // A frame's state, as a value: the schema's column order, and each column's type,
  // nullability and cells.
  datatype Table = Table(names: seq<string>, cols: map<string, Column>, dicts: map<string, Dictionary>,
                         numRows: nat, truncated: bool)

  ghost predicate ValidTable(t: Table) {
    && Distinct(t.names)
    && t.cols.Keys == SetOf(t.names)
    && forall n :: n in t.cols ==> |t.cols[n].cells| == t.numRows
  }

  ghost function RowAt(t: Table, i: nat): Row
    requires ValidTable(t) && i < t.numRows
  {
    map n | n in t.cols :: t.cols[n].cells[i]
  }

  ghost function RowsOf(t: Table): (rows: seq<Row>)
    requires ValidTable(t)
    ensures |rows| == t.numRows
  {
    seq(t.numRows, i requires 0 <= i < t.numRows => RowAt(t, i))
  }

  function NullCells(n: nat): seq<Cell> {
    seq(n, _ => Null)
  }

  // A column that appears late is null in every earlier row.
  function NewColumn(typ: ColType, numRows: nat): Column {
    Column(typ, numRows > 0, NullCells(numRows))
  }

  // One more cell at the end of a column.
  function Extend(c: Column, cell: Cell): Column {
    if cell == Null then Column(c.typ, true, c.cells + [Null])
    else Column(UnifyType(c.typ, InferType(cell)), c.nullable, c.cells + [cell])
  }

  function ColumnBefore(t: Table, row: Row, name: string): Column {
    if name in t.cols then t.cols[name] else NewColumn(InferType(CellAt(row, name)), t.numRows)
  }

  // The whole effect of AppendRow. Only the order of new columns is open, since Go
  // leaves the iteration order of a map open.
  ghost predicate Appended(t: Table, row: Row, t': Table) {
    && ValidTable(t')
    && t'.numRows == t.numRows + 1 && t'.dicts == t.dicts && t'.truncated == t.truncated
    && t.names <= t'.names
    && t'.cols.Keys == t.cols.Keys + row.Keys
    && forall n :: n in t'.cols ==> t'.cols[n] == Extend(ColumnBefore(t, row, n), CellAt(row, n))
  }

  // The state between ensuring the columns of done and filling them.
  ghost predicate Widened(t: Table, row: Row, done: set<string>, t': Table) {
    && ValidTable(t')
    && t'.numRows == t.numRows && t'.dicts == t.dicts && t'.truncated == t.truncated
    && t.names <= t'.names
    && t'.cols.Keys == t.cols.Keys + done
    && forall n :: n in t'.cols ==> t'.cols[n] == ColumnBefore(t, row, n)
  }

  lemma WidenStep(before: Table, row: Row, done: set<string>, t: Table, name: string)
    requires name in row && Widened(before, row, done, t)
    ensures var t' := if name in t.cols then t
                      else t.(names := t.names + [name],
                              cols := t.cols[name := NewColumn(InferType(row[name]), t.numRows)]);
            Widened(before, row, done + {name}, t')
  {
    assert SetOf(t.names + [name]) == SetOf(t.names) + {name};
    assert name in SetOf(t.names) <==> name in t.cols;
  }

  // The columns after the second loop has gone over the given names.
  ghost function Filled(wide: map<string, Column>, row: Row, names: seq<string>): (cols: map<string, Column>)
    ensures cols.Keys == wide.Keys
  {
    if names == [] then wide
    else
      var n := names[|names| - 1];
      var before := Filled(wide, row, names[..|names| - 1]);
      if n in wide then before[n := Extend(before[n], CellAt(row, n))] else before
  }

  lemma {:induction false} FilledColumn(wide: map<string, Column>, row: Row, names: seq<string>, n: string)
    requires n in wide && Distinct(names)
    ensures Filled(wide, row, names)[n] == if n in names then Extend(wide[n], CellAt(row, n)) else wide[n]
  {
    if names != [] {
      var init, last := names[..|names| - 1], names[|names| - 1];
      FilledColumn(wide, row, init, n);
      assert names == init + [last];
    }
  }

  lemma NextUnfilled(wide: map<string, Column>, row: Row, names: seq<string>, i: nat)
    requires Distinct(names) && wide.Keys == SetOf(names) && i < |names|
    ensures names[i] in wide && Filled(wide, row, names[..i])[names[i]] == wide[names[i]]
    ensures Filled(wide, row, names[..i + 1])
         == Filled(wide, row, names[..i])[names[i] := Extend(wide[names[i]], CellAt(row, names[i]))]
  {
    assert names[i] in SetOf(names);
    assert names[..i + 1][..i] == names[..i];
    FilledColumn(wide, row, names[..i], names[i]);
  }

  lemma AllFilled(wide: map<string, Column>, row: Row, names: seq<string>)
    requires Distinct(names) && wide.Keys == SetOf(names)
    ensures forall n :: n in wide ==> Filled(wide, row, names)[n] == Extend(wide[n], CellAt(row, n))
  {
    forall n | n in wide ensures Filled(wide, row, names)[n] == Extend(wide[n], CellAt(row, n)) {
      FilledColumn(wide, row, names, n);
      assert n in SetOf(names);
    }
  }

  function EmptyTable(names: seq<string>, types: map<string, Column>): Table {
    Table(names, types, map[], 0, false)
  }

  class Frame {
    var names: seq<string>
    var cols: map<string, Column>
    var dicts: map<string, Dictionary>
    var numRows: nat
    var truncated: bool

    function View(): Table
      reads this
    {
      Table(names, cols, dicts, numRows, truncated)
    }

    ghost predicate Valid()
      reads this
    {
      ValidTable(View())
    }

    // New(nil)
    constructor ()
      ensures Valid() && View() == EmptyTable([], map[])
    {
      names, cols, dicts, numRows, truncated := [], map[], map[], 0, false;
    }

    // A frame with a given state.
    constructor Of(t: Table)
      ensures View() == t
    {
      names, cols, dicts, numRows, truncated := t.names, t.cols, t.dicts, t.numRows, t.truncated;
    }

    function GetRow(i: nat): (row: Row)
      requires Valid() && i < numRows
      reads this
      ensures row == RowAt(View(), i)
    {
      map n | n in cols :: cols[n].cells[i]
    }

    method EnsureColumn(name: string, t: ColType)
      requires Valid()
      modifies this`names, this`cols
      ensures Valid()
      ensures name in old(cols) ==> names == old(names) && cols == old(cols)
      ensures name !in old(cols) ==> names == old(names) + [name]
      ensures name !in old(cols) ==> cols == old(cols)[name := NewColumn(t, numRows)]
    {
      if name in cols {
        return;
      }
      assert name !in SetOf(names);
      assert SetOf(names + [name]) == SetOf(names) + {name};
      cols := cols[name := NewColumn(t, numRows)];
      names := names + [name];
    }

    // The first loop of AppendRow.
    method EnsureColumns(row: Row)
      requires Valid()
      modifies this`names, this`cols
      ensures Widened(old(View()), row, row.Keys, View())
    {
      ghost var before := View();
      var rest := row.Keys;
      while rest != {}
        invariant rest <= row.Keys
        invariant Widened(before, row, row.Keys - rest, View())
      {
        var name :| name in rest;
        EnsureNext(row, name, before, row.Keys - rest);
        assert row.Keys - rest + {name} == row.Keys - (rest - {name});
        rest := rest - {name};
      }
    }

    method EnsureNext(row: Row, name: string, ghost before: Table, ghost done: set<string>)
      requires name in row && Widened(before, row, done, View())
      modifies this`names, this`cols
      ensures Widened(before, row, done + {name}, View())
    {
      WidenStep(before, row, done, View(), name);
      EnsureColumn(name, InferType(row[name]));
    }

    // The second loop of AppendRow: every column gets its cell, null where the row has none.
    method FillColumns(row: Row)
      requires Valid()
      modifies this`cols
      ensures cols.Keys == old(cols).Keys
      ensures forall n :: n in cols ==> cols[n] == Extend(old(cols)[n], CellAt(row, n))
    {
      ghost var wide := cols;
      for i := 0 to |names|
        invariant cols == Filled(wide, row, names[..i])
      {
        var name := names[i];
        NextUnfilled(wide, row, names, i);
        var column := cols[name];
        if name !in row || row[name] == Null {
          cols := cols[name := Column(column.typ, true, column.cells + [Null])];
          continue;
        }
        var value := row[name];
        var newType := UnifyType(column.typ, InferType(value));
        cols := cols[name := Column(newType, column.nullable, column.cells + [value])];
      }
      assert names[..|names|] == names;
      AllFilled(wide, row, names);
    }

    method AppendRow(row: Row)
      requires Valid()
      modifies this`names, this`cols, this`numRows
      ensures Appended(old(View()), row, View())
    {
      EnsureColumns(row);
      FillColumns(row);
      numRows := numRows + 1;
    }

    method LimitRows(maxRows: int)
      requires Valid()
      modifies this`cols, this`numRows, this`truncated
      ensures View() == Limited(old(View()), maxRows)
      ensures Valid()
    {
      if maxRows <= 0 || numRows <= maxRows {
        return;
      }
      cols := map n | n in cols :: cols[n].(cells := cols[n].cells[..maxRows]);
      numRows := maxRows;
      truncated := true;
    }

    method LimitColumns(maxCols: int)
      requires Valid()
      modifies this`names, this`cols, this`dicts, this`truncated
      ensures View() == Narrowed(old(View()), maxCols)
      ensures Valid()
    {
      if maxCols <= 0 || |names| <= maxCols {
        return;
      }
      var kept := names[..maxCols];
      NarrowedIsValid(View(), maxCols);
      KeptAreColumns(names, maxCols);
      cols := map n | n in kept :: cols[n];
      dicts := map n | n in dicts && n in kept :: dicts[n];
      names := kept;
      truncated := true;
    }

    // Unknown names are ignored. A name wanted twice is listed twice over one column, which
    // only lists without repetition make a valid frame of.
    method Select(wanted: seq<string>) returns (out: Frame)
      requires Valid()
      ensures fresh(out) && (out.Valid() <==> Distinct(Known(wanted, cols.Keys)))
      ensures out.names == Known(wanted, cols.Keys) && out.cols.Keys == SetOf(out.names)
      ensures out.numRows == numRows && out.truncated == truncated && out.dicts == map[]
      ensures forall n :: n in out.cols ==> n in cols && out.cols[n] == cols[n]
    {
      var kept: seq<string> := [];
      var picked: map<string, Column> := map[];
      for i := 0 to |wanted|
        invariant kept == Known(wanted[..i], cols.Keys)
        invariant picked.Keys == SetOf(kept)
        invariant forall n :: n in picked ==> n in cols && picked[n] == cols[n]
      {
        assert wanted[..i + 1][..i] == wanted[..i];
        if wanted[i] in cols {
          assert SetOf(kept + [wanted[i]]) == SetOf(kept) + {wanted[i]};
          kept := kept + [wanted[i]];
          picked := picked[wanted[i] := cols[wanted[i]]];
        }
      }
      assert wanted[..|wanted|] == wanted;
      out := new Frame.Of(Table(kept, picked, map[], numRows, truncated));
    }

    static method KeepRow(out: Frame, row: Row, keep: Row -> bool)
      requires out.Valid() && row.Keys == out.cols.Keys
      modifies out
      ensures out.Valid() && out.names == old(out.names)
      ensures RowsOf(out.View()) == old(RowsOf(out.View())) + if keep(row) then [row] else []
    {
      if keep(row) {
        ghost var before := out.View();
        out.AppendRow(row);
        AppendSameColumns(before, row, out.View());
      }
    }

    // Filter's predicate, as the filter node uses it, sees the row only.
    method Filter(keep: Row -> bool) returns (out: Frame)
      requires Valid()
      ensures fresh(out) && out.Valid()
      ensures out.names == names
      ensures RowsOf(out.View()) == FilterRows(RowsOf(View()), keep)
      ensures out.truncated == truncated
    {
      out := new Frame.Of(WithoutRows(View()));
      ghost var rows := RowsOf(View());
      for i := 0 to numRows
        invariant out.Valid() && out.names == names
        invariant RowsOf(out.View()) == FilterRows(rows[..i], keep)
      {
        PrefixStep(rows, i);
        assert rows[..i + 1][..i] == rows[..i];
        var row := GetRow(i);
        KeepRow(out, row, keep);
      }
      assert rows[..numRows] == rows;
      out.SetTruncated(truncated);
    }

    // out.Meta = f.Meta, of which only this flag is modelled.
    method SetTruncated(flag: bool)
      requires Valid()
      modifies this`truncated
      ensures Valid() && truncated == flag
      ensures RowsOf(View()) == old(RowsOf(View()))
    {
      truncated := flag;
    }
  }

  function Limited(t: Table, maxRows: int): Table {
    if maxRows <= 0 || t.numRows <= maxRows then t
    else
      t.(cols := map n | n in t.cols ::
           t.cols[n].(cells := if maxRows <= |t.cols[n].cells| then t.cols[n].cells[..maxRows] else t.cols[n].cells),
         numRows := maxRows, truncated := true)
  }

  function Narrowed(t: Table, maxCols: int): Table {
    if maxCols <= 0 || |t.names| <= maxCols then t
    else
      var kept := t.names[..maxCols];
      t.(names := kept, cols := map n | n in t.cols && n in kept :: t.cols[n],
         dicts := map n | n in t.dicts && n in kept :: t.dicts[n], truncated := true)
  }

  lemma KeptAreColumns(names: seq<string>, n: nat)
    requires n <= |names|
    ensures forall name :: name in names[..n] ==> name in SetOf(names)
  {
  }

  lemma NarrowedIsValid(t: Table, maxCols: int)
    requires ValidTable(t)
    ensures ValidTable(Narrowed(t, maxCols))
  {
    if 0 < maxCols < |t.names| {
      KeptAreColumns(t.names, maxCols);
      assert SetOf(t.names[..maxCols]) == Narrowed(t, maxCols).cols.Keys;
    }
  }

  // A frame with the same columns and no rows.
  function WithoutRows(t: Table): Table {
    Table(t.names, map n | n in t.cols :: t.cols[n].(cells := []), map[], 0, false)
  }

  function Known(wanted: seq<string>, names: set<string>): seq<string> {
    if wanted == [] then []
    else
      var last := wanted[|wanted| - 1];
      Known(wanted[..|wanted| - 1], names) + if last in names then [last] else []
  }

  function FilterRows(rows: seq<Row>, keep: Row -> bool): seq<Row> {
    if rows == [] then []
    else
      var last := rows[|rows| - 1];
      FilterRows(rows[..|rows| - 1], keep) + if keep(last) then [last] else []
  }

  lemma AppendSameColumns(t: Table, row: Row, t': Table)
    requires ValidTable(t) && Appended(t, row, t') && row.Keys == t.cols.Keys
    ensures t'.names == t.names
    ensures RowsOf(t') == RowsOf(t) + [row]
  {
    SameNames(t.names, t'.names);
    forall i | 0 <= i < t'.numRows ensures RowAt(t', i) == (RowsOf(t) + [row])[i] {
      if i < t.numRows {
        assert RowAt(t', i) == RowAt(t, i);
      }
    }
  }

  lemma SameNames(a: seq<string>, b: seq<string>)
    requires Distinct(a) && Distinct(b) && a <= b && SetOf(a) == SetOf(b)
    ensures a == b
  {
    DistinctCardinality(a);
    DistinctCardinality(b);
  }

  // ---- What a frame built row by row holds ----

  // The join of the cells' types.
  function JoinTypes(cells: seq<Cell>): ColType {
    if cells == [] then TNull else UnifyType(JoinTypes(cells[..|cells| - 1]), InferType(cells[|cells| - 1]))
  }

  function CellsOf(rows: seq<Row>, name: string): seq<Cell> {
    seq(|rows|, i requires 0 <= i < |rows| => CellAt(rows[i], name))
  }

  function NamesIn(rows: seq<Row>): set<string> {
    set r, n | r in rows && n in r :: n
  }

  ghost function ColumnOf(rows: seq<Row>, name: string): Column {
    var cells := CellsOf(rows, name);
    Column(JoinTypes(cells), Null in cells, cells)
  }

  // Everything about the frame built from rows except its column order.
  ghost predicate BuiltFrom(t: Table, rows: seq<Row>) {
    && ValidTable(t)
    && t.numRows == |rows| && t.dicts == map[] && !t.truncated
    && t.cols.Keys == NamesIn(rows)
    && forall n :: n in t.cols ==> t.cols[n] == ColumnOf(rows, n)
  }

  lemma ColumnGrows(rows: seq<Row>, row: Row, name: string)
    ensures ColumnOf(rows + [row], name) == Extend(ColumnOf(rows, name), CellAt(row, name))
  {
    var cells := CellsOf(rows, name);
    assert CellsOf(rows + [row], name) == cells + [CellAt(row, name)];
    assert (cells + [CellAt(row, name)])[..|cells|] == cells;
  }

  lemma {:induction false} NullTypes(n: nat)
    ensures JoinTypes(NullCells(n)) == TNull
  {
    if n > 0 {
      NullTypes(n - 1);
      assert NullCells(n)[..n - 1] == NullCells(n - 1);
    }
  }

  // A column seen for the first time is the column of the rows so far, all null.
  lemma FirstSeen(rows: seq<Row>, row: Row, name: string)
    requires name !in NamesIn(rows)
    ensures Extend(NewColumn(InferType(CellAt(row, name)), |rows|), CellAt(row, name)) == ColumnOf(rows + [row], name)
  {
    ColumnGrows(rows, row, name);
    UnseenIsNull(rows, name);
  }

  lemma UnseenIsNull(rows: seq<Row>, name: string)
    requires name !in NamesIn(rows)
    ensures ColumnOf(rows, name) == Column(TNull, |rows| > 0, NullCells(|rows|))
  {
    forall i | 0 <= i < |rows| ensures CellAt(rows[i], name) == Null {
      assert rows[i] in rows;
    }
    assert CellsOf(rows, name) == NullCells(|rows|);
    NullTypes(|rows|);
    if |rows| > 0 {
      assert NullCells(|rows|)[0] == Null;
    }
  }

  lemma AppendKeepsBuilt(t: Table, rows: seq<Row>, row: Row, t': Table)
    requires BuiltFrom(t, rows) && Appended(t, row, t')
    ensures BuiltFrom(t', rows + [row])
  {
    assert NamesIn(rows + [row]) == NamesIn(rows) + row.Keys by {
      assert forall r :: r in rows + [row] <==> r in rows || r == row;
    }
    forall n | n in t'.cols ensures t'.cols[n] == ColumnOf(rows + [row], n) {
      if n in t.cols { ColumnGrows(rows, row, n); } else { FirstSeen(rows, row, n); }
    }
  }

  lemma BuiltRow(t: Table, rows: seq<Row>, i: nat)
    requires BuiltFrom(t, rows) && i < |rows|
    ensures RowAt(t, i) == Widen(rows[i], NamesIn(rows))
  {
    forall n | n in t.cols ensures t.cols[n].cells[i] == CellAt(rows[i], n) {
      assert t.cols[n] == ColumnOf(rows, n);
    }
  }

  lemma BuiltRows(t: Table, rows: seq<Row>)
    requires BuiltFrom(t, rows)
    ensures RowsOf(t) == seq(|rows|, i requires 0 <= i < |rows| => Widen(rows[i], NamesIn(rows)))
  {
    forall i | 0 <= i < |rows| ensures RowsOf(t)[i] == Widen(rows[i], NamesIn(rows)) {
      BuiltRow(t, rows, i);
    }
  }

  // AppendRow on a frame that has been built row by row.
  method AppendBuilt(f: Frame, row: Row, ghost rows: seq<Row>)
    requires BuiltFrom(f.View(), rows)
    modifies f
    ensures BuiltFrom(f.View(), rows + [row])
  {
    ghost var before := f.View();
    f.AppendRow(row);
    AppendKeepsBuilt(before, rows, row, f.View());
  }

  method FromRecords(rows: seq<Row>) returns (f: Frame)
    ensures fresh(f) && BuiltFrom(f.View(), rows)
  {
    f := new Frame();
    for i := 0 to |rows|
      invariant fresh(f) && BuiltFrom(f.View(), rows[..i])
    {
      AppendBuilt(f, rows[i], rows[..i]);
      assert rows[..i + 1] == rows[..i] + [rows[i]];
    }
    assert rows[..|rows|] == rows;
  }

  ghost predicate AllValid(frames: seq<Frame?>)
    reads frames
  {
    forall i :: 0 <= i < |frames| && frames[i] != null ==> frames[i].Valid()
  }

  // Each frame's rows, a nil frame having none.
  ghost function RowsOfEach(frames: seq<Frame?>): (parts: seq<seq<Row>>)
    requires AllValid(frames)
    reads frames
    ensures |parts| == |frames|
  {
    seq(|frames|, i requires 0 <= i < |frames| reads frames requires AllValid(frames) =>
      if frames[i] == null then [] else RowsOf(frames[i].View()))
  }

  function Flatten<T>(parts: seq<seq<T>>): seq<T> {
    if parts == [] then [] else Flatten(parts[..|parts| - 1]) + parts[|parts| - 1]
  }

  // The inner loop of Concat.
  method AppendAll(out: Frame, other: Frame, ghost rows: seq<Row>, ghost more: seq<Row>)
    requires other.Valid() && out != other && BuiltFrom(out.View(), rows) && more == RowsOf(other.View())
    modifies out
    ensures BuiltFrom(out.View(), rows + more)
  {
    assert rows + more[..0] == rows;
    for i := 0 to other.numRows
      invariant BuiltFrom(out.View(), rows + more[..i])
    {
      var row := other.GetRow(i);
      AppendBuilt(out, row, rows + more[..i]);
      PrefixStep(more, i);
      assert rows + more[..i] + [row] == rows + more[..i + 1];
    }
    assert more[..|more|] == more;
  }

  // The rows of every frame one after the other, in a frame with the columns of all.
  method Concat(frames: seq<Frame?>) returns (out: Frame)
    requires AllValid(frames)
    ensures fresh(out) && BuiltFrom(out.View(), Flatten(old(RowsOfEach(frames))))
  {
    ghost var parts := RowsOfEach(frames);
    out := new Frame();
    for i := 0 to |frames|
      invariant fresh(out) && BuiltFrom(out.View(), Flatten(parts[..i]))
    {
      assert parts[..i + 1][..i] == parts[..i];
      var fr := frames[i];
      assert Flatten(parts[..i]) + [] == Flatten(parts[..i]);
      if fr != null {
        AppendAll(out, fr, Flatten(parts[..i]), parts[i]);
      }
    }
    assert parts[..|frames|] == parts;
  }

  lemma {:induction false} JoinTypesIsLeastUpperBound(cells: seq<Cell>, bound: ColType)
    ensures forall c :: c in cells ==> Fits(InferType(c), JoinTypes(cells))
    ensures (forall c :: c in cells ==> Fits(InferType(c), bound)) ==> Fits(JoinTypes(cells), bound)
  {
    if cells != [] {
      var init, last := cells[..|cells| - 1], cells[|cells| - 1];
      JoinTypesIsLeastUpperBound(init, bound);
      assert cells == init + [last];
      UnifyIsLeastUpperBound(JoinTypes(init), InferType(last), bound);
      forall c | c in cells ensures Fits(InferType(c), JoinTypes(cells)) {
        if c in init {
          UnifyIsLeastUpperBound(InferType(c), JoinTypes(init), JoinTypes(cells));
        }
      }
    }
  }

  // Type and nullability depend on which rows were appended, not on their order.
  lemma ColumnIgnoresRowOrder(rows: seq<Row>, shuffled: seq<Row>, name: string)
    requires multiset(rows) == multiset(shuffled)
    ensures ColumnOf(rows, name).typ == ColumnOf(shuffled, name).typ
    ensures ColumnOf(rows, name).nullable == ColumnOf(shuffled, name).nullable
  {
    SameRowsSameCells(rows, shuffled, name);
    SameRowsSameCells(shuffled, rows, name);
    var a, b := CellsOf(rows, name), CellsOf(shuffled, name);
    JoinTypesIsLeastUpperBound(a, JoinTypes(b));
    JoinTypesIsLeastUpperBound(b, JoinTypes(a));
    UnifyIsLeastUpperBound(JoinTypes(a), JoinTypes(b), TNull);
  }

  lemma SameRowsSameCells(rows: seq<Row>, shuffled: seq<Row>, name: string)
    requires multiset(rows) == multiset(shuffled)
    ensures forall c :: c in CellsOf(rows, name) ==> c in CellsOf(shuffled, name)
  {
    forall c | c in CellsOf(rows, name) ensures c in CellsOf(shuffled, name) {
      var i :| 0 <= i < |rows| && CellAt(rows[i], name) == c;
      assert rows[i] in multiset(shuffled);
      var j :| 0 <= j < |shuffled| && shuffled[j] == rows[i];
      assert CellsOf(shuffled, name)[j] == c;
    }
  }
}
