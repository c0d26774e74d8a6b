// Dictionary encoding of string columns: an index beside the plain column that has to
// keep telling the same text.
module Dictionaries {
  import opened Wrappers
  import opened Text
  import opened Frames

  function PlainText(c: Cell): string {
    if c.Str? then c.text else ""
  }

  function PlainString(t: Table, col: string, row: int): string {
    if col in t.cols && 0 <= row < |t.cols[col].cells| then PlainText(t.cols[col].cells[row]) else ""
  }

  function Decode(d: Dictionary, row: nat): string
    requires row < |d.indexes|
  {
    if 0 <= d.indexes[row] < |d.entries| then d.entries[d.indexes[row]] else ""
  }

  function GetString(t: Table, col: string, row: int): string {
    if col in t.dicts && 0 <= row < |t.dicts[col].indexes| then Decode(t.dicts[col], row)
    else PlainString(t, col, row)
  }

  predicate RowIsRight(t: Table, col: string, row: int) {
    GetString(t, col, row) == PlainString(t, col, row)
  }

  // Every string read through the dictionaries is the plain one.
  ghost predicate Agrees(t: Table) {
    forall col, row :: 0 <= row < t.numRows ==> RowIsRight(t, col, row)
  }

  // ---- Encoding one column ----

  ghost function TextsIn(cells: seq<Cell>): set<string> {
    set c | c in cells && c.Str? :: c.text
  }

  // A column gets a dictionary exactly when its non-null cells are strings, at least
  // one and at most threshold different ones.
  ghost predicate Encodable(cells: seq<Cell>, threshold: int) {
    (forall c :: c in cells ==> c.Null? || c.Str?) && 0 < |TextsIn(cells)| <= threshold
  }

  // The strings in order of first appearance.
  function Entries(cells: seq<Cell>): seq<string> {
    if cells == [] then []
    else
      var entries := Entries(cells[..|cells| - 1]);
      var last := cells[|cells| - 1];
      if last.Str? && last.text !in entries then entries + [last.text] else entries
  }

  function Position(entries: seq<string>, s: string): nat {
    if entries == [] || entries[0] == s then 0 else 1 + Position(entries[1..], s)
  }

  function Indexes(cells: seq<Cell>): (r: seq<int>)
    ensures |r| == |cells|
  {
    if cells == [] then []
    else
      var last := cells[|cells| - 1];
      Indexes(cells[..|cells| - 1]) + [if last.Str? then Position(Entries(cells), last.text) else -1]
  }

  function DictionaryOf(cells: seq<Cell>): Dictionary {
    Dictionary(Entries(cells), Indexes(cells))
  }

  lemma {:induction false} PositionFinds(entries: seq<string>, s: string)
    ensures s in entries ==> Position(entries, s) < |entries| && entries[Position(entries, s)] == s
    ensures s !in entries ==> Position(entries, s) == |entries|
  {
    if entries != [] && entries[0] != s {
      PositionFinds(entries[1..], s);
      assert entries == [entries[0]] + entries[1..];
    }
  }

  lemma {:induction false} PositionIsStable(entries: seq<string>, more: seq<string>, s: string)
    requires s in entries
    ensures Position(entries + more, s) == Position(entries, s)
  {
    if entries[0] != s {
      PositionIsStable(entries[1..], more, s);
      assert (entries + more)[1..] == entries[1..] + more;
    }
  }

  lemma TextsGrow(cells: seq<Cell>, c: Cell)
    ensures TextsIn(cells + [c]) == TextsIn(cells) + if c.Str? then {c.text} else {}
  {
    assert forall x :: x in cells + [c] <==> x in cells || x == c;
  }

  lemma {:induction false} EntriesAreTexts(cells: seq<Cell>)
    ensures Distinct(Entries(cells)) && SetOf(Entries(cells)) == TextsIn(cells)
  {
    if cells != [] {
      var init, last := cells[..|cells| - 1], cells[|cells| - 1];
      EntriesAreTexts(init);
      assert cells == init + [last];
      TextsGrow(init, last);
      if last.Str? {
        assert last.text in Entries(init) <==> last.text in SetOf(Entries(init));
        assert SetOf(Entries(init) + [last.text]) == SetOf(Entries(init)) + {last.text};
      }
    }
  }

  lemma EntriesCount(cells: seq<Cell>)
    ensures |Entries(cells)| == |TextsIn(cells)|
  {
    EntriesAreTexts(cells);
    DistinctCardinality(Entries(cells));
  }

  lemma TextsOfPrefix(cells: seq<Cell>, n: nat)
    requires n <= |cells|
    ensures |TextsIn(cells[..n])| <= |TextsIn(cells)|
  {
    SubsetIsSmaller(TextsIn(cells[..n]), TextsIn(cells));
  }

  // Entries only ever get appended to, so an index stays right as the column is read on.
  lemma {:induction false} DictionaryDecodes(cells: seq<Cell>, row: nat)
    requires row < |cells|
    ensures Decode(DictionaryOf(cells), row) == PlainText(cells[row])
  {
    var init, last := cells[..|cells| - 1], cells[|cells| - 1];
    if row < |init| {
      DictionaryDecodes(init, row);
      assert Indexes(cells)[row] == Indexes(init)[row];
      IndexesAreEntries(init, row);
    } else {
      PositionFinds(Entries(cells), PlainText(last));
    }
  }

  lemma {:induction false} IndexesAreEntries(cells: seq<Cell>, row: nat)
    requires row < |cells|
    ensures -1 <= Indexes(cells)[row] < |Entries(cells)|
    ensures Indexes(cells)[row] == -1 <==> !cells[row].Str?
  {
    var init, last := cells[..|cells| - 1], cells[|cells| - 1];
    if row < |init| {
      IndexesAreEntries(init, row);
    } else if last.Str? {
      PositionFinds(Entries(cells), last.text);
    }
  }

  // The number of every entry, as the encoder looks it up.
  ghost predicate IsLookup(dictIndex: map<string, nat>, dict: seq<string>) {
    dictIndex == map s | s in SetOf(dict) :: Position(dict, s)
  }

  lemma LookupGrows(dictIndex: map<string, nat>, dict: seq<string>, s: string)
    requires IsLookup(dictIndex, dict) && s !in dictIndex
    ensures IsLookup(dictIndex[s := |dict|], dict + [s])
  {
    assert SetOf(dict + [s]) == SetOf(dict) + {s};
    PositionFinds(dict + [s], s);
    PositionFinds(dict, s);
    forall x | x in dict ensures Position(dict + [s], x) == Position(dict, x) {
      PositionIsStable(dict, [s], x);
    }
    LastPosition(dict, s);
  }

  lemma {:induction false} LastPosition(entries: seq<string>, s: string)
    requires s !in entries
    ensures Position(entries + [s], s) == |entries|
  {
    if entries != [] {
      LastPosition(entries[1..], s);
      assert (entries + [s])[1..] == entries[1..] + [s];
    }
  }

  // Where a prefix already rules the column out.
  lemma PrefixRulesOut(cells: seq<Cell>, i: nat, threshold: int)
    requires i < |cells|
    requires !(cells[i].Null? || cells[i].Str?) || |Entries(cells[..i + 1])| > threshold
    ensures !Encodable(cells, threshold)
  {
    assert cells[i] in cells;
    EntriesCount(cells[..i + 1]);
    TextsOfPrefix(cells, i + 1);
  }

  lemma DictionaryStep(cells: seq<Cell>, i: nat)
    requires i < |cells|
    ensures Entries(cells[..i + 1]) == Entries(cells[..i])
         + if cells[i].Str? && cells[i].text !in Entries(cells[..i]) then [cells[i].text] else []
    ensures Indexes(cells[..i + 1]) == Indexes(cells[..i])
         + [if cells[i].Str? then Position(Entries(cells[..i + 1]), cells[i].text) else -1]
  {
    assert cells[..i + 1][..i] == cells[..i];
  }

  method EncodeColumn(cells: seq<Cell>, threshold: int) returns (r: Option<Dictionary>)
    requires threshold > 0
    ensures r == if Encodable(cells, threshold) then Some(DictionaryOf(cells)) else None
  {
    var dictIndex: map<string, nat> := map[];
    var dict: seq<string> := [];
    var indexes: seq<int> := [];
    for i := 0 to |cells|
      invariant forall c :: c in cells[..i] ==> c.Null? || c.Str?
      invariant dict == Entries(cells[..i]) && indexes == Indexes(cells[..i])
      invariant |dict| <= threshold && IsLookup(dictIndex, dict)
    {
      var raw := cells[i];
      PrefixStep(cells, i);
      DictionaryStep(cells, i);
      if raw == Null {
        indexes := indexes + [-1];
        continue;
      }
      if !raw.Str? {
        PrefixRulesOut(cells, i, threshold);
        return None;
      }
      var s := raw.text;
      if s !in dictIndex {
        if |dict| >= threshold {
          PrefixRulesOut(cells, i, threshold);
          return None;
        }
        LookupGrows(dictIndex, dict, s);
        dictIndex := dictIndex[s := |dict|];
        dict := dict + [s];
      }
      indexes := indexes + [dictIndex[s]];
    }
    assert cells[..|cells|] == cells;
    EntriesCount(cells);
    return if |dict| == 0 then None else Some(Dictionary(dict, indexes));
  }

  // ---- Encoding a frame ----

  ghost predicate GetsDictionary(t: Table, name: string, threshold: int) {
    name in t.cols && t.cols[name].typ == TString && Encodable(t.cols[name].cells, threshold)
  }

  // The dictionaries after the given fields: a new one for each that gets one, otherwise
  // whatever was there.
  ghost function DictsAfter(t: Table, threshold: int, names: seq<string>): map<string, Dictionary> {
    if names == [] then t.dicts
    else
      var name := names[|names| - 1];
      var before := DictsAfter(t, threshold, names[..|names| - 1]);
      if GetsDictionary(t, name, threshold) then before[name := DictionaryOf(t.cols[name].cells)] else before
  }

  ghost function Gains(t: Table, threshold: int, names: seq<string>): (r: seq<string>)
    ensures |r| <= |names|
  {
    if names == [] then []
    else
      var name := names[|names| - 1];
      Gains(t, threshold, names[..|names| - 1]) + if GetsDictionary(t, name, threshold) then [name] else []
  }

  lemma {:induction false} GainsAreChosen(t: Table, threshold: int, names: seq<string>, name: string)
    ensures name in Gains(t, threshold, names) <==> name in names && GetsDictionary(t, name, threshold)
  {
    if names != [] {
      var init, last := names[..|names| - 1], names[|names| - 1];
      GainsAreChosen(t, threshold, init, name);
      assert names == init + [last];
    }
  }

  lemma {:induction false} GainsAreDistinct(t: Table, threshold: int, names: seq<string>)
    requires Distinct(names)
    ensures Distinct(Gains(t, threshold, names))
  {
    if names != [] {
      var init, last := names[..|names| - 1], names[|names| - 1];
      GainsAreDistinct(t, threshold, init);
      GainsAreChosen(t, threshold, init, last);
    }
  }

  lemma {:induction false} DictsAfterMeans(t: Table, threshold: int, names: seq<string>, name: string)
    ensures var dicts := DictsAfter(t, threshold, names);
            if name in names && GetsDictionary(t, name, threshold)
            then name in dicts && dicts[name] == DictionaryOf(t.cols[name].cells)
            else (name in dicts <==> name in t.dicts) && (name in dicts ==> dicts[name] == t.dicts[name])
  {
    if names != [] {
      DictsAfterMeans(t, threshold, names[..|names| - 1], name);
      assert names == names[..|names| - 1] + [names[|names| - 1]];
    }
  }

  lemma PrefixOfPrefix(names: seq<string>, i: nat)
    requires i < |names|
    ensures names[..i + 1][..i] == names[..i] && names[..i + 1][i] == names[i]
  {
  }

  // The number of columns encoded is the number of those that get a dictionary.
  method ApplyDictionaryEncoding(f: Frame, threshold: int) returns (encoded: nat)
    requires f.Valid()
    modifies f`dicts
    ensures f.dicts == if threshold <= 0 then old(f.dicts) else DictsAfter(old(f.View()), threshold, f.names)
    ensures encoded == if threshold <= 0 then 0 else |Gains(old(f.View()), threshold, f.names)|
  {
    encoded := 0;
    if threshold <= 0 {
      return;
    }
    ghost var t := f.View();
    for i := 0 to |f.names|
      invariant f.dicts == DictsAfter(t, threshold, f.names[..i])
      invariant encoded == |Gains(t, threshold, f.names[..i])|
    {
      var name := f.names[i];
      PrefixOfPrefix(f.names, i);
      assert name in SetOf(f.names);
      if f.cols[name].typ != TString {
        continue;
      }
      var dict := EncodeColumn(f.cols[name].cells, threshold);
      if dict.None? {
        continue;
      }
      f.dicts := f.dicts[name := dict.value];
      encoded := encoded + 1;
    }
    assert f.names[..|f.names|] == f.names;
  }

  // Encoding keeps the strings, whatever dictionaries were there before.
  lemma EncodingKeepsStrings(t: Table, threshold: int)
    requires ValidTable(t) && Agrees(t)
    ensures Agrees(t.(dicts := DictsAfter(t, threshold, t.names)))
  {
    var t' := t.(dicts := DictsAfter(t, threshold, t.names));
    forall col, row | 0 <= row < t'.numRows ensures RowIsRight(t', col, row) {
      assert RowIsRight(t, col, row);
      DictsAfterMeans(t, threshold, t.names, col);
      if col in t.names && GetsDictionary(t, col, threshold) {
        DictionaryDecodes(t.cols[col].cells, row);
      }
    }
  }

  // ---- What keeps the agreement and what does not ----

  ghost predicate InStep(t: Table) {
    forall n :: n in t.dicts ==> n in t.cols && |t.dicts[n].indexes| <= t.numRows
  }

  // A row appended while no dictionary reaches past the rows is read from the plain column.
  lemma AppendKeepsStrings(t: Table, row: Row, t': Table)
    requires ValidTable(t) && Appended(t, row, t') && Agrees(t) && InStep(t)
    ensures Agrees(t') && InStep(t')
  {
    forall col, i | 0 <= i < t'.numRows ensures RowIsRight(t', col, i) {
      if col in t.dicts && i < |t.dicts[col].indexes| {
        assert RowIsRight(t, col, i);
        assert t'.cols[col].cells[i] == t.cols[col].cells[i];
      }
    }
  }

  lemma LimitKeepsStrings(t: Table, maxRows: int)
    requires ValidTable(t) && Agrees(t)
    ensures Agrees(Limited(t, maxRows))
  {
    var t' := Limited(t, maxRows);
    forall col, i | 0 <= i < t'.numRows ensures RowIsRight(t', col, i) {
      assert RowIsRight(t, col, i);
    }
  }

  // Any appends and then any row limit: the strings stay right.
  ghost predicate AppendedAll(t: Table, rows: seq<Row>, t': Table)
    decreases |rows|
  {
    if rows == [] then t' == t
    else exists u :: AppendedAll(t, rows[..|rows| - 1], u) && ValidTable(u) && Appended(u, rows[|rows| - 1], t')
  }

  lemma {:induction false} AppendsThenLimitKeepStrings(t: Table, rows: seq<Row>, t': Table, maxRows: int)
    requires ValidTable(t) && AppendedAll(t, rows, t') && Agrees(t) && InStep(t)
    ensures ValidTable(t') && Agrees(t') && InStep(t') && Agrees(Limited(t', maxRows))
    decreases |rows|
  {
    if rows != [] {
      var u :| AppendedAll(t, rows[..|rows| - 1], u) && ValidTable(u) && Appended(u, rows[|rows| - 1], t');
      AppendsThenLimitKeepStrings(t, rows[..|rows| - 1], u, maxRows);
      AppendKeepsStrings(u, rows[|rows| - 1], t');
    }
    LimitKeepsStrings(t', maxRows);
  }

  // One more row is safe whatever it holds exactly when no dictionary reaches past the
  // rows, which a row limit brings about.
  lemma AppendIsSafeIffInStep(t: Table)
    requires ValidTable(t) && Agrees(t) && t.dicts.Keys <= t.cols.Keys
    ensures (forall row, t' :: Appended(t, row, t') ==> Agrees(t')) <==> InStep(t)
  {
    if InStep(t) {
      forall row, t' | Appended(t, row, t') ensures Agrees(t') {
        AppendKeepsStrings(t, row, t');
      }
    } else {
      var n :| n in t.dicts && |t.dicts[n].indexes| > t.numRows;
      var row, t' := StaleRow(t, n);
    }
  }

  // A row that a dictionary reaching past the rows hides.
  lemma StaleRow(t: Table, n: string) returns (row: Row, t': Table)
    requires ValidTable(t) && n in t.dicts && n in t.cols && |t.dicts[n].indexes| > t.numRows
    ensures Appended(t, row, t') && !Agrees(t')
  {
    var stale := Decode(t.dicts[n], t.numRows);
    row := map[n := Str(stale + "!")];
    var cols := map c | c in t.cols :: Extend(t.cols[c], CellAt(row, c));
    t' := t.(numRows := t.numRows + 1, cols := cols);
    assert t.cols.Keys + row.Keys == t.cols.Keys;
    assert t'.cols[n].cells[t.numRows] == Str(stale + "!");
    assert !RowIsRight(t', n, t.numRows);
    assert GetString(t', n, t.numRows) == stale && PlainString(t', n, t.numRows) == stale + "!";
    assert |stale + "!"| == |stale| + 1;
  }

  // ---- Truncation ----

  // A string's bytes, one character each; the suffix is the UTF-8 of the source's.
  const SUFFIX: string := "\U{e2}\U{80}\U{a6}(truncated)"

  function CutCell(c: Cell, maxBytes: int): Cell {
    if c.Str? && maxBytes > 0 && |c.text| > maxBytes then Str(c.text[..maxBytes] + SUFFIX) else c
  }

  function CutCells(cells: seq<Cell>, maxBytes: int): (r: seq<Cell>)
    ensures |r| == |cells|
    ensures forall i :: 0 <= i < |cells| ==> r[i] == CutCell(cells[i], maxBytes)
  {
    seq(|cells|, i requires 0 <= i < |cells| => CutCell(cells[i], maxBytes))
  }

  function Truncated(t: Table, maxBytes: int): Table {
    t.(cols := map n | n in t.cols :: t.cols[n].(cells := CutCells(t.cols[n].cells, maxBytes)))
  }

  method TruncateCells(f: Frame, maxBytes: int)
    requires f.Valid()
    modifies f`cols
    ensures f.Valid() && f.View() == Truncated(old(f.View()), maxBytes)
  {
    ghost var before := f.cols;
    var rest := f.cols.Keys;
    while rest != {}
      invariant rest <= f.cols.Keys == before.Keys
      invariant forall n :: n in f.cols ==>
        f.cols[n] == if n in rest then before[n] else before[n].(cells := CutCells(before[n].cells, maxBytes))
    {
      var name :| name in rest;
      f.cols := f.cols[name := f.cols[name].(cells := CutCells(f.cols[name].cells, maxBytes))];
      rest := rest - {name};
    }
  }

  // A row whose string is read from a dictionary.
  predicate ReadsDictionary(t: Table, col: string, row: int) {
    col in t.dicts && 0 <= row < t.numRows && row < |t.dicts[col].indexes|
  }

  // The cell is within the limit, or what a cut leaves.
  ghost predicate IsUncut(t: Table, col: string, row: int, maxBytes: int) {
    col in t.cols && 0 <= row < |t.cols[col].cells| ==>
      CutCell(t.cols[col].cells[row], maxBytes) == t.cols[col].cells[row]
  }

  lemma CutShows(c: Cell, maxBytes: int)
    ensures PlainText(CutCell(c, maxBytes)) == PlainText(c) <==> CutCell(c, maxBytes) == c
  {
  }

  // One row after truncation: what its dictionary says is still the plain string exactly
  // when the cell was not cut.
  lemma RowAfterTruncation(t: Table, maxBytes: int, col: string, row: int)
    requires ValidTable(t) && Agrees(t) && 0 <= row < t.numRows && (col in t.dicts ==> col in t.cols)
    ensures RowIsRight(Truncated(t, maxBytes), col, row)
            <==> !ReadsDictionary(t, col, row) || IsUncut(t, col, row, maxBytes)
  {
    assert RowIsRight(t, col, row);
    if col in t.cols {
      CutShows(t.cols[col].cells[row], maxBytes);
      assert Truncated(t, maxBytes).cols[col].cells[row] == CutCell(t.cols[col].cells[row], maxBytes);
    }
  }

  // Truncating under dictionaries keeps every string exactly when it cuts no cell that is
  // read from one.
  lemma TruncatingKeepsStringsIff(t: Table, maxBytes: int)
    requires ValidTable(t) && Agrees(t) && t.dicts.Keys <= t.cols.Keys
    ensures Agrees(Truncated(t, maxBytes))
       <==> forall col, row :: ReadsDictionary(t, col, row) ==> IsUncut(t, col, row, maxBytes)
  {
    var t' := Truncated(t, maxBytes);
    forall col, row | 0 <= row < t.numRows
      ensures RowIsRight(t', col, row) <==> !ReadsDictionary(t, col, row) || IsUncut(t, col, row, maxBytes) {
      RowAfterTruncation(t, maxBytes, col, row);
    }
  }

  // So truncating after encoding leaves any dictionary behind that a cut cell is read from.
  lemma TruncatingAfterEncodingIsStale(t: Table, maxBytes: int, col: string, row: int)
    requires ValidTable(t) && Agrees(t) && t.dicts.Keys <= t.cols.Keys
    requires ReadsDictionary(t, col, row) && !IsUncut(t, col, row, maxBytes)
    ensures !Agrees(Truncated(t, maxBytes))
  {
    TruncatingKeepsStringsIff(t, maxBytes);
  }

  lemma NarrowingKeepsStrings(t: Table, maxCols: int)
    requires ValidTable(t) && Agrees(t)
    ensures Agrees(Narrowed(t, maxCols))
  {
    var t' := Narrowed(t, maxCols);
    forall col, row | 0 <= row < t'.numRows ensures RowIsRight(t', col, row) {
      assert RowIsRight(t, col, row);
    }
  }

  // ---- The guardrails in order ----

  // What limiting columns, truncating and encoding make of a frame.
  ghost function Guarded(t: Table, maxCols: int, maxBytes: int, threshold: int): Table {
    var cut := Truncated(Narrowed(t, maxCols), maxBytes);
    if threshold <= 0 then cut else cut.(dicts := DictsAfter(cut, threshold, cut.names))
  }

  method ApplyFrameGuardrails(f: Frame, maxCols: int, maxBytes: int, threshold: int)
    requires f.Valid()
    modifies f
    ensures f.Valid() && f.View() == Guarded(old(f.View()), maxCols, maxBytes, threshold)
  {
    f.LimitColumns(maxCols);
    TruncateCells(f, maxBytes);
    var _ := ApplyDictionaryEncoding(f, threshold);
  }

  ghost predicate StaysRight(t: Table, maxBytes: int, threshold: int, col: string, row: int) {
    ReadsDictionary(t, col, row) ==>
      IsUncut(t, col, row, maxBytes) || (threshold > 0 && GetsDictionary(Truncated(t, maxBytes), col, threshold))
  }

  // Truncation comes before encoding, so new dictionaries index the strings as truncated;
  // one that was there before is right unless a cell under it was cut and its column gets
  // no new one.
  lemma GuardedAgreesIff(t: Table, maxCols: int, maxBytes: int, threshold: int)
    requires ValidTable(t) && Agrees(t) && t.dicts.Keys <= t.cols.Keys
    ensures Agrees(Guarded(t, maxCols, maxBytes, threshold))
       <==> forall col, row :: StaysRight(Narrowed(t, maxCols), maxBytes, threshold, col, row)
  {
    NarrowingKeepsStrings(t, maxCols);
    NarrowedIsValid(t, maxCols);
    var narrow := Narrowed(t, maxCols);
    var cut := Truncated(narrow, maxBytes);
    var t' := Guarded(t, maxCols, maxBytes, threshold);
    forall col, row | 0 <= row < t'.numRows
      ensures RowIsRight(t', col, row) <==> StaysRight(narrow, maxBytes, threshold, col, row) {
      RowAfterTruncation(narrow, maxBytes, col, row);
      GuardedRow(cut, threshold, col, row);
    }
  }

  // Encoding repairs the rows of the columns it encodes and leaves the others.
  lemma GuardedRow(cut: Table, threshold: int, col: string, row: int)
    requires ValidTable(cut) && 0 <= row < cut.numRows
    ensures var t' := if threshold <= 0 then cut else cut.(dicts := DictsAfter(cut, threshold, cut.names));
            if threshold > 0 && GetsDictionary(cut, col, threshold)
            then GetString(t', col, row) == PlainString(t', col, row)
            else
              && GetString(t', col, row) == GetString(cut, col, row)
              && PlainString(t', col, row) == PlainString(cut, col, row)
  {
    if threshold > 0 {
      DictsAfterMeans(cut, threshold, cut.names, col);
      if GetsDictionary(cut, col, threshold) {
        assert col in SetOf(cut.names);
        DictionaryDecodes(cut.cols[col].cells, row);
      }
    }
  }

  // A frame fresh from a connector has no dictionaries yet: every string is right
  // afterwards, and the dictionaries are distinct, within the threshold, and no longer
  // than the frame.
  lemma FreshDictionariesAgree(t: Table, maxCols: int, maxBytes: int, threshold: int)
    requires ValidTable(t) && t.dicts == map[]
    ensures var t' := Guarded(t, maxCols, maxBytes, threshold);
            && Agrees(t') && InStep(t')
            && forall n :: n in t'.dicts ==> |t'.dicts[n].entries| <= threshold && Distinct(t'.dicts[n].entries)
  {
    GuardedAgreesIff(t, maxCols, maxBytes, threshold);
    NarrowedIsValid(t, maxCols);
    var cut := Truncated(Narrowed(t, maxCols), maxBytes);
    var t' := Guarded(t, maxCols, maxBytes, threshold);
    forall n | n in t'.dicts
      ensures n in t'.cols && |t'.dicts[n].indexes| <= t'.numRows
           && |t'.dicts[n].entries| <= threshold && Distinct(t'.dicts[n].entries) {
      DictsAfterMeans(cut, threshold, cut.names, n);
      EntriesCount(cut.cols[n].cells);
      EntriesAreTexts(cut.cols[n].cells);
    }
  }
}
