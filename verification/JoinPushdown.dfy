// Pushdown before a join: the walk from a source ends at a join and takes its two keys
// along, so both sides are asked for both keys and lose every other column.
module JoinPushdown {
  import opened Wrappers
  import opened Text
  import opened Graph
  import opened Definition
  import opened Projection
  import opened Frames
  import opened Joins
  import opened Nodes
  import opened SqlGuard
  import opened Pushdown

  // ---- What the join asks of a source ----

  ghost predicate IsJoinNode(nodes: NodeMap, id: string) {
    id in nodes && nodes[id].nodeType.Join? && nodes[id].config.join.Some?
  }

  // Both keys of a join met by the walk are in the hint.
  lemma HintHasBothKeys(nodes: NodeMap, g: Dag, source: string, hint: seq<string>, join: string)
    requires IsHint(nodes, g, source, Some(hint)) && IsJoinNode(nodes, join) && Met(nodes, g, source, join)
    ensures var keys := nodes[join].config.join.value;
            forall key :: key in {keys.leftKey, keys.rightKey} && key != "" ==> key in hint
  {
    var keys := nodes[join].config.join.value;
    forall key | key in {keys.leftKey, keys.rightKey} && key != "" ensures key in hint {
      assert key in ColumnsOf(nodes[join]);
      assert Names(nodes, g, source, key);
    }
  }

  // So a source before a join is read under its hint only if its answer has both keys of
  // the join, each once; with keys of different names on its two sides that is rare.
  lemma ReadBeforeJoinHasBothKeys(nodes: NodeMap, g: Dag, source: string, hint: seq<string>, join: string,
                                  db: Database, sql: string, key: string)
    requires IsHint(nodes, g, source, Some(hint)) && IsJoinNode(nodes, join) && Met(nodes, g, source, join)
    requires key in {nodes[join].config.join.value.leftKey, nodes[join].config.join.value.rightKey} && key != ""
    requires Applies(sql, hint) && Nests(db, sql, hint) && db(sql).Some?
    ensures Fetch(db, sql, hint).Some? ==> multiset(db(sql).value.columns)[key] == 1
  {
    HintHasBothKeys(nodes, g, source, hint, join);
    HintedFetch(db, sql, hint);
  }

  // ---- What is left of a joined row ----

  function OutKeys(right: set<string>, leftCols: set<string>, prefix: string): set<string> {
    set n | n in right :: OutKey(n, leftCols, prefix)
  }

  lemma KeysOfMerged(l: Row, r: Row, leftCols: set<string>, prefix: string, m: Row)
    requires Merges(l, r, leftCols, prefix, m)
    ensures m.Keys == l.Keys + OutKeys(r.Keys, leftCols, prefix)
  {
    forall k ensures k in m <==> k in l || k in OutKeys(r.Keys, leftCols, prefix) {
      assert k in OutKeys(r.Keys, leftCols, prefix) <==> Covered(r.Keys, leftCols, prefix, k);
    }
  }

  lemma {:induction false} OutKeysSize(right: set<string>, leftCols: set<string>, prefix: string)
    ensures |OutKeys(right, leftCols, prefix)| <= |right|
    ensures (forall k, n :: k in right && n in right && k != n ==>
               OutKey(k, leftCols, prefix) != OutKey(n, leftCols, prefix))
            ==> |OutKeys(right, leftCols, prefix)| == |right|
  {
    if right == {} {
      assert OutKeys(right, leftCols, prefix) == {};
    } else {
      var n :| n in right;
      OutKeysSize(right - {n}, leftCols, prefix);
      assert OutKeys(right, leftCols, prefix)
          == OutKeys(right - {n}, leftCols, prefix) + {OutKey(n, leftCols, prefix)};
    }
  }

  lemma UnionSize(a: set<string>, b: set<string>)
    ensures |a + b| <= |a| + |b|
    ensures a !! b ==> |a + b| == |a| + |b|
  {
  }

  lemma MergedSize(l: Row, r: Row, prefix: string, m: Row)
    requires Merges(l, r, l.Keys, prefix, m)
    ensures |m.Keys| <= |l.Keys| + |r.Keys|
    ensures NoClash(l.Keys, r.Keys, prefix) ==> |m.Keys| == |l.Keys| + |r.Keys|
  {
    KeysOfMerged(l, r, l.Keys, prefix, m);
    OutKeysSize(r.Keys, l.Keys, prefix);
    UnionSize(l.Keys, OutKeys(r.Keys, l.Keys, prefix));
  }

  lemma MergeIsUnique(l: Row, r: Row, prefix: string, m: Row, m': Row)
    requires NoClash(l.Keys, r.Keys, prefix) && Merges(l, r, l.Keys, prefix, m) && Merges(l, r, l.Keys, prefix, m')
    ensures m == m'
  {
    KeysOfMerged(l, r, l.Keys, prefix, m);
    KeysOfMerged(l, r, l.Keys, prefix, m');
    forall k | k in m ensures m[k] == m'[k] {
      if Covered(r.Keys, l.Keys, prefix, k) {
        assert ComesFrom(r, r.Keys, l.Keys, prefix, k, m[k]) && ComesFrom(r, r.Keys, l.Keys, prefix, k, m'[k]);
      }
    }
  }

  lemma NarrowShrinks(row: Row, hint: set<string>)
    ensures |Narrow(row, hint).Keys| <= |row.Keys|
    ensures |Narrow(row, hint).Keys| == |row.Keys| ==> row.Keys <= hint
  {
    var narrow := Narrow(row, hint);
    assert narrow.Keys == row.Keys * hint;
    SubsetIsSmaller(narrow.Keys, row.Keys);
    if !(row.Keys <= hint) {
      var n :| n in row.Keys && n !in hint;
      SubsetIsSmaller(narrow.Keys, row.Keys - {n});
    }
  }

  // A merged row is the same after narrowing both sides exactly when nothing was cut off
  // either.
  lemma MergedRowSameIff(l: Row, r: Row, hl: set<string>, hr: set<string>, prefix: string, m: Row, m': Row)
    requires NoClash(l.Keys, r.Keys, prefix) && Merges(l, r, l.Keys, prefix, m)
    requires Merges(Narrow(l, hl), Narrow(r, hr), Narrow(l, hl).Keys, prefix, m')
    ensures m == m' <==> l.Keys <= hl && r.Keys <= hr
  {
    NarrowedIsSame(l, hl);
    NarrowedIsSame(r, hr);
    if l.Keys <= hl && r.Keys <= hr {
      MergeIsUnique(l, r, prefix, m, m');
    } else {
      MergedSize(l, r, prefix, m);
      MergedSize(Narrow(l, hl), Narrow(r, hr), prefix, m');
      NarrowShrinks(l, hl);
      NarrowShrinks(r, hr);
    }
  }

  // ---- The join of narrowed tables ----

  ghost predicate IsNarrowed(t: Table, hint: set<string>, t': Table) {
    && ValidTable(t) && ValidTable(t') && t'.numRows == t.numRows
    && t'.cols == map n | n in t.cols && n in hint :: t.cols[n]
  }

  lemma NarrowedRowAt(t: Table, hint: set<string>, t': Table, i: nat)
    requires IsNarrowed(t, hint, t') && i < t.numRows
    ensures RowAt(t', i) == Narrow(RowAt(t, i), hint)
    ensures RowAt(t, i).Keys == t.cols.Keys
  {
  }

  // The row of a pair loses nothing.
  ghost predicate KeepsPair(left: Table, right: Table, hl: set<string>, hr: set<string>, p: Pair) {
    left.cols.Keys <= hl && (p.Matched? ==> right.cols.Keys <= hr)
  }

  lemma JoinedRowSameIff(left: Table, right: Table, left': Table, right': Table, hl: set<string>, hr: set<string>,
                         prefix: string, p: Pair, row: Row, row': Row)
    requires IsNarrowed(left, hl, left') && IsNarrowed(right, hr, right')
    requires NoClash(left.cols.Keys, right.cols.Keys, prefix)
    requires IsJoined(left, right, prefix, p, row) && IsJoined(left', right', prefix, p, row')
    ensures row == row' <==> KeepsPair(left, right, hl, hr, p)
  {
    NarrowedRowAt(left, hl, left', p.li);
    NarrowedIsSame(RowAt(left, p.li), hl);
    if p.Matched? {
      NarrowedRowAt(right, hr, right', p.ri);
      MergedRowSameIff(RowAt(left, p.li), RowAt(right, p.ri), hl, hr, prefix, row, row');
    }
  }

  function PairsOf(left: Table, right: Table, opts: JoinOptions): seq<Pair>
    requires opts.leftKey in left.cols && opts.rightKey in right.cols
  {
    NestedLoop(left.cols[opts.leftKey].cells, right.cols[opts.rightKey].cells, opts.joinType == Left)
  }

  // Without clashing names, a join of sides narrowed to hints with both keys in them shows
  // the same rows exactly when no row it emits comes from a side that lost a column.
  lemma JoinShowsIff(left: Table, right: Table, left': Table, right': Table, hl: set<string>, hr: set<string>,
                     opts: JoinOptions, rows: seq<Row>, rows': seq<Row>)
    requires IsNarrowed(left, hl, left') && IsNarrowed(right, hr, right')
    requires NoClash(left.cols.Keys, right.cols.Keys, PrefixOf(opts))
    requires opts.leftKey in left.cols && opts.rightKey in right.cols && opts.leftKey in hl && opts.rightKey in hr
    requires IsJoin(left, right, opts, rows) && IsJoin(left', right', opts, rows')
    ensures |rows'| == |rows|
    ensures rows' == rows <==> forall p :: p in PairsOf(left, right, opts) ==> KeepsPair(left, right, hl, hr, p)
  {
    var pairs := PairsOf(left, right, opts);
    assert PairsOf(left', right', opts) == pairs;
    forall i | 0 <= i < |pairs| ensures rows[i] == rows'[i] <==> KeepsPair(left, right, hl, hr, pairs[i]) {
      JoinedRowSameIff(left, right, left', right', hl, hr, PrefixOf(opts), pairs[i], rows[i], rows'[i]);
    }
    if rows' == rows {
      forall p | p in pairs ensures KeepsPair(left, right, hl, hr, p) {
        var i :| 0 <= i < |pairs| && pairs[i] == p;
      }
    }
  }

  // ---- An aggregate behind the join ----

  // A column of the join that narrowing leaves as it is: not cut off, and fed by the same
  // right columns under the same name.
  ghost predicate Survives(left: set<string>, right: set<string>, hl: set<string>, hr: set<string>, prefix: string,
                           a: string)
  {
    && (a in left ==> a in hl)
    && (forall n :: n in right && OutKey(n, left, prefix) == a ==> n in hr)
    && (forall n :: n in right && n in hr ==> (OutKey(n, left * hl, prefix) == a <==> OutKey(n, left, prefix) == a))
  }

  ghost predicate AllSurvive(left: set<string>, right: set<string>, hl: set<string>, hr: set<string>, prefix: string,
                             columns: set<string>)
  {
    forall a :: a in columns ==> Survives(left, right, hl, hr, prefix, a)
  }

  lemma SurvivesMerge(l: Row, r: Row, hl: set<string>, hr: set<string>, prefix: string, m: Row, m': Row, a: string)
    requires NoClash(l.Keys, r.Keys, prefix) && Merges(l, r, l.Keys, prefix, m)
    requires Merges(Narrow(l, hl), Narrow(r, hr), Narrow(l, hl).Keys, prefix, m')
    requires Survives(l.Keys, r.Keys, hl, hr, prefix, a)
    ensures (a in m <==> a in m') && (a in m ==> m[a] == m'[a])
  {
    var l', r' := Narrow(l, hl), Narrow(r, hr);
    assert l'.Keys == l.Keys * hl && r'.Keys == r.Keys * hr;
    if Covered(r.Keys, l.Keys, prefix, a) {
      var n :| n in r.Keys && OutKey(n, l.Keys, prefix) == a;
      assert n in r' && OutKey(n, l'.Keys, prefix) == a;
      assert Covered(r'.Keys, l'.Keys, prefix, a);
      assert ComesFrom(r, r.Keys, l.Keys, prefix, a, m[a]);
      assert ComesFrom(r', r'.Keys, l'.Keys, prefix, a, m'[a]);
    } else {
      assert forall n :: n in r'.Keys ==> OutKey(n, l'.Keys, prefix) != a;
    }
  }

  lemma SurvivesJoin(left: Table, right: Table, left': Table, right': Table, hl: set<string>, hr: set<string>,
                     prefix: string, columns: set<string>, p: Pair, row: Row, row': Row)
    requires IsNarrowed(left, hl, left') && IsNarrowed(right, hr, right')
    requires NoClash(left.cols.Keys, right.cols.Keys, prefix)
    requires AllSurvive(left.cols.Keys, right.cols.Keys, hl, hr, prefix, columns)
    requires IsJoined(left, right, prefix, p, row) && IsJoined(left', right', prefix, p, row')
    ensures Narrow(row, columns) == Narrow(row', columns)
  {
    NarrowedRowAt(left, hl, left', p.li);
    forall a | a in columns ensures (a in row <==> a in row') && (a in row ==> row[a] == row'[a]) {
      assert Survives(left.cols.Keys, right.cols.Keys, hl, hr, prefix, a);
      if p.Matched? {
        NarrowedRowAt(right, hr, right', p.ri);
        SurvivesMerge(RowAt(left, p.li), RowAt(right, p.ri), hl, hr, prefix, row, row', a);
      }
    }
  }

  // An aggregate behind the join that reads nothing but columns that survive yields the
  // same rows, or fails alike.
  lemma AggregateBehindJoin(show: Cell -> string, left: Table, right: Table, left': Table, right': Table,
                            hl: set<string>, hr: set<string>, opts: JoinOptions, rows: seq<Row>, rows': seq<Row>,
                            cfg: AggregateConfig, columns: set<string>)
    requires IsNarrowed(left, hl, left') && IsNarrowed(right, hr, right')
    requires NoClash(left.cols.Keys, right.cols.Keys, PrefixOf(opts))
    requires opts.leftKey in left.cols && opts.rightKey in right.cols && opts.leftKey in hl && opts.rightKey in hr
    requires IsJoin(left, right, opts, rows) && IsJoin(left', right', opts, rows')
    requires CoversAggregate(cfg, columns) && "" !in NamesIn(rows) && "" !in NamesIn(rows')
    requires AllSurvive(left.cols.Keys, right.cols.Keys, hl, hr, PrefixOf(opts), columns)
    ensures AggregateNode(show, NamesIn(rows'), cfg, rows') == AggregateNode(show, NamesIn(rows), cfg, rows)
  {
    var pairs := PairsOf(left, right, opts);
    assert PairsOf(left', right', opts) == pairs;
    forall i | 0 <= i < |pairs| ensures Narrow(rows[i], columns) == Narrow(rows'[i], columns) {
      SurvivesJoin(left, right, left', right', hl, hr, PrefixOf(opts), columns, pairs[i], rows[i], rows'[i]);
    }
    assert Project(rows, columns) == Project(rows', columns);
    NamesNarrow(rows, columns);
    NamesNarrow(rows', columns);
    AggregateCommutes(show, NamesIn(rows), cfg, rows, columns);
    AggregateCommutes(show, NamesIn(rows'), cfg, rows', columns);
  }

  // One that groups by a column that was cut off, and that no right column takes the name
  // of, fails.
  lemma CutKeyFailsBehindJoin(show: Cell -> string, left': Table, right': Table, opts: JoinOptions, rows': seq<Row>,
                              cfg: AggregateConfig, key: string)
    requires ValidTable(left') && ValidTable(right') && opts.leftKey in left'.cols && opts.rightKey in right'.cols
    requires IsJoin(left', right', opts, rows') && key in cfg.groupBy
    requires key !in left'.cols && key !in OutKeys(right'.cols.Keys, left'.cols.Keys, PrefixOf(opts))
    ensures AggregateNode(show, NamesIn(rows'), cfg, rows').None?
  {
    var pairs := PairsOf(left', right', opts);
    forall r | r in rows' ensures key !in r {
      var i :| 0 <= i < |rows'| && rows'[i] == r;
      assert IsJoined(left', right', PrefixOf(opts), pairs[i], r);
      if pairs[i].Matched? {
        KeysOfMerged(RowAt(left', pairs[i].li), RowAt(right', pairs[i].ri), left'.cols.Keys, PrefixOf(opts), r);
      }
    }
  }
}
