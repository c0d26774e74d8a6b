// Hash join of two frames on equal key values, against the nested-loop join.
module Joins {
  import opened Wrappers
  import opened Text
  import opened Frames

  datatype JoinType = Unspecified | Inner | Left | OtherJoin(name: string)

  datatype JoinOptions = JoinOptions(leftKey: string, rightKey: string, joinType: JoinType, rightPrefix: string)

  // Unhashable stands for the panic Go raises when a map or a slice is used as a map key.
  datatype JoinError = MissingKeys | UnknownColumn(name: string) | Unhashable

  predicate Hashable(c: Cell) {
    !c.Json?
  }

  // ---- Which rows meet: the nested-loop join ----

  datatype Pair = Matched(li: nat, ri: nat) | Unmatched(li: nat)

  // Positions of key among cells, ascending.
  function PositionsOf(key: Cell, cells: seq<Cell>): seq<nat> {
    if cells == [] then []
    else
      var last := |cells| - 1;
      PositionsOf(key, cells[..last]) + if cells[last] == key then [last] else []
  }

  function PairsFor(li: nat, matches: seq<nat>, keepUnmatched: bool): seq<Pair> {
    if matches == [] then (if keepUnmatched then [Unmatched(li)] else [])
    else seq(|matches|, i requires 0 <= i < |matches| => Matched(li, matches[i]))
  }

  // For every left row in turn, every right row in turn whose key is equal.
  function NestedLoop(leftKeys: seq<Cell>, rightKeys: seq<Cell>, keepUnmatched: bool): seq<Pair> {
    if leftKeys == [] then []
    else
      var last := |leftKeys| - 1;
      NestedLoop(leftKeys[..last], rightKeys, keepUnmatched)
      + PairsFor(last, PositionsOf(leftKeys[last], rightKeys), keepUnmatched)
  }

  // ---- What a merged row holds ----

  function OutKey(k: string, leftCols: set<string>, prefix: string): string {
    if k in leftCols then prefix + k else k
  }

  ghost predicate ComesFrom(right: Row, done: set<string>, leftCols: set<string>, prefix: string, k: string, c: Cell) {
    exists n :: n in done && n in right && OutKey(n, leftCols, prefix) == k && right[n] == c
  }

  ghost predicate Covered(done: set<string>, leftCols: set<string>, prefix: string, k: string) {
    exists n :: n in done && OutKey(n, leftCols, prefix) == k
  }

  // The left row with the right columns of done written over it, in some order: where
  // two right columns share an output name either may win.
  ghost predicate MergedUpTo(left: Row, right: Row, done: set<string>, leftCols: set<string>, prefix: string, m: Row) {
    && (forall k :: k in m <==> k in left || Covered(done, leftCols, prefix, k))
    && forall k :: k in m ==>
         if Covered(done, leftCols, prefix, k) then ComesFrom(right, done, leftCols, prefix, k, m[k])
         else k in left && m[k] == left[k]
  }

  ghost predicate Merges(left: Row, right: Row, leftCols: set<string>, prefix: string, m: Row) {
    MergedUpTo(left, right, right.Keys, leftCols, prefix, m)
  }

  method MergeRows(left: Row, right: Row, leftCols: set<string>, prefix: string) returns (merged: Row)
    ensures Merges(left, right, leftCols, prefix, merged)
  {
    merged := left;
    var rest := right.Keys;
    while rest != {}
      invariant rest <= right.Keys
      invariant MergedUpTo(left, right, right.Keys - rest, leftCols, prefix, merged)
    {
      var k :| k in rest;
      MergeStep(left, right, right.Keys - rest, leftCols, prefix, merged, k);
      assert right.Keys - (rest - {k}) == right.Keys - rest + {k};
      var outKey := if k in leftCols then prefix + k else k;
      merged := merged[outKey := right[k]];
      rest := rest - {k};
    }
    assert right.Keys - rest == right.Keys;
  }

  lemma MergeStep(left: Row, right: Row, done: set<string>, leftCols: set<string>, prefix: string, m: Row, n: string)
    requires MergedUpTo(left, right, done, leftCols, prefix, m) && n in right
    ensures MergedUpTo(left, right, done + {n}, leftCols, prefix, m[OutKey(n, leftCols, prefix) := right[n]])
  {
    var out := OutKey(n, leftCols, prefix);
    var m' := m[out := right[n]];
    forall k ensures Covered(done + {n}, leftCols, prefix, k) <==> Covered(done, leftCols, prefix, k) || k == out {
      if Covered(done, leftCols, prefix, k) {
        var w :| w in done && OutKey(w, leftCols, prefix) == k;
        assert w in done + {n};
      } else if k == out {
        assert n in done + {n};
      }
    }
    forall k | k in m' && Covered(done + {n}, leftCols, prefix, k)
      ensures ComesFrom(right, done + {n}, leftCols, prefix, k, m'[k])
    {
      if k == out {
        assert n in done + {n};
      } else {
        assert ComesFrom(right, done, leftCols, prefix, k, m[k]);
      }
    }
  }

  function PrefixOf(opts: JoinOptions): string {
    if opts.rightPrefix == "" then "right_" else opts.rightPrefix
  }

  // The row emitted for a pair.
  ghost predicate IsJoined(left: Table, right: Table, prefix: string, p: Pair, row: Row)
    requires ValidTable(left) && ValidTable(right)
  {
    match p
    case Matched(li, ri) =>
      && li < left.numRows && ri < right.numRows
      && Merges(RowAt(left, li), RowAt(right, ri), left.cols.Keys, prefix, row)
    case Unmatched(li) => li < left.numRows && row == RowAt(left, li)
  }

  ghost predicate AreJoined(left: Table, right: Table, prefix: string, pairs: seq<Pair>, rows: seq<Row>)
    requires ValidTable(left) && ValidTable(right)
  {
    |rows| == |pairs| && forall i :: 0 <= i < |pairs| ==> IsJoined(left, right, prefix, pairs[i], rows[i])
  }

  // The answer, when there is one: the nested loop's rows in the nested loop's order.
  ghost predicate IsJoin(left: Table, right: Table, opts: JoinOptions, rows: seq<Row>)
    requires ValidTable(left) && ValidTable(right)
    requires opts.leftKey in left.cols && opts.rightKey in right.cols
  {
    AreJoined(left, right, PrefixOf(opts),
              NestedLoop(left.cols[opts.leftKey].cells, right.cols[opts.rightKey].cells, opts.joinType == Left), rows)
  }

  ghost predicate JoinFails(left: Table, right: Table, opts: JoinOptions, e: JoinError) {
    if opts.leftKey == "" || opts.rightKey == "" then e == MissingKeys
    else if opts.leftKey !in left.cols then e == UnknownColumn(opts.leftKey)
    else if opts.rightKey !in right.cols then e == UnknownColumn(opts.rightKey)
    else
      && e == Unhashable
      && !(AllHashable(left.cols[opts.leftKey].cells) && AllHashable(right.cols[opts.rightKey].cells))
  }

  ghost predicate AllHashable(cells: seq<Cell>) {
    forall c :: c in cells ==> Hashable(c)
  }

  // The hash index: a key's positions in ascending order, keys without any left out.
  ghost predicate IsIndex(index: map<Cell, seq<nat>>, cells: seq<Cell>) {
    && (forall c :: c in index <==> c in cells)
    && forall c :: c in index ==> index[c] == PositionsOf(c, cells)
  }

  function WithPosition(index: map<Cell, seq<nat>>, c: Cell, i: nat): map<Cell, seq<nat>> {
    index[c := (if c in index then index[c] else []) + [i]]
  }

  lemma IndexStep(index: map<Cell, seq<nat>>, cells: seq<Cell>, c: Cell)
    requires IsIndex(index, cells)
    ensures IsIndex(WithPosition(index, c, |cells|), cells + [c])
  {
    var more := cells + [c];
    assert more[..|cells|] == cells;
    if c !in cells {
      NoPositions(c, cells);
    }
  }

  lemma {:induction false} NoPositions(c: Cell, cells: seq<Cell>)
    requires c !in cells
    ensures PositionsOf(c, cells) == []
  {
    if cells != [] {
      NoPositions(c, cells[..|cells| - 1]);
    }
  }

  lemma {:induction false} PositionsAreExact(c: Cell, cells: seq<Cell>)
    ensures forall i :: i in PositionsOf(c, cells) <==> 0 <= i < |cells| && cells[i] == c
  {
    if cells != [] {
      PositionsAreExact(c, cells[..|cells| - 1]);
    }
  }

  lemma HashableStep(cells: seq<Cell>, i: nat)
    requires i < |cells|
    ensures AllHashable(cells[..i + 1]) <==> AllHashable(cells[..i]) && Hashable(cells[i])
    ensures AllHashable(cells) ==> Hashable(cells[i])
  {
    PrefixStep(cells, i);
  }

  method BuildIndex(cells: seq<Cell>) returns (r: Option<map<Cell, seq<nat>>>)
    ensures r.Some? <==> AllHashable(cells)
    ensures r.Some? ==> IsIndex(r.value, cells)
  {
    var index: map<Cell, seq<nat>> := map[];
    for i := 0 to |cells|
      invariant IsIndex(index, cells[..i])
      invariant AllHashable(cells[..i])
    {
      var key := cells[i];
      HashableStep(cells, i);
      if !Hashable(key) {
        return None;
      }
      IndexStep(index, cells[..i], key);
      PrefixStep(cells, i);
      index := WithPosition(index, key, i);
    }
    assert cells[..|cells|] == cells;
    return Some(index);
  }

  lemma JoinedConcat(left: Table, right: Table, prefix: string, p: seq<Pair>, q: seq<Pair>, a: seq<Row>, b: seq<Row>)
    requires ValidTable(left) && ValidTable(right)
    requires AreJoined(left, right, prefix, p, a) && AreJoined(left, right, prefix, q, b)
    ensures AreJoined(left, right, prefix, p + q, a + b)
  {
    forall i | 0 <= i < |p + q| ensures IsJoined(left, right, prefix, (p + q)[i], (a + b)[i]) {
      if i < |p| {
        assert IsJoined(left, right, prefix, p[i], a[i]);
      } else {
        assert IsJoined(left, right, prefix, q[i - |p|], b[i - |p|]);
      }
    }
  }

  // The body of the outer loop: appends to out the rows of one left row.
  method EmitRows(left: Frame, right: Frame, out: Frame, li: nat, matches: seq<nat>, opts: JoinOptions,
                  ghost sofar: seq<Row>)
    returns (ghost emitted: seq<Row>)
    requires left.Valid() && right.Valid() && out != left && out != right
    requires BuiltFrom(out.View(), sofar)
    requires li < left.numRows && forall ri :: ri in matches ==> ri < right.numRows
    modifies out
    ensures BuiltFrom(out.View(), sofar + emitted)
    ensures AreJoined(left.View(), right.View(), PrefixOf(opts), PairsFor(li, matches, opts.joinType == Left), emitted)
  {
    emitted := [];
    assert sofar + emitted == sofar;
    var leftRow := left.GetRow(li);
    if |matches| == 0 {
      if opts.joinType == Left {
        AppendBuilt(out, leftRow, sofar);
        emitted := [leftRow];
      }
      return;
    }
    for j := 0 to |matches|
      invariant BuiltFrom(out.View(), sofar + emitted)
      invariant |emitted| == j
      invariant forall i :: 0 <= i < j ==>
        IsJoined(left.View(), right.View(), PrefixOf(opts), Matched(li, matches[i]), emitted[i])
    {
      assert matches[j] in matches;
      var rightRow := right.GetRow(matches[j]);
      var merged := MergeRows(leftRow, rightRow, left.cols.Keys, PrefixOf(opts));
      AppendBuilt(out, merged, sofar + emitted);
      assert sofar + emitted + [merged] == sofar + (emitted + [merged]);
      emitted := emitted + [merged];
    }
  }

  ghost predicate Joinable(left: Table, right: Table, opts: JoinOptions) {
    && opts.leftKey != "" && opts.rightKey != ""
    && opts.leftKey in left.cols && opts.rightKey in right.cols
    && AllHashable(left.cols[opts.leftKey].cells) && AllHashable(right.cols[opts.rightKey].cells)
  }

  method Join(left: Frame, right: Frame, opts: JoinOptions)
    returns (r: Result<Frame, JoinError>, ghost rows: seq<Row>)
    requires left.Valid() && right.Valid()
    ensures r.Ok? <==> Joinable(left.View(), right.View(), opts)
    ensures r.Err? ==> JoinFails(left.View(), right.View(), opts, r.error)
    ensures r.Ok? ==> fresh(r.value) && BuiltFrom(r.value.View(), rows)
    ensures r.Ok? ==> IsJoin(left.View(), right.View(), opts, rows)
  {
    rows := [];
    if opts.leftKey == "" || opts.rightKey == "" {
      return Err(MissingKeys), rows;
    }
    if opts.leftKey !in left.cols {
      return Err(UnknownColumn(opts.leftKey)), rows;
    }
    if opts.rightKey !in right.cols {
      return Err(UnknownColumn(opts.rightKey)), rows;
    }
    var leftKeys, rightKeys := left.cols[opts.leftKey].cells, right.cols[opts.rightKey].cells;
    var index := BuildIndex(rightKeys);
    if index.None? {
      return Err(Unhashable), rows;
    }
    var out := new Frame();
    for li := 0 to left.numRows
      invariant fresh(out) && BuiltFrom(out.View(), rows)
      invariant AllHashable(leftKeys[..li])
      invariant AreJoined(left.View(), right.View(), PrefixOf(opts),
                          NestedLoop(leftKeys[..li], rightKeys, opts.joinType == Left), rows)
    {
      var key := leftKeys[li];
      assert leftKeys[..li + 1] == leftKeys[..li] + [key];
      assert leftKeys[..li + 1][..li] == leftKeys[..li];
      if !Hashable(key) {
        assert key in leftKeys;
        return Err(Unhashable), rows;
      }
      var matches := Lookup(index.value, key, rightKeys);
      ghost var emitted := EmitRows(left, right, out, li, matches, opts, rows);
      JoinedConcat(left.View(), right.View(), PrefixOf(opts),
                   NestedLoop(leftKeys[..li], rightKeys, opts.joinType == Left),
                   PairsFor(li, matches, opts.joinType == Left), rows, emitted);
      rows := rows + emitted;
    }
    assert leftKeys[..left.numRows] == leftKeys;
    return Ok(out), rows;
  }

  method Lookup(index: map<Cell, seq<nat>>, key: Cell, ghost cells: seq<Cell>) returns (matches: seq<nat>)
    requires IsIndex(index, cells)
    ensures matches == PositionsOf(key, cells)
    ensures forall i :: i in matches ==> i < |cells|
  {
    matches := if key in index then index[key] else [];
    if key !in index { NoPositions(key, cells); }
    PositionsAreExact(key, cells);
  }

  // ---- What the nested loop amounts to ----

  predicate PairBefore(a: Pair, b: Pair) {
    a.li < b.li || (a.li == b.li && a.Matched? && b.Matched? && a.ri < b.ri)
  }

  predicate NumbersAscend(ps: seq<nat>) {
    forall i, j :: 0 <= i < j < |ps| ==> ps[i] < ps[j]
  }

  lemma AscendSnoc(ps: seq<nat>, x: nat)
    requires NumbersAscend(ps) && forall p :: p in ps ==> p < x
    ensures NumbersAscend(ps + [x])
  {
    forall i, j | 0 <= i < j < |ps + [x]| ensures (ps + [x])[i] < (ps + [x])[j] {
      assert ps[i] in ps;
    }
  }

  lemma {:induction false} PositionsAscend(c: Cell, cells: seq<Cell>)
    ensures NumbersAscend(PositionsOf(c, cells))
  {
    if cells != [] {
      var init := cells[..|cells| - 1];
      PositionsAscend(c, init);
      PositionsAreExact(c, init);
      AscendSnoc(PositionsOf(c, init), |cells| - 1);
    }
  }

  lemma {:induction false} PositionsCount(c: Cell, cells: seq<Cell>)
    ensures |PositionsOf(c, cells)| == multiset(cells)[c]
  {
    if cells != [] {
      PositionsCount(c, cells[..|cells| - 1]);
      assert cells == cells[..|cells| - 1] + [cells[|cells| - 1]];
    }
  }

  ghost predicate PairsAscend(ps: seq<Pair>) {
    forall i, j :: 0 <= i < j < |ps| ==> PairBefore(ps[i], ps[j])
  }

  ghost predicate Meets(leftKeys: seq<Cell>, rightKeys: seq<Cell>, keep: bool, p: Pair) {
    p.li < |leftKeys| &&
    match p
    case Matched(li, ri) => ri < |rightKeys| && leftKeys[li] == rightKeys[ri]
    case Unmatched(li) => keep && leftKeys[li] !in rightKeys
  }

  // A pair is listed exactly when its keys are equal, a left row alone exactly when no
  // right key equals its own, and the list is strictly ascending: nothing twice.
  lemma {:induction false} NestedLoopIsExact(leftKeys: seq<Cell>, rightKeys: seq<Cell>, keep: bool)
    ensures forall p :: p in NestedLoop(leftKeys, rightKeys, keep) <==> Meets(leftKeys, rightKeys, keep, p)
    ensures PairsAscend(NestedLoop(leftKeys, rightKeys, keep))
  {
    if leftKeys != [] {
      var last := |leftKeys| - 1;
      var init := leftKeys[..last];
      NestedLoopIsExact(init, rightKeys, keep);
      PairsForAreExact(last, leftKeys[last], rightKeys, keep);
      var ps, qs := NestedLoop(init, rightKeys, keep), PairsFor(last, PositionsOf(leftKeys[last], rightKeys), keep);
      forall p ensures p in ps + qs <==> Meets(leftKeys, rightKeys, keep, p) {
        MeetsInitOrLast(leftKeys, rightKeys, keep, p);
      }
      PairsAscendConcat(ps, qs, last);
    }
  }

  lemma MeetsInitOrLast(leftKeys: seq<Cell>, rightKeys: seq<Cell>, keep: bool, p: Pair)
    requires leftKeys != []
    ensures var last := |leftKeys| - 1;
            var before := Meets(leftKeys[..last], rightKeys, keep, p);
            var now := MeetsKey(last, leftKeys[last], rightKeys, keep, p);
            Meets(leftKeys, rightKeys, keep, p) <==> before || now
  {
  }

  lemma PairsAscendConcat(ps: seq<Pair>, qs: seq<Pair>, li: nat)
    requires PairsAscend(ps) && PairsAscend(qs)
    requires (forall p :: p in ps ==> p.li < li) && (forall p :: p in qs ==> p.li == li)
    ensures PairsAscend(ps + qs)
  {
    forall i, j | 0 <= i < j < |ps + qs| ensures PairBefore((ps + qs)[i], (ps + qs)[j]) {
      assert i < |ps| ==> ps[i] in ps;
      assert j >= |ps| ==> qs[j - |ps|] in qs;
    }
  }

  ghost predicate MeetsKey(li: nat, key: Cell, rightKeys: seq<Cell>, keep: bool, p: Pair) {
    p.li == li &&
    match p
    case Matched(_, ri) => ri < |rightKeys| && key == rightKeys[ri]
    case Unmatched(_) => keep && key !in rightKeys
  }

  lemma PairsForAreExact(li: nat, key: Cell, rightKeys: seq<Cell>, keep: bool)
    ensures forall p :: p in PairsFor(li, PositionsOf(key, rightKeys), keep) <==> MeetsKey(li, key, rightKeys, keep, p)
    ensures PairsAscend(PairsFor(li, PositionsOf(key, rightKeys), keep))
  {
    var matches := PositionsOf(key, rightKeys);
    PositionsAscend(key, rightKeys);
    forall p ensures p in PairsFor(li, matches, keep) <==> MeetsKey(li, key, rightKeys, keep, p) {
      PairsForMembers(li, matches, keep, p);
      PositionsAreExact(key, rightKeys);
      assert |matches| > 0 ==> matches[0] in matches;
    }
  }

  lemma PairsForMembers(li: nat, matches: seq<nat>, keep: bool, p: Pair)
    ensures p in PairsFor(li, matches, keep) <==>
              p.li == li && if p.Matched? then p.ri in matches else keep && matches == []
  {
    if p.li == li && p.Matched? && p.ri in matches {
      var i :| 0 <= i < |matches| && matches[i] == p.ri;
      assert PairsFor(li, matches, keep)[i] == p;
    }
  }

  // The sum over keys of left occurrences times right occurrences.
  ghost function SumOfProducts(keys: set<Cell>, left: multiset<Cell>, right: multiset<Cell>): nat {
    if keys == {} then 0
    else
      var k :| k in keys;
      left[k] * right[k] + SumOfProducts(keys - {k}, left, right)
  }

  lemma {:induction false} TakeOut(keys: set<Cell>, left: multiset<Cell>, right: multiset<Cell>, k: Cell)
    requires k in keys
    ensures SumOfProducts(keys, left, right) == left[k] * right[k] + SumOfProducts(keys - {k}, left, right)
  {
    var pick :| pick in keys
      && SumOfProducts(keys, left, right) == left[pick] * right[pick] + SumOfProducts(keys - {pick}, left, right);
    if pick != k {
      TakeOut(keys - {pick}, left, right, k);
      TakeOut(keys - {k}, left, right, pick);
      assert keys - {pick} - {k} == keys - {k} - {pick};
    }
  }

  lemma {:induction false} SameProducts(keys: set<Cell>, a: multiset<Cell>, b: multiset<Cell>, right: multiset<Cell>)
    requires forall k :: k in keys ==> a[k] == b[k]
    ensures SumOfProducts(keys, a, right) == SumOfProducts(keys, b, right)
  {
    if keys != {} {
      var k :| k in keys;
      TakeOut(keys, a, right, k);
      TakeOut(keys, b, right, k);
      SameProducts(keys - {k}, a, b, right);
    }
  }

  lemma {:induction false} InnerJoinSize(leftKeys: seq<Cell>, rightKeys: seq<Cell>)
    ensures |NestedLoop(leftKeys, rightKeys, false)|
         == SumOfProducts(SetOf(leftKeys), multiset(leftKeys), multiset(rightKeys))
  {
    if leftKeys != [] {
      var last := |leftKeys| - 1;
      InnerJoinSize(leftKeys[..last], rightKeys);
      PositionsCount(leftKeys[last], rightKeys);
      LastKeyOut(leftKeys);
      OneMoreKey(SetOf(leftKeys[..last]), multiset(leftKeys[..last]), multiset(rightKeys), leftKeys[last]);
    }
  }

  lemma LastKeyOut(keys: seq<Cell>)
    requires keys != []
    ensures SetOf(keys) == SetOf(keys[..|keys| - 1]) + {keys[|keys| - 1]}
    ensures multiset(keys) == multiset(keys[..|keys| - 1]) + multiset{keys[|keys| - 1]}
  {
    assert keys == keys[..|keys| - 1] + [keys[|keys| - 1]];
  }

  lemma OneMoreKey(keys: set<Cell>, left: multiset<Cell>, right: multiset<Cell>, k: Cell)
    requires k !in keys ==> left[k] == 0
    ensures SumOfProducts(keys + {k}, left + multiset{k}, right) == SumOfProducts(keys, left, right) + right[k]
  {
    var more := left + multiset{k};
    var rest := keys - {k};
    assert keys + {k} - {k} == rest;
    TakeOut(keys + {k}, more, right, k);
    SameProducts(rest, left, more, right);
    OneMoreFactor(left[k], right[k]);
    if k in keys {
      assert keys + {k} == keys;
      TakeOut(keys, left, right, k);
    } else {
      assert rest == keys;
    }
  }

  lemma OneMoreFactor(a: nat, b: nat)
    ensures (a + 1) * b == a * b + b
    ensures a == 0 ==> a * b == 0
  {
  }

  function CountUnmatched(leftKeys: seq<Cell>, rightKeys: seq<Cell>): nat {
    if leftKeys == [] then 0
    else CountUnmatched(leftKeys[..|leftKeys| - 1], rightKeys) + if leftKeys[|leftKeys| - 1] in rightKeys then 0 else 1
  }

  // A left join is the inner join plus each unmatched left row once.
  lemma {:induction false} LeftJoinSize(leftKeys: seq<Cell>, rightKeys: seq<Cell>)
    ensures |NestedLoop(leftKeys, rightKeys, true)|
         == |NestedLoop(leftKeys, rightKeys, false)| + CountUnmatched(leftKeys, rightKeys)
  {
    if leftKeys != [] {
      var k := leftKeys[|leftKeys| - 1];
      LeftJoinSize(leftKeys[..|leftKeys| - 1], rightKeys);
      PositionsCount(k, rightKeys);
    }
  }

  // ---- Reading both rows back ----

  // No right column is written over a left one or over another right one.
  predicate NoClash(leftCols: set<string>, rightCols: set<string>, prefix: string) {
    && (forall k :: k in rightCols ==> OutKey(k, leftCols, prefix) !in leftCols)
    && forall k, n :: k in rightCols && n in rightCols && k != n ==>
         OutKey(k, leftCols, prefix) != OutKey(n, leftCols, prefix)
  }

  ghost predicate ReadsBack(leftCols: set<string>, rightCols: set<string>, prefix: string) {
    forall l: Row, r: Row, l': Row, r': Row, m: Row ::
      (l.Keys == l'.Keys == leftCols && r.Keys == r'.Keys == rightCols &&
       Merges(l, r, leftCols, prefix, m) && Merges(l', r', leftCols, prefix, m)) ==> l == l' && r == r'
  }

  // How to read them back: the left columns as they are, the right ones under their
  // output names.
  lemma MergedRowReadsBack(l: Row, r: Row, prefix: string, m: Row)
    requires NoClash(l.Keys, r.Keys, prefix) && Merges(l, r, l.Keys, prefix, m)
    ensures l.Keys <= m.Keys && l == map k | k in l.Keys :: m[k]
    ensures forall k :: k in r ==> OutKey(k, l.Keys, prefix) in m && m[OutKey(k, l.Keys, prefix)] == r[k]
  {
    forall k | k in r ensures OutKey(k, l.Keys, prefix) in m && m[OutKey(k, l.Keys, prefix)] == r[k] {
      var out := OutKey(k, l.Keys, prefix);
      assert Covered(r.Keys, l.Keys, prefix, out);
      assert ComesFrom(r, r.Keys, l.Keys, prefix, out, m[out]);
    }
  }

  function AllNull(cols: set<string>): Row {
    map n | n in cols :: Null
  }

  // Nothing is lost in a merge exactly when the output names do not clash.
  lemma NothingLostIffNoClash(leftCols: set<string>, rightCols: set<string>, prefix: string)
    ensures ReadsBack(leftCols, rightCols, prefix) <==> NoClash(leftCols, rightCols, prefix)
  {
    if NoClash(leftCols, rightCols, prefix) {
      NoClashReadsBack(leftCols, rightCols, prefix);
    } else {
      ClashLoses(leftCols, rightCols, prefix);
    }
  }

  lemma NoClashReadsBack(leftCols: set<string>, rightCols: set<string>, prefix: string)
    requires NoClash(leftCols, rightCols, prefix)
    ensures ReadsBack(leftCols, rightCols, prefix)
  {
    forall l: Row, r: Row, l': Row, r': Row, m: Row |
      l.Keys == l'.Keys == leftCols && r.Keys == r'.Keys == rightCols &&
      Merges(l, r, leftCols, prefix, m) && Merges(l', r', leftCols, prefix, m)
      ensures l == l' && r == r'
    {
      MergedRowReadsBack(l, r, prefix, m);
      MergedRowReadsBack(l', r', prefix, m);
    }
  }

  lemma ClashLoses(leftCols: set<string>, rightCols: set<string>, prefix: string)
    requires !NoClash(leftCols, rightCols, prefix)
    ensures !ReadsBack(leftCols, rightCols, prefix)
  {
    var l, r := AllNull(leftCols), AllNull(rightCols);
    assert l.Keys == leftCols && r.Keys == rightCols;
    if k :| k in rightCols && OutKey(k, leftCols, prefix) in leftCols {
      assert Covered(r.Keys, l.Keys, prefix, OutKey(k, leftCols, prefix));
      OverwrittenBySameMerge(l, r, OutKey(k, leftCols, prefix), prefix);
    } else {
      var k, n :| k in rightCols && n in rightCols && k != n
        && OutKey(k, leftCols, prefix) == OutKey(n, leftCols, prefix);
      EitherMayWin(l, r, k, n, prefix);
    }
  }

  function NullMerge(leftCols: set<string>, rightCols: set<string>, prefix: string): Row {
    AllNull(leftCols + set n | n in rightCols :: OutKey(n, leftCols, prefix))
  }

  lemma NullMergeMerges(l: Row, r: Row, leftCols: set<string>, rightCols: set<string>, prefix: string)
    requires l.Keys == leftCols && r.Keys == rightCols
    requires forall k :: k in leftCols && !Covered(rightCols, leftCols, prefix, k) ==> l[k] == Null
    requires forall k :: Covered(rightCols, leftCols, prefix, k) ==> ComesFrom(r, rightCols, leftCols, prefix, k, Null)
    ensures Merges(l, r, leftCols, prefix, NullMerge(leftCols, rightCols, prefix))
  {
  }

  lemma OverwrittenBySameMerge(l: Row, r: Row, out: string, prefix: string)
    requires l == AllNull(l.Keys) && r == AllNull(r.Keys) && out in l
    requires Covered(r.Keys, l.Keys, prefix, out)
    ensures !ReadsBack(l.Keys, r.Keys, prefix)
  {
    var l' := l[out := Bool(true)];
    assert l'.Keys == l.Keys && l[out] != l'[out];
    var m := NullMerge(l.Keys, r.Keys, prefix);
    NullComesFrom(r, l.Keys, prefix);
    NullMergeMerges(l, r, l.Keys, r.Keys, prefix);
    NullMergeMerges(l', r, l.Keys, r.Keys, prefix);
    SameMergeLoses(l, r, l', r, l.Keys, r.Keys, prefix, m);
  }

  lemma SameMergeLoses(l: Row, r: Row, l': Row, r': Row, leftCols: set<string>, rightCols: set<string>,
                       prefix: string, m: Row)
    requires l.Keys == l'.Keys == leftCols && r.Keys == r'.Keys == rightCols && (l != l' || r != r')
    requires Merges(l, r, leftCols, prefix, m) && Merges(l', r', leftCols, prefix, m)
    ensures !ReadsBack(leftCols, rightCols, prefix)
  {
  }

  lemma NullComesFrom(r: Row, leftCols: set<string>, prefix: string)
    requires r == AllNull(r.Keys)
    ensures forall k :: Covered(r.Keys, leftCols, prefix, k) ==> ComesFrom(r, r.Keys, leftCols, prefix, k, Null)
  {
    forall k | Covered(r.Keys, leftCols, prefix, k) ensures ComesFrom(r, r.Keys, leftCols, prefix, k, Null) {
      var n :| n in r.Keys && OutKey(n, leftCols, prefix) == k;
      assert r[n] == Null;
    }
  }

  lemma EitherMayWin(l: Row, r: Row, k: string, n: string, prefix: string)
    requires l == AllNull(l.Keys) && r == AllNull(r.Keys)
    requires k in r && n in r && k != n && OutKey(k, l.Keys, prefix) == OutKey(n, l.Keys, prefix)
    ensures !ReadsBack(l.Keys, r.Keys, prefix)
  {
    var r' := r[k := Bool(true)];
    NullComesFrom(r, l.Keys, prefix);
    forall x | Covered(r.Keys, l.Keys, prefix, x) ensures ComesFrom(r', r.Keys, l.Keys, prefix, x, Null) {
      var w :| w in r.Keys && OutKey(w, l.Keys, prefix) == x;
      var v := if w == k then n else w;
      assert v in r.Keys && OutKey(v, l.Keys, prefix) == x && r'[v] == Null;
    }
    assert r'.Keys == r.Keys;
    NullMergeMerges(l, r, l.Keys, r.Keys, prefix);
    NullMergeMerges(l, r', l.Keys, r.Keys, prefix);
    assert r[k] != r'[k];
    SameMergeLoses(l, r, l, r', l.Keys, r.Keys, prefix, NullMerge(l.Keys, r.Keys, prefix));
  }
}
