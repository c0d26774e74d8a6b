// Strings as Go sees them when it sorts and joins: byte order on UTF-8 is
// code-point order, so strings compare character by character.
module Text {

  predicate Less(a: string, b: string) {
    if b == "" then false
    else if a == "" then true
    else a[0] < b[0] || (a[0] == b[0] && Less(a[1..], b[1..]))
  }

  lemma {:induction false} LessIsTotal(a: string, b: string)
    ensures Less(a, b) || a == b || Less(b, a)
  {
    if a != "" && b != "" && a[0] == b[0] {
      LessIsTotal(a[1..], b[1..]);
      assert a == [a[0]] + a[1..] && b == [b[0]] + b[1..];
    }
  }

  lemma {:induction false} LessIsTransitive(a: string, b: string, c: string)
    requires Less(a, b) && Less(b, c)
    ensures Less(a, c)
  {
    if a != "" && a[0] == b[0] && b[0] == c[0] {
      LessIsTransitive(a[1..], b[1..], c[1..]);
    }
  }

  lemma {:induction false} LessIsIrreflexive(a: string)
    ensures !Less(a, a)
  {
    if a != "" { LessIsIrreflexive(a[1..]); }
  }

  // Strictly ascending, hence without repetition.
  ghost predicate Ascending(s: seq<string>) {
    forall i, j :: 0 <= i < j < |s| ==> Less(s[i], s[j])
  }

  function SetOf<T>(s: seq<T>): set<T> {
    set x | x in s
  }

  lemma PrefixStep<T>(s: seq<T>, i: nat)
    requires i < |s|
    ensures s[..i + 1] == s[..i] + [s[i]]
  {
  }

  lemma InitOfConcat<T>(a: seq<T>, b: seq<T>)
    requires b != []
    ensures (a + b)[|a + b| - 1] == b[|b| - 1]
    ensures (a + b)[..|a + b| - 1] == a + b[..|b| - 1]
  {
  }

  // One more element of a list without repetition.
  lemma NextOf<T>(s: seq<T>, i: nat)
    requires Distinct(s) && i < |s|
    ensures SetOf(s[..i + 1]) == SetOf(s[..i]) + {s[i]}
    ensures s[i] in SetOf(s) && s[i] !in SetOf(s[..i])
  {
    PrefixStep(s, i);
  }

  lemma EmptySetOf<T>(s: seq<T>)
    ensures SetOf(s) == {} <==> s == []
  {
    if s != [] {
      assert s[0] in SetOf(s);
    }
  }

  ghost predicate Distinct<T>(s: seq<T>) {
    forall i, j :: 0 <= i < j < |s| ==> s[i] != s[j]
  }

  lemma {:induction false} SubsetIsSmaller<T>(a: set<T>, b: set<T>)
    requires a <= b
    ensures |a| <= |b|
  {
    if a != {} {
      var x :| x in a;
      SubsetIsSmaller(a - {x}, b - {x});
    }
  }

  lemma {:induction false} DistinctCardinality<T>(s: seq<T>)
    requires Distinct(s)
    ensures |SetOf(s)| == |s|
  {
    if s != [] {
      DistinctCardinality(s[1..]);
      assert s == [s[0]] + s[1..];
      assert SetOf(s) == {s[0]} + SetOf(s[1..]);
      assert s[0] !in s[1..];
    }
  }

  // Inserting into an ascending list of other strings keeps it ascending.
  function Insert(x: string, s: seq<string>): (r: seq<string>)
    requires Ascending(s) && x !in s
    ensures Ascending(r) && SetOf(r) == SetOf(s) + {x} && |r| == |s| + 1
  {
    if s == [] then [x]
    else if Less(x, s[0]) then
      assert Ascending([x] + s) by {
        forall j | 0 <= j < |s| ensures Less(x, s[j]) {
          if j > 0 { LessIsTransitive(x, s[0], s[j]); }
        }
      }
      assert SetOf([x] + s) == SetOf(s) + {x};
      [x] + s
    else
      var rest := Insert(x, s[1..]);
      assert Ascending([s[0]] + rest) by {
        LessIsTotal(x, s[0]);
        forall y | y in rest ensures Less(s[0], y) {
          assert y in SetOf(rest);
        }
      }
      assert SetOf([s[0]] + rest) == SetOf(s) + {x} by {
        assert s == [s[0]] + s[1..];
      }
      [s[0]] + rest
  }

  // What sort.Strings leaves in a slice of distinct strings.
  function SortStrings(s: seq<string>): (r: seq<string>)
    requires Distinct(s)
    ensures Ascending(r) && SetOf(r) == SetOf(s) && |r| == |s|
  {
    if s == [] then []
    else
      assert s == [s[0]] + s[1..];
      var rest := SortStrings(s[1..]);
      assert s[0] !in SetOf(s[1..]);
      Insert(s[0], rest)
  }

  lemma {:induction false} AscendingIsUnique(a: seq<string>, b: seq<string>)
    requires Ascending(a) && Ascending(b) && SetOf(a) == SetOf(b)
    ensures a == b
  {
    if a == [] {
      EmptySetOf(a);
      EmptySetOf(b);
    } else {
      assert a[0] in SetOf(b);
      assert b != [] && b[0] in SetOf(a);
      assert a[0] == b[0] by {
        var i :| 0 <= i < |b| && b[i] == a[0];
        var j :| 0 <= j < |a| && a[j] == b[0];
        if i > 0 && j > 0 {
          LessIsTransitive(a[0], a[j], b[i]);
          LessIsIrreflexive(a[0]);
        }
      }
      AscendingIsDistinct(a);
      AscendingIsDistinct(b);
      assert a == [a[0]] + a[1..] && b == [b[0]] + b[1..];
      assert SetOf(a[1..]) == SetOf(a) - {a[0]};
      assert SetOf(b[1..]) == SetOf(b) - {b[0]};
      AscendingIsUnique(a[1..], b[1..]);
    }
  }

  lemma AscendingIsDistinct(a: seq<string>)
    requires Ascending(a)
    ensures Distinct(a)
  {
    forall i, j | 0 <= i < j < |a| ensures a[i] != a[j] {
      LessIsIrreflexive(a[i]);
    }
  }

  // The members of a set in ascending order.
  ghost function SortedSet(keys: set<string>): (r: seq<string>)
    ensures Ascending(r) && SetOf(r) == keys
  {
    if keys == {} then []
    else
      var x :| x in keys;
      var rest := SortedSet(keys - {x});
      assert x !in SetOf(rest);
      Insert(x, rest)
  }

  // Draining a Go map used as a set, then sorting: the iteration order is arbitrary,
  // the result is not.
  method SortedKeys(keys: set<string>) returns (r: seq<string>)
    ensures Ascending(r) && SetOf(r) == keys
  {
    var out: seq<string> := [];
    var rest := keys;
    while rest != {}
      invariant Distinct(out) && SetOf(out) == keys - rest && rest <= keys
    {
      var x :| x in rest;
      assert x !in SetOf(out);
      assert SetOf(out + [x]) == SetOf(out) + {x};
      out := out + [x];
      rest := rest - {x};
    }
    r := SortStrings(out);
  }

  // strings.Join
  function Join(parts: seq<string>, sep: string): string {
    if parts == [] then ""
    else if |parts| == 1 then parts[0]
    else parts[0] + sep + Join(parts[1..], sep)
  }
}
