// Go's string helpers: trimming, searching, splitting.
module Strings {
  import opened Text

  // ---- Words, as regular expressions see them ----

  predicate IsIdentifierStart(c: char) {
    'A' <= c <= 'Z' || 'a' <= c <= 'z' || c == '_'
  }

  predicate IsWord(c: char) {
    IsIdentifierStart(c) || '0' <= c <= '9'
  }

  // \b: exactly one of the neighbouring characters is a word character.
  predicate IsBoundary(s: string, i: nat)
    requires i <= |s|
  {
    (i > 0 && IsWord(s[i - 1])) != (i < |s| && IsWord(s[i]))
  }

  predicate IsIdentifier(s: string) {
    s != "" && IsIdentifierStart(s[0]) && forall i :: 0 <= i < |s| ==> IsWord(s[i])
  }

  // ---- Trimming ----

  // unicode.IsSpace
  predicate IsSpace(c: char) {
    || c == ' ' || '\t' <= c <= '\r' || c == '\U{85}' || c == '\U{a0}' || c == '\U{1680}'
    || '\U{2000}' <= c <= '\U{200a}' || c == '\U{2028}' || c == '\U{2029}' || c == '\U{202f}'
    || c == '\U{205f}' || c == '\U{3000}'
  }

  function TrimLeft(s: string, drop: char -> bool): string {
    if s != "" && drop(s[0]) then TrimLeft(s[1..], drop) else s
  }

  function TrimRight(s: string, drop: char -> bool): string {
    if s != "" && drop(s[|s| - 1]) then TrimRight(s[..|s| - 1], drop) else s
  }

  function Trim(s: string, drop: char -> bool): string {
    TrimRight(TrimLeft(s, drop), drop)
  }

  function TrimSpace(s: string): string {
    Trim(s, IsSpace)
  }

  function TrimQuotes(s: string): string {
    Trim(s, c => c == '"')
  }

  function TrimPrefix(s: string, prefix: string): string {
    if prefix <= s then s[|prefix|..] else s
  }

  // The place of the first c, or the length.
  function IndexOf(s: string, c: char): (i: nat)
    ensures i <= |s|
  {
    if s == "" || s[0] == c then 0 else 1 + IndexOf(s[1..], c)
  }

  // strings.Split on one character.
  function Split(s: string, sep: char): (parts: seq<string>)
    ensures parts != []
  {
    if s == "" then [""]
    else
      var rest := Split(s[1..], sep);
      if s[0] == sep then [""] + rest else [[s[0]] + rest[0]] + rest[1..]
  }

  predicate FreeOf(parts: seq<string>, sep: char) {
    forall p :: p in parts ==> sep !in p
  }

  lemma {:induction false} SplitIsFree(s: string, sep: char)
    ensures FreeOf(Split(s, sep), sep)
  {
    if s != "" {
      var rest := Split(s[1..], sep);
      SplitIsFree(s[1..], sep);
      assert rest[0] in rest;
    }
  }

  lemma {:induction false} PartsAreOfText(s: string, sep: char, k: nat)
    requires k < |Split(s, sep)|
    ensures forall c :: c in Split(s, sep)[k] ==> c in s
  {
    if s != "" {
      assert s == [s[0]] + s[1..];
      if s[0] != sep || k > 0 {
        PartsAreOfText(s[1..], sep, if s[0] == sep then k - 1 else k);
      }
    }
  }

  // Text that trimming white space leaves alone.
  predicate Solid(s: string) {
    s != "" && !IsSpace(s[0]) && !IsSpace(s[|s| - 1])
  }

  lemma {:induction false} TrimLeftStops(s: string, blanks: string, drop: char -> bool)
    requires forall c :: c in blanks ==> drop(c)
    requires s == "" || !drop(s[0])
    ensures TrimLeft(blanks + s, drop) == s
  {
    if blanks == "" {
      assert blanks + s == s;
    } else {
      assert (blanks + s)[0] == blanks[0] && (blanks + s)[1..] == blanks[1..] + s;
      TrimLeftStops(s, blanks[1..], drop);
    }
  }

  lemma TrimRightOne(s: string, drop: char -> bool)
    requires s != "" && drop(s[|s| - 1])
    ensures TrimRight(s, drop) == TrimRight(s[..|s| - 1], drop)
  {
  }

  lemma {:induction false} TrimRightStops(s: string, blanks: string, drop: char -> bool)
    requires forall c :: c in blanks ==> drop(c)
    requires s == "" || !drop(s[|s| - 1])
    ensures TrimRight(s + blanks, drop) == s
  {
    if blanks == "" {
      assert s + blanks == s;
    } else {
      InitOfConcat(s, blanks);
      TrimRightOne(s + blanks, drop);
      TrimRightStops(s, blanks[..|blanks| - 1], drop);
    }
  }

  // A text with solid ends comes out of its wrapping as it was.
  lemma TrimUnwraps(s: string, before: string, behind: string, drop: char -> bool)
    requires forall c :: c in before || c in behind ==> drop(c)
    requires s != "" && !drop(s[0]) && !drop(s[|s| - 1])
    ensures Trim(before + s + behind, drop) == s
  {
    assert before + s + behind == before + (s + behind);
    assert (s + behind)[0] == s[0];
    TrimLeftStops(s + behind, before, drop);
    TrimRightStops(s, behind, drop);
  }

  lemma SolidTrims(s: string)
    requires Solid(s)
    ensures TrimSpace(s) == s && TrimSpace(" " + s) == s
  {
    assert "" + s + "" == s && " " + s + "" == " " + s;
    TrimUnwraps(s, "", "", IsSpace);
    TrimUnwraps(s, " ", "", IsSpace);
  }

  lemma {:induction false} IndexBehind(s: string, rest: string, c: char)
    requires c !in s
    ensures IndexOf(s + ([c] + rest), c) == |s|
  {
    if s == "" {
      assert s + ([c] + rest) == [c] + rest;
    } else {
      assert s == [s[0]] + s[1..];
      assert (s + ([c] + rest))[1..] == s[1..] + ([c] + rest);
      IndexBehind(s[1..], rest, c);
    }
  }

  lemma {:induction false} TrimShrinks(s: string, drop: char -> bool)
    ensures forall c :: c in TrimLeft(s, drop) ==> c in s
    ensures forall c :: c in TrimRight(s, drop) ==> c in s
    ensures var t := TrimRight(s, drop); t != "" ==> t[0] == s[0] && !drop(t[|t| - 1])
    ensures TrimLeft(s, drop) != "" ==> !drop(TrimLeft(s, drop)[0])
    decreases |s|
  {
    if s != "" {
      if drop(s[0]) { TrimShrinks(s[1..], drop); }
      if drop(s[|s| - 1]) { TrimShrinks(s[..|s| - 1], drop); }
    }
  }

  lemma {:induction false} TrimIsShorter(s: string, drop: char -> bool)
    ensures |Trim(s, drop)| <= |TrimLeft(s, drop)| <= |s|
  {
    TrimLeftIsShorter(s, drop);
    TrimRightIsShorter(TrimLeft(s, drop), drop);
  }

  lemma {:induction false} TrimLeftIsShorter(s: string, drop: char -> bool)
    ensures |TrimLeft(s, drop)| <= |s|
  {
    if s != "" && drop(s[0]) { TrimLeftIsShorter(s[1..], drop); }
  }

  lemma {:induction false} TrimRightIsShorter(s: string, drop: char -> bool)
    ensures |TrimRight(s, drop)| <= |s|
  {
    if s != "" && drop(s[|s| - 1]) { TrimRightIsShorter(s[..|s| - 1], drop); }
  }

  lemma TrimKeepsChars(s: string, drop: char -> bool)
    ensures forall c :: c in Trim(s, drop) ==> c in s
  {
    TrimShrinks(s, drop);
    TrimShrinks(TrimLeft(s, drop), drop);
  }

  // What trimming leaves has nothing to trim at either end.
  lemma TrimEnds(s: string, drop: char -> bool)
    ensures var t := Trim(s, drop); t != "" ==> !drop(t[0]) && !drop(t[|t| - 1])
  {
    TrimShrinks(s, drop);
    TrimShrinks(TrimLeft(s, drop), drop);
  }

  // A text whose first character stays is trimmed to a prefix that reaches past any
  // character that stays.
  lemma TrimKeepsTo(s: string, i: nat, drop: char -> bool) returns (m: nat)
    requires i < |s| && !drop(s[0]) && !drop(s[i])
    ensures i < m <= |s| && Trim(s, drop) == TrimRight(s, drop) == s[..m]
  {
    m := TrimRightKeepsTo(s, i, drop);
  }

  lemma {:induction false} TrimRightKeepsTo(s: string, i: nat, drop: char -> bool) returns (m: nat)
    requires i < |s| && !drop(s[i])
    ensures i < m <= |s| && TrimRight(s, drop) == s[..m]
  {
    if drop(s[|s| - 1]) {
      m := TrimRightKeepsTo(s[..|s| - 1], i, drop);
      assert s[..|s| - 1][..m] == s[..m];
    } else {
      m := |s|;
      assert s[..m] == s;
    }
  }

  lemma TrimDropsFirst(s: string, drop: char -> bool)
    requires s != "" && drop(s[0])
    ensures |Trim(s, drop)| < |s|
  {
    TrimLeftIsShorter(s[1..], drop);
    TrimRightIsShorter(TrimLeft(s, drop), drop);
  }
}
