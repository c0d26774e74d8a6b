// What may be sent to the database: the read-only check on a query, and the query with a
// projection around it.
module SqlGuard {
  import opened Wrappers
  import opened Strings
  import opened Text

  // ---- Keywords ----

  const KEYWORDS := [
    "insert", "update", "delete", "drop", "alter", "truncate", "grant", "revoke",
    "create", "replace", "merge", "call", "exec", "execute", "vacuum", "copy"
  ]

  predicate IsCapitalOf(c: char, letter: char) {
    'a' <= letter <= 'z' && c as int == letter as int - 32
  }

  // The characters a lower-case letter of a case-insensitive pattern stands for: itself,
  // its capital, and for two of them one more letter beyond ASCII.
  predicate Folds(c: char, letter: char) {
    && 'a' <= letter <= 'z'
    && (|| c == letter || IsCapitalOf(c, letter)
        || (letter == 's' && c == '\U{17f}') || (letter == 'k' && c == '\U{212a}'))
  }

  predicate Spells(s: string, word: string) {
    |s| == |word| && forall j :: 0 <= j < |s| ==> Folds(s[j], word[j])
  }

  // A match of \bword\b at i.
  predicate MatchesAt(s: string, i: nat, word: string)
    requires i <= |s|
  {
    i + |word| <= |s| && Spells(s[i..i + |word|], word) && IsBoundary(s, i) && IsBoundary(s, i + |word|)
  }

  predicate Contains(s: string, word: string) {
    exists i :: 0 <= i <= |s| && MatchesAt(s, i, word)
  }

  predicate HasKeyword(s: string) {
    exists word :: word in KEYWORDS && Contains(s, word)
  }

  predicate IsKeyword(s: string) {
    exists word :: word in KEYWORDS && Spells(s, word)
  }

  // A character no keyword goes across.
  predicate Separates(c: char) {
    !IsWord(c) && c != '\U{17f}' && c != '\U{212a}'
  }

  lemma KeywordsAreLong()
    ensures forall word :: word in KEYWORDS ==> |word| >= 4
  {
  }

  lemma MatchInFront(a: string, c: char, b: string, i: nat, word: string)
    requires Separates(c) && i <= |a| && word != ""
    ensures MatchesAt(a + [c] + b, i, word) <==> MatchesAt(a, i, word)
  {
    var s := a + [c] + b;
    if i + |word| <= |a| {
      assert s[i..i + |word|] == a[i..i + |word|];
    } else if i + |word| <= |s| {
      assert s[i..i + |word|][|a| - i] == c;
      assert !Folds(c, word[|a| - i]);
    }
  }

  lemma MatchBehind(a: string, c: char, b: string, i: nat, word: string)
    requires Separates(c) && i <= |b|
    ensures MatchesAt(a + [c] + b, |a| + 1 + i, word) <==> MatchesAt(b, i, word)
  {
    var s := a + [c] + b;
    if i + |word| <= |b| {
      assert s[|a| + 1 + i..|a| + 1 + i + |word|] == b[i..i + |word|];
    }
  }

  lemma WordsApart(a: string, c: char, b: string, word: string)
    requires Separates(c) && word != ""
    ensures Contains(a + [c] + b, word) <==> Contains(a, word) || Contains(b, word)
  {
    var s := a + [c] + b;
    if Contains(s, word) {
      var i :| 0 <= i <= |s| && MatchesAt(s, i, word);
      if i <= |a| {
        MatchInFront(a, c, b, i, word);
      } else {
        MatchBehind(a, c, b, i - |a| - 1, word);
      }
    }
    if Contains(a, word) {
      var i :| 0 <= i <= |a| && MatchesAt(a, i, word);
      MatchInFront(a, c, b, i, word);
    }
    if Contains(b, word) {
      var i :| 0 <= i <= |b| && MatchesAt(b, i, word);
      MatchBehind(a, c, b, i, word);
    }
  }

  // Keywords are found on either side of a separator, and never across it.
  lemma KeywordsApart(a: string, c: char, b: string)
    requires Separates(c)
    ensures HasKeyword(a + [c] + b) <==> HasKeyword(a) || HasKeyword(b)
  {
    KeywordsAreLong();
    forall word | word in KEYWORDS
      ensures Contains(a + [c] + b, word) <==> Contains(a, word) || Contains(b, word)
    {
      WordsApart(a, c, b, word);
    }
  }

  // In a single word a keyword is the whole of it.
  lemma WordHasKeywordIff(s: string)
    requires forall i :: 0 <= i < |s| ==> IsWord(s[i])
    ensures HasKeyword(s) <==> IsKeyword(s)
  {
    KeywordsAreLong();
    forall word | word in KEYWORDS ensures Contains(s, word) <==> Spells(s, word) {
      WordContainsIff(s, word);
    }
  }

  lemma WordContainsIff(s: string, word: string)
    requires word != "" && forall i :: 0 <= i < |s| ==> IsWord(s[i])
    ensures Contains(s, word) <==> Spells(s, word)
  {
    if Contains(s, word) {
      var i :| 0 <= i <= |s| && MatchesAt(s, i, word);
      assert i == 0 && s[0..|word|] == s;
    }
    if Spells(s, word) {
      assert s[0..|word|] == s;
      assert MatchesAt(s, 0, word);
    }
  }

  lemma {:induction false} BlanksHaveNoKeyword(blanks: string, s: string)
    requires forall c :: c in blanks ==> Separates(c)
    ensures HasKeyword(blanks + s) <==> HasKeyword(s)
    ensures HasKeyword(s + blanks) <==> HasKeyword(s)
  {
    if blanks == "" {
      assert blanks + s == s && s + blanks == s;
    } else {
      var rest := blanks[1..];
      EmptyHasNoKeyword();
      assert blanks + s == "" + [blanks[0]] + (rest + s);
      KeywordsApart("", blanks[0], rest + s);
      assert s + blanks == s + [blanks[0]] + rest;
      KeywordsApart(s, blanks[0], rest);
      BlanksHaveNoKeyword(rest, s);
      BlanksHaveNoKeyword(rest, "");
      assert rest + "" == rest;
    }
  }

  lemma EmptyHasNoKeyword()
    ensures !HasKeyword("")
  {
    KeywordsAreLong();
  }

  // ---- The read-only check ----

  datatype Verdict = Allowed | EmptySql | MultipleStatements | NotSelect | DisallowedKeyword

  // The start of s, lowered letter by letter, is prefix.
  predicate StartsWith(s: string, prefix: string) {
    |prefix| <= |s| && forall j :: 0 <= j < |prefix| ==> LowersTo(s[j], prefix[j])
  }

  predicate LowersTo(c: char, letter: char) {
    || c == letter || IsCapitalOf(c, letter) || (letter == 'i' && c == '\U{130}') || (letter == 'k' && c == '\U{212a}')
  }

  // Without a semicolon at the end.
  function Body(s: string): string {
    if s != "" && s[|s| - 1] == ';' then s[..|s| - 1] else s
  }

  function EnsureReadOnlySQL(sql: string): Verdict {
    var trimmed := TrimSpace(sql);
    var body := Body(trimmed);
    if trimmed == "" then EmptySql
    else if ';' in body then MultipleStatements
    else if !StartsWith(body, "select") && !StartsWith(body, "with") then NotSelect
    else if HasKeyword(body) then DisallowedKeyword
    else Allowed
  }

  predicate Accepted(sql: string) {
    EnsureReadOnlySQL(sql) == Allowed
  }

  // ---- The projected query ----

  // Only plain identifiers are put into the query.
  predicate AllSafe(columns: seq<string>) {
    forall c :: c in columns ==> IsIdentifier(c)
  }

  // The columns in the order they are first named.
  function Firsts(columns: seq<string>): seq<string> {
    if columns == [] then []
    else
      var init, last := columns[..|columns| - 1], columns[|columns| - 1];
      if last in init then Firsts(init) else Firsts(init) + [last]
  }

  lemma {:induction false} FirstsAreColumns(columns: seq<string>)
    ensures forall c :: c in Firsts(columns) <==> c in columns
  {
    if columns != [] {
      FirstsAreColumns(columns[..|columns| - 1]);
      assert columns == columns[..|columns| - 1] + [columns[|columns| - 1]];
    }
  }

  lemma {:induction false} FirstsOfDistinct(columns: seq<string>)
    requires Distinct(columns)
    ensures Firsts(columns) == columns
  {
    if columns != [] {
      var init, last := columns[..|columns| - 1], columns[|columns| - 1];
      FirstsOfDistinct(init);
      assert columns == init + [last];
      assert forall i :: 0 <= i < |init| ==> init[i] == columns[i];
    }
  }

  function Wrapped(sql: string, columns: seq<string>): string {
    "SELECT " + Join(columns, ", ") + " FROM (" + sql + ") AS de_projection"
  }

  predicate Applies(sql: string, columns: seq<string>) {
    sql != "" && columns != [] && AllSafe(columns)
  }

  // What is sent: the projected query, or the query as it is where the hint is ignored.
  function Sent(sql: string, columns: seq<string>): string {
    if Applies(sql, columns) then Wrapped(sql, Firsts(columns)) else sql
  }

  method ApplyProjectionHint(sqlText: string, columns: seq<string>) returns (text: string)
    ensures text == Sent(sqlText, columns)
  {
    if sqlText == "" || |columns| == 0 {
      return sqlText;
    }
    var seen: set<string> := {};
    var safe: seq<string> := [];
    for i := 0 to |columns|
      invariant AllSafe(columns[..i]) && seen == SetOf(columns[..i]) && safe == Firsts(columns[..i])
    {
      PrefixStep(columns, i);
      if !IsIdentifier(columns[i]) {
        assert columns[i] in columns;
        return sqlText;
      }
      if columns[i] in seen {
        continue;
      }
      seen := seen + {columns[i]};
      safe := safe + [columns[i]];
    }
    assert columns[..|columns|] == columns;
    FirstsAreColumns(columns);
    assert columns[0] in safe;
    if |safe| == 0 {
      return sqlText;
    }
    return "SELECT " + Join(safe, ", ") + " FROM (" + sqlText + ") AS de_projection";
  }

  method ProjectedReadOnlySQL(sqlText: string, columns: seq<string>) returns (text: Option<string>)
    ensures text == if Accepted(Sent(sqlText, columns)) then Some(Sent(sqlText, columns)) else None
  {
    var projected := ApplyProjectionHint(sqlText, columns);
    if EnsureReadOnlySQL(projected) != Allowed {
      return None;
    }
    return Some(projected);
  }

  // ---- Which projected queries pass ----

  predicate NamesKeyword(columns: seq<string>) {
    exists c :: c in columns && IsKeyword(c)
  }

  predicate IsSpelledOtherwise(s: string) {
    |s| < 4 || |s| > 8 || s[0] == 'S' || s[0] == 'F'
  }

  predicate StartsElsewhere(word: string) {
    4 <= |word| <= 8 && word[0] != 's' && word[0] != 'f'
  }

  lemma KeywordsStartElsewhere()
    ensures forall word :: word in KEYWORDS ==> StartsElsewhere(word)
  {
  }

  lemma SpelledOtherwise(s: string, word: string)
    requires IsSpelledOtherwise(s) && StartsElsewhere(word)
    ensures !Spells(s, word)
  {
    assert |s| == |word| ==> !Folds(s[0], word[0]);
  }

  lemma NotSpelledLikeKeyword(s: string)
    requires IsSpelledOtherwise(s)
    ensures !IsKeyword(s)
  {
    KeywordsStartElsewhere();
    forall word | word in KEYWORDS ensures !Spells(s, word) {
      SpelledOtherwise(s, word);
    }
  }

  lemma FixedWordHasNoKeyword(s: string)
    requires IsSpelledOtherwise(s)
    requires forall i :: 0 <= i < |s| ==> IsWord(s[i])
    ensures !HasKeyword(s)
  {
    NotSpelledLikeKeyword(s);
    WordHasKeywordIff(s);
  }

  lemma FixedWordsHaveNoKeyword()
    ensures !HasKeyword("SELECT") && !HasKeyword("FROM") && !HasKeyword("AS") && !HasKeyword("de_projection")
  {
    FixedWordHasNoKeyword("SELECT");
    FixedWordHasNoKeyword("FROM");
    FixedWordHasNoKeyword("AS");
    FixedWordHasNoKeyword("de_projection");
  }

  lemma {:induction false} JoinHasKeywordIff(columns: seq<string>)
    requires AllSafe(columns)
    ensures HasKeyword(Join(columns, ", ")) <==> NamesKeyword(columns)
  {
    if columns == [] {
      EmptyHasNoKeyword();
    } else {
      var first, rest := columns[0], columns[1..];
      assert columns == [first] + rest;
      assert first in columns;
      WordHasKeywordIff(first);
      JoinHasKeywordIff(rest);
      if rest != [] {
        var behind := Join(rest, ", ");
        EmptyHasNoKeyword();
        assert Join(columns, ", ") == first + [','] + ("" + [' '] + behind);
        KeywordsApart(first, ',', "" + [' '] + behind);
        KeywordsApart("", ' ', behind);
      }
    }
  }

  // What stands behind the columns.
  function Behind(sql: string): string {
    "FROM" + [' '] + ("" + ['('] + (sql + [')'] + ("" + [' '] + ("AS" + [' '] + "de_projection"))))
  }

  lemma BehindHasKeywordIff(sql: string)
    ensures HasKeyword(Behind(sql)) <==> HasKeyword(sql)
  {
    FixedWordsHaveNoKeyword();
    EmptyHasNoKeyword();
    var name := "AS" + [' '] + "de_projection";
    KeywordsApart("AS", ' ', "de_projection");
    KeywordsApart("", ' ', name);
    var end := "" + [' '] + name;
    KeywordsApart(sql, ')', end);
    KeywordsApart("", '(', sql + [')'] + end);
    KeywordsApart("FROM", ' ', "" + ['('] + (sql + [')'] + end));
  }

  lemma BehindInOne(sql: string)
    ensures Behind(sql) == "FROM (" + (sql + ") AS de_projection")
  {
    assert "" + [' '] + ("AS" + [' '] + "de_projection") == " AS de_projection";
    assert sql + [')'] + " AS de_projection" == sql + ") AS de_projection";
  }

  lemma WrappedRegroups(list: string, sql: string)
    ensures "SELECT " + list + " FROM (" + sql + ") AS de_projection"
         == "SELECT" + [' '] + (list + [' '] + ("FROM (" + (sql + ") AS de_projection")))
  {
    var end := sql + ") AS de_projection";
    assert "SELECT " + list + " FROM (" + sql + ") AS de_projection" == "SELECT " + (list + (" FROM (" + end));
    assert " FROM (" + end == [' '] + ("FROM (" + end);
    assert list + ([' '] + ("FROM (" + end)) == list + [' '] + ("FROM (" + end);
  }

  lemma WrappedInParts(sql: string, columns: seq<string>)
    ensures Wrapped(sql, columns) == "SELECT" + [' '] + (Join(columns, ", ") + [' '] + Behind(sql))
  {
    var list := Join(columns, ", ");
    BehindInOne(sql);
    WrappedRegroups(list, sql);
  }

  lemma WrappedHasKeywordIff(sql: string, columns: seq<string>)
    requires AllSafe(columns)
    ensures HasKeyword(Wrapped(sql, columns)) <==> HasKeyword(sql) || NamesKeyword(columns)
  {
    var list := Join(columns, ", ");
    WrappedInParts(sql, columns);
    FixedWordsHaveNoKeyword();
    JoinHasKeywordIff(columns);
    BehindHasKeywordIff(sql);
    KeywordsApart(list, ' ', Behind(sql));
    KeywordsApart("SELECT", ' ', list + [' '] + Behind(sql));
  }

  lemma {:induction false} JoinHasNoSemicolon(columns: seq<string>)
    requires AllSafe(columns)
    ensures ';' !in Join(columns, ", ")
  {
    if columns != [] {
      assert columns == [columns[0]] + columns[1..];
      assert columns[0] in columns;
      JoinHasNoSemicolon(columns[1..]);
    }
  }

  lemma WrappedHasSemicolonIff(sql: string, columns: seq<string>)
    requires AllSafe(columns)
    ensures ';' in Wrapped(sql, columns) <==> ';' in sql
  {
    JoinHasNoSemicolon(columns);
  }

  // The verdict on a projected query.
  lemma WrappedVerdict(sql: string, columns: seq<string>)
    requires AllSafe(columns)
    ensures EnsureReadOnlySQL(Wrapped(sql, columns)) ==
            if ';' in sql then MultipleStatements
            else if HasKeyword(sql) || NamesKeyword(columns) then DisallowedKeyword
            else Allowed
  {
    var text := Wrapped(sql, columns);
    assert text[0] == 'S' && text[|text| - 1] == 'n' && StartsWith(text, "select");
    SolidTrims(text);
    WrappedHasSemicolonIff(sql, columns);
    WrappedHasKeywordIff(sql, columns);
  }

  lemma {:induction false} TrimLeftDrops(s: string, drop: char -> bool) returns (blanks: string)
    ensures s == blanks + TrimLeft(s, drop) && forall c :: c in blanks ==> drop(c)
  {
    blanks := "";
    if s != "" && drop(s[0]) {
      var rest := TrimLeftDrops(s[1..], drop);
      blanks := [s[0]] + rest;
    }
  }

  lemma {:induction false} TrimRightDrops(s: string, drop: char -> bool) returns (blanks: string)
    ensures s == TrimRight(s, drop) + blanks && forall c :: c in blanks ==> drop(c)
  {
    blanks := "";
    if s != "" && drop(s[|s| - 1]) {
      var rest := TrimRightDrops(s[..|s| - 1], drop);
      blanks := rest + [s[|s| - 1]];
    }
  }

  // Trimming white space takes no keyword and no semicolon away.
  lemma TrimmedIsSame(sql: string)
    ensures HasKeyword(TrimSpace(sql)) <==> HasKeyword(sql)
    ensures ';' in TrimSpace(sql) <==> ';' in sql
  {
    var left := TrimLeft(sql, IsSpace);
    var before := TrimLeftDrops(sql, IsSpace);
    var behind := TrimRightDrops(left, IsSpace);
    BlanksHaveNoKeyword(before, left);
    BlanksHaveNoKeyword(behind, TrimSpace(sql));
  }

  // A query that is allowed stays so under a projection exactly when it has no semicolon,
  // which could only be its last character, and no column is named like a keyword.
  lemma AllowedStaysAllowedIff(sql: string, columns: seq<string>)
    requires Accepted(sql) && AllSafe(columns)
    ensures Accepted(Wrapped(sql, columns)) <==> ';' !in sql && !NamesKeyword(columns)
  {
    WrappedVerdict(sql, columns);
    TrimmedIsSame(sql);
  }

  // So any allowed query is refused once it ends in a semicolon, though it is allowed with
  // it as well.
  lemma TrailingSemicolonIsRefused(sql: string, columns: seq<string>)
    requires Accepted(sql) && Solid(sql) && ';' !in sql && AllSafe(columns)
    ensures Accepted(sql + ";") && EnsureReadOnlySQL(Wrapped(sql + ";", columns)) == MultipleStatements
  {
    SolidTrims(sql);
    SolidTrims(sql + ";");
    assert (sql + ";")[..|sql|] == sql;
    WrappedVerdict(sql + ";", columns);
  }

  predicate IsLower(s: string) {
    s != "" && forall i :: 0 <= i < |s| ==> 'a' <= s[i] <= 'z'
  }

  lemma KeywordsAreLower()
    ensures forall word :: word in KEYWORDS ==> IsLower(word)
  {
  }

  lemma LowerIsSafe(s: string)
    requires IsLower(s)
    ensures IsIdentifier(s) && Spells(s, s)
  {
  }

  // Any keyword is a safe name for a column, and is refused as one.
  lemma KeywordColumnIsRefused(sql: string, keyword: string)
    requires Accepted(sql) && keyword in KEYWORDS
    ensures AllSafe([keyword]) && !Accepted(Wrapped(sql, [keyword]))
  {
    KeywordsAreLower();
    LowerIsSafe(keyword);
    assert keyword in [keyword] && IsKeyword(keyword);
    AllowedStaysAllowedIff(sql, [keyword]);
  }

  // And a text that is no query by itself may pass inside of one.
  lemma OnlyAllowedProjected(sql: string, columns: seq<string>)
    requires ';' !in sql && !HasKeyword(sql) && AllSafe(columns) && !NamesKeyword(columns)
    requires !StartsWith(TrimSpace(sql), "select") && !StartsWith(TrimSpace(sql), "with")
    ensures !Accepted(sql) && Accepted(Wrapped(sql, columns))
  {
    WrappedVerdict(sql, columns);
    TrimmedIsSame(sql);
  }
}
