/** Keyword search: user input is escaped so that ILIKE finds it as a plain substring. */
module Ilike {

  // ----- escaping

  /** Every c replaced by r. */
  function ReplaceAll(s: string, c: char, r: string): string {
    if |s| == 0 then "" else (if s[0] == c then r else [s[0]]) + ReplaceAll(s[1..], c, r)
  }

  /** Three replacements, one after the other; the backslash goes first. */
  function EscapeILIKE(s: string): string {
    ReplaceAll(ReplaceAll(ReplaceAll(s, '\\', "\\\\"), '%', "\\%"), '_', "\\_")
  }

  predicate Special(c: char) {
    c == '\\' || c == '%' || c == '_'
  }

  function EscapeChar(c: char): string {
    if Special(c) then ['\\', c] else [c]
  }

  /** One pass, character by character. */
  function Escape(s: string): string {
    if |s| == 0 then "" else EscapeChar(s[0]) + Escape(s[1..])
  }

  lemma {:induction false} ReplaceAllAppend(a: string, b: string, c: char, r: string)
    ensures ReplaceAll(a + b, c, r) == ReplaceAll(a, c, r) + ReplaceAll(b, c, r)
  {
    if |a| == 0 {
      assert a + b == b;
    } else {
      assert (a + b)[1..] == a[1..] + b;
      ReplaceAllAppend(a[1..], b, c, r);
    }
  }

  lemma ReplaceOne(x: char, c: char, r: string)
    ensures ReplaceAll([x], c, r) == if x == c then r else [x]
  {
  }

  lemma ReplaceTwo(x: char, y: char, c: char, r: string)
    ensures ReplaceAll([x, y], c, r) == (if x == c then r else [x]) + (if y == c then r else [y])
  {
    assert [x, y] == [x] + [y];
    ReplaceAllAppend([x], [y], c, r);
    ReplaceOne(x, c, r);
    ReplaceOne(y, c, r);
  }

  lemma EscapeOneChar(c: char)
    ensures EscapeILIKE([c]) == EscapeChar(c)
  {
    ReplaceOne(c, '\\', "\\\\");
    ReplaceOne(c, '%', "\\%");
    ReplaceOne(c, '_', "\\_");
    ReplaceTwo('\\', '\\', '%', "\\%");
    ReplaceTwo('\\', '\\', '_', "\\_");
    ReplaceTwo('\\', '%', '_', "\\_");
    assert "\\\\" == ['\\', '\\'] && "\\%" == ['\\', '%'];
  }

  /** No replacement disturbs what an earlier one produced: the three passes are one. */
  lemma {:induction false} ThreePassesAreOne(s: string)
    ensures EscapeILIKE(s) == Escape(s)
  {
    if |s| > 0 {
      var c, rest := [s[0]], s[1..];
      assert s == c + rest;
      ReplaceAllAppend(c, rest, '\\', "\\\\");
      var c1, rest1 := ReplaceAll(c, '\\', "\\\\"), ReplaceAll(rest, '\\', "\\\\");
      ReplaceAllAppend(c1, rest1, '%', "\\%");
      ReplaceAllAppend(ReplaceAll(c1, '%', "\\%"), ReplaceAll(rest1, '%', "\\%"), '_', "\\_");
      EscapeOneChar(s[0]);
      ThreePassesAreOne(rest);
    }
  }

  function Unescape(p: string): string {
    if |p| == 0 then ""
    else if p[0] == '\\' && |p| >= 2 then [p[1]] + Unescape(p[2..])
    else [p[0]] + Unescape(p[1..])
  }

  lemma {:induction false} RoundTrip(s: string)
    ensures Unescape(Escape(s)) == s
  {
    if |s| > 0 {
      var p := Escape(s);
      assert p[|EscapeChar(s[0])|..] == Escape(s[1..]);
      RoundTrip(s[1..]);
    }
  }

  /** Different inputs never become the same pattern. */
  lemma EscapeInjective(a: string, b: string)
    requires EscapeILIKE(a) == EscapeILIKE(b)
    ensures a == b
  {
    ThreePassesAreOne(a);
    ThreePassesAreOne(b);
    RoundTrip(a);
    RoundTrip(b);
  }

  // ----- matching

  /** LIKE with the default escape character, up to a case folding of single characters (section
      9.7.1 of the PostgreSQL manual): a percent sign stands for any string, an underscore for any
      character, and a backslash takes the next pattern character literally. */
  predicate Like(fold: char -> char, p: string, s: string)
    decreases |p| + |s|
  {
    if |p| == 0 then |s| == 0
    else if p[0] == '%' then Like(fold, p[1..], s) || (|s| > 0 && Like(fold, p, s[1..]))
    else if p[0] == '_' then |s| > 0 && Like(fold, p[1..], s[1..])
    else if p[0] == '\\' then |p| >= 2 && |s| > 0 && fold(p[1]) == fold(s[0]) && Like(fold, p[2..], s[1..])
    else |s| > 0 && fold(p[0]) == fold(s[0]) && Like(fold, p[1..], s[1..])
  }

  /** The pattern ends with an escape character that escapes nothing: PostgreSQL raises an error. */
  predicate Dangling(p: string) {
    |p| > 0 && (if p[0] == '\\' then |p| == 1 || Dangling(p[2..]) else Dangling(p[1..]))
  }

  predicate FoldEqual(fold: char -> char, a: string, b: string) {
    |a| == |b| && forall k :: 0 <= k < |a| ==> fold(a[k]) == fold(b[k])
  }

  /** q occurs in s at position k. */
  predicate OccursAt(fold: char -> char, q: string, s: string, k: nat) {
    k + |q| <= |s| && FoldEqual(fold, q, s[k..k + |q|])
  }

  lemma {:induction false} PercentMatchesAll(fold: char -> char, s: string)
    ensures Like(fold, "%", s)
  {
    if |s| > 0 {
      PercentMatchesAll(fold, s[1..]);
    }
  }

  /** A leading percent sign finds the rest of the pattern wherever it matches ... */
  lemma {:induction false} PercentFinds(fold: char -> char, p: string, s: string, k: nat)
    requires k <= |s| && Like(fold, p, s[k..])
    ensures Like(fold, "%" + p, s)
    decreases k
  {
    assert ("%" + p)[1..] == p;
    if k == 0 {
      assert s[0..] == s;
    } else {
      assert s[k..] == s[1..][k - 1..];
      PercentFinds(fold, p, s[1..], k - 1);
    }
  }

  /** ... and only there. */
  lemma {:induction false} PercentFound(fold: char -> char, p: string, s: string) returns (k: nat)
    requires Like(fold, "%" + p, s)
    ensures k <= |s| && Like(fold, p, s[k..])
    decreases |s|
  {
    assert ("%" + p)[1..] == p;
    if Like(fold, p, s) {
      k := 0;
      assert s[0..] == s;
    } else {
      k := PercentFound(fold, p, s[1..]);
      assert s[1..][k..] == s[k + 1..];
      k := k + 1;
    }
  }

  /** One escaped character matches exactly itself. */
  lemma EscapedFirst(fold: char -> char, q: string, p: string, s: string)
    requires |q| > 0
    ensures Like(fold, Escape(q) + p, s) <==>
      |s| > 0 && fold(q[0]) == fold(s[0]) && Like(fold, Escape(q[1..]) + p, s[1..])
  {
    var pattern := Escape(q) + p;
    assert pattern[|EscapeChar(q[0])|..] == Escape(q[1..]) + p;
    assert Special(q[0]) ==> pattern[0] == '\\' && pattern[1] == q[0];
  }

  /** An escaped string matches exactly itself. */
  lemma {:induction false} EscapedIsLiteral(fold: char -> char, q: string, p: string, s: string)
    ensures Like(fold, Escape(q) + p, s) <==>
      |q| <= |s| && FoldEqual(fold, q, s[..|q|]) && Like(fold, p, s[|q|..])
    decreases |q|
  {
    if |q| == 0 {
      assert Escape(q) + p == p && s[0..] == s;
    } else {
      EscapedFirst(fold, q, p, s);
      if |s| > 0 {
        EscapedIsLiteral(fold, q[1..], p, s[1..]);
        if |q| <= |s| {
          assert s[1..][|q| - 1..] == s[|q|..];
          FoldEqualFirst(fold, q, s[..|q|]);
          assert s[..|q|][1..] == s[1..][..|q| - 1];
        }
      }
    }
  }

  lemma FoldEqualFirst(fold: char -> char, a: string, b: string)
    requires |a| == |b| > 0
    ensures FoldEqual(fold, a, b) <==> fold(a[0]) == fold(b[0]) && FoldEqual(fold, a[1..], b[1..])
  {
  }

  function SearchPattern(query: string): string {
    "%" + EscapeILIKE(query) + "%"
  }

  /** The search is exact: for every query and every text the pattern matches if and only if the
      query occurs in the text as it stands, whatever percent signs, underscores and backslashes
      either of them contains. */
  lemma SearchIsExact(fold: char -> char, query: string, text: string)
    ensures Like(fold, SearchPattern(query), text) <==> exists k: nat :: OccursAt(fold, query, text, k)
  {
    ThreePassesAreOne(query);
    var rest := Escape(query) + "%";
    assert SearchPattern(query) == "%" + rest;
    if Like(fold, SearchPattern(query), text) {
      var k := PercentFound(fold, rest, text);
      RestMatchesAt(fold, query, text, k);
    }
    if k: nat :| OccursAt(fold, query, text, k) {
      RestMatchesAt(fold, query, text, k);
      PercentFinds(fold, rest, text, k);
    }
  }

  lemma RestMatchesAt(fold: char -> char, query: string, text: string, k: nat)
    requires k <= |text|
    ensures Like(fold, Escape(query) + "%", text[k..]) <==> OccursAt(fold, query, text, k)
  {
    EscapedIsLiteral(fold, query, "%", text[k..]);
    if k + |query| <= |text| {
      PercentMatchesAll(fold, text[k..][|query|..]);
      assert text[k..][..|query|] == text[k..k + |query|];
    }
  }

  lemma {:induction false} EscapedNeverDangles(q: string, p: string)
    ensures Dangling(Escape(q) + p) == Dangling(p)
  {
    if |q| == 0 {
      assert Escape(q) + p == p;
    } else {
      assert (Escape(q) + p)[|EscapeChar(q[0])|..] == Escape(q[1..]) + p;
      EscapedNeverDangles(q[1..], p);
    }
  }

  /** No query makes the database reject the pattern. */
  lemma SearchNeverErrs(query: string)
    ensures !Dangling(SearchPattern(query))
  {
    ThreePassesAreOne(query);
    EscapedNeverDangles(query, "%");
    assert SearchPattern(query)[1..] == Escape(query) + "%";
  }

  /** Without escaping the statement is false: the query "_" would find any text that is not empty. */
  lemma UnescapedIsNot(fold: char -> char)
    ensures Like(fold, "%" + "_" + "%", "a")
    ensures fold('_') != fold('a') ==> !exists k: nat :: OccursAt(fold, "_", "a", k)
  {
    PercentMatchesAll(fold, "");
    assert ("%" + "_" + "%")[1..] == "_%" && "_%"[1..] == "%" && "a"[1..] == "";
    if k: nat :| OccursAt(fold, "_", "a", k) {
      assert k == 0 && "a"[0..1][0] == 'a';
    }
  }
}
