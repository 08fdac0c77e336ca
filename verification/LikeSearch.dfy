/** app/api/client_routes.py: the order search, which puts what a person typed into a LIKE pattern.

    `Like` is LIKE as section 9.7.1 of the PostgreSQL manual gives it, with the default escape
    character. The three replacements are proved to make every typed character stand for itself. */
module LikeSearch {
  import opened Strings
  import opened Wrappers

  // ---------------------------------------------------------------- the database's side

  /** Does the whole of `s` match the pattern? */
  function Like(s: string, p: string): bool
    decreases |p|, |s|
  {
    if p == [] then s == []
    else if p[0] == '%' then Like(s, p[1..]) || (s != [] && Like(s[1..], p))
    else if p[0] == '_' then s != [] && Like(s[1..], p[1..])
    else if p[0] == '\\' then |p| > 1 && s != [] && s[0] == p[1] && Like(s[1..], p[2..])
    else s != [] && s[0] == p[0] && Like(s[1..], p[1..])
  }

  function Map(fold: char -> char, s: string): string {
    if s == [] then [] else [fold(s[0])] + Map(fold, s[1..])
  }

  /** Folding goes character by character. */
  lemma {:induction false} MapIs(fold: char -> char, s: string, i: nat)
    ensures |Map(fold, s)| == |s| && (i < |s| ==> Map(fold, s)[i] == fold(s[i]))
  {
    if s != [] {
      MapIs(fold, s[1..], if i > 0 then i - 1 else 0);
    }
  }

  predicate Meta(c: char) {
    c == '\\' || c == '%' || c == '_'
  }

  /** A case folding: it neither makes nor unmakes a metacharacter. */
  ghost predicate FoldsCase(fold: char -> char) {
    forall c :: (Meta(c) ==> fold(c) == c) && (Meta(fold(c)) ==> Meta(c))
  }

  /** ILIKE: LIKE with both sides folded. */
  function ILike(fold: char -> char, s: string, p: string): bool {
    Like(Map(fold, s), Map(fold, p))
  }

  // ---------------------------------------------------------------- the source's side

  /** `str.replace` of one character. */
  function Replace(s: string, c: char, with: string): string {
    if s == [] then [] else (if s[0] == c then with else [s[0]]) + Replace(s[1..], c, with)
  }

  /** `_escape_like`. */
  function EscapeLike(term: string): string {
    Replace(Replace(Replace(term, '\\', "\\\\"), '%', "\\%"), '_', "\\_")
  }

  function Pattern(term: string): string {
    "%" + EscapeLike(term) + "%"
  }

  /** Whether the search keeps an order whose searched columns are these; a missing one is NULL. */
  predicate Selected(fold: char -> char, q: Option<string>, columns: seq<Option<string>>) {
    q.None? || Strip(q.value) == [] ||
    exists i :: 0 <= i < |columns| && columns[i].Some? && ILike(fold, columns[i].value, Pattern(Strip(q.value)))
  }

  // ---------------------------------------------------------------- escaping

  function EscapeOne(c: char): string {
    if Meta(c) then ['\\', c] else [c]
  }

  function EscapeEach(s: string): string {
    if s == [] then [] else EscapeOne(s[0]) + EscapeEach(s[1..])
  }

  lemma {:induction false} ReplaceJoin(a: string, b: string, c: char, with: string)
    ensures Replace(a + b, c, with) == Replace(a, c, with) + Replace(b, c, with)
  {
    if a == [] {
      assert a + b == b;
    } else {
      assert (a + b)[1..] == a[1..] + b;
      ReplaceJoin(a[1..], b, c, with);
    }
  }

  lemma ReplaceOne(x: char, c: char, with: string)
    ensures Replace([x], c, with) == if x == c then with else [x]
  {
    assert [x][1..] == [];
  }

  lemma ReplaceTwo(x: char, y: char, c: char, with: string)
    ensures Replace([x, y], c, with) == (if x == c then with else [x]) + (if y == c then with else [y])
  {
    assert [x, y][1..] == [y];
    ReplaceOne(y, c, with);
  }

  /** The three replacements, one after another, escape each character once. */
  lemma {:induction false} EscapesEachOnce(term: string)
    ensures EscapeLike(term) == EscapeEach(term)
  {
    if term != [] {
      EscapesEachOnce(term[1..]);
      var c, rest := term[0], term[1..];
      var first := if c == '\\' then "\\\\" else [c];
      assert Replace(term, '\\', "\\\\") == first + Replace(rest, '\\', "\\\\");
      ReplaceJoin(first, Replace(rest, '\\', "\\\\"), '%', "\\%");
      var second := Replace(first, '%', "\\%");
      ReplaceJoin(second, Replace(Replace(rest, '\\', "\\\\"), '%', "\\%"), '_', "\\_");
      EscapesOne(c);
    }
  }

  lemma EscapesOne(c: char)
    ensures Replace(Replace(if c == '\\' then "\\\\" else [c], '%', "\\%"), '_', "\\_") == EscapeOne(c)
  {
    ReplaceTwo('\\', '\\', '%', "\\%");
    ReplaceTwo('\\', '\\', '_', "\\_");
    ReplaceOne(c, '%', "\\%");
    ReplaceOne(c, '_', "\\_");
    ReplaceTwo('\\', '%', '_', "\\_");
  }

  /** The same replacements with the backslash last. */
  function BackslashLast(term: string): string {
    Replace(Replace(Replace(term, '%', "\\%"), '_', "\\_"), '\\', "\\\\")
  }

  /** Why the backslash goes first: last, it comes to the same thing only where there is nothing else
      to escape. */
  lemma BackslashLastAgreesIff(term: string)
    ensures BackslashLast(term) == EscapeLike(term) <==> '%' !in term && '_' !in term
  {
    EscapesEachOnce(term);
    BackslashLastLength(term);
  }

  lemma {:induction false} BackslashLastLength(term: string)
    ensures |BackslashLast(term)| >= |EscapeEach(term)|
    ensures |BackslashLast(term)| == |EscapeEach(term)| <==> '%' !in term && '_' !in term
    ensures '%' !in term && '_' !in term ==> BackslashLast(term) == EscapeEach(term)
  {
    if term != [] {
      BackslashLastLength(term[1..]);
      var c, rest := term[0], term[1..];
      assert term == [c] + rest;
      var first := if c == '%' then "\\%" else [c];
      var restFirst := Replace(rest, '%', "\\%");
      assert Replace(term, '%', "\\%") == first + restFirst;
      ReplaceJoin(first, restFirst, '_', "\\_");
      var second, restSecond := Replace(first, '_', "\\_"), Replace(restFirst, '_', "\\_");
      ReplaceJoin(second, restSecond, '\\', "\\\\");
      BackslashLastOne(c);
    }
  }

  lemma BackslashLastOne(c: char)
    ensures var r := Replace(Replace(if c == '%' then "\\%" else [c], '_', "\\_"), '\\', "\\\\");
      |r| >= |EscapeOne(c)| && (|r| == |EscapeOne(c)| <==> c != '%' && c != '_') &&
      (c != '%' && c != '_' ==> r == EscapeOne(c))
  {
    ReplaceTwo('\\', '%', '_', "\\_");
    ReplaceTwo('\\', '%', '\\', "\\\\");
    ReplaceOne(c, '_', "\\_");
    ReplaceTwo('\\', '_', '\\', "\\\\");
    ReplaceOne(c, '\\', "\\\\");
  }

  // ---------------------------------------------------------------- what an escaped pattern matches

  /** An escaped term matches itself and nothing else. */
  lemma {:induction false} EscapedIsLiteral(s: string, q: string, p: string)
    ensures Like(s, EscapeEach(q) + p) <==> q <= s && Like(s[|q|..], p)
  {
    if q == [] {
      assert EscapeEach(q) + p == p && s[0..] == s;
    } else {
      var rest := EscapeEach(q[1..]) + p;
      assert EscapeEach(q) + p == EscapeOne(q[0]) + rest;
      if s != [] {
        EscapedIsLiteral(s[1..], q[1..], p);
        if q <= s {
          assert q[1..] <= s[1..] && s[1..][|q| - 1..] == s[|q|..];
        }
        if s[0] == q[0] && q[1..] <= s[1..] {
          assert q == [q[0]] + q[1..] && s == [s[0]] + s[1..];
          assert s[1..][|q| - 1..] == s[|q|..];
        }
      }
    }
  }

  lemma {:induction false} PercentMatchesAll(s: string)
    ensures Like(s, "%")
  {
    if s != [] {
      PercentMatchesAll(s[1..]);
    } else {
      assert "%"[1..] == [];
    }
  }

  /** `q` stands in `s` at `k`. */
  predicate OccursAt(s: string, q: string, k: nat) {
    k + |q| <= |s| && s[k..k + |q|] == q
  }

  predicate Contains(s: string, q: string) {
    exists k :: 0 <= k <= |s| && OccursAt(s, q, k)
  }

  lemma OccursLater(s: string, q: string, k: nat)
    requires s != []
    ensures OccursAt(s[1..], q, k) <==> OccursAt(s, q, k + 1)
  {
    if k + 1 + |q| <= |s| {
      assert s[1..][k..k + |q|] == s[k + 1..k + 1 + |q|];
    }
  }

  lemma ContainsStep(s: string, q: string)
    ensures Contains(s, q) <==> q <= s || (s != [] && Contains(s[1..], q))
  {
    assert OccursAt(s, q, 0) <==> q <= s;
    if s != [] {
      if k :| 0 <= k <= |s[1..]| && OccursAt(s[1..], q, k) {
        OccursLater(s, q, k);
      }
      if k :| 1 <= k <= |s| && OccursAt(s, q, k) {
        OccursLater(s, q, k - 1);
      }
    }
  }

  lemma {:induction false} PercentsContain(s: string, q: string)
    ensures Like(s, "%" + EscapeEach(q) + "%") <==> Contains(s, q)
  {
    var p := "%" + EscapeEach(q) + "%";
    assert p[1..] == EscapeEach(q) + "%";
    EscapedIsLiteral(s, q, "%");
    ContainsStep(s, q);
    if q <= s {
      PercentMatchesAll(s[|q|..]);
    }
    if s != [] {
      PercentsContain(s[1..], q);
    }
  }

  lemma {:induction false} FoldJoin(fold: char -> char, a: string, b: string)
    ensures Map(fold, a + b) == Map(fold, a) + Map(fold, b)
  {
    if a == [] {
      assert a + b == b;
    } else {
      assert (a + b)[1..] == a[1..] + b;
      FoldJoin(fold, a[1..], b);
    }
  }

  /** Folding and escaping commute. */
  lemma {:induction false} FoldEscaped(fold: char -> char, q: string)
    requires FoldsCase(fold)
    ensures Map(fold, EscapeEach(q)) == EscapeEach(Map(fold, q))
  {
    if q != [] {
      FoldJoin(fold, EscapeOne(q[0]), EscapeEach(q[1..]));
      FoldEscaped(fold, q[1..]);
      var c := q[0];
      assert ['\\', c][1..] == [c] && [c][1..] == [];
      assert Meta('\\') && fold('\\') == '\\';
      assert Map(fold, [c]) == [fold(c)];
      assert Map(fold, ['\\', c]) == [fold('\\')] + Map(fold, [c]);
    }
  }

  /** The pattern for a term matches a text exactly when the text contains it, case aside. */
  lemma PatternFindsTerm(fold: char -> char, s: string, term: string)
    requires FoldsCase(fold)
    ensures ILike(fold, s, Pattern(term)) <==> Contains(Map(fold, s), Map(fold, term))
  {
    EscapesEachOnce(term);
    var e := EscapeEach(term);
    FoldJoin(fold, "%" + e, "%");
    FoldJoin(fold, "%", e);
    assert "%"[1..] == [] && Meta('%') && Map(fold, "%") == "%";
    FoldEscaped(fold, term);
    PercentsContain(Map(fold, s), Map(fold, term));
  }

  /** The search box: no filter for a blank query, and otherwise the orders with a column that contains
      what was typed, blanks around it and case aside. */
  lemma SearchMeansContains(fold: char -> char, q: Option<string>, columns: seq<Option<string>>)
    requires FoldsCase(fold)
    ensures Selected(fold, q, columns) <==>
      q.None? || Strip(q.value) == [] ||
      exists i :: 0 <= i < |columns| && columns[i].Some? &&
        Contains(Map(fold, columns[i].value), Map(fold, Strip(q.value)))
  {
    if q.Some? {
      forall i | 0 <= i < |columns| && columns[i].Some?
        ensures ILike(fold, columns[i].value, Pattern(Strip(q.value)))
            <==> Contains(Map(fold, columns[i].value), Map(fold, Strip(q.value)))
      {
        PatternFindsTerm(fold, columns[i].value, Strip(q.value));
      }
    }
  }
}
