/**
 Literal search through SQL LIKE: user text is escaped in three global replacements, wrapped in `%`, and matched with
 ESCAPE '\\'. SQLite folds the case of ASCII letters only.
 */
module LikeEscaping {
  import opened Text

  /** JavaScript's s.replace(/c/g, r). */
  function ReplaceAll(s: string, c: char, r: string): string {
    if s == "" then "" else (if s[0] == c then r else [s[0]]) + ReplaceAll(s[1..], c, r)
  }

  function EscapeLike(s: string): string {
    ReplaceAll(ReplaceAll(ReplaceAll(s, '\\', "\\\\"), '%', "\\%"), '_', "\\_")
  }

  predicate Special(c: char) { c == '\\' || c == '%' || c == '_' }

  function EscapeChar(c: char): string {
    if Special(c) then ['\\', c] else [c]
  }

  /** One pass, character by character. */
  function EscapeOnce(s: string): string {
    if s == "" then "" else EscapeChar(s[0]) + EscapeOnce(s[1..])
  }

  lemma {:induction false} ReplaceAllAppend(s: string, t: string, c: char, r: string)
    ensures ReplaceAll(s + t, c, r) == ReplaceAll(s, c, r) + ReplaceAll(t, c, r)
    decreases |s|
  {
    if s == "" {
      assert s + t == t;
    } else {
      assert (s + t)[1..] == s[1..] + t;
      ReplaceAllAppend(s[1..], t, c, r);
      assert ReplaceAll(s + t, c, r)
          == (if s[0] == c then r else [s[0]]) + (ReplaceAll(s[1..], c, r) + ReplaceAll(t, c, r));
    }
  }

  lemma ReplaceAllTwo(a: char, b: char, c: char, r: string)
    ensures ReplaceAll([a], c, r) == if a == c then r else [a]
    ensures ReplaceAll([a, b], c, r) == (if a == c then r else [a]) + (if b == c then r else [b])
  {
    assert [a][1..] == "" && [a, b][1..] == [b];
    assert (if a == c then r else [a]) + "" == if a == c then r else [a];
    assert (if b == c then r else [b]) + "" == if b == c then r else [b];
    assert ReplaceAll([b], c, r) == if b == c then r else [b];
  }

  lemma EscapeOneChar(c: char)
    ensures EscapeLike([c]) == EscapeChar(c)
  {
    ReplaceAllTwo(c, c, '\\', "\\\\");
    ReplaceAllTwo(c, c, '%', "\\%");
    ReplaceAllTwo(c, c, '_', "\\_");
    ReplaceAllTwo('\\', '\\', '%', "\\%");
    ReplaceAllTwo('\\', '\\', '_', "\\_");
    ReplaceAllTwo('\\', '%', '_', "\\_");
    assert "\\\\" == ['\\', '\\'] && "\\%" == ['\\', '%'] && "\\_" == ['\\', '_'];
    assert ['\\'] + ['\\'] == "\\\\" && ['\\'] + ['%'] == "\\%";
  }

  /** The three passes escape each character once: later passes do not touch what earlier ones inserted. */
  lemma {:induction false} ThreePassesAreOne(s: string)
    ensures EscapeLike(s) == EscapeOnce(s)
  {
    if s != "" {
      var a, b := [s[0]], s[1..];
      assert s == a + b;
      ReplaceAllAppend(a, b, '\\', "\\\\");
      var a1, b1 := ReplaceAll(a, '\\', "\\\\"), ReplaceAll(b, '\\', "\\\\");
      ReplaceAllAppend(a1, b1, '%', "\\%");
      ReplaceAllAppend(ReplaceAll(a1, '%', "\\%"), ReplaceAll(b1, '%', "\\%"), '_', "\\_");
      assert EscapeLike(s) == EscapeLike(a) + EscapeLike(b);
      EscapeOneChar(s[0]);
      ThreePassesAreOne(b);
    }
  }

  // ---- LIKE ----

  /** SQLite's pattern language with '\\' as the escape character; a pattern ending in a lone escape matches nothing. */
  predicate Like(p: string, s: string)
    decreases |p| + |s|
  {
    if p == "" then s == ""
    else if p[0] == '\\' then |p| >= 2 && s != "" && Lower(p[1]) == Lower(s[0]) && Like(p[2..], s[1..])
    else if p[0] == '%' then Like(p[1..], s) || (s != "" && Like(p, s[1..]))
    else if p[0] == '_' then s != "" && Like(p[1..], s[1..])
    else s != "" && Lower(p[0]) == Lower(s[0]) && Like(p[1..], s[1..])
  }

  /** Equal up to the case of ASCII letters. */
  predicate SameLowered(a: string, b: string) {
    |a| == |b| && forall i :: 0 <= i < |a| ==> Lower(a[i]) == Lower(b[i])
  }

  /** `q` occurs in `s` at position `i`, up to case. */
  predicate OccursAt(s: string, q: string, i: nat) {
    i + |q| <= |s| && SameLowered(s[i..i + |q|], q)
  }

  lemma {:induction false} PercentMatchesAll(s: string)
    ensures Like("%", s)
  {
    if s == "" {
      assert "%"[1..] == "";
    } else {
      PercentMatchesAll(s[1..]);
    }
  }

  /** Escaped text, then `%`, matches exactly the strings that start with that text. */
  lemma {:induction false} EscapedMatchesPrefix(q: string, s: string)
    ensures Like(EscapeOnce(q) + "%", s) <==> OccursAt(s, q, 0)
    decreases |q|
  {
    if q == "" {
      assert EscapeOnce(q) + "%" == "%";
      PercentMatchesAll(s);
    } else {
      var rest := EscapeOnce(q[1..]) + "%";
      var p := EscapeOnce(q) + "%";
      assert p == EscapeChar(q[0]) + rest;
      if Special(q[0]) {
        assert p[0] == '\\' && p[1] == q[0] && p[2..] == rest;
      } else {
        assert p[0] == q[0] && p[1..] == rest;
      }
      if s != "" {
        EscapedMatchesPrefix(q[1..], s[1..]);
        if |q| <= |s| {
          assert s[1..][0..|q| - 1] == s[1..|q|];
          assert forall i :: 0 <= i < |q| - 1 ==> s[1..|q|][i] == s[0..|q|][i + 1] && q[1..][i] == q[i + 1];
          assert SameLowered(s[0..|q|], q) <==> Lower(s[0]) == Lower(q[0]) && SameLowered(s[1..|q|], q[1..]) by {
            if Lower(s[0]) == Lower(q[0]) && SameLowered(s[1..|q|], q[1..]) {
              forall i | 0 <= i < |q| ensures Lower(s[0..|q|][i]) == Lower(q[i]) {
                if i > 0 { assert Lower(s[1..|q|][i - 1]) == Lower(q[1..][i - 1]); }
              }
            }
          }
        }
      }
    }
  }

  /** The search is literal: `%` + escaped text + `%` matches exactly the strings in which the text occurs, up to the
      case of ASCII letters. */
  lemma {:induction false} EscapedSearchIsLiteral(q: string, s: string)
    ensures Like("%" + EscapeLike(q) + "%", s) <==> exists i: nat :: OccursAt(s, q, i)
    decreases |s|
  {
    ThreePassesAreOne(q);
    var p, rest := "%" + EscapeLike(q) + "%", EscapeOnce(q) + "%";
    assert p[0] == '%' && p[1..] == rest;
    EscapedMatchesPrefix(q, s);
    if s != "" {
      EscapedSearchIsLiteral(q, s[1..]);
      forall i: nat | i + 1 + |q| <= |s| ensures OccursAt(s[1..], q, i) <==> OccursAt(s, q, i + 1) {
        assert s[1..][i..i + |q|] == s[i + 1..i + 1 + |q|];
      }
      if j: nat :| OccursAt(s[1..], q, j) { assert OccursAt(s, q, j + 1); }
      if j: nat :| OccursAt(s, q, j) && j > 0 { assert OccursAt(s[1..], q, j - 1); }
    }
  }

  /** Without escaping the search is not literal: a lone `_` matches any string that is not empty. */
  lemma UnescapedSearchIsNot()
    ensures Like("%" + "_" + "%", "a") && !exists i: nat :: OccursAt("a", "_", i)
  {
    var p := "%" + "_" + "%";
    assert p[1..] == "_%" && "_%"[1..] == "%" && "a"[1..] == "";
    PercentMatchesAll("");
    assert Like("_%", "a");
    forall i: nat ensures !OccursAt("a", "_", i) {
      if i == 0 { assert "a"[0..1] == "a" && Lower("a"[0]) == 'a' && Lower("_"[0]) == '_'; }
    }
  }

  // ---- The row filter ----

  datatype Domain = Domain(host: string, origin: string)

  /** findAll's search condition; an empty search is no condition. */
  predicate Listed(d: Domain, q: string) {
    q == "" || Like("%" + EscapeLike(q) + "%", d.host) || Like("%" + EscapeLike(q) + "%", d.origin)
  }

  lemma SearchListsExactlyContaining(d: Domain, q: string)
    ensures Listed(d, q) <==> (exists i: nat :: OccursAt(d.host, q, i)) || (exists i: nat :: OccursAt(d.origin, q, i))
  {
    EscapedSearchIsLiteral(q, d.host);
    EscapedSearchIsLiteral(q, d.origin);
    if q == "" { assert OccursAt(d.host, q, 0); }
  }
}
