/** The share search: LIKE metacharacters in the query are escaped, and the query is wrapped in
    wildcards (internal/storage/sqlite.go). Strings hold no NUL character. */
module LikeSearch {

  function Fold(c: char): char {
    if 'A' <= c <= 'Z' then ((c as int) - ('A' as int) + ('a' as int)) as char else c
  }

  /** SQLite's LIKE ... ESCAPE '\': percent matches any run, underscore any one character, a
      backslash takes the next character literally, and letters compare without ASCII case. */
  predicate Like(p: string, s: string)
    decreases |p| + |s|
  {
    if p == [] then s == []
    else if p[0] == '%' then Like(p[1..], s) || (s != [] && Like(p, s[1..]))
    else if p[0] == '\\' then |p| > 1 && s != [] && Fold(p[1]) == Fold(s[0]) && Like(p[2..], s[1..])
    else s != [] && (p[0] == '_' || Fold(p[0]) == Fold(s[0])) && Like(p[1..], s[1..])
  }

  /** The replacer: one pass over the query, character by character. */
  function Escape(q: string): string {
    if q == [] then []
    else (if q[0] == '\\' || q[0] == '%' || q[0] == '_' then ['\\', q[0]] else [q[0]]) + Escape(q[1..])
  }

  function Pattern(q: string): string { "%" + Escape(q) + "%" }

  predicate Capital(a: char, b: char) { 'A' <= a <= 'Z' && (b as int) == (a as int) + 32 }

  /** One character, or the two cases of one ASCII letter. */
  predicate SameLetter(a: char, b: char) { a == b || Capital(a, b) || Capital(b, a) }

  lemma FoldIff(a: char, b: char)
    ensures Fold(a) == Fold(b) <==> SameLetter(a, b)
  {
  }

  predicate SameButCase(a: string, b: string) {
    |a| == |b| && forall i :: 0 <= i < |a| ==> SameLetter(a[i], b[i])
  }

  predicate OccursAt(s: string, q: string, i: int) {
    0 <= i <= |s| - |q| && SameButCase(s[i..i + |q|], q)
  }

  /** s contains q up to ASCII case. */
  ghost predicate Contains(s: string, q: string) { exists i :: OccursAt(s, q, i) }

  /** An escaped query matches exactly itself, metacharacters included, up to case. */
  lemma {:induction false} LikeEscaped(q: string, p: string, s: string)
    ensures Like(Escape(q) + p, s) <==> |q| <= |s| && SameButCase(s[..|q|], q) && Like(p, s[|q|..])
  {
    if q == [] {
      assert Escape(q) + p == p;
    } else {
      assert [q[0]][1..] == [] && Escape([]) == [];
      assert Escape(q) + p == Escape([q[0]]) + (Escape(q[1..]) + p);
      if s != [] {
        LikeEscaped(q[1..], p, s[1..]);
        if |q| <= |s| {
          assert s[1..][|q| - 1..] == s[|q|..];
          assert s[..|q|] == [s[0]] + s[1..][..|q| - 1] && q == [q[0]] + q[1..];
        }
      }
    }
  }

  lemma {:induction false} LikeAnything(s: string)
    ensures Like("%", s)
  {
    if s != [] { LikeAnything(s[1..]); }
  }

  /** Without the escapes a query of one underscore would find every name that is not empty, and one of
      one percent every name. */
  lemma UnescapedFindsAnything(s: string)
    ensures Like("%_%", s) <==> s != []
    ensures Like("%%%", s)
  {
    assert "%_%"[1..] == "_%" && "_%"[1..] == "%" && "%%%"[1..] == "%%" && "%%"[1..] == "%";
    LikeAnything(s);
    if s != [] {
      LikeAnything(s[1..]);
      assert Like("_%", s);
    } else {
      assert !Like("_%", s);
    }
    assert Like("%%", s);
  }

  /** A leading percent tries every suffix. */
  lemma {:induction false} LikeSomewhere(p: string, s: string)
    ensures Like("%" + p, s) <==> exists i :: 0 <= i <= |s| && Like(p, s[i..])
  {
    assert ("%" + p)[1..] == p;
    assert s[0..] == s;
    if s != [] {
      LikeSomewhere(p, s[1..]);
      forall i | 1 <= i <= |s| ensures s[1..][i - 1..] == s[i..] {}
      if i :| 0 <= i <= |s| - 1 && Like(p, s[1..][i..]) { assert s[1..][i..] == s[i + 1..]; }
    }
  }

  /** The search is substring search: the pattern built from q matches exactly the strings that
      contain q up to ASCII case, with percent, underscore and backslash taken literally. */
  lemma SearchIsSubstring(s: string, q: string)
    ensures Like(Pattern(q), s) <==> Contains(s, q)
  {
    assert Pattern(q) == "%" + (Escape(q) + "%");
    LikeSomewhere(Escape(q) + "%", s);
    forall i | 0 <= i <= |s|
      ensures Like(Escape(q) + "%", s[i..]) <==> OccursAt(s, q, i)
    {
      LikeEscaped(q, "%", s[i..]);
      if |q| <= |s| - i {
        assert s[i..][..|q|] == s[i..i + |q|];
        LikeAnything(s[i..][|q|..]);
      }
    }
  }

  datatype ShareRow = ShareRow(originalName: string, fileName: string, expires: int)

  /** The rows the query returns, in table order. */
  function Search(rows: seq<ShareRow>, q: string, now: int): seq<ShareRow> {
    if rows == [] then []
    else
      (if rows[0].expires > now && (Like(Pattern(q), rows[0].originalName) || Like(Pattern(q), rows[0].fileName))
       then [rows[0]] else []) + Search(rows[1..], q, now)
  }

  /** A row is found iff it has not expired and one of its names contains the query. */
  lemma {:induction false} FoundIff(rows: seq<ShareRow>, q: string, now: int, r: ShareRow)
    ensures r in Search(rows, q, now) <==>
      r in rows && r.expires > now && (Contains(r.originalName, q) || Contains(r.fileName, q))
  {
    if rows != [] {
      FoundIff(rows[1..], q, now, r);
      SearchIsSubstring(rows[0].originalName, q);
      SearchIsSubstring(rows[0].fileName, q);
    }
  }
}
