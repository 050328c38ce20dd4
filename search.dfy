/**
 * The search branch of `POST /questions`: the question text is matched with
 * `ILIKE '%<term>%'`, a case-insensitive SQL LIKE in which `%` stands for any
 * run of characters and `_` for any single character.
 */
module Search {
  import opened Wrappers
  import opened Records

  /** ASCII case folding, as `lower()` applies it to both sides of ILIKE. */
  function Lower(c: char): char {
    if 'A' <= c <= 'Z' then (c as int - 'A' as int + 'a' as int) as char else c
  }

  function LowerAll(s: string): (r: string)
    ensures |r| == |s|
    ensures forall i :: 0 <= i < |s| ==> r[i] == Lower(s[i])
  {
    if s == [] then [] else [Lower(s[0])] + LowerAll(s[1..])
  }

  /** SQL LIKE without an escape character: does `text` match `pattern`? */
  predicate Like(pattern: string, text: string)
    ensures NoWildcards(pattern) ==> (Like(pattern, text) <==> pattern == text)
    decreases |pattern| + |text|
  {
    assert NoWildcards(pattern) && pattern != [] ==> NoWildcards(pattern[1..]);
    assert pattern != [] && text != [] ==> pattern == [pattern[0]] + pattern[1..] && text == [text[0]] + text[1..];
    if pattern == [] then text == []
    else if pattern[0] == '%' then Like(pattern[1..], text) || (text != [] && Like(pattern, text[1..]))
    else text != [] && (pattern[0] == '_' || pattern[0] == text[0]) && Like(pattern[1..], text[1..])
  }

  /** `text ILIKE pattern`. */
  predicate ILike(text: string, pattern: string)
    ensures NoWildcards(pattern) ==> (ILike(text, pattern) <==> LowerAll(text) == LowerAll(pattern))
  {
    assert NoWildcards(pattern) ==> NoWildcards(LowerAll(pattern));
    Like(LowerAll(pattern), LowerAll(text))
  }

  /** `'%{}%'.format(search)`. */
  function SearchPattern(term: string): (r: string)
    ensures |r| == |term| + 2 && r[0] == '%' && r[|r| - 1] == '%' && r[1..|r| - 1] == term
  {
    "%" + term + "%"
  }

  /** A question the search returns: its text is not NULL and matches the pattern. */
  predicate Matches(q: Question, term: string)
    ensures q.question.None? ==> !Matches(q, term)
  {
    q.question.Some? && ILike(q.question.value, SearchPattern(term))
  }

  /** The questions of the id-ordered list `qs` whose text matches `term`, in id order. */
  function SearchQuestions(qs: seq<Question>, term: string): (r: seq<Question>)
    ensures forall q :: q in r <==> q in qs && Matches(q, term)
    ensures QuestionIdsAscending(qs) ==> QuestionIdsAscending(r)
  {
    FilterKeepsIdOrder(qs, (q: Question) => Matches(q, term));
    Filter(qs, (q: Question) => Matches(q, term))
  }

  /** Terms with no wildcard character: for them the search is a plain substring test. */
  predicate NoWildcards(w: string) {
    forall i :: 0 <= i < |w| ==> w[i] != '%' && w[i] != '_'
  }

  predicate IsPrefix(w: string, t: string) {
    |w| <= |t| && t[..|w|] == w
  }

  /** `w` occurs in `t` at some position. */
  predicate Contains(t: string, w: string) {
    exists k :: 0 <= k <= |t| && IsPrefix(w, t[k..])
  }

  /** A lone `%` matches every text. */
  lemma {:induction false} PercentMatchesAll(t: string)
    ensures Like("%", t)
  {
    if t != [] {
      PercentMatchesAll(t[1..]);
    }
  }

  /** A literal followed by `%` matches exactly the texts that start with the literal. */
  lemma {:induction false} LiteralThenPercent(w: string, t: string)
    requires NoWildcards(w)
    ensures Like(w + "%", t) <==> IsPrefix(w, t)
  {
    if w == [] {
      assert w + "%" == "%";
      PercentMatchesAll(t);
    } else {
      assert (w + "%")[1..] == w[1..] + "%";
      if t != [] {
        LiteralThenPercent(w[1..], t[1..]);
        if IsPrefix(w, t) {
          assert t[1..][..|w| - 1] == t[..|w|][1..];
        }
        if IsPrefix(w[1..], t[1..]) && w[0] == t[0] {
          assert t[..|w|] == [t[0]] + t[1..][..|w| - 1];
        }
      }
    }
  }

  /** `%w%` matches exactly the texts that contain the literal `w`. */
  lemma {:induction false} SurroundedLiteral(w: string, t: string)
    requires NoWildcards(w)
    ensures Like("%" + w + "%", t) <==> Contains(t, w)
    decreases |t|
  {
    var p := "%" + w + "%";
    assert p[1..] == w + "%";
    LiteralThenPercent(w, t);
    assert t[0..] == t;
    if t == [] {
      if Contains(t, w) {
        var k :| 0 <= k <= |t| && IsPrefix(w, t[k..]);
        assert k == 0;
      }
    } else {
      SurroundedLiteral(w, t[1..]);
      if Like(p, t[1..]) {
        var k :| 0 <= k <= |t[1..]| && IsPrefix(w, t[1..][k..]);
        assert t[1..][k..] == t[k + 1..];
      }
      if Contains(t, w) && !IsPrefix(w, t) {
        var k :| 0 <= k <= |t| && IsPrefix(w, t[k..]);
        assert k != 0;
        assert t[1..][k - 1..] == t[k..];
      }
    }
  }

  lemma LowerAllAppend(a: string, b: string)
    ensures LowerAll(a + b) == LowerAll(a) + LowerAll(b)
  {
  }

  /**
   * For a term without `%` or `_`, the search returns exactly the questions
   * whose text contains the term, ignoring ASCII case.
   */
  lemma SearchIsCaseInsensitiveSubstring(qs: seq<Question>, term: string)
    requires NoWildcards(term)
    ensures forall q :: q in SearchQuestions(qs, term) <==>
      q in qs && q.question.Some? && Contains(LowerAll(q.question.value), LowerAll(term))
  {
    var w := LowerAll(term);
    LowerAllAppend("%", term);
    LowerAllAppend("%" + term, "%");
    assert LowerAll(SearchPattern(term)) == "%" + w + "%";
    forall q: Question | q.question.Some?
      ensures Matches(q, term) <==> Contains(LowerAll(q.question.value), w)
    {
      SurroundedLiteral(w, LowerAll(q.question.value));
    }
  }

  /** A question whose text contains "title" in any case, such as "Title", is found by searching "title". */
  lemma TitleFoundByLowerCase(q: Question)
    requires q.question.Some? && Contains(LowerAll(q.question.value), "title")
    ensures Matches(q, "title")
  {
    SearchIsCaseInsensitiveSubstring([q], "title");
    assert LowerAll("title") == "title";
  }

  /** The `_` of a search term is a wildcard: searching "_" finds every question with a non-empty text. */
  lemma UnderscoreMatchesAnyCharacter(q: Question)
    requires q.question.Some? && q.question.value != []
    ensures Matches(q, "_")
  {
    var t := LowerAll(q.question.value);
    assert LowerAll(SearchPattern("_")) == "%_%";
    assert Like("%_%", t) by {
      assert "%_%"[1..] == "_%";
      assert "_%"[1..] == "%";
      PercentMatchesAll(t[1..]);
      assert Like("_%", t);
    }
  }
}
