/**
 * The page window of `GET /questions`: Python slicing of the id-ordered
 * question list at `(page - 1) * QUESTIONS_PER_PAGE`.
 */
module Pagination {

  /** QUESTIONS_PER_PAGE. */
  const QuestionsPerPage: nat := 10

  function Min(a: int, b: int): int { if a <= b then a else b }
  function Max(a: int, b: int): int { if a <= b then b else a }

  /**
   * How Python normalises one bound of `s[start:stop]` for a list of length
   * `n`: a negative bound counts from the end, and the result is clamped to
   * `0 .. n`.
   */
  function SliceBound(i: int, n: nat): (r: nat)
    ensures r <= n
    ensures 0 <= i ==> r == Min(i, n)
    ensures i < 0 ==> r == Max(0, n + i)
  {
    if i < 0 then (if i + n < 0 then 0 else i + n)
    else if i > n then n
    else i
  }

  /** Python's `s[start:stop]`: never fails, and is empty when the normalised bounds cross. */
  function PySlice<T>(s: seq<T>, start: int, stop: int): (r: seq<T>)
    ensures |r| <= |s|
    ensures SliceBound(start, |s|) < SliceBound(stop, |s|) ==> r == s[SliceBound(start, |s|)..SliceBound(stop, |s|)]
    ensures SliceBound(stop, |s|) <= SliceBound(start, |s|) ==> r == []
  {
    var a, b := SliceBound(start, |s|), SliceBound(stop, |s|);
    if a < b then s[a..b] else []
  }

  /** The questions `get_questions` shows on page `page` of the list `s`. */
  function PageWindow<T>(s: seq<T>, page: int): (r: seq<T>)
    ensures |r| <= QuestionsPerPage
    // pages from 1 on: the 10-item window, cut short by the end of the list
    ensures page >= 1 ==> r == s[Min(|s|, (page - 1) * QuestionsPerPage)..Min(|s|, page * QuestionsPerPage)]
    ensures page >= 1 ==> |r| == Min(QuestionsPerPage, Max(0, |s| - (page - 1) * QuestionsPerPage))
    ensures page >= 1 ==> (r == [] <==> |s| <= (page - 1) * QuestionsPerPage)
    // page 0 ends its slice at index 0, so it is always empty
    ensures page == 0 ==> r == []
    // negative pages count from the end of the list
    ensures page < 0 ==> r == s[Max(0, |s| + (page - 1) * QuestionsPerPage)..Max(0, |s| + page * QuestionsPerPage)]
  {
    var start := (page - 1) * QuestionsPerPage;
    PySlice(s, start, start + QuestionsPerPage)
  }

  /** Pages 1 to `k`, concatenated. */
  function FirstPages<T>(s: seq<T>, k: nat): seq<T>
  {
    if k == 0 then [] else FirstPages(s, k - 1) + PageWindow(s, k)
  }

  /**
   * Pages 1 to `k` together are exactly the first `10 * k` questions: the
   * pages neither overlap nor skip a question.
   */
  lemma {:induction false} FirstPagesArePrefix<T>(s: seq<T>, k: nat)
    ensures FirstPages(s, k) == s[..Min(|s|, k * QuestionsPerPage)]
  {
    if k > 0 {
      FirstPagesArePrefix(s, k - 1);
      var a := Min(|s|, (k - 1) * QuestionsPerPage);
      var b := Min(|s|, k * QuestionsPerPage);
      assert s[..a] + s[a..b] == s[..b];
    }
  }

  /** Every question is on some page from 1 on; the pages after the last non-empty one are empty. */
  lemma PagesCoverList<T>(s: seq<T>)
    ensures var last := (|s| + QuestionsPerPage - 1) / QuestionsPerPage;
            FirstPages(s, last) == s && forall p :: p > last ==> PageWindow(s, p) == []
  {
    var last := (|s| + QuestionsPerPage - 1) / QuestionsPerPage;
    FirstPagesArePrefix(s, last);
    assert Min(|s|, last * QuestionsPerPage) == |s|;
  }

  /** With 25 questions, page -1 is not empty: it shows questions 5 to 14. */
  lemma NegativePageShowsMiddle<T>(s: seq<T>)
    requires |s| == 25
    ensures PageWindow(s, -1) == s[5..15]
  {
  }
}
