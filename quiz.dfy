/**
 * `POST /quizzes`: choosing the candidate pool from `quiz_category.type`, and
 * `get_random_question`, which strikes each entry of `previous_questions` off
 * the pool with `list.remove` and then picks one of what is left.
 */
module Quiz {
  import opened Wrappers
  import opened Records

  /**
   * An entry of `previous_questions` as the client sent it: a question id, or a
   * JSON object equal to a formatted question record.
   */
  datatype Seen = SeenId(id: int) | SeenRecord(record: Question)

  /** What `quiz_category.type` holds: a string (the "click" sentinel), an object with an `id`, or anything else. */
  datatype QuizType = Label(text: string) | Selected(id: Option<int>) | Other

  /** What `get_random_question` gives back: one question, `[]`, or the ValueError of `list.remove`. */
  datatype Draw = Drawn(question: Question) | Exhausted | RemoveFailed

  /**
   * The candidate pool, or None when evaluating `.get('type')` or `.get('id')`
   * raises. A NULL id compares with `==` as `IS NULL` in SQLAlchemy, so
   * `Selected(None)` picks the questions with no category.
   */
  function QuizPool(qs: seq<Question>, kind: QuizType): (r: Option<seq<Question>>)
    ensures kind.Label? ==> r == Some(qs)
    ensures kind.Selected? ==> r.Some? && forall q :: q in r.value <==> q in qs && q.category == kind.id
    ensures kind.Other? ==> r.None?
    ensures r.Some? ==> (QuestionIdsAscending(qs) ==> QuestionIdsAscending(r.value))
  {
    match kind
    case Label(_) => Some(qs)
    case Selected(id) =>
      FilterKeepsIdOrder(qs, (q: Question) => q.category == id);
      Some(Filter(qs, (q: Question) => q.category == id))
    case Other => None
  }

  /** Python's `list.remove(x)`: drops the first element equal to `x`, and raises ValueError when there is none. */
  function RemoveFirst(s: seq<Question>, x: Question): (r: Option<seq<Question>>)
    ensures r.Some? <==> x in s
    ensures r.Some? ==> multiset(r.value) == multiset(s) - multiset{x}
    ensures r.Some? ==> |r.value| == |s| - 1
  {
    if s == [] then None
    else if s[0] == x then
      assert s == [s[0]] + s[1..];
      Some(s[1..])
    else
      match RemoveFirst(s[1..], x)
      case None => None
      case Some(rest) =>
        assert s == [s[0]] + s[1..];
        Some([s[0]] + rest)
  }

  /**
   * `questions.remove(previous_question)`. The pool holds formatted records
   * and Python's `==` never holds between a number and a dict, so an id entry
   * is never found.
   */
  function RemoveEntry(s: seq<Question>, e: Seen): (r: Option<seq<Question>>)
    ensures e.SeenId? ==> r.None?
    ensures r.Some? <==> e.SeenRecord? && e.record in s
    ensures r.Some? ==> |r.value| == |s| - 1
  {
    match e
    case SeenId(_) => None
    case SeenRecord(q) => RemoveFirst(s, q)
  }

  /** The pool after the `for` loop of `get_random_question` removes every entry in turn, or None when one raised. */
  function RemoveEach(pool: seq<Question>, previous: seq<Seen>): (r: Option<seq<Question>>)
    ensures r.Some? ==> |r.value| == |pool| - |previous|
    decreases |previous|
  {
    if previous == [] then Some(pool)
    else
      match RemoveEntry(pool, previous[0])
      case None => None
      case Some(rest) => RemoveEach(rest, previous[1..])
  }

  /** Every entry is a record (none is a bare id). */
  predicate AllRecords(previous: seq<Seen>) {
    forall i :: 0 <= i < |previous| ==> previous[i].SeenRecord?
  }

  /** The records among the entries, in order. */
  function RecordsOf(previous: seq<Seen>): (r: seq<Question>)
    ensures forall q :: q in r <==> SeenRecord(q) in previous
  {
    if previous == [] then []
    else
      assert forall e :: e in previous <==> e == previous[0] || e in previous[1..];
      match previous[0]
      case SeenRecord(q) => [q] + RecordsOf(previous[1..])
      case SeenId(_) => RecordsOf(previous[1..])
  }

  lemma AllRecordsCons(previous: seq<Seen>)
    requires previous != []
    ensures AllRecords(previous) <==> previous[0].SeenRecord? && AllRecords(previous[1..])
  {
  }

  /** Taking one `q` out of the bag: `{q} + m` fits in `b` exactly when `q` is in `b` and `m` fits in `b - {q}`. */
  lemma MultisetTakeOne(q: Question, m: multiset<Question>, b: multiset<Question>)
    ensures (multiset{q} + m <= b) <==> q in b && m <= b - multiset{q}
  {
  }

  /**
   * The loop succeeds exactly when every entry is a record and the entries,
   * counted with multiplicity, are all in the pool; it then removes one
   * occurrence per entry.
   */
  lemma {:induction false} RemoveEachSpec(pool: seq<Question>, previous: seq<Seen>)
    ensures RemoveEach(pool, previous).Some? <==>
      AllRecords(previous) && multiset(RecordsOf(previous)) <= multiset(pool)
    ensures RemoveEach(pool, previous).Some? ==>
      multiset(RemoveEach(pool, previous).value) == multiset(pool) - multiset(RecordsOf(previous))
    decreases |previous|
  {
    if previous != [] {
      var tail := previous[1..];
      AllRecordsCons(previous);
      match previous[0]
      case SeenId(_) =>
      case SeenRecord(q) =>
        assert RecordsOf(previous) == [q] + RecordsOf(tail);
        var m := multiset(RecordsOf(tail));
        assert multiset(RecordsOf(previous)) == multiset{q} + m;
        MultisetTakeOne(q, m, multiset(pool));
        match RemoveFirst(pool, q)
        case None =>
        case Some(rest) =>
          RemoveEachSpec(rest, tail);
    }
  }

  /** An entry that is a bare id always makes `list.remove` raise, whatever the pool holds. */
  lemma {:induction false} IdEntryAlwaysFails(pool: seq<Question>, previous: seq<Seen>)
    requires exists i :: 0 <= i < |previous| && previous[i].SeenId?
    ensures RemoveEach(pool, previous).None?
  {
    RemoveEachSpec(pool, previous);
  }

  /** In a list with distinct ids every question occurs once. */
  lemma {:induction false} OccursOnce(pool: seq<Question>, q: Question)
    requires QuestionIdsAscending(pool) && q in pool
    ensures multiset(pool)[q] == 1
  {
    TailAscending(pool);
    assert pool == [pool[0]] + pool[1..];
    if pool[0] == q {
      assert q !in pool[1..];
    } else {
      OccursOnce(pool[1..], q);
    }
  }

  /**
   * When the pool has no duplicate rows (ids are distinct), what is left after
   * a successful loop holds no question that was sent as a previous record.
   */
  lemma NoPreviousRecordRemains(pool: seq<Question>, previous: seq<Seen>)
    requires QuestionIdsAscending(pool)
    requires RemoveEach(pool, previous).Some?
    ensures forall q :: q in RemoveEach(pool, previous).value ==> SeenRecord(q) !in previous
  {
    RemoveEachSpec(pool, previous);
    var rest := RemoveEach(pool, previous).value;
    var recs := RecordsOf(previous);
    forall q | q in rest ensures SeenRecord(q) !in previous {
      if SeenRecord(q) in previous {
        assert q in multiset(rest) && q in multiset(recs);
        assert q in pool;
        OccursOnce(pool, q);
        assert false;
      }
    }
  }

  /** One turn of the removal loop: entry `i` is removed, then the entries after it. */
  lemma RemoveEachStep(pool: seq<Question>, previous: seq<Seen>, i: nat)
    requires i < |previous|
    ensures RemoveEach(pool, previous[i..]) ==
      match RemoveEntry(pool, previous[i])
      case None => None
      case Some(rest) => RemoveEach(rest, previous[i + 1..])
  {
    assert previous[i..][0] == previous[i];
    assert previous[i..][1..] == previous[i + 1..];
  }

  /**
   * `get_random_question(previous_questions, questions)`. `random.choice` is a
   * nondeterministic pick: only membership is promised, not uniformity. An
   * absent or empty `previous_questions` is the empty sequence.
   */
  method RandomQuestion(previous: seq<Seen>, questions: seq<Question>) returns (r: Draw)
    ensures r.RemoveFailed? <==> RemoveEach(questions, previous).None?
    ensures r.Exhausted? <==> RemoveEach(questions, previous) == Some([])
    ensures r.Drawn? ==> RemoveEach(questions, previous).Some? && r.question in RemoveEach(questions, previous).value
  {
    var pool := questions;
    for i := 0 to |previous|
      invariant RemoveEach(pool, previous[i..]) == RemoveEach(questions, previous)
    {
      RemoveEachStep(pool, previous, i);
      var next := RemoveEntry(pool, previous[i]);
      if next.None? {
        return RemoveFailed;
      }
      pool := next.value;
    }
    assert previous[|previous|..] == [];
    if pool == [] {
      return Exhausted;
    }
    var k :| 0 <= k < |pool|;
    r := Drawn(pool[k]);
  }

  /** The pool once the questions whose id was already served are dropped. */
  function UnseenPool(pool: seq<Question>, previousIds: seq<int>): (r: seq<Question>)
    ensures forall q :: q in r <==> q in pool && q.id !in previousIds
  {
    Filter(pool, (q: Question) => q.id !in previousIds)
  }

  /**
   * `get_random_question` with the exclusion done by id: it never fails, never
   * serves an id from `previousIds`, and is exhausted exactly when every pooled
   * id was served.
   */
  method RandomUnseenQuestion(previousIds: seq<int>, questions: seq<Question>) returns (r: Option<Question>)
    ensures r.None? <==> forall q :: q in questions ==> q.id in previousIds
    ensures r.Some? ==> r.value in questions && r.value.id !in previousIds
  {
    var pool := UnseenPool(questions, previousIds);
    if pool == [] {
      return None;
    }
    var k :| 0 <= k < |pool|;
    assert pool[k] in pool;
    r := Some(pool[k]);
  }

  /** Sending back the id of the one question of a pool makes the source raise, where the id-based pick is exhausted. */
  lemma ServedIdFailsAsWritten(q: Question)
    ensures RemoveEach([q], [SeenId(q.id)]).None?
    ensures UnseenPool([q], [q.id]) == []
  {
  }
}
