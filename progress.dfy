/** The progress store: per-question answer counters kept in one document
    (`questions`, a record keyed by question id) and the statistics derived from it. */
module Progress {
  import opened Wrappers
  import opened Seqs
  import opened Dicts
  import opened Numeric

  datatype Answer = Correct | Wrong

  datatype QuestionRecord = QuestionRecord(
    correct: nat,
    wrong: nat,
    lastAnswer: Answer,
    lastAt: int,      // epoch milliseconds of the last answer
    topicId: string)

  datatype Stats = Stats(total: nat, answered: nat, correct: nat, wrong: nat)

  /** One element of saveAnswersBatch's argument. */
  datatype AnswerResult = AnswerResult(questionId: string, topicId: string, isCorrect: bool)

  /** Questions in the whole bank. */
  const TotalQuestions: nat := 600

  /** getTopWrongIds's default n. */
  const DefaultTopWrong: nat := 50

  /** `TOPIC_COUNTS[topicId] || 0`: how many questions each topic has in the bank. */
  function TopicCount(topicId: string): nat {
    if topicId == "t-diem-liet" then 60
    else if topicId == "t-khai-niem" then 180
    else if topicId == "t-van-hoa" then 25
    else if topicId == "t-ky-thuat" then 58
    else if topicId == "t-cau-tao" then 37
    else if topicId == "t-bien-bao" then 185
    else if topicId == "t-tinh-huong" then 115
    else 0
  }

  function AnswerOf(isCorrect: bool): Answer {
    if isCorrect then Correct else Wrong
  }

  /** The effect of one answer on the document: saveAnswer, and one turn of
      saveAnswersBatch's loop. An unseen question gets a record holding exactly this answer;
      a seen one gets exactly one counter bumped; either way the last answer, its time and
      the topic are overwritten, and every other record stays as it was. */
  function Upsert(q: Dict<QuestionRecord>, questionId: string, topicId: string,
                  isCorrect: bool, now: int): (r: Dict<QuestionRecord>)
    requires Valid(q)
    ensures Valid(r)
    ensures questionId in r.entries
    ensures var rec := r.entries[questionId];
      && rec.lastAnswer == AnswerOf(isCorrect) && rec.lastAt == now && rec.topicId == topicId
      && (questionId !in q.entries ==>
            rec.correct + rec.wrong == 1 && (rec.correct == 1 <==> isCorrect))
      && (questionId in q.entries ==>
            var e := q.entries[questionId];
            if isCorrect then rec.correct == e.correct + 1 && rec.wrong == e.wrong
            else rec.correct == e.correct && rec.wrong == e.wrong + 1)
    ensures forall id :: id != questionId ==> Get(r, id) == Get(q, id)
    ensures r.keys == if questionId in q.entries then q.keys else q.keys + [questionId]
  {
    var rec := match Get(q, questionId)
      case Some(e) =>
        QuestionRecord(if isCorrect then e.correct + 1 else e.correct,
                       if isCorrect then e.wrong else e.wrong + 1,
                       AnswerOf(isCorrect), now, topicId)
      case None =>
        QuestionRecord(if isCorrect then 1 else 0, if isCorrect then 0 else 1,
                       AnswerOf(isCorrect), now, topicId);
    Put(q, questionId, rec)
  }

  /** The answers of a batch applied one after another, in order. */
  function ApplyAll(q: Dict<QuestionRecord>, results: seq<AnswerResult>, now: int): (r: Dict<QuestionRecord>)
    requires Valid(q)
    ensures Valid(r)
    decreases |results|
  {
    if results == [] then q
    else
      var last := results[|results| - 1];
      Upsert(ApplyAll(q, results[..|results| - 1], now), last.questionId, last.topicId, last.isCorrect, now)
  }

  /** Two batches in a row have the effect of their concatenation. */
  lemma {:induction false} ApplyAllAppend(q: Dict<QuestionRecord>, a: seq<AnswerResult>,
                                          b: seq<AnswerResult>, now: int)
    requires Valid(q)
    ensures ApplyAll(q, a + b, now) == ApplyAll(ApplyAll(q, a, now), b, now)
  {
    if b == [] {
      assert a + b == a;
    } else {
      assert (a + b)[..|a + b| - 1] == a + b[..|b| - 1];
      ApplyAllAppend(q, a, b[..|b| - 1], now);
    }
  }

  /** A batch leaves the record of every question it does not mention untouched. */
  lemma {:induction false} ApplyAllFrame(q: Dict<QuestionRecord>, results: seq<AnswerResult>,
                                         now: int, id: string)
    requires Valid(q)
    requires forall i :: 0 <= i < |results| ==> results[i].questionId != id
    ensures Get(ApplyAll(q, results, now), id) == Get(q, id)
  {
    if results != [] {
      ApplyAllFrame(q, results[..|results| - 1], now, id);
    }
  }

  /** How many of the records have `a` as their last answer. */
  function CountAnswer(rs: seq<QuestionRecord>, a: Answer): (n: nat)
    ensures n <= |rs|
  {
    if rs == [] then 0
    else CountAnswer(rs[..|rs| - 1], a) + (if rs[|rs| - 1].lastAnswer == a then 1 else 0)
  }

  /** Every record was last answered either correctly or wrongly. */
  lemma {:induction false} CountAnswerSplit(rs: seq<QuestionRecord>)
    ensures CountAnswer(rs, Correct) + CountAnswer(rs, Wrong) == |rs|
  {
    if rs != [] {
      CountAnswerSplit(rs[..|rs| - 1]);
    }
  }

  /** The records filed under a topic. */
  function InTopic(rs: seq<QuestionRecord>, topicId: string): seq<QuestionRecord> {
    Filter(rs, OfTopic(topicId))
  }

  lemma InTopicSnoc(rs: seq<QuestionRecord>, r: QuestionRecord, topicId: string)
    ensures r.topicId == topicId ==> InTopic(rs + [r], topicId) == InTopic(rs, topicId) + [r]
    ensures r.topicId != topicId ==> InTopic(rs + [r], topicId) == InTopic(rs, topicId)
  {
    FilterAppend(rs, [r], OfTopic(topicId));
    FilterSingle(r, OfTopic(topicId));
    assert InTopic(rs, topicId) + [] == InTopic(rs, topicId);
  }

  function OfTopic(topicId: string): QuestionRecord -> bool {
    (r: QuestionRecord) => r.topicId == topicId
  }

  lemma CountAnswerSnoc(rs: seq<QuestionRecord>, r: QuestionRecord, a: Answer)
    ensures CountAnswer(rs + [r], a) == CountAnswer(rs, a) + (if r.lastAnswer == a then 1 else 0)
  {
    assert (rs + [r])[..|rs|] == rs;
  }

  /** Whether a question id's record was last answered wrongly. */
  function WrongIn(q: Dict<QuestionRecord>): string -> bool {
    id => id in q.entries && q.entries[id].lastAnswer == Wrong
  }

  /** getWrongQuestionIds: the "currently wrong" view, exactly the ids whose last answer was
      wrong, each once, in key order. */
  function WrongQuestionIds(q: Dict<QuestionRecord>): (ids: seq<string>)
    requires Valid(q)
    ensures forall id :: id in ids <==> id in q.entries && q.entries[id].lastAnswer == Wrong
    ensures Distinct(ids)
  {
    FilterDistinct(q.keys, WrongIn(q));
    Filter(q.keys, WrongIn(q))
  }

  /** getWrongCount: the length of the wrong list, which is also the `wrong` figure of the
      overall statistics. */
  function WrongCount(q: Dict<QuestionRecord>): (n: nat)
    requires Valid(q)
    ensures n == |WrongQuestionIds(q)|
    ensures n == CountAnswer(Values(q), Wrong)
  {
    WrongFilterCount(q, q.keys, Values(q));
    |WrongQuestionIds(q)|
  }

  /** Keys of q whose records are vs, in the same order: as many keys are currently wrong as
      records were last answered wrongly. */
  lemma {:induction false} WrongFilterCount(q: Dict<QuestionRecord>, ks: seq<string>, vs: seq<QuestionRecord>)
    requires |ks| == |vs|
    requires forall i :: 0 <= i < |ks| ==> ks[i] in q.entries && vs[i] == q.entries[ks[i]]
    ensures |Filter(ks, WrongIn(q))| == CountAnswer(vs, Wrong)
    decreases |ks|
  {
    if ks != [] {
      var n := |ks| - 1;
      WrongFilterCount(q, ks[..n], vs[..n]);
      assert ks == ks[..n] + [ks[n]];
      FilterAppend(ks[..n], [ks[n]], WrongIn(q));
      FilterSingle(ks[n], WrongIn(q));
    }
  }

  /** The historical wrong counts, which are all getTopWrongIds looks at. */
  function WrongCounts(q: Dict<QuestionRecord>): map<string, nat> {
    map id | id in q.entries :: q.entries[id].wrong
  }

  function HasWrong(w: map<string, nat>): string -> bool {
    id => id in w && w[id] > 0
  }

  /** The sort key of `(a, b) => b.wrong - a.wrong`. */
  function ByWrongDesc(w: map<string, nat>): string -> int {
    id => if id in w then -(w[id] as int) else 0
  }

  /** getTopWrongIds(n): the ids answered wrong at least once, most wrong answers first
      (ties in key order), cut to n. The result has no duplicates, holds at most n ids, is
      ordered by non-increasing wrong count, and no id left out has more wrong answers
      than one taken. */
  function TopWrongIds(q: Dict<QuestionRecord>, n: int): (ids: seq<string>)
    requires Valid(q)
    ensures n >= 0 ==> |ids| <= n
    ensures forall id :: id in ids ==> id in q.entries && q.entries[id].wrong > 0
    ensures Distinct(ids)
    ensures forall i, j :: 0 <= i < j < |ids| ==> q.entries[ids[i]].wrong >= q.entries[ids[j]].wrong
    ensures forall id, i :: id in q.entries && q.entries[id].wrong > 0 && id !in ids && 0 <= i < |ids|
                            ==> q.entries[ids[i]].wrong >= q.entries[id].wrong
    ensures var c := |Filter(q.keys, HasWrong(WrongCounts(q)))|;
            |ids| == if n >= c then c else if n >= 0 then n else if c + n > 0 then c + n else 0
  {
    var w := WrongCounts(q);
    var candidates := Filter(q.keys, HasWrong(w));
    var sorted := SortBy(candidates, ByWrongDesc(w));
    var ids := Take(sorted, n);
    TopWrongProof(q, w, candidates, sorted, ids);
    ids
  }

  lemma TopWrongProof(q: Dict<QuestionRecord>, w: map<string, nat>, candidates: seq<string>,
                      sorted: seq<string>, ids: seq<string>)
    requires Valid(q) && w == WrongCounts(q)
    requires candidates == Filter(q.keys, HasWrong(w))
    requires sorted == SortBy(candidates, ByWrongDesc(w))
    requires ids <= sorted
    ensures forall id :: id in ids ==> id in q.entries && q.entries[id].wrong > 0
    ensures Distinct(ids)
    ensures forall i, j :: 0 <= i < j < |ids| ==> q.entries[ids[i]].wrong >= q.entries[ids[j]].wrong
    ensures forall id, i :: id in q.entries && q.entries[id].wrong > 0 && id !in ids && 0 <= i < |ids|
                            ==> q.entries[ids[i]].wrong >= q.entries[id].wrong
  {
    SortByMembers(candidates, ByWrongDesc(w));
    TopWrongMembers(q, w, sorted, ids);
    FilterDistinct(q.keys, HasWrong(w));
    PermutationDistinct(candidates, sorted);
    PrefixDistinct(sorted, ids);
    TopWrongOrdered(w, sorted, ids);
    TopWrongAbove(w, candidates, sorted, ids);
  }

  lemma TopWrongMembers(q: Dict<QuestionRecord>, w: map<string, nat>, sorted: seq<string>, ids: seq<string>)
    requires w == WrongCounts(q) && ids <= sorted
    requires forall x :: x in sorted ==> HasWrong(w)(x)
    ensures forall id :: id in ids ==> id in q.entries && q.entries[id].wrong > 0
  {
    forall id | id in ids ensures id in q.entries && q.entries[id].wrong > 0 {
      var k :| 0 <= k < |ids| && ids[k] == id;
      assert sorted[k] == id;
      assert sorted[k] in sorted;
      assert HasWrong(w)(id);
      assert id in w && w[id] == q.entries[id].wrong;
    }
  }

  lemma TopWrongOrdered(w: map<string, nat>, sorted: seq<string>, ids: seq<string>)
    requires SortedBy(sorted, ByWrongDesc(w)) && ids <= sorted
    requires forall x :: x in sorted ==> x in w
    ensures forall i, j :: 0 <= i < j < |ids| ==> w[ids[i]] >= w[ids[j]]
  {
    forall i, j | 0 <= i < j < |ids| ensures w[ids[i]] >= w[ids[j]] {
      assert ids[i] == sorted[i] && ids[j] == sorted[j];
      assert ByWrongDesc(w)(sorted[i]) <= ByWrongDesc(w)(sorted[j]);
    }
  }

  lemma TopWrongAbove(w: map<string, nat>, candidates: seq<string>, sorted: seq<string>, ids: seq<string>)
    requires SortedBy(sorted, ByWrongDesc(w)) && ids <= sorted
    requires forall x :: x in sorted <==> x in candidates
    requires forall x :: x in candidates <==> HasWrong(w)(x)
    ensures forall id, i :: id in w && w[id] > 0 && id !in ids && 0 <= i < |ids|
                            ==> ids[i] in w && w[ids[i]] >= w[id]
  {
    forall id, i | id in w && w[id] > 0 && id !in ids && 0 <= i < |ids|
      ensures ids[i] in w && w[ids[i]] >= w[id]
    {
      assert HasWrong(w)(id);
      SortedPrefixBelow(sorted, ByWrongDesc(w), ids, id);
      assert ids[i] == sorted[i];
      assert HasWrong(w)(ids[i]);
      assert ByWrongDesc(w)(ids[i]) <= ByWrongDesc(w)(id);
    }
  }

  /** getTopWrongIds is independent of the last answers: two documents with the same keys
      and the same wrong counts give the same list. */
  lemma TopWrongIgnoresLastAnswer(q1: Dict<QuestionRecord>, q2: Dict<QuestionRecord>, n: int)
    requires Valid(q1) && Valid(q2) && q1.keys == q2.keys
    requires forall id :: id in q1.entries ==> q1.entries[id].wrong == q2.entries[id].wrong
    ensures TopWrongIds(q1, n) == TopWrongIds(q2, n)
  {
    assert WrongCounts(q1) == WrongCounts(q2);
  }

  /** getAccuracyRate: 0 for an empty store, otherwise the percentage of records last
      answered correctly, rounded to the nearest integer. */
  function AccuracyRate(q: Dict<QuestionRecord>): (rate: nat)
    requires Valid(q)
    ensures rate <= 100
    ensures |q.keys| == 0 ==> rate == 0
    ensures var n, c := |q.keys|, CountAnswer(Values(q), Correct);
            n > 0 ==> -n <= 2 * (100 * c - rate * n) < n
  {
    var records := Values(q);
    if |records| == 0 then 0 else Percent(CountAnswer(records, Correct), |records|)
  }

  /** The latest answer time among the records. */
  function MaxLastAt(rs: seq<QuestionRecord>): (t: int)
    requires |rs| > 0
    ensures exists i :: 0 <= i < |rs| && rs[i].lastAt == t
    ensures forall i :: 0 <= i < |rs| ==> rs[i].lastAt <= t
  {
    if |rs| == 1 then rs[0].lastAt
    else
      var m := MaxLastAt(rs[1..]);
      assert forall i :: 1 <= i < |rs| ==> rs[i] == rs[1..][i - 1];
      if rs[0].lastAt >= m then rs[0].lastAt else m
  }

  /** getLastStudyDate: null for an empty store, otherwise the most recent answer time. */
  function LastStudyDate(q: Dict<QuestionRecord>): (d: Option<int>)
    requires Valid(q)
    ensures d.None? <==> |q.keys| == 0
    ensures d.Some? ==> (exists id :: id in q.entries && q.entries[id].lastAt == d.value)
                        && forall id :: id in q.entries ==> q.entries[id].lastAt <= d.value
  {
    var records := Values(q);
    if |records| == 0 then None
    else
      var t := MaxLastAt(records);
      assert forall id :: id in q.entries ==> exists i :: 0 <= i < |q.keys| && q.keys[i] == id;
      Some(t)
  }

  /** A question answered wrong three times and then
      correctly is still the top wrong question, but no longer currently wrong. */
  lemma TopWrongOutlivesCurrentWrong(id: string, topicId: string, t1: int, t2: int, t3: int, t4: int)
    ensures var q := Upsert(Upsert(Upsert(Upsert(Empty(), id, topicId, false, t1),
                                          id, topicId, false, t2), id, topicId, false, t3),
                            id, topicId, true, t4);
            TopWrongIds(q, 1) == [id] && WrongQuestionIds(q) == []
  {
    var q1 := Upsert(Empty(), id, topicId, false, t1);
    UpsertOnly(Empty(), id, topicId, false, t1);
    var q2 := Upsert(q1, id, topicId, false, t2);
    UpsertOnly(q1, id, topicId, false, t2);
    var q3 := Upsert(q2, id, topicId, false, t3);
    UpsertOnly(q2, id, topicId, false, t3);
    var q := Upsert(q3, id, topicId, true, t4);
    UpsertOnly(q3, id, topicId, true, t4);
    OnlyRecordTop(q, id);
    OnlyRecordRight(q, id);
  }

  /** Upserting the one question a document holds, or the first, leaves a document of that
      one record, with one more wrong answer when the answer was wrong. */
  lemma UpsertOnly(q: Dict<QuestionRecord>, id: string, topicId: string, isCorrect: bool, t: int)
    requires Valid(q) && (q.keys == [] || q.keys == [id])
    ensures var r := Upsert(q, id, topicId, isCorrect, t);
            && r.keys == [id]
            && r.entries[id].lastAnswer == AnswerOf(isCorrect)
            && r.entries[id].wrong == (if q.keys == [] then 0 else q.entries[id].wrong)
                                      + (if isCorrect then 0 else 1)
  {
    if q.keys == [] {
      assert id !in q.entries;
    } else {
      assert id in q.keys;
    }
  }

  /** A document of one record answered wrong at some point has that question as its top
      wrong question. */
  /** getTopWrongIds() with its default n lists at most 50 ids. */
  lemma DefaultTopWrongBound(q: Dict<QuestionRecord>)
    requires Valid(q)
    ensures |TopWrongIds(q, DefaultTopWrong)| <= 50
  {}

  lemma OnlyRecordTop(q: Dict<QuestionRecord>, id: string)
    requires Valid(q) && q.keys == [id] && q.entries[id].wrong > 0
    ensures TopWrongIds(q, 1) == [id]
  {
    var w := WrongCounts(q);
    assert HasWrong(w)(id);
    FilterSingle(id, HasWrong(w));
    var top := TopWrongIds(q, 1);
    assert |top| == 1 && top[0] in q.entries;
  }

  /** A document of one record last answered correctly has nothing currently wrong. */
  lemma OnlyRecordRight(q: Dict<QuestionRecord>, id: string)
    requires Valid(q) && q.keys == [id] && q.entries[id].lastAnswer == Correct
    ensures WrongQuestionIds(q) == []
  {
  }

  /** The store: the parsed document, and whether a debounced CRM push is pending (every
      write through `setData` schedules one). */
  class ProgressStore {
    var questions: Dict<QuestionRecord>
    var crmSyncScheduled: bool

    ghost predicate Valid()
      reads this
    {
      Dicts.Valid(questions)
    }

    /** A store with nothing saved. */
    constructor ()
      ensures Valid() && questions == Empty() && !crmSyncScheduled
    {
      questions := Empty();
      crmSyncScheduled := false;
    }

    /** saveAnswer: upserts the question's record and schedules a CRM push. */
    method SaveAnswer(questionId: string, topicId: string, isCorrect: bool, now: int)
      requires Valid()
      modifies this
      ensures Valid()
      ensures questions == Upsert(old(questions), questionId, topicId, isCorrect, now)
      ensures crmSyncScheduled
    {
      var existing := Get(questions, questionId);
      if existing.Some? {
        var rec := existing.value;
        if isCorrect {
          rec := rec.(correct := rec.correct + 1);
        } else {
          rec := rec.(wrong := rec.wrong + 1);
        }
        rec := rec.(lastAnswer := AnswerOf(isCorrect), lastAt := now, topicId := topicId);
        questions := Put(questions, questionId, rec);
      } else {
        questions := Put(questions, questionId,
          QuestionRecord(if isCorrect then 1 else 0, if isCorrect then 0 else 1,
                         AnswerOf(isCorrect), now, topicId));
      }
      crmSyncScheduled := true;
    }

    /** saveAnswersBatch: the same upsert for each result, in order, then one write. */
    method SaveAnswersBatch(results: seq<AnswerResult>, now: int)
      requires Valid()
      modifies this
      ensures Valid()
      ensures questions == ApplyAll(old(questions), results, now)
      ensures crmSyncScheduled
    {
      var data := questions;
      for i := 0 to |results|
        invariant Dicts.Valid(data)
        invariant data == ApplyAll(questions, results[..i], now)
      {
        assert results[..i + 1][..i] == results[..i];
        var r := results[i];
        data := Upsert(data, r.questionId, r.topicId, r.isCorrect, now);
      }
      assert results[..|results|] == results;
      questions := data;
      crmSyncScheduled := true;
    }

    /** getOverallStats: counts every record by its last answer. */
    method OverallStats() returns (s: Stats)
      requires Valid()
      ensures s.total == TotalQuestions
      ensures s.answered == |questions.entries|
      ensures s.correct == CountAnswer(Values(questions), Correct)
      ensures s.wrong == CountAnswer(Values(questions), Wrong)
      ensures s.correct + s.wrong == s.answered
    {
      var records := Values(questions);
      var correct, wrong := 0, 0;
      for i := 0 to |records|
        invariant correct == CountAnswer(records[..i], Correct)
        invariant wrong == CountAnswer(records[..i], Wrong)
      {
        assert records[..i + 1][..i] == records[..i];
        if records[i].lastAnswer == Correct {
          correct := correct + 1;
        } else {
          wrong := wrong + 1;
        }
      }
      assert records[..|records|] == records;
      KeyCount(questions);
      CountAnswerSplit(records);
      s := Stats(TotalQuestions, |records|, correct, wrong);
    }

    /** getTopicStats: the topic's size from the fixed table, whatever the records say, and
      the records filed under the topic counted by their last answer. */
    method TopicStats(topicId: string) returns (s: Stats)
      requires Valid()
      ensures s.total == TopicCount(topicId)
      ensures s.answered == |InTopic(Values(questions), topicId)|
      ensures s.correct == CountAnswer(InTopic(Values(questions), topicId), Correct)
      ensures s.wrong == CountAnswer(InTopic(Values(questions), topicId), Wrong)
      ensures s.correct + s.wrong == s.answered
      ensures s.answered <= |questions.entries|
    {
      var records := Values(questions);
      var answered, correct, wrong := 0, 0, 0;
      for i := 0 to |records|
        invariant answered == |InTopic(records[..i], topicId)|
        invariant correct == CountAnswer(InTopic(records[..i], topicId), Correct)
        invariant wrong == CountAnswer(InTopic(records[..i], topicId), Wrong)
      {
        var r := records[i];
        assert records[..i + 1] == records[..i] + [r];
        InTopicSnoc(records[..i], r, topicId);
        if r.topicId == topicId {
          CountAnswerSnoc(InTopic(records[..i], topicId), r, Correct);
          CountAnswerSnoc(InTopic(records[..i], topicId), r, Wrong);
          answered := answered + 1;
          if r.lastAnswer == Correct {
            correct := correct + 1;
          } else {
            wrong := wrong + 1;
          }
        }
      }
      assert records[..|records|] == records;
      KeyCount(questions);
      CountAnswerSplit(InTopic(records, topicId));
      s := Stats(TopicCount(topicId), answered, correct, wrong);
    }

    /** resetProgress: removes the document; nothing is written through `setData`, so no CRM
        push is scheduled. Every statistic reads zero afterwards. */
    method ResetProgress()
      modifies this
      ensures Valid() && questions == Empty()
      ensures crmSyncScheduled == old(crmSyncScheduled)
      ensures Values(questions) == [] && WrongQuestionIds(questions) == []
      ensures AccuracyRate(questions) == 0 && LastStudyDate(questions) == None
    {
      questions := Empty();
    }
  }
}
