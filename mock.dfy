/** The mock-test log: the last 20 attempts, each finished with a result and a per-topic
    breakdown, and the weak topics found across the last five finished attempts. */
module Mock {
  import opened Wrappers
  import opened Seqs
  import opened Numeric
  import Sync

  datatype Response = Response(questionId: string, answerId: Option<string>, topicId: string, correct: bool)

  datatype TopicBreakdown = TopicBreakdown(topicId: string, topicName: string, correct: nat, total: nat,
                                           accuracy: nat)

  datatype MockResult = MockResult(
    total: nat,
    correct: nat,
    wrong: nat,
    scorePercent: nat,
    passed: bool,
    topicBreakdown: seq<TopicBreakdown>)

  datatype MockAttempt = MockAttempt(
    id: string,
    kind: string,             // the licence type, "B", "C", ...
    startedAt: int,
    finishedAt: Option<int>,
    timeLimitMin: int,
    passThreshold: int,
    questionCount: int,
    responses: seq<Response>,
    result: Option<MockResult>)

  /** How many attempts the log keeps. */
  const MaxAttempts: nat := 20
  /** How many of the latest finished attempts the weak-topic summary reads. */
  const RecentFinished: nat := 5
  /** A topic is weak below this accuracy. */
  const WeakBelow: nat := 70

  /** The keys of `TOPIC_NAMES`. */
  const NamedTopics: set<string> :=
    {"t-khai-niem", "t-van-hoa", "t-ky-thuat", "t-cau-tao", "t-bien-bao", "t-tinh-huong", "t-diem-liet"}

  /** `TOPIC_NAMES[topicId] || topicId`: every named topic has a display name of its own,
      and any other id is shown as itself. */
  function TopicName(topicId: string): (name: string)
    ensures topicId !in NamedTopics ==> name == topicId
    ensures topicId in NamedTopics ==> name != topicId && name != ""
  {
    if topicId == "t-khai-niem" then "Khái niệm & quy tắc"
    else if topicId == "t-van-hoa" then "Văn hóa giao thông"
    else if topicId == "t-ky-thuat" then "Kỹ thuật lái xe"
    else if topicId == "t-cau-tao" then "Cấu tạo sửa chữa"
    else if topicId == "t-bien-bao" then "Biển báo đường bộ"
    else if topicId == "t-tinh-huong" then "Sa hình tình huống"
    else if topicId == "t-diem-liet" then "Câu hỏi điểm liệt"
    else topicId
  }

  /** createAttempt on the log: the new attempt goes last and, past 20, the oldest go. */
  function Created(attempts: seq<MockAttempt>, a: MockAttempt): (r: seq<MockAttempt>)
    ensures |r| <= MaxAttempts && |r| > 0
    ensures |r| == if |attempts| + 1 > MaxAttempts then MaxAttempts else |attempts| + 1
    ensures r[|r| - 1] == a
    ensures |attempts| < MaxAttempts ==> r == attempts + [a]
    ensures forall i :: 0 <= i < |r| - 1 ==> r[i] == attempts[|attempts| + 1 - |r| + i]
  {
    var all := attempts + [a];
    var r := if |all| > MaxAttempts then Last(all, MaxAttempts) else all;
    assert forall i :: 0 <= i < |r| - 1 ==> r[i] == all[|all| - |r| + i];
    r
  }

  /** An entry of the `topicMap` being built: a topic's correct and total counts. */
  datatype TopicTally = TopicTally(topicId: string, correct: nat, total: nat)

  function TCorrect(t: TopicTally): nat { t.correct }
  function TTotal(t: TopicTally): nat { t.total }

  ghost predicate TopicsDistinct(rows: seq<TopicTally>) {
    forall i, j :: 0 <= i < j < |rows| ==> rows[i].topicId != rows[j].topicId
  }

  ghost predicate TalliesSane(rows: seq<TopicTally>) {
    forall i :: 0 <= i < |rows| ==> rows[i].correct <= rows[i].total
  }

  /** Where a topic sits among the entries, or -1. */
  function FindTopic(rows: seq<TopicTally>, topicId: string): (k: int)
    ensures -1 <= k < |rows|
    ensures k >= 0 ==> rows[k].topicId == topicId
    ensures k == -1 ==> forall j :: 0 <= j < |rows| ==> rows[j].topicId != topicId
  {
    if rows == [] then -1
    else if rows[0].topicId == topicId then 0
    else
      var k := FindTopic(rows[1..], topicId);
      assert forall j :: 1 <= j < |rows| ==> rows[j] == rows[1..][j - 1];
      if k == -1 then -1 else k + 1
  }

  /** `map[t]`: a topic's entry, or an empty one when the topic has none yet. */
  function TallyOf(rows: seq<TopicTally>, topicId: string): TopicTally {
    var k := FindTopic(rows, topicId);
    if k >= 0 then rows[k] else TopicTally(topicId, 0, 0)
  }

  /** Rewriting an entry without changing its topic moves no topic. */
  lemma {:induction false} FindTopicUpdate(rows: seq<TopicTally>, k: nat, x: TopicTally, u: string)
    requires k < |rows| && x.topicId == rows[k].topicId
    ensures FindTopic(rows[k := x], u) == FindTopic(rows, u)
  {
    if k > 0 {
      assert rows[k := x][1..] == rows[1..][k - 1 := x];
      FindTopicUpdate(rows[1..], k - 1, x, u);
    }
  }

  /** An entry added at the end is found only for its own, new topic. */
  lemma {:induction false} FindTopicSnoc(rows: seq<TopicTally>, x: TopicTally, u: string)
    ensures FindTopic(rows + [x], u) ==
      if FindTopic(rows, u) >= 0 then FindTopic(rows, u) else if x.topicId == u then |rows| else -1
  {
    if rows != [] {
      assert (rows + [x])[1..] == rows[1..] + [x];
      FindTopicSnoc(rows[1..], x, u);
    }
  }

  /** `if (!map[t]) map[t] = {correct: 0, total: 0}; map[t].correct += c; map[t].total += n`:
      the topic's entry grows by c and n, a new topic being added at the end, and every
      other topic's entry stays as it was. */
  function AddTo(rows: seq<TopicTally>, topicId: string, c: nat, n: nat): (r: seq<TopicTally>)
    ensures SumOf(r, TTotal) == SumOf(rows, TTotal) + n
    ensures SumOf(r, TCorrect) == SumOf(rows, TCorrect) + c
    ensures TopicsDistinct(rows) ==> TopicsDistinct(r)
    ensures TalliesSane(rows) && c <= n ==> TalliesSane(r)
    ensures |rows| <= |r| <= |rows| + 1
  {
    var k := FindTopic(rows, topicId);
    if k >= 0 then
      var r := rows[k := TopicTally(topicId, rows[k].correct + c, rows[k].total + n)];
      SumOfUpdate(rows, k, r[k], TTotal);
      SumOfUpdate(rows, k, r[k], TCorrect);
      r
    else
      var r := rows + [TopicTally(topicId, c, n)];
      SumOfSnoc(rows, TopicTally(topicId, c, n), TTotal);
      SumOfSnoc(rows, TopicTally(topicId, c, n), TCorrect);
      r
  }

  /** Which entry AddTo grows: the entry of `u` gains c and n (and exists afterwards),
      and every other topic's entry, or its absence, stays as it was. */
  lemma AddToTopic(rows: seq<TopicTally>, u: string, c: nat, n: nat, topicId: string)
    ensures var r := AddTo(rows, u, c, n);
            && (FindTopic(r, topicId) >= 0 <==> FindTopic(rows, topicId) >= 0 || u == topicId)
            && TallyOf(r, topicId) ==
                 if u == topicId then TopicTally(topicId, TallyOf(rows, topicId).correct + c,
                                                 TallyOf(rows, topicId).total + n)
                 else TallyOf(rows, topicId)
  {
    var k := FindTopic(rows, u);
    var r := AddTo(rows, u, c, n);
    if k >= 0 {
      var x := TopicTally(u, rows[k].correct + c, rows[k].total + n);
      assert r == rows[k := x];
      GrownAt(rows, k, x, topicId);
    } else {
      var x := TopicTally(u, c, n);
      assert r == rows + [x];
      GrownAtEnd(rows, x, topicId);
    }
  }

  /** AddTo's first branch, for any topic: rewriting the entry at k moves no topic. */
  lemma GrownAt(rows: seq<TopicTally>, k: nat, x: TopicTally, topicId: string)
    requires k < |rows| && x.topicId == rows[k].topicId && FindTopic(rows, x.topicId) == k
    ensures FindTopic(rows[k := x], topicId) == FindTopic(rows, topicId)
    ensures TallyOf(rows[k := x], topicId) == if x.topicId == topicId then x else TallyOf(rows, topicId)
  {
    FindTopicUpdate(rows, k, x, topicId);
  }

  /** AddTo's second branch, for any topic: the new last entry is found for its own topic only. */
  lemma GrownAtEnd(rows: seq<TopicTally>, x: TopicTally, topicId: string)
    requires FindTopic(rows, x.topicId) == -1
    ensures FindTopic(rows + [x], topicId) >= 0 <==> FindTopic(rows, topicId) >= 0 || x.topicId == topicId
    ensures TallyOf(rows + [x], topicId) == if x.topicId == topicId then x else TallyOf(rows, topicId)
  {
    FindTopicSnoc(rows, x, topicId);
  }

  function IsCorrect(r: Response): bool { r.correct }

  /** `responses.filter(r => r.correct).length`. */
  function CountCorrect(rs: seq<Response>): (n: nat)
    ensures n <= |rs|
  {
    |Filter(rs, IsCorrect)|
  }

  /** The `topicMap` finishAttempt builds, as its entries in insertion order. The totals
      add up to the number of responses and the corrects to the number answered correctly. */
  function Tallies(rs: seq<Response>): (rows: seq<TopicTally>)
    ensures SumOf(rows, TTotal) == |rs|
    ensures SumOf(rows, TCorrect) == CountCorrect(rs)
    ensures TopicsDistinct(rows) && TalliesSane(rows)
    decreases |rs|
  {
    if rs == [] then []
    else
      var n := |rs| - 1;
      var r := rs[n];
      assert rs == rs[..n] + [r];
      FilterAppend(rs[..n], [r], IsCorrect);
      FilterSingle(r, IsCorrect);
      AddTo(Tallies(rs[..n]), r.topicId, if r.correct then 1 else 0, 1)
  }

  function OnTopic(topicId: string): Response -> bool {
    (r: Response) => r.topicId == topicId
  }

  /** The responses to questions of a topic, in order. */
  function ResponsesOn(rs: seq<Response>, topicId: string): seq<Response> {
    Filter(rs, OnTopic(topicId))
  }

  /** A topic's entry in the `topicMap` counts that topic's responses and, of those, the
      correct ones; exactly the topics that were answered have an entry. */
  lemma TalliesPerTopic(rs: seq<Response>, topicId: string)
    ensures TallyOf(Tallies(rs), topicId) ==
      TopicTally(topicId, CountCorrect(ResponsesOn(rs, topicId)), |ResponsesOn(rs, topicId)|)
    ensures FindTopic(Tallies(rs), topicId) >= 0 <==> |ResponsesOn(rs, topicId)| > 0
  {
    TalliesTally(rs, topicId);
    TalliesFound(rs, topicId);
  }

  lemma {:induction false} TalliesTally(rs: seq<Response>, topicId: string)
    ensures TallyOf(Tallies(rs), topicId) ==
      TopicTally(topicId, CountCorrect(ResponsesOn(rs, topicId)), |ResponsesOn(rs, topicId)|)
    decreases |rs|
  {
    if rs != [] {
      var n := |rs| - 1;
      var r := rs[n];
      var prev, prevOn := Tallies(rs[..n]), ResponsesOn(rs[..n], topicId);
      var c: nat := if r.correct then 1 else 0;
      TalliesTally(rs[..n], topicId);
      assert TallyOf(prev, topicId) == TopicTally(topicId, CountCorrect(prevOn), |prevOn|);
      TalliesSnoc(rs);
      assert Tallies(rs) == AddTo(prev, r.topicId, c, 1);
      ResponsesOnSnoc(rs, topicId);
      AddToTopic(prev, r.topicId, c, 1, topicId);
      if r.topicId == topicId {
        assert ResponsesOn(rs, topicId) == prevOn + [r];
        CountCorrectSnoc(prevOn, r);
        assert TallyOf(Tallies(rs), topicId) == TopicTally(topicId, CountCorrect(prevOn) + c, |prevOn| + 1);
      } else {
        assert prevOn + [] == prevOn;
        assert ResponsesOn(rs, topicId) == prevOn;
      }
    } else {
      assert ResponsesOn(rs, topicId) == [];
      assert FindTopic(Tallies(rs), topicId) == -1;
    }
  }

  lemma {:induction false} TalliesFound(rs: seq<Response>, topicId: string)
    ensures FindTopic(Tallies(rs), topicId) >= 0 <==> |ResponsesOn(rs, topicId)| > 0
    decreases |rs|
  {
    if rs != [] {
      var n := |rs| - 1;
      var r := rs[n];
      var prev, prevOn := Tallies(rs[..n]), ResponsesOn(rs[..n], topicId);
      TalliesFound(rs[..n], topicId);
      TalliesSnoc(rs);
      ResponsesOnSnoc(rs, topicId);
      AddToTopic(prev, r.topicId, if r.correct then 1 else 0, 1, topicId);
      if r.topicId != topicId {
        assert prevOn + [] == prevOn;
      }
    } else {
      assert ResponsesOn(rs, topicId) == [];
    }
  }

  lemma TalliesSnoc(rs: seq<Response>)
    requires rs != []
    ensures var n := |rs| - 1;
            Tallies(rs) == AddTo(Tallies(rs[..n]), rs[n].topicId, if rs[n].correct then 1 else 0, 1)
  {}

  lemma ResponsesOnSnoc(rs: seq<Response>, topicId: string)
    requires rs != []
    ensures var n := |rs| - 1;
            ResponsesOn(rs, topicId) ==
              ResponsesOn(rs[..n], topicId) + (if rs[n].topicId == topicId then [rs[n]] else [])
  {
    var n := |rs| - 1;
    assert rs == rs[..n] + [rs[n]];
    FilterAppend(rs[..n], [rs[n]], OnTopic(topicId));
    FilterSingle(rs[n], OnTopic(topicId));
  }

  lemma CountCorrectSnoc(rs: seq<Response>, r: Response)
    ensures CountCorrect(rs + [r]) == CountCorrect(rs) + if r.correct then 1 else 0
  {
    FilterAppend(rs, [r], IsCorrect);
    FilterSingle(r, IsCorrect);
  }

  function BCorrect(b: TopicBreakdown): nat { b.correct }
  function BTotal(b: TopicBreakdown): nat { b.total }
  function Accuracy(b: TopicBreakdown): int { b.accuracy }

  /** One breakdown row: `stats.total > 0 ? Math.round(correct / total * 100) : 0`. */
  function RowOf(t: TopicTally): (b: TopicBreakdown)
    ensures b.topicId == t.topicId && b.correct == t.correct && b.total == t.total
    ensures b.accuracy == Percent(t.correct, t.total)
    ensures t.correct <= t.total ==> b.accuracy <= 100
  {
    TopicBreakdown(t.topicId, TopicName(t.topicId), t.correct, t.total, Percent(t.correct, t.total))
  }

  /** `Object.entries(map).map(...)`: one row per entry, in order, with the same sums. */
  function Rows(ts: seq<TopicTally>): (bs: seq<TopicBreakdown>)
    ensures |bs| == |ts|
    ensures forall i :: 0 <= i < |ts| ==> bs[i] == RowOf(ts[i])
    ensures SumOf(bs, BTotal) == SumOf(ts, TTotal)
    ensures SumOf(bs, BCorrect) == SumOf(ts, TCorrect)
  {
    if ts == [] then []
    else
      var bs := [RowOf(ts[0])] + Rows(ts[1..]);
      assert bs[1..] == Rows(ts[1..]);
      bs
  }

  /** The result finishAttempt computes: every response is either correct or wrong, the
      attempt passes exactly when the correct answers reach the threshold, the score is the
      rounded percentage, and the per-topic rows, weakest first, account for every response
      and every correct answer. */
  function ResultOf(responses: seq<Response>, passThreshold: int): (r: MockResult)
    ensures r.total == |responses| && r.correct == CountCorrect(responses)
    ensures r.correct + r.wrong == r.total
    ensures r.passed <==> r.correct >= passThreshold
    ensures r.scorePercent == Percent(r.correct, r.total) && r.scorePercent <= 100
    ensures SortedBy(r.topicBreakdown, Accuracy)
    ensures SumOf(r.topicBreakdown, BTotal) == r.total
    ensures SumOf(r.topicBreakdown, BCorrect) == r.correct
    ensures forall i :: 0 <= i < |r.topicBreakdown| ==> r.topicBreakdown[i].accuracy <= 100
    ensures multiset(r.topicBreakdown) == multiset(Rows(Tallies(responses)))
  {
    var ts := Tallies(responses);
    var sorted := SortBy(Rows(ts), Accuracy);
    BreakdownSums(ts, sorted);
    var correct := CountCorrect(responses);
    MockResult(|responses|, correct, |responses| - correct, Percent(correct, |responses|),
               correct >= passThreshold, sorted)
  }

  /** The breakdown has a row for a topic exactly when some response is on that topic,
      and the row counts that topic's responses and correct answers. */
  lemma BreakdownPerTopic(responses: seq<Response>, passThreshold: int, topicId: string)
    ensures var bd := ResultOf(responses, passThreshold).topicBreakdown;
            var on := ResponsesOn(responses, topicId);
            && ((exists b :: b in bd && b.topicId == topicId) <==> |on| > 0)
            && forall b :: b in bd && b.topicId == topicId ==>
                 b == TopicBreakdown(topicId, TopicName(topicId), CountCorrect(on), |on|,
                                     Percent(CountCorrect(on), |on|))
  {
    var ts := Tallies(responses);
    var bd := ResultOf(responses, passThreshold).topicBreakdown;
    TalliesPerTopic(responses, topicId);
    RowsTopic(ts, topicId);
    assert forall b :: b in bd <==> b in Rows(ts) by {
      forall b ensures b in bd <==> b in Rows(ts) {
        assert b in bd <==> b in multiset(bd);
        assert b in Rows(ts) <==> b in multiset(Rows(ts));
      }
    }
    var k := FindTopic(ts, topicId);
    if k >= 0 {
      assert Rows(ts)[k] in Rows(ts);
    }
  }

  /** The breakdown rows of sane tallies, sorted, keep the tallies' sums and show accuracies
      of at most 100. */
  lemma BreakdownSums(ts: seq<TopicTally>, sorted: seq<TopicBreakdown>)
    requires TalliesSane(ts) && sorted == SortBy(Rows(ts), Accuracy)
    ensures SumOf(sorted, BTotal) == SumOf(ts, TTotal)
    ensures SumOf(sorted, BCorrect) == SumOf(ts, TCorrect)
    ensures forall i :: 0 <= i < |sorted| ==> sorted[i].accuracy <= 100
  {
    var rows := Rows(ts);
    SumOfSort(rows, Accuracy, BTotal);
    SumOfSort(rows, Accuracy, BCorrect);
    RowsAccuracy(ts, rows);
    SortByMembers(rows, Accuracy);
    forall i | 0 <= i < |sorted| ensures sorted[i].accuracy <= 100 {
      assert sorted[i] in rows;
    }
  }

  /** The rows of sane tallies show accuracies of at most 100. */
  lemma RowsAccuracy(ts: seq<TopicTally>, rows: seq<TopicBreakdown>)
    requires TalliesSane(ts) && rows == Rows(ts)
    ensures forall b :: b in rows ==> b.accuracy <= 100
  {
    forall b | b in rows ensures b.accuracy <= 100 {
      var i :| 0 <= i < |rows| && rows[i] == b;
      assert b == RowOf(ts[i]);
    }
  }

  /** `attempts.find(a => a.id === attemptId)`: the index of the first match, or -1. */
  function FindAttempt(attempts: seq<MockAttempt>, attemptId: string): (k: int)
    ensures -1 <= k < |attempts|
    ensures k >= 0 ==> attempts[k].id == attemptId && forall j :: 0 <= j < k ==> attempts[j].id != attemptId
    ensures k == -1 ==> forall j :: 0 <= j < |attempts| ==> attempts[j].id != attemptId
  {
    if attempts == [] then -1
    else if attempts[0].id == attemptId then 0
    else
      var k := FindAttempt(attempts[1..], attemptId);
      assert forall j :: 1 <= j < |attempts| ==> attempts[j] == attempts[1..][j - 1];
      if k == -1 then -1 else k + 1
  }

  /** The attempt summary sent to the CRM: licence B is reported as "MOCK". */
  function SummaryOf(a: MockAttempt, r: MockResult, startedIso: string, finishedIso: string): (s: Sync.AttemptSummary)
    ensures s.mode == if a.kind == "B" then "MOCK" else a.kind
    ensures s.score == r.correct && s.total == r.total && s.accuracy == r.scorePercent
    ensures s.startedAt == startedIso && s.finishedAt == finishedIso
    ensures s.topicBreakdown.Some? && |s.topicBreakdown.value| == |r.topicBreakdown|
    ensures forall i :: 0 <= i < |r.topicBreakdown| ==>
              var t := r.topicBreakdown[i];
              s.topicBreakdown.value[i] == Sync.TopicRow(t.topicId, t.total, t.correct, t.accuracy)
  {
    var rows := seq(|r.topicBreakdown|, i requires 0 <= i < |r.topicBreakdown| =>
      var t := r.topicBreakdown[i];
      Sync.TopicRow(t.topicId, t.total, t.correct, t.accuracy));
    Sync.AttemptSummary(if a.kind == "B" then "MOCK" else a.kind, startedIso, finishedIso,
                        r.correct, r.total, r.scorePercent, Some(rows))
  }

  /** The MOCK_FINISHED event's payload. */
  function FinishedEvent(r: MockResult): (p: map<string, Sync.Json>)
    ensures p.Keys == {"score", "total", "passed"}
    ensures p["score"] == Sync.JNum(r.correct) && p["total"] == Sync.JNum(r.total)
    ensures p["passed"] == Sync.JBool(r.passed)
  {
    map["score" := Sync.JNum(r.correct), "total" := Sync.JNum(r.total), "passed" := Sync.JBool(r.passed)]
  }

  function HasResult(a: MockAttempt): bool { a.result.Some? }

  /** getLatestResult: the result of the last finished attempt, or none. */
  function LatestResult(attempts: seq<MockAttempt>): (r: Option<MockResult>)
    ensures r.None? <==> forall i :: 0 <= i < |attempts| ==> attempts[i].result.None?
    ensures r.Some? ==> exists i :: 0 <= i < |attempts| && attempts[i].result == r
                          && forall j :: i < j < |attempts| ==> attempts[j].result.None?
  {
    var finished := Filter(attempts, HasResult);
    if |finished| > 0 then
      var last := finished[|finished| - 1];
      assert last in finished;
      LatestWitness(attempts, last);
      last.result
    else
      assert forall i :: 0 <= i < |attempts| ==> attempts[i].result.None? by {
        forall i | 0 <= i < |attempts| ensures attempts[i].result.None? {
          assert attempts[i] in attempts;
        }
      }
      None
  }

  lemma LatestWitness(attempts: seq<MockAttempt>, last: MockAttempt)
    requires |Filter(attempts, HasResult)| > 0
    requires last == Filter(attempts, HasResult)[|Filter(attempts, HasResult)| - 1]
    ensures exists i :: 0 <= i < |attempts| && attempts[i] == last
                        && forall j :: i < j < |attempts| ==> attempts[j].result.None?
  {
    var i := LastFinished(attempts);
  }

  /** The position of the last finished attempt, which is the last one Filter keeps. */
  lemma {:induction false} LastFinished(attempts: seq<MockAttempt>) returns (i: nat)
    requires |Filter(attempts, HasResult)| > 0
    ensures i < |attempts|
    ensures attempts[i] == Filter(attempts, HasResult)[|Filter(attempts, HasResult)| - 1]
    ensures forall j :: i < j < |attempts| ==> attempts[j].result.None?
    decreases |attempts|
  {
    var n := |attempts| - 1;
    var init := attempts[..n];
    assert attempts == init + [attempts[n]];
    FilterAppend(init, [attempts[n]], HasResult);
    FilterSingle(attempts[n], HasResult);
    if HasResult(attempts[n]) {
      i := n;
    } else {
      assert Filter(attempts, HasResult) == Filter(init, HasResult) + [];
      i := LastFinished(init);
      assert init[i] == attempts[i];
      assert forall j :: i < j < n ==> init[j] == attempts[j];
    }
  }

  /** The breakdown rows of one attempt folded into the running per-topic sums. */
  function AddBreakdown(rows: seq<TopicTally>, tbs: seq<TopicBreakdown>): (r: seq<TopicTally>)
    ensures TopicsDistinct(rows) ==> TopicsDistinct(r)
    ensures SumOf(r, TTotal) == SumOf(rows, TTotal) + SumOf(tbs, BTotal)
    ensures SumOf(r, TCorrect) == SumOf(rows, TCorrect) + SumOf(tbs, BCorrect)
    decreases |tbs|
  {
    if tbs == [] then rows
    else
      var n := |tbs| - 1;
      assert tbs == tbs[..n] + [tbs[n]];
      SumOfSnoc(tbs[..n], tbs[n], BTotal);
      SumOfSnoc(tbs[..n], tbs[n], BCorrect);
      AddTo(AddBreakdown(rows, tbs[..n]), tbs[n].topicId, tbs[n].correct, tbs[n].total)
  }

  function RowOnTopic(topicId: string): TopicBreakdown -> bool {
    (b: TopicBreakdown) => b.topicId == topicId
  }

  /** The breakdown rows of a topic, in order. */
  function RowsOn(tbs: seq<TopicBreakdown>, topicId: string): seq<TopicBreakdown> {
    Filter(tbs, RowOnTopic(topicId))
  }

  /** Folding rows in adds, to each topic's entry, the sums of that topic's rows, and
      creates entries exactly for the topics that have rows. */
  lemma AddBreakdownPerTopic(rows: seq<TopicTally>, tbs: seq<TopicBreakdown>, topicId: string)
    ensures TallyOf(AddBreakdown(rows, tbs), topicId) ==
      TopicTally(topicId, TallyOf(rows, topicId).correct + SumOf(RowsOn(tbs, topicId), BCorrect),
                 TallyOf(rows, topicId).total + SumOf(RowsOn(tbs, topicId), BTotal))
    ensures FindTopic(AddBreakdown(rows, tbs), topicId) >= 0 <==>
      FindTopic(rows, topicId) >= 0 || |RowsOn(tbs, topicId)| > 0
  {
    AddBreakdownTally(rows, tbs, topicId);
    AddBreakdownFound(rows, tbs, topicId);
  }

  lemma {:induction false} AddBreakdownTally(rows: seq<TopicTally>, tbs: seq<TopicBreakdown>, topicId: string)
    ensures TallyOf(AddBreakdown(rows, tbs), topicId) ==
      TopicTally(topicId, TallyOf(rows, topicId).correct + SumOf(RowsOn(tbs, topicId), BCorrect),
                 TallyOf(rows, topicId).total + SumOf(RowsOn(tbs, topicId), BTotal))
    decreases |tbs|
  {
    if tbs != [] {
      var n := |tbs| - 1;
      AddBreakdownTally(rows, tbs[..n], topicId);
      AddBreakdownSnoc(rows, tbs);
      RowsOnSnoc(tbs, topicId);
      BreakdownStep(rows, AddBreakdown(rows, tbs[..n]), RowsOn(tbs[..n], topicId), tbs[n], topicId);
    } else {
      assert RowsOn(tbs, topicId) == [];
      assert TallyOf(rows, topicId).topicId == topicId;
    }
  }

  lemma {:induction false} AddBreakdownFound(rows: seq<TopicTally>, tbs: seq<TopicBreakdown>, topicId: string)
    ensures FindTopic(AddBreakdown(rows, tbs), topicId) >= 0 <==>
      FindTopic(rows, topicId) >= 0 || |RowsOn(tbs, topicId)| > 0
    decreases |tbs|
  {
    if tbs != [] {
      var n := |tbs| - 1;
      AddBreakdownFound(rows, tbs[..n], topicId);
      AddBreakdownSnoc(rows, tbs);
      RowsOnSnoc(tbs, topicId);
      AddToTopic(AddBreakdown(rows, tbs[..n]), tbs[n].topicId, tbs[n].correct, tbs[n].total, topicId);
    } else {
      assert RowsOn(tbs, topicId) == [];
    }
  }

  function ResultRows(a: MockAttempt): seq<TopicBreakdown> {
    match a.result
    case Some(r) => r.topicBreakdown
    case None => []
  }

  /** The `combined` sums over a list of attempts, in the order topics first appear. */
  function Combined(recent: seq<MockAttempt>): (rows: seq<TopicTally>)
    ensures TopicsDistinct(rows)
    decreases |recent|
  {
    if recent == [] then []
    else
      var n := |recent| - 1;
      AddBreakdown(Combined(recent[..n]), ResultRows(recent[n]))
  }

  /** One row folded in, with the per-topic sums so far stated over `prevOn`. */
  lemma AddOneRow(prev: seq<TopicTally>, prevOn: seq<TopicBreakdown>, b: TopicBreakdown, topicId: string)
    ensures var r := AddTo(prev, b.topicId, b.correct, b.total);
            var on := prevOn + (if b.topicId == topicId then [b] else []);
            && (FindTopic(r, topicId) >= 0 <==> FindTopic(prev, topicId) >= 0 || b.topicId == topicId)
            && TallyOf(r, topicId).correct - SumOf(on, BCorrect) == TallyOf(prev, topicId).correct - SumOf(prevOn, BCorrect)
            && TallyOf(r, topicId).total - SumOf(on, BTotal) == TallyOf(prev, topicId).total - SumOf(prevOn, BTotal)
            && TallyOf(r, topicId).topicId == topicId
  {
    AddToTopic(prev, b.topicId, b.correct, b.total, topicId);
    if b.topicId == topicId {
      SumOfSnoc(prevOn, b, BCorrect);
      SumOfSnoc(prevOn, b, BTotal);
    } else {
      assert prevOn + [] == prevOn;
    }
  }

  /** The inductive step of AddBreakdownTally: folding one more row keeps a topic's
      entry equal to its starting entry plus the sums of the topic's rows so far. */
  lemma BreakdownStep(rows: seq<TopicTally>, prev: seq<TopicTally>, prevOn: seq<TopicBreakdown>,
                      b: TopicBreakdown, topicId: string)
    requires TallyOf(prev, topicId) ==
      TopicTally(topicId, TallyOf(rows, topicId).correct + SumOf(prevOn, BCorrect),
                 TallyOf(rows, topicId).total + SumOf(prevOn, BTotal))
    ensures var r := AddTo(prev, b.topicId, b.correct, b.total);
            var on := prevOn + (if b.topicId == topicId then [b] else []);
            TallyOf(r, topicId) ==
              TopicTally(topicId, TallyOf(rows, topicId).correct + SumOf(on, BCorrect),
                         TallyOf(rows, topicId).total + SumOf(on, BTotal))
  {
    AddOneRow(prev, prevOn, b, topicId);
  }

  lemma AddBreakdownSnoc(rows: seq<TopicTally>, tbs: seq<TopicBreakdown>)
    requires tbs != []
    ensures var n := |tbs| - 1;
            AddBreakdown(rows, tbs) == AddTo(AddBreakdown(rows, tbs[..n]), tbs[n].topicId, tbs[n].correct, tbs[n].total)
  {}

  lemma RowsOnSnoc(tbs: seq<TopicBreakdown>, topicId: string)
    requires tbs != []
    ensures var n := |tbs| - 1;
            RowsOn(tbs, topicId) == RowsOn(tbs[..n], topicId) + (if tbs[n].topicId == topicId then [tbs[n]] else [])
  {
    var n := |tbs| - 1;
    assert tbs == tbs[..n] + [tbs[n]];
    FilterAppend(tbs[..n], [tbs[n]], RowOnTopic(topicId));
    FilterSingle(tbs[n], RowOnTopic(topicId));
  }

  /** The breakdown rows of a list of attempts, one attempt after the other. */
  function AllRows(recent: seq<MockAttempt>): seq<TopicBreakdown>
    decreases |recent|
  {
    if recent == [] then [] else AllRows(recent[..|recent| - 1]) + ResultRows(recent[|recent| - 1])
  }

  /** A topic's `combined` entry sums that topic's rows over all the attempts read, and
      exactly the topics with a row have an entry. */
  lemma CombinedPerTopic(recent: seq<MockAttempt>, topicId: string)
    ensures TallyOf(Combined(recent), topicId) ==
      TopicTally(topicId, SumOf(RowsOn(AllRows(recent), topicId), BCorrect),
                 SumOf(RowsOn(AllRows(recent), topicId), BTotal))
    ensures FindTopic(Combined(recent), topicId) >= 0 <==> |RowsOn(AllRows(recent), topicId)| > 0
  {
    CombinedTally(recent, topicId);
    CombinedFound(recent, topicId);
  }

  lemma {:induction false} CombinedTally(recent: seq<MockAttempt>, topicId: string)
    ensures TallyOf(Combined(recent), topicId) ==
      TopicTally(topicId, SumOf(RowsOn(AllRows(recent), topicId), BCorrect),
                 SumOf(RowsOn(AllRows(recent), topicId), BTotal))
    decreases |recent|
  {
    if recent != [] {
      var n := |recent| - 1;
      var before := AllRows(recent[..n]);
      var tbs := ResultRows(recent[n]);
      CombinedTally(recent[..n], topicId);
      assert Combined(recent) == AddBreakdown(Combined(recent[..n]), tbs);
      assert AllRows(recent) == before + tbs;
      AddBreakdownTally(Combined(recent[..n]), tbs, topicId);
      FilterAppend(before, tbs, RowOnTopic(topicId));
      SumOfAppend(RowsOn(before, topicId), RowsOn(tbs, topicId), BCorrect);
      SumOfAppend(RowsOn(before, topicId), RowsOn(tbs, topicId), BTotal);
    }
  }

  lemma {:induction false} CombinedFound(recent: seq<MockAttempt>, topicId: string)
    ensures FindTopic(Combined(recent), topicId) >= 0 <==> |RowsOn(AllRows(recent), topicId)| > 0
    decreases |recent|
  {
    if recent != [] {
      var n := |recent| - 1;
      var before := AllRows(recent[..n]);
      var tbs := ResultRows(recent[n]);
      CombinedFound(recent[..n], topicId);
      assert Combined(recent) == AddBreakdown(Combined(recent[..n]), tbs);
      assert AllRows(recent) == before + tbs;
      AddBreakdownFound(Combined(recent[..n]), tbs, topicId);
      FilterAppend(before, tbs, RowOnTopic(topicId));
    }
  }

  /** The last five finished attempts. */
  function Recent(attempts: seq<MockAttempt>): (r: seq<MockAttempt>)
    ensures |r| <= RecentFinished
    ensures forall a :: a in r ==> a in attempts && a.result.Some?
    ensures var finished := Filter(attempts, HasResult);
            && |r| == (if |finished| < RecentFinished then |finished| else RecentFinished)
            && forall i :: 0 <= i < |r| ==> r[i] == finished[|finished| - |r| + i]
  {
    var finished := Filter(attempts, HasResult);
    LastMembers(finished, RecentFinished);
    Last(finished, RecentFinished)
  }

  function IsWeak(b: TopicBreakdown): bool { b.accuracy < WeakBelow }

  /** A topic's row among the rows of distinct tallies is the row of its tally, and there
      is one exactly when the topic has a tally. */
  lemma RowsTopic(ts: seq<TopicTally>, topicId: string)
    requires TopicsDistinct(ts)
    ensures (exists b :: b in Rows(ts) && b.topicId == topicId) <==> FindTopic(ts, topicId) >= 0
    ensures forall b :: b in Rows(ts) && b.topicId == topicId ==> b == RowOf(TallyOf(ts, topicId))
  {
    var rows := Rows(ts);
    var k := FindTopic(ts, topicId);
    if k >= 0 {
      assert rows[k] in rows && rows[k].topicId == topicId;
    }
    forall b | b in rows && b.topicId == topicId ensures b == RowOf(TallyOf(ts, topicId)) {
      var i :| 0 <= i < |rows| && rows[i] == b;
      assert ts[i].topicId == topicId;
      assert i == k;
    }
  }

  /** The rows of distinct tallies, and any selection of them in any order, name each
      topic at most once. */
  lemma RowsTopicsDistinct(ts: seq<TopicTally>, ws: seq<TopicBreakdown>)
    requires TopicsDistinct(ts)
    requires Distinct(ws) && forall b :: b in ws ==> b in Rows(ts)
    ensures forall i, j :: 0 <= i < j < |ws| ==> ws[i].topicId != ws[j].topicId
  {
    forall i, j | 0 <= i < j < |ws| ensures ws[i].topicId != ws[j].topicId {
      if ws[i].topicId == ws[j].topicId {
        assert ws[i] in ws && ws[j] in ws;
        RowsTopic(ts, ws[i].topicId);
      }
    }
  }

  lemma RowsDistinct(ts: seq<TopicTally>)
    requires TopicsDistinct(ts)
    ensures Distinct(Rows(ts))
  {
    var rows := Rows(ts);
    forall i, j | 0 <= i < j < |rows| ensures rows[i] != rows[j] {
      assert rows[i].topicId == ts[i].topicId && rows[j].topicId == ts[j].topicId;
    }
  }

  /** getWeakTopicsFromMocks: topics summed over the last five finished attempts, those
      under 70% kept, weakest first, each topic once. */
  function WeakTopics(attempts: seq<MockAttempt>): (ws: seq<TopicBreakdown>)
    ensures forall b :: b in ws <==> b in Rows(Combined(Recent(attempts))) && b.accuracy < WeakBelow
    ensures forall i, j :: 0 <= i < j < |ws| ==> ws[i].topicId != ws[j].topicId
    ensures SortedBy(ws, Accuracy)
  {
    var combined := Combined(Recent(attempts));
    WeakRows(combined, Rows(combined));
    SortBy(Filter(Rows(combined), IsWeak), Accuracy)
  }

  /** The weak rows, sorted, are exactly the rows under 70%, each topic once. */
  lemma WeakRows(combined: seq<TopicTally>, rows: seq<TopicBreakdown>)
    requires TopicsDistinct(combined) && rows == Rows(combined)
    ensures var ws := SortBy(Filter(rows, IsWeak), Accuracy);
            && (forall b :: b in ws <==> b in rows && b.accuracy < WeakBelow)
            && forall i, j :: 0 <= i < j < |ws| ==> ws[i].topicId != ws[j].topicId
  {
    var weak := Filter(rows, IsWeak);
    var ws := SortBy(weak, Accuracy);
    SortByMembers(weak, Accuracy);
    RowsDistinct(combined);
    FilterDistinct(rows, IsWeak);
    PermutationDistinct(weak, ws);
    RowsTopicsDistinct(combined, ws);
  }

  /** A topic is reported weak exactly when the last five finished attempts have rows for
      it and their summed accuracy is under 70%; it is reported with those sums. */
  lemma WeakTopicOf(attempts: seq<MockAttempt>, topicId: string)
    ensures var on := RowsOn(AllRows(Recent(attempts)), topicId);
            var c, n := SumOf(on, BCorrect), SumOf(on, BTotal);
            && ((exists b :: b in WeakTopics(attempts) && b.topicId == topicId) <==>
                  |on| > 0 && Percent(c, n) < WeakBelow)
            && forall b :: b in WeakTopics(attempts) && b.topicId == topicId ==>
                  b == TopicBreakdown(topicId, TopicName(topicId), c, n, Percent(c, n))
  {
    var combined := Combined(Recent(attempts));
    CombinedPerTopic(Recent(attempts), topicId);
    RowsTopic(combined, topicId);
    var k := FindTopic(combined, topicId);
    if k >= 0 {
      assert Rows(combined)[k] in Rows(combined);
    }
  }

  /** Only the last five finished attempts count: an older attempt in front of the log, or
      any number of unfinished ones, changes nothing once five attempts are finished. */
  lemma OlderAttemptIgnored(a: MockAttempt, attempts: seq<MockAttempt>)
    requires |Filter(attempts, HasResult)| >= RecentFinished
    ensures WeakTopics([a] + attempts) == WeakTopics(attempts)
  {
    FilterAppend([a], attempts, HasResult);
    LastOfAppend(Filter([a], HasResult), Filter(attempts, HasResult), RecentFinished);
    assert Recent([a] + attempts) == Recent(attempts);
  }

  /** finishAttempt's topic breakdown loop: one `topicMap` entry per topic, in the order the
      topics first appear. */
  method TallyTopics(responses: seq<Response>) returns (rows: seq<TopicTally>)
    ensures rows == Tallies(responses)
  {
    rows := [];
    for i := 0 to |responses|
      invariant rows == Tallies(responses[..i])
    {
      var resp := responses[i];
      TalliesStep(responses, i);
      rows := AddTo(rows, resp.topicId, if resp.correct then 1 else 0, 1);
    }
    assert responses[..|responses|] == responses;
  }

  lemma TalliesStep(rs: seq<Response>, i: nat)
    requires i < |rs|
    ensures Tallies(rs[..i + 1]) == AddTo(Tallies(rs[..i]), rs[i].topicId, if rs[i].correct then 1 else 0, 1)
  {
    assert rs[..i + 1][..i] == rs[..i];
  }

  lemma AddBreakdownStep(rows: seq<TopicTally>, tbs: seq<TopicBreakdown>, j: nat)
    requires j < |tbs|
    ensures AddBreakdown(rows, tbs[..j + 1]) == AddTo(AddBreakdown(rows, tbs[..j]), tbs[j].topicId, tbs[j].correct, tbs[j].total)
  {
    assert tbs[..j + 1][..j] == tbs[..j];
  }

  lemma CombinedStep(recent: seq<MockAttempt>, i: nat)
    requires i < |recent|
    ensures Combined(recent[..i + 1]) == AddBreakdown(Combined(recent[..i]), ResultRows(recent[i]))
  {
    assert recent[..i + 1][..i] == recent[..i];
  }

  /** One turn of getWeakTopicsFromMocks's outer loop: an attempt's rows folded into the sums. */
  method AddRows(combined: seq<TopicTally>, tbs: seq<TopicBreakdown>) returns (acc: seq<TopicTally>)
    ensures acc == AddBreakdown(combined, tbs)
  {
    acc := combined;
    for j := 0 to |tbs|
      invariant acc == AddBreakdown(combined, tbs[..j])
    {
      AddBreakdownStep(combined, tbs, j);
      acc := AddTo(acc, tbs[j].topicId, tbs[j].correct, tbs[j].total);
    }
    assert tbs[..|tbs|] == tbs;
  }

  /** The outbox after an attempt is finished: the attempt summary, then the MOCK_FINISHED
      event. */
  function FinishPushed(st: Sync.EngineState, a: MockAttempt, r: MockResult, studentId: Option<string>,
                        online: bool, summaryStamp: Sync.Stamp, eventStamp: Sync.Stamp,
                        startedIso: string, finishedIso: string): Sync.EngineState
  {
    var afterSummary := Sync.AfterPush(st, Sync.Attempt,
      Sync.AttemptPayload(summaryStamp.generatedId, SummaryOf(a, r, startedIso, finishedIso)),
      studentId, summaryStamp.itemId, summaryStamp.at, online);
    Sync.AfterPush(afterSummary, Sync.Events,
      Sync.EventPayload(eventStamp.generatedId, "MOCK_FINISHED", eventStamp.at, Some(FinishedEvent(r))),
      studentId, eventStamp.itemId, eventStamp.at, online)
  }

  /** The stored log. */
  class MockStore {
    var attempts: seq<MockAttempt>

    ghost predicate Valid()
      reads this
    {
      |attempts| <= MaxAttempts
    }

    constructor ()
      ensures Valid() && attempts == []
    {
      attempts := [];
    }

    /** createAttempt: `id` stands for the generated `mock_<time>_<random>` id. */
    method CreateAttempt(kind: string, questionCount: int, timeLimitMin: int, passThreshold: int,
                         id: string, now: int) returns (created: string)
      requires Valid()
      modifies this
      ensures Valid()
      ensures created == id
      ensures attempts == Created(old(attempts),
                MockAttempt(id, kind, now, None, timeLimitMin, passThreshold, questionCount, [], None))
    {
      attempts := attempts + [MockAttempt(id, kind, now, None, timeLimitMin, passThreshold, questionCount, [], None)];
      if |attempts| > MaxAttempts {
        attempts := Last(attempts, MaxAttempts);
      }
      created := id;
    }

    /** finishAttempt: an unknown id returns none and changes nothing. Otherwise the first
        attempt with that id gets its finish time, responses and result, and the attempt
        summary and then the MOCK_FINISHED event are pushed to the outbox.
        `startedIso` and `finishedIso` are the ISO forms of the two times. */
    method FinishAttempt(attemptId: string, responses: seq<Response>, now: int,
                         sync: Sync.SyncEngine, studentId: Option<string>, online: bool,
                         summaryStamp: Sync.Stamp, eventStamp: Sync.Stamp,
                         startedIso: string, finishedIso: string)
      returns (result: Option<MockResult>)
      requires Valid() && sync.Valid()
      modifies this, sync
      ensures Valid() && sync.Valid()
      ensures FindAttempt(old(attempts), attemptId) == -1 ==>
                result == None && attempts == old(attempts) && sync.State() == old(sync.State())
      ensures var k := FindAttempt(old(attempts), attemptId);
              k >= 0 ==>
                var a := old(attempts)[k];
                var r := ResultOf(responses, a.passThreshold);
                && result == Some(r)
                && attempts == old(attempts)[k := a.(finishedAt := Some(now), responses := responses, result := Some(r))]
                && sync.State() == FinishPushed(old(sync.State()), a, r, studentId, online, summaryStamp,
                                                eventStamp, startedIso, finishedIso)
    {
      var k := FindAttempt(attempts, attemptId);
      if k == -1 {
        return None;
      }
      var a := attempts[k];
      var rows := TallyTopics(responses);
      var correct := |Filter(responses, IsCorrect)|;
      var r := MockResult(|responses|, correct, |responses| - correct, Percent(correct, |responses|),
                          correct >= a.passThreshold, SortBy(Rows(rows), Accuracy));
      assert r == ResultOf(responses, a.passThreshold);
      attempts := attempts[k := a.(finishedAt := Some(now), responses := responses, result := Some(r))];

      sync.SyncAttemptSummary(SummaryOf(a, r, startedIso, finishedIso), studentId, online, summaryStamp);
      sync.SyncEvent("MOCK_FINISHED", Some(FinishedEvent(r)), studentId, online, eventStamp);
      result := Some(r);
    }

    /** getAttempts: the log, newest first. */
    function GetAttempts(): (r: seq<MockAttempt>)
      reads this
      ensures |r| == |attempts|
      ensures forall i :: 0 <= i < |attempts| ==> r[i] == attempts[|attempts| - 1 - i]
    {
      Reverse(attempts)
    }

    /** getLatestResult. */
    function GetLatestResult(): (r: Option<MockResult>)
      reads this
      ensures r == LatestResult(attempts)
    {
      LatestResult(attempts)
    }

    /** getWeakTopicsFromMocks: sums the recent attempts' rows in nested loops, then keeps
        the weak topics, weakest first. */
    method WeakTopicsFromMocks() returns (ws: seq<TopicBreakdown>)
      ensures ws == WeakTopics(attempts)
    {
      var recent := Recent(attempts);
      var combined: seq<TopicTally> := [];
      for i := 0 to |recent|
        invariant combined == Combined(recent[..i])
      {
        CombinedStep(recent, i);
        combined := AddRows(combined, ResultRows(recent[i]));
      }
      assert recent[..|recent|] == recent;
      ws := SortBy(Filter(Rows(combined), IsWeak), Accuracy);
    }
  }
}
