/** The daily session: about ten questions a day, chosen due reviews first, then questions
    from weak topics, then a random fill; a log of the last seven days' sessions; and the
    completion tracking that reports a finished session to the CRM. Days are whole numbers,
    so sorting the ISO date keys is sorting numbers. */
module Daily {
  import opened Wrappers
  import opened Seqs
  import Sync
  import Progress
  import Streak
  import Mock

  const DailyQuestionCount: int := 10
  /** How many days of sessions the log keeps. */
  const KeptDays: nat := 7
  /** The minutes a daily session is reported as. */
  const SessionMinutes: int := 5

  /** The ids of s, each at its first occurrence, in order. */
  function Dedup(s: seq<string>): (r: seq<string>)
    ensures Distinct(r)
    ensures forall x :: x in r <==> x in s
    ensures |r| <= |s|
    decreases |s|
  {
    if s == [] then []
    else
      var n := |s| - 1;
      var d := Dedup(s[..n]);
      assert forall x :: x in s <==> x in s[..n] || x == s[n] by {
        assert s == s[..n] + [s[n]];
      }
      if s[n] in d then d else d + [s[n]]
  }

  /** Reading more ids only adds to the end. */
  lemma {:induction false} DedupPrefix(a: seq<string>, b: seq<string>)
    ensures Dedup(a) <= Dedup(a + b)
    decreases |b|
  {
    if b == [] {
      assert a + b == a;
    } else {
      var n := |b| - 1;
      assert (a + b)[..|a + b| - 1] == a + b[..n];
      DedupPrefix(a, b[..n]);
    }
  }

  lemma DedupSnoc(s: seq<string>, x: string)
    ensures Dedup(s + [x]) == if x in s then Dedup(s) else Dedup(s) + [x]
  {
    assert (s + [x])[..|s|] == s;
  }

  /** A duplicate-free list holds one entry per distinct id. */
  lemma DedupCount(s: seq<string>)
    ensures |Dedup(s)| == |Elems(s)|
  {
    DistinctCard(Dedup(s));
    assert Elems(Dedup(s)) == Elems(s);
  }

  /** The first `count` of s, nothing for a count of zero or less. */
  function Cut(s: seq<string>, count: int): (r: seq<string>)
    ensures r <= s
    ensures |r| == if count <= 0 then 0 else if count < |s| then count else |s|
  {
    if count <= 0 then [] else if count < |s| then s[..count] else s
  }

  /** One of buildDailySession's three loops: each id not yet used is taken, until
      `count` are selected. */
  method Fill(selected: seq<string>, used: set<string>, ids: seq<string>, count: int, ghost before: seq<string>)
    returns (selected': seq<string>, used': set<string>)
    requires selected == Cut(Dedup(before), count)
    requires forall x :: x in used <==> x in selected
    ensures selected' == Cut(Dedup(before + ids), count)
    ensures forall x :: x in used' <==> x in selected'
  {
    selected', used' := selected, used;
    assert before + ids[..0] == before;
    for i := 0 to |ids|
      invariant selected' == Cut(Dedup(before + ids[..i]), count)
      invariant forall x :: x in used' <==> x in selected'
    {
      if |selected'| >= count {
        FillFull(before, ids, i, selected', count);
        return;
      }
      FillStep(before, ids, i, selected', used', count);
      var id := ids[i];
      if id !in used' {
        selected' := selected' + [id];
        used' := used' + {id};
      }
    }
    assert ids[..|ids|] == ids;
  }

  /** Once `count` ids are selected, the ids after the i-th change nothing. */
  lemma FillFull(before: seq<string>, ids: seq<string>, i: nat, selected: seq<string>, count: int)
    requires i <= |ids|
    requires selected == Cut(Dedup(before + ids[..i]), count) && |selected| >= count
    ensures selected == Cut(Dedup(before + ids), count)
  {
    DedupPrefix(before + ids[..i], ids[i..]);
    assert before + ids[..i] + ids[i..] == before + ids;
  }

  /** Below `count`, the i-th id is taken exactly when it is not in use yet. */
  lemma FillStep(before: seq<string>, ids: seq<string>, i: nat, selected: seq<string>,
                 used: set<string>, count: int)
    requires i < |ids|
    requires selected == Cut(Dedup(before + ids[..i]), count) && |selected| < count
    requires forall x :: x in used <==> x in selected
    ensures Cut(Dedup(before + ids[..i + 1]), count)
              == if ids[i] in used then selected else selected + [ids[i]]
  {
    var pre := before + ids[..i];
    assert before + ids[..i + 1] == pre + [ids[i]];
    assert selected == Dedup(pre);
    DedupSnoc(pre, ids[i]);
  }

  /** buildDailySession: `shuffled` is `allQuestionIds` in the order the random sort left
      it, so it holds the same ids. The selection is the first `count` distinct ids of the
      due ids, then the weak-topic ids, then the shuffled ones. */
  method BuildDailySession(due: seq<string>, weak: seq<string>, all: seq<string>, shuffled: seq<string>,
                           count: int)
    returns (selected: seq<string>)
    requires multiset(shuffled) == multiset(all)
    ensures selected == Cut(Dedup(due + weak + shuffled), count)
  {
    var used: set<string> := {};
    selected := [];
    selected, used := Fill(selected, used, due, count, []);
    assert [] + due == due;
    selected, used := Fill(selected, used, weak, count, due);
    selected, used := Fill(selected, used, shuffled, count, due + weak);
  }

  /** The selection has no duplicates, holds at most `count` ids, and takes each from one
      of the three inputs; when the inputs hold at least `count` distinct ids it holds
      exactly `count`. */
  lemma SelectionFacts(due: seq<string>, weak: seq<string>, all: seq<string>, shuffled: seq<string>, count: int)
    requires multiset(shuffled) == multiset(all)
    ensures var sel := Cut(Dedup(due + weak + shuffled), count);
      && Distinct(sel)
      && (count >= 0 ==> |sel| <= count)
      && (forall x :: x in sel ==> x in due || x in weak || x in all)
      && (count >= 0 && |Elems(due + weak + all)| >= count ==> |sel| == count)
  {
    var s := due + weak + shuffled;
    var sel := Cut(Dedup(s), count);
    PrefixDistinct(Dedup(s), sel);
    assert forall x :: x in shuffled <==> x in all by {
      forall x ensures x in shuffled <==> x in all {
        assert x in shuffled <==> x in multiset(shuffled);
        assert x in all <==> x in multiset(all);
      }
    }
    assert forall x :: x in sel ==> x in s by {
      forall x | x in sel ensures x in s {
        var i :| 0 <= i < |sel| && sel[i] == x;
        assert Dedup(s)[i] == x;
      }
    }
    assert Elems(due + weak + all) == Elems(s);
    DedupCount(s);
  }

  /** Due ids come first, in their order: the selection starts with the distinct due ids,
      or is made of them alone when there are at least `count`. */
  lemma DueFirst(due: seq<string>, rest: seq<string>, count: int)
    ensures var sel := Cut(Dedup(due + rest), count);
            sel == Cut(Dedup(due), count) || Dedup(due) <= sel
  {
    DedupPrefix(due, rest);
  }

  datatype DailySession = DailySession(dateKey: int, questionIds: seq<string>, completedIds: seq<string>,
                                       completed: bool)

  /** markCompleted on the session: the id is recorded once, and the session is complete
      exactly when at least as many ids are recorded as it has questions. */
  function Marked(s: DailySession, questionId: string): (r: DailySession)
    ensures r.dateKey == s.dateKey && r.questionIds == s.questionIds
    ensures questionId in r.completedIds
    ensures r.completedIds == if questionId in s.completedIds then s.completedIds else s.completedIds + [questionId]
    ensures r.completed <==> |r.completedIds| >= |r.questionIds|
    ensures Distinct(s.completedIds) ==> Distinct(r.completedIds)
  {
    var ids := if questionId in s.completedIds then s.completedIds else s.completedIds + [questionId];
    s.(completedIds := ids, completed := |ids| >= |s.questionIds|)
  }

  /** Marking the same id again changes nothing, so a completed session stays completed
      and, since the report depends only on the completed flag, is reported again. */
  lemma MarkedIdempotent(s: DailySession, questionId: string)
    ensures Marked(Marked(s, questionId), questionId) == Marked(s, questionId)
  {}

  /** Marking every question of a session, in any order and with repeats, completes it;
      the flag is only set by a call, so at least one mark is made. */
  lemma {:induction false} MarkAllCompletes(s: DailySession, marks: seq<string>)
    requires marks != []
    requires forall q :: q in s.questionIds ==> q in marks
    requires Distinct(s.questionIds) && Distinct(s.completedIds)
    ensures MarkAll(s, marks).completed
  {
    var r := MarkAll(s, marks);
    MarkAllRecords(s, marks);
    assert Elems(s.questionIds) <= Elems(r.completedIds);
    DistinctCard(s.questionIds);
    MarkAllDistinct(s, marks);
    DistinctCard(r.completedIds);
    SubsetCard(Elems(s.questionIds), Elems(r.completedIds));
  }

  lemma SubsetCard(a: set<string>, b: set<string>)
    requires a <= b
    ensures |a| <= |b|
  {
    assert b == a + (b - a);
  }

  function MarkAll(s: DailySession, marks: seq<string>): DailySession
    decreases |marks|
  {
    if marks == [] then s
    else MarkAll(Marked(s, marks[0]), marks[1..])
  }

  lemma {:induction false} MarkAllRecords(s: DailySession, marks: seq<string>)
    ensures forall q :: q in marks || q in s.completedIds ==> q in MarkAll(s, marks).completedIds
    ensures MarkAll(s, marks).questionIds == s.questionIds
    ensures MarkAll(s, marks).completed <==>
      if marks == [] then s.completed else |MarkAll(s, marks).completedIds| >= |s.questionIds|
    decreases |marks|
  {
    if marks != [] {
      MarkAllRecords(Marked(s, marks[0]), marks[1..]);
      forall q | q in marks ensures q == marks[0] || q in marks[1..] {
        var i :| 0 <= i < |marks| && marks[i] == q;
        if i > 0 { assert marks[1..][i - 1] == q; }
      }
    }
  }

  lemma {:induction false} MarkAllDistinct(s: DailySession, marks: seq<string>)
    requires Distinct(s.completedIds)
    ensures Distinct(MarkAll(s, marks).completedIds)
    decreases |marks|
  {
    if marks != [] {
      MarkAllDistinct(Marked(s, marks[0]), marks[1..]);
    }
  }

  /** The DAILY_COMPLETED event's payload. */
  function CompletedEvent(s: DailySession): (p: map<string, Sync.Json>)
    ensures p.Keys == {"questions", "correct"}
    ensures p["questions"] == Sync.JNum(|s.questionIds|) && p["correct"] == Sync.JNum(|s.completedIds|)
  {
    map["questions" := Sync.JNum(|s.questionIds|), "correct" := Sync.JNum(|s.completedIds|)]
  }

  /** The daily snapshot sent with it: five minutes, the overall answered and correct
      counts, the accuracy, the streak, the due count and the three weakest mock topics. */
  function SnapshotOf(overall: Progress.Stats, accuracy: nat, streak: Streak.StreakData, dueCount: nat,
                      weakTopics: seq<Mock.TopicBreakdown>): (d: Sync.DailySnapshot)
    ensures d.minutes == SessionMinutes
    ensures d.questionsAnswered == overall.answered && d.correct == overall.correct && d.accuracy == accuracy
    ensures d.streakCurrent == streak.currentStreak && d.streakLongest == streak.longestStreak
    ensures d.dueCount == dueCount
    ensures d.topWeakTopics.Some? && |d.topWeakTopics.value| == if |weakTopics| < 3 then |weakTopics| else 3
    ensures forall i :: 0 <= i < |d.topWeakTopics.value| ==>
              d.topWeakTopics.value[i] == (weakTopics[i].topicId, weakTopics[i].accuracy as int)
  {
    var top := Take(weakTopics, 3);
    Sync.DailySnapshot(SessionMinutes, overall.answered, overall.correct, accuracy,
                       streak.currentStreak, streak.longestStreak, dueCount,
                       Some(seq(|top|, i requires 0 <= i < |top| => (top[i].topicId, top[i].accuracy as int))))
  }

  /** The outbox after a completed session is reported: the DAILY_COMPLETED event, then
      the daily snapshot. */
  function CompletionPushed(st: Sync.EngineState, s: DailySession, studentId: Option<string>, online: bool,
                            eventStamp: Sync.Stamp, snapshotStamp: Sync.Stamp, dateKey: string,
                            snapshot: Sync.DailySnapshot): Sync.EngineState
  {
    var afterEvent := Sync.AfterPush(st, Sync.Events,
      Sync.EventPayload(eventStamp.generatedId, "DAILY_COMPLETED", eventStamp.at, Some(CompletedEvent(s))),
      studentId, eventStamp.itemId, eventStamp.at, online);
    Sync.AfterPush(afterEvent, Sync.Daily, Sync.DailyPayload(dateKey, snapshot, snapshotStamp.at),
                   studentId, snapshotStamp.itemId, snapshotStamp.at, online)
  }

  /** `Object.keys(sessions).sort()`: the dates, oldest first. */
  method SortedKeys(sessions: map<int, DailySession>) returns (keys: seq<int>)
    ensures forall i, j :: 0 <= i < j < |keys| ==> keys[i] < keys[j]
    ensures forall k :: k in keys <==> k in sessions
  {
    var collected := CollectKeys(sessions);
    keys := SortBy(collected, Identity);
    SortedStrictly(collected, keys);
  }

  /** `Object.keys(sessions)`: every key once, in no particular order. */
  method CollectKeys(sessions: map<int, DailySession>) returns (collected: seq<int>)
    ensures forall k :: k in collected <==> k in sessions
    ensures Distinct(collected)
  {
    var rest := sessions.Keys;
    collected := [];
    while rest != {}
      invariant forall k :: k in sessions <==> k in collected || k in rest
      invariant forall k :: k in collected ==> k !in rest
      invariant Distinct(collected)
      decreases |rest|
    {
      var k := Pick(rest);
      collected := collected + [k];
      rest := rest - {k};
    }
  }

  /** Sorting distinct numbers puts them in strictly increasing order. */
  lemma SortedStrictly(collected: seq<int>, keys: seq<int>)
    requires Distinct(collected) && keys == SortBy(collected, Identity)
    ensures forall i, j :: 0 <= i < j < |keys| ==> keys[i] < keys[j]
    ensures forall k :: k in keys <==> k in collected
  {
    SortByMembers(collected, Identity);
    PermutationDistinct(collected, keys);
    assert Distinct(keys) && SortedBy(keys, Identity);
    forall i, j | 0 <= i < j < |keys| ensures keys[i] < keys[j] {
      assert keys[i] != keys[j];
      assert Identity(keys[i]) <= Identity(keys[j]);
    }
  }

  function Identity(k: int): int { k }

  method Pick<T>(s: set<T>) returns (k: T)
    requires s != {}
    ensures k in s
  {
    k :| k in s;
  }

  /** The `while (keys.length > 7) delete data.sessions[keys.shift()]` loop: the oldest
      days are dropped until seven remain, so the seven latest are kept, the latest always. */
  method KeepLatest(m: map<int, DailySession>, sorted: seq<int>) returns (kept: map<int, DailySession>)
    requires forall i, j :: 0 <= i < j < |sorted| ==> sorted[i] < sorted[j]
    requires forall k :: k in sorted <==> k in m
    ensures kept.Keys <= m.Keys
    ensures forall k :: k in kept ==> kept[k] == m[k]
    ensures |kept| == (if |m| < KeptDays then |m| else KeptDays)
    ensures forall k, d :: k in kept && d in m && d !in kept ==> d < k
    ensures forall d :: d in m && (forall k :: k in m ==> k <= d) ==> d in kept
  {
    kept := m;
    var n := 0;
    while |sorted| - n > KeptDays
      invariant 0 <= n <= |sorted|
      invariant |sorted| - n >= KeptDays || n == 0
      invariant n == 0 || n < |sorted|
      invariant forall k :: k in kept <==> k in sorted[n..]
      invariant forall k :: k in kept ==> kept[k] == m[k]
      decreases |sorted| - n
    {
      kept := kept - {sorted[n]};
      n := n + 1;
    }
    SuffixKept(sorted, n, m, kept);
  }

  lemma SuffixKept(sorted: seq<int>, n: nat, m: map<int, DailySession>, kept: map<int, DailySession>)
    requires forall i, j :: 0 <= i < j < |sorted| ==> sorted[i] < sorted[j]
    requires forall k :: k in sorted <==> k in m
    requires n <= |sorted|
    requires forall k :: k in kept <==> k in sorted[n..]
    requires n == 0 || n < |sorted|
    ensures |kept| == |sorted| - n && |m| == |sorted|
    ensures forall k, d :: k in kept && d in m && d !in kept ==> d < k
    ensures forall d :: d in m && (forall k :: k in m ==> k <= d) ==> d in kept
  {
    SortedCount(sorted[n..], kept);
    SortedCount(sorted, m);
    forall k, d | k in kept && d in m && d !in kept ensures d < k {
      DroppedBelowKept(sorted, n, k, d);
    }
    forall d | d in m && (forall k :: k in m ==> k <= d) ensures d in kept {
      LatestKept(sorted, n, d);
    }
  }

  /** A key shifted off the sorted list is below every key left in it. */
  lemma DroppedBelowKept(sorted: seq<int>, n: nat, k: int, d: int)
    requires forall i, j :: 0 <= i < j < |sorted| ==> sorted[i] < sorted[j]
    requires n <= |sorted|
    requires k in sorted[n..] && d in sorted && d !in sorted[n..]
    ensures d < k
  {
    var i :| 0 <= i < |sorted| && sorted[i] == d;
    var j :| 0 <= j < |sorted| - n && sorted[n..][j] == k;
    assert sorted[n + j] == k;
  }

  /** The greatest key is never shifted off while a key remains. */
  lemma LatestKept(sorted: seq<int>, n: nat, d: int)
    requires forall i, j :: 0 <= i < j < |sorted| ==> sorted[i] < sorted[j]
    requires n < |sorted|
    requires d in sorted && forall k :: k in sorted ==> k <= d
    ensures d in sorted[n..]
  {
    var i :| 0 <= i < |sorted| && sorted[i] == d;
    var last := sorted[|sorted| - 1];
    assert last in sorted;
    assert i == |sorted| - 1;
    assert sorted[n..][|sorted| - 1 - n] == d;
  }

  /** The stored sessions, keyed by day. */
  class DailyStore {
    var sessions: map<int, DailySession>

    constructor ()
      ensures sessions == map[]
    {
      sessions := map[];
    }

    /** getTodaySession. */
    function GetTodaySession(today: int): (r: Option<DailySession>)
      reads this
      ensures r.Some? <==> today in sessions
      ensures r.Some? ==> r.value == sessions[today]
    {
      if today in sessions then Some(sessions[today]) else None
    }

    /** isTodayComplete: false when there is no session today. */
    function IsTodayComplete(today: int): (b: bool)
      reads this
      ensures b <==> today in sessions && sessions[today].completed
    {
      match GetTodaySession(today)
      case Some(s) => s.completed
      case None => false
    }

    /** saveTodaySession: today's session starts over with nothing completed, then the
        oldest days are deleted until seven remain. The days kept are the latest seven, so
        today's session survives unless seven later days are stored. */
    method SaveTodaySession(questionIds: seq<string>, today: int)
      modifies this
      ensures var written := old(sessions)[today := DailySession(today, questionIds, [], false)];
        && sessions.Keys <= written.Keys
        && (forall k :: k in sessions ==> sessions[k] == written[k])
        && |sessions| == (if |written| < KeptDays then |written| else KeptDays)
        && (forall k, d :: k in sessions && d in written && d !in sessions ==> d < k)
      ensures (forall k :: k in old(sessions) ==> k <= today) ==>
                today in sessions && sessions[today] == DailySession(today, questionIds, [], false)
    {
      var m := sessions[today := DailySession(today, questionIds, [], false)];
      var keys := SortedKeys(m);
      sessions := KeepLatest(m, keys);
    }

    /** markCompleted: nothing without a session today. Otherwise the id is recorded and,
        whenever the session is complete afterwards, the DAILY_COMPLETED event and then the
        daily snapshot are pushed to the outbox. The snapshot's figures come from the other
        stores and are passed in, as is `dateKey`, today's ISO date. */
    method MarkCompleted(questionId: string, today: int,
                         sync: Sync.SyncEngine, studentId: Option<string>, online: bool,
                         eventStamp: Sync.Stamp, snapshotStamp: Sync.Stamp, dateKey: string,
                         overall: Progress.Stats, accuracy: nat, streak: Streak.StreakData, dueCount: nat,
                         weakTopics: seq<Mock.TopicBreakdown>)
      returns (fired: bool)
      requires sync.Valid()
      modifies this, sync
      ensures sync.Valid()
      ensures today !in old(sessions) ==>
                sessions == old(sessions) && sync.State() == old(sync.State()) && !fired
      ensures today in old(sessions) ==>
                var s := Marked(old(sessions)[today], questionId);
                && sessions == old(sessions)[today := s]
                && (fired <==> s.completed)
                && (!fired ==> sync.State() == old(sync.State()))
                && (fired ==> sync.State() == CompletionPushed(old(sync.State()), s, studentId, online, eventStamp,
                                                               snapshotStamp, dateKey,
                                                               SnapshotOf(overall, accuracy, streak, dueCount, weakTopics)))
    {
      if today !in sessions {
        return false;
      }
      var session := sessions[today];
      if questionId !in session.completedIds {
        session := session.(completedIds := session.completedIds + [questionId]);
      }
      session := session.(completed := |session.completedIds| >= |session.questionIds|);
      sessions := sessions[today := session];
      fired := session.completed;
      if session.completed {
        sync.SyncEvent("DAILY_COMPLETED", Some(CompletedEvent(session)), studentId, online, eventStamp);
        sync.SyncDailySnapshot(dateKey, SnapshotOf(overall, accuracy, streak, dueCount, weakTopics),
                               studentId, online, snapshotStamp);
      }
    }
  }

  /** A strictly increasing key list holds one entry per key of the map. */
  lemma SortedCount(keys: seq<int>, m: map<int, DailySession>)
    requires forall i, j :: 0 <= i < j < |keys| ==> keys[i] < keys[j]
    requires forall k :: k in keys <==> k in m
    ensures |m| == |keys|
  {
    assert Distinct(keys);
    assert Elems(keys) == m.Keys by {
      forall k ensures k in Elems(keys) <==> k in m.Keys {
        assert k in keys <==> k in m;
      }
    }
    DistinctCard(keys);
  }
}
