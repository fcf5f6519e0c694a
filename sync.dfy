/** The sync engine: a durable outbox of items bound for the CRM, and the flush pass that
    delivers them. Delivery itself is not modelled: a pass is split at its `await` into
    BeginFlush, which reads the outbox, and EndFlush, which is told which of the items
    read were accepted (`res.ok`) and saves what is left. Pushes may happen in between,
    exactly as they can while the browser awaits the requests. */
module Sync {
  import opened Wrappers
  import opened Seqs

  datatype SyncItemType = Daily | Attempt | AiSummary | Events

  /** A JSON value, as far as the payloads need one. */
  datatype Json =
    | JNull
    | JBool(b: bool)
    | JNum(n: int)
    | JStr(s: string)
    | JArr(elems: seq<Json>)
    | JObj(fields: map<string, Json>)

  datatype SyncItem = SyncItem(
    id: string,
    kind: SyncItemType,
    payload: map<string, Json>,
    createdAt: string,
    retries: nat)

  /** A failed item is retried while its retry count is below this; after that it is dropped. */
  const MaxRetries: nat := 5

  /** The engine's state: the stored outbox, the module's `flushing` flag, and the copy of
      the outbox a running pass read before its first `await`. */
  datatype EngineState = EngineState(outbox: seq<SyncItem>, flushing: bool, inFlight: seq<SyncItem>)

  const InitialState := EngineState([], false, [])

  /** What the engine keeps true: no stored item has been retried more than five times, and a
      running pass holds a non-empty copy of the start of the outbox. */
  ghost predicate Inv(s: EngineState) {
    && (forall i :: 0 <= i < |s.outbox| ==> s.outbox[i].retries <= MaxRetries)
    && (forall i :: 0 <= i < |s.inFlight| ==> s.inFlight[i].retries <= MaxRetries)
    && (s.flushing ==> s.inFlight != [] && s.inFlight <= s.outbox)
    && (!s.flushing ==> s.inFlight == [])
  }

  /** `!studentId`: pushing is skipped when there is no CRM student, the empty id included. */
  predicate NoStudent(studentId: Option<string>) {
    studentId == None || studentId == Some("")
  }

  /** The item pushToOutbox builds: the payload with `studentId` added (overriding any
      `studentId` the payload had), no retries yet. */
  function NewItem(id: string, kind: SyncItemType, payload: map<string, Json>, studentId: string,
                   createdAt: string): (item: SyncItem)
    ensures item.retries == 0 && item.kind == kind && item.id == id && item.createdAt == createdAt
    ensures item.payload.Keys == payload.Keys + {"studentId"}
    ensures item.payload["studentId"] == JStr(studentId)
    ensures forall k :: k in payload && k != "studentId" ==> item.payload[k] == payload[k]
  {
    SyncItem(id, kind, payload["studentId" := JStr(studentId)], createdAt, 0)
  }

  /** The synchronous part of flushOutbox: nothing happens while a pass is running or when
      the outbox is empty; otherwise the pass starts and holds a copy of the outbox. */
  function Begin(s: EngineState): (r: EngineState)
    ensures r.outbox == s.outbox
    ensures s.flushing || s.outbox == [] ==> r == s
    ensures !s.flushing && s.outbox != [] ==> r.flushing && r.inFlight == s.outbox
  {
    if s.flushing || s.outbox == [] then s else s.(flushing := true, inFlight := s.outbox)
  }

  /** pushToOutbox: appends the item, then, when the browser is online, starts a pass. */
  function Pushed(s: EngineState, item: SyncItem, online: bool): (r: EngineState)
    ensures r.outbox == s.outbox + [item]
    ensures !online ==> r.flushing == s.flushing && r.inFlight == s.inFlight
  {
    var appended := s.(outbox := s.outbox + [item]);
    if online then Begin(appended) else appended
  }

  /** pushToOutbox as a whole: without a student id nothing happens at all. */
  function AfterPush(s: EngineState, kind: SyncItemType, payload: map<string, Json>,
                     studentId: Option<string>, id: string, createdAt: string, online: bool): (r: EngineState)
    ensures NoStudent(studentId) ==> r == s
    ensures !NoStudent(studentId) ==>
      r.outbox == s.outbox + [NewItem(id, kind, payload, studentId.value, createdAt)]
  {
    if NoStudent(studentId) then s
    else Pushed(s, NewItem(id, kind, payload, studentId.value, createdAt), online)
  }

  /** The identifiers and the time a helper stamps on one push: the outbox item's id, the
      id behind the `att_`/`evt_` prefix, and the ISO time. */
  datatype Stamp = Stamp(itemId: string, generatedId: string, at: string)

  /** What the loop of a pass does to one item: an accepted item goes, a failed one stays
      with one more retry unless it has had five already. */
  function Step(item: SyncItem, ok: bool): seq<SyncItem> {
    if ok then [] else if item.retries < MaxRetries then [item.(retries := item.retries + 1)] else []
  }

  /** x is what a pass keeps of an item that was not accepted: the item with one more retry,
      provided it had been retried fewer than five times. */
  predicate SurvivorOf(x: SyncItem, item: SyncItem, ok: bool) {
    !ok && item.retries < MaxRetries && x == item.(retries := item.retries + 1)
  }

  /** The `remaining` list a pass builds from the items it read. */
  function Remaining(items: seq<SyncItem>, delivered: seq<bool>): (r: seq<SyncItem>)
    requires |items| == |delivered|
    ensures |r| <= |items|
    decreases |items|
  {
    if items == [] then []
    else
      var n := |items| - 1;
      Remaining(items[..n], delivered[..n]) + Step(items[n], delivered[n])
  }

  /** Every survivor of a pass is a failed item that had been retried fewer than five times,
      with one more retry. */
  lemma {:induction false} RemainingOrigins(items: seq<SyncItem>, delivered: seq<bool>)
    requires |items| == |delivered|
    ensures forall x :: x in Remaining(items, delivered) ==>
              exists i :: 0 <= i < |items| && SurvivorOf(x, items[i], delivered[i])
    decreases |items|
  {
    if items != [] {
      var n := |items| - 1;
      var init := Remaining(items[..n], delivered[..n]);
      RemainingOrigins(items[..n], delivered[..n]);
      forall x | x in Remaining(items, delivered)
        ensures exists i :: 0 <= i < |items| && SurvivorOf(x, items[i], delivered[i])
      {
        if x in init {
          var i :| 0 <= i < n && SurvivorOf(x, items[..n][i], delivered[..n][i]);
          assert items[i] == items[..n][i] && delivered[i] == delivered[..n][i];
        } else {
          assert SurvivorOf(x, items[n], delivered[n]);
        }
      }
    }
  }

  /** A pass keeps the survivors in their original order: the result on a concatenation
      is the concatenation of the results. */
  lemma {:induction false} RemainingAppend(a: seq<SyncItem>, da: seq<bool>, b: seq<SyncItem>, db: seq<bool>)
    requires |a| == |da| && |b| == |db|
    ensures Remaining(a + b, da + db) == Remaining(a, da) + Remaining(b, db)
  {
    if b == [] {
      assert a + b == a && da + db == da;
    } else {
      var n := |b| - 1;
      var ab, dab := a + b, da + db;
      AppendInit(a, b);
      AppendInit(da, db);
      var last := Step(b[n], db[n]);
      assert Remaining(ab, dab) == Remaining(a + b[..n], da + db[..n]) + last;
      assert Remaining(b, db) == Remaining(b[..n], db[..n]) + last;
      RemainingAppend(a, da, b[..n], db[..n]);
    }
  }

  ghost predicate DistinctIds(items: seq<SyncItem>) {
    forall i, j :: 0 <= i < j < |items| ==> items[i].id != items[j].id
  }

  /** Once a pass ends, no item that was delivered is left in what it saves. */
  lemma DeliveredLeave(items: seq<SyncItem>, delivered: seq<bool>, k: nat)
    requires |items| == |delivered| && DistinctIds(items)
    requires k < |items| && delivered[k]
    ensures forall x :: x in Remaining(items, delivered) ==> x.id != items[k].id
  {
    RemainingOrigins(items, delivered);
  }

  /** A failed item that still has retries left survives the pass with one more retry. */
  lemma {:induction false} FailedStays(items: seq<SyncItem>, delivered: seq<bool>, k: nat)
    requires |items| == |delivered| && k < |items|
    requires !delivered[k] && items[k].retries < MaxRetries
    ensures items[k].(retries := items[k].retries + 1) in Remaining(items, delivered)
    decreases |items|
  {
    var n := |items| - 1;
    if k < n {
      FailedStays(items[..n], delivered[..n], k);
    }
  }

  /** A failed item that has had its five retries leaves the outbox in that pass. */
  lemma ExhaustedDropped(items: seq<SyncItem>, delivered: seq<bool>, k: nat)
    requires |items| == |delivered| && DistinctIds(items)
    requires k < |items| && !delivered[k] && items[k].retries >= MaxRetries
    ensures forall x :: x in Remaining(items, delivered) ==> x.id != items[k].id
  {
    RemainingOrigins(items, delivered);
  }

  /** What is left of an item after n passes that all failed to deliver it: None once it
      has been dropped. */
  function AfterFailures(item: SyncItem, n: nat): Option<SyncItem>
    decreases n
  {
    if n == 0 then Some(item)
    else match AfterFailures(item, n - 1)
      case None => None
      case Some(x) => var left := Step(x, false); if left == [] then None else Some(left[0])
  }

  /** A new item survives five failed passes, with five retries after the fifth, and is
      gone after the sixth. */
  lemma {:induction false} FailingItemLifetime(item: SyncItem, n: nat)
    requires item.retries == 0
    ensures n <= MaxRetries ==> AfterFailures(item, n) == Some(item.(retries := n))
    ensures n > MaxRetries ==> AfterFailures(item, n) == None
    decreases n
  {
    if n > 0 {
      FailingItemLifetime(item, n - 1);
    }
  }

  /** The end of a pass as written: the outbox is overwritten with what is left of the
      copy the pass read, whatever was pushed meanwhile. */
  function EndAsWritten(s: EngineState, delivered: seq<bool>): (r: EngineState)
    requires s.flushing && |delivered| == |s.inFlight|
    ensures !r.flushing && r.inFlight == []
    ensures r.outbox == Remaining(s.inFlight, delivered)
  {
    EngineState(Remaining(s.inFlight, delivered), false, [])
  }

  /** The end of a pass as intended: what is left of the copy the pass read, followed by the
      items pushed since it started. */
  function End(s: EngineState, delivered: seq<bool>): (r: EngineState)
    requires Inv(s) && s.flushing && |delivered| == |s.inFlight|
    ensures Inv(r)
    ensures !r.flushing && r.inFlight == []
    ensures |r.outbox| <= |s.outbox|
    ensures r.outbox == Remaining(s.inFlight, delivered) + s.outbox[|s.inFlight|..]
  {
    var left := Remaining(s.inFlight, delivered);
    var r := EngineState(left + s.outbox[|s.inFlight|..], false, []);
    assert forall i :: 0 <= i < |left| ==> left[i].retries <= MaxRetries by {
      RemainingOrigins(s.inFlight, delivered);
      forall i | 0 <= i < |left| ensures left[i].retries <= MaxRetries {
        assert left[i] in left;
      }
    }
    assert forall i :: 0 <= i < |r.outbox| ==> r.outbox[i].retries <= MaxRetries by {
      forall i | 0 <= i < |r.outbox| ensures r.outbox[i].retries <= MaxRetries {
        if i >= |left| {
          assert r.outbox[i] == s.outbox[|s.inFlight| + i - |left|];
        }
      }
    }
    r
  }

  /** Pushing keeps the invariant. */
  lemma PushedInv(s: EngineState, item: SyncItem, online: bool)
    requires Inv(s) && item.retries == 0
    ensures Inv(Pushed(s, item, online))
  {
    var r := Pushed(s, item, online);
    assert forall i :: 0 <= i < |r.outbox| ==> r.outbox[i].retries <= MaxRetries by {
      forall i | 0 <= i < |r.outbox| ensures r.outbox[i].retries <= MaxRetries {
        if i < |s.outbox| { assert r.outbox[i] == s.outbox[i]; }
      }
    }
    if s.flushing {
      assert s.inFlight <= s.outbox + [item];
    }
  }

  /** Two pushes in a row while online, the first delivered and the second not yet sent:
      as written, the pass that the first push started saves an empty outbox and the second
      item is gone without ever being sent. */
  lemma PushDuringFlushLost(a: SyncItem, b: SyncItem)
    requires a.retries == 0 && b.retries == 0
    ensures var s := Pushed(Pushed(InitialState, a, true), b, true);
            s.flushing && s.inFlight == [a] && s.outbox == [a, b]
            && EndAsWritten(s, [true]).outbox == []
  {
    assert InitialState.outbox + [a] == [a];
    assert [a] + [b] == [a, b];
    assert Remaining([a], [true]) == Remaining([], []) + Step(a, true) by {
      assert [a][..0] == [] && [true][..0] == [];
    }
  }

  /** The same two pushes with the intended end of the pass: the second item is still
      waiting in the outbox. */
  lemma PushDuringFlushKept(a: SyncItem, b: SyncItem)
    requires a.retries == 0 && b.retries == 0
    ensures var s := Pushed(Pushed(InitialState, a, true), b, true);
            Inv(s) && End(s, [true]).outbox == [b]
  {
    var s1 := Pushed(InitialState, a, true);
    assert InitialState.outbox + [a] == [a];
    PushedInv(InitialState, a, true);
    var s := Pushed(s1, b, true);
    PushedInv(s1, b, true);
    assert [a] + [b] == [a, b];
    assert Remaining([a], [true]) == Remaining([], []) + Step(a, true) by {
      assert [a][..0] == [] && [true][..0] == [];
    }
  }

  /** Every item pushed while a pass is running outlives the end of the pass. */
  lemma PushedDuringPassSurvive(s: EngineState, delivered: seq<bool>)
    requires Inv(s) && s.flushing && |delivered| == |s.inFlight|
    ensures forall i :: |s.inFlight| <= i < |s.outbox| ==> s.outbox[i] in End(s, delivered).outbox
  {
    var left := Remaining(s.inFlight, delivered);
    var r := End(s, delivered);
    forall i | |s.inFlight| <= i < |s.outbox| ensures s.outbox[i] in r.outbox {
      assert r.outbox[|left| + i - |s.inFlight|] == s.outbox[i];
    }
  }

  /** The loop of flushOutbox: delivered items leave, failed ones come back with one more
      retry unless they have had five. */
  method Survivors(items: seq<SyncItem>, delivered: seq<bool>) returns (remaining: seq<SyncItem>)
    requires |items| == |delivered|
    ensures remaining == Remaining(items, delivered)
  {
    remaining := [];
    for i := 0 to |items|
      invariant remaining == Remaining(items[..i], delivered[..i])
    {
      assert items[..i + 1][..i] == items[..i];
      assert delivered[..i + 1][..i] == delivered[..i];
      var item := items[i];
      if delivered[i] {
        continue;
      }
      if item.retries < MaxRetries {
        remaining := remaining + [item.(retries := item.retries + 1)];
      }
    }
    assert items[..|items|] == items && delivered[..|delivered|] == delivered;
  }

  /** The engine: the stored outbox, the `flushing` flag, and the copy a running pass holds. */
  class SyncEngine {
    var outbox: seq<SyncItem>
    var flushing: bool
    var inFlight: seq<SyncItem>

    function State(): EngineState
      reads this
    {
      EngineState(outbox, flushing, inFlight)
    }

    ghost predicate Valid()
      reads this
    {
      Inv(State())
    }

    constructor ()
      ensures Valid() && State() == InitialState
    {
      outbox, flushing, inFlight := [], false, [];
    }

    /** flushOutbox up to its first `await`. `started` tells whether a pass began. */
    method BeginFlush() returns (started: bool)
      requires Valid()
      modifies this
      ensures Valid()
      ensures State() == Begin(old(State()))
      ensures started <==> !old(flushing) && old(outbox) != []
    {
      if flushing {
        return false;
      }
      if outbox == [] {
        return false;
      }
      flushing := true;
      inFlight := outbox;
      started := true;
    }

    /** pushToOutbox: skipped without a student id; otherwise the item goes to the end of
        the outbox and, when online, a pass is started. */
    method Push(kind: SyncItemType, payload: map<string, Json>, studentId: Option<string>,
                id: string, createdAt: string, online: bool)
      requires Valid()
      modifies this
      ensures Valid()
      ensures State() == AfterPush(old(State()), kind, payload, studentId, id, createdAt, online)
    {
      if NoStudent(studentId) {
        return;
      }
      var item := NewItem(id, kind, payload, studentId.value, createdAt);
      PushedInv(State(), item, online);
      outbox := outbox + [item];
      if online {
        var _ := BeginFlush();
      }
    }

    /** syncEvent. */
    method SyncEvent(eventType: string, payload: Option<map<string, Json>>, studentId: Option<string>,
                     online: bool, stamp: Stamp)
      requires Valid()
      modifies this
      ensures Valid()
      ensures State() == AfterPush(old(State()), Events, EventPayload(stamp.generatedId, eventType, stamp.at, payload),
                                   studentId, stamp.itemId, stamp.at, online)
    {
      Push(Events, EventPayload(stamp.generatedId, eventType, stamp.at, payload), studentId, stamp.itemId, stamp.at, online);
    }

    /** syncAttemptSummary. */
    method SyncAttemptSummary(d: AttemptSummary, studentId: Option<string>, online: bool, stamp: Stamp)
      requires Valid()
      modifies this
      ensures Valid()
      ensures State() == AfterPush(old(State()), Attempt, AttemptPayload(stamp.generatedId, d),
                                   studentId, stamp.itemId, stamp.at, online)
    {
      Push(Attempt, AttemptPayload(stamp.generatedId, d), studentId, stamp.itemId, stamp.at, online);
    }

    /** syncDailySnapshot: `dateKey` is today's date in Asia/Ho_Chi_Minh. */
    method SyncDailySnapshot(dateKey: string, d: DailySnapshot, studentId: Option<string>, online: bool, stamp: Stamp)
      requires Valid()
      modifies this
      ensures Valid()
      ensures State() == AfterPush(old(State()), Daily, DailyPayload(dateKey, d, stamp.at),
                                   studentId, stamp.itemId, stamp.at, online)
    {
      Push(Daily, DailyPayload(dateKey, d, stamp.at), studentId, stamp.itemId, stamp.at, online);
    }

    /** syncAiSummary. */
    method SyncAiSummary(d: AiSummaryData, studentId: Option<string>, online: bool, stamp: Stamp)
      requires Valid()
      modifies this
      ensures Valid()
      ensures State() == AfterPush(old(State()), AiSummary, AiSummaryPayload(d, stamp.at),
                                   studentId, stamp.itemId, stamp.at, online)
    {
      Push(AiSummary, AiSummaryPayload(d, stamp.at), studentId, stamp.itemId, stamp.at, online);
    }

    /** flushOutbox from its first `await` on, as the code does it: the flag is cleared and
        the outbox becomes what is left of the copy the pass read, so items pushed in the
        meantime are lost. `delivered[i]` is whether the i-th `fetch` came back ok. */
    method EndFlushAsWritten(delivered: seq<bool>)
      requires Valid() && flushing && |delivered| == |inFlight|
      modifies this
      ensures Valid()
      ensures State() == EndAsWritten(old(State()), delivered)
    {
      var remaining := Survivors(inFlight, delivered);
      RemainingOrigins(inFlight, delivered);
      assert forall i :: 0 <= i < |remaining| ==> remaining[i].retries <= MaxRetries by {
        forall i | 0 <= i < |remaining| ensures remaining[i].retries <= MaxRetries {
          assert remaining[i] in remaining;
        }
      }
      outbox := remaining;
      flushing := false;
      inFlight := [];
    }

    /** flushOutbox from its first `await` on, with the end corrected as recorded in the
        findings: what is left of the copy, then the items pushed meanwhile. */
    method EndFlush(delivered: seq<bool>)
      requires Valid() && flushing && |delivered| == |inFlight|
      modifies this
      ensures Valid()
      ensures State() == End(old(State()), delivered)
    {
      var remaining := Survivors(inFlight, delivered);
      ghost var ended := End(State(), delivered);
      outbox := remaining + outbox[|inFlight|..];
      flushing := false;
      inFlight := [];
      assert State() == ended;
    }

    /** getOutboxCount. */
    function OutboxCount(): (n: nat)
      reads this
      ensures n == |outbox|
    {
      |outbox|
    }
  }

  /** The daily snapshot syncDailySnapshot sends; `topWeakTopics` is optional. */
  datatype DailySnapshot = DailySnapshot(
    minutes: int, questionsAnswered: int, correct: int, accuracy: int,
    streakCurrent: int, streakLongest: int, dueCount: int,
    topWeakTopics: Option<seq<(string, int)>>)

  function WeakTopicsJson(ts: seq<(string, int)>): (j: seq<Json>)
    ensures |j| == |ts|
    ensures forall i :: 0 <= i < |ts| ==>
      j[i] == JObj(map["topicId" := JStr(ts[i].0), "accuracy" := JNum(ts[i].1)])
  {
    seq(|ts|, i requires 0 <= i < |ts| => JObj(map["topicId" := JStr(ts[i].0), "accuracy" := JNum(ts[i].1)]))
  }

  /** `{ dateKey, ...data, lastActiveAt }`, an absent `topWeakTopics` leaving no key. */
  function DailyPayload(dateKey: string, d: DailySnapshot, lastActiveAt: string): (p: map<string, Json>)
    ensures p.Keys == {"dateKey", "minutes", "questionsAnswered", "correct", "accuracy", "streakCurrent",
                       "streakLongest", "dueCount", "lastActiveAt"}
                      + (if d.topWeakTopics.Some? then {"topWeakTopics"} else {})
    ensures p["dateKey"] == JStr(dateKey) && p["lastActiveAt"] == JStr(lastActiveAt)
    ensures p["minutes"] == JNum(d.minutes) && p["questionsAnswered"] == JNum(d.questionsAnswered)
    ensures p["correct"] == JNum(d.correct) && p["accuracy"] == JNum(d.accuracy)
    ensures p["streakCurrent"] == JNum(d.streakCurrent) && p["streakLongest"] == JNum(d.streakLongest)
    ensures p["dueCount"] == JNum(d.dueCount)
    ensures d.topWeakTopics.Some? ==> p["topWeakTopics"] == JArr(WeakTopicsJson(d.topWeakTopics.value))
  {
    var base := map[
      "dateKey" := JStr(dateKey),
      "minutes" := JNum(d.minutes),
      "questionsAnswered" := JNum(d.questionsAnswered),
      "correct" := JNum(d.correct),
      "accuracy" := JNum(d.accuracy),
      "streakCurrent" := JNum(d.streakCurrent),
      "streakLongest" := JNum(d.streakLongest),
      "dueCount" := JNum(d.dueCount),
      "lastActiveAt" := JStr(lastActiveAt)];
    match d.topWeakTopics
    case None => base
    case Some(ts) => base["topWeakTopics" := JArr(WeakTopicsJson(ts))]
  }

  /** One row of an attempt summary's `topicBreakdown`. */
  datatype TopicRow = TopicRow(topicId: string, total: int, correct: int, accuracy: int)

  datatype AttemptSummary = AttemptSummary(
    mode: string, startedAt: string, finishedAt: string, score: int, total: int, accuracy: int,
    topicBreakdown: Option<seq<TopicRow>>)

  /** One breakdown row as sent: its topic, total, correct count and accuracy. */
  function TopicRowJson(t: TopicRow): (j: Json)
    ensures j.JObj? && j.fields.Keys == {"topicId", "total", "correct", "accuracy"}
    ensures j.fields["topicId"] == JStr(t.topicId) && j.fields["total"] == JNum(t.total)
    ensures j.fields["correct"] == JNum(t.correct) && j.fields["accuracy"] == JNum(t.accuracy)
  {
    JObj(map["topicId" := JStr(t.topicId), "total" := JNum(t.total),
             "correct" := JNum(t.correct), "accuracy" := JNum(t.accuracy)])
  }

  /** `{ attemptId: "att_" + generatedId, ...data }`. */
  function AttemptPayload(generatedId: string, d: AttemptSummary): (p: map<string, Json>)
    ensures p.Keys == {"attemptId", "mode", "startedAt", "finishedAt", "score", "total", "accuracy"}
                      + (if d.topicBreakdown.Some? then {"topicBreakdown"} else {})
    ensures p["attemptId"] == JStr("att_" + generatedId)
    ensures p["mode"] == JStr(d.mode) && p["score"] == JNum(d.score) && p["total"] == JNum(d.total)
    ensures p["accuracy"] == JNum(d.accuracy)
    ensures p["startedAt"] == JStr(d.startedAt) && p["finishedAt"] == JStr(d.finishedAt)
    ensures d.topicBreakdown.Some? ==> p["topicBreakdown"].JArr? && |p["topicBreakdown"].elems| == |d.topicBreakdown.value|
    ensures d.topicBreakdown.Some? ==> forall i :: 0 <= i < |d.topicBreakdown.value| ==>
              p["topicBreakdown"].elems[i] == TopicRowJson(d.topicBreakdown.value[i])
  {
    var base := map[
      "attemptId" := JStr("att_" + generatedId),
      "mode" := JStr(d.mode),
      "startedAt" := JStr(d.startedAt),
      "finishedAt" := JStr(d.finishedAt),
      "score" := JNum(d.score),
      "total" := JNum(d.total),
      "accuracy" := JNum(d.accuracy)];
    match d.topicBreakdown
    case None => base
    case Some(rows) => base["topicBreakdown" := JArr(seq(|rows|, i requires 0 <= i < |rows| => TopicRowJson(rows[i])))]
  }

  /** `{ eventId: "evt_" + generatedId, type, occurredAt, payload: payload ?? {} }`. */
  function EventPayload(generatedId: string, eventType: string, occurredAt: string,
                        payload: Option<map<string, Json>>): (p: map<string, Json>)
    ensures p.Keys == {"eventId", "type", "occurredAt", "payload"}
    ensures p["eventId"] == JStr("evt_" + generatedId) && p["type"] == JStr(eventType)
    ensures p["occurredAt"] == JStr(occurredAt)
    ensures p["payload"] == JObj(if payload.Some? then payload.value else map[])
  {
    map["eventId" := JStr("evt_" + generatedId), "type" := JStr(eventType),
        "occurredAt" := JStr(occurredAt),
        "payload" := JObj(match payload case Some(m) => m case None => map[])]
  }

  datatype AiSummaryData = AiSummaryData(passProbability: int, strengths: seq<string>, weaknesses: seq<string>,
                                 todayPlan: seq<string>)

  function Strs(ss: seq<string>): (j: seq<Json>)
    ensures |j| == |ss| && forall i :: 0 <= i < |ss| ==> j[i] == JStr(ss[i])
  {
    seq(|ss|, i requires 0 <= i < |ss| => JStr(ss[i]))
  }

  /** `{ ...data, generatedAt }`. */
  function AiSummaryPayload(d: AiSummaryData, generatedAt: string): (p: map<string, Json>)
    ensures p.Keys == {"passProbability", "strengths", "weaknesses", "todayPlan", "generatedAt"}
    ensures p["passProbability"] == JNum(d.passProbability) && p["generatedAt"] == JStr(generatedAt)
    ensures p["strengths"] == JArr(Strs(d.strengths)) && p["weaknesses"] == JArr(Strs(d.weaknesses))
    ensures p["todayPlan"] == JArr(Strs(d.todayPlan))
  {
    map["passProbability" := JNum(d.passProbability), "strengths" := JArr(Strs(d.strengths)),
        "weaknesses" := JArr(Strs(d.weaknesses)), "todayPlan" := JArr(Strs(d.todayPlan)),
        "generatedAt" := JStr(generatedAt)]
  }
}
