/** The review store: SM-2 Lite spaced repetition over the questions a student got wrong.
    Calendar days are whole numbers (day 0 is any fixed date in the Asia/Ho_Chi_Minh
    calendar), and comparing ISO dates is comparing days. The ease factor is kept in
    hundredths (2.5 is 250). */
module Review {
  import opened Wrappers
  import opened Seqs
  import opened Dicts
  import opened Numeric

  datatype ReviewItem = ReviewItem(
    questionId: string,
    topicId: string,
    dueAt: int,            // day the item is next due
    intervalDays: nat,
    repetitions: nat,
    easeHundredths: nat,   // starts at 250, never below 130
    lapses: nat,
    createdAt: int)        // epoch milliseconds

  const InitialEase: nat := 250
  const MinEase: nat := 130
  /** The quality every correct answer is graded with. */
  const CorrectQuality: int := 4
  /** Repetitions after which a correct answer graduates the item out of review. */
  const GraduationRepetitions: nat := 5

  /** How `addDays(d, n)` counts. The code reads d as midnight in Vietnam, which is
      17:00 UTC on the day before, adds n days on the host's calendar (keeping that instant
      of the day) and formats the UTC date, so it yields d + n - 1 whatever the host's time
      zone: `UtcDate`. Counting n days on the Vietnamese calendar, d + n, is `LocalDate`. */
  datatype DateCount = UtcDate | LocalDate

  function AddDays(d: int, n: int, count: DateCount): (r: int)
    ensures count == UtcDate ==> r == d + n - 1
    ensures count == LocalDate ==> r == d + n
  {
    match count
    case UtcDate => d + n - 1
    case LocalDate => d + n
  }

  /** The SM-2 ease adjustment for a correct answer of quality q, in hundredths:
      `0.1 - (5 - q) * (0.08 + (5 - q) * 0.02)`. */
  function EaseDelta(q: int): int {
    10 - (5 - q) * (8 + (5 - q) * 2)
  }

  /** Quality 4 leaves the ease where it was. */
  lemma CorrectKeepsEase()
    ensures EaseDelta(CorrectQuality) == 0
  {}

  /** `Math.max(1.3, e)` in hundredths. */
  function AtLeastMinEase(e: int): (r: nat)
    ensures r >= MinEase && r >= e
    ensures r == e || r == MinEase
  {
    if e < MinEase then MinEase else e
  }

  /** computeNextReview: a correct answer bumps the repetitions and sets the interval to
      1, then 3, then the previous interval times the ease, rounded; a wrong answer is a
      lapse that restarts the schedule at one day and lowers the ease by 0.2. The ease never
      goes below 1.3 and the item falls due `addDays(today, intervalDays)`. */
  function ComputeNextReview(item: ReviewItem, correct: bool, today: int, count: DateCount): (r: ReviewItem)
    ensures r.questionId == item.questionId && r.topicId == item.topicId
    ensures r.createdAt == item.createdAt
    ensures r.easeHundredths >= MinEase
    ensures count == UtcDate ==> r.dueAt == today + r.intervalDays - 1
    ensures count == LocalDate ==> r.dueAt == today + r.intervalDays
    ensures correct ==>
      && r.repetitions == item.repetitions + 1
      && r.lapses == item.lapses
      && r.easeHundredths == AtLeastMinEase(item.easeHundredths)
      && (r.repetitions == 1 ==> r.intervalDays == 1)
      && (r.repetitions == 2 ==> r.intervalDays == 3)
      && (r.repetitions >= 3 ==>
            -100 <= 2 * (item.intervalDays * item.easeHundredths - 100 * r.intervalDays) < 100)
    ensures !correct ==>
      && r.repetitions == 0
      && r.intervalDays == 1
      && r.lapses == item.lapses + 1
      && r.easeHundredths == AtLeastMinEase(item.easeHundredths - 20)
  {
    var updated :=
      if correct then
        var reps := item.repetitions + 1;
        var interval :=
          if reps == 1 then 1
          else if reps == 2 then 3
          else RoundDiv(item.intervalDays * item.easeHundredths, 100);
        item.(repetitions := reps, intervalDays := interval,
              easeHundredths := AtLeastMinEase(item.easeHundredths + EaseDelta(CorrectQuality)))
      else
        item.(lapses := item.lapses + 1, repetitions := 0, intervalDays := 1,
              easeHundredths := AtLeastMinEase(item.easeHundredths - 20));
    updated.(dueAt := AddDays(today, updated.intervalDays, count))
  }

  /** What the store keeps true of every item it writes. */
  ghost predicate Healthy(item: ReviewItem) {
    item.easeHundredths >= MinEase && item.intervalDays >= 1
  }

  /** The interval never drops to zero, so the item is never due before today, and on the
      Vietnamese calendar an item answered today is never due again today. */
  lemma {:induction false} NextReviewHealthy(item: ReviewItem, correct: bool, today: int, count: DateCount)
    requires Healthy(item)
    ensures Healthy(ComputeNextReview(item, correct, today, count))
    ensures ComputeNextReview(item, correct, today, count).dueAt >= today
    ensures count == LocalDate ==> ComputeNextReview(item, correct, today, count).dueAt > today
  {
    var r := ComputeNextReview(item, correct, today, count);
    if correct && r.repetitions >= 3 {
      ScaleMono(1, item.intervalDays, item.easeHundredths);
      ScaleMono(MinEase, item.easeHundredths, 1);
      assert item.intervalDays * item.easeHundredths >= 130;
    }
  }

  /** Once past the first two repetitions, a correct answer never shortens the interval,
      since the ease is at least 1.3. */
  lemma {:induction false} CorrectNeverShortens(item: ReviewItem, today: int, count: DateCount)
    requires Healthy(item) && item.repetitions >= 2
    ensures ComputeNextReview(item, true, today, count).intervalDays >= item.intervalDays
  {
    var r := ComputeNextReview(item, true, today, count);
    var i, e := item.intervalDays, item.easeHundredths;
    ScaleMono(MinEase, e, i);
    assert i * e >= 130 * i;
    assert 2 * (i * e - 100 * r.intervalDays) < 100;
  }

  /** addToReview on the document: an item already in review lapses; a new one starts
      with a one-day interval, ease 2.5 and one lapse, due `addDays(today, 1)`. */
  function Added(d: Dict<ReviewItem>, questionId: string, topicId: string,
                 today: int, now: int, count: DateCount): (r: Dict<ReviewItem>)
    requires Valid(d)
    ensures Valid(r)
    ensures questionId in r.entries
    ensures questionId in d.entries ==>
      r.entries[questionId] == ComputeNextReview(d.entries[questionId], false, today, count)
    ensures questionId !in d.entries ==>
      r.entries[questionId] == ReviewItem(questionId, topicId, AddDays(today, 1, count), 1, 0, InitialEase, 1, now)
    ensures forall id :: id != questionId ==> Get(r, id) == Get(d, id)
  {
    match Get(d, questionId)
    case Some(existing) => Put(d, questionId, ComputeNextReview(existing, false, today, count))
    case None => Put(d, questionId, ReviewItem(questionId, topicId, AddDays(today, 1, count), 1, 0, InitialEase, 1, now))
  }

  /** updateReview on the document: an unknown question changes nothing; otherwise the
      item is rescheduled, and dropped instead when the answer is correct and it has now
      been recalled five times in a row. */
  function Reviewed(d: Dict<ReviewItem>, questionId: string, correct: bool, today: int,
                    count: DateCount): (r: Dict<ReviewItem>)
    requires Valid(d)
    ensures Valid(r)
    ensures questionId !in d.entries ==> r == d
    ensures questionId in d.entries ==>
      var next := ComputeNextReview(d.entries[questionId], correct, today, count);
      if correct && next.repetitions >= GraduationRepetitions then questionId !in r.entries
      else questionId in r.entries && r.entries[questionId] == next
    ensures forall id :: id != questionId ==> Get(r, id) == Get(d, id)
  {
    match Get(d, questionId)
    case None => d
    case Some(item) =>
      var next := ComputeNextReview(item, correct, today, count);
      var written := Put(d, questionId, next);
      if correct && next.repetitions >= GraduationRepetitions then Remove(written, questionId) else written
  }

  /** A wrong answer followed by five correct ones graduates an item that is in review:
      after four of them it is still there, the fifth removes it. */
  lemma GraduatesAfterFiveCorrect(d: Dict<ReviewItem>, questionId: string, days: seq<int>, count: DateCount)
    requires Valid(d) && questionId in d.entries && |days| == 6
    ensures var d0 := Reviewed(d, questionId, false, days[0], count);
            var d1 := Reviewed(d0, questionId, true, days[1], count);
            var d2 := Reviewed(d1, questionId, true, days[2], count);
            var d3 := Reviewed(d2, questionId, true, days[3], count);
            var d4 := Reviewed(d3, questionId, true, days[4], count);
            var d5 := Reviewed(d4, questionId, true, days[5], count);
            && questionId in d4.entries && d4.entries[questionId].repetitions == 4
            && questionId !in d5.entries
  {
    var d0 := Reviewed(d, questionId, false, days[0], count);
    assert d0.entries[questionId].repetitions == 0;
    var d1 := Reviewed(d0, questionId, true, days[1], count);
    assert d1.entries[questionId].repetitions == 1;
    var d2 := Reviewed(d1, questionId, true, days[2], count);
    assert d2.entries[questionId].repetitions == 2;
    var d3 := Reviewed(d2, questionId, true, days[3], count);
    assert d3.entries[questionId].repetitions == 3;
  }

  /** A wrong answer to an item in review resets its repetitions, so however often it was
      recalled before, it stays in review. */
  lemma WrongAnswerKeepsItem(d: Dict<ReviewItem>, questionId: string, today: int, count: DateCount)
    requires Valid(d) && questionId in d.entries
    ensures var r := Reviewed(d, questionId, false, today, count);
            questionId in r.entries && r.entries[questionId].repetitions == 0
            && r.entries[questionId].lapses == d.entries[questionId].lapses + 1
  {}

  function IsDue(today: int): ReviewItem -> bool {
    (item: ReviewItem) => item.dueAt <= today
  }

  function OfTopic(topicId: string): ReviewItem -> bool {
    (item: ReviewItem) => item.topicId == topicId
  }

  /** getAllItems: every item, in key order. */
  function AllItems(d: Dict<ReviewItem>): (items: seq<ReviewItem>)
    requires Valid(d)
    ensures |items| == |d.entries|
    ensures forall id :: id in d.entries ==> d.entries[id] in items
    ensures forall it :: it in items ==> exists id :: id in d.entries && d.entries[id] == it
  {
    KeyCount(d);
    var vs := Values(d);
    assert forall id :: id in d.entries ==> exists i :: 0 <= i < |d.keys| && d.keys[i] == id;
    vs
  }

  /** getDueItems: the items due today or overdue, in key order. */
  function DueItems(d: Dict<ReviewItem>, today: int): (items: seq<ReviewItem>)
    requires Valid(d)
    ensures |items| <= |d.entries|
    ensures forall it :: it in items <==> it in AllItems(d) && it.dueAt <= today
  {
    Filter(AllItems(d), IsDue(today))
  }

  /** getDueCount. */
  function DueCount(d: Dict<ReviewItem>, today: int): (n: nat)
    requires Valid(d)
    ensures n == |DueItems(d, today)| && n <= |d.entries|
  {
    |DueItems(d, today)|
  }

  /** getItemsByTopic: the items filed under a topic, in key order. */
  function ItemsByTopic(d: Dict<ReviewItem>, topicId: string): (items: seq<ReviewItem>)
    requires Valid(d)
    ensures |items| <= |d.entries|
    ensures forall it :: it in items <==> it in AllItems(d) && it.topicId == topicId
  {
    Filter(AllItems(d), OfTopic(topicId))
  }

  /** Counting on the Vietnamese calendar, a reviewed item, once answered today, drops out
      of today's due list, whichever way it was answered. */
  lemma ReviewedLeavesDueList(d: Dict<ReviewItem>, questionId: string, correct: bool, today: int)
    requires Valid(d) && questionId in d.entries && Healthy(d.entries[questionId])
    ensures var r := Reviewed(d, questionId, correct, today, LocalDate);
            questionId in r.entries ==> r.entries[questionId] !in DueItems(r, today)
  {
    NextReviewHealthy(d.entries[questionId], correct, today, LocalDate);
  }

  /** As `addDays` counts, a question answered wrongly today, whether it is new to the
      review list or already on it, is due again today. */
  lemma AddedDueToday(d: Dict<ReviewItem>, questionId: string, topicId: string, today: int, now: int)
    requires Valid(d)
    ensures var r := Added(d, questionId, topicId, today, now, UtcDate);
            r.entries[questionId] in DueItems(r, today)
  {
    var r := Added(d, questionId, topicId, today, now, UtcDate);
    AllItemsHolds(r, questionId);
  }

  /** As `addDays` counts, a wrong answer to a due item leaves it due the same day. */
  lemma LapseDueToday(d: Dict<ReviewItem>, questionId: string, today: int)
    requires Valid(d) && questionId in d.entries
    ensures var r := Reviewed(d, questionId, false, today, UtcDate);
            questionId in r.entries && r.entries[questionId] in DueItems(r, today)
  {
    var r := Reviewed(d, questionId, false, today, UtcDate);
    AllItemsHolds(r, questionId);
  }

  /** Counting on the Vietnamese calendar, a question answered wrongly today is next due
      tomorrow, whether it is new to the review list or already on it. */
  lemma AddedDueTomorrow(d: Dict<ReviewItem>, questionId: string, topicId: string, today: int, now: int)
    requires Valid(d)
    ensures var r := Added(d, questionId, topicId, today, now, LocalDate);
            r.entries[questionId].dueAt == today + 1 && r.entries[questionId] !in DueItems(r, today)
  {}

  lemma AllItemsHolds(d: Dict<ReviewItem>, id: string)
    requires Valid(d) && id in d.entries
    ensures d.entries[id] in AllItems(d)
  {}

  /** The store: the `items` record, keyed by question id. */
  class ReviewStore {
    var items: Dict<ReviewItem>

    /** Every stored item sits under its own question id and is healthy. */
    ghost predicate Valid()
      reads this
    {
      && Dicts.Valid(items)
      && forall id :: id in items.entries ==> items.entries[id].questionId == id && Healthy(items.entries[id])
    }

    constructor ()
      ensures Valid() && items == Empty()
    {
      items := Empty();
    }

    /** addToReview. */
    method AddToReview(questionId: string, topicId: string, today: int, now: int, count: DateCount)
      requires Valid()
      modifies this
      ensures Valid()
      ensures items == Added(old(items), questionId, topicId, today, now, count)
    {
      var existing := Get(items, questionId);
      if existing.Some? {
        NextReviewHealthy(existing.value, false, today, count);
        items := Put(items, questionId, ComputeNextReview(existing.value, false, today, count));
      } else {
        items := Put(items, questionId, ReviewItem(questionId, topicId, AddDays(today, 1, count), 1, 0, InitialEase, 1, now));
      }
      assert forall id :: id in items.entries && id != questionId ==>
                            id in old(items).entries && items.entries[id] == old(items).entries[id] by {
        forall id | id in items.entries && id != questionId
          ensures id in old(items).entries && items.entries[id] == old(items).entries[id]
        {
          assert Get(items, id) == Get(old(items), id);
        }
      }
    }

    /** updateReview. */
    method UpdateReview(questionId: string, correct: bool, today: int, count: DateCount)
      requires Valid()
      modifies this
      ensures Valid()
      ensures items == Reviewed(old(items), questionId, correct, today, count)
    {
      var item := Get(items, questionId);
      if item.None? {
        return;
      }
      NextReviewHealthy(item.value, correct, today, count);
      items := Put(items, questionId, ComputeNextReview(item.value, correct, today, count));
      if correct && items.entries[questionId].repetitions >= GraduationRepetitions {
        items := Remove(items, questionId);
      }
      assert forall id :: id in items.entries && id != questionId ==>
                            id in old(items).entries && items.entries[id] == old(items).entries[id] by {
        forall id | id in items.entries && id != questionId
          ensures id in old(items).entries && items.entries[id] == old(items).entries[id]
        {
          assert Get(items, id) == Get(old(items), id);
        }
      }
    }

    /** removeFromReview: the item is gone and every other item stays. */
    method RemoveFromReview(questionId: string)
      requires Valid()
      modifies this
      ensures Valid()
      ensures items == Remove(old(items), questionId)
      ensures questionId !in items.entries
      ensures forall id :: id != questionId ==> Get(items, id) == Get(old(items), id)
    {
      items := Remove(items, questionId);
      assert forall id :: id in items.entries ==> Get(items, id) == Get(old(items), id);
    }

    /** resetReview. */
    method ResetReview()
      modifies this
      ensures Valid() && items == Empty()
    {
      items := Empty();
    }
  }
}
