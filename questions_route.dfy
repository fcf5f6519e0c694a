/** GET /api/questions: the question bank filtered by a list of ids and by topic, in bank
    order for practice and shuffled otherwise, cut into pages. Query parameters arrive as
    optional strings; `parseInt`'s NaN is `None`, and JSON writes NaN and Infinity as null. */
module QuestionsRoute {
  import opened Wrappers
  import opened Seqs
  import Strings

  /** A question of the bank, reduced to the fields the route looks at; the text, answers and
      image travel with it unchanged. */
  datatype Question = Question(id: string, topicId: string, isCritical: bool)

  /** The topic whose questions are the "điểm liệt" ones of every topic. */
  const CriticalTopic := "t-diem-liet"
  const DefaultPage := "1"
  const DefaultPageSize := "600"
  const Practice := "practice"

  predicate Truthy(o: Option<string>) {
    o.Some? && o.value != ""
  }

  /** `param || fallback`. */
  function OrDefault(o: Option<string>, fallback: string): string {
    if Truthy(o) then o.value else fallback
  }

  /* ---------------- parseInt(s, 10) ---------------- */

  predicate IsDigit(c: char) {
    '0' <= c <= '9'
  }

  /** The longest run of decimal digits at the start of t. */
  function LeadingDigits(t: string): (r: string)
    ensures r <= t
    ensures forall i :: 0 <= i < |r| ==> IsDigit(r[i])
    ensures |r| == |t| || !IsDigit(t[|r|])
  {
    if t == [] || !IsDigit(t[0]) then []
    else
      var rest := LeadingDigits(t[1..]);
      [t[0]] + rest
  }

  /** The number a string of decimal digits spells. */
  function Value(ds: string): nat
    requires forall i :: 0 <= i < |ds| ==> IsDigit(ds[i])
    decreases |ds|
  {
    if ds == [] then 0
    else Value(ds[..|ds| - 1]) * 10 + DigitValue(ds[|ds| - 1])
  }

  function DigitValue(c: char): (d: nat)
    requires IsDigit(c)
    ensures d <= 9
  {
    c as int - '0' as int
  }

  /** `parseInt(s, 10)`: leading whitespace skipped, an optional sign, then as many digits
      as there are; no digit at all is NaN. */
  function ParseInt(s: string): (n: Option<int>)
    ensures n.None? <==>
      var t := Strings.TrimStart(s);
      var body := if t != [] && (t[0] == '-' || t[0] == '+') then t[1..] else t;
      body == [] || !IsDigit(body[0])
  {
    ParseSigned(Strings.TrimStart(s))
  }

  /** parseInt once the leading whitespace is gone: an optional sign, then the digits. */
  function ParseSigned(t: string): (n: Option<int>)
    ensures n.None? <==>
      var body := if t != [] && (t[0] == '-' || t[0] == '+') then t[1..] else t;
      body == [] || !IsDigit(body[0])
  {
    var negative := t != [] && t[0] == '-';
    var body := if t != [] && (t[0] == '-' || t[0] == '+') then t[1..] else t;
    var ds := LeadingDigits(body);
    var v: int := if ds == [] then 0 else Value(ds);
    if ds == [] then None else Some(if negative then -v else v)
  }

  /** The shortest decimal spelling of n. */
  function Decimal(n: nat): (ds: string)
    ensures |ds| >= 1 && forall i :: 0 <= i < |ds| ==> IsDigit(ds[i])
    decreases n
  {
    if n < 10 then [('0' as int + n) as char]
    else Decimal(n / 10) + [('0' as int + n % 10) as char]
  }

  lemma {:induction false} DecimalValue(n: nat)
    ensures Value(Decimal(n)) == n
    decreases n
  {
    var ds := Decimal(n);
    if n >= 10 {
      DecimalValue(n / 10);
      assert ds[..|ds| - 1] == Decimal(n / 10);
    }
  }

  /** parseInt reads back every number written in decimal, with or without a minus sign. */
  lemma ParseDecimal(n: nat)
    ensures ParseInt(Decimal(n)) == Some(n)
    ensures ParseInt("-" + Decimal(n)) == Some(-(n as int))
  {
    ParsePositive(n);
    ParseNegative(n);
  }

  lemma ParsePositive(n: nat)
    ensures ParseInt(Decimal(n)) == Some(n)
  {
    DecimalValue(n);
    ParseDigits(Decimal(n));
  }

  lemma ParseNegative(n: nat)
    ensures ParseInt("-" + Decimal(n)) == Some(-(n as int))
  {
    DecimalValue(n);
    ParseMinusDigits(Decimal(n));
  }

  /** A string of digits reads as the number it spells. */
  lemma ParseDigits(ds: string)
    requires ds != [] && forall i :: 0 <= i < |ds| ==> IsDigit(ds[i])
    ensures ParseInt(ds) == Some(Value(ds))
  {
    TrimStartKeeps(ds);
    SignedDigits(ds, ds);
  }

  /** A minus sign followed by digits reads as minus the number they spell. */
  lemma ParseMinusDigits(ds: string)
    requires ds != [] && forall i :: 0 <= i < |ds| ==> IsDigit(ds[i])
    ensures ParseInt("-" + ds) == Some(-(Value(ds) as int))
  {
    var neg := "-" + ds;
    TrimStartKeeps(neg);
    assert neg[1..] == ds;
    SignedDigits(neg, ds);
  }

  /** Without leading whitespace: the digits after an optional sign, all of them digits. */
  lemma SignedDigits(t: string, ds: string)
    requires ds != [] && forall i :: 0 <= i < |ds| ==> IsDigit(ds[i])
    requires t == ds || (t != [] && t[0] == '-' && t[1..] == ds)
    ensures ParseSigned(t) == Some(if t == ds then Value(ds) else -(Value(ds) as int))
  {
    AllDigitsLeading(ds);
    if t != ds {
      assert t[0] == '-';
    } else {
      assert IsDigit(t[0]);
    }
  }

  lemma TrimStartKeeps(s: string)
    requires s != [] && (s[0] == '-' || IsDigit(s[0]))
    ensures Strings.TrimStart(s) == s
  {
    assert !Strings.IsWhitespace(s[0]);
  }

  lemma AllDigitsLeading(ds: string)
    requires forall i :: 0 <= i < |ds| ==> IsDigit(ds[i])
    ensures LeadingDigits(ds) == ds
  {
    var r := LeadingDigits(ds);
    assert |r| == |ds|;
  }

  /** The defaults parse as page 1 and 600 per page. */
  lemma Defaults()
    ensures ParseInt(DefaultPage) == Some(1)
    ensures ParseInt(DefaultPageSize) == Some(600)
  {
    assert Decimal(1) == DefaultPage;
    assert Decimal(600) == DefaultPageSize by {
      assert Decimal(6) == "6";
      assert Decimal(60) == "60";
    }
    ParseDecimal(1);
    ParseDecimal(600);
  }

  /* ---------------- filters ---------------- */

  function WithIdIn(ids: seq<string>): Question -> bool {
    (q: Question) => q.id in ids
  }

  function IsCritical(q: Question): bool {
    q.isCritical
  }

  function InTopic(topicId: string): Question -> bool {
    (q: Question) => q.topicId == topicId
  }

  /** The filter by `questionIds`, a comma-separated list; absent or empty keeps everything. */
  function ById(qs: seq<Question>, questionIds: Option<string>): (r: seq<Question>)
    ensures !Truthy(questionIds) ==> r == qs
    ensures Truthy(questionIds) ==>
              forall q :: q in r <==> q in qs && q.id in Strings.Split(questionIds.value, ',')
  {
    if Truthy(questionIds) then Filter(qs, WithIdIn(Strings.Split(questionIds.value, ','))) else qs
  }

  /** The filter by `topicId`: the critical topic selects by the critical flag, any other by
      topic; absent or empty keeps everything. */
  function ByTopic(qs: seq<Question>, topicId: Option<string>): (r: seq<Question>)
    ensures !Truthy(topicId) ==> r == qs
    ensures Truthy(topicId) && topicId.value == CriticalTopic ==> forall q :: q in r <==> q in qs && q.isCritical
    ensures Truthy(topicId) && topicId.value != CriticalTopic ==>
              forall q :: q in r <==> q in qs && q.topicId == topicId.value
  {
    if !Truthy(topicId) then qs
    else if topicId.value == CriticalTopic then Filter(qs, IsCritical)
    else Filter(qs, InTopic(topicId.value))
  }

  function Filtered(bank: seq<Question>, questionIds: Option<string>, topicId: Option<string>): (r: seq<Question>)
    ensures |r| <= |bank|
  {
    ByTopic(ById(bank, questionIds), topicId)
  }

  /** Both filters keep the bank's order: filtering a concatenation filters each part. */
  lemma FilteredKeepsOrder(a: seq<Question>, b: seq<Question>, questionIds: Option<string>, topicId: Option<string>)
    ensures Filtered(a + b, questionIds, topicId) == Filtered(a, questionIds, topicId) + Filtered(b, questionIds, topicId)
  {
    var ia := ById(a, questionIds);
    var ib := ById(b, questionIds);
    if Truthy(questionIds) {
      FilterAppend(a, b, WithIdIn(Strings.Split(questionIds.value, ',')));
    }
    assert ById(a + b, questionIds) == ia + ib;
    if Truthy(topicId) {
      if topicId.value == CriticalTopic {
        FilterAppend(ia, ib, IsCritical);
      } else {
        FilterAppend(ia, ib, InTopic(topicId.value));
      }
    }
  }

  /** With both an id list and an ordinary topic, a question is returned exactly when it is
      in the bank and passes both filters. */
  lemma FiltersCombine(bank: seq<Question>, questionIds: string, topicId: string, q: Question)
    requires questionIds != "" && topicId != "" && topicId != CriticalTopic
    ensures q in Filtered(bank, Some(questionIds), Some(topicId)) <==>
              q in bank && q.id in Strings.Split(questionIds, ',') && q.topicId == topicId
  {}

  /* ---------------- pages ---------------- */

  /** `s.slice(start, end)`: negative positions count back from the end, and both are
      clamped to the sequence. */
  function Slice<T>(s: seq<T>, start: int, end: int): (r: seq<T>)
    ensures |r| <= |s|
    ensures start <= end ==> |r| <= end - start
    ensures 0 <= start <= end <= |s| ==> r == s[start..end]
  {
    var from := Position(start, |s|);
    var to := Position(end, |s|);
    assert start <= end ==> to - from <= end - start by {
      if start <= end { PositionSpan(start, end, |s|); }
    }
    if from < to then s[from..to] else []
  }

  /** A slice position: a negative one counts back from the length, and the result is
      clamped to 0..length. */
  function Position(i: int, len: nat): (p: nat)
    ensures p <= len
    ensures 0 <= i <= len ==> p == i
  {
    if i < 0 then (if len + i > 0 then len + i else 0) else if i < len then i else len
  }

  /** Two positions are no further apart than the arguments they come from. */
  lemma PositionSpan(i: int, j: int, len: nat)
    requires i <= j
    ensures Position(j, len) - Position(i, len) <= j - i
  {}

  /** `Math.ceil(total / pageSize)`, None where that is Infinity or NaN (a page size of 0). */
  function TotalPages(total: nat, pageSize: int): (r: Option<int>)
    ensures r.None? <==> pageSize == 0
    ensures pageSize > 0 ==> r.value >= 0 && (r.value - 1) * pageSize < total <= r.value * pageSize
    ensures pageSize < 0 ==> r.value <= 0
  {
    if pageSize == 0 then None
    else if pageSize > 0 then Some((total + pageSize - 1) / pageSize)
    else Some(-(total / -pageSize))
  }

  /** One page: `slice(start, start + pageSize)` from `start = (page - 1) * pageSize`. A
      page or size that is NaN gives `slice(NaN, NaN)`, which is empty. */
  function PageOf<T>(s: seq<T>, page: Option<int>, pageSize: Option<int>): (r: seq<T>)
    ensures page.None? || pageSize.None? ==> r == []
    ensures pageSize.Some? && pageSize.value >= 0 ==> |r| <= pageSize.value
  {
    if page.None? || pageSize.None? then []
    else
      var start := (page.value - 1) * pageSize.value;
      Slice(s, start, start + pageSize.value)
  }

  /** Nothing rejects a negative page size: with -1 the first "page" is every question but
      the last, and totalPages is minus the total. */
  lemma NegativePageSize<T>(s: seq<T>)
    requires |s| >= 1
    ensures PageOf(s, Some(1), Some(-1)) == s[..|s| - 1]
    ensures TotalPages(|s|, -1) == Some(-|s|)
  {}

  lemma MulStep(m: nat, k: int)
    requires k >= 1
    ensures m * k >= 0 && (m + 1) * k == m * k + k
  {}

  /** Page n of size k (both at least 1) holds the items from position (n-1)k, at most k of
      them, as far as the list goes. */
  lemma PageContents<T>(s: seq<T>, n: int, k: int)
    requires n >= 1 && k >= 1
    ensures var from := (n - 1) * k;
            var to := if from + k < |s| then from + k else |s|;
            PageOf(s, Some(n), Some(k)) == if from < |s| then s[from..to] else []
  {
    MulStep(n - 1, k);
  }

  lemma MulPred(n: nat, k: int, end: int)
    requires n >= 1 && k >= 1 && end == n * k
    ensures end - k == (n - 1) * k >= 0
  {
    MulStep(n - 1, k);
  }

  /** PageContents with the start position (n-1)k given as `from`. */
  lemma PageAt<T>(s: seq<T>, n: int, k: int, from: nat)
    requires n >= 1 && k >= 1 && from == (n - 1) * k
    ensures PageOf(s, Some(n), Some(k))
              == if from < |s| then s[from..if from + k < |s| then from + k else |s|] else []
  {
    PageContents(s, n, k);
  }

  /** Pages 1 to n one after the other. */
  function FirstPages<T>(s: seq<T>, k: int, n: nat): seq<T>
    requires k >= 1
  {
    if n == 0 then [] else FirstPages(s, k, n - 1) + PageOf(s, Some(n), Some(k))
  }

  lemma FirstPagesPrefix<T>(s: seq<T>, k: int, n: nat)
    requires k >= 1
    ensures n * k >= 0
    ensures FirstPages(s, k, n) == s[..if n * k < |s| then n * k else |s|]
  {
    MulStep(n, k);
    FirstPagesUpTo(s, k, n, n * k);
  }

  /** Induction for FirstPagesPrefix, with the product n * k given as `end`. */
  lemma {:induction false} FirstPagesUpTo<T>(s: seq<T>, k: int, n: nat, end: nat)
    requires k >= 1 && end == n * k
    ensures FirstPages(s, k, n) == s[..if end < |s| then end else |s|]
  {
    if n > 0 {
      var from := end - k;
      MulPred(n, k, end);
      FirstPagesUpTo(s, k, n - 1, from);
      PageAt(s, n, k, from);
      PageAfterPrefix(s, from, k);
    }
  }

  /** The first `from` items followed by the page of k items at `from` are the first
      from + k items, as far as the list goes. */
  lemma PageAfterPrefix<T>(s: seq<T>, from: nat, k: int)
    requires k >= 1
    ensures s[..if from < |s| then from else |s|]
              + (if from < |s| then s[from..if from + k < |s| then from + k else |s|] else [])
            == s[..if from + k < |s| then from + k else |s|]
  {
    if from < |s| {
      var cur := if from + k < |s| then from + k else |s|;
      assert s[..from] + s[from..cur] == s[..cur];
    }
  }

  /** Reading pages 1 to totalPages in turn gives every filtered question exactly once, in
      order. */
  lemma PagesCoverAll<T>(s: seq<T>, k: int)
    requires k >= 1
    ensures TotalPages(|s|, k).Some? && FirstPages(s, k, TotalPages(|s|, k).value) == s
  {
    var n := TotalPages(|s|, k).value;
    FirstPagesPrefix(s, k, n);
    assert n * k >= |s|;
  }

  /* ---------------- the response ---------------- */

  datatype Pagination = Pagination(total: nat, page: Option<int>, pageSize: Option<int>, totalPages: Option<int>)
  datatype Response = Response(questions: seq<Question>, pagination: Pagination)

  /** GET. `shuffled` is the order the random sort leaves the filtered questions in; only
      practice mode does without it. */
  function Get(bank: seq<Question>, topicId: Option<string>, page: Option<string>, pageSize: Option<string>,
               mode: Option<string>, questionIds: Option<string>, shuffled: seq<Question>): (r: Response)
    requires mode != Some(Practice) ==> multiset(shuffled) == multiset(Filtered(bank, questionIds, topicId))
    ensures r.pagination.total == |Filtered(bank, questionIds, topicId)|
    ensures r.pagination.page == ParseInt(OrDefault(page, DefaultPage))
    ensures r.pagination.pageSize == ParseInt(OrDefault(pageSize, DefaultPageSize))
    ensures r.pagination.totalPages ==
              if r.pagination.pageSize.None? then None else TotalPages(r.pagination.total, r.pagination.pageSize.value)
    ensures var ordered := if mode == Some(Practice) then Filtered(bank, questionIds, topicId) else shuffled;
            r.questions == PageOf(ordered, r.pagination.page, r.pagination.pageSize)
  {
    var filtered := Filtered(bank, questionIds, topicId);
    var p := ParseInt(OrDefault(page, DefaultPage));
    var size := ParseInt(OrDefault(pageSize, DefaultPageSize));
    var ordered := if mode == Some(Practice) then filtered else shuffled;
    Response(PageOf(ordered, p, size),
             Pagination(|filtered|, p, size, if size.None? then None else TotalPages(|filtered|, size.value)))
  }

  /** Without paging parameters the first page of 600 is returned, which is the whole filtered
      list when it has at most 600 questions; every page holds filtered questions only. */
  lemma DefaultsReturnAll(bank: seq<Question>, topicId: Option<string>, mode: Option<string>,
                          questionIds: Option<string>, shuffled: seq<Question>)
    requires mode != Some(Practice) ==> multiset(shuffled) == multiset(Filtered(bank, questionIds, topicId))
    requires |Filtered(bank, questionIds, topicId)| <= 600
    ensures var r := Get(bank, topicId, None, None, mode, questionIds, shuffled);
            && r.pagination.page == Some(1) && r.pagination.pageSize == Some(600)
            && multiset(r.questions) == multiset(Filtered(bank, questionIds, topicId))
  {
    Defaults();
    FirstPageHoldsAll(bank, topicId, None, None, mode, questionIds, shuffled, 600);
  }

  /** When the page parameters read as page 1 of size k and at most k questions pass the
      filters, the page holds exactly the filtered questions. */
  lemma FirstPageHoldsAll(bank: seq<Question>, topicId: Option<string>, page: Option<string>,
                          pageSize: Option<string>, mode: Option<string>,
                          questionIds: Option<string>, shuffled: seq<Question>, k: int)
    requires mode != Some(Practice) ==> multiset(shuffled) == multiset(Filtered(bank, questionIds, topicId))
    requires k >= 1 && |Filtered(bank, questionIds, topicId)| <= k
    requires ParseInt(OrDefault(page, DefaultPage)) == Some(1)
    requires ParseInt(OrDefault(pageSize, DefaultPageSize)) == Some(k)
    ensures multiset(Get(bank, topicId, page, pageSize, mode, questionIds, shuffled).questions)
              == multiset(Filtered(bank, questionIds, topicId))
  {
    var filtered := Filtered(bank, questionIds, topicId);
    var ordered := if mode == Some(Practice) then filtered else shuffled;
    assert multiset(ordered) == multiset(filtered);
    assert |ordered| <= k by {
      assert |multiset(ordered)| == |multiset(filtered)|;
    }
    WholeFirstPage(ordered, k);
  }

  /** A first page at least as large as the list is the whole list. */
  lemma WholeFirstPage<T>(s: seq<T>, k: int)
    requires k >= 1 && |s| <= k
    ensures PageOf(s, Some(1), Some(k)) == s
  {
    PageContents(s, 1, k);
    assert s[0..|s|] == s;
  }
}
