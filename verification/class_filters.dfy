/** The `where` fragments the class listings are built from: filters by
    phase, category and date, and the keyset-pagination cursor. A fragment
    is modelled as a predicate on the class row it is evaluated against. */
module ClassFilters {
  import opened Core
  import opened ClassPhase
  import opened Calendar

  /** The columns of a class row the filters read. */
  datatype Listing = Listing(id: ClassId, start: int, end: int, categoryId: CategoryId)

  datatype Filter =
    | StartAfter(t: int)              // startTime > t
    | RunningAt(t: int)               // startTime <= t AND endTime > t
    | EndedBy(t: int)                 // endTime <= t
    | CategoryIs(category: CategoryId) // categoryId = category
    | StartWithin(lo: int, hi: int)   // startTime >= lo AND startTime <= hi
    | StartFrom(lo: int)              // startTime >= lo
    | StartUntil(hi: int)             // startTime <= hi

  predicate Holds(f: Filter, c: Listing) {
    match f
    case StartAfter(t) => c.start > t
    case RunningAt(t) => c.start <= t && c.end > t
    case EndedBy(t) => c.end <= t
    case CategoryIs(k) => c.categoryId == k
    case StartWithin(lo, hi) => c.start >= lo && c.start <= hi
    case StartFrom(lo) => c.start >= lo
    case StartUntil(hi) => c.start <= hi
  }

  /** A row passes a filter list when it passes every filter in it. */
  predicate AllHold(fs: seq<Filter>, c: Listing) {
    forall i :: 0 <= i < |fs| ==> Holds(fs[i], c)
  }

  function BuildStatusFilters(status: Option<Phase>, now: int): (fs: seq<Filter>)
    ensures status.None? <==> fs == []
    ensures status.Some? ==> |fs| == 1
  {
    match status
    case None => []
    case Some(NotStarted) => [StartAfter(now)]
    case Some(InProgress) => [RunningAt(now)]
    case Some(Finished) => [EndedBy(now)]
  }

  /** For a class whose start precedes its end, the phase filter selects
      the class exactly when `getClassStatus` reports that phase; hence the
      three filters partition the classes at every instant. */
  lemma StatusFilterAgreesWithPhase(p: Phase, now: int, c: Listing)
    requires c.start < c.end
    ensures AllHold(BuildStatusFilters(Some(p), now), c) <==> GetClassStatus(c.start, c.end, now) == p
  {
    assert AllHold(BuildStatusFilters(Some(p), now), c) <==> Holds(BuildStatusFilters(Some(p), now)[0], c);
  }

  /** Without that precondition the agreement breaks: a class whose end
      precedes its start is selected both as not started and as finished. */
  lemma InvertedWindowMatchesTwoPhases()
    ensures var c := Listing(1, 10, 5, 1);
            && AllHold(BuildStatusFilters(Some(NotStarted), 7), c)
            && AllHold(BuildStatusFilters(Some(Finished), 7), c)
  {
    var c := Listing(1, 10, 5, 1);
    assert Holds(BuildStatusFilters(Some(NotStarted), 7)[0], c);
    assert Holds(BuildStatusFilters(Some(Finished), 7)[0], c);
  }

  function BuildCategoryFilter(categoryId: Option<CategoryId>): (fs: seq<Filter>)
    ensures categoryId.None? <==> fs == []
    ensures |fs| <= 1
  {
    match categoryId
    case None => []
    case Some(k) => [CategoryIs(k)]
  }

  /** An absent category lets every class through; a present one exactly
      the classes of that category. */
  lemma CategoryFilterMeaning(categoryId: Option<CategoryId>, c: Listing)
    ensures AllHold(BuildCategoryFilter(categoryId), c) <==>
              (categoryId.Some? ==> c.categoryId == categoryId.value)
  {
    if categoryId.Some? {
      assert BuildCategoryFilter(categoryId)[0] == CategoryIs(categoryId.value);
    }
  }

  function Present<T>(o: Option<T>): nat {
    if o.Some? then 1 else 0
  }

  /** One filter per supplied day: the whole of `date`, everything from the
      start of `startDate`, everything up to the end of `endDate`. */
  function BuildDateFilters(date: Option<int>, startDate: Option<int>, endDate: Option<int>): (fs: seq<Filter>)
    ensures |fs| == Present(date) + Present(startDate) + Present(endDate)
    ensures date.Some? ==> fs[0] == StartWithin(DayStart(date.value), DayEnd(date.value))
    ensures startDate.Some? ==> fs[Present(date)] == StartFrom(DayStart(startDate.value))
    ensures endDate.Some? ==> fs[|fs| - 1] == StartUntil(DayEnd(endDate.value))
  {
    (match date
     case Some(d) => [StartWithin(DayStart(d), DayEnd(d))]
     case None => [])
    + (match startDate
       case Some(d) => [StartFrom(DayStart(d))]
       case None => [])
    + (match endDate
       case Some(d) => [StartUntil(DayEnd(d))]
       case None => [])
  }

  /** The date filters select the classes starting on `date`, on or after
      `startDate` and on or before `endDate`, each condition applying only
      when its day is supplied. */
  lemma DateFiltersMeaning(date: Option<int>, startDate: Option<int>, endDate: Option<int>, c: Listing)
    ensures AllHold(BuildDateFilters(date, startDate, endDate), c) <==>
              && (date.Some? ==> DayOf(c.start) == date.value)
              && (startDate.Some? ==> startDate.value <= DayOf(c.start))
              && (endDate.Some? ==> DayOf(c.start) <= endDate.value)
  {
    var fs := BuildDateFilters(date, startDate, endDate);
    if date.Some? {
      DayBoundsIff(c.start, date.value);
      assert Holds(fs[0], c) <==> DayOf(c.start) == date.value;
    }
    if startDate.Some? {
      DayBoundsIff(c.start, startDate.value);
      assert Holds(fs[Present(date)], c) <==> startDate.value <= DayOf(c.start);
    }
    if endDate.Some? {
      DayBoundsIff(c.start, endDate.value);
      assert Holds(fs[|fs| - 1], c) <==> DayOf(c.start) <= endDate.value;
    }
    if !AllHold(fs, c) {
      var i :| 0 <= i < |fs| && !Holds(fs[i], c);
      assert || (date.Some? && i == 0)
             || (startDate.Some? && i == Present(date))
             || (endDate.Some? && i == |fs| - 1);
    }
  }

  // ---------------------------------------------------------------------
  // cursor pagination

  datatype Order = Asc | Desc

  /** The resolved cursor: the sort key of the cursor row and the order. */
  datatype Cursor = Cursor(start: int, id: ClassId, order: Order)

  /** The cursor condition, or none when the cursor id names no class. */
  function BuildCursorCondition(classes: seq<Listing>, cursor: ClassId, order: Order): (r: Option<Cursor>)
    ensures r.None? <==> forall i :: 0 <= i < |classes| ==> classes[i].id != cursor
    ensures r.Some? ==> r.value.id == cursor && r.value.order == order
    ensures r.Some? ==> exists i :: 0 <= i < |classes| && classes[i] == Listing(cursor, r.value.start, classes[i].end, classes[i].categoryId)
  {
    match FindFirst(classes, (c: Listing) => c.id == cursor)
    case None => None
    case Some(i) => Some(Cursor(classes[i].start, cursor, order))
  }

  /** Strict lexicographic order on (startTime, id). */
  predicate KeyBefore(s1: int, id1: ClassId, s2: int, id2: ClassId) {
    s1 < s2 || (s1 == s2 && id1 < id2)
  }

  predicate Selects(cur: Cursor, c: Listing) {
    match cur.order
    case Asc => c.start > cur.start || (c.start == cur.start && c.id > cur.id)
    case Desc => c.start < cur.start || (c.start == cur.start && c.id < cur.id)
  }

  /** Ascending pages continue with rows whose key comes strictly after the
      cursor's, descending pages with rows whose key comes strictly before. */
  lemma CursorFollowsKeyOrder(cur: Cursor, c: Listing)
    ensures cur.order == Asc ==> (Selects(cur, c) <==> KeyBefore(cur.start, cur.id, c.start, c.id))
    ensures cur.order == Desc ==> (Selects(cur, c) <==> KeyBefore(c.start, c.id, cur.start, cur.id))
  {
  }

  /** The key order is a strict total order: irreflexive, transitive, and
      any two distinct keys are comparable. */
  lemma KeyBeforeIsStrictTotal(s1: int, id1: ClassId, s2: int, id2: ClassId, s3: int, id3: ClassId)
    ensures !KeyBefore(s1, id1, s1, id1)
    ensures KeyBefore(s1, id1, s2, id2) && KeyBefore(s2, id2, s3, id3) ==> KeyBefore(s1, id1, s3, id3)
    ensures (s1, id1) != (s2, id2) ==> KeyBefore(s1, id1, s2, id2) || KeyBefore(s2, id2, s1, id1)
  {
  }

  /** The cursor row is on neither side, and every other row is on exactly
      one: an ascending and a descending page from the same cursor never
      overlap and together miss only the cursor row. */
  lemma CursorSplitsAroundItself(start: int, id: ClassId, c: Listing)
    ensures (c.start, c.id) == (start, id) ==>
              !Selects(Cursor(start, id, Asc), c) && !Selects(Cursor(start, id, Desc), c)
    ensures (c.start, c.id) != (start, id) ==>
              (Selects(Cursor(start, id, Asc), c) <==> !Selects(Cursor(start, id, Desc), c))
  {
  }
}
