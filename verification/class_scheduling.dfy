/** Scheduling classes: `/create-class` for a single class and
    `/create-class/bulk` for a recurring series. Both validate the
    instructor and the category; the single route also validates the time
    window. The result is the list of class rows the handler inserts. */
module ClassScheduling {
  import opened Core
  import opened ClassPhase
  import opened Calendar
  import opened RecurringDates

  /** A class row as inserted. Times are instants in milliseconds. */
  datatype ClassRecord = ClassRecord(
    title: Option<string>,
    description: Option<string>,
    date: int,
    start: int,
    end: int,
    instructorId: UserId,
    categoryId: CategoryId,
    capacity: int)

  datatype ScheduleError =
    | InstructorNotFound
    | NotAnInstructor
    | CategoryNotFound
    | EndsBeforeStart
    | StartsInPast
    | NoDates
    | DateGenerationFailed
  {
    /** A date-generation error is thrown and reaches the generic error
        handler; every other error is answered with 400. */
    function Code(): nat {
      if DateGenerationFailed? then 500 else 400
    }
  }

  /** The users (with their role) and the categories that exist. */
  datatype Directory = Directory(roles: map<UserId, Role>, categories: set<CategoryId>)

  /** Capacity when the request leaves it out (the schema default). */
  const DefaultCapacity: int := 10

  /** Capacity the bulk route substitutes for a requested capacity of 0. */
  const ZeroCapacityReplacement: int := 20

  /** The checks both routes make, in order: the instructor exists, is not
      a student, and the category exists. */
  function CheckInstructorAndCategory(dir: Directory, instructorId: UserId, categoryId: CategoryId)
    : (e: Option<ScheduleError>)
    ensures e == Some(InstructorNotFound) <==> instructorId !in dir.roles
    ensures e == Some(NotAnInstructor) <==> instructorId in dir.roles && dir.roles[instructorId] == Student
    ensures e.None? <==>
              instructorId in dir.roles && dir.roles[instructorId] != Student && categoryId in dir.categories
    ensures e.Some? ==> e.value in {InstructorNotFound, NotAnInstructor, CategoryNotFound}
  {
    if instructorId !in dir.roles then Some(InstructorNotFound)
    else if dir.roles[instructorId] == Student then Some(NotAnInstructor)
    else if categoryId !in dir.categories then Some(CategoryNotFound)
    else None
  }

  // ---------------------------------------------------------------------
  // create-class

  datatype ClassRequest = ClassRequest(
    title: Option<string>,
    description: Option<string>,
    date: int,
    startMinute: int,
    endMinute: int,
    instructorId: UserId,
    categoryId: CategoryId,
    capacity: Option<int>)

  /** The status the handler derives for the new class before inserting it.
      The insert never writes it: the stored class takes the column default,
      so this value is dead in the handler and is kept here only to state
      what it would have been. */
  function InitialStatus(start: int, end: int, now: int): Phase {
    if now < start then NotStarted
    else if now >= start && now < end then InProgress
    else Finished
  }

  datatype NewClass = NewClass(record: ClassRecord, initialStatus: Phase)

  function CreateClass(dir: Directory, req: ClassRequest, now: int): (r: Result<NewClass, ScheduleError>)
    ensures var start := At(req.date, req.startMinute);
            var end := At(req.date, req.endMinute);
            r.Ok? <==> CheckInstructorAndCategory(dir, req.instructorId, req.categoryId).None?
                       && start < end && now <= start
    ensures r.Ok? ==>
              r.value.record == ClassRecord(req.title, req.description, req.date,
                                            At(req.date, req.startMinute), At(req.date, req.endMinute),
                                            req.instructorId, req.categoryId,
                                            req.capacity.GetOr(DefaultCapacity))
    ensures CheckInstructorAndCategory(dir, req.instructorId, req.categoryId).Some? ==>
              r == Err(CheckInstructorAndCategory(dir, req.instructorId, req.categoryId).value)
    ensures CheckInstructorAndCategory(dir, req.instructorId, req.categoryId).None?
              && At(req.date, req.startMinute) >= At(req.date, req.endMinute) ==>
              r == Err(EndsBeforeStart)
    ensures CheckInstructorAndCategory(dir, req.instructorId, req.categoryId).None?
              && At(req.date, req.startMinute) < At(req.date, req.endMinute)
              && At(req.date, req.startMinute) < now ==>
              r == Err(StartsInPast)
    ensures r.Err? ==> r.error.Code() == 400
    ensures r.Ok? ==> r.value.initialStatus != Finished
    ensures r.Ok? ==> (r.value.initialStatus == InProgress <==> r.value.record.start == now)
  {
    match CheckInstructorAndCategory(dir, req.instructorId, req.categoryId)
    case Some(e) => Err(e)
    case None =>
      var start := At(req.date, req.startMinute);
      var end := At(req.date, req.endMinute);
      if start >= end then Err(EndsBeforeStart)
      else if start < now then Err(StartsInPast)
      else
        var record := ClassRecord(req.title, req.description, req.date, start, end,
                                  req.instructorId, req.categoryId, req.capacity.GetOr(DefaultCapacity));
        Ok(NewClass(record, InitialStatus(start, end, now)))
  }

  /** The initial status is the phase `getClassStatus` would report for the
      new class at the moment of creation. */
  lemma InitialStatusIsPhase(start: int, end: int, now: int)
    ensures InitialStatus(start, end, now) == GetClassStatus(start, end, now)
  {
  }

  /** The single-class route rejects a window whose start is not before its
      end with 400, whatever the other fields. */
  lemma CreateClassRejectsEmptyWindow(dir: Directory, req: ClassRequest, now: int)
    requires CheckInstructorAndCategory(dir, req.instructorId, req.categoryId).None?
    requires req.endMinute <= req.startMinute
    ensures CreateClass(dir, req, now) == Err(EndsBeforeStart)
  {
  }

  // ---------------------------------------------------------------------
  // create-class/bulk

  datatype BulkRequest = BulkRequest(
    title: Option<string>,
    description: Option<string>,
    startMinute: int,
    endMinute: int,
    instructorId: UserId,
    categoryId: CategoryId,
    capacity: Option<int>,
    daysOfWeek: seq<int>,
    startDate: int,
    endDate: int)

  /** `capacity || 20` applied after the default of 10. */
  function BulkCapacity(requested: Option<int>): (c: int)
    ensures c != 0
    ensures requested.None? ==> c == DefaultCapacity
    ensures requested.Some? && requested.value != 0 ==> c == requested.value
    ensures requested == Some(0) ==> c == ZeroCapacityReplacement
  {
    var c := requested.GetOr(DefaultCapacity);
    if c == 0 then ZeroCapacityReplacement else c
  }

  /** One class row per date, in date order, all sharing the request's
      title, description, times of day, instructor, category and capacity. */
  function BuildRecords(req: BulkRequest, dates: seq<int>): (rs: seq<ClassRecord>)
    ensures |rs| == |dates|
    ensures forall i :: 0 <= i < |rs| ==>
              && rs[i].date == dates[i]
              && rs[i].start == At(dates[i], req.startMinute)
              && rs[i].end == At(dates[i], req.endMinute)
              && rs[i].title == req.title && rs[i].description == req.description
              && rs[i].instructorId == req.instructorId && rs[i].categoryId == req.categoryId
              && rs[i].capacity == BulkCapacity(req.capacity)
  {
    if |dates| == 0 then []
    else
      [ClassRecord(req.title, req.description, dates[0],
                   At(dates[0], req.startMinute), At(dates[0], req.endMinute),
                   req.instructorId, req.categoryId, BulkCapacity(req.capacity))]
      + BuildRecords(req, dates[1..])
  }

  function CreateClassBulk(dir: Directory, req: BulkRequest): (r: Result<seq<ClassRecord>, ScheduleError>)
    ensures CheckInstructorAndCategory(dir, req.instructorId, req.categoryId).Some? ==>
              r == Err(CheckInstructorAndCategory(dir, req.instructorId, req.categoryId).value)
    ensures r == Err(DateGenerationFailed) <==>
              CheckInstructorAndCategory(dir, req.instructorId, req.categoryId).None? && req.startDate > req.endDate
    ensures r == Err(NoDates) <==>
              && CheckInstructorAndCategory(dir, req.instructorId, req.categoryId).None?
              && req.startDate <= req.endDate
              && MatchingDays(req.startDate, req.endDate, req.daysOfWeek) == []
    ensures r.Ok? <==>
              && CheckInstructorAndCategory(dir, req.instructorId, req.categoryId).None?
              && req.startDate <= req.endDate
              && MatchingDays(req.startDate, req.endDate, req.daysOfWeek) != []
    ensures r.Ok? ==> |r.value| > 0
    ensures r.Ok? ==> r.value == BuildRecords(req, MatchingDays(req.startDate, req.endDate, req.daysOfWeek))
  {
    match CheckInstructorAndCategory(dir, req.instructorId, req.categoryId)
    case Some(e) => Err(e)
    case None =>
      match GenerateClassDates(Some(req.startDate), Some(req.endDate), req.daysOfWeek)
      case Err(_) => Err(DateGenerationFailed)
      case Ok(dates) =>
        if |dates| == 0 then Err(NoDates)
        else Ok(BuildRecords(req, dates))
  }

  /** A successful bulk request inserts exactly the classes of the series:
      one per day of the range whose weekday was requested, in ascending
      date order, none outside the range, all with the bulk capacity. */
  lemma BulkInsertsTheSeries(dir: Directory, req: BulkRequest)
    requires CreateClassBulk(dir, req).Ok?
    ensures var rs := CreateClassBulk(dir, req).value;
            && (forall i :: 0 <= i < |rs| ==>
                  && req.startDate <= rs[i].date <= req.endDate
                  && WeekDay(rs[i].date) in req.daysOfWeek
                  && rs[i].capacity == BulkCapacity(req.capacity))
            && (forall i, j :: 0 <= i < j < |rs| ==> rs[i].date < rs[j].date)
            && (forall d :: req.startDate <= d <= req.endDate && WeekDay(d) in req.daysOfWeek ==>
                  exists i :: 0 <= i < |rs| && rs[i].date == d)
  {
    var rs := CreateClassBulk(dir, req).value;
    var dates := MatchingDays(req.startDate, req.endDate, req.daysOfWeek);
    forall d | req.startDate <= d <= req.endDate && WeekDay(d) in req.daysOfWeek
      ensures exists i :: 0 <= i < |rs| && rs[i].date == d
    {
      var i :| 0 <= i < |dates| && dates[i] == d;
      assert rs[i].date == d;
    }
  }

  /** Unlike the single-class route, the bulk route checks neither the time
      window nor the clock: a series whose classes end before they start is
      accepted and inserted. */
  lemma BulkAcceptsInvertedWindow()
    ensures var dir := Directory(map[1 := Instructor], {7});
            var req := BulkRequest(None, None, 600, 540, 1, 7, None, [4], 0, 0);
            var r := CreateClassBulk(dir, req);
            && r.Ok?
            && |r.value| == 1
            && r.value[0].end < r.value[0].start
  {
    var dir := Directory(map[1 := Instructor], {7});
    var req := BulkRequest(None, None, 600, 540, 1, 7, None, [4], 0, 0);
    assert WeekDay(0) == 4;
    var dates := GenerateClassDates(Some(0), Some(0), [4]).value;
    assert 0 in dates;
    assert dates == [0];
  }
}
