/** The read side of a class (`GET /classes/:classId`): its phase and the
    attendance statistics computed from the statuses of its check-ins. */
module ClassStatistics {
  import opened Core
  import opened ClassPhase
  import opened CheckinStore
  import opened CheckinRoutes

  /** Number of statuses equal to `st`. */
  function CountStatus(ss: seq<Status>, st: Status): nat {
    if |ss| == 0 then 0
    else CountStatus(ss[..|ss| - 1], st) + (if ss[|ss| - 1] == st then 1 else 0)
  }

  /** Number of statuses other than cancelled. */
  function CountNotCancelled(ss: seq<Status>): nat {
    if |ss| == 0 then 0
    else CountNotCancelled(ss[..|ss| - 1]) + (if ss[|ss| - 1] != Cancelled then 1 else 0)
  }

  /** Every status is either cancelled or not, and every done one is not. */
  lemma {:induction false} StatusCountsSplit(ss: seq<Status>)
    ensures CountNotCancelled(ss) + CountStatus(ss, Cancelled) == |ss|
    ensures CountStatus(ss, Done) <= CountNotCancelled(ss)
  {
    if |ss| > 0 {
      StatusCountsSplit(ss[..|ss| - 1]);
    }
  }

  datatype Statistics = Statistics(
    totalCheckins: nat,
    completedCheckins: nat,
    cancelledCheckins: nat,
    availableSpots: int,
    occupancyRate: int)

  /** `Math.round(total / capacity * 100)` taken over exact rationals with
      halves rounded up, and 0 for a class without places. */
  function OccupancyRate(total: nat, capacity: int): (rate: int)
    ensures capacity <= 0 ==> rate == 0
    ensures capacity > 0 ==> 2 * capacity * rate <= 200 * total + capacity < 2 * capacity * (rate + 1)
  {
    if capacity > 0 then (200 * total + capacity) / (2 * capacity) else 0
  }

  /** Occupancy stays between 0 and 100 while the class is not overfilled. */
  lemma OccupancyBounded(total: nat, capacity: int)
    requires total <= capacity
    ensures 0 <= OccupancyRate(total, capacity) <= 100
  {
    if capacity > 0 {
      var rate := OccupancyRate(total, capacity);
      if rate > 100 {
        MulMono(2 * capacity, 101, rate);
        assert false;
      }
      if rate < 0 {
        MulMono(2 * capacity, rate + 1, 0);
        assert false;
      }
    }
  }

  /** Multiplying by a positive factor keeps the order. */
  lemma MulMono(a: int, x: int, y: int)
    requires a > 0 && x <= y
    ensures a * x <= a * y
  {
    assert a * y - a * x == a * (y - x);
  }

  function ComputeStatistics(capacity: int, statuses: seq<Status>): (s: Statistics)
    ensures s.totalCheckins + s.cancelledCheckins == |statuses|
    ensures s.completedCheckins <= s.totalCheckins
    ensures s.availableSpots + s.totalCheckins == capacity
    ensures s.occupancyRate == OccupancyRate(s.totalCheckins, capacity)
    ensures s.cancelledCheckins == CountStatus(statuses, Cancelled)
    ensures s.completedCheckins == CountStatus(statuses, Done)
  {
    StatusCountsSplit(statuses);
    var total := CountNotCancelled(statuses);
    Statistics(
      total,
      CountStatus(statuses, Done),
      CountStatus(statuses, Cancelled),
      capacity - total,
      OccupancyRate(total, capacity))
  }

  /** Statuses of the check-ins of class `k`, in table order. */
  function StatusesOf(rows: seq<Checkin>, k: ClassId): seq<Status> {
    if |rows| == 0 then []
    else
      var last := rows[|rows| - 1];
      StatusesOf(rows[..|rows| - 1], k) + (if last.classId == k then [last.status] else [])
  }

  /** The statistics' total and the capacity count of check-in creation
      count the same rows: a check-in is active exactly when it is pending
      or done, that is, not cancelled. */
  lemma {:induction false} TotalIsActiveCount(rows: seq<Checkin>, k: ClassId)
    ensures CountNotCancelled(StatusesOf(rows, k)) == ActiveCount(rows, k)
  {
    if |rows| > 0 {
      var prefix := rows[..|rows| - 1];
      var last := rows[|rows| - 1];
      TotalIsActiveCount(prefix, k);
      var ss := StatusesOf(prefix, k);
      if last.classId == k {
        assert (ss + [last.status])[..|ss|] == ss;
      } else {
        assert ss + [] == ss;
      }
    }
  }

  datatype ClassView = ClassView(capacity: int, phase: Phase, statistics: Statistics)

  /** The 404 reply: no class row survives the lookup and its join. */
  datatype NotFound = ClassNotFound {
    function Code(): nat { 404 }
  }

  /** The class lookup inner-joins the class with its instructor, so a class
      whose instructor is not a user is not found either. */
  function GetClassById(db: Db, classId: ClassId, now: int): (r: Result<ClassView, NotFound>)
    ensures r.Err? <==> classId !in db.classes || db.classes[classId].instructorId !in db.users
    ensures r.Ok? ==>
              && r.value.capacity == db.classes[classId].capacity
              && r.value.phase == PhaseOf(db.classes[classId], now)
              && r.value.statistics == ComputeStatistics(db.classes[classId].capacity, StatusesOf(db.checkins, classId))
              && r.value.statistics.totalCheckins == ActiveCount(db.checkins, classId)
              && r.value.statistics.availableSpots == db.classes[classId].capacity - ActiveCount(db.checkins, classId)
  {
    if classId !in db.classes || db.classes[classId].instructorId !in db.users then Err(ClassNotFound)
    else
      var c := db.classes[classId];
      TotalIsActiveCount(db.checkins, classId);
      Ok(ClassView(c.capacity, PhaseOf(c, now), ComputeStatistics(c.capacity, StatusesOf(db.checkins, classId))))
  }

  /** While the capacity invariant holds, a class never shows negative free
      places or an occupancy above 100 per cent. */
  lemma ConsistentViewWithinCapacity(db: Db, classId: ClassId, now: int)
    requires WithinCapacity(db)
    ensures var r := GetClassById(db, classId, now);
            r.Ok? ==> r.value.statistics.availableSpots >= 0 && 0 <= r.value.statistics.occupancyRate <= 100
  {
    var r := GetClassById(db, classId, now);
    if r.Ok? {
      OccupancyBounded(r.value.statistics.totalCheckins, db.classes[classId].capacity);
    }
  }
}
