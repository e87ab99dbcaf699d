/** The three check-in handlers (`/create-checkin`, `/cancel-checkin`,
    `/confirm-checkin`) as pure transitions from a store state, a request
    and the current instant to a reply and the next store state, together
    with the invariants they keep and the one they do not. */
module CheckinRoutes {
  import opened Core
  import opened ClassPhase
  import opened CheckinStore

  /** The columns of a class row the check-in handlers read. */
  datatype ClassRow = ClassRow(start: int, end: int, capacity: int, instructorId: UserId)

  datatype UserRow = UserRow(role: Role, active: bool)

  datatype Db = Db(
    classes: map<ClassId, ClassRow>,
    users: map<UserId, UserRow>,
    checkins: seq<Checkin>)

  /** The authenticated caller: the token's subject and role. */
  datatype Actor = Actor(id: UserId, role: Role)

  /** The user a request acts on: the body's `userId`, or the caller. */
  function TargetOf(actor: Actor, requested: Option<UserId>): (u: UserId)
    ensures requested.None? ==> u == actor.id
    ensures requested.Some? ==> u == requested.value
  {
    requested.GetOr(actor.id)
  }

  function PhaseOf(c: ClassRow, now: int): Phase {
    GetClassStatus(c.start, c.end, now)
  }

  /** The store keeps at most one row per pair and unique row ids. */
  predicate Consistent(db: Db) {
    WellFormed(db.checkins)
  }

  /** No class has more pending or done rows than places. */
  predicate WithinCapacity(db: Db) {
    forall k :: k in db.classes ==> ActiveCount(db.checkins, k) <= db.classes[k].capacity
  }

  // ---------------------------------------------------------------------
  // create-checkin

  datatype CreateReply =
    | CheckedIn(forSelf: bool)
    | Reactivated
    | CreateClassMissing
    | NotBookable
    | OnlySelf
    | AlreadyActive
    | Full
    | InsertRejected
  {
    function Code(): nat {
      match this
      case CheckedIn(_) => 200
      case Reactivated => 409
      case CreateClassMissing => 400
      case NotBookable => 400
      case OnlySelf => 403
      case AlreadyActive => 409
      case Full => 409
      case InsertRejected => 500
    }
  }

  /** Admins, and the instructor who teaches this class, may check in any
      user; everyone else only themselves. */
  function HasSpecialPermission(actor: Actor, c: ClassRow): (b: bool)
    ensures actor.role == Admin ==> b
    ensures actor.role == Student ==> !b
    ensures actor.role == Instructor ==> (b <==> actor.id == c.instructorId)
  {
    (actor.role == Instructor && actor.id == c.instructorId) || actor.role == Admin
  }

  /** The row a reactivation writes: back to pending, completion cleared. */
  function Reopened(c: Checkin): (r: Checkin)
    ensures r.id == c.id && IsPair(r, c.userId, c.classId)
    ensures Occupies(r.status) && r.status != Done && r.completedAt.None?
  {
    c.(status := Pending, completedAt := None)
  }

  function CreateCheckin(db: Db, actor: Actor, classId: ClassId, requested: Option<UserId>,
                         now: int, newId: CheckinId, initial: FreshStatus): (r: Step<CreateReply, Db>)
    ensures r.db.classes == db.classes && r.db.users == db.users
    ensures !(r.reply.CheckedIn? || r.reply.Reactivated?) ==> r.db == db
    ensures r.reply == CreateClassMissing <==> classId !in db.classes
    ensures classId in db.classes && PhaseOf(db.classes[classId], now) != NotStarted ==>
              r.reply == NotBookable
    ensures r.reply == NotBookable ==>
              classId in db.classes && PhaseOf(db.classes[classId], now) != NotStarted
    ensures r.reply.CheckedIn? || r.reply.Reactivated? ==>
              && classId in db.classes
              && PhaseOf(db.classes[classId], now) == NotStarted
              && (HasSpecialPermission(actor, db.classes[classId]) || TargetOf(actor, requested) == actor.id)
    ensures r.reply.CheckedIn? ==>
              var u := TargetOf(actor, requested);
              && FindPair(db.checkins, u, classId).None?
              && ActiveCount(db.checkins, classId) < db.classes[classId].capacity
              && u in db.users
              && r.db.checkins == db.checkins + [Checkin(newId, u, classId, initial, None)]
              && r.reply.forSelf == (u == actor.id)
    ensures r.reply.Reactivated? ==>
              var f := FindPair(db.checkins, TargetOf(actor, requested), classId);
              && f.Some?
              && db.checkins[f.value].status == Cancelled
              && r.db.checkins == db.checkins[f.value := Reopened(db.checkins[f.value])]
    ensures r.reply == AlreadyActive ==>
              var f := FindPair(db.checkins, TargetOf(actor, requested), classId);
              f.Some? && db.checkins[f.value].status != Cancelled
    ensures r.reply == Full ==>
              && classId in db.classes
              && FindPair(db.checkins, TargetOf(actor, requested), classId).None?
              && ActiveCount(db.checkins, classId) >= db.classes[classId].capacity
    ensures r.reply == InsertRejected ==>
              && classId in db.classes
              && FindPair(db.checkins, TargetOf(actor, requested), classId).None?
              && ActiveCount(db.checkins, classId) < db.classes[classId].capacity
              && TargetOf(actor, requested) !in db.users
  {
    var u := TargetOf(actor, requested);
    if classId !in db.classes then Step(CreateClassMissing, db)
    else
      var c := db.classes[classId];
      if PhaseOf(c, now) != NotStarted then Step(NotBookable, db)
      else if !HasSpecialPermission(actor, c) && u != actor.id then Step(OnlySelf, db)
      else
        match FindPair(db.checkins, u, classId)
        case Some(i) =>
          if db.checkins[i].status == Cancelled then
            Step(Reactivated, db.(checkins := db.checkins[i := Reopened(db.checkins[i])]))
          else Step(AlreadyActive, db)
        case None =>
          if ActiveCount(db.checkins, classId) >= c.capacity then Step(Full, db)
          else if u !in db.users then Step(InsertRejected, db)
          else
            var row := Checkin(newId, u, classId, initial, None);
            Step(CheckedIn(u == actor.id), db.(checkins := db.checkins + [row]))
  }

  /** The permission matrix of check-in creation: a 403 comes exactly when
      the class is bookable, the caller is neither an admin nor this class's
      instructor, and the target is someone else. */
  lemma CreateForbiddenIff(db: Db, actor: Actor, classId: ClassId, requested: Option<UserId>,
                           now: int, newId: CheckinId, initial: FreshStatus)
    ensures CreateCheckin(db, actor, classId, requested, now, newId, initial).reply == OnlySelf
        <==> && classId in db.classes
             && PhaseOf(db.classes[classId], now) == NotStarted
             && !HasSpecialPermission(actor, db.classes[classId])
             && TargetOf(actor, requested) != actor.id
  {
  }

  /** Once the gates pass and no row of the pair exists, the capacity count
      decides first: none left gives 409. With a place left, the insert
      succeeds for a known user and is refused by the foreign key on
      `checkins.userId` for an unknown one. */
  lemma FreshCheckinFollowsCapacity(db: Db, actor: Actor, classId: ClassId, requested: Option<UserId>,
                                    now: int, newId: CheckinId, initial: FreshStatus)
    requires classId in db.classes && PhaseOf(db.classes[classId], now) == NotStarted
    requires HasSpecialPermission(actor, db.classes[classId]) || TargetOf(actor, requested) == actor.id
    requires FindPair(db.checkins, TargetOf(actor, requested), classId).None?
    ensures var r := CreateCheckin(db, actor, classId, requested, now, newId, initial);
            var u := TargetOf(actor, requested);
            var placeLeft := ActiveCount(db.checkins, classId) < db.classes[classId].capacity;
            && (placeLeft && u in db.users <==> r.reply.CheckedIn?)
            && (placeLeft && u !in db.users <==> r.reply == InsertRejected)
            && (!placeLeft <==> r.reply == Full)
  {
    CreateForbiddenIff(db, actor, classId, requested, now, newId, initial);
  }

  /** Once the gates pass, a cancelled row of the pair is always reopened,
      whatever the class's count, and any other row of the pair gives 409. */
  lemma ReactivationIgnoresCapacity(db: Db, actor: Actor, classId: ClassId, requested: Option<UserId>,
                                    now: int, newId: CheckinId, initial: FreshStatus)
    requires classId in db.classes && PhaseOf(db.classes[classId], now) == NotStarted
    requires HasSpecialPermission(actor, db.classes[classId]) || TargetOf(actor, requested) == actor.id
    requires FindPair(db.checkins, TargetOf(actor, requested), classId).Some?
    ensures var f := FindPair(db.checkins, TargetOf(actor, requested), classId);
            var r := CreateCheckin(db, actor, classId, requested, now, newId, initial);
            (db.checkins[f.value].status == Cancelled <==> r.reply == Reactivated)
            && (db.checkins[f.value].status != Cancelled <==> r.reply == AlreadyActive)
  {
    CreateForbiddenIff(db, actor, classId, requested, now, newId, initial);
  }

  /** Creation keeps at most one row per pair and unique ids, provided the
      id drawn for a new row is not already in use. */
  lemma CreateKeepsConsistent(db: Db, actor: Actor, classId: ClassId, requested: Option<UserId>,
                              now: int, newId: CheckinId, initial: FreshStatus)
    requires Consistent(db)
    requires forall i :: 0 <= i < |db.checkins| ==> db.checkins[i].id != newId
    ensures Consistent(CreateCheckin(db, actor, classId, requested, now, newId, initial).db)
  {
    var r := CreateCheckin(db, actor, classId, requested, now, newId, initial);
    var rows := db.checkins;
    if r.reply.CheckedIn? {
      var rows' := r.db.checkins;
      forall i, j | 0 <= i < j < |rows'|
        ensures (rows'[i].userId, rows'[i].classId) != (rows'[j].userId, rows'[j].classId)
        ensures rows'[i].id != rows'[j].id
      {
        if j < |rows| {
          assert rows'[i] == rows[i] && rows'[j] == rows[j];
        } else {
          assert rows'[i] == rows[i];
        }
      }
    } else if r.reply.Reactivated? {
      var i := FindPair(rows, TargetOf(actor, requested), classId).value;
      assert r.db.checkins == rows[i := Reopened(rows[i])];
    }
  }

  /** The fresh-insert path never overfills a class, and neither does any
      other outcome except reactivation. */
  lemma CreateKeepsCapacityUnlessReactivated(db: Db, actor: Actor, classId: ClassId,
                                             requested: Option<UserId>, now: int,
                                             newId: CheckinId, initial: FreshStatus)
    requires WithinCapacity(db)
    ensures var r := CreateCheckin(db, actor, classId, requested, now, newId, initial);
            !r.reply.Reactivated? ==> WithinCapacity(r.db)
  {
    var r := CreateCheckin(db, actor, classId, requested, now, newId, initial);
    if r.reply.CheckedIn? {
      var row := Checkin(newId, TargetOf(actor, requested), classId, initial, None);
      forall k | k in r.db.classes
        ensures ActiveCount(r.db.checkins, k) <= r.db.classes[k].capacity
      {
        ActiveCountAppend(db.checkins, row, k);
      }
    }
  }

  /** Reactivation does overfill: with one place taken by a done row, a
      student whose earlier check-in was cancelled checks in again and the
      class ends with two occupying rows for a capacity of one. */
  lemma ReactivationCanOverfill()
    ensures var db := Db(map[1 := ClassRow(100, 200, 1, 9)],
                         map[1 := UserRow(Student, true), 2 := UserRow(Student, true)],
                         [Checkin(10, 1, 1, Done, None), Checkin(11, 2, 1, Cancelled, None)]);
            var r := CreateCheckin(db, Actor(2, Student), 1, None, 50, 12, Pending);
            && Consistent(db)
            && WithinCapacity(db)
            && r.reply == Reactivated
            && !WithinCapacity(r.db)
  {
    var rows := [Checkin(10, 1, 1, Done, None), Checkin(11, 2, 1, Cancelled, None)];
    var db := Db(map[1 := ClassRow(100, 200, 1, 9)],
                 map[1 := UserRow(Student, true), 2 := UserRow(Student, true)], rows);
    assert rows[..1] == [rows[0]];
    assert ActiveCount(rows, 1) == 1;
    assert !IsPair(rows[0], 2, 1) && IsPair(rows[1], 2, 1);
    assert FindPair(rows, 2, 1) == Some(1);
    var rows' := rows[1 := Reopened(rows[1])];
    assert rows'[..1] == [rows'[0]];
    assert ActiveCount(rows', 1) == 2;
  }

  /** Creation as it evidently should behave: a reactivation takes a place
      like a fresh check-in does, so it is refused when the class is full. */
  function CreateCheckinCapacityChecked(db: Db, actor: Actor, classId: ClassId,
                                        requested: Option<UserId>, now: int,
                                        newId: CheckinId, initial: FreshStatus): (r: Step<CreateReply, Db>)
    ensures r.reply.Reactivated? ==>
              classId in db.classes && ActiveCount(db.checkins, classId) < db.classes[classId].capacity
    ensures !CreateCheckin(db, actor, classId, requested, now, newId, initial).reply.Reactivated? ==>
              r == CreateCheckin(db, actor, classId, requested, now, newId, initial)
    ensures r == CreateCheckin(db, actor, classId, requested, now, newId, initial) || (r.reply == Full && r.db == db)
    ensures CreateCheckin(db, actor, classId, requested, now, newId, initial).reply.Reactivated? ==>
              (r.reply == Full <==> ActiveCount(db.checkins, classId) >= db.classes[classId].capacity)
  {
    var r := CreateCheckin(db, actor, classId, requested, now, newId, initial);
    if r.reply.Reactivated? && ActiveCount(db.checkins, classId) >= db.classes[classId].capacity then
      Step(Full, db)
    else r
  }

  /** With the capacity check on reactivation, every outcome of creation
      keeps every class within its capacity. */
  lemma CheckedCreateKeepsCapacity(db: Db, actor: Actor, classId: ClassId,
                                   requested: Option<UserId>, now: int,
                                   newId: CheckinId, initial: FreshStatus)
    requires WithinCapacity(db)
    ensures WithinCapacity(CreateCheckinCapacityChecked(db, actor, classId, requested, now, newId, initial).db)
  {
    var r := CreateCheckinCapacityChecked(db, actor, classId, requested, now, newId, initial);
    if r.reply.Reactivated? {
      var rows := db.checkins;
      var i := FindPair(rows, TargetOf(actor, requested), classId).value;
      forall k | k in r.db.classes
        ensures ActiveCount(r.db.checkins, k) <= r.db.classes[k].capacity
      {
        ActiveCountUpdate(rows, i, Reopened(rows[i]), k);
      }
    } else {
      CreateKeepsCapacityUnlessReactivated(db, actor, classId, requested, now, newId, initial);
    }
  }

  // ---------------------------------------------------------------------
  // cancel-checkin

  datatype CancelReply =
    | CheckinCancelled(forSelf: bool)
    | CancelClassMissing
    | CheckinMissing
    | CancelForbidden
    | NotCancellable
    | TargetMissing
  {
    function Code(): nat {
      match this
      case CheckinCancelled(_) => 200
      case CancelClassMissing => 400
      case CheckinMissing => 400
      case CancelForbidden => 403
      case NotCancellable => 400
      case TargetMissing => 400
    }
  }

  /** The `allowed` expression of the cancel handler. */
  function MayCancel(actor: Actor, c: ClassRow, u: UserId): (b: bool)
    ensures actor.role == Admin ==> b
    ensures actor.role == Instructor ==> (b <==> actor.id == c.instructorId)
    ensures actor.role == Student ==> (b <==> u == actor.id)
  {
    || actor.role == Admin
    || (actor.role == Instructor && actor.id == c.instructorId)
    || (actor.role == Student && u == actor.id)
  }

  function CancelCheckin(db: Db, actor: Actor, classId: ClassId, requested: Option<UserId>,
                         now: int): (r: Step<CancelReply, Db>)
    ensures r.db.classes == db.classes && r.db.users == db.users
    ensures !r.reply.CheckinCancelled? ==> r.db == db
    ensures r.reply == CancelClassMissing <==> classId !in db.classes
    ensures r.reply == CheckinMissing <==>
              classId in db.classes && FindPair(db.checkins, TargetOf(actor, requested), classId).None?
    ensures r.reply.CheckinCancelled? ==>
              var u := TargetOf(actor, requested);
              && classId in db.classes
              && FindPair(db.checkins, u, classId).Some?
              && MayCancel(actor, db.classes[classId], u)
              && PhaseOf(db.classes[classId], now) == NotStarted
              && u in db.users
              && r.db.checkins == RemovePair(db.checkins, u, classId)
              && r.reply.forSelf == (u == actor.id)
    ensures r.reply == NotCancellable ==>
              classId in db.classes && PhaseOf(db.classes[classId], now) != NotStarted
    ensures r.reply == TargetMissing ==>
              var u := TargetOf(actor, requested);
              && classId in db.classes
              && FindPair(db.checkins, u, classId).Some?
              && MayCancel(actor, db.classes[classId], u)
              && PhaseOf(db.classes[classId], now) == NotStarted
              && u !in db.users
  {
    var u := TargetOf(actor, requested);
    if classId !in db.classes then Step(CancelClassMissing, db)
    else if FindPair(db.checkins, u, classId).None? then Step(CheckinMissing, db)
    else
      var c := db.classes[classId];
      if !MayCancel(actor, c, u) then Step(CancelForbidden, db)
      else if PhaseOf(c, now) != NotStarted then Step(NotCancellable, db)
      else if u !in db.users then Step(TargetMissing, db)
      else Step(CheckinCancelled(u == actor.id), db.(checkins := RemovePair(db.checkins, u, classId)))
  }

  /** The permission matrix of cancellation. */
  lemma CancelForbiddenIff(db: Db, actor: Actor, classId: ClassId, requested: Option<UserId>, now: int)
    ensures CancelCheckin(db, actor, classId, requested, now).reply == CancelForbidden
        <==> && classId in db.classes
             && FindPair(db.checkins, TargetOf(actor, requested), classId).Some?
             && !MayCancel(actor, db.classes[classId], TargetOf(actor, requested))
  {
  }

  /** An instructor who does not teach the class may check themselves in,
      but may not cancel that check-in: creation lets anyone act on
      themselves, while cancellation grants self-service to students only. */
  lemma InstructorOfOtherClassAsymmetry(db: Db, actor: Actor, classId: ClassId, now: int,
                                        newId: CheckinId, initial: FreshStatus)
    requires actor.role == Instructor
    requires classId in db.classes && db.classes[classId].instructorId != actor.id
    requires PhaseOf(db.classes[classId], now) == NotStarted
    ensures CreateCheckin(db, actor, classId, None, now, newId, initial).reply != OnlySelf
    ensures FindPair(db.checkins, actor.id, classId).Some? ==>
              CancelCheckin(db, actor, classId, None, now).reply == CancelForbidden
  {
  }

  /** Cancellation keeps both uniqueness invariants and every class within
      capacity: it only ever deletes rows. */
  lemma CancelKeepsInvariants(db: Db, actor: Actor, classId: ClassId, requested: Option<UserId>, now: int)
    ensures var r := CancelCheckin(db, actor, classId, requested, now);
            && (Consistent(db) ==> Consistent(r.db))
            && (WithinCapacity(db) ==> WithinCapacity(r.db))
  {
    var r := CancelCheckin(db, actor, classId, requested, now);
    if r.reply.CheckinCancelled? {
      var u := TargetOf(actor, requested);
      if Consistent(db) {
        RemovePairWellFormed(db.checkins, u, classId);
      }
      forall k | k in db.classes
        ensures ActiveCount(r.db.checkins, k) <= ActiveCount(db.checkins, k)
      {
        ActiveCountRemove(db.checkins, u, classId, k);
      }
    }
  }

  /** Cancelling removes the pair's row and only it: every row of every
      other pair survives, and in a consistent store exactly one row goes. */
  lemma CancelRemovesExactlyThePair(db: Db, actor: Actor, classId: ClassId,
                                    requested: Option<UserId>, now: int)
    requires Consistent(db)
    ensures var r := CancelCheckin(db, actor, classId, requested, now);
            r.reply.CheckinCancelled? ==>
              && |r.db.checkins| == |db.checkins| - 1
              && forall c :: c in db.checkins && !IsPair(c, TargetOf(actor, requested), classId) ==>
                               c in r.db.checkins
  {
    var r := CancelCheckin(db, actor, classId, requested, now);
    if r.reply.CheckinCancelled? {
      var u := TargetOf(actor, requested);
      var i := FindPair(db.checkins, u, classId).value;
      RemoveTheOnlyPairRow(db.checkins, u, classId, i);
    }
  }

  /** In a store with unique pairs, deleting a present pair drops exactly
      one row. */
  lemma {:induction false} RemoveTheOnlyPairRow(rows: seq<Checkin>, u: UserId, k: ClassId, i: nat)
    requires UniquePairs(rows)
    requires i < |rows| && IsPair(rows[i], u, k)
    ensures |RemovePair(rows, u, k)| == |rows| - 1
  {
    var n := |rows|;
    var prefix := rows[..n - 1];
    if i == n - 1 {
      NoOtherPairRow(rows, prefix, u, k);
      NoPairRemovesNothing(prefix, u, k);
    } else {
      UniquePairsPrefix(rows);
      RemoveTheOnlyPairRow(prefix, u, k, i);
      LastIsNotThePair(rows, u, k, i);
    }
  }

  /** The last row holds the pair, so under unique pairs no earlier row does. */
  lemma NoOtherPairRow(rows: seq<Checkin>, prefix: seq<Checkin>, u: UserId, k: ClassId)
    requires UniquePairs(rows)
    requires |rows| > 0 && IsPair(rows[|rows| - 1], u, k)
    requires prefix == rows[..|rows| - 1]
    ensures forall j :: 0 <= j < |prefix| ==> !IsPair(prefix[j], u, k)
  {
    forall j | 0 <= j < |prefix| ensures !IsPair(prefix[j], u, k) {
      assert prefix[j] == rows[j];
    }
  }

  lemma UniquePairsPrefix(rows: seq<Checkin>)
    requires UniquePairs(rows) && |rows| > 0
    ensures UniquePairs(rows[..|rows| - 1])
  {
    var prefix := rows[..|rows| - 1];
    forall a, b | 0 <= a < b < |prefix|
      ensures (prefix[a].userId, prefix[a].classId) != (prefix[b].userId, prefix[b].classId)
    {
      assert prefix[a] == rows[a] && prefix[b] == rows[b];
    }
  }

  /** An earlier row holds the pair, so the last row does not and survives. */
  lemma LastIsNotThePair(rows: seq<Checkin>, u: UserId, k: ClassId, i: nat)
    requires UniquePairs(rows)
    requires i < |rows| - 1 && IsPair(rows[i], u, k)
    ensures RemovePair(rows, u, k) == RemovePair(rows[..|rows| - 1], u, k) + [rows[|rows| - 1]]
  {
    assert (rows[i].userId, rows[i].classId) != (rows[|rows| - 1].userId, rows[|rows| - 1].classId);
  }

  lemma {:induction false} NoPairRemovesNothing(rows: seq<Checkin>, u: UserId, k: ClassId)
    requires forall j :: 0 <= j < |rows| ==> !IsPair(rows[j], u, k)
    ensures RemovePair(rows, u, k) == rows
  {
    if |rows| > 0 {
      NoPairRemovesNothing(rows[..|rows| - 1], u, k);
      assert rows[..|rows| - 1] + [rows[|rows| - 1]] == rows;
    }
  }

  /** Rows of a store that differ only in the status of row `i`. */
  function WithStatus(db: Db, i: nat, s: Status): Db
    requires i < |db.checkins|
  {
    db.(checkins := db.checkins[i := db.checkins[i].(status := s)])
  }

  /** Cancellation never looks at a row's status: giving any row any other
      status changes neither the reply nor which pair is deleted. A row that
      is already cancelled is deleted like any other. */
  lemma CancelIgnoresStatus(db: Db, i: nat, s: Status, actor: Actor, classId: ClassId,
                            requested: Option<UserId>, now: int)
    requires i < |db.checkins|
    ensures var r := CancelCheckin(db, actor, classId, requested, now);
            var r' := CancelCheckin(WithStatus(db, i, s), actor, classId, requested, now);
            r'.reply == r.reply
  {
    var rows := db.checkins;
    var rows' := WithStatus(db, i, s).checkins;
    var u := TargetOf(actor, requested);
    assert forall j :: 0 <= j < |rows| ==> (IsPair(rows[j], u, classId) <==> IsPair(rows'[j], u, classId));
    assert FindPair(rows, u, classId).None? <==> FindPair(rows', u, classId).None?;
  }

  // ---------------------------------------------------------------------
  // confirm-checkin

  datatype ConfirmReply =
    | Confirmed
    | CheckinUnknown
    | NotPending
    | ConfirmClassMissing
    | AlreadyStarted
  {
    function Code(): nat {
      match this
      case Confirmed => 200
      case _ => 400
    }
  }

  function ConfirmCheckin(db: Db, checkinId: CheckinId, now: int): (r: Step<ConfirmReply, Db>)
    ensures r.db.classes == db.classes && r.db.users == db.users
    ensures !r.reply.Confirmed? ==> r.db == db
    ensures r.reply == CheckinUnknown <==> FindById(db.checkins, checkinId).None?
    ensures r.reply.Confirmed? ==>
              var i := FindById(db.checkins, checkinId);
              && i.Some?
              && db.checkins[i.value].status == Pending
              && db.checkins[i.value].classId in db.classes
              && now < db.classes[db.checkins[i.value].classId].start
              && |r.db.checkins| == |db.checkins|
              && r.db.checkins[i.value] == db.checkins[i.value].(status := Done, completedAt := Some(now))
              && forall j :: 0 <= j < |db.checkins| && j != i.value ==> r.db.checkins[j] == db.checkins[j]
    ensures r.reply == NotPending ==>
              db.checkins[FindById(db.checkins, checkinId).value].status != Pending
    ensures r.reply == ConfirmClassMissing ==>
              var row := db.checkins[FindById(db.checkins, checkinId).value];
              row.status == Pending && row.classId !in db.classes
    ensures r.reply == AlreadyStarted ==>
              var row := db.checkins[FindById(db.checkins, checkinId).value];
              row.status == Pending && row.classId in db.classes && now >= db.classes[row.classId].start
  {
    match FindById(db.checkins, checkinId)
    case None => Step(CheckinUnknown, db)
    case Some(i) =>
      var row := db.checkins[i];
      if row.status != Pending then Step(NotPending, db)
      else if row.classId !in db.classes then Step(ConfirmClassMissing, db)
      else if now >= db.classes[row.classId].start then Step(AlreadyStarted, db)
      else Step(Confirmed, db.(checkins := db.checkins[i := row.(status := Done, completedAt := Some(now))]))
  }

  /** Confirmation succeeds exactly for a pending row of an existing class
      whose start still lies ahead. */
  lemma ConfirmSucceedsIff(db: Db, checkinId: CheckinId, now: int)
    ensures ConfirmCheckin(db, checkinId, now).reply == Confirmed <==>
              var i := FindById(db.checkins, checkinId);
              && i.Some?
              && db.checkins[i.value].status == Pending
              && db.checkins[i.value].classId in db.classes
              && now < db.classes[db.checkins[i.value].classId].start
  {
  }

  /** Confirming turns a pending row into a done row, and both take a
      place: no class's capacity count moves. */
  lemma ConfirmKeepsActiveCounts(db: Db, checkinId: CheckinId, now: int, k: ClassId)
    ensures ActiveCount(ConfirmCheckin(db, checkinId, now).db.checkins, k) == ActiveCount(db.checkins, k)
  {
    var r := ConfirmCheckin(db, checkinId, now);
    if r.reply.Confirmed? {
      var i := FindById(db.checkins, checkinId).value;
      var row := db.checkins[i];
      assert r.db.checkins == db.checkins[i := row.(status := Done, completedAt := Some(now))];
      ActiveCountUpdate(db.checkins, i, row.(status := Done, completedAt := Some(now)), k);
    }
  }

  /** Confirmation keeps both uniqueness invariants and every class within
      capacity. */
  lemma ConfirmKeepsInvariants(db: Db, checkinId: CheckinId, now: int)
    ensures var r := ConfirmCheckin(db, checkinId, now);
            && (Consistent(db) ==> Consistent(r.db))
            && (WithinCapacity(db) ==> WithinCapacity(r.db))
  {
    var r := ConfirmCheckin(db, checkinId, now);
    forall k | k in db.classes
      ensures ActiveCount(r.db.checkins, k) == ActiveCount(db.checkins, k)
    {
      ConfirmKeepsActiveCounts(db, checkinId, now, k);
    }
    if r.reply.Confirmed? {
      var i := FindById(db.checkins, checkinId).value;
      assert r.db.checkins == db.checkins[i := db.checkins[i].(status := Done, completedAt := Some(now))];
    }
  }

  // ---------------------------------------------------------------------
  // foreign keys

  /** Every row names a known user and a known class, as the references of
      `checkins.userId` and `checkins.classId` demand. */
  predicate ForeignKeysHold(db: Db) {
    forall c :: c in db.checkins ==> c.userId in db.users && c.classId in db.classes
  }

  /** The three handlers keep both references: creation inserts only for a
      known user and an existing class, reactivation and confirmation keep
      each row's user and class, and cancellation only deletes. */
  lemma HandlersKeepForeignKeys(db: Db, actor: Actor, classId: ClassId, requested: Option<UserId>,
                                now: int, newId: CheckinId, initial: FreshStatus, checkinId: CheckinId)
    requires ForeignKeysHold(db)
    ensures ForeignKeysHold(CreateCheckin(db, actor, classId, requested, now, newId, initial).db)
    ensures ForeignKeysHold(CancelCheckin(db, actor, classId, requested, now).db)
    ensures ForeignKeysHold(ConfirmCheckin(db, checkinId, now).db)
  {
    var rn := CreateCheckin(db, actor, classId, requested, now, newId, initial);
    if rn.reply.Reactivated? {
      var i := FindPair(db.checkins, TargetOf(actor, requested), classId).value;
      forall c | c in rn.db.checkins ensures c.userId in db.users && c.classId in db.classes {
        var j :| 0 <= j < |rn.db.checkins| && rn.db.checkins[j] == c;
        assert db.checkins[j] in db.checkins;
      }
    }
    var rc := ConfirmCheckin(db, checkinId, now);
    if rc.reply.Confirmed? {
      forall c | c in rc.db.checkins ensures c.userId in db.users && c.classId in db.classes {
        var j :| 0 <= j < |rc.db.checkins| && rc.db.checkins[j] == c;
        assert db.checkins[j] in db.checkins;
      }
    }
  }

  // ---------------------------------------------------------------------
  // where cancelled rows come from

  /** No row of the store is cancelled. */
  predicate NoCancelledRows(rows: seq<Checkin>) {
    forall c :: c in rows ==> c.status != Cancelled
  }

  /** None of the three handlers ever writes a cancelled row: creation
      inserts an active row or reopens one, cancellation deletes, and
      confirmation writes done. So in a store that starts without cancelled
      rows, reactivation can never happen. */
  lemma HandlersNeverWriteCancelled(db: Db, actor: Actor, classId: ClassId, requested: Option<UserId>,
                                    now: int, newId: CheckinId, initial: FreshStatus, checkinId: CheckinId)
    requires NoCancelledRows(db.checkins)
    ensures var r := CreateCheckin(db, actor, classId, requested, now, newId, initial);
            r.reply != Reactivated && NoCancelledRows(r.db.checkins)
    ensures NoCancelledRows(CancelCheckin(db, actor, classId, requested, now).db.checkins)
    ensures NoCancelledRows(ConfirmCheckin(db, checkinId, now).db.checkins)
  {
    var rc := ConfirmCheckin(db, checkinId, now);
    if rc.reply.Confirmed? {
      var i := FindById(db.checkins, checkinId).value;
      forall c | c in rc.db.checkins ensures c.status != Cancelled {
        var j :| 0 <= j < |rc.db.checkins| && rc.db.checkins[j] == c;
        if j != i {
          assert db.checkins[j] in db.checkins;
        }
      }
    }
  }
}
