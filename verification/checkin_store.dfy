/** The check-in table as the route handlers see it: a sequence of rows, the
    lookups the handlers issue against it, the capacity count, the delete,
    and the two uniqueness invariants with the lemmas that carry them
    across row appends, in-place updates and deletes. */
module CheckinStore {
  import opened Core

  /** The check-in status enum of `src/constants/index.ts`. */
  datatype Status = Pending | Done | Cancelled

  /** Status a freshly inserted row receives. The table definition shows no
      status column, so the column default is unknown; either active value
      is allowed and both occupy a place. */
  type FreshStatus = s: Status | s != Cancelled witness Pending

  type CheckinId = nat

  datatype Checkin = Checkin(
    id: CheckinId,
    userId: UserId,
    classId: ClassId,
    status: Status,
    completedAt: Option<int>)

  /** A row in one of these states takes a place in its class: the
      `status IN ('pending','done')` of the capacity query. */
  predicate Occupies(s: Status) {
    s == Pending || s == Done
  }

  predicate IsPair(c: Checkin, u: UserId, k: ClassId) {
    c.userId == u && c.classId == k
  }

  /** The row for a (user, class) pair, if there is one. */
  function FindPair(rows: seq<Checkin>, u: UserId, k: ClassId): (r: Option<nat>)
    ensures r.Some? ==> r.value < |rows| && IsPair(rows[r.value], u, k)
    ensures r.None? <==> forall i :: 0 <= i < |rows| ==> !IsPair(rows[i], u, k)
  {
    FindFirst(rows, (c: Checkin) => IsPair(c, u, k))
  }

  /** The row with a given check-in id, if there is one. */
  function FindById(rows: seq<Checkin>, id: CheckinId): (r: Option<nat>)
    ensures r.Some? ==> r.value < |rows| && rows[r.value].id == id
    ensures r.None? <==> forall i :: 0 <= i < |rows| ==> rows[i].id != id
  {
    FindFirst(rows, (c: Checkin) => c.id == id)
  }

  /** 1 when the row takes a place in class `k`, else 0. */
  function Weight(c: Checkin, k: ClassId): nat {
    if c.classId == k && Occupies(c.status) then 1 else 0
  }

  /** Number of rows of class `k` whose status is pending or done. */
  function ActiveCount(rows: seq<Checkin>, k: ClassId): (n: nat)
    ensures n <= |rows|
    ensures n == 0 <==> forall i :: 0 <= i < |rows| ==> Weight(rows[i], k) == 0
  {
    if |rows| == 0 then 0
    else ActiveCount(rows[..|rows| - 1], k) + Weight(rows[|rows| - 1], k)
  }

  /** The rows left after `delete ... where userId = u and classId = k`. */
  function RemovePair(rows: seq<Checkin>, u: UserId, k: ClassId): (r: seq<Checkin>)
    ensures |r| <= |rows|
    ensures forall c :: c in r <==> c in rows && !IsPair(c, u, k)
  {
    if |rows| == 0 then []
    else
      var last := rows[|rows| - 1];
      RemovePair(rows[..|rows| - 1], u, k) + (if IsPair(last, u, k) then [] else [last])
  }

  /** At most one row per (user, class) pair. */
  predicate UniquePairs(rows: seq<Checkin>) {
    forall i, j :: 0 <= i < j < |rows| ==>
      (rows[i].userId, rows[i].classId) != (rows[j].userId, rows[j].classId)
  }

  /** Check-in ids are primary keys. */
  predicate UniqueIds(rows: seq<Checkin>) {
    forall i, j :: 0 <= i < j < |rows| ==> rows[i].id != rows[j].id
  }

  predicate WellFormed(rows: seq<Checkin>) {
    UniquePairs(rows) && UniqueIds(rows)
  }

  /** Appending a row adds its own weight and nothing else. */
  lemma ActiveCountAppend(rows: seq<Checkin>, c: Checkin, k: ClassId)
    ensures ActiveCount(rows + [c], k) == ActiveCount(rows, k) + Weight(c, k)
  {
    assert (rows + [c])[..|rows|] == rows;
  }

  /** Overwriting row `i` swaps that row's weight for the new row's. */
  lemma {:induction false} ActiveCountUpdate(rows: seq<Checkin>, i: nat, c: Checkin, k: ClassId)
    requires i < |rows|
    ensures ActiveCount(rows[i := c], k) + Weight(rows[i], k) == ActiveCount(rows, k) + Weight(c, k)
  {
    var n := |rows|;
    if i == n - 1 {
      assert rows[i := c][..n - 1] == rows[..n - 1];
    } else {
      assert rows[i := c][..n - 1] == rows[..n - 1][i := c];
      ActiveCountUpdate(rows[..n - 1], i, c, k);
    }
  }

  /** Deleting the rows of one pair never raises any class's count, and
      leaves the count of every other class as it was. */
  lemma {:induction false} ActiveCountRemove(rows: seq<Checkin>, u: UserId, k: ClassId, k': ClassId)
    ensures ActiveCount(RemovePair(rows, u, k), k') <= ActiveCount(rows, k')
    ensures k' != k ==> ActiveCount(RemovePair(rows, u, k), k') == ActiveCount(rows, k')
  {
    if |rows| > 0 {
      var n := |rows|;
      var last := rows[n - 1];
      var kept := if IsPair(last, u, k) then [] else [last];
      ActiveCountRemove(rows[..n - 1], u, k, k');
      if IsPair(last, u, k) {
        assert RemovePair(rows, u, k) == RemovePair(rows[..n - 1], u, k);
      } else {
        ActiveCountAppend(RemovePair(rows[..n - 1], u, k), last, k');
      }
    }
  }

  /** A row whose pair and id differ from every row of a well-formed
      sequence can be appended without breaking either invariant. */
  lemma AppendFreshRow(rest: seq<Checkin>, last: Checkin)
    requires WellFormed(rest)
    requires forall c | c in rest :: (c.userId, c.classId) != (last.userId, last.classId) && c.id != last.id
    ensures WellFormed(rest + [last])
  {
    var r := rest + [last];
    forall i, j | 0 <= i < j < |r|
      ensures (r[i].userId, r[i].classId) != (r[j].userId, r[j].classId) && r[i].id != r[j].id
    {
      if j == |r| - 1 {
        assert r[i] in rest;
      } else {
        assert r[i] == rest[i] && r[j] == rest[j];
      }
    }
  }

  /** Deleting one pair's rows keeps both uniqueness invariants. */
  lemma {:induction false} RemovePairWellFormed(rows: seq<Checkin>, u: UserId, k: ClassId)
    requires WellFormed(rows)
    ensures WellFormed(RemovePair(rows, u, k))
  {
    if |rows| > 0 {
      var n := |rows|;
      var prefix := rows[..n - 1];
      var last := rows[n - 1];
      assert WellFormed(prefix);
      RemovePairWellFormed(prefix, u, k);
      var rest := RemovePair(prefix, u, k);
      if !IsPair(last, u, k) {
        forall c | c in rest
          ensures (c.userId, c.classId) != (last.userId, last.classId) && c.id != last.id
        {
          var i :| 0 <= i < |prefix| && prefix[i] == c;
          assert rows[i] == c;
        }
        AppendFreshRow(rest, last);
      }
    }
  }
}
