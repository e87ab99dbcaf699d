/** Shared vocabulary of the gym backend model: optional values, results,
    roles, identifiers and the first-match lookup that every database
    `select ... where ...` followed by `const [row] = ...` amounts to. */
module Core {

  /** An absent or present value (`undefined` versus a value in the source). */
  datatype Option<+T> = None | Some(value: T) {
    function GetOr(default: T): T {
      match this
      case Some(v) => v
      case None => default
    }
  }

  /** A computed value or the error that stopped the computation. */
  datatype Result<+T, +E> = Ok(value: T) | Err(error: E)

  /** What a route handler returns: its reply and the store state after it. */
  datatype Step<+R, +S> = Step(reply: R, db: S)

  /** The three roles of the `user_role` enum. */
  datatype Role = Admin | Instructor | Student

  /** Database identifiers (uuids in the source) are modelled as naturals;
      where the source orders them, integer order stands for uuid order. */
  type UserId = nat
  type ClassId = nat
  type CategoryId = nat

  /** Index of the first element of `s` satisfying `p`, if any. This is what
      a query destructured as `const [row] = await db.select()...where(p)`
      yields, with "first" standing for the row the database returns first. */
  function FindFirst<T>(s: seq<T>, p: T -> bool): (r: Option<nat>)
    ensures r.Some? ==> r.value < |s| && p(s[r.value])
    ensures r.Some? ==> forall i :: 0 <= i < r.value ==> !p(s[i])
    ensures r.None? <==> forall i :: 0 <= i < |s| ==> !p(s[i])
  {
    if |s| == 0 then None
    else if p(s[0]) then Some(0)
    else
      match FindFirst(s[1..], p)
      case None => None
      case Some(j) => Some(j + 1)
  }
}
