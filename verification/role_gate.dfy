/** The `checkUserRole` pre-handler: a request passes when the
    authenticated user's role is one of the roles the route lists. */
module RoleGate {
  import opened Core

  /** Outcome of the pre-handler: the request proceeds to the handler, or is
      answered at once with status 401 and no body. */
  datatype Gate = Proceed | Unauthorized {
    function Code(): nat {
      match this
      case Proceed => 200
      case Unauthorized => 401
    }
  }

  /** The role list every check-in route registers. */
  const AllRoles: seq<Role> := [Instructor, Admin, Student]

  function CheckUserRole(allowed: seq<Role>, role: Role): (g: Gate)
    ensures g.Proceed? <==> role in allowed
    ensures g.Unauthorized? ==> g.Code() == 401
  {
    if role !in allowed then Unauthorized else Proceed
  }

  /** An empty role list turns every caller away. */
  lemma EmptyListRejectsAll(role: Role)
    ensures CheckUserRole([], role) == Unauthorized
  {
  }

  /** Listing all three roles, as the check-in routes do, admits every
      authenticated user: the gate is then no restriction at all. */
  lemma AllRolesAdmitEveryone(role: Role)
    ensures CheckUserRole(AllRoles, role) == Proceed
  {
  }
}
