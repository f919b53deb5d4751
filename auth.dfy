/**
 * The authorization gate in front of every controller action. Token
 * verification happens before this point; what reaches the gate is either an
 * anonymous caller or an authenticated one with the role claims of its token.
 */
module Auth {
  /** The caller of an action, as seen after bearer-token authentication. */
  datatype Caller = Anonymous | Authenticated(roles: set<string>)

  /** The attribute on an action: `[AllowAnonymous]` or `[Authorize(Roles = "...")]`. */
  datatype Policy = AllowAnonymous | RequireRole(role: string)

  /** Allow runs the action; Challenge is the 401 for a caller without a token, Forbid the 403 for a missing role. */
  datatype Decision = Allow | Challenge | Forbid

  const Employee: string := "employee"
  const Manager: string := "manager"

  /** Whether the caller holds the role claim; role names are compared exactly. */
  predicate InRole(caller: Caller, role: string)
  {
    caller.Authenticated? && role in caller.roles
  }

  function Authorize(policy: Policy, caller: Caller): (d: Decision)
    ensures d == Allow <==> policy.AllowAnonymous? || InRole(caller, policy.role)
    ensures d == Challenge <==> policy.RequireRole? && caller.Anonymous?
    ensures d == Forbid <==> policy.RequireRole? && caller.Authenticated? && policy.role !in caller.roles
  {
    match policy
    case AllowAnonymous => Allow
    case RequireRole(role) =>
      if caller.Anonymous? then Challenge
      else if role in caller.roles then Allow
      else Forbid
  }

  /**
   * Roles are not ordered: holding "employee" never grants "manager". Whatever
   * other roles a token carries, without "manager" it is forbidden at the
   * manager gate, and with "employee" it passes the employee gate.
   */
  lemma RolesAreIndependent(roles: set<string>)
    ensures Manager !in roles ==> Authorize(RequireRole(Manager), Authenticated(roles)) == Forbid
    ensures Employee in roles ==> Authorize(RequireRole(Employee), Authenticated(roles)) == Allow
  {
  }
}
