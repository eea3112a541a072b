/**
 * How a method-security expression is decided: the authority tests on the
 * principal, the short-circuit `or` and `and` of the expression language,
 * and the outcome of a guarded endpoint. A security-bean method that throws
 * makes the whole expression throw, which is neither a grant nor a denial.
 */
module Authorization {
  import opened Common
  import opened Entities
  import opened UserPrinciple

  datatype Decision = Allow | Deny | Fault(error: Error)

  function Of(b: bool): (d: Decision)
    ensures d.Allow? <==> b
    ensures d.Deny? <==> !b
  {
    if b then Allow else Deny
  }

  /** `hasAuthority(a)`: an exact, case-sensitive match among the granted authorities. */
  function HasAuthority(p: Principal, authority: string): (b: bool)
    ensures p.authorities == {} ==> !b
    ensures b <==> p.authorities * {authority} != {}
  {
    assert authority in p.authorities ==> authority in p.authorities * {authority};
    authority in p.authorities
  }

  /**
   * `hasRole(role)`: the principal holds the authority `"ROLE_" + role`.
   * Spring adds the prefix only to a role that does not already start with
   * `ROLE_`; every guard here passes a short name, so the prefix is always added.
   */
  function HasRole(p: Principal, role: string): (b: bool)
    ensures forall e: ERole :: role == ShortName(e) ==> (b <==> Name(e) in p.authorities)
  {
    forall e: ERole ensures Name(e) == "ROLE_" + ShortName(e) {
      NameIsPrefixedShortName(e);
    }
    HasAuthority(p, "ROLE_" + role)
  }

  /** `hasAnyRole(roles...)`. */
  function HasAnyRole(p: Principal, roles: seq<string>): (b: bool)
    ensures b <==> exists role :: role in roles && HasRole(p, role)
    ensures roles == [] ==> !b
  {
    exists i :: 0 <= i < |roles| && HasRole(p, roles[i])
  }

  /** The authorities the security beans test are the ones `hasRole` tests for the short names. */
  lemma RoleAuthorities(p: Principal)
    ensures HasRole(p, "ADMIN") <==> HasAuthority(p, "ROLE_ADMIN")
    ensures HasRole(p, "DOCTOR") <==> HasAuthority(p, "ROLE_DOCTOR")
    ensures HasRole(p, "PATIENT") <==> HasAuthority(p, "ROLE_PATIENT")
  {
    NameIsPrefixedShortName(RoleAdmin);
    NameIsPrefixedShortName(RoleDoctor);
    NameIsPrefixedShortName(RolePatient);
  }

  /** `hasAnyRole` with two roles is `hasRole` of either. */
  lemma HasAnyOfTwo(p: Principal, a: string, b: string)
    ensures HasAnyRole(p, [a, b]) <==> HasRole(p, a) || HasRole(p, b)
  {
    assert [a, b][0] == a && [a, b][1] == b;
  }

  /** `a or b`: `b` is evaluated only when `a` is false; a throw in an evaluated operand propagates. */
  function Or(a: Decision, b: Decision): (r: Decision)
    ensures r.Allow? <==> a.Allow? || (a.Deny? && b.Allow?)
    ensures r.Deny? <==> a.Deny? && b.Deny?
    ensures a.Fault? ==> r == a
    ensures a.Deny? && b.Fault? ==> r == b
  {
    match a
    case Allow => Allow
    case Deny => b
    case Fault(_) => a
  }

  /** `a and b`: `b` is evaluated only when `a` is true. */
  function And(a: Decision, b: Decision): (r: Decision)
    ensures r.Allow? <==> a.Allow? && b.Allow?
    ensures r.Deny? <==> a.Deny? || (a.Allow? && b.Deny?)
    ensures a.Fault? ==> r == a
    ensures a.Allow? && b.Fault? ==> r == b
  {
    match a
    case Allow => b
    case Deny => Deny
    case Fault(_) => a
  }

  /** A `@PreAuthorize` endpoint: the body's outcome when granted, an access-denied error when refused. */
  function Guard<T>(d: Decision, body: Result<T>): (r: Result<T>)
    ensures d.Allow? ==> r == body
    ensures d.Deny? ==> r == Err(AccessDenied)
    ensures d.Fault? ==> r == Err(d.error)
  {
    match d
    case Allow => body
    case Deny => Err(AccessDenied)
    case Fault(e) => Err(e)
  }

  /** With the intended mapping, `hasRole` on a role's short name holds exactly for the roles the user has. */
  lemma CreatedPrincipalHasRoleIffStored(u: User, e: ERole)
    requires Create(u).Ok?
    ensures HasRole(Create(u).value, ShortName(e)) <==> e in u.roles.value
    ensures HasAuthority(Create(u).value, Name(e)) <==> e in u.roles.value
  {
    NameIsPrefixedShortName(e);
  }

  /**
   * With the mapping as written every authority reads `ROLE_ROLE_...`, so no
   * role test and no `ROLE_...` authority test passes, whatever roles the user has.
   */
  lemma AsWrittenPrincipalFailsEveryRoleCheck(u: User, e: ERole)
    requires CreateAsWritten(u).Ok?
    ensures !HasRole(CreateAsWritten(u).value, ShortName(e))
    ensures !HasAuthority(CreateAsWritten(u).value, Name(e))
  {
    var p := CreateAsWritten(u).value;
    NameIsPrefixedShortName(e);
    forall a | a in p.authorities
      ensures a != Name(e)
    {
      var r :| r in u.roles.value && AuthorityAsWritten(r) == a;
      assert |a| == 5 + |Name(r)|;
    }
  }
}
