/**
 * The patient security bean: whether the signed-in principal is the
 * patient with a given id, and whether it is the user with a given id.
 * Rows are identified by their table keys, which equal their ids in
 * consistent tables.
 */
module PatientSecurity {
  import opened Common
  import opened Entities
  import opened Persistence
  import opened Repositories
  import opened UserPrinciple
  import opened Authorization

  /**
   * `isPatientOwner`: refused without the PATIENT authority; otherwise the
   * principal's own patient profile is resolved (user by name ignoring
   * case, then patient by user), failing if either is missing, and granted
   * exactly when that profile is the requested one.
   */
  ghost function IsPatientOwner(t: Tables, patientId: Long, p: Principal): (d: Decision)
    ensures !HasAuthority(p, "ROLE_PATIENT") ==> d == Deny
    ensures HasAuthority(p, "ROLE_PATIENT") && CallerPatient(t.users, t.patients, p.username).Err? ==>
      d == Fault(CallerPatient(t.users, t.patients, p.username).error)
    ensures d.Allow? <==> HasAuthority(p, "ROLE_PATIENT") && CallerPatient(t.users, t.patients, p.username) == Ok(patientId)
  {
    if !HasAuthority(p, "ROLE_PATIENT") then Deny
    else
      match CallerPatient(t.users, t.patients, p.username)
      case Err(e) => Fault(e)
      case Ok(own) => Of(own == patientId)
  }

  /**
   * `isUserOwner`: no role is required; the user row must exist, and the
   * check compares its username with the principal's exactly (case matters).
   */
  function IsUserOwner(t: Tables, userId: Long, p: Principal): (d: Decision)
    ensures userId !in t.users <==> d == Fault(IllegalArgument(NotFoundMessage("User", userId)))
    ensures d.Allow? <==> userId in t.users && t.users[userId].username == Some(p.username)
  {
    if userId !in t.users then Fault(IllegalArgument(NotFoundMessage("User", userId)))
    else Of(t.users[userId].username == Some(p.username))
  }

  /** A patient id that names no patient is refused rather than reported, once the caller's own profile resolves. */
  lemma UnknownPatientIsDenied(t: Tables, patientId: Long, p: Principal)
    requires patientId !in t.patients
    requires HasAuthority(p, "ROLE_PATIENT") && CallerPatient(t.users, t.patients, p.username).Ok?
    ensures IsPatientOwner(t, patientId, p) == Deny
  {
  }

  /** At most one patient id passes the ownership check for a given principal. */
  lemma OwnerIsUnique(t: Tables, a: Long, b: Long, p: Principal)
    requires IsPatientOwner(t, a, p).Allow? && IsPatientOwner(t, b, p).Allow?
    ensures a == b
  {
  }

  /** The user check ignores the principal's authorities. */
  lemma IsUserOwnerIgnoresAuthorities(t: Tables, userId: Long, p: Principal, authorities: set<string>)
    ensures IsUserOwner(t, userId, p) == IsUserOwner(t, userId, p.(authorities := authorities))
  {
  }

  /**
   * The user check is case-sensitive while the principal's profile is found
   * ignoring case: a user stored as "Alice" is not owned by a principal named "alice".
   */
  lemma UserCheckIsCaseSensitive(t: Tables, userId: Long, p: Principal)
    requires userId in t.users && t.users[userId].username == Some("Alice")
    requires p.username == "alice"
    ensures IsUserOwner(t, userId, p) == Deny
    ensures UsernameMatches(t.users[userId], p.username)
  {
  }
}
