/**
 * The doctor security bean: whether the signed-in principal is the doctor
 * with a given id, and whether it is the user with a given id.
 */
module DoctorSecurity {
  import opened Common
  import opened Entities
  import opened Persistence
  import opened Repositories
  import opened UserPrinciple
  import opened Authorization

  /**
   * `isDoctorOwner`: refused without the DOCTOR authority; otherwise the
   * principal's own doctor profile is resolved, failing if the user or the
   * profile is missing, and granted exactly when it is the requested one.
   */
  ghost function IsDoctorOwner(t: Tables, doctorId: Long, p: Principal): (d: Decision)
    ensures !HasAuthority(p, "ROLE_DOCTOR") ==> d == Deny
    ensures HasAuthority(p, "ROLE_DOCTOR") && CallerDoctor(t.users, t.doctors, p.username).Err? ==>
      d == Fault(CallerDoctor(t.users, t.doctors, p.username).error)
    ensures d.Allow? <==> HasAuthority(p, "ROLE_DOCTOR") && CallerDoctor(t.users, t.doctors, p.username) == Ok(doctorId)
  {
    if !HasAuthority(p, "ROLE_DOCTOR") then Deny
    else
      match CallerDoctor(t.users, t.doctors, p.username)
      case Err(e) => Fault(e)
      case Ok(own) => Of(own == doctorId)
  }

  /** `isUserOwner`: no role required; the user must exist and its username equal the principal's exactly. */
  function IsUserOwner(t: Tables, userId: Long, p: Principal): (d: Decision)
    ensures userId !in t.users <==> d == Fault(IllegalArgument(NotFoundMessage("User", userId)))
    ensures d.Allow? <==> userId in t.users && t.users[userId].username == Some(p.username)
  {
    if userId !in t.users then Fault(IllegalArgument(NotFoundMessage("User", userId)))
    else Of(t.users[userId].username == Some(p.username))
  }

  /** A doctor id that names no doctor is refused rather than reported, once the caller's own profile resolves. */
  lemma UnknownDoctorIsDenied(t: Tables, doctorId: Long, p: Principal)
    requires doctorId !in t.doctors
    requires HasAuthority(p, "ROLE_DOCTOR") && CallerDoctor(t.users, t.doctors, p.username).Ok?
    ensures IsDoctorOwner(t, doctorId, p) == Deny
  {
  }

  /** At most one doctor id passes the ownership check for a given principal. */
  lemma OwnerIsUnique(t: Tables, a: Long, b: Long, p: Principal)
    requires IsDoctorOwner(t, a, p).Allow? && IsDoctorOwner(t, b, p).Allow?
    ensures a == b
  {
  }
}
