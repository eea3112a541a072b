/**
 * The doctor endpoints: the method-security expression guarding each one
 * and, for the lookups, how an absent doctor becomes an error.
 */
module DoctorController {
  import opened Common
  import opened Entities
  import opened Persistence
  import opened Repositories
  import opened UserPrinciple
  import opened Authorization
  import DoctorService
  import DoctorSecurity

  function GetAllDoctorsPolicy(p: Principal): (d: Decision)
    ensures d.Allow? <==> HasRole(p, "ADMIN") || HasRole(p, "DOCTOR")
    ensures !d.Fault?
  {
    HasAnyOfTwo(p, "ADMIN", "DOCTOR");
    Of(HasAnyRole(p, ["ADMIN", "DOCTOR"]))
  }

  /** Reading one doctor, or searching by specialization, is open to every role. */
  function AnyRolePolicy(p: Principal): (d: Decision)
    ensures d.Allow? <==> HasRole(p, "PATIENT") || HasRole(p, "DOCTOR") || HasRole(p, "ADMIN")
    ensures !d.Fault?
  {
    var roles := ["PATIENT", "DOCTOR", "ADMIN"];
    assert roles[0] == "PATIENT" && roles[1] == "DOCTOR" && roles[2] == "ADMIN";
    Of(HasAnyRole(p, roles))
  }

  function GetDoctorByEmailPolicy(p: Principal): (d: Decision)
    ensures d.Allow? <==> HasRole(p, "ADMIN")
    ensures !d.Fault?
  {
    Of(HasRole(p, "ADMIN"))
  }

  function GetDoctorByUserIdPolicy(t: Tables, userId: Long, p: Principal): (d: Decision)
    ensures d.Allow? <==>
      HasRole(p, "ADMIN") || (HasRole(p, "DOCTOR") && userId in t.users && t.users[userId].username == Some(p.username))
    ensures !HasRole(p, "ADMIN") && HasRole(p, "DOCTOR") && userId !in t.users ==>
      d == Fault(IllegalArgument(NotFoundMessage("User", userId)))
  {
    Or(Of(HasRole(p, "ADMIN")), And(Of(HasRole(p, "DOCTOR")), DoctorSecurity.IsUserOwner(t, userId, p)))
  }

  function CreateDoctorPolicy(p: Principal): (d: Decision)
    ensures d.Allow? <==> HasRole(p, "DOCTOR") || HasRole(p, "ADMIN")
    ensures !d.Fault?
  {
    HasAnyOfTwo(p, "DOCTOR", "ADMIN");
    Of(HasAnyRole(p, ["DOCTOR", "ADMIN"]))
  }

  ghost function UpdateDoctorPolicy(t: Tables, id: Long, p: Principal): (d: Decision)
    ensures d.Allow? <==> HasRole(p, "ADMIN") || (HasRole(p, "DOCTOR") && DoctorSecurity.IsDoctorOwner(t, id, p).Allow?)
  {
    Or(Of(HasRole(p, "ADMIN")), And(Of(HasRole(p, "DOCTOR")), DoctorSecurity.IsDoctorOwner(t, id, p)))
  }

  function DeleteDoctorPolicy(p: Principal): (d: Decision)
    ensures d.Allow? <==> HasRole(p, "ADMIN")
    ensures !d.Fault?
  {
    Of(HasRole(p, "ADMIN"))
  }

  // ---------------------------------------------------------------------
  // Lookups

  function GetDoctorById(t: Tables, id: Long, p: Principal): (r: Result<Doctor>)
    ensures AnyRolePolicy(p).Deny? ==> r == Err(AccessDenied)
    ensures AnyRolePolicy(p).Allow? && id !in t.doctors ==>
      r == Err(IllegalArgument("Doctor not found with ID: " + LongToString(id)))
    ensures r.Ok? <==> AnyRolePolicy(p).Allow? && id in t.doctors
    ensures r.Ok? ==> r.value == t.doctors[id]
  {
    Guard(AnyRolePolicy(p),
          Present(DoctorService.GetDoctorById(t, Some(id)), "Doctor not found with ID: " + LongToString(id)))
  }

  ghost function GetDoctorByEmail(t: Tables, email: string, p: Principal): (r: Result<Doctor>)
    ensures !HasRole(p, "ADMIN") ==> r == Err(AccessDenied)
    ensures HasRole(p, "ADMIN") && IsBlank(email) ==> r == Err(IllegalArgument("Email cannot be null or empty"))
    ensures HasRole(p, "ADMIN") && !IsBlank(email) && UniqueDoctorEmails(t.doctors) ==>
      (r.Ok? <==> DoctorEmailTaken(t.doctors, email))
    ensures HasRole(p, "ADMIN") && !IsBlank(email) && !DoctorEmailTaken(t.doctors, email) ==>
      r == Err(IllegalArgument("Doctor not found with email: " + email))
    ensures r.Ok? ==> r.value in t.doctors.Values && r.value.email == Some(email)
  {
    Guard(GetDoctorByEmailPolicy(p),
          Present(DoctorService.GetDoctorByEmail(t, Some(email)), "Doctor not found with email: " + email))
  }

  ghost function GetDoctorByUserId(t: Tables, userId: Long, p: Principal): (r: Result<Doctor>)
    ensures GetDoctorByUserIdPolicy(t, userId, p).Deny? ==> r == Err(AccessDenied)
    ensures GetDoctorByUserIdPolicy(t, userId, p).Allow? && (forall k :: k in t.doctors ==> t.doctors[k].user != Some(userId)) ==>
      r == Err(IllegalArgument("Doctor not found with user ID: " + LongToString(userId)))
    ensures r.Ok? ==> GetDoctorByUserIdPolicy(t, userId, p).Allow? && r.value in t.doctors.Values && r.value.user == Some(userId)
    ensures GetDoctorByUserIdPolicy(t, userId, p).Allow? && FindDoctorByUserId(t.doctors, userId).Unique? ==>
      r == Ok(t.doctors[FindDoctorByUserId(t.doctors, userId).key])
  {
    Guard(GetDoctorByUserIdPolicy(t, userId, p),
          Present(DoctorService.GetDoctorByUserId(t, Some(userId)), "Doctor not found with user ID: " + LongToString(userId)))
  }

  /** The specialization search; a blank path segment is refused by the service. */
  function GetDoctorsBySpecialization(t: Tables, specialization: string, p: Principal): (r: Result<map<Long, Doctor>>)
    ensures AnyRolePolicy(p).Deny? ==> r == Err(AccessDenied)
    ensures AnyRolePolicy(p).Allow? && IsBlank(specialization) ==>
      r == Err(IllegalArgument("Specialization cannot be null or empty"))
    ensures AnyRolePolicy(p).Allow? && !IsBlank(specialization) ==> r.Ok?
    ensures r.Ok? ==> forall k :: k in r.value <==> k in t.doctors && t.doctors[k].specialization == Some(specialization)
    ensures r.Ok? ==> forall k :: k in r.value ==> r.value[k] == t.doctors[k]
  {
    Guard(AnyRolePolicy(p), DoctorService.GetDoctorsBySpecialization(t, Some(specialization)))
  }

  // ---------------------------------------------------------------------
  // Properties of the guards

  /** A doctor may update their own profile. */
  lemma OwnerMayUpdate(t: Tables, id: Long, p: Principal)
    requires HasRole(p, "DOCTOR") && CallerDoctor(t.users, t.doctors, p.username) == Ok(id)
    ensures UpdateDoctorPolicy(t, id, p) == Allow
  {
    RoleAuthorities(p);
  }

  /** A doctor may not update another doctor's profile. */
  lemma OtherDoctorMayNotUpdate(t: Tables, id: Long, p: Principal)
    requires !HasRole(p, "ADMIN") && HasRole(p, "DOCTOR")
    requires CallerDoctor(t.users, t.doctors, p.username).Ok? && CallerDoctor(t.users, t.doctors, p.username).value != id
    ensures UpdateDoctorPolicy(t, id, p) == Deny
  {
    RoleAuthorities(p);
  }

  /** Updating a doctor has no path for a patient: without the admin or doctor role it is refused. */
  lemma UpdateHasNoPatientPath(t: Tables, id: Long, p: Principal)
    requires !HasRole(p, "ADMIN") && !HasRole(p, "DOCTOR")
    ensures UpdateDoctorPolicy(t, id, p) == Deny
  {
  }

  /** With principals built as written, even a doctor is refused the doctor list. */
  lemma DoctorListRefusedAsWritten(u: User)
    requires CreateAsWritten(u).Ok?
    ensures GetAllDoctorsPolicy(CreateAsWritten(u).value) == Deny
  {
    AsWrittenPrincipalFailsEveryRoleCheck(u, RoleAdmin);
    AsWrittenPrincipalFailsEveryRoleCheck(u, RoleDoctor);
  }
}
