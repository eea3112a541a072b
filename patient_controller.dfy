/**
 * The patient endpoints: the method-security expression guarding each one
 * and, for the lookups, how an absent patient becomes an error. Policies
 * are decisions on the tables, the path argument and the principal.
 */
module PatientController {
  import opened Common
  import opened Entities
  import opened Persistence
  import opened Repositories
  import opened UserPrinciple
  import opened Authorization
  import PatientService
  import PatientSecurity
  import AppointmentSecurity

  const GetPatientByIdExpression :=
    "hasRole('ADMIN') or (hasRole('PATIENT') and @patientSecurity.isPatientOwner(#id, principal)) or (hasRole('DOCTOR') and @patientSecurity.isDoctorAssignedToPatient(#id, principal))"

  function GetAllPatientsPolicy(p: Principal): (d: Decision)
    ensures d.Allow? <==> HasRole(p, "ADMIN")
    ensures !d.Fault?
  {
    Of(HasRole(p, "ADMIN"))
  }

  /**
   * The read-by-id guard as written: its third alternative calls a method
   * the patient security bean does not have, so evaluating it throws the
   * expression-evaluation error instead of deciding.
   */
  ghost function GetPatientByIdPolicyAsWritten(t: Tables, id: Long, p: Principal): (d: Decision)
    ensures d.Allow? <==>
      HasRole(p, "ADMIN") || (HasRole(p, "PATIENT") && PatientSecurity.IsPatientOwner(t, id, p).Allow?)
    ensures d.Deny? ==> !HasRole(p, "DOCTOR")
  {
    Or(Or(Of(HasRole(p, "ADMIN")),
          And(Of(HasRole(p, "PATIENT")), PatientSecurity.IsPatientOwner(t, id, p))),
       And(Of(HasRole(p, "DOCTOR")),
           Fault(IllegalArgument("Failed to evaluate expression '" + GetPatientByIdExpression + "'"))))
  }

  /**
   * The read-by-id guard as intended: an admin, the patient themself, or a
   * doctor who shares an appointment with the patient.
   */
  ghost function GetPatientByIdPolicy(t: Tables, id: Long, p: Principal): (d: Decision)
    ensures d.Allow? <==>
      || HasRole(p, "ADMIN")
      || (HasRole(p, "PATIENT") && PatientSecurity.IsPatientOwner(t, id, p).Allow?)
      || (!(HasRole(p, "PATIENT") && PatientSecurity.IsPatientOwner(t, id, p).Fault?)
          && HasRole(p, "DOCTOR") && AppointmentSecurity.IsPatientAssignedToDoctor(t, id, p).Allow?)
  {
    Or(Or(Of(HasRole(p, "ADMIN")),
          And(Of(HasRole(p, "PATIENT")), PatientSecurity.IsPatientOwner(t, id, p))),
       And(Of(HasRole(p, "DOCTOR")), AppointmentSecurity.IsPatientAssignedToDoctor(t, id, p)))
  }

  function GetPatientByEmailPolicy(p: Principal): (d: Decision)
    ensures d.Allow? <==> HasRole(p, "ADMIN")
    ensures !d.Fault?
  {
    Of(HasRole(p, "ADMIN"))
  }

  function GetPatientByUserIdPolicy(t: Tables, userId: Long, p: Principal): (d: Decision)
    ensures d.Allow? <==>
      HasRole(p, "ADMIN") || (HasRole(p, "PATIENT") && userId in t.users && t.users[userId].username == Some(p.username))
    ensures !HasRole(p, "ADMIN") && HasRole(p, "PATIENT") && userId !in t.users ==>
      d == Fault(IllegalArgument(NotFoundMessage("User", userId)))
  {
    Or(Of(HasRole(p, "ADMIN")), And(Of(HasRole(p, "PATIENT")), PatientSecurity.IsUserOwner(t, userId, p)))
  }

  function CreatePatientPolicy(p: Principal): (d: Decision)
    ensures d.Allow? <==> HasRole(p, "PATIENT") || HasRole(p, "ADMIN")
    ensures !d.Fault?
  {
    HasAnyOfTwo(p, "PATIENT", "ADMIN");
    Of(HasAnyRole(p, ["PATIENT", "ADMIN"]))
  }

  ghost function UpdatePatientPolicy(t: Tables, id: Long, p: Principal): (d: Decision)
    ensures d.Allow? <==> HasRole(p, "ADMIN") || (HasRole(p, "PATIENT") && PatientSecurity.IsPatientOwner(t, id, p).Allow?)
  {
    Or(Of(HasRole(p, "ADMIN")), And(Of(HasRole(p, "PATIENT")), PatientSecurity.IsPatientOwner(t, id, p)))
  }

  function DeletePatientPolicy(p: Principal): (d: Decision)
    ensures d.Allow? <==> HasRole(p, "ADMIN")
    ensures !d.Fault?
  {
    Of(HasRole(p, "ADMIN"))
  }

  // ---------------------------------------------------------------------
  // Lookups

  ghost function GetPatientById(t: Tables, id: Long, p: Principal): (r: Result<Patient>)
    ensures GetPatientByIdPolicy(t, id, p).Deny? ==> r == Err(AccessDenied)
    ensures GetPatientByIdPolicy(t, id, p).Allow? && id !in t.patients ==>
      r == Err(IllegalArgument("Patient not found with ID: " + LongToString(id)))
    ensures r.Ok? <==> GetPatientByIdPolicy(t, id, p).Allow? && id in t.patients
    ensures r.Ok? ==> r.value == t.patients[id]
  {
    Guard(GetPatientByIdPolicy(t, id, p),
          Present(PatientService.GetPatientById(t, Some(id)), "Patient not found with ID: " + LongToString(id)))
  }

  ghost function GetPatientByEmail(t: Tables, email: string, p: Principal): (r: Result<Patient>)
    ensures !HasRole(p, "ADMIN") ==> r == Err(AccessDenied)
    ensures HasRole(p, "ADMIN") && IsBlank(email) ==> r == Err(IllegalArgument("Email cannot be null or empty"))
    ensures HasRole(p, "ADMIN") && !IsBlank(email) && UniquePatientEmails(t.patients) ==>
      (r.Ok? <==> PatientEmailTaken(t.patients, email))
    ensures HasRole(p, "ADMIN") && !IsBlank(email) && !PatientEmailTaken(t.patients, email) ==>
      r == Err(IllegalArgument("Patient not found with email: " + email))
    ensures r.Ok? ==> r.value in t.patients.Values && r.value.email == Some(email)
  {
    Guard(GetPatientByEmailPolicy(p),
          Present(PatientService.GetPatientByEmail(t, Some(email)), "Patient not found with email: " + email))
  }

  ghost function GetPatientByUserId(t: Tables, userId: Long, p: Principal): (r: Result<Patient>)
    ensures GetPatientByUserIdPolicy(t, userId, p).Deny? ==> r == Err(AccessDenied)
    ensures GetPatientByUserIdPolicy(t, userId, p).Allow? && (forall k :: k in t.patients ==> t.patients[k].user != Some(userId)) ==>
      r == Err(IllegalArgument("Patient not found with user ID: " + LongToString(userId)))
    ensures r.Ok? ==> GetPatientByUserIdPolicy(t, userId, p).Allow? && r.value in t.patients.Values && r.value.user == Some(userId)
    ensures GetPatientByUserIdPolicy(t, userId, p).Allow? && FindPatientByUserId(t.patients, userId).Unique? ==>
      r == Ok(t.patients[FindPatientByUserId(t.patients, userId).key])
  {
    Guard(GetPatientByUserIdPolicy(t, userId, p),
          Present(PatientService.GetPatientByUserId(t, Some(userId)), "Patient not found with user ID: " + LongToString(userId)))
  }

  // ---------------------------------------------------------------------
  // Properties of the guards

  /** As written, a doctor who is neither admin nor patient can never read a patient: the guard throws. */
  lemma DoctorReadThrowsAsWritten(t: Tables, id: Long, p: Principal)
    requires HasRole(p, "DOCTOR") && !HasRole(p, "ADMIN") && !HasRole(p, "PATIENT")
    ensures GetPatientByIdPolicyAsWritten(t, id, p).Fault?
  {
  }

  /** As intended, a doctor who shares an appointment with the patient may read the patient. */
  lemma AssignedDoctorMayRead(t: Tables, id: Long, p: Principal)
    requires HasRole(p, "DOCTOR") && !HasRole(p, "PATIENT")
    requires AppointmentSecurity.IsPatientAssignedToDoctor(t, id, p) == Allow
    ensures GetPatientByIdPolicy(t, id, p) == Allow
  {
  }

  /** The two read guards agree for everyone who is not a doctor. */
  lemma GuardsAgreeWithoutDoctorRole(t: Tables, id: Long, p: Principal)
    requires !HasRole(p, "DOCTOR")
    ensures GetPatientByIdPolicyAsWritten(t, id, p) == GetPatientByIdPolicy(t, id, p)
  {
  }

  /** A patient may read and update their own profile. */
  lemma OwnerMayReadAndUpdate(t: Tables, id: Long, p: Principal)
    requires HasRole(p, "PATIENT") && CallerPatient(t.users, t.patients, p.username) == Ok(id)
    ensures GetPatientByIdPolicy(t, id, p) == Allow
    ensures UpdatePatientPolicy(t, id, p) == Allow
  {
    RoleAuthorities(p);
  }

  /** Updating a patient has no path for a doctor: without the admin or patient role it is refused. */
  lemma UpdateHasNoDoctorPath(t: Tables, id: Long, p: Principal)
    requires !HasRole(p, "ADMIN") && !HasRole(p, "PATIENT")
    ensures UpdatePatientPolicy(t, id, p) == Deny
  {
  }

  /** With principals built as written, an administrator is refused the admin-only delete. */
  lemma AdminDeleteRefusedAsWritten(u: User)
    requires CreateAsWritten(u).Ok? && RoleAdmin in u.roles.value
    ensures DeletePatientPolicy(CreateAsWritten(u).value) == Deny
  {
    AsWrittenPrincipalFailsEveryRoleCheck(u, RoleAdmin);
  }

  /** With principals built as intended, an administrator may delete, and only an administrator. */
  lemma AdminDeleteAllowed(u: User)
    requires Create(u).Ok?
    ensures DeletePatientPolicy(Create(u).value) == Allow <==> RoleAdmin in u.roles.value
  {
    CreatedPrincipalHasRoleIffStored(u, RoleAdmin);
  }
}
