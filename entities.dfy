/**
 * The persisted records other than appointments: users with their roles,
 * and the patient and doctor profiles. Nullable columns are `Option`s;
 * a one-to-one link to a user is that user's id. Creation and update
 * timestamps that Hibernate stamps on these rows are not modelled.
 */
module Entities {
  import opened Common

  /**
   * The role enumeration. Its constants are named `ROLE_ADMIN`, `ROLE_DOCTOR`
   * and `ROLE_PATIENT`: registration looks them up as `"ROLE_" + name`.
   */
  datatype ERole = RoleAdmin | RoleDoctor | RolePatient

  /** `ERole.name()`. */
  function Name(r: ERole): string
  {
    match r
    case RoleAdmin => "ROLE_ADMIN"
    case RoleDoctor => "ROLE_DOCTOR"
    case RolePatient => "ROLE_PATIENT"
  }

  /** The name Spring's `hasRole` takes: the constant without its prefix. */
  function ShortName(r: ERole): string
  {
    match r
    case RoleAdmin => "ADMIN"
    case RoleDoctor => "DOCTOR"
    case RolePatient => "PATIENT"
  }

  /** `ERole.valueOf(name)`: the constant of that exact name, if any. */
  function ValueOf(name: string): (r: Option<ERole>)
    ensures r.Some? ==> Name(r.value) == name
    ensures r.None? ==> forall e: ERole :: Name(e) != name
  {
    if name == "ROLE_ADMIN" then Some(RoleAdmin)
    else if name == "ROLE_DOCTOR" then Some(RoleDoctor)
    else if name == "ROLE_PATIENT" then Some(RolePatient)
    else None
  }

  lemma NameIsPrefixedShortName(r: ERole)
    ensures Name(r) == "ROLE_" + ShortName(r)
  {
  }

  /**
   * A user account. The roles are the names of the role rows the user is
   * linked to (role names are unique in the role table).
   */
  datatype User = User(
    id: Option<Long>,
    username: Option<string>,
    email: Option<string>,
    password: Option<string>,
    roles: Option<set<ERole>>)

  datatype Patient = Patient(
    id: Option<Long>,
    firstName: Option<string>,
    lastName: Option<string>,
    email: Option<string>,
    phoneNumber: Option<string>,
    dateOfBirth: Option<int>,
    gender: Option<string>,
    address: Option<string>,
    medicalHistory: Option<string>,
    user: Option<Long>)

  datatype Doctor = Doctor(
    id: Option<Long>,
    firstName: Option<string>,
    lastName: Option<string>,
    email: Option<string>,
    phoneNumber: Option<string>,
    specialization: Option<string>,
    qualifications: Option<string>,
    address: Option<string>,
    workingHoursStart: Option<int>,
    workingHoursEnd: Option<int>,
    user: Option<Long>)
}
