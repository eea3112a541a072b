/**
 * The single-result lookups of the user, patient and doctor repositories,
 * and the resolution of the signed-in principal to its own patient or
 * doctor profile that the security checks share. A single-result query
 * that matches several rows throws; `Lookup` keeps that third outcome.
 */
module Repositories {
  import opened Common
  import opened Entities

  datatype Lookup = Missing | Unique(key: Long) | Ambiguous

  lemma TwoDistinctInLargeSet(s: set<Long>)
    requires |s| >= 2
    ensures exists j, k :: j in s && k in s && j != k
  {
    var j :| j in s;
    var rest := s - {j};
    assert |rest| >= 1;
    var k :| k in rest;
  }

  lemma PairBoundsCardinality(s: set<Long>, j: Long, k: Long)
    requires j in s && k in s && j != k
    ensures |s| >= 2
  {
    assert {j, k} <= s;
    assert |{j, k}| == 2;
    SubsetCardinality({j, k}, s);
  }

  lemma SubsetCardinality(a: set<Long>, b: set<Long>)
    requires a <= b
    ensures |a| <= |b|
  {
    assert b == a + (b - a);
  }

  lemma SingletonHasOneElement(s: set<Long>, k: Long)
    requires |s| == 1 && k in s
    ensures s == {k}
  {
    assert |s - {k}| == 0;
  }

  /**
   * A single-result query over the rows of `m` satisfying `p`: no row, the
   * one row, or several rows (an `IncorrectResultSizeDataAccessException`).
   */
  ghost function UniqueKey<T>(m: map<Long, T>, p: T -> bool): (r: Lookup)
    ensures r.Missing? <==> forall k :: k in m ==> !p(m[k])
    ensures r.Unique? ==> r.key in m && p(m[r.key]) && forall k :: k in m && p(m[k]) ==> k == r.key
    ensures r.Ambiguous? <==> exists j, k :: j in m && k in m && j != k && p(m[j]) && p(m[k])
  {
    var keys := set k | k in m && p(m[k]);
    assert forall k :: k in m && p(m[k]) ==> k in keys;
    if |keys| == 0 then
      Missing
    else if |keys| == 1 then
      var k :| k in keys;
      SingletonHasOneElement(keys, k);
      Unique(k)
    else
      TwoDistinctInLargeSet(keys);
      Ambiguous
  }

  predicate UsernameMatches(u: User, username: string)
  {
    u.username.Some? && EqualsIgnoreCase(u.username.value, username)
  }

  /** `UserRepository.findByUsernameIgnoreCase`. */
  ghost function FindUserByUsernameIgnoreCase(users: map<Long, User>, username: string): (r: Lookup)
    ensures r.Missing? <==> forall k :: k in users ==> !UsernameMatches(users[k], username)
    ensures r.Unique? ==> r.key in users && UsernameMatches(users[r.key], username)
    ensures r.Unique? ==> forall k :: k in users && UsernameMatches(users[k], username) ==> k == r.key
  {
    UniqueKey(users, (u: User) => UsernameMatches(u, username))
  }

  /** `PatientRepository.findByUserId`. */
  ghost function FindPatientByUserId(patients: map<Long, Patient>, userId: Long): (r: Lookup)
    ensures r.Missing? <==> forall k :: k in patients ==> patients[k].user != Some(userId)
    ensures r.Unique? ==> r.key in patients && patients[r.key].user == Some(userId)
    ensures r.Unique? ==> forall k :: k in patients && patients[k].user == Some(userId) ==> k == r.key
  {
    UniqueKey(patients, (p: Patient) => p.user == Some(userId))
  }

  /** `DoctorRepository.findByUserId`. */
  ghost function FindDoctorByUserId(doctors: map<Long, Doctor>, userId: Long): (r: Lookup)
    ensures r.Missing? <==> forall k :: k in doctors ==> doctors[k].user != Some(userId)
    ensures r.Unique? ==> r.key in doctors && doctors[r.key].user == Some(userId)
    ensures r.Unique? ==> forall k :: k in doctors && doctors[k].user == Some(userId) ==> k == r.key
  {
    UniqueKey(doctors, (d: Doctor) => d.user == Some(userId))
  }

  /** `PatientRepository.findByEmail` (exact match). */
  ghost function FindPatientByEmail(patients: map<Long, Patient>, email: string): (r: Lookup)
    ensures r.Missing? <==> !PatientEmailTaken(patients, email)
    ensures r.Unique? ==> r.key in patients && patients[r.key].email == Some(email)
    ensures r.Unique? ==> forall k :: k in patients && patients[k].email == Some(email) ==> k == r.key
  {
    UniqueKey(patients, (p: Patient) => p.email == Some(email))
  }

  /** `DoctorRepository.findByEmail` (exact match). */
  ghost function FindDoctorByEmail(doctors: map<Long, Doctor>, email: string): (r: Lookup)
    ensures r.Missing? <==> !DoctorEmailTaken(doctors, email)
    ensures r.Unique? ==> r.key in doctors && doctors[r.key].email == Some(email)
    ensures r.Unique? ==> forall k :: k in doctors && doctors[k].email == Some(email) ==> k == r.key
  {
    UniqueKey(doctors, (d: Doctor) => d.email == Some(email))
  }

  /** `UserRepository.existsByUsername` (exact match). */
  function ExistsByUsername(users: map<Long, User>, username: string): (b: bool)
    ensures b <==> Some(username) in set k | k in users :: users[k].username
    ensures b ==> !FindUserByUsernameIgnoreCase(users, username).Missing?
  {
    exists k :: k in users && users[k].username == Some(username)
  }

  /** `UserRepository.existsByEmail` (exact match). */
  function ExistsByEmail(users: map<Long, User>, email: string): (b: bool)
    ensures b <==> Some(email) in set k | k in users :: users[k].email
  {
    exists k :: k in users && users[k].email == Some(email)
  }

  /** Whether a patient row already has this email (`findByEmail(...).isPresent()`). */
  function PatientEmailTaken(patients: map<Long, Patient>, email: string): (b: bool)
    ensures b <==> Some(email) in set k | k in patients :: patients[k].email
  {
    exists k :: k in patients && patients[k].email == Some(email)
  }

  /** `DoctorRepository.existsByEmail`. */
  function DoctorEmailTaken(doctors: map<Long, Doctor>, email: string): (b: bool)
    ensures b <==> Some(email) in set k | k in doctors :: doctors[k].email
  {
    exists k :: k in doctors && doctors[k].email == Some(email)
  }

  /** The user a signed-in name resolves to; the checks use the case-insensitive lookup. */
  ghost function CallerUser(users: map<Long, User>, username: string): (r: Result<Long>)
    ensures r.Ok? <==> FindUserByUsernameIgnoreCase(users, username).Unique?
    ensures r.Ok? ==> r.value in users && UsernameMatches(users[r.value], username)
    ensures FindUserByUsernameIgnoreCase(users, username).Missing? ==>
      r == Err(IllegalArgument("User not found with username: " + username))
  {
    match FindUserByUsernameIgnoreCase(users, username)
    case Missing => Err(IllegalArgument("User not found with username: " + username))
    case Ambiguous => Err(NonUniqueResult)
    case Unique(uid) => Ok(uid)
  }

  /**
   * The patient profile of the signed-in user: user by name, ignoring case,
   * then patient by user id, with the error each failed step raises.
   */
  ghost function CallerPatient(users: map<Long, User>, patients: map<Long, Patient>, username: string): (r: Result<Long>)
    ensures r.Ok? ==>
              (&& r.value in patients && patients[r.value].user.Some?
               && patients[r.value].user.value in users
               && UsernameMatches(users[patients[r.value].user.value], username))
    ensures CallerUser(users, username).Err? ==> r == Err(CallerUser(users, username).error)
    ensures CallerUser(users, username).Ok? ==>
      var uid := CallerUser(users, username).value;
      (FindPatientByUserId(patients, uid).Missing? ==>
         r == Err(IllegalArgument("Patient not found for user ID: " + LongToString(uid))))
      && (r.Ok? <==> FindPatientByUserId(patients, uid).Unique?)
  {
    match CallerUser(users, username)
    case Err(e) => Err(e)
    case Ok(uid) =>
      match FindPatientByUserId(patients, uid)
      case Missing => Err(IllegalArgument("Patient not found for user ID: " + LongToString(uid)))
      case Ambiguous => Err(NonUniqueResult)
      case Unique(pid) => Ok(pid)
  }

  /** The doctor profile of the signed-in user, resolved the same way. */
  ghost function CallerDoctor(users: map<Long, User>, doctors: map<Long, Doctor>, username: string): (r: Result<Long>)
    ensures r.Ok? ==>
              (&& r.value in doctors && doctors[r.value].user.Some?
               && doctors[r.value].user.value in users
               && UsernameMatches(users[doctors[r.value].user.value], username))
    ensures CallerUser(users, username).Err? ==> r == Err(CallerUser(users, username).error)
    ensures CallerUser(users, username).Ok? ==>
      var uid := CallerUser(users, username).value;
      (FindDoctorByUserId(doctors, uid).Missing? ==>
         r == Err(IllegalArgument("Doctor not found for user ID: " + LongToString(uid))))
      && (r.Ok? <==> FindDoctorByUserId(doctors, uid).Unique?)
  {
    match CallerUser(users, username)
    case Err(e) => Err(e)
    case Ok(uid) =>
      match FindDoctorByUserId(doctors, uid)
      case Missing => Err(IllegalArgument("Doctor not found for user ID: " + LongToString(uid)))
      case Ambiguous => Err(NonUniqueResult)
      case Unique(did) => Ok(did)
  }

  /** Under unique emails, the email lookup finds the row holding the email, or nothing. */
  lemma PatientEmailLookupUnderUniqueness(patients: map<Long, Patient>, email: string)
    requires forall j, k :: j in patients && k in patients && patients[j].email.Some? && patients[j].email == patients[k].email ==> j == k
    ensures !FindPatientByEmail(patients, email).Ambiguous?
    ensures FindPatientByEmail(patients, email).Unique? <==> PatientEmailTaken(patients, email)
  {
  }

  /** Under unique emails, the doctor email lookup finds the row holding the email, or nothing. */
  lemma DoctorEmailLookupUnderUniqueness(doctors: map<Long, Doctor>, email: string)
    requires forall j, k :: j in doctors && k in doctors && doctors[j].email.Some? && doctors[j].email == doctors[k].email ==> j == k
    ensures !FindDoctorByEmail(doctors, email).Ambiguous?
    ensures FindDoctorByEmail(doctors, email).Unique? <==> DoctorEmailTaken(doctors, email)
  {
  }
}
