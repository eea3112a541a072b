# Medical Appointment System API — a Dafny model of its core

This project models the core of a Spring Boot backend that books medical
appointments. It covers three parts of that backend.

- **Appointment lifecycle.** Patients and doctors have appointments. The
  appointment service creates, reads, updates, deletes and re-states
  them. The appointment repository answers the service's queries. The
  end-after-start validator guards the appointment entity.
- **Access control.** Every patient and doctor endpoint has a
  `@PreAuthorize` expression. The expressions use the role tests of
  Spring Security and three security beans:
  - `AppointmentSecurity` checks appointment ownership and whether a
    doctor and a patient are assigned to each other;
  - `PatientSecurity` checks that the caller owns a patient profile or
    a user account;
  - `DoctorSecurity` does the same for doctor profiles.

  `UserPrinciple.create` turns a stored user into the principal these
  expressions test.
- **Profiles and accounts.** The patient and doctor services create,
  update and delete profiles. Deleting a profile cascades to its
  appointments. The signup endpoint registers accounts and resolves
  their roles.

The database is a value, `Persistence.Tables`: one map per table, keyed by
the generated id. The schema's integrity is the predicate
`Persistence.Consistent`:
- every row is stored under its own id;
- every appointment references a stored patient and doctor;
- the username and email columns hold no duplicates.

Each transactional operation is a function returning a `Step`: the
result, or the exception thrown, together with the tables it leaves. A
thrown exception rolls the transaction back, so the tables are unchanged.

The services and the signup controller are classes over a shared mutable
`Persistence.Store`. Each of their methods is proved to leave exactly the
state and result of its specification function, and to keep the store
consistent.

Security decisions are `Authorization.Decision` values: `Allow`, `Deny`,
or `Fault(e)` when a bean throws while the expression is evaluated.
`Authorization.Or` and `Authorization.And` follow the short-circuit
evaluation of the expression language.

Nullable Java references are `Option`s. Clock readings (`now`), the ids
an insert generates (`newId`) and the password encoder (`encode`) are
parameters.

## Model

| member | source | states |
|---|---|---|
| Appointments.EndDateTimeValid | MedicalAppointmentSystemAPI/src/main/java/com/dev/MedicalAppointmentSystemAPI/model/Appointment.java:121-126 | a null end is valid; with both set, valid exactly when the end is strictly after the start; an end without a start throws |
| Appointments.EndEqualToStartIsInvalid | MedicalAppointmentSystemAPI/src/main/java/com/dev/MedicalAppointmentSystemAPI/model/Appointment.java:121-126 | an end equal to the start is rejected |
| Appointments.EndDateTimeValidShiftInvariant | MedicalAppointmentSystemAPI/src/main/java/com/dev/MedicalAppointmentSystemAPI/model/Appointment.java:121-126 | shifting start and end by the same amount does not change the verdict |
| Appointments.ConstraintsHold | MedicalAppointmentSystemAPI/src/main/java/com/dev/MedicalAppointmentSystemAPI/model/Appointment.java:30-88 | an appointment meeting the entity's constraints has a start strictly after now and no end at or before its start |
| AppointmentRepository.FindByPatientId | MedicalAppointmentSystemAPI/src/main/java/com/dev/MedicalAppointmentSystemAPI/repository/AppointmentRepository.java:27 | holds exactly the stored appointments of that patient, unchanged |
| AppointmentRepository.FindByDoctorId | MedicalAppointmentSystemAPI/src/main/java/com/dev/MedicalAppointmentSystemAPI/repository/AppointmentRepository.java:42 | holds exactly the stored appointments of that doctor, unchanged |
| AppointmentRepository.FindByStatus | MedicalAppointmentSystemAPI/src/main/java/com/dev/MedicalAppointmentSystemAPI/repository/AppointmentRepository.java:57 | holds exactly the stored appointments with that status |
| AppointmentRepository.FindByDoctorIdAndDateRange | MedicalAppointmentSystemAPI/src/main/java/com/dev/MedicalAppointmentSystemAPI/repository/AppointmentRepository.java:74-77 | the doctor's appointments whose start lies in the inclusive range; a null start never matches |
| AppointmentRepository.FindByPatientIdAndDateRange | MedicalAppointmentSystemAPI/src/main/java/com/dev/MedicalAppointmentSystemAPI/repository/AppointmentRepository.java:100-103 | the patient's appointments whose start lies in the inclusive range |
| AppointmentRepository.FindByPatientIdAndDoctorId | MedicalAppointmentSystemAPI/src/main/java/com/dev/MedicalAppointmentSystemAPI/repository/AppointmentRepository.java:124 | the appointments that join exactly this patient and this doctor |
| AppointmentRepository.ExistsByPatientIdAndDoctorId | MedicalAppointmentSystemAPI/src/main/java/com/dev/MedicalAppointmentSystemAPI/repository/AppointmentRepository.java:132 | holds exactly when some stored appointment joins this patient with this doctor |
| AppointmentRepository.FindNonEmptyIffExists | MedicalAppointmentSystemAPI/src/main/java/com/dev/MedicalAppointmentSystemAPI/repository/AppointmentRepository.java:124-132 | the pair query is non-empty exactly when the existence query holds |
| AppointmentRepository.PatientRangeRestrictsPatientQuery | MedicalAppointmentSystemAPI/src/main/java/com/dev/MedicalAppointmentSystemAPI/repository/AppointmentRepository.java:100-103 | the ranged patient query is the patient query cut down to the range |
| AppointmentRepository.DoctorRangeRestrictsDoctorQuery | MedicalAppointmentSystemAPI/src/main/java/com/dev/MedicalAppointmentSystemAPI/repository/AppointmentRepository.java:74-77 | the ranged doctor query is the doctor query cut down to the range |
| AppointmentRepository.DoctorRangeSplits | MedicalAppointmentSystemAPI/src/main/java/com/dev/MedicalAppointmentSystemAPI/repository/AppointmentRepository.java:74-77 | [start, mid] and [mid+1, end] give disjoint results whose union is the result for [start, end] |
| AppointmentRepository.PointRange | MedicalAppointmentSystemAPI/src/main/java/com/dev/MedicalAppointmentSystemAPI/repository/AppointmentRepository.java:100-103 | a range with equal bounds returns the appointments at exactly that instant, since BETWEEN is inclusive |
| AppointmentRepository.StatusQueriesPartition | MedicalAppointmentSystemAPI/src/main/java/com/dev/MedicalAppointmentSystemAPI/repository/AppointmentRepository.java:57 | an appointment with a status is in that status's result and in no other |
| AppointmentService.GetAppointmentById | MedicalAppointmentSystemAPI/src/main/java/com/dev/MedicalAppointmentSystemAPI/service/AppointmentService.java:43-50 | a null id is refused; otherwise the stored appointment, or empty when there is none |
| AppointmentService.GetAppointmentsByPatientId | MedicalAppointmentSystemAPI/src/main/java/com/dev/MedicalAppointmentSystemAPI/service/AppointmentService.java:53-60 | a null id, and only a null id, is refused; any other id succeeds with exactly the stored appointments of that patient, each row as stored |
| AppointmentService.GetAppointmentsByDoctorId | MedicalAppointmentSystemAPI/src/main/java/com/dev/MedicalAppointmentSystemAPI/service/AppointmentService.java:63-70 | a null id, and only a null id, is refused; any other id succeeds with exactly the stored appointments of that doctor, each row as stored |
| AppointmentService.GetAppointmentsByStatus | MedicalAppointmentSystemAPI/src/main/java/com/dev/MedicalAppointmentSystemAPI/service/AppointmentService.java:73-80 | a null status, and only a null status, is refused; any other status succeeds with exactly the stored appointments with that status, each row as stored |
| AppointmentService.ValidateDateRange | MedicalAppointmentSystemAPI/src/main/java/com/dev/MedicalAppointmentSystemAPI/service/AppointmentService.java:194-203 | passes exactly when both bounds are set and start is not after end, with the two distinct messages otherwise |
| AppointmentService.GetAppointmentsByDoctorAndDateRange | MedicalAppointmentSystemAPI/src/main/java/com/dev/MedicalAppointmentSystemAPI/service/AppointmentService.java:83-91 | the range is validated before the id, with the range's error; a valid range and a non-null id always succeed, with exactly the doctor's stored appointments in the range, each row as stored |
| AppointmentService.GetAppointmentsByPatientAndDateRange | MedicalAppointmentSystemAPI/src/main/java/com/dev/MedicalAppointmentSystemAPI/service/AppointmentService.java:94-102 | the range is validated before the id, with the range's error; a valid range and a non-null id always succeed, with exactly the patient's stored appointments in the range, each row as stored |
| AppointmentService.Create | MedicalAppointmentSystemAPI/src/main/java/com/dev/MedicalAppointmentSystemAPI/service/AppointmentService.java:105-129 | errors in order: null argument, missing patient, missing doctor, then "Appointment date must be in the future" for a start that is null or in the past; success exactly otherwise, storing the appointment linked, SCHEDULED and stamped under the new id; a failure changes nothing |
| AppointmentService.Update | MedicalAppointmentSystemAPI/src/main/java/com/dev/MedicalAppointmentSystemAPI/service/AppointmentService.java:132-164 | null or missing id refused; a past new start refused with "Appointment date must be in the future"; otherwise each non-null detail replaces its field, with the id, links and creation stamp kept and the update stamp set |
| AppointmentService.Delete | MedicalAppointmentSystemAPI/src/main/java/com/dev/MedicalAppointmentSystemAPI/service/AppointmentService.java:167-177 | null or missing id refused without change; otherwise exactly that row is removed |
| AppointmentService.UpdateStatus | MedicalAppointmentSystemAPI/src/main/java/com/dev/MedicalAppointmentSystemAPI/service/AppointmentService.java:180-192 | any status may replace any other; only the status and the update stamp change |
| AppointmentService.UpdateStatusIsStatusOnlyUpdate | MedicalAppointmentSystemAPI/src/main/java/com/dev/MedicalAppointmentSystemAPI/service/AppointmentService.java:132-192 | for a non-null id, setting a status is the general update with only that status, errors included |
| AppointmentService.UpdateIsIdempotent | MedicalAppointmentSystemAPI/src/main/java/com/dev/MedicalAppointmentSystemAPI/service/AppointmentService.java:132-164 | repeating an accepted update at the same instant changes nothing more |
| AppointmentService.NotesOnlyUpdate | MedicalAppointmentSystemAPI/src/main/java/com/dev/MedicalAppointmentSystemAPI/service/AppointmentService.java:132-164 | details holding only notes change the notes and the stamp and nothing else |
| AppointmentService.CreateThenDeleteRestores | MedicalAppointmentSystemAPI/src/main/java/com/dev/MedicalAppointmentSystemAPI/service/AppointmentService.java:105-177 | deleting the appointment just created gives back the earlier tables |
| AppointmentService.CreatedAppointmentIsListed | MedicalAppointmentSystemAPI/src/main/java/com/dev/MedicalAppointmentSystemAPI/service/AppointmentService.java:105-129 | a created appointment appears in the patient, doctor and SCHEDULED queries and makes the pair exist |
| AppointmentService.SecondDeleteFails | MedicalAppointmentSystemAPI/src/main/java/com/dev/MedicalAppointmentSystemAPI/service/AppointmentService.java:167-177 | a second delete of the same id fails with the not-found error |
| AppointmentService.StartAtNowPassesServiceButNotFuture | MedicalAppointmentSystemAPI/src/main/java/com/dev/MedicalAppointmentSystemAPI/service/AppointmentService.java:117-120 | a start equal to the clock passes the service's past-date test but breaks the entity's future constraint |
| AppointmentService.UpdateCanBreakEndRule | MedicalAppointmentSystemAPI/src/main/java/com/dev/MedicalAppointmentSystemAPI/service/AppointmentService.java:132-164 | moving the start past the stored end is accepted and leaves a row the end validator rejects |
| AppointmentService.CreatePreservesConsistency | MedicalAppointmentSystemAPI/src/main/java/com/dev/MedicalAppointmentSystemAPI/service/AppointmentService.java:105-129 | create keeps the schema's integrity |
| AppointmentService.UpdatePreservesConsistency | MedicalAppointmentSystemAPI/src/main/java/com/dev/MedicalAppointmentSystemAPI/service/AppointmentService.java:132-164 | update keeps the schema's integrity |
| AppointmentService.UpdateStatusPreservesConsistency | MedicalAppointmentSystemAPI/src/main/java/com/dev/MedicalAppointmentSystemAPI/service/AppointmentService.java:180-192 | a status change keeps the schema's integrity |
| AppointmentService.DeletePreservesConsistency | MedicalAppointmentSystemAPI/src/main/java/com/dev/MedicalAppointmentSystemAPI/service/AppointmentService.java:167-177 | delete keeps the schema's integrity |
| AppointmentService.Service.CreateAppointment | MedicalAppointmentSystemAPI/src/main/java/com/dev/MedicalAppointmentSystemAPI/service/AppointmentService.java:105-129 | the store ends in the state, and the call returns the result, that `Create` specifies, and stays consistent |
| AppointmentService.Service.UpdateAppointment | MedicalAppointmentSystemAPI/src/main/java/com/dev/MedicalAppointmentSystemAPI/service/AppointmentService.java:132-164 | the store ends in the state, and the call returns the result, that `Update` specifies, and stays consistent |
| AppointmentService.Service.DeleteAppointment | MedicalAppointmentSystemAPI/src/main/java/com/dev/MedicalAppointmentSystemAPI/service/AppointmentService.java:167-177 | the store ends in the state, and the call returns the result, that `Delete` specifies, and stays consistent |
| AppointmentService.Service.UpdateAppointmentStatus | MedicalAppointmentSystemAPI/src/main/java/com/dev/MedicalAppointmentSystemAPI/service/AppointmentService.java:180-192 | the store ends in the state, and the call returns the result, that `UpdateStatus` specifies, and stays consistent |
| Repositories.UniqueKey | MedicalAppointmentSystemAPI/src/main/java/com/dev/MedicalAppointmentSystemAPI/repository/UserRepository.java:28 | a single-result query finds no row, the only matching row, or several rows, exactly as the rows match |
| Repositories.FindUserByUsernameIgnoreCase | MedicalAppointmentSystemAPI/src/main/java/com/dev/MedicalAppointmentSystemAPI/repository/UserRepository.java:28 | missing exactly when no username matches ignoring case; a unique result is the only matching user |
| Repositories.FindPatientByUserId | MedicalAppointmentSystemAPI/src/main/java/com/dev/MedicalAppointmentSystemAPI/repository/PatientRepository.java:42 | missing exactly when no patient is linked to the user; a unique result is the only linked patient |
| Repositories.FindDoctorByUserId | MedicalAppointmentSystemAPI/src/main/java/com/dev/MedicalAppointmentSystemAPI/repository/DoctorRepository.java:43 | missing exactly when no doctor is linked to the user; a unique result is the only linked doctor |
| Repositories.FindPatientByEmail | MedicalAppointmentSystemAPI/src/main/java/com/dev/MedicalAppointmentSystemAPI/repository/PatientRepository.java:21 | missing exactly when no patient holds the email; a unique result is the only patient holding it |
| Repositories.FindDoctorByEmail | MedicalAppointmentSystemAPI/src/main/java/com/dev/MedicalAppointmentSystemAPI/repository/DoctorRepository.java:22 | missing exactly when no doctor holds the email; a unique result is the only doctor holding it |
| Repositories.ExistsByUsername | MedicalAppointmentSystemAPI/src/main/java/com/dev/MedicalAppointmentSystemAPI/repository/UserRepository.java:49 | holds exactly when the username column contains the name; then the case-insensitive lookup is never missing |
| Repositories.ExistsByEmail | MedicalAppointmentSystemAPI/src/main/java/com/dev/MedicalAppointmentSystemAPI/repository/UserRepository.java:56 | holds exactly when the email column contains the email |
| Repositories.PatientEmailTaken | MedicalAppointmentSystemAPI/src/main/java/com/dev/MedicalAppointmentSystemAPI/service/PatientService.java:103 | holds exactly when the patients' email column contains the email |
| Repositories.DoctorEmailTaken | MedicalAppointmentSystemAPI/src/main/java/com/dev/MedicalAppointmentSystemAPI/repository/DoctorRepository.java:36 | holds exactly when the doctors' email column contains the email |
| Repositories.CallerUser | MedicalAppointmentSystemAPI/src/main/java/com/dev/MedicalAppointmentSystemAPI/security/PatientSecurity.java:54-58 | the caller's user is the one user whose name equals theirs ignoring case; none gives the user-not-found error |
| Repositories.CallerPatient | MedicalAppointmentSystemAPI/src/main/java/com/dev/MedicalAppointmentSystemAPI/security/PatientSecurity.java:54-64 | the caller's patient profile is the one linked to their user, with the error of whichever step fails |
| Repositories.CallerDoctor | MedicalAppointmentSystemAPI/src/main/java/com/dev/MedicalAppointmentSystemAPI/security/DoctorSecurity.java:54-64 | the caller's doctor profile is the one linked to their user, with the error of whichever step fails |
| Repositories.PatientEmailLookupUnderUniqueness | MedicalAppointmentSystemAPI/src/main/java/com/dev/MedicalAppointmentSystemAPI/repository/PatientRepository.java:21 | with unique emails the email lookup is never ambiguous, and finds a row exactly when the email is taken |
| Repositories.DoctorEmailLookupUnderUniqueness | MedicalAppointmentSystemAPI/src/main/java/com/dev/MedicalAppointmentSystemAPI/repository/DoctorRepository.java:22 | with unique emails the email lookup is never ambiguous, and finds a row exactly when the email is taken |
| PatientService.GetPatientById | MedicalAppointmentSystemAPI/src/main/java/com/dev/MedicalAppointmentSystemAPI/service/PatientService.java:50-57 | a null id is refused; otherwise the stored patient or empty |
| PatientService.GetPatientByEmail | MedicalAppointmentSystemAPI/src/main/java/com/dev/MedicalAppointmentSystemAPI/service/PatientService.java:66-73 | a null or blank email is refused; a found patient holds exactly that email |
| PatientService.GetPatientByUserId | MedicalAppointmentSystemAPI/src/main/java/com/dev/MedicalAppointmentSystemAPI/service/PatientService.java:82-89 | a null id is refused; a user linked to exactly one patient gets that stored patient; no linked patient gives empty; two linked patients give the non-unique-result error |
| PatientService.Create | MedicalAppointmentSystemAPI/src/main/java/com/dev/MedicalAppointmentSystemAPI/service/PatientService.java:98-109 | a null patient or a taken email is refused without change; otherwise exactly the patient is stored under the new id |
| PatientService.Update | MedicalAppointmentSystemAPI/src/main/java/com/dev/MedicalAppointmentSystemAPI/service/PatientService.java:120-150 | null or missing id refused; a changed email that is taken refused; otherwise the five patchable fields take non-null details and birth date, gender, address and user are kept |
| PatientService.WithoutPatient | MedicalAppointmentSystemAPI/src/main/java/com/dev/MedicalAppointmentSystemAPI/model/Patient.java:104 | the cascade removes exactly the patient's appointments and keeps the others unchanged |
| PatientService.Delete | MedicalAppointmentSystemAPI/src/main/java/com/dev/MedicalAppointmentSystemAPI/service/PatientService.java:159-168 | null or missing id refused without change; otherwise the patient and, by the cascade, their appointments are removed |
| PatientService.OwnEmailNeverConflicts | MedicalAppointmentSystemAPI/src/main/java/com/dev/MedicalAppointmentSystemAPI/service/PatientService.java:135-141 | sending back one's own email is never an email conflict |
| PatientService.TakenEmailIsRefused | MedicalAppointmentSystemAPI/src/main/java/com/dev/MedicalAppointmentSystemAPI/service/PatientService.java:135-141 | taking another patient's email is refused and changes nothing |
| PatientService.UpdateIsIdempotent | MedicalAppointmentSystemAPI/src/main/java/com/dev/MedicalAppointmentSystemAPI/service/PatientService.java:120-150 | repeating an accepted update changes nothing more |
| PatientService.DeleteRemovesOnlyThePatientsAppointments | MedicalAppointmentSystemAPI/src/main/java/com/dev/MedicalAppointmentSystemAPI/service/PatientService.java:159-168 | after a delete no appointment of the patient is left and every other one is kept |
| PatientService.CreateThenDeleteRestores | MedicalAppointmentSystemAPI/src/main/java/com/dev/MedicalAppointmentSystemAPI/service/PatientService.java:98-168 | deleting the patient just created gives back the earlier tables |
| PatientService.CreatePreservesConsistency | MedicalAppointmentSystemAPI/src/main/java/com/dev/MedicalAppointmentSystemAPI/service/PatientService.java:98-109 | create keeps the schema's integrity, the unique email column included |
| PatientService.UpdatePreservesConsistency | MedicalAppointmentSystemAPI/src/main/java/com/dev/MedicalAppointmentSystemAPI/service/PatientService.java:120-150 | update keeps the schema's integrity |
| PatientService.DeletePreservesConsistency | MedicalAppointmentSystemAPI/src/main/java/com/dev/MedicalAppointmentSystemAPI/service/PatientService.java:159-168 | delete keeps the schema's integrity: no appointment is left pointing at the removed patient |
| PatientService.Service.CreatePatient | MedicalAppointmentSystemAPI/src/main/java/com/dev/MedicalAppointmentSystemAPI/service/PatientService.java:98-109 | the store ends as `Create` specifies and stays consistent |
| PatientService.Service.UpdatePatient | MedicalAppointmentSystemAPI/src/main/java/com/dev/MedicalAppointmentSystemAPI/service/PatientService.java:120-150 | the store ends as `Update` specifies and stays consistent |
| PatientService.Service.DeletePatient | MedicalAppointmentSystemAPI/src/main/java/com/dev/MedicalAppointmentSystemAPI/service/PatientService.java:159-168 | the store ends as `Delete` specifies and stays consistent |
| DoctorService.GetDoctorById | MedicalAppointmentSystemAPI/src/main/java/com/dev/MedicalAppointmentSystemAPI/service/DoctorService.java:50-57 | a null id is refused; otherwise the stored doctor or empty |
| DoctorService.GetDoctorByEmail | MedicalAppointmentSystemAPI/src/main/java/com/dev/MedicalAppointmentSystemAPI/service/DoctorService.java:66-73 | a null or blank email is refused; a found doctor holds exactly that email |
| DoctorService.GetDoctorByUserId | MedicalAppointmentSystemAPI/src/main/java/com/dev/MedicalAppointmentSystemAPI/service/DoctorService.java:82-89 | a null id is refused; a user linked to exactly one doctor gets that stored doctor; no linked doctor gives empty; two linked doctors give the non-unique-result error |
| DoctorService.GetDoctorsBySpecialization | MedicalAppointmentSystemAPI/src/main/java/com/dev/MedicalAppointmentSystemAPI/service/DoctorService.java:98-105 | refused exactly for a null or blank specialization; otherwise exactly the doctors with that specialization, compared exactly |
| DoctorService.Create | MedicalAppointmentSystemAPI/src/main/java/com/dev/MedicalAppointmentSystemAPI/service/DoctorService.java:114-125 | a null doctor or a taken email is refused without change; otherwise exactly the doctor is stored under the new id |
| DoctorService.Update | MedicalAppointmentSystemAPI/src/main/java/com/dev/MedicalAppointmentSystemAPI/service/DoctorService.java:136-178 | null or missing id refused; a changed email that is taken refused; otherwise the nine patchable fields take non-null details and the user link is kept |
| DoctorService.WithoutDoctor | MedicalAppointmentSystemAPI/src/main/java/com/dev/MedicalAppointmentSystemAPI/model/Doctor.java:111 | the cascade removes exactly the doctor's appointments and keeps the others unchanged |
| DoctorService.Delete | MedicalAppointmentSystemAPI/src/main/java/com/dev/MedicalAppointmentSystemAPI/service/DoctorService.java:187-196 | null or missing id refused without change; otherwise the doctor and their appointments are removed |
| DoctorService.OwnEmailNeverConflicts | MedicalAppointmentSystemAPI/src/main/java/com/dev/MedicalAppointmentSystemAPI/service/DoctorService.java:151-157 | sending back one's own email is never an email conflict |
| DoctorService.TakenEmailIsRefused | MedicalAppointmentSystemAPI/src/main/java/com/dev/MedicalAppointmentSystemAPI/service/DoctorService.java:151-157 | taking another doctor's email is refused and changes nothing |
| DoctorService.UpdateIsIdempotent | MedicalAppointmentSystemAPI/src/main/java/com/dev/MedicalAppointmentSystemAPI/service/DoctorService.java:136-178 | repeating an accepted update changes nothing more |
| DoctorService.DeleteRemovesOnlyTheDoctorsAppointments | MedicalAppointmentSystemAPI/src/main/java/com/dev/MedicalAppointmentSystemAPI/service/DoctorService.java:187-196 | after a delete no appointment of the doctor is left and every other one is kept |
| DoctorService.CreateThenDeleteRestores | MedicalAppointmentSystemAPI/src/main/java/com/dev/MedicalAppointmentSystemAPI/service/DoctorService.java:114-196 | deleting the doctor just created gives back the earlier tables |
| DoctorService.CreatePreservesConsistency | MedicalAppointmentSystemAPI/src/main/java/com/dev/MedicalAppointmentSystemAPI/service/DoctorService.java:114-125 | create keeps the schema's integrity |
| DoctorService.UpdatePreservesConsistency | MedicalAppointmentSystemAPI/src/main/java/com/dev/MedicalAppointmentSystemAPI/service/DoctorService.java:136-178 | update keeps the schema's integrity |
| DoctorService.DeletePreservesConsistency | MedicalAppointmentSystemAPI/src/main/java/com/dev/MedicalAppointmentSystemAPI/service/DoctorService.java:187-196 | delete keeps the schema's integrity |
| DoctorService.Service.CreateDoctor | MedicalAppointmentSystemAPI/src/main/java/com/dev/MedicalAppointmentSystemAPI/service/DoctorService.java:114-125 | the store ends as `Create` specifies and stays consistent |
| DoctorService.Service.UpdateDoctor | MedicalAppointmentSystemAPI/src/main/java/com/dev/MedicalAppointmentSystemAPI/service/DoctorService.java:136-178 | the store ends as `Update` specifies and stays consistent |
| DoctorService.Service.DeleteDoctor | MedicalAppointmentSystemAPI/src/main/java/com/dev/MedicalAppointmentSystemAPI/service/DoctorService.java:187-196 | the store ends as `Delete` specifies and stays consistent |
| UserPrinciple.AuthoritiesOfCount | MedicalAppointmentSystemAPI/src/main/java/com/dev/MedicalAppointmentSystemAPI/security/UserPrinciple.java:73-79 | an injective role-to-authority mapping grants one authority per role |
| UserPrinciple.CreateWith | MedicalAppointmentSystemAPI/src/main/java/com/dev/MedicalAppointmentSystemAPI/security/UserPrinciple.java:64-88 | refused with "User fields cannot be null" exactly when a field is null; otherwise id, username, email and password copied |
| UserPrinciple.CreateAsWritten | MedicalAppointmentSystemAPI/src/main/java/com/dev/MedicalAppointmentSystemAPI/security/UserPrinciple.java:64-88 | refused with "User fields cannot be null" exactly when a field is null; id, username, email and password copied; each role grants `"ROLE_"` + its constant's name, one authority per role |
| UserPrinciple.Create | MedicalAppointmentSystemAPI/src/main/java/com/dev/MedicalAppointmentSystemAPI/security/UserPrinciple.java:64-88 | refused with "User fields cannot be null" exactly when a field is null; id, username, email and password copied; the authorities are exactly the names of the user's roles, one per role |
| UserPrinciple.HashCode | MedicalAppointmentSystemAPI/src/main/java/com/dev/MedicalAppointmentSystemAPI/security/UserPrinciple.java:187-189 | the hash lies within the int range, and equal principals hash equally (`EqualPrincipalsHashEqually`) |
| UserPrinciple.Equals | MedicalAppointmentSystemAPI/src/main/java/com/dev/MedicalAppointmentSystemAPI/security/UserPrinciple.java:175-180 | reflexive: a principal equals itself |
| UserPrinciple.EqualsComparesIdsOnly | MedicalAppointmentSystemAPI/src/main/java/com/dev/MedicalAppointmentSystemAPI/security/UserPrinciple.java:175-180 | two principals are equal exactly when their ids are equal; changing the username, email, password or authorities keeps a principal equal to the original |
| UserPrinciple.EqualPrincipalsHashEqually | MedicalAppointmentSystemAPI/src/main/java/com/dev/MedicalAppointmentSystemAPI/security/UserPrinciple.java:175-189 | principals that are equal by id hash equally |
| UserPrinciple.SameUserGivesEqualPrincipals | MedicalAppointmentSystemAPI/src/main/java/com/dev/MedicalAppointmentSystemAPI/security/UserPrinciple.java:175-180 | principals built from the same user are equal whatever roles they carry |
| Authorization.RoleAuthorities | MedicalAppointmentSystemAPI/src/main/java/com/dev/MedicalAppointmentSystemAPI/security/AppointmentSecurity.java:62 | the authorities the beans test are the ones `hasRole` tests for ADMIN, DOCTOR and PATIENT |
| Authorization.HasAuthority | MedicalAppointmentSystemAPI/src/main/java/com/dev/MedicalAppointmentSystemAPI/security/PatientSecurity.java:49 | an exact match among the granted authorities; a principal with none holds none |
| Authorization.HasRole | MedicalAppointmentSystemAPI/src/main/java/com/dev/MedicalAppointmentSystemAPI/controller/PatientController.java:42 | for each role constant, `hasRole` of its short name holds exactly when the constant's name is granted |
| Authorization.HasAnyRole | MedicalAppointmentSystemAPI/src/main/java/com/dev/MedicalAppointmentSystemAPI/controller/DoctorController.java:41 | holds exactly when some listed role holds; never for an empty list |
| Authorization.HasAnyOfTwo | MedicalAppointmentSystemAPI/src/main/java/com/dev/MedicalAppointmentSystemAPI/controller/DoctorController.java:41 | `hasAnyRole` of two roles holds exactly when `hasRole` of either does |
| Authorization.Or | MedicalAppointmentSystemAPI/src/main/java/com/dev/MedicalAppointmentSystemAPI/controller/PatientController.java:57 | `or` grants when its left side grants, or when the left side denies and the right side grants; a left-side throw propagates |
| Authorization.And | MedicalAppointmentSystemAPI/src/main/java/com/dev/MedicalAppointmentSystemAPI/controller/PatientController.java:57 | `and` grants when both sides grant; the right side is reached only after the left side grants |
| Authorization.Guard | MedicalAppointmentSystemAPI/src/main/java/com/dev/MedicalAppointmentSystemAPI/controller/PatientController.java:42-44 | a granted call returns the body's outcome, a refused one is access-denied, a throwing expression its exception |
| Authorization.CreatedPrincipalHasRoleIffStored | MedicalAppointmentSystemAPI/src/main/java/com/dev/MedicalAppointmentSystemAPI/security/UserPrinciple.java:73-79 | with the corrected mapping, `hasRole` on a role's short name holds exactly for the user's roles |
| Authorization.AsWrittenPrincipalFailsEveryRoleCheck | MedicalAppointmentSystemAPI/src/main/java/com/dev/MedicalAppointmentSystemAPI/security/UserPrinciple.java:75 | with the mapping as written, no role test and no `ROLE_` authority test passes |
| AppointmentSecurity.IsAppointmentOwner | MedicalAppointmentSystemAPI/src/main/java/com/dev/MedicalAppointmentSystemAPI/security/AppointmentSecurity.java:58-82 | refused without the patient authority; missing appointment or missing patient/user throws; granted exactly when the appointment's patient's username equals the caller's |
| AppointmentSecurity.IsPatientAssignedToDoctor | MedicalAppointmentSystemAPI/src/main/java/com/dev/MedicalAppointmentSystemAPI/security/AppointmentSecurity.java:92-122 | refused without the doctor authority; errors for a missing patient or caller profile; granted exactly when the two share an appointment |
| AppointmentSecurity.IsDoctorAssignedToPatient | MedicalAppointmentSystemAPI/src/main/java/com/dev/MedicalAppointmentSystemAPI/security/AppointmentSecurity.java:132-162 | the same check from the patient's side |
| AppointmentSecurity.AssignmentIsSymmetric | MedicalAppointmentSystemAPI/src/main/java/com/dev/MedicalAppointmentSystemAPI/security/AppointmentSecurity.java:92-162 | a doctor sees a patient as assigned exactly when that patient sees the doctor as assigned |
| AppointmentSecurity.BookingAssigns | MedicalAppointmentSystemAPI/src/main/java/com/dev/MedicalAppointmentSystemAPI/security/AppointmentSecurity.java:92-122 | after a successful booking the booked doctor passes the assignment check for the patient |
| AppointmentSecurity.OwnerCheckIsCaseSensitive | MedicalAppointmentSystemAPI/src/main/java/com/dev/MedicalAppointmentSystemAPI/security/AppointmentSecurity.java:77-81 | the owner check compares usernames with case, so "alice" does not own "Alice"'s appointment |
| PatientSecurity.IsPatientOwner | MedicalAppointmentSystemAPI/src/main/java/com/dev/MedicalAppointmentSystemAPI/security/PatientSecurity.java:45-69 | refused without the patient authority; the caller's profile lookup errors propagate; granted exactly when the caller's own profile is the requested one |
| PatientSecurity.IsUserOwner | MedicalAppointmentSystemAPI/src/main/java/com/dev/MedicalAppointmentSystemAPI/security/PatientSecurity.java:78-91 | a missing user throws exactly; granted exactly when that user's name equals the caller's |
| PatientSecurity.UnknownPatientIsDenied | MedicalAppointmentSystemAPI/src/main/java/com/dev/MedicalAppointmentSystemAPI/security/PatientSecurity.java:45-69 | an id that names no patient is denied, not reported |
| PatientSecurity.OwnerIsUnique | MedicalAppointmentSystemAPI/src/main/java/com/dev/MedicalAppointmentSystemAPI/security/PatientSecurity.java:45-69 | at most one patient id passes for a caller |
| PatientSecurity.IsUserOwnerIgnoresAuthorities | MedicalAppointmentSystemAPI/src/main/java/com/dev/MedicalAppointmentSystemAPI/security/PatientSecurity.java:78-91 | the user check does not look at the caller's authorities |
| PatientSecurity.UserCheckIsCaseSensitive | MedicalAppointmentSystemAPI/src/main/java/com/dev/MedicalAppointmentSystemAPI/security/PatientSecurity.java:78-91 | the user check is case-sensitive although the profile lookup is not |
| DoctorSecurity.IsDoctorOwner | MedicalAppointmentSystemAPI/src/main/java/com/dev/MedicalAppointmentSystemAPI/security/DoctorSecurity.java:45-69 | refused without the doctor authority; lookup errors propagate; granted exactly when the caller's own profile is the requested one |
| DoctorSecurity.IsUserOwner | MedicalAppointmentSystemAPI/src/main/java/com/dev/MedicalAppointmentSystemAPI/security/DoctorSecurity.java:78-91 | a missing user throws exactly; granted exactly when that user's name equals the caller's |
| DoctorSecurity.UnknownDoctorIsDenied | MedicalAppointmentSystemAPI/src/main/java/com/dev/MedicalAppointmentSystemAPI/security/DoctorSecurity.java:45-69 | an id that names no doctor is denied, not reported |
| DoctorSecurity.OwnerIsUnique | MedicalAppointmentSystemAPI/src/main/java/com/dev/MedicalAppointmentSystemAPI/security/DoctorSecurity.java:45-69 | at most one doctor id passes for a caller |
| Common.Present | MedicalAppointmentSystemAPI/src/main/java/com/dev/MedicalAppointmentSystemAPI/controller/PatientController.java:59-60 | an empty lookup becomes an IllegalArgumentException with the endpoint's message; a found value is returned; errors pass through |
| PatientController.GetAllPatientsPolicy | MedicalAppointmentSystemAPI/src/main/java/com/dev/MedicalAppointmentSystemAPI/controller/PatientController.java:42 | granted exactly to admins |
| PatientController.GetPatientByIdPolicy | MedicalAppointmentSystemAPI/src/main/java/com/dev/MedicalAppointmentSystemAPI/controller/PatientController.java:57 | granted to an admin, to the patient themself, or to a doctor who shares an appointment with the patient |
| PatientController.GetPatientByIdPolicyAsWritten | MedicalAppointmentSystemAPI/src/main/java/com/dev/MedicalAppointmentSystemAPI/controller/PatientController.java:57 | as written: granted exactly to admins and the owning patient; a doctor is never simply denied, because the third alternative throws |
| PatientController.GetPatientByEmailPolicy | MedicalAppointmentSystemAPI/src/main/java/com/dev/MedicalAppointmentSystemAPI/controller/PatientController.java:73 | granted exactly to admins |
| PatientController.GetPatientByUserIdPolicy | MedicalAppointmentSystemAPI/src/main/java/com/dev/MedicalAppointmentSystemAPI/controller/PatientController.java:89 | granted to admins and to a patient whose own user has that id; a missing user throws for a non-admin patient |
| PatientController.CreatePatientPolicy | MedicalAppointmentSystemAPI/src/main/java/com/dev/MedicalAppointmentSystemAPI/controller/PatientController.java:106 | granted exactly to patients and admins |
| PatientController.UpdatePatientPolicy | MedicalAppointmentSystemAPI/src/main/java/com/dev/MedicalAppointmentSystemAPI/controller/PatientController.java:123 | granted to admins and to the patient who owns the profile |
| PatientController.DeletePatientPolicy | MedicalAppointmentSystemAPI/src/main/java/com/dev/MedicalAppointmentSystemAPI/controller/PatientController.java:137 | granted exactly to admins |
| PatientController.GetPatientById | MedicalAppointmentSystemAPI/src/main/java/com/dev/MedicalAppointmentSystemAPI/controller/PatientController.java:57-62 | under the intended guard `GetPatientByIdPolicy` (not the expression as written, which throws for a doctor-only caller): returns the stored patient exactly when that guard grants and the id exists; a missing id gives "Patient not found with ID: " |
| PatientController.GetPatientByEmail | MedicalAppointmentSystemAPI/src/main/java/com/dev/MedicalAppointmentSystemAPI/controller/PatientController.java:73-78 | admins only; a blank email is refused; with unique emails, found exactly when the email is taken |
| PatientController.GetPatientByUserId | MedicalAppointmentSystemAPI/src/main/java/com/dev/MedicalAppointmentSystemAPI/controller/PatientController.java:89-94 | refused when the guard denies; when it grants and exactly one patient is linked to the user, that stored patient; no linked patient gives "Patient not found with user ID: " |
| PatientController.DoctorReadThrowsAsWritten | MedicalAppointmentSystemAPI/src/main/java/com/dev/MedicalAppointmentSystemAPI/controller/PatientController.java:57 | as written, a doctor who is neither admin nor patient always makes the guard throw |
| PatientController.AssignedDoctorMayRead | MedicalAppointmentSystemAPI/src/main/java/com/dev/MedicalAppointmentSystemAPI/controller/PatientController.java:57 | with the corrected guard, an assigned doctor may read the patient |
| PatientController.GuardsAgreeWithoutDoctorRole | MedicalAppointmentSystemAPI/src/main/java/com/dev/MedicalAppointmentSystemAPI/controller/PatientController.java:57 | the written and the corrected guards decide alike for every caller without the doctor role |
| PatientController.OwnerMayReadAndUpdate | MedicalAppointmentSystemAPI/src/main/java/com/dev/MedicalAppointmentSystemAPI/controller/PatientController.java:57-123 | a patient may read and update their own profile |
| PatientController.UpdateHasNoDoctorPath | MedicalAppointmentSystemAPI/src/main/java/com/dev/MedicalAppointmentSystemAPI/controller/PatientController.java:123 | without the admin or patient role the update is refused |
| PatientController.AdminDeleteRefusedAsWritten | MedicalAppointmentSystemAPI/src/main/java/com/dev/MedicalAppointmentSystemAPI/controller/PatientController.java:137 | with principals built as written, even an admin is refused the delete |
| PatientController.AdminDeleteAllowed | MedicalAppointmentSystemAPI/src/main/java/com/dev/MedicalAppointmentSystemAPI/controller/PatientController.java:137 | with principals built as intended, the delete is granted exactly to users holding the admin role |
| DoctorController.GetAllDoctorsPolicy | MedicalAppointmentSystemAPI/src/main/java/com/dev/MedicalAppointmentSystemAPI/controller/DoctorController.java:41 | granted exactly to admins and doctors |
| DoctorController.AnyRolePolicy | MedicalAppointmentSystemAPI/src/main/java/com/dev/MedicalAppointmentSystemAPI/controller/DoctorController.java:56 | granted exactly to patients, doctors and admins |
| DoctorController.GetDoctorByEmailPolicy | MedicalAppointmentSystemAPI/src/main/java/com/dev/MedicalAppointmentSystemAPI/controller/DoctorController.java:72 | granted exactly to admins |
| DoctorController.GetDoctorByUserIdPolicy | MedicalAppointmentSystemAPI/src/main/java/com/dev/MedicalAppointmentSystemAPI/controller/DoctorController.java:88 | granted to admins and to a doctor whose own user has that id; a missing user throws for a non-admin doctor |
| DoctorController.CreateDoctorPolicy | MedicalAppointmentSystemAPI/src/main/java/com/dev/MedicalAppointmentSystemAPI/controller/DoctorController.java:120 | granted exactly to doctors and admins |
| DoctorController.UpdateDoctorPolicy | MedicalAppointmentSystemAPI/src/main/java/com/dev/MedicalAppointmentSystemAPI/controller/DoctorController.java:137 | granted to admins and to the doctor who owns the profile |
| DoctorController.DeleteDoctorPolicy | MedicalAppointmentSystemAPI/src/main/java/com/dev/MedicalAppointmentSystemAPI/controller/DoctorController.java:151 | granted exactly to admins |
| DoctorController.GetDoctorById | MedicalAppointmentSystemAPI/src/main/java/com/dev/MedicalAppointmentSystemAPI/controller/DoctorController.java:56-61 | returns the stored doctor exactly when some role grants and the id exists; a missing id gives "Doctor not found with ID: " |
| DoctorController.GetDoctorByEmail | MedicalAppointmentSystemAPI/src/main/java/com/dev/MedicalAppointmentSystemAPI/controller/DoctorController.java:72-77 | admins only; a blank email is refused; with unique emails, found exactly when the email is taken |
| DoctorController.GetDoctorByUserId | MedicalAppointmentSystemAPI/src/main/java/com/dev/MedicalAppointmentSystemAPI/controller/DoctorController.java:88-93 | refused when the guard denies; when it grants and exactly one doctor is linked to the user, that stored doctor; no linked doctor gives "Doctor not found with user ID: " |
| DoctorController.GetDoctorsBySpecialization | MedicalAppointmentSystemAPI/src/main/java/com/dev/MedicalAppointmentSystemAPI/controller/DoctorController.java:104-108 | denied without a role; a blank specialization is refused; any role with a non-blank specialization succeeds, with exactly the stored doctors of that specialization, each row as stored |
| DoctorController.OwnerMayUpdate | MedicalAppointmentSystemAPI/src/main/java/com/dev/MedicalAppointmentSystemAPI/controller/DoctorController.java:137 | a doctor may update their own profile |
| DoctorController.OtherDoctorMayNotUpdate | MedicalAppointmentSystemAPI/src/main/java/com/dev/MedicalAppointmentSystemAPI/controller/DoctorController.java:137 | a non-admin doctor may not update another doctor's profile |
| DoctorController.UpdateHasNoPatientPath | MedicalAppointmentSystemAPI/src/main/java/com/dev/MedicalAppointmentSystemAPI/controller/DoctorController.java:137 | without the admin or doctor role the update is refused |
| DoctorController.DoctorListRefusedAsWritten | MedicalAppointmentSystemAPI/src/main/java/com/dev/MedicalAppointmentSystemAPI/controller/DoctorController.java:41 | with principals built as written, nobody may list the doctors |
| AuthController.ParseRole | MedicalAppointmentSystemAPI/src/main/java/com/dev/MedicalAppointmentSystemAPI/controller/AuthController.java:128 | a string names a role exactly when its upper-cased form is that role's short name |
| AuthController.ResolveRole | MedicalAppointmentSystemAPI/src/main/java/com/dev/MedicalAppointmentSystemAPI/controller/AuthController.java:127-135 | a null element gives the unhandled NullPointerException; an unknown name gives "Invalid role: s"; a known role without a row gives "Role not found: ROLE_X"; otherwise exactly the role whose short name is the upper-cased string |
| AuthController.ResolveAll | MedicalAppointmentSystemAPI/src/main/java/com/dev/MedicalAppointmentSystemAPI/controller/AuthController.java:126-137 | on success every granted role is a stored role, at most one per string, and at least one for a non-empty list |
| AuthController.FailureNamesAString | MedicalAppointmentSystemAPI/src/main/java/com/dev/MedicalAppointmentSystemAPI/controller/AuthController.java:126-137 | a failed loop reports the error that one of the request's strings raises |
| AuthController.PrefixErrorPersists | MedicalAppointmentSystemAPI/src/main/java/com/dev/MedicalAppointmentSystemAPI/controller/AuthController.java:126-137 | once the loop has thrown, the remaining strings change nothing |
| AuthController.ResolveAllMeaning | MedicalAppointmentSystemAPI/src/main/java/com/dev/MedicalAppointmentSystemAPI/controller/AuthController.java:126-137 | the loop succeeds exactly when every string names a stored role, and then yields exactly the roles the strings name |
| AuthController.ResolveAllIgnoresOrder | MedicalAppointmentSystemAPI/src/main/java/com/dev/MedicalAppointmentSystemAPI/controller/AuthController.java:117-137 | success and the granted roles do not depend on the order in which the role set is visited |
| AuthController.FirstFailureIsReported | MedicalAppointmentSystemAPI/src/main/java/com/dev/MedicalAppointmentSystemAPI/controller/AuthController.java:126-137 | the first failing string decides the error |
| AuthController.ResolveRoles | MedicalAppointmentSystemAPI/src/main/java/com/dev/MedicalAppointmentSystemAPI/controller/AuthController.java:117-137 | a null or empty request gives exactly the patient role, or "Role not found: ROLE_PATIENT" without its row; otherwise the loop's outcome |
| AuthController.RegisterOutcome | MedicalAppointmentSystemAPI/src/main/java/com/dev/MedicalAppointmentSystemAPI/controller/AuthController.java:98-145 | registration succeeds exactly when username and email are free and the roles resolve; it then adds one user with the request's username, email, encoded password and roles, and nothing else; a refusal changes nothing |
| AuthController.Register | MedicalAppointmentSystemAPI/src/main/java/com/dev/MedicalAppointmentSystemAPI/controller/AuthController.java:98-145 | a taken username is refused first, then a taken email; a refusal changes nothing; a success answers "User registered successfully" and stores the new user with a non-empty set of stored roles |
| AuthController.NullRoleIsUnhandled | MedicalAppointmentSystemAPI/src/main/java/com/dev/MedicalAppointmentSystemAPI/controller/AuthController.java:126-135 | a `null` in the role list escapes the catch as a NullPointerException and nothing is stored |
| AuthController.UsernameIsCheckedFirst | MedicalAppointmentSystemAPI/src/main/java/com/dev/MedicalAppointmentSystemAPI/controller/AuthController.java:101-109 | a taken username is reported before a taken email |
| AuthController.DefaultRoleIsPatient | MedicalAppointmentSystemAPI/src/main/java/com/dev/MedicalAppointmentSystemAPI/controller/AuthController.java:120-124 | without requested roles the new account holds exactly the patient role |
| AuthController.RegisteredDoctorIsDoctor | MedicalAppointmentSystemAPI/src/main/java/com/dev/MedicalAppointmentSystemAPI/controller/AuthController.java:126-141 | requesting "doctor" yields an account whose principal passes `hasRole('DOCTOR')` and no other role test |
| AuthController.UnknownRoleIsRefused | MedicalAppointmentSystemAPI/src/main/java/com/dev/MedicalAppointmentSystemAPI/controller/AuthController.java:133-135 | any unknown role string makes the signup fail with no user saved |
| AuthController.CaseVariantBreaksLookup | MedicalAppointmentSystemAPI/src/main/java/com/dev/MedicalAppointmentSystemAPI/controller/AuthController.java:101-104 | a case variant of a stored username registers, after which the case-insensitive lookup of that name matches two users and fails |
| AuthController.RegisterPreservesConsistency | MedicalAppointmentSystemAPI/src/main/java/com/dev/MedicalAppointmentSystemAPI/controller/AuthController.java:98-145 | signup keeps the schema's integrity, the unique username and email columns included |
| AuthController.Controller.RegisterUser | MedicalAppointmentSystemAPI/src/main/java/com/dev/MedicalAppointmentSystemAPI/controller/AuthController.java:98-145 | the role loop keeps "the strings so far resolve to the roles collected"; the store ends as `Register` specifies and stays consistent |
| Common.NotFoundMessage | MedicalAppointmentSystemAPI/src/main/java/com/dev/MedicalAppointmentSystemAPI/exception/ResourceNotFoundException.java:44 | the message starts with the resource type, and the text after "not found with ID: " reads back as the id |
| Common.NotFoundMessageInjective | MedicalAppointmentSystemAPI/src/main/java/com/dev/MedicalAppointmentSystemAPI/exception/ResourceNotFoundException.java:43-47 | a not-found message names exactly one id |

## Left out

- JWT issuing and validation, the login endpoint, and the filter that
  loads the principal on each request are not modelled. The principal is
  a parameter, built from a stored user by `UserPrinciple.Create`.
- The global exception handler, which turns exceptions into HTTP
  statuses, is not modelled. The model reports the exception itself.
- The older `AppointmentController` and `AppointmentServiceImpl` are not
  part of this model. The core service is `AppointmentService`.
- `findAll` endpoints, paging, logging and response wrapping are not
  modelled. A query result is a map from id to row, so list order and
  duplicates are not represented.
- Bean validation is not enforced by the modelled operations:
  `@Valid`/`@NotBlank`/`@Size`/`@Email` on request bodies, the
  `@NotBlank`/`@NotNull` constraints on path variables (the email path of
  both controllers and the specialization path), and the entity
  constraints checked at flush. A blank path variable therefore reaches
  the service, which refuses it with its own message. `Appointments.ConstraintsHold` states the
  appointment's constraints as a predicate. Lemmas such as
  `AppointmentService.StartAtNowPassesServiceButNotFuture` show where the
  service admits rows those constraints would reject.
- JPA details are not modelled: merging caller-supplied ids, managed-entity
  aliasing and auto-flush. An insert stores its row under the parameter
  `newId`, and an operation is one atomic step.
- `LocalDateTime.now()` is read more than once in the Java code. The
  model reads one `now` per operation.
- Case folding is ASCII only. Java's `toUpperCase` and the database's
  `upper` also fold other letters.
- A link to a missing row reads as null: a patient whose user id names
  no user behaves like one without a user.
- The password encoder is the parameter `encode`.
- Collation: the model takes the database to compare strings exactly in
  `existsByUsername`, `existsByEmail` and `findByEmail`, and to ignore case
  only in the `IgnoreCase` queries. Under a case-insensitive collation the
  exact checks would already refuse a case variant, and
  `AuthController.CaseVariantBreaksLookup` would not apply.
- The account flags of the principal are not modelled (they are
  constant `true`).
- Role-set element order: a Java `HashSet` visits its elements in an
  unspecified order. The model takes the request's roles as a sequence
  in visiting order. When several role strings are invalid, which one is
  reported depends on that order; `AuthController.ResolveAllIgnoresOrder`
  shows that success and the granted roles do not.
- The single-result lookups of users, patients and doctors
  (`Repositories.UniqueKey`) are ghost. They reason about how many rows
  match, and that count is not computed. The security checks built on
  them are therefore ghost too.

## Findings

| source | as written | input that shows it | evidently intended | confidence | as-written member | corrected member |
|---|---|---|---|---|---|---|
| MedicalAppointmentSystemAPI/src/main/java/com/dev/MedicalAppointmentSystemAPI/security/UserPrinciple.java:75 | each role's authority is `"ROLE_" + role.getName().name()`, but the constants are already named `ROLE_PATIENT`, `ROLE_DOCTOR`, `ROLE_ADMIN`, so the authority is `ROLE_ROLE_...` | any stored user with role ROLE_ADMIN: the principal holds `ROLE_ROLE_ADMIN`, so `hasRole('ADMIN')` fails, and for patients and doctors so do the beans' `ROLE_PATIENT`/`ROLE_DOCTOR` tests | the authority is the constant's name, so `hasRole` holds exactly for the user's roles | high, not executed | UserPrinciple.CreateAsWritten, Authorization.AsWrittenPrincipalFailsEveryRoleCheck, PatientController.AdminDeleteRefusedAsWritten | UserPrinciple.Create, Authorization.CreatedPrincipalHasRoleIffStored, PatientController.AdminDeleteAllowed |
| MedicalAppointmentSystemAPI/src/main/java/com/dev/MedicalAppointmentSystemAPI/controller/PatientController.java:57 | the doctor alternative calls `@patientSecurity.isDoctorAssignedToPatient`, which the patient security bean does not define, so evaluating it throws | a caller with only the DOCTOR role reading any patient id: the expression throws instead of deciding | a doctor who shares an appointment with the patient may read it, as `AppointmentSecurity.isPatientAssignedToDoctor` decides | high, not executed | PatientController.GetPatientByIdPolicyAsWritten, PatientController.DoctorReadThrowsAsWritten | PatientController.GetPatientByIdPolicy, PatientController.AssignedDoctorMayRead, PatientController.GetPatientById |
