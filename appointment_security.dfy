/**
 * The appointment security bean: whether the signed-in patient owns an
 * appointment, and whether a doctor and a patient are assigned to each
 * other, which holds when they share at least one appointment.
 */
module AppointmentSecurity {
  import opened Common
  import opened Entities
  import opened Appointments
  import opened Persistence
  import opened Repositories
  import opened UserPrinciple
  import opened Authorization
  import opened AppointmentRepository
  import AppointmentService

  /** The user reached from an appointment through its patient, when both links lead to stored rows. */
  function PatientUserOf(t: Tables, a: Appointment): Option<User>
  {
    if a.patient.Some? && a.patient.value in t.patients then
      var patient := t.patients[a.patient.value];
      if patient.user.Some? && patient.user.value in t.users then Some(t.users[patient.user.value]) else None
    else None
  }

  /**
   * `isAppointmentOwner`: refused without the PATIENT authority; a missing
   * appointment, or one without a patient and user, is an error; otherwise
   * granted exactly when the appointment's patient's username equals the
   * principal's (case matters).
   */
  function IsAppointmentOwner(t: Tables, appointmentId: Long, p: Principal): (d: Decision)
    ensures !HasAuthority(p, "ROLE_PATIENT") ==> d == Deny
    ensures HasAuthority(p, "ROLE_PATIENT") && appointmentId !in t.appointments ==>
      d == Fault(IllegalArgument(NotFoundMessage("Appointment", appointmentId)))
    ensures HasAuthority(p, "ROLE_PATIENT") && appointmentId in t.appointments
            && PatientUserOf(t, t.appointments[appointmentId]).None? ==>
      d == Fault(IllegalArgument("No patient or user associated with appointment ID: " + LongToString(appointmentId)))
    ensures d.Allow? <==>
      && HasAuthority(p, "ROLE_PATIENT") && appointmentId in t.appointments
      && PatientUserOf(t, t.appointments[appointmentId]).Some?
      && PatientUserOf(t, t.appointments[appointmentId]).value.username == Some(p.username)
  {
    if !HasAuthority(p, "ROLE_PATIENT") then Deny
    else if appointmentId !in t.appointments then
      Fault(IllegalArgument(NotFoundMessage("Appointment", appointmentId)))
    else
      match PatientUserOf(t, t.appointments[appointmentId])
      case None => Fault(IllegalArgument("No patient or user associated with appointment ID: " + LongToString(appointmentId)))
      case Some(u) => Of(u.username == Some(p.username))
  }

  /**
   * `isPatientAssignedToDoctor`: refused without the DOCTOR authority; the
   * patient must exist and the principal's doctor profile must resolve;
   * granted exactly when the two share an appointment.
   */
  ghost function IsPatientAssignedToDoctor(t: Tables, patientId: Long, p: Principal): (d: Decision)
    ensures !HasAuthority(p, "ROLE_DOCTOR") ==> d == Deny
    ensures HasAuthority(p, "ROLE_DOCTOR") && patientId !in t.patients ==>
      d == Fault(IllegalArgument(NotFoundMessage("Patient", patientId)))
    ensures HasAuthority(p, "ROLE_DOCTOR") && patientId in t.patients && CallerDoctor(t.users, t.doctors, p.username).Err? ==>
      d == Fault(CallerDoctor(t.users, t.doctors, p.username).error)
    ensures d.Allow? <==>
      && HasAuthority(p, "ROLE_DOCTOR") && patientId in t.patients
      && CallerDoctor(t.users, t.doctors, p.username).Ok?
      && ExistsByPatientIdAndDoctorId(t.appointments, patientId, CallerDoctor(t.users, t.doctors, p.username).value)
  {
    if !HasAuthority(p, "ROLE_DOCTOR") then Deny
    else if patientId !in t.patients then Fault(IllegalArgument(NotFoundMessage("Patient", patientId)))
    else
      match CallerDoctor(t.users, t.doctors, p.username)
      case Err(e) => Fault(e)
      case Ok(doctorId) => Of(ExistsByPatientIdAndDoctorId(t.appointments, patientId, doctorId))
  }

  /** `isDoctorAssignedToPatient`: the same check from the patient's side. */
  ghost function IsDoctorAssignedToPatient(t: Tables, doctorId: Long, p: Principal): (d: Decision)
    ensures !HasAuthority(p, "ROLE_PATIENT") ==> d == Deny
    ensures HasAuthority(p, "ROLE_PATIENT") && doctorId !in t.doctors ==>
      d == Fault(IllegalArgument(NotFoundMessage("Doctor", doctorId)))
    ensures HasAuthority(p, "ROLE_PATIENT") && doctorId in t.doctors && CallerPatient(t.users, t.patients, p.username).Err? ==>
      d == Fault(CallerPatient(t.users, t.patients, p.username).error)
    ensures d.Allow? <==>
      && HasAuthority(p, "ROLE_PATIENT") && doctorId in t.doctors
      && CallerPatient(t.users, t.patients, p.username).Ok?
      && ExistsByPatientIdAndDoctorId(t.appointments, CallerPatient(t.users, t.patients, p.username).value, doctorId)
  {
    if !HasAuthority(p, "ROLE_PATIENT") then Deny
    else if doctorId !in t.doctors then Fault(IllegalArgument(NotFoundMessage("Doctor", doctorId)))
    else
      match CallerPatient(t.users, t.patients, p.username)
      case Err(e) => Fault(e)
      case Ok(patientId) => Of(ExistsByPatientIdAndDoctorId(t.appointments, patientId, doctorId))
  }

  /**
   * Assignment is symmetric: when a doctor principal and a patient
   * principal resolve to their profiles, each sees the other exactly when
   * the other sees them.
   */
  lemma AssignmentIsSymmetric(t: Tables, doctor: Principal, patient: Principal)
    requires HasAuthority(doctor, "ROLE_DOCTOR") && HasAuthority(patient, "ROLE_PATIENT")
    requires CallerDoctor(t.users, t.doctors, doctor.username).Ok?
    requires CallerPatient(t.users, t.patients, patient.username).Ok?
    ensures var doctorId := CallerDoctor(t.users, t.doctors, doctor.username).value;
            var patientId := CallerPatient(t.users, t.patients, patient.username).value;
            IsPatientAssignedToDoctor(t, patientId, doctor) == IsDoctorAssignedToPatient(t, doctorId, patient)
  {
  }

  /**
   * Booking an appointment assigns the two parties: after a successful
   * create, the booked doctor passes the assignment check for the patient.
   */
  lemma BookingAssigns(t: Tables, patientId: Long, doctor: Principal, appointment: Appointment, now: int, newId: Long)
    requires HasAuthority(doctor, "ROLE_DOCTOR") && CallerDoctor(t.users, t.doctors, doctor.username).Ok?
    requires var doctorId := CallerDoctor(t.users, t.doctors, doctor.username).value;
             AppointmentService.Create(t, Some(patientId), Some(doctorId), Some(appointment), now, newId).result.Ok?
    ensures var doctorId := CallerDoctor(t.users, t.doctors, doctor.username).value;
            var after := AppointmentService.Create(t, Some(patientId), Some(doctorId), Some(appointment), now, newId).tables;
            IsPatientAssignedToDoctor(after, patientId, doctor) == Allow
  {
    var doctorId := CallerDoctor(t.users, t.doctors, doctor.username).value;
    AppointmentService.CreatedAppointmentIsListed(t, patientId, doctorId, appointment, now, newId);
  }

  /** The appointment owner check is case-sensitive, unlike the profile lookups of the other checks. */
  lemma OwnerCheckIsCaseSensitive(t: Tables, appointmentId: Long, p: Principal)
    requires HasAuthority(p, "ROLE_PATIENT") && appointmentId in t.appointments
    requires PatientUserOf(t, t.appointments[appointmentId]).Some?
    requires PatientUserOf(t, t.appointments[appointmentId]).value.username == Some("Alice")
    requires p.username == "alice"
    ensures IsAppointmentOwner(t, appointmentId, p) == Deny
  {
  }
}
