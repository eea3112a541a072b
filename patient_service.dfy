/**
 * The patient service: guarded lookups and the transactional create,
 * partial update and delete of patient profiles. Deleting a patient also
 * deletes the patient's appointments (the association cascades).
 */
module PatientService {
  import opened Common
  import opened Entities
  import opened Persistence
  import opened Repositories
  import AppointmentRepository

  const EmailInUseMessage := "Email is already in use"

  // ---------------------------------------------------------------------
  // Queries

  function GetPatientById(t: Tables, id: Option<Long>): (r: Result<Option<Patient>>)
    ensures id.None? <==> r == Err(IllegalArgument("Patient ID cannot be null"))
    ensures id.Some? ==> r.Ok? && (r.value.Some? <==> id.value in t.patients)
    ensures r.Ok? && r.value.Some? ==> r.value.value == t.patients[id.value]
  {
    if id.None? then Err(IllegalArgument("Patient ID cannot be null"))
    else if id.value in t.patients then Ok(Some(t.patients[id.value]))
    else Ok(None)
  }

  /** The patient holding exactly this email; a null or blank email is refused. */
  ghost function GetPatientByEmail(t: Tables, email: Option<string>): (r: Result<Option<Patient>>)
    ensures email.None? || IsBlank(email.value) ==> r == Err(IllegalArgument("Email cannot be null or empty"))
    ensures r.Ok? && r.value.Some? ==> r.value.value in t.patients.Values && r.value.value.email == email
    ensures email.Some? && !IsBlank(email.value) && UniquePatientEmails(t.patients) ==>
      r.Ok? && (r.value.Some? <==> PatientEmailTaken(t.patients, email.value))
  {
    if email.None? || IsBlank(email.value) then Err(IllegalArgument("Email cannot be null or empty"))
    else
      PatientEmailLookupUnderUniquenessIfHolds(t.patients, email.value);
      match FindPatientByEmail(t.patients, email.value)
      case Missing => Ok(None)
      case Ambiguous => Err(NonUniqueResult)
      case Unique(k) => Ok(Some(t.patients[k]))
  }

  lemma PatientEmailLookupUnderUniquenessIfHolds(patients: map<Long, Patient>, email: string)
    ensures UniquePatientEmails(patients) ==>
      !FindPatientByEmail(patients, email).Ambiguous?
      && (FindPatientByEmail(patients, email).Unique? <==> PatientEmailTaken(patients, email))
  {
    if UniquePatientEmails(patients) {
      PatientEmailLookupUnderUniqueness(patients, email);
    }
  }

  /** The patient profile linked to a user account. */
  ghost function GetPatientByUserId(t: Tables, userId: Option<Long>): (r: Result<Option<Patient>>)
    ensures userId.None? <==> r == Err(IllegalArgument("User ID cannot be null"))
    ensures r.Ok? && r.value.Some? ==> r.value.value in t.patients.Values && r.value.value.user == userId
    ensures r.Ok? && r.value.None? ==> forall k :: k in t.patients ==> t.patients[k].user != userId
    ensures userId.Some? && !FindPatientByUserId(t.patients, userId.value).Ambiguous? ==> r.Ok?
    ensures userId.Some? && FindPatientByUserId(t.patients, userId.value).Unique? ==>
      r == Ok(Some(t.patients[FindPatientByUserId(t.patients, userId.value).key]))
    ensures userId.Some? && FindPatientByUserId(t.patients, userId.value).Ambiguous? ==> r == Err(NonUniqueResult)
  {
    if userId.None? then Err(IllegalArgument("User ID cannot be null"))
    else
      match FindPatientByUserId(t.patients, userId.value)
      case Missing => Ok(None)
      case Ambiguous => Err(NonUniqueResult)
      case Unique(k) => Ok(Some(t.patients[k]))
  }

  // ---------------------------------------------------------------------
  // Transactional operations

  function Create(t: Tables, patient: Option<Patient>, newId: Long): (s: Step<Patient>)
    ensures s.result.Err? ==> s.tables == t
    ensures patient.None? ==> s.result == Err(IllegalArgument("Patient cannot be null"))
    ensures patient.Some? && patient.value.email.Some? && PatientEmailTaken(t.patients, patient.value.email.value) ==>
      s.result == Err(IllegalArgument(EmailInUseMessage))
    ensures s.result.Ok? <==>
      patient.Some? && !(patient.value.email.Some? && PatientEmailTaken(t.patients, patient.value.email.value))
    ensures s.result.Ok? ==>
      && s.result.value == patient.value.(id := Some(newId))
      && s.tables == t.(patients := t.patients[newId := s.result.value])
  {
    if patient.None? then Step(Err(IllegalArgument("Patient cannot be null")), t)
    else if patient.value.email.Some? && PatientEmailTaken(t.patients, patient.value.email.value) then
      Step(Err(IllegalArgument(EmailInUseMessage)), t)
    else
      var p := patient.value.(id := Some(newId));
      Step(Ok(p), t.(patients := t.patients[newId := p]))
  }

  /** The details ask for an email different from the stored one. */
  predicate ChangesEmail(current: Patient, details: Patient)
  {
    details.email.Some? && details.email != current.email
  }

  /** The fields `updatePatient` copies when non-null; birth date, gender, address and user are never touched. */
  function Patched(current: Patient, details: Patient): Patient
  {
    current.(firstName := Overlay(details.firstName, current.firstName),
             lastName := Overlay(details.lastName, current.lastName),
             email := Overlay(details.email, current.email),
             phoneNumber := Overlay(details.phoneNumber, current.phoneNumber),
             medicalHistory := Overlay(details.medicalHistory, current.medicalHistory))
  }

  function Update(t: Tables, id: Option<Long>, details: Option<Patient>): (s: Step<Patient>)
    ensures s.result.Err? ==> s.tables == t
    ensures id.None? || details.None? ==> s.result == Err(IllegalArgument("Patient ID or details cannot be null"))
    ensures id.Some? && details.Some? && id.value !in t.patients ==>
      s.result == Err(NotFound(NotFoundMessage("Patient", id.value)))
    ensures s.result.Ok? <==>
      && id.Some? && details.Some? && id.value in t.patients
      && !(ChangesEmail(t.patients[id.value], details.value) && PatientEmailTaken(t.patients, details.value.email.value))
    ensures s.result.Ok? ==>
      var before := t.patients[id.value];
      var d := details.value;
      var p := s.result.value;
      && s.tables == t.(patients := t.patients[id.value := p])
      && p.id == before.id && p.dateOfBirth == before.dateOfBirth && p.gender == before.gender
      && p.address == before.address && p.user == before.user
      && p.firstName == Overlay(d.firstName, before.firstName)
      && p.lastName == Overlay(d.lastName, before.lastName)
      && p.email == Overlay(d.email, before.email)
      && p.phoneNumber == Overlay(d.phoneNumber, before.phoneNumber)
      && p.medicalHistory == Overlay(d.medicalHistory, before.medicalHistory)
  {
    if id.None? || details.None? then
      Step(Err(IllegalArgument("Patient ID or details cannot be null")), t)
    else if id.value !in t.patients then
      Step(Err(NotFound(NotFoundMessage("Patient", id.value))), t)
    else if ChangesEmail(t.patients[id.value], details.value) && PatientEmailTaken(t.patients, details.value.email.value) then
      Step(Err(IllegalArgument(EmailInUseMessage)), t)
    else
      var p := Patched(t.patients[id.value], details.value);
      Step(Ok(p), t.(patients := t.patients[id.value := p]))
  }

  /** The appointment table without the rows of one patient (the cascade on delete). */
  function WithoutPatient(appointments: map<Long, Appointments.Appointment>, patientId: Long): (r: map<Long, Appointments.Appointment>)
    ensures forall k :: k in r <==> k in appointments && appointments[k].patient != Some(patientId)
    ensures forall k :: k in r ==> r[k] == appointments[k]
  {
    map k | k in appointments && appointments[k].patient != Some(patientId) :: appointments[k]
  }

  function Delete(t: Tables, id: Option<Long>): (s: Step<()>)
    ensures id.None? ==> s == Step(Err(IllegalArgument("Patient ID cannot be null")), t)
    ensures id.Some? && id.value !in t.patients ==> s == Step(Err(NotFound(NotFoundMessage("Patient", id.value))), t)
    ensures id.Some? && id.value in t.patients ==>
      s == Step(Ok(()), t.(patients := t.patients - {id.value},
                           appointments := WithoutPatient(t.appointments, id.value)))
  {
    if id.None? then Step(Err(IllegalArgument("Patient ID cannot be null")), t)
    else if id.value !in t.patients then Step(Err(NotFound(NotFoundMessage("Patient", id.value))), t)
    else Step(Ok(()), t.(patients := t.patients - {id.value},
                         appointments := WithoutPatient(t.appointments, id.value)))
  }

  // ---------------------------------------------------------------------
  // Properties

  /** Sending back the patient's own current email is never an email conflict. */
  lemma OwnEmailNeverConflicts(t: Tables, id: Long, details: Patient)
    requires id in t.patients && details.email == t.patients[id].email
    ensures Update(t, Some(id), Some(details)).result.Ok?
  {
  }

  /** Taking an email another patient holds is refused and changes nothing. */
  lemma TakenEmailIsRefused(t: Tables, id: Long, other: Long, details: Patient)
    requires Consistent(t)
    requires id in t.patients && other in t.patients && id != other
    requires details.email.Some? && details.email == t.patients[other].email
    ensures Update(t, Some(id), Some(details)) == Step(Err(IllegalArgument(EmailInUseMessage)), t)
  {
    assert t.patients[id].email != details.email;
  }

  /** Repeating an accepted update changes nothing further. */
  lemma UpdateIsIdempotent(t: Tables, id: Long, details: Patient)
    requires Update(t, Some(id), Some(details)).result.Ok?
    ensures var once := Update(t, Some(id), Some(details));
            Update(once.tables, Some(id), Some(details)) == once
  {
    var once := Update(t, Some(id), Some(details));
    var p := once.result.value;
    assert !ChangesEmail(p, details);
    assert Patched(p, details) == p;
  }

  /** After a delete, no appointment of the patient is left and every other appointment is kept. */
  lemma DeleteRemovesOnlyThePatientsAppointments(t: Tables, id: Long)
    requires id in t.patients
    ensures var after := Delete(t, Some(id)).tables.appointments;
            && AppointmentRepository.FindByPatientId(after, id) == map[]
            && forall k :: k in t.appointments && t.appointments[k].patient != Some(id) ==>
                 k in after && after[k] == t.appointments[k]
  {
    var after := Delete(t, Some(id)).tables.appointments;
    assert AppointmentRepository.FindByPatientId(after, id).Keys == {};
  }

  /** Deleting a patient just created gives back the tables from before: there was nothing to cascade to. */
  lemma CreateThenDeleteRestores(t: Tables, patient: Patient, newId: Long)
    requires Consistent(t) && newId !in t.patients
    requires Create(t, Some(patient), newId).result.Ok?
    ensures Delete(Create(t, Some(patient), newId).tables, Some(newId)) == Step(Ok(()), t)
  {
    var created := Create(t, Some(patient), newId).tables;
    assert created.patients - {newId} == t.patients;
    assert WithoutPatient(created.appointments, newId) == t.appointments;
  }

  lemma CreatePreservesConsistency(t: Tables, patient: Option<Patient>, newId: Long)
    requires Consistent(t) && newId !in t.patients
    ensures Consistent(Create(t, patient, newId).tables)
  {
  }

  lemma UpdatePreservesConsistency(t: Tables, id: Option<Long>, details: Option<Patient>)
    requires Consistent(t)
    ensures Consistent(Update(t, id, details).tables)
  {
  }

  lemma DeletePreservesConsistency(t: Tables, id: Option<Long>)
    requires Consistent(t)
    ensures Consistent(Delete(t, id).tables)
  {
  }

  // ---------------------------------------------------------------------
  // The service bean

  class Service {
    const db: Store

    constructor (db: Store)
      ensures this.db == db
    {
      this.db := db;
    }

    method CreatePatient(patient: Option<Patient>, newId: Long) returns (r: Result<Patient>)
      requires db.Valid() && newId !in db.patients
      modifies db
      ensures db.Valid()
      ensures Step(r, db.View()) == Create(old(db.View()), patient, newId)
    {
      CreatePreservesConsistency(db.View(), patient, newId);
      if patient.None? {
        return Err(IllegalArgument("Patient cannot be null"));
      }
      var p := patient.value;
      if p.email.Some? && PatientEmailTaken(db.patients, p.email.value) {
        return Err(IllegalArgument(EmailInUseMessage));
      }
      p := p.(id := Some(newId));
      db.patients := db.patients[newId := p];
      r := Ok(p);
    }

    method UpdatePatient(id: Option<Long>, details: Option<Patient>) returns (r: Result<Patient>)
      requires db.Valid()
      modifies db
      ensures db.Valid()
      ensures Step(r, db.View()) == Update(old(db.View()), id, details)
    {
      UpdatePreservesConsistency(db.View(), id, details);
      if id.None? || details.None? {
        return Err(IllegalArgument("Patient ID or details cannot be null"));
      }
      if id.value !in db.patients {
        return Err(NotFound(NotFoundMessage("Patient", id.value)));
      }
      var p := db.patients[id.value];
      var d := details.value;
      if d.firstName.Some? {
        p := p.(firstName := d.firstName);
      }
      if d.lastName.Some? {
        p := p.(lastName := d.lastName);
      }
      if d.email.Some? && d.email != p.email {
        if PatientEmailTaken(db.patients, d.email.value) {
          return Err(IllegalArgument(EmailInUseMessage));
        }
        p := p.(email := d.email);
      }
      if d.phoneNumber.Some? {
        p := p.(phoneNumber := d.phoneNumber);
      }
      if d.medicalHistory.Some? {
        p := p.(medicalHistory := d.medicalHistory);
      }
      db.patients := db.patients[id.value := p];
      r := Ok(p);
    }

    method DeletePatient(id: Option<Long>) returns (r: Result<()>)
      requires db.Valid()
      modifies db
      ensures db.Valid()
      ensures Step(r, db.View()) == Delete(old(db.View()), id)
    {
      DeletePreservesConsistency(db.View(), id);
      if id.None? {
        return Err(IllegalArgument("Patient ID cannot be null"));
      }
      if id.value !in db.patients {
        return Err(NotFound(NotFoundMessage("Patient", id.value)));
      }
      db.appointments := WithoutPatient(db.appointments, id.value);
      db.patients := db.patients - {id.value};
      r := Ok(());
    }
  }
}
