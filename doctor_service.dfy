/**
 * The doctor service: guarded lookups, the specialization search, and the
 * transactional create, partial update and delete of doctor profiles.
 * Deleting a doctor also deletes the doctor's appointments.
 */
module DoctorService {
  import opened Common
  import opened Entities
  import opened Persistence
  import opened Repositories
  import AppointmentRepository

  const EmailInUseMessage := "Email is already in use"

  // ---------------------------------------------------------------------
  // Queries

  function GetDoctorById(t: Tables, id: Option<Long>): (r: Result<Option<Doctor>>)
    ensures id.None? <==> r == Err(IllegalArgument("Doctor ID cannot be null"))
    ensures id.Some? ==> r.Ok? && (r.value.Some? <==> id.value in t.doctors)
    ensures r.Ok? && r.value.Some? ==> r.value.value == t.doctors[id.value]
  {
    if id.None? then Err(IllegalArgument("Doctor ID cannot be null"))
    else if id.value in t.doctors then Ok(Some(t.doctors[id.value]))
    else Ok(None)
  }

  /** The doctor holding exactly this email; a null or blank email is refused. */
  ghost function GetDoctorByEmail(t: Tables, email: Option<string>): (r: Result<Option<Doctor>>)
    ensures email.None? || IsBlank(email.value) ==> r == Err(IllegalArgument("Email cannot be null or empty"))
    ensures r.Ok? && r.value.Some? ==> r.value.value in t.doctors.Values && r.value.value.email == email
    ensures email.Some? && !IsBlank(email.value) && UniqueDoctorEmails(t.doctors) ==>
      r.Ok? && (r.value.Some? <==> DoctorEmailTaken(t.doctors, email.value))
  {
    if email.None? || IsBlank(email.value) then Err(IllegalArgument("Email cannot be null or empty"))
    else
      DoctorEmailLookupUnderUniquenessIfHolds(t.doctors, email.value);
      match FindDoctorByEmail(t.doctors, email.value)
      case Missing => Ok(None)
      case Ambiguous => Err(NonUniqueResult)
      case Unique(k) => Ok(Some(t.doctors[k]))
  }

  lemma DoctorEmailLookupUnderUniquenessIfHolds(doctors: map<Long, Doctor>, email: string)
    ensures UniqueDoctorEmails(doctors) ==>
      !FindDoctorByEmail(doctors, email).Ambiguous?
      && (FindDoctorByEmail(doctors, email).Unique? <==> DoctorEmailTaken(doctors, email))
  {
    if UniqueDoctorEmails(doctors) {
      DoctorEmailLookupUnderUniqueness(doctors, email);
    }
  }

  /** The doctor profile linked to a user account. */
  ghost function GetDoctorByUserId(t: Tables, userId: Option<Long>): (r: Result<Option<Doctor>>)
    ensures userId.None? <==> r == Err(IllegalArgument("User ID cannot be null"))
    ensures r.Ok? && r.value.Some? ==> r.value.value in t.doctors.Values && r.value.value.user == userId
    ensures r.Ok? && r.value.None? ==> forall k :: k in t.doctors ==> t.doctors[k].user != userId
    ensures userId.Some? && !FindDoctorByUserId(t.doctors, userId.value).Ambiguous? ==> r.Ok?
    ensures userId.Some? && FindDoctorByUserId(t.doctors, userId.value).Unique? ==>
      r == Ok(Some(t.doctors[FindDoctorByUserId(t.doctors, userId.value).key]))
    ensures userId.Some? && FindDoctorByUserId(t.doctors, userId.value).Ambiguous? ==> r == Err(NonUniqueResult)
  {
    if userId.None? then Err(IllegalArgument("User ID cannot be null"))
    else
      match FindDoctorByUserId(t.doctors, userId.value)
      case Missing => Ok(None)
      case Ambiguous => Err(NonUniqueResult)
      case Unique(k) => Ok(Some(t.doctors[k]))
  }

  /** The doctors whose specialization is exactly the given text (the search is case-sensitive). */
  function GetDoctorsBySpecialization(t: Tables, specialization: Option<string>): (r: Result<map<Long, Doctor>>)
    ensures specialization.None? || IsBlank(specialization.value) <==>
      r == Err(IllegalArgument("Specialization cannot be null or empty"))
    ensures r.Ok? ==> forall k :: k in r.value <==> k in t.doctors && t.doctors[k].specialization == specialization
    ensures r.Ok? ==> forall k :: k in r.value ==> r.value[k] == t.doctors[k]
  {
    if specialization.None? || IsBlank(specialization.value) then
      Err(IllegalArgument("Specialization cannot be null or empty"))
    else
      Ok(map k | k in t.doctors && t.doctors[k].specialization == specialization :: t.doctors[k])
  }

  // ---------------------------------------------------------------------
  // Transactional operations

  function Create(t: Tables, doctor: Option<Doctor>, newId: Long): (s: Step<Doctor>)
    ensures s.result.Err? ==> s.tables == t
    ensures doctor.None? ==> s.result == Err(IllegalArgument("Doctor cannot be null"))
    ensures doctor.Some? && doctor.value.email.Some? && DoctorEmailTaken(t.doctors, doctor.value.email.value) ==>
      s.result == Err(IllegalArgument(EmailInUseMessage))
    ensures s.result.Ok? <==>
      doctor.Some? && !(doctor.value.email.Some? && DoctorEmailTaken(t.doctors, doctor.value.email.value))
    ensures s.result.Ok? ==>
      && s.result.value == doctor.value.(id := Some(newId))
      && s.tables == t.(doctors := t.doctors[newId := s.result.value])
  {
    if doctor.None? then Step(Err(IllegalArgument("Doctor cannot be null")), t)
    else if doctor.value.email.Some? && DoctorEmailTaken(t.doctors, doctor.value.email.value) then
      Step(Err(IllegalArgument(EmailInUseMessage)), t)
    else
      var d := doctor.value.(id := Some(newId));
      Step(Ok(d), t.(doctors := t.doctors[newId := d]))
  }

  /** The details ask for an email different from the stored one. */
  predicate ChangesEmail(current: Doctor, details: Doctor)
  {
    details.email.Some? && details.email != current.email
  }

  /** Every field `updateDoctor` copies when non-null; only the id and the user link are never touched. */
  function Patched(current: Doctor, details: Doctor): Doctor
  {
    current.(firstName := Overlay(details.firstName, current.firstName),
             lastName := Overlay(details.lastName, current.lastName),
             email := Overlay(details.email, current.email),
             phoneNumber := Overlay(details.phoneNumber, current.phoneNumber),
             specialization := Overlay(details.specialization, current.specialization),
             qualifications := Overlay(details.qualifications, current.qualifications),
             address := Overlay(details.address, current.address),
             workingHoursStart := Overlay(details.workingHoursStart, current.workingHoursStart),
             workingHoursEnd := Overlay(details.workingHoursEnd, current.workingHoursEnd))
  }

  function Update(t: Tables, id: Option<Long>, details: Option<Doctor>): (s: Step<Doctor>)
    ensures s.result.Err? ==> s.tables == t
    ensures id.None? || details.None? ==> s.result == Err(IllegalArgument("Doctor ID or details cannot be null"))
    ensures id.Some? && details.Some? && id.value !in t.doctors ==>
      s.result == Err(NotFound(NotFoundMessage("Doctor", id.value)))
    ensures s.result.Ok? <==>
      && id.Some? && details.Some? && id.value in t.doctors
      && !(ChangesEmail(t.doctors[id.value], details.value) && DoctorEmailTaken(t.doctors, details.value.email.value))
    ensures s.result.Ok? ==>
      var before := t.doctors[id.value];
      var d := details.value;
      var r := s.result.value;
      && s.tables == t.(doctors := t.doctors[id.value := r])
      && r.id == before.id && r.user == before.user
      && r.firstName == Overlay(d.firstName, before.firstName)
      && r.lastName == Overlay(d.lastName, before.lastName)
      && r.email == Overlay(d.email, before.email)
      && r.phoneNumber == Overlay(d.phoneNumber, before.phoneNumber)
      && r.specialization == Overlay(d.specialization, before.specialization)
      && r.qualifications == Overlay(d.qualifications, before.qualifications)
      && r.address == Overlay(d.address, before.address)
      && r.workingHoursStart == Overlay(d.workingHoursStart, before.workingHoursStart)
      && r.workingHoursEnd == Overlay(d.workingHoursEnd, before.workingHoursEnd)
  {
    if id.None? || details.None? then
      Step(Err(IllegalArgument("Doctor ID or details cannot be null")), t)
    else if id.value !in t.doctors then
      Step(Err(NotFound(NotFoundMessage("Doctor", id.value))), t)
    else if ChangesEmail(t.doctors[id.value], details.value) && DoctorEmailTaken(t.doctors, details.value.email.value) then
      Step(Err(IllegalArgument(EmailInUseMessage)), t)
    else
      var d := Patched(t.doctors[id.value], details.value);
      Step(Ok(d), t.(doctors := t.doctors[id.value := d]))
  }

  /** The appointment table without the rows of one doctor (the cascade on delete). */
  function WithoutDoctor(appointments: map<Long, Appointments.Appointment>, doctorId: Long): (r: map<Long, Appointments.Appointment>)
    ensures forall k :: k in r <==> k in appointments && appointments[k].doctor != Some(doctorId)
    ensures forall k :: k in r ==> r[k] == appointments[k]
  {
    map k | k in appointments && appointments[k].doctor != Some(doctorId) :: appointments[k]
  }

  function Delete(t: Tables, id: Option<Long>): (s: Step<()>)
    ensures id.None? ==> s == Step(Err(IllegalArgument("Doctor ID cannot be null")), t)
    ensures id.Some? && id.value !in t.doctors ==> s == Step(Err(NotFound(NotFoundMessage("Doctor", id.value))), t)
    ensures id.Some? && id.value in t.doctors ==>
      s == Step(Ok(()), t.(doctors := t.doctors - {id.value},
                           appointments := WithoutDoctor(t.appointments, id.value)))
  {
    if id.None? then Step(Err(IllegalArgument("Doctor ID cannot be null")), t)
    else if id.value !in t.doctors then Step(Err(NotFound(NotFoundMessage("Doctor", id.value))), t)
    else Step(Ok(()), t.(doctors := t.doctors - {id.value},
                         appointments := WithoutDoctor(t.appointments, id.value)))
  }

  // ---------------------------------------------------------------------
  // Properties

  /** Sending back the doctor's own current email is never an email conflict. */
  lemma OwnEmailNeverConflicts(t: Tables, id: Long, details: Doctor)
    requires id in t.doctors && details.email == t.doctors[id].email
    ensures Update(t, Some(id), Some(details)).result.Ok?
  {
  }

  /** Taking an email another doctor holds is refused and changes nothing. */
  lemma TakenEmailIsRefused(t: Tables, id: Long, other: Long, details: Doctor)
    requires Consistent(t)
    requires id in t.doctors && other in t.doctors && id != other
    requires details.email.Some? && details.email == t.doctors[other].email
    ensures Update(t, Some(id), Some(details)) == Step(Err(IllegalArgument(EmailInUseMessage)), t)
  {
    assert t.doctors[id].email != details.email;
  }

  /** Repeating an accepted update changes nothing further. */
  lemma UpdateIsIdempotent(t: Tables, id: Long, details: Doctor)
    requires Update(t, Some(id), Some(details)).result.Ok?
    ensures var once := Update(t, Some(id), Some(details));
            Update(once.tables, Some(id), Some(details)) == once
  {
    var once := Update(t, Some(id), Some(details));
    var d := once.result.value;
    assert !ChangesEmail(d, details);
    assert Patched(d, details) == d;
  }

  /** After a delete, no appointment of the doctor is left and every other appointment is kept. */
  lemma DeleteRemovesOnlyTheDoctorsAppointments(t: Tables, id: Long)
    requires id in t.doctors
    ensures var after := Delete(t, Some(id)).tables.appointments;
            && AppointmentRepository.FindByDoctorId(after, id) == map[]
            && forall k :: k in t.appointments && t.appointments[k].doctor != Some(id) ==>
                 k in after && after[k] == t.appointments[k]
  {
    var after := Delete(t, Some(id)).tables.appointments;
    assert AppointmentRepository.FindByDoctorId(after, id).Keys == {};
  }

  /** Deleting a doctor just created gives back the tables from before: there was nothing to cascade to. */
  lemma CreateThenDeleteRestores(t: Tables, doctor: Doctor, newId: Long)
    requires Consistent(t) && newId !in t.doctors
    requires Create(t, Some(doctor), newId).result.Ok?
    ensures Delete(Create(t, Some(doctor), newId).tables, Some(newId)) == Step(Ok(()), t)
  {
    var created := Create(t, Some(doctor), newId).tables;
    assert created.doctors - {newId} == t.doctors;
    assert WithoutDoctor(created.appointments, newId) == t.appointments;
  }

  lemma CreatePreservesConsistency(t: Tables, doctor: Option<Doctor>, newId: Long)
    requires Consistent(t) && newId !in t.doctors
    ensures Consistent(Create(t, doctor, newId).tables)
  {
  }

  lemma UpdatePreservesConsistency(t: Tables, id: Option<Long>, details: Option<Doctor>)
    requires Consistent(t)
    ensures Consistent(Update(t, id, details).tables)
  {
  }

  lemma DeletePreservesConsistency(t: Tables, id: Option<Long>)
    requires Consistent(t)
    ensures Consistent(Delete(t, id).tables)
  {
  }

  // ---------------------------------------------------------------------
  // The service bean

  class Service {
    const db: Store

    constructor (db: Store)
      ensures this.db == db
    {
      this.db := db;
    }

    method CreateDoctor(doctor: Option<Doctor>, newId: Long) returns (r: Result<Doctor>)
      requires db.Valid() && newId !in db.doctors
      modifies db
      ensures db.Valid()
      ensures Step(r, db.View()) == Create(old(db.View()), doctor, newId)
    {
      CreatePreservesConsistency(db.View(), doctor, newId);
      if doctor.None? {
        return Err(IllegalArgument("Doctor cannot be null"));
      }
      var d := doctor.value;
      if d.email.Some? && DoctorEmailTaken(db.doctors, d.email.value) {
        return Err(IllegalArgument(EmailInUseMessage));
      }
      d := d.(id := Some(newId));
      db.doctors := db.doctors[newId := d];
      r := Ok(d);
    }

    method UpdateDoctor(id: Option<Long>, details: Option<Doctor>) returns (r: Result<Doctor>)
      requires db.Valid()
      modifies db
      ensures db.Valid()
      ensures Step(r, db.View()) == Update(old(db.View()), id, details)
    {
      UpdatePreservesConsistency(db.View(), id, details);
      if id.None? || details.None? {
        return Err(IllegalArgument("Doctor ID or details cannot be null"));
      }
      if id.value !in db.doctors {
        return Err(NotFound(NotFoundMessage("Doctor", id.value)));
      }
      var doc := db.doctors[id.value];
      var d := details.value;
      if d.firstName.Some? {
        doc := doc.(firstName := d.firstName);
      }
      if d.lastName.Some? {
        doc := doc.(lastName := d.lastName);
      }
      if d.email.Some? && d.email != doc.email {
        if DoctorEmailTaken(db.doctors, d.email.value) {
          return Err(IllegalArgument(EmailInUseMessage));
        }
        doc := doc.(email := d.email);
      }
      doc := CopyPracticeDetails(doc, d);
      db.doctors := db.doctors[id.value := doc];
      r := Ok(doc);
    }

    /** The copies `updateDoctor` makes after the email check: phone, practice details and hours. */
    static method CopyPracticeDetails(current: Doctor, d: Doctor) returns (doc: Doctor)
      ensures doc == current.(phoneNumber := Overlay(d.phoneNumber, current.phoneNumber),
                              specialization := Overlay(d.specialization, current.specialization),
                              qualifications := Overlay(d.qualifications, current.qualifications),
                              address := Overlay(d.address, current.address),
                              workingHoursStart := Overlay(d.workingHoursStart, current.workingHoursStart),
                              workingHoursEnd := Overlay(d.workingHoursEnd, current.workingHoursEnd))
    {
      doc := current;
      if d.phoneNumber.Some? {
        doc := doc.(phoneNumber := d.phoneNumber);
      }
      if d.specialization.Some? {
        doc := doc.(specialization := d.specialization);
      }
      if d.qualifications.Some? {
        doc := doc.(qualifications := d.qualifications);
      }
      if d.address.Some? {
        doc := doc.(address := d.address);
      }
      if d.workingHoursStart.Some? {
        doc := doc.(workingHoursStart := d.workingHoursStart);
      }
      if d.workingHoursEnd.Some? {
        doc := doc.(workingHoursEnd := d.workingHoursEnd);
      }
    }

    method DeleteDoctor(id: Option<Long>) returns (r: Result<()>)
      requires db.Valid()
      modifies db
      ensures db.Valid()
      ensures Step(r, db.View()) == Delete(old(db.View()), id)
    {
      DeletePreservesConsistency(db.View(), id);
      if id.None? {
        return Err(IllegalArgument("Doctor ID cannot be null"));
      }
      if id.value !in db.doctors {
        return Err(NotFound(NotFoundMessage("Doctor", id.value)));
      }
      db.appointments := WithoutDoctor(db.appointments, id.value);
      db.doctors := db.doctors - {id.value};
      r := Ok(());
    }
  }
}
