/**
 * The appointment service: guarded queries and the transactional create,
 * update, status-update and delete operations. Each transactional operation
 * is specified by a function from the tables before to a `Step` (result and
 * tables after); an operation that throws leaves the tables as they were,
 * since the transaction rolls back. `now` is the clock reading the operation
 * takes; `newId` is the id the database generates for a new row.
 */
module AppointmentService {
  import opened Common
  import opened Appointments
  import opened Persistence
  import opened AppointmentRepository

  const NullIdMessage := "Appointment ID cannot be null"
  const NullCreateArgumentsMessage := "Patient ID, Doctor ID, or Appointment cannot be null"
  const NullUpdateArgumentsMessage := "Appointment ID or details cannot be null"
  const NullStatusArgumentsMessage := "Appointment ID or status cannot be null"
  const PastDateMessage := "Appointment date must be in the future"

  /** The service's own not-found exception (not the shared one). */
  function MissingRow(kind: string, id: Long): Error
  {
    ServiceNotFound(NotFoundMessage(kind, id))
  }

  // ---------------------------------------------------------------------
  // Queries

  function GetAppointmentById(t: Tables, id: Option<Long>): (r: Result<Option<Appointment>>)
    ensures id.None? <==> r == Err(IllegalArgument(NullIdMessage))
    ensures id.Some? ==> r.Ok? && (r.value.Some? <==> id.value in t.appointments)
    ensures r.Ok? && r.value.Some? ==> r.value.value == t.appointments[id.value]
  {
    if id.None? then Err(IllegalArgument(NullIdMessage))
    else if id.value in t.appointments then Ok(Some(t.appointments[id.value]))
    else Ok(None)
  }

  function GetAppointmentsByPatientId(t: Tables, patientId: Option<Long>): (r: Result<Rows>)
    ensures patientId.None? <==> r == Err(IllegalArgument("Patient ID cannot be null"))
    ensures patientId.Some? ==> r.Ok?
    ensures r.Ok? ==> forall k :: k in r.value <==> k in t.appointments && t.appointments[k].patient == patientId
    ensures r.Ok? ==> forall k :: k in r.value ==> r.value[k] == t.appointments[k]
  {
    if patientId.None? then Err(IllegalArgument("Patient ID cannot be null"))
    else Ok(FindByPatientId(t.appointments, patientId.value))
  }

  function GetAppointmentsByDoctorId(t: Tables, doctorId: Option<Long>): (r: Result<Rows>)
    ensures doctorId.None? <==> r == Err(IllegalArgument("Doctor ID cannot be null"))
    ensures doctorId.Some? ==> r.Ok?
    ensures r.Ok? ==> forall k :: k in r.value <==> k in t.appointments && t.appointments[k].doctor == doctorId
    ensures r.Ok? ==> forall k :: k in r.value ==> r.value[k] == t.appointments[k]
  {
    if doctorId.None? then Err(IllegalArgument("Doctor ID cannot be null"))
    else Ok(FindByDoctorId(t.appointments, doctorId.value))
  }

  function GetAppointmentsByStatus(t: Tables, status: Option<AppointmentStatus>): (r: Result<Rows>)
    ensures status.None? <==> r == Err(IllegalArgument("Status cannot be null"))
    ensures status.Some? ==> r.Ok?
    ensures r.Ok? ==> forall k :: k in r.value <==> k in t.appointments && t.appointments[k].status == status
    ensures r.Ok? ==> forall k :: k in r.value ==> r.value[k] == t.appointments[k]
  {
    if status.None? then Err(IllegalArgument("Status cannot be null"))
    else Ok(FindByStatus(t.appointments, status.value))
  }

  /** `validateDateRange`: both ends present and the start not after the end. */
  function ValidateDateRange(start: Option<int>, end: Option<int>): (r: Outcome)
    ensures r.Pass? <==> start.Some? && end.Some? && start.value <= end.value
    ensures start.None? || end.None? ==> r == Fail(IllegalArgument("Start date or end date cannot be null"))
    ensures start.Some? && end.Some? && start.value > end.value ==>
      r == Fail(IllegalArgument("Start date cannot be after end date"))
  {
    if start.None? || end.None? then Fail(IllegalArgument("Start date or end date cannot be null"))
    else if start.value > end.value then Fail(IllegalArgument("Start date cannot be after end date"))
    else Pass
  }

  /** The range is validated before the id is checked for null. */
  function GetAppointmentsByDoctorAndDateRange(t: Tables, doctorId: Option<Long>, start: Option<int>, end: Option<int>): (r: Result<Rows>)
    ensures ValidateDateRange(start, end).Fail? ==> r == Err(ValidateDateRange(start, end).error)
    ensures ValidateDateRange(start, end).Pass? && doctorId.None? ==> r == Err(IllegalArgument("Doctor ID cannot be null"))
    ensures ValidateDateRange(start, end).Pass? && doctorId.Some? ==> r.Ok?
    ensures r.Ok? ==> forall k :: k in r.value <==>
      k in t.appointments && t.appointments[k].doctor == doctorId && InRange(t.appointments[k], start.value, end.value)
    ensures r.Ok? ==> forall k :: k in r.value ==> r.value[k] == t.appointments[k]
  {
    match ValidateDateRange(start, end)
    case Fail(e) => Err(e)
    case Pass =>
      if doctorId.None? then Err(IllegalArgument("Doctor ID cannot be null"))
      else Ok(FindByDoctorIdAndDateRange(t.appointments, doctorId.value, start.value, end.value))
  }

  function GetAppointmentsByPatientAndDateRange(t: Tables, patientId: Option<Long>, start: Option<int>, end: Option<int>): (r: Result<Rows>)
    ensures ValidateDateRange(start, end).Fail? ==> r == Err(ValidateDateRange(start, end).error)
    ensures ValidateDateRange(start, end).Pass? && patientId.None? ==> r == Err(IllegalArgument("Patient ID cannot be null"))
    ensures ValidateDateRange(start, end).Pass? && patientId.Some? ==> r.Ok?
    ensures r.Ok? ==> forall k :: k in r.value <==>
      k in t.appointments && t.appointments[k].patient == patientId && InRange(t.appointments[k], start.value, end.value)
    ensures r.Ok? ==> forall k :: k in r.value ==> r.value[k] == t.appointments[k]
  {
    match ValidateDateRange(start, end)
    case Fail(e) => Err(e)
    case Pass =>
      if patientId.None? then Err(IllegalArgument("Patient ID cannot be null"))
      else Ok(FindByPatientIdAndDateRange(t.appointments, patientId.value, start.value, end.value))
  }

  // ---------------------------------------------------------------------
  // Transactional operations

  /** `isBefore(now)`: strictly earlier than the clock reading. */
  predicate InPast(at: int, now: int)
  {
    at < now
  }

  /** The appointment `createAppointment` saves: linked, scheduled and stamped. */
  function Scheduled(a: Appointment, patientId: Long, doctorId: Long, now: int, newId: Long): Appointment
  {
    a.(id := Some(newId), patient := Some(patientId), doctor := Some(doctorId),
       status := Some(AppointmentStatus.Scheduled), createdAt := Some(now), updatedAt := Some(now))
  }

  function Create(t: Tables, patientId: Option<Long>, doctorId: Option<Long>, appointment: Option<Appointment>,
                  now: int, newId: Long): (s: Step<Appointment>)
    ensures s.result.Err? ==> s.tables == t
    ensures patientId.None? || doctorId.None? || appointment.None? ==>
      s.result == Err(IllegalArgument(NullCreateArgumentsMessage))
    ensures patientId.Some? && doctorId.Some? && appointment.Some? && patientId.value !in t.patients ==>
      s.result == Err(MissingRow("Patient", patientId.value))
    ensures patientId.Some? && doctorId.Some? && appointment.Some? && patientId.value in t.patients
            && doctorId.value !in t.doctors ==>
      s.result == Err(MissingRow("Doctor", doctorId.value))
    ensures patientId.Some? && doctorId.Some? && appointment.Some? && patientId.value in t.patients
            && doctorId.value in t.doctors
            && (appointment.value.appointmentDateTime.None? || InPast(appointment.value.appointmentDateTime.value, now)) ==>
      s.result == Err(IllegalArgument(PastDateMessage))
    ensures s.result.Ok? <==>
      && patientId.Some? && doctorId.Some? && appointment.Some?
      && patientId.value in t.patients && doctorId.value in t.doctors
      && appointment.value.appointmentDateTime.Some?
      && !InPast(appointment.value.appointmentDateTime.value, now)
    ensures s.result.Ok? ==>
      && s.tables == t.(appointments := t.appointments[newId := s.result.value])
      && s.result.value == Scheduled(appointment.value, patientId.value, doctorId.value, now, newId)
  {
    if patientId.None? || doctorId.None? || appointment.None? then
      Step(Err(IllegalArgument(NullCreateArgumentsMessage)), t)
    else if patientId.value !in t.patients then
      Step(Err(MissingRow("Patient", patientId.value)), t)
    else if doctorId.value !in t.doctors then
      Step(Err(MissingRow("Doctor", doctorId.value)), t)
    else if appointment.value.appointmentDateTime.None? || InPast(appointment.value.appointmentDateTime.value, now) then
      Step(Err(IllegalArgument(PastDateMessage)), t)
    else
      var a := Scheduled(appointment.value, patientId.value, doctorId.value, now, newId);
      Step(Ok(a), t.(appointments := t.appointments[newId := a]))
  }

  /** The fields `updateAppointment` copies from the details when they are non-null, and the new stamp. */
  function Patched(current: Appointment, details: Appointment, now: int): Appointment
  {
    current.(appointmentDateTime := Overlay(details.appointmentDateTime, current.appointmentDateTime),
             endDateTime := Overlay(details.endDateTime, current.endDateTime),
             status := Overlay(details.status, current.status),
             reason := Overlay(details.reason, current.reason),
             notes := Overlay(details.notes, current.notes),
             updatedAt := Some(now))
  }

  function Update(t: Tables, id: Option<Long>, details: Option<Appointment>, now: int): (s: Step<Appointment>)
    ensures s.result.Err? ==> s.tables == t
    ensures id.None? || details.None? ==> s.result == Err(IllegalArgument(NullUpdateArgumentsMessage))
    ensures id.Some? && details.Some? && id.value !in t.appointments ==> s.result == Err(MissingRow("Appointment", id.value))
    ensures id.Some? && details.Some? && id.value in t.appointments
            && details.value.appointmentDateTime.Some? && InPast(details.value.appointmentDateTime.value, now) ==>
      s.result == Err(IllegalArgument(PastDateMessage))
    ensures s.result.Ok? <==>
      && id.Some? && details.Some? && id.value in t.appointments
      && !(details.value.appointmentDateTime.Some? && InPast(details.value.appointmentDateTime.value, now))
    ensures s.result.Ok? ==>
      var before := t.appointments[id.value];
      var d := details.value;
      var a := s.result.value;
      && s.tables == t.(appointments := t.appointments[id.value := a])
      && a.id == before.id && a.patient == before.patient && a.doctor == before.doctor
      && a.createdAt == before.createdAt && a.updatedAt == Some(now)
      && a.appointmentDateTime == Overlay(d.appointmentDateTime, before.appointmentDateTime)
      && a.endDateTime == Overlay(d.endDateTime, before.endDateTime)
      && a.status == Overlay(d.status, before.status)
      && a.reason == Overlay(d.reason, before.reason)
      && a.notes == Overlay(d.notes, before.notes)
  {
    if id.None? || details.None? then
      Step(Err(IllegalArgument(NullUpdateArgumentsMessage)), t)
    else if id.value !in t.appointments then
      Step(Err(MissingRow("Appointment", id.value)), t)
    else if details.value.appointmentDateTime.Some? && InPast(details.value.appointmentDateTime.value, now) then
      Step(Err(IllegalArgument(PastDateMessage)), t)
    else
      var a := Patched(t.appointments[id.value], details.value, now);
      Step(Ok(a), t.(appointments := t.appointments[id.value := a]))
  }

  function Delete(t: Tables, id: Option<Long>): (s: Step<()>)
    ensures id.None? ==> s == Step(Err(IllegalArgument(NullIdMessage)), t)
    ensures id.Some? && id.value !in t.appointments ==> s == Step(Err(MissingRow("Appointment", id.value)), t)
    ensures id.Some? && id.value in t.appointments ==>
      s == Step(Ok(()), t.(appointments := t.appointments - {id.value}))
  {
    if id.None? then Step(Err(IllegalArgument(NullIdMessage)), t)
    else if id.value !in t.appointments then Step(Err(MissingRow("Appointment", id.value)), t)
    else Step(Ok(()), t.(appointments := t.appointments - {id.value}))
  }

  /** Any non-null status may be set, whatever the current one: there is no transition rule. */
  function UpdateStatus(t: Tables, id: Option<Long>, status: Option<AppointmentStatus>, now: int): (s: Step<Appointment>)
    ensures s.result.Err? ==> s.tables == t
    ensures id.None? || status.None? ==> s.result == Err(IllegalArgument(NullStatusArgumentsMessage))
    ensures id.Some? && status.Some? && id.value !in t.appointments ==> s.result == Err(MissingRow("Appointment", id.value))
    ensures s.result.Ok? <==> id.Some? && status.Some? && id.value in t.appointments
    ensures s.result.Ok? ==>
      && s.result.value == t.appointments[id.value].(status := status, updatedAt := Some(now))
      && s.tables == t.(appointments := t.appointments[id.value := s.result.value])
  {
    if id.None? || status.None? then
      Step(Err(IllegalArgument(NullStatusArgumentsMessage)), t)
    else if id.value !in t.appointments then
      Step(Err(MissingRow("Appointment", id.value)), t)
    else
      var a := t.appointments[id.value].(status := status, updatedAt := Some(now));
      Step(Ok(a), t.(appointments := t.appointments[id.value := a]))
  }

  // ---------------------------------------------------------------------
  // Properties

  /** Details carrying only a status. */
  function StatusOnly(status: AppointmentStatus): Appointment
  {
    Appointment(None, None, None, None, None, Some(status), None, None, None, None)
  }

  /**
   * For a non-null id, setting a status is exactly a general update whose
   * details carry only that status, down to the not-found error (the two
   * differ only in the message for a null id).
   */
  lemma UpdateStatusIsStatusOnlyUpdate(t: Tables, id: Long, status: AppointmentStatus, now: int)
    ensures UpdateStatus(t, Some(id), Some(status), now) == Update(t, Some(id), Some(StatusOnly(status)), now)
  {
    if id in t.appointments {
      var before := t.appointments[id];
      assert Patched(before, StatusOnly(status), now) == before.(status := Some(status), updatedAt := Some(now));
    }
  }

  /** Applying the same update twice, at the same time, is the same as applying it once. */
  lemma UpdateIsIdempotent(t: Tables, id: Option<Long>, details: Option<Appointment>, now: int)
    requires Update(t, id, details, now).result.Ok?
    ensures var once := Update(t, id, details, now);
            Update(once.tables, id, details, now) == once
  {
    var once := Update(t, id, details, now);
    var a := once.result.value;
    assert Patched(a, details.value, now) == a;
  }

  /** An update carrying only notes changes the notes and the stamp and nothing else. */
  lemma NotesOnlyUpdate(t: Tables, id: Long, notes: string, now: int)
    requires id in t.appointments
    ensures var s := Update(t, Some(id), Some(Appointment(None, None, None, None, None, None, None, Some(notes), None, None)), now);
            && s.result == Ok(t.appointments[id].(notes := Some(notes), updatedAt := Some(now)))
            && s.tables.appointments == t.appointments[id := s.result.value]
  {
  }

  /** Deleting the appointment just created gives back the tables from before. */
  lemma CreateThenDeleteRestores(t: Tables, patientId: Option<Long>, doctorId: Option<Long>,
                                 appointment: Option<Appointment>, now: int, newId: Long)
    requires newId !in t.appointments
    requires Create(t, patientId, doctorId, appointment, now, newId).result.Ok?
    ensures var created := Create(t, patientId, doctorId, appointment, now, newId);
            Delete(created.tables, Some(newId)) == Step(Ok(()), t)
  {
    var created := Create(t, patientId, doctorId, appointment, now, newId);
    assert created.tables.appointments - {newId} == t.appointments;
  }

  /** A created appointment is listed for its patient and for its doctor, and assigns them to each other. */
  lemma CreatedAppointmentIsListed(t: Tables, patientId: Long, doctorId: Long, appointment: Appointment, now: int, newId: Long)
    requires Create(t, Some(patientId), Some(doctorId), Some(appointment), now, newId).result.Ok?
    ensures var after := Create(t, Some(patientId), Some(doctorId), Some(appointment), now, newId).tables.appointments;
            && newId in FindByPatientId(after, patientId)
            && newId in FindByDoctorId(after, doctorId)
            && newId in FindByStatus(after, AppointmentStatus.Scheduled)
            && ExistsByPatientIdAndDoctorId(after, patientId, doctorId)
  {
    var after := Create(t, Some(patientId), Some(doctorId), Some(appointment), now, newId).tables.appointments;
    assert newId in after && after[newId].patient == Some(patientId) && after[newId].doctor == Some(doctorId);
  }

  /** Deleting the same appointment twice fails the second time with the service's not-found error. */
  lemma SecondDeleteFails(t: Tables, id: Long)
    requires id in t.appointments
    ensures var first := Delete(t, Some(id));
            first.result.Ok? && Delete(first.tables, Some(id)) == Step(Err(MissingRow("Appointment", id)), first.tables)
  {
  }

  /**
   * The service accepts a start equal to the clock reading, which the
   * entity's `@Future` constraint rejects when the row is flushed.
   */
  lemma StartAtNowPassesServiceButNotFuture(t: Tables, patientId: Long, doctorId: Long, appointment: Appointment, now: int, newId: Long)
    requires patientId in t.patients && doctorId in t.doctors
    requires appointment.appointmentDateTime == Some(now)
    ensures var s := Create(t, Some(patientId), Some(doctorId), Some(appointment), now, newId);
            s.result.Ok? && !ConstraintsHold(s.result.value, now)
  {
  }

  /** Moving the start past an existing end is accepted by the update, leaving a row the end validator rejects. */
  lemma UpdateCanBreakEndRule(t: Tables, id: Long, now: int)
    requires id in t.appointments
    requires t.appointments[id].endDateTime == Some(now + 10)
    ensures var s := Update(t, Some(id), Some(Appointment(None, None, None, Some(now + 20), None, None, None, None, None, None)), now);
            s.result.Ok? && EndDateTimeValid(s.result.value) == Some(false)
  {
  }

  lemma CreatePreservesConsistency(t: Tables, patientId: Option<Long>, doctorId: Option<Long>,
                                   appointment: Option<Appointment>, now: int, newId: Long)
    requires Consistent(t) && newId !in t.appointments
    ensures Consistent(Create(t, patientId, doctorId, appointment, now, newId).tables)
  {
  }

  lemma UpdatePreservesConsistency(t: Tables, id: Option<Long>, details: Option<Appointment>, now: int)
    requires Consistent(t)
    ensures Consistent(Update(t, id, details, now).tables)
  {
  }

  lemma UpdateStatusPreservesConsistency(t: Tables, id: Option<Long>, status: Option<AppointmentStatus>, now: int)
    requires Consistent(t)
    ensures Consistent(UpdateStatus(t, id, status, now).tables)
  {
  }

  lemma DeletePreservesConsistency(t: Tables, id: Option<Long>)
    requires Consistent(t)
    ensures Consistent(Delete(t, id).tables)
  {
  }

  // ---------------------------------------------------------------------
  // The service bean

  class Service {
    const db: Store

    constructor (db: Store)
      ensures this.db == db
    {
      this.db := db;
    }

    method CreateAppointment(patientId: Option<Long>, doctorId: Option<Long>, appointment: Option<Appointment>,
                             now: int, newId: Long) returns (r: Result<Appointment>)
      requires db.Valid() && newId !in db.appointments
      modifies db
      ensures db.Valid()
      ensures Step(r, db.View()) == Create(old(db.View()), patientId, doctorId, appointment, now, newId)
    {
      CreatePreservesConsistency(db.View(), patientId, doctorId, appointment, now, newId);
      if patientId.None? || doctorId.None? || appointment.None? {
        return Err(IllegalArgument(NullCreateArgumentsMessage));
      }
      if patientId.value !in db.patients {
        return Err(MissingRow("Patient", patientId.value));
      }
      if doctorId.value !in db.doctors {
        return Err(MissingRow("Doctor", doctorId.value));
      }
      var a := appointment.value;
      if a.appointmentDateTime.None? || InPast(a.appointmentDateTime.value, now) {
        return Err(IllegalArgument(PastDateMessage));
      }
      a := a.(patient := patientId, doctor := doctorId);
      a := a.(status := Some(AppointmentStatus.Scheduled));
      a := a.(createdAt := Some(now), updatedAt := Some(now));
      a := a.(id := Some(newId));
      db.appointments := db.appointments[newId := a];
      r := Ok(a);
    }

    method UpdateAppointment(id: Option<Long>, details: Option<Appointment>, now: int) returns (r: Result<Appointment>)
      requires db.Valid()
      modifies db
      ensures db.Valid()
      ensures Step(r, db.View()) == Update(old(db.View()), id, details, now)
    {
      UpdatePreservesConsistency(db.View(), id, details, now);
      if id.None? || details.None? {
        return Err(IllegalArgument(NullUpdateArgumentsMessage));
      }
      if id.value !in db.appointments {
        return Err(MissingRow("Appointment", id.value));
      }
      var a := db.appointments[id.value];
      var d := details.value;
      if d.appointmentDateTime.Some? {
        if InPast(d.appointmentDateTime.value, now) {
          return Err(IllegalArgument(PastDateMessage));
        }
        a := a.(appointmentDateTime := d.appointmentDateTime);
      }
      if d.endDateTime.Some? {
        a := a.(endDateTime := d.endDateTime);
      }
      if d.status.Some? {
        a := a.(status := d.status);
      }
      if d.reason.Some? {
        a := a.(reason := d.reason);
      }
      if d.notes.Some? {
        a := a.(notes := d.notes);
      }
      a := a.(updatedAt := Some(now));
      db.appointments := db.appointments[id.value := a];
      r := Ok(a);
    }

    method DeleteAppointment(id: Option<Long>) returns (r: Result<()>)
      requires db.Valid()
      modifies db
      ensures db.Valid()
      ensures Step(r, db.View()) == Delete(old(db.View()), id)
    {
      DeletePreservesConsistency(db.View(), id);
      if id.None? {
        return Err(IllegalArgument(NullIdMessage));
      }
      if id.value !in db.appointments {
        return Err(MissingRow("Appointment", id.value));
      }
      db.appointments := db.appointments - {id.value};
      r := Ok(());
    }

    method UpdateAppointmentStatus(id: Option<Long>, status: Option<AppointmentStatus>, now: int) returns (r: Result<Appointment>)
      requires db.Valid()
      modifies db
      ensures db.Valid()
      ensures Step(r, db.View()) == UpdateStatus(old(db.View()), id, status, now)
    {
      UpdateStatusPreservesConsistency(db.View(), id, status, now);
      if id.None? || status.None? {
        return Err(IllegalArgument(NullStatusArgumentsMessage));
      }
      if id.value !in db.appointments {
        return Err(MissingRow("Appointment", id.value));
      }
      var a := db.appointments[id.value];
      a := a.(status := status, updatedAt := Some(now));
      db.appointments := db.appointments[id.value := a];
      r := Ok(a);
    }
  }
}
