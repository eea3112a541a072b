/**
 * The appointment entity: its fields, the end-after-start validator and the
 * bean-validation constraints declared on it. Date-times are instants on an
 * integer clock; `patient` and `doctor` hold the ids of the referenced rows.
 */
module Appointments {
  import opened Common

  datatype AppointmentStatus = Scheduled | Confirmed | Completed | Cancelled | NoShow

  datatype Appointment = Appointment(
    id: Option<Long>,
    patient: Option<Long>,
    doctor: Option<Long>,
    appointmentDateTime: Option<int>,
    endDateTime: Option<int>,
    status: Option<AppointmentStatus>,
    reason: Option<string>,
    notes: Option<string>,
    createdAt: Option<int>,
    updatedAt: Option<int>)

  const MaxReasonLength := 500
  const MaxNotesLength := 1000

  /**
   * `EndDateTimeValidator.isValid`. `None` stands for the NullPointerException
   * that `isAfter(null)` throws when an end is set but the start is not.
   */
  function EndDateTimeValid(a: Appointment): (r: Option<bool>)
    ensures a.endDateTime.None? ==> r == Some(true)
    ensures a.endDateTime.Some? && a.appointmentDateTime.Some? ==>
      r == Some(a.endDateTime.value > a.appointmentDateTime.value)
    ensures r.None? <==> a.endDateTime.Some? && a.appointmentDateTime.None?
  {
    match a.endDateTime
    case None => Some(true)
    case Some(end) =>
      if a.appointmentDateTime.None? then None
      else Some(end > a.appointmentDateTime.value)
  }

  /** An end equal to the start is rejected: the end must be strictly later. */
  lemma EndEqualToStartIsInvalid(a: Appointment)
    requires a.appointmentDateTime.Some? && a.endDateTime == a.appointmentDateTime
    ensures EndDateTimeValid(a) == Some(false)
  {
  }

  /** Moving start and end by the same amount does not change the verdict. */
  lemma EndDateTimeValidShiftInvariant(a: Appointment, delta: int)
    requires a.appointmentDateTime.Some? && a.endDateTime.Some?
    ensures EndDateTimeValid(a.(appointmentDateTime := Some(a.appointmentDateTime.value + delta),
                                endDateTime := Some(a.endDateTime.value + delta)))
         == EndDateTimeValid(a)
  {
  }

  predicate WithinLength(s: Option<string>, max: nat)
  {
    s.None? || |s.value| <= max
  }

  /**
   * Every constraint annotated on the entity, checked against the clock
   * `now`: required patient, doctor, start and status; a start that is
   * `@Future` (strictly after `now`); the reason and notes size limits; and
   * the class-level end-after-start rule.
   */
  function ConstraintsHold(a: Appointment, now: int): (b: bool)
    ensures b ==> a.appointmentDateTime.Some? && a.appointmentDateTime.value > now
    ensures b ==> a.endDateTime.None? || a.endDateTime.value > a.appointmentDateTime.value
  {
    && a.patient.Some?
    && a.doctor.Some?
    && a.appointmentDateTime.Some? && a.appointmentDateTime.value > now
    && a.status.Some?
    && WithinLength(a.reason, MaxReasonLength)
    && WithinLength(a.notes, MaxNotesLength)
    && EndDateTimeValid(a) == Some(true)
  }
}
