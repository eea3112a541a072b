/**
 * The derived and JPQL queries of the appointment repository, over the
 * appointment table keyed by id. A query's list is modelled as the sub-map
 * of the rows it returns; the order of the list is not modelled.
 */
module AppointmentRepository {
  import opened Common
  import opened Appointments

  type Rows = map<Long, Appointment>

  /** `a.appointmentDateTime BETWEEN start AND end`: both ends inclusive; a null start never matches. */
  predicate InRange(a: Appointment, start: int, end: int)
  {
    a.appointmentDateTime.Some? && start <= a.appointmentDateTime.value <= end
  }

  function FindByPatientId(rows: Rows, patientId: Long): (r: Rows)
    ensures forall k :: k in r <==> k in rows && rows[k].patient == Some(patientId)
    ensures forall k :: k in r ==> r[k] == rows[k]
  {
    map k | k in rows && rows[k].patient == Some(patientId) :: rows[k]
  }

  function FindByDoctorId(rows: Rows, doctorId: Long): (r: Rows)
    ensures forall k :: k in r <==> k in rows && rows[k].doctor == Some(doctorId)
    ensures forall k :: k in r ==> r[k] == rows[k]
  {
    map k | k in rows && rows[k].doctor == Some(doctorId) :: rows[k]
  }

  function FindByStatus(rows: Rows, status: AppointmentStatus): (r: Rows)
    ensures forall k :: k in r <==> k in rows && rows[k].status == Some(status)
    ensures forall k :: k in r ==> r[k] == rows[k]
  {
    map k | k in rows && rows[k].status == Some(status) :: rows[k]
  }

  function FindByDoctorIdAndDateRange(rows: Rows, doctorId: Long, start: int, end: int): (r: Rows)
    ensures forall k :: k in r <==> k in rows && rows[k].doctor == Some(doctorId) && InRange(rows[k], start, end)
    ensures forall k :: k in r ==> r[k] == rows[k]
  {
    map k | k in rows && rows[k].doctor == Some(doctorId) && InRange(rows[k], start, end) :: rows[k]
  }

  function FindByPatientIdAndDateRange(rows: Rows, patientId: Long, start: int, end: int): (r: Rows)
    ensures forall k :: k in r <==> k in rows && rows[k].patient == Some(patientId) && InRange(rows[k], start, end)
    ensures forall k :: k in r ==> r[k] == rows[k]
  {
    map k | k in rows && rows[k].patient == Some(patientId) && InRange(rows[k], start, end) :: rows[k]
  }

  function FindByPatientIdAndDoctorId(rows: Rows, patientId: Long, doctorId: Long): (r: Rows)
    ensures forall k :: k in r <==> k in rows && rows[k].patient == Some(patientId) && rows[k].doctor == Some(doctorId)
    ensures forall k :: k in r ==> r[k] == rows[k]
  {
    map k | k in rows && rows[k].patient == Some(patientId) && rows[k].doctor == Some(doctorId) :: rows[k]
  }

  /** The assignment relation between a patient and a doctor. */
  function ExistsByPatientIdAndDoctorId(rows: Rows, patientId: Long, doctorId: Long): (b: bool)
    ensures b <==> (Some(patientId), Some(doctorId)) in set k | k in rows :: (rows[k].patient, rows[k].doctor)
  {
    exists k :: k in rows && rows[k].patient == Some(patientId) && rows[k].doctor == Some(doctorId)
  }

  /** The list query is non-empty exactly when the exists query holds for the same pair. */
  lemma FindNonEmptyIffExists(rows: Rows, patientId: Long, doctorId: Long)
    ensures |FindByPatientIdAndDoctorId(rows, patientId, doctorId)| > 0
        <==> ExistsByPatientIdAndDoctorId(rows, patientId, doctorId)
  {
    var found := FindByPatientIdAndDoctorId(rows, patientId, doctorId);
    if ExistsByPatientIdAndDoctorId(rows, patientId, doctorId) {
      var k :| k in rows && rows[k].patient == Some(patientId) && rows[k].doctor == Some(doctorId);
      assert k in found.Keys;
      assert |found.Keys| >= |{k}|;
    } else {
      assert found.Keys == {};
    }
  }

  /** The date-range query of a patient is the patient's query cut down to the range. */
  lemma PatientRangeRestrictsPatientQuery(rows: Rows, patientId: Long, start: int, end: int)
    ensures FindByPatientIdAndDateRange(rows, patientId, start, end)
         == map k | k in FindByPatientId(rows, patientId) && InRange(rows[k], start, end) :: rows[k]
  {
  }

  /** The date-range query of a doctor is the doctor's query cut down to the range. */
  lemma DoctorRangeRestrictsDoctorQuery(rows: Rows, doctorId: Long, start: int, end: int)
    ensures FindByDoctorIdAndDateRange(rows, doctorId, start, end)
         == map k | k in FindByDoctorId(rows, doctorId) && InRange(rows[k], start, end) :: rows[k]
  {
  }

  /** Splitting the inclusive range [start, end] at mid gives two disjoint queries whose union is the whole. */
  lemma DoctorRangeSplits(rows: Rows, doctorId: Long, start: int, mid: int, end: int)
    requires start <= mid < end
    ensures var lo := FindByDoctorIdAndDateRange(rows, doctorId, start, mid);
            var hi := FindByDoctorIdAndDateRange(rows, doctorId, mid + 1, end);
            && lo.Keys !! hi.Keys
            && FindByDoctorIdAndDateRange(rows, doctorId, start, end) == lo + hi
  {
    var lo := FindByDoctorIdAndDateRange(rows, doctorId, start, mid);
    var hi := FindByDoctorIdAndDateRange(rows, doctorId, mid + 1, end);
    var whole := FindByDoctorIdAndDateRange(rows, doctorId, start, end);
    assert whole.Keys == (lo + hi).Keys;
  }

  /** A range whose start equals its end returns the appointments at exactly that instant. */
  lemma PointRange(rows: Rows, patientId: Long, at: int)
    ensures forall k ::
              (k in FindByPatientIdAndDateRange(rows, patientId, at, at)
               <==> k in rows && rows[k].patient == Some(patientId) && rows[k].appointmentDateTime == Some(at))
  {
  }

  /** Appointments with a status are split among the status queries: each lies in exactly one. */
  lemma StatusQueriesPartition(rows: Rows, k: Long, s: AppointmentStatus, s': AppointmentStatus)
    requires k in rows && rows[k].status == Some(s)
    ensures k in FindByStatus(rows, s)
    ensures s' != s ==> k !in FindByStatus(rows, s')
  {
  }
}
