/**
 * The database the services work on: one map per table, keyed by the
 * generated id, and the role table as the set of role names it holds.
 * `Store` is the mutable database the service classes share; `Tables` is
 * its value, on which the effect of every operation is specified.
 */
module Persistence {
  import opened Common
  import opened Entities
  import opened Appointments

  datatype Tables = Tables(
    users: map<Long, User>,
    roleNames: set<ERole>,
    patients: map<Long, Patient>,
    doctors: map<Long, Doctor>,
    appointments: map<Long, Appointment>)

  /** What a transactional operation returns and the tables it leaves behind. */
  datatype Step<+T> = Step(result: Result<T>, tables: Tables)

  /** An appointment's patient and doctor are set and name stored rows. */
  predicate ReferencesExist(t: Tables, a: Appointment)
  {
    a.patient.Some? && a.patient.value in t.patients && a.doctor.Some? && a.doctor.value in t.doctors
  }

  /** The unique email column of the patient table. */
  predicate UniquePatientEmails(patients: map<Long, Patient>)
  {
    forall j, k :: j in patients && k in patients && patients[j].email.Some? && patients[j].email == patients[k].email ==> j == k
  }

  /** The unique email column of the doctor table. */
  predicate UniqueDoctorEmails(doctors: map<Long, Doctor>)
  {
    forall j, k :: j in doctors && k in doctors && doctors[j].email.Some? && doctors[j].email == doctors[k].email ==> j == k
  }

  /** The unique username and email columns of the user table. */
  predicate UniqueUserKeys(users: map<Long, User>)
  {
    && (forall j, k :: j in users && k in users && users[j].username.Some? && users[j].username == users[k].username ==> j == k)
    && (forall j, k :: j in users && k in users && users[j].email.Some? && users[j].email == users[k].email ==> j == k)
  }

  /**
   * The integrity the schema enforces: every row is stored under its own id,
   * every appointment references an existing patient and doctor (foreign
   * keys), and the unique columns hold no duplicates.
   */
  predicate Consistent(t: Tables)
  {
    && (forall k :: k in t.users ==> t.users[k].id == Some(k))
    && (forall k :: k in t.patients ==> t.patients[k].id == Some(k))
    && (forall k :: k in t.doctors ==> t.doctors[k].id == Some(k))
    && (forall k :: k in t.appointments ==> t.appointments[k].id == Some(k))
    && (forall k :: k in t.appointments ==> ReferencesExist(t, t.appointments[k]))
    && UniqueUserKeys(t.users)
    && UniquePatientEmails(t.patients)
    && UniqueDoctorEmails(t.doctors)
  }

  class Store {
    var users: map<Long, User>
    var roleNames: set<ERole>
    var patients: map<Long, Patient>
    var doctors: map<Long, Doctor>
    var appointments: map<Long, Appointment>

    /** The current contents of all tables. */
    function View(): Tables
      reads this
    {
      Tables(users, roleNames, patients, doctors, appointments)
    }

    ghost predicate Valid()
      reads this
    {
      Consistent(View())
    }

    constructor (t: Tables)
      requires Consistent(t)
      ensures View() == t
      ensures Valid()
    {
      users := t.users;
      roleNames := t.roleNames;
      patients := t.patients;
      doctors := t.doctors;
      appointments := t.appointments;
    }
  }
}
