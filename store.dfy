/**
 * The tables the routes read and write through a database session
 * (app/database.py, schema in app/models.py). Rows are never deleted, so the
 * row id SQLite assigns on insert is one more than the number of rows before.
 */
module Store {
  import opened Wrappers
  import opened Models
  import opened Http

  datatype Tables = Tables(
    users: seq<User>,
    doctorProfiles: seq<DoctorProfile>,
    patientProfiles: seq<PatientProfile>,
    logs: seq<PrivacyLog>)

  /** The tables after a request, and the response the request returned. */
  datatype Step = Step(tables: Tables, response: Response)

  /** The constraint violation a commit raises. */
  datatype DbError = IntegrityError

  predicate EmailTaken(users: seq<User>, email: string)
  {
    exists i :: 0 <= i < |users| && users[i].email == email
  }

  /** The unique index on `user.email`. */
  predicate UniqueEmails(users: seq<User>)
  {
    forall i, j :: 0 <= i < j < |users| ==> users[i].email != users[j].email
  }

  predicate DoctorProfileTaken(profiles: seq<DoctorProfile>, userId: nat)
  {
    exists i :: 0 <= i < |profiles| && profiles[i].userId == userId
  }

  predicate PatientProfileTaken(profiles: seq<PatientProfile>, userId: nat)
  {
    exists i :: 0 <= i < |profiles| && profiles[i].userId == userId
  }

  /**
   * What the schema guarantees of the stored rows: ids are 1, 2, ... in
   * insertion order, emails are unique, and each profile belongs to an
   * existing user that has no other profile of that kind.
   */
  predicate Consistent(t: Tables)
  {
    && UniqueEmails(t.users)
    && (forall i :: 0 <= i < |t.users| ==> t.users[i].id == i + 1)
    && (forall i :: 0 <= i < |t.doctorProfiles| ==>
          t.doctorProfiles[i].id == i + 1 && 1 <= t.doctorProfiles[i].userId <= |t.users|)
    && (forall i, j :: 0 <= i < j < |t.doctorProfiles| ==> t.doctorProfiles[i].userId != t.doctorProfiles[j].userId)
    && (forall i :: 0 <= i < |t.patientProfiles| ==>
          t.patientProfiles[i].id == i + 1 && 1 <= t.patientProfiles[i].userId <= |t.users|)
    && (forall i, j :: 0 <= i < j < |t.patientProfiles| ==> t.patientProfiles[i].userId != t.patientProfiles[j].userId)
    && (forall i :: 0 <= i < |t.logs| ==> t.logs[i].id == i + 1)
  }

  /** Every profile's owner is a stored user, so an empty user table has no profiles. */
  lemma ProfileOwnersExist(t: Tables, i: nat)
    requires Consistent(t)
    ensures i < |t.doctorProfiles| ==> 1 <= t.doctorProfiles[i].userId <= |t.users|
    ensures i < |t.patientProfiles| ==> 1 <= t.patientProfiles[i].userId <= |t.users|
  {
  }

  /** The user row an insert creates (its id is the next row id). */
  function NewUser(users: seq<User>, email: string, hashedPassword: string, fullName: string, role: UserRole): User
  {
    User(|users| + 1, email, hashedPassword, fullName, role)
  }

  /** A session: each method is one `session.add(row)` followed by `commit()` (and `refresh`). */
  class Db {
    var users: seq<User>
    var doctorProfiles: seq<DoctorProfile>
    var patientProfiles: seq<PatientProfile>
    var logs: seq<PrivacyLog>

    function Snapshot(): Tables
      reads this
    {
      Tables(users, doctorProfiles, patientProfiles, logs)
    }

    predicate Valid()
      reads this
    {
      Consistent(Snapshot())
    }

    constructor ()
      ensures Valid() && Snapshot() == Tables([], [], [], [])
    {
      users, doctorProfiles, patientProfiles, logs := [], [], [], [];
    }

    /** Inserts a user; the unique index on `email` rejects a duplicate and nothing changes. */
    method AddUser(email: string, hashedPassword: string, fullName: string, role: UserRole)
      returns (r: Result<User, DbError>)
      requires Valid()
      modifies this
      ensures Valid()
      ensures EmailTaken(old(users), email) ==> r == Err(IntegrityError) && Snapshot() == old(Snapshot())
      ensures !EmailTaken(old(users), email) ==>
        && r == Ok(NewUser(old(users), email, hashedPassword, fullName, role))
        && Snapshot() == old(Snapshot()).(users := old(users) + [r.value])
    {
      if EmailTaken(users, email) {
        return Err(IntegrityError);
      }
      var user := NewUser(users, email, hashedPassword, fullName, role);
      users := users + [user];
      r := Ok(user);
    }

    /** Inserts a doctor profile for an existing user; a second profile for the same user is rejected. */
    method AddDoctorProfile(userId: nat, specialty: string, status: DoctorStatus)
      returns (r: Result<DoctorProfile, DbError>)
      requires Valid() && 1 <= userId <= |users|
      modifies this
      ensures Valid()
      ensures DoctorProfileTaken(old(doctorProfiles), userId) ==>
        r == Err(IntegrityError) && Snapshot() == old(Snapshot())
      ensures !DoctorProfileTaken(old(doctorProfiles), userId) ==>
        && r == Ok(DoctorProfile(|old(doctorProfiles)| + 1, userId, specialty, status))
        && Snapshot() == old(Snapshot()).(doctorProfiles := old(doctorProfiles) + [r.value])
    {
      if DoctorProfileTaken(doctorProfiles, userId) {
        return Err(IntegrityError);
      }
      var profile := DoctorProfile(|doctorProfiles| + 1, userId, specialty, status);
      doctorProfiles := doctorProfiles + [profile];
      r := Ok(profile);
    }

    /** Inserts a patient profile for an existing user; a second profile for the same user is rejected. */
    method AddPatientProfile(userId: nat) returns (r: Result<PatientProfile, DbError>)
      requires Valid() && 1 <= userId <= |users|
      modifies this
      ensures Valid()
      ensures PatientProfileTaken(old(patientProfiles), userId) ==>
        r == Err(IntegrityError) && Snapshot() == old(Snapshot())
      ensures !PatientProfileTaken(old(patientProfiles), userId) ==>
        && r == Ok(PatientProfile(|old(patientProfiles)| + 1, userId, None))
        && Snapshot() == old(Snapshot()).(patientProfiles := old(patientProfiles) + [r.value])
    {
      if PatientProfileTaken(patientProfiles, userId) {
        return Err(IntegrityError);
      }
      var profile := PatientProfile(|patientProfiles| + 1, userId, None);
      patientProfiles := patientProfiles + [profile];
      r := Ok(profile);
    }

    /** Appends one row to the audit trail; earlier rows are untouched. */
    method AddLog(consultationId: Option<nat>, actorId: Option<nat>, actorName: string,
                  action: string, targetData: string, purpose: string)
      returns (entry: PrivacyLog)
      requires Valid()
      modifies this
      ensures Valid()
      ensures entry == PrivacyLog(|old(logs)| + 1, consultationId, actorId, actorName, action, targetData, purpose)
      ensures Snapshot() == old(Snapshot()).(logs := old(logs) + [entry])
    {
      entry := PrivacyLog(|logs| + 1, consultationId, actorId, actorName, action, targetData, purpose);
      logs := logs + [entry];
    }
  }
}
