/**
 * Doctor onboarding by an administrator (app/routers/admin.py). There is
 * no duplicate-email check before the insert: the unique index on
 * `user.email` is the only guard, and its error escapes the route.
 */
module Admin {
  import opened Wrappers
  import opened Models
  import opened Http
  import opened Store
  import opened Security

  /** The effect of `add_doctor` on the tables, given the new password's hash. */
  function AddDoctorSpec(t: Tables, jwt: JwtCodec, token: string, hashed: string, fullName: string, email: string): Step
  {
    match GetCurrentUser(jwt, t.users, token)
    case Err(status) => Step(t, Raised(status))
    case Ok(admin) =>
      if admin.role != Admin then Step(t, Html(403, "Unauthorized"))
      else if EmailTaken(t.users, email) then Step(t, Raised(500))
      else
        var doctor := NewUser(t.users, email, hashed, fullName, Doctor);
        var entry := AuditEntry(t.logs, admin, "Onboarded New Doctor", "Staff: " + fullName, "Staff Management", None);
        Step(t.(users := t.users + [doctor], logs := t.logs + [entry]), Redirect("/dashboard", 303, map[]))
  }

  /**
   * `add_doctor`: authenticate, require the admin role, insert the doctor's
   * user row, then record the onboarding in the audit trail. The `specialty`
   * form field is accepted and dropped: `User` has no such column.
   */
  method AddDoctor(db: Db, hasher: Hasher, salt: nat, jwt: JwtCodec, token: string,
                   fullName: string, email: string, password: string, specialty: string)
    returns (response: Response)
    requires db.Valid()
    modifies db
    ensures db.Valid()
    ensures Step(db.Snapshot(), response) == AddDoctorSpec(old(db.Snapshot()), jwt, token, hasher.hash(salt, password), fullName, email)
  {
    var admin := GetCurrentUser(jwt, db.users, token);
    if admin.Err? {
      return Raised(admin.error);
    }
    if admin.value.role != Admin {
      return Html(403, "Unauthorized");
    }
    var created := db.AddUser(email, hasher.hash(salt, password), fullName, Doctor);
    if created.Err? {
      return Raised(500);
    }
    AuditLog(db, admin.value, "Onboarded New Doctor", "Staff: " + fullName, "Staff Management", None);
    response := Redirect("/dashboard", 303, map[]);
  }

  /**
   * The role gate: the request writes something exactly when the token
   * names a stored admin and the email is free; every other request
   * changes no table, and a non-admin gets 403 "Unauthorized".
   */
  lemma AddDoctorGate(t: Tables, jwt: JwtCodec, token: string, hashed: string, fullName: string, email: string)
    ensures var s := AddDoctorSpec(t, jwt, token, hashed, fullName, email);
      var caller := GetCurrentUser(jwt, t.users, token);
      && (s.tables != t <==> caller.Ok? && caller.value.role == Admin && !EmailTaken(t.users, email))
      && (s.tables != t <==> s.response.Redirect?)
      && (caller.Err? ==> s.response == Raised(401))
      && (caller.Ok? && caller.value.role != Admin ==> s.response == Html(403, "Unauthorized"))
      && (caller.Ok? && caller.value.role == Admin && EmailTaken(t.users, email) ==> s.response == Raised(500))
  {
    var s := AddDoctorSpec(t, jwt, token, hashed, fullName, email);
    if s.response.Redirect? {
      assert |s.tables.users| == |t.users| + 1;
    }
  }

  /**
   * An admin onboarding a free email adds exactly one doctor user with the
   * hashed password and exactly one audit entry whose actor is the admin.
   */
  lemma AddDoctorEffect(t: Tables, jwt: JwtCodec, token: string, hashed: string, fullName: string, email: string)
    requires Consistent(t)
    requires var caller := GetCurrentUser(jwt, t.users, token);
      caller.Ok? && caller.value.role == Admin && !EmailTaken(t.users, email)
    ensures var admin := GetCurrentUser(jwt, t.users, token).value;
      var s := AddDoctorSpec(t, jwt, token, hashed, fullName, email);
      && s.tables.users == t.users + [User(|t.users| + 1, email, hashed, fullName, Doctor)]
      && s.tables.logs == t.logs + [PrivacyLog(|t.logs| + 1, None, Some(admin.id), admin.fullName + " (admin)",
                                               "Onboarded New Doctor", "Staff: " + fullName, "Staff Management")]
      && s.tables.doctorProfiles == t.doctorProfiles && s.tables.patientProfiles == t.patientProfiles
      && Consistent(s.tables)
  {
    var admin := GetCurrentUser(jwt, t.users, token).value;
    assert ActorName(admin) == admin.fullName + " (admin)" by {
      assert " (" + "admin" + ")" == " (admin)";
    }
  }

  /** Onboarding with the hasher's output never stores the plaintext password. */
  lemma AddDoctorHashesPassword(t: Tables, hasher: Hasher, salt: nat, jwt: JwtCodec, token: string,
                                fullName: string, email: string, password: string)
    requires HasherSound(hasher)
    requires AddDoctorSpec(t, jwt, token, hasher.hash(salt, password), fullName, email).response.Redirect?
    ensures var users := AddDoctorSpec(t, jwt, token, hasher.hash(salt, password), fullName, email).tables.users;
      var stored := users[|users| - 1].hashedPassword;
      stored != password && hasher.verify(password, stored)
  {
    assert hasher.verify(password, hasher.hash(salt, password));
  }
}
