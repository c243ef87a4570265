/**
 * Registration, login and demo seeding (app/routers/auth.py). Each route
 * that writes is a method on the session, proved against a function of the
 * tables before the request; the lemmas state what the routes promise.
 */
module Auth {
  import opened Wrappers
  import opened Models
  import opened Http
  import opened Store
  import opened Security

  const Home: Response := Redirect("/", 303, map[])

  // ----- register -----

  /** The effect of `register` on the tables, given the password's hash. */
  function RegisterSpec(t: Tables, hashed: string, fullName: string, email: string): Step
  {
    if EmailTaken(t.users, email) then Step(t, Html(400, "Email exists"))
    else
      var user := NewUser(t.users, email, hashed, fullName, Patient);
      var profile := PatientProfile(|t.patientProfiles| + 1, user.id, None);
      var entry := AuditEntry(t.logs, user, "Registered", "Patient Profile", "Onboarding", None);
      Step(t.(users := t.users + [user],
              patientProfiles := t.patientProfiles + [profile],
              logs := t.logs + [entry]),
           Home)
  }

  /** `register`: a new patient account, its profile and one audit entry, unless the email is in use. */
  method Register(db: Db, hasher: Hasher, salt: nat, fullName: string, email: string, password: string)
    returns (response: Response)
    requires db.Valid()
    modifies db
    ensures db.Valid()
    ensures Step(db.Snapshot(), response) == RegisterSpec(old(db.Snapshot()), hasher.hash(salt, password), fullName, email)
  {
    if FindUserByEmail(db.users, email).Some? {
      return Html(400, "Email exists");
    }
    var created := db.AddUser(email, hasher.hash(salt, password), fullName, Patient);
    var user := created.value;
    var _ := db.AddPatientProfile(user.id);
    AuditLog(db, user, "Registered", "Patient Profile", "Onboarding", None);
    response := Home;
  }

  /**
   * What registering promises: a used email is refused with nothing
   * written; otherwise exactly one patient user, one profile of that user
   * and one "Registered" entry whose actor is the new user are added.
   */
  lemma RegisterOutcome(t: Tables, hashed: string, fullName: string, email: string)
    requires Consistent(t)
    ensures var s := RegisterSpec(t, hashed, fullName, email);
      EmailTaken(t.users, email) ==> s == Step(t, Html(400, "Email exists"))
    ensures var s := RegisterSpec(t, hashed, fullName, email);
      !EmailTaken(t.users, email) ==>
        var id := |t.users| + 1;
        && s.response == Home
        && s.tables.users == t.users + [User(id, email, hashed, fullName, Patient)]
        && s.tables.doctorProfiles == t.doctorProfiles
        && s.tables.patientProfiles == t.patientProfiles + [PatientProfile(|t.patientProfiles| + 1, id, None)]
        && s.tables.logs == t.logs + [PrivacyLog(|t.logs| + 1, None, Some(id), fullName + " (patient)",
                                                 "Registered", "Patient Profile", "Onboarding")]
        && Consistent(s.tables)
  {
    if !EmailTaken(t.users, email) {
      var s := RegisterSpec(t, hashed, fullName, email);
      var id := |t.users| + 1;
      forall i | 0 <= i < |t.patientProfiles| ensures t.patientProfiles[i].userId != id { }
      var user := NewUser(t.users, email, hashed, fullName, Patient);
      assert ActorName(user) == fullName + " (patient)" by {
        assert " (" + "patient" + ")" == " (patient)";
      }
      assert UniqueEmails(s.tables.users);
    }
  }

  /** The stored password is the salted hash of the one given, never the password itself. */
  lemma RegisterHashesPassword(t: Tables, hasher: Hasher, salt: nat, fullName: string, email: string, password: string)
    requires HasherSound(hasher) && !EmailTaken(t.users, email)
    ensures var users := RegisterSpec(t, hasher.hash(salt, password), fullName, email).tables.users;
      var stored := users[|users| - 1].hashedPassword;
      stored != password && hasher.verify(password, stored)
  {
    assert hasher.verify(password, hasher.hash(salt, password));
  }

  /** A second registration with the same email is refused and changes nothing. */
  lemma RegisterTwiceRefused(t: Tables, hashed1: string, hashed2: string, name1: string, name2: string, email: string)
    ensures var first := RegisterSpec(t, hashed1, name1, email).tables;
      RegisterSpec(first, hashed2, name2, email) == Step(first, Html(400, "Email exists"))
  {
    var first := RegisterSpec(t, hashed1, name1, email).tables;
    if !EmailTaken(t.users, email) {
      assert first.users[|t.users|].email == email;
    }
  }

  // ----- login -----

  /**
   * `login`: 400 "Invalid credentials" unless a user has this email and the
   * password verifies against its hash; otherwise a redirect that sets the
   * `access_token` cookie to a token whose subject is that email.
   */
  function Login(hasher: Hasher, jwt: JwtCodec, now: int, users: seq<User>, username: string, password: string)
    : (response: Response)
    ensures response.Html? || response.Redirect?
    ensures response.Html? <==>
      match FindUserByEmail(users, username)
      case None => true
      case Some(user) => !hasher.verify(password, user.hashedPassword)
    ensures response.Html? ==> response == Html(400, "Invalid credentials")
    ensures response.Redirect? ==>
      && response.location == "/dashboard" && response.status == 303
      && response.cookies.Keys == {"access_token"}
      && (JwtRoundTrips(jwt) ==>
            jwt.decode(response.cookies["access_token"]) == Some(AccessClaims(map["sub" := Str(username)], now)))
  {
    match FindUserByEmail(users, username)
    case None => Html(400, "Invalid credentials")
    case Some(user) =>
      if !hasher.verify(password, user.hashedPassword) then Html(400, "Invalid credentials")
      else
        var token := CreateAccessToken(jwt, map["sub" := Str(user.email)], now);
        Redirect("/dashboard", 303, map["access_token" := token])
  }

  /**
   * The cookie a successful login sets authenticates: presented as a bearer
   * token, it names the user who logged in.
   */
  lemma LoginTokenAuthenticates(hasher: Hasher, jwt: JwtCodec, now: int, users: seq<User>, username: string, password: string)
    requires JwtRoundTrips(jwt) && UniqueEmails(users)
    requires Login(hasher, jwt, now, users, username, password).Redirect?
    ensures var token := Login(hasher, jwt, now, users, username, password).cookies["access_token"];
      && FindUserByEmail(users, username).Some?
      && GetCurrentUser(jwt, users, BearerPrefix + token) == Ok(FindUserByEmail(users, username).value)
  {
    var token := Login(hasher, jwt, now, users, username, password).cookies["access_token"];
    StripBearerOnce(token);
    var claims := AccessClaims(map["sub" := Str(username)], now);
    assert Subject(claims) == Some(username);
  }

  /** Logging in right after registering, with the same password, succeeds as the new patient. */
  lemma RegisterThenLogin(t: Tables, hasher: Hasher, jwt: JwtCodec, salt: nat, now: int,
                          fullName: string, email: string, password: string)
    requires Consistent(t) && HasherSound(hasher) && JwtRoundTrips(jwt) && !EmailTaken(t.users, email)
    ensures var hashed := hasher.hash(salt, password);
      var users := RegisterSpec(t, hashed, fullName, email).tables.users;
      var response := Login(hasher, jwt, now, users, email, password);
      && response.Redirect?
      && GetCurrentUser(jwt, users, BearerPrefix + response.cookies["access_token"])
         == Ok(User(|t.users| + 1, email, hashed, fullName, Patient))
  {
    var hashed := hasher.hash(salt, password);
    RegisterOutcome(t, hashed, fullName, email);
    var users := RegisterSpec(t, hashed, fullName, email).tables.users;
    var user := users[|users| - 1];
    FindUserUnique(users, user);
    assert hasher.verify(password, hashed);
    LoginTokenAuthenticates(hasher, jwt, now, users, email, password);
  }

  // ----- seed -----

  /** The effect of `seed_data`, given the hash of "password" it computes. */
  function SeedSpec(t: Tables, hashed: string): Step
  {
    if t.users != [] then Step(t, Home)
    else
      var admin := NewUser(t.users, "admin@test.com", hashed, "Admin", Admin);
      var doctor := NewUser(t.users + [admin], "doc@test.com", hashed, "Dr. Smith", Doctor);
      var profile := DoctorProfile(|t.doctorProfiles| + 1, doctor.id, "Cardiology", Online);
      Step(t.(users := t.users + [admin, doctor], doctorProfiles := t.doctorProfiles + [profile]), Home)
  }

  /** `seed_data`: on an empty user table, an admin, a doctor and the doctor's profile. */
  method SeedData(db: Db, hasher: Hasher, salt: nat) returns (response: Response)
    requires db.Valid()
    modifies db
    ensures db.Valid()
    ensures Step(db.Snapshot(), response) == SeedSpec(old(db.Snapshot()), hasher.hash(salt, "password"))
  {
    if db.users != [] {
      return Home;
    }
    var pwd := hasher.hash(salt, "password");
    var admin := db.AddUser("admin@test.com", pwd, "Admin", Admin);
    var doctor := db.AddUser("doc@test.com", pwd, "Dr. Smith", Doctor);
    var _ := db.AddDoctorProfile(doctor.value.id, "Cardiology", Online);
    response := Home;
  }

  /**
   * Seeding an empty store creates exactly the admin and the doctor, sharing
   * one password hash, and one online cardiology profile for the doctor;
   * it writes no audit entry.
   */
  lemma SeedOnEmpty(t: Tables, hashed: string)
    requires Consistent(t) && t.users == []
    ensures var after := SeedSpec(t, hashed).tables;
      && after.users == [User(1, "admin@test.com", hashed, "Admin", Admin),
                         User(2, "doc@test.com", hashed, "Dr. Smith", Doctor)]
      && after.doctorProfiles == [DoctorProfile(1, 2, "Cardiology", Online)]
      && after.patientProfiles == [] && after.logs == t.logs
      && Consistent(after)
  {
    if t.doctorProfiles != [] {
      ProfileOwnersExist(t, 0);
      assert false;
    }
    if t.patientProfiles != [] {
      ProfileOwnersExist(t, 0);
      assert false;
    }
    var after := SeedSpec(t, hashed).tables;
    assert after == SeededTables(hashed, t.logs);
    SeededTablesConsistent(hashed, t.logs);
  }

  /** The tables seeding an empty store produces, with the audit trail `logs` kept. */
  function SeededTables(hashed: string, logs: seq<PrivacyLog>): Tables
  {
    Tables([User(1, "admin@test.com", hashed, "Admin", Admin), User(2, "doc@test.com", hashed, "Dr. Smith", Doctor)],
           [DoctorProfile(1, 2, "Cardiology", Online)], [], logs)
  }

  /** The seeded tables meet the schema invariants whenever the kept audit trail does. */
  lemma SeededTablesConsistent(hashed: string, logs: seq<PrivacyLog>)
    requires forall i :: 0 <= i < |logs| ==> logs[i].id == i + 1
    ensures Consistent(SeededTables(hashed, logs))
  {
    var users := SeededTables(hashed, logs).users;
    assert UniqueEmails(users) by {
      assert users[0].email[0] != users[1].email[0];
    }
  }

  /** Seeding is idempotent: once any user exists, a further call changes nothing. */
  lemma SeedIdempotent(t: Tables, hashed1: string, hashed2: string)
    ensures var first := SeedSpec(t, hashed1).tables;
      SeedSpec(first, hashed2) == Step(first, Home)
  {
  }

  /** Seeding keeps the store consistent. */
  lemma SeedKeepsConsistent(t: Tables, hashed: string)
    requires Consistent(t)
    ensures Consistent(SeedSpec(t, hashed).tables)
  {
    if t.users == [] {
      SeedOnEmpty(t, hashed);
    }
  }
}
