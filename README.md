# ClinicVault backend core, modelled in Dafny

ClinicVault is a telehealth backend (FastAPI, SQLModel over SQLite). This
project models four of its sequential pieces and proves what they promise:

- **Transcript post-filter and model cache** (`app/transcription.py`). The
  Whisper model is loaded lazily into a one-slot cache. A clip's segments are
  filtered: low-confidence segments go, text is stripped, known
  hallucinated phrases go (compared case-insensitively), empty pieces go.
  The survivors are joined with single spaces. Any failure gives `""`.
  Module `Transcription`, with Python's `strip`, `lower` and `" ".join` in
  module `Strings`.
- **PHI cipher wrapper, access tokens, current user, audit trail**
  (`app/security.py`), module `Security`. Fernet, passlib and python-jose
  are pairs of functions under the process key. The property each is trusted
  for is a predicate (`CipherRoundTrips`, `HasherSound`, `JwtRoundTrips`)
  that the lemmas take as a hypothesis. Their random inputs (Fernet IV,
  password salt) and the clock are parameters.
- **Registration, login, demo seeding** (`app/routers/auth.py`), module `Auth`.
- **Doctor onboarding** (`app/routers/admin.py`), module `Admin`.

The schema (`app/models.py`) is module `Models`. The session's tables are
module `Store`: a `Db` class holds the four tables, and its `Valid()` holds
the invariants the schema guarantees. These are unique emails, row ids
1, 2, … in insertion order (rows are never deleted), and at most one profile
of each kind per existing user. Each route that writes is a module-level
method that takes the `Db` and changes it through the class's methods. It is
proved equal to a function of the tables before the request
(`RegisterSpec`, `SeedSpec`, `AddDoctorSpec`). The lemmas about those
functions state what the routes promise.

Two behaviours of the source that are easy to miss:

- The early return at app/transcription.py:27-28, taken when `get_model()`
  gives `None`, comes before the `try`/`finally` whose cleanup block
  (lines 65-70) removes the clip. That path leaves the temporary audio file
  on disk. `TranscribeAudioChunk` removes the file only when a model was
  available and `os.remove` succeeds.
- A failed model load (app/transcription.py:16-19) leaves `_model` as `None`,
  so every later call tries to load the model again. `GetModel` retries.

## Model

| member | source | states |
|---|---|---|
| `Strings.Strip` | app/transcription.py:49 | `strip()` leaves no whitespace at either end (Python's `isspace` set) and never lengthens the text |
| `Strings.StripSlice` | app/transcription.py:49 | `strip()` only removes whitespace, and only at the ends: the result is a slice of the input with nothing but whitespace outside it |
| `Strings.StripEmpty` | app/transcription.py:49 | the stripped text is empty exactly when the segment text is all whitespace |
| `Strings.StripIdempotent` | app/transcription.py:49 | stripping twice is stripping once |
| `Strings.LowerMatches` | app/transcription.py:53 | `text.lower()` equals a text of lower-case letters, spaces and full stops exactly when `text` spells it up to letter case |
| `Strings.JoinSpacesAppend` | app/transcription.py:59 | `" ".join` of two non-empty lists is the two joins with one space between them |
| `Strings.JoinSpacesEnds` | app/transcription.py:59 | joining non-empty pieces gives `""` only for no pieces; the result starts with the first piece and ends with the last |
| `Strings.JoinSpacesTrimmed` | app/transcription.py:59 | joining non-empty stripped pieces gives a stripped string |
| `Transcription.FilterSegments` | app/transcription.py:43-57 | the `for` loop with its `continue`s collects exactly the stripped texts of the surviving segments, in segment order |
| `Transcription.SurvivorsAppend` | app/transcription.py:43-57 | filtering distributes over concatenation of segment runs, so order is kept and no segment affects another |
| `Transcription.SurvivorsSingle` | app/transcription.py:44-57 | one segment contributes its stripped text if it passes all three tests, and nothing otherwise |
| `Transcription.SurvivorsClean` | app/transcription.py:46-57 | every kept piece is non-empty, stripped, not a denylisted phrase in any case, and is the stripped text of a segment with confidence at least -1.0 |
| `Transcription.SurvivorsEmpty` | app/transcription.py:43-57 | nothing is kept exactly when no segment passes the tests |
| `Transcription.TranscriptEmpty` | app/transcription.py:43-59 | the transcript is `""` exactly when no segment survives |
| `Transcription.TranscriptTrimmed` | app/transcription.py:49-59 | the transcript never starts or ends with whitespace |
| `Transcription.TranscriptAppend` | app/transcription.py:43-59 | the transcript of two runs of segments is the first run's transcript, a single space, then the second's |
| `Transcription.UnsureSegmentDropped` | app/transcription.py:46-47 | a "you" segment at log-probability -1.5 yields an empty transcript |
| `Transcription.ConfidentSentenceKept` | app/transcription.py:43-59 | a confident "The patient reports mild fever" comes through exactly |
| `Transcription.DenylistMatch` | app/transcription.py:52-54 | for every text, the denylist test drops it exactly when it spells one of the six phrases letter for letter, up to letter case (an exact, case-insensitive match) |
| `Transcription.DenylistIgnoresCase` | app/transcription.py:52-54 | " Thank You" is dropped: the denylist compares the lower-cased stripped text |
| `Transcription.DenylistIsExact` | app/transcription.py:52-54 | "thank you doctor" is kept: only an exact match is dropped |
| `Transcription.ThresholdIsStrict` | app/transcription.py:46-47 | confidence exactly -1.0 is still eligible; -1.01 is not |
| `Transcription.Transcriber.GetModel` | app/transcription.py:8-20 | a cached model is returned without reloading; otherwise a successful load is cached and returned; a failed load returns None and caches nothing, so the next call retries |
| `Transcription.Transcriber.TranscribeAudioChunk` | app/transcription.py:22-70 | `""` when no model is available or inference raises, otherwise the joined survivors; the clip leaves the file set exactly when a model was available and its removal succeeds |
| `Security.EncryptPhi` | app/security.py:20-22 | the empty field is stored as `""` |
| `Security.DecryptPhi` | app/security.py:24-29 | never raises: `""` for `""`, otherwise the plaintext or the fixed sentinel |
| `Security.PhiRoundTrip` | app/security.py:20-29 | for every field, the empty one included, decrypting the stored value gives the field back (given a sound cipher) |
| `Security.EncryptPhiEmpty` | app/security.py:20-22 | with a sound cipher the stored value is empty exactly when the field is |
| `Security.DecryptPhiSentinel` | app/security.py:24-29 | the sentinel comes back exactly for a non-empty token that fails to decrypt, or one that decrypts to the sentinel text |
| `Security.AccessClaims` | app/security.py:32-35 | the signed claims are the caller's claims plus `exp` = now + 60 minutes; every other claim is kept |
| `Security.CreateAccessToken` | app/security.py:32-36 | decoding the token gives back exactly those claims, for a string `sub` and nothing else (given a codec that round-trips such claims) |
| `Security.StripBearer` | app/security.py:39-40 | a token starting with "Bearer " loses exactly those seven characters; any other token is unchanged |
| `Security.StripBearerOnce` | app/security.py:39-40 | only one prefix is removed: "Bearer " + t becomes t even when t itself starts with "Bearer " |
| `Security.FindUserByEmail` | app/security.py:48 | the lookup finds a stored user with that email exactly when one exists |
| `Security.FindUserUnique` | app/security.py:48 | under the unique email index, looking up a stored user's email finds that very user |
| `Security.GetCurrentUser` | app/security.py:38-50 | succeeds exactly when the token (one "Bearer " stripped) decodes, carries a string `sub`, and a stored user has that email, and returns that user; every failure is 401 |
| `Security.AuditLog` | app/security.py:52-62 | appends exactly one entry (actor id, "Full Name (role)", action, target, purpose, consultation id) and changes nothing else |
| `Store.Db.constructor` | app/database.py:11-12 | the tables start empty and consistent |
| `Store.Db.AddUser` | app/models.py:23-29 | the unique email index refuses a duplicate with no change; otherwise exactly one user with the next id is appended |
| `Store.Db.AddDoctorProfile` | app/models.py:32-36 | a second doctor profile for a user is refused; otherwise exactly one profile is appended |
| `Store.Db.AddPatientProfile` | app/models.py:38-41 | a second patient profile for a user is refused; otherwise exactly one profile with no history summary is appended |
| `Store.Db.AddLog` | app/models.py:57-66 | the audit trail grows by exactly one row with the next id; earlier rows are untouched |
| `Auth.Register` | app/routers/auth.py:18-45 | the route's writes and response are those of `RegisterSpec`, and the store stays consistent |
| `Auth.RegisterOutcome` | app/routers/auth.py:25-44 | a used email gives 400 "Email exists" and no change; otherwise exactly one PATIENT user, one profile of that user and one "Registered"/"Patient Profile"/"Onboarding" entry by that user, and emails stay unique |
| `Auth.RegisterHashesPassword` | app/routers/auth.py:29-31 | the stored password is the hash of the given one, verifies against it, and is never the plaintext |
| `Auth.RegisterTwiceRefused` | app/routers/auth.py:25-26 | registering the same email again is refused and changes nothing |
| `Auth.Login` | app/routers/auth.py:47-56 | 400 "Invalid credentials" exactly when no user has the email or the password does not verify; otherwise a 303 to /dashboard whose only cookie `access_token` decodes to `sub` = the email plus `exp` |
| `Auth.LoginTokenAuthenticates` | app/routers/auth.py:53-55 | the cookie a login sets, sent as a bearer token, authenticates as the user who logged in |
| `Auth.RegisterThenLogin` | app/routers/auth.py:29-55 | right after registering, logging in with the same password succeeds and its token names the new patient |
| `Auth.SeedData` | app/routers/auth.py:64-83 | the route's writes and response are those of `SeedSpec`, and the store stays consistent |
| `Auth.SeedOnEmpty` | app/routers/auth.py:67-82 | on an empty store: exactly the admin and the doctor sharing one hash, one ONLINE Cardiology profile for the doctor, no audit entry |
| `Auth.SeedIdempotent` | app/routers/auth.py:66 | once any user exists, seeding changes nothing, so a second call is a no-op |
| `Auth.SeedKeepsConsistent` | app/routers/auth.py:64-83 | seeding keeps ids, unique emails and profile ownership intact |
| `Admin.AddDoctor` | app/routers/admin.py:11-34 | the route's writes and response are those of `AddDoctorSpec`, and the store stays consistent |
| `Admin.AddDoctorGate` | app/routers/admin.py:20-21 | tables change exactly when the token names an admin and the email is free; otherwise 401 on authentication failure, 403 "Unauthorized" for a non-admin, 500 for a duplicate email, with no change |
| `Admin.AddDoctorEffect` | app/routers/admin.py:23-33 | an admin's call adds exactly one DOCTOR user and one "Onboarded New Doctor" entry by the admin with target "Staff: " + name, and no profile |
| `Admin.AddDoctorHashesPassword` | app/routers/admin.py:25 | the new doctor's stored password is a hash that verifies and is never the plaintext |

## Left out

- The WebSocket rooms, the message relay and consultation status transitions. They live in `app/routers/workflow.py`, which is not part of this model.
- `app/templates.py` (HTML and browser script), `app/main.py` (wiring), `app/config.py` (random key generation) and the SQL engine in `app/database.py`: they hold no logic to verify.
- The HTML page routes `login_page`, `register_page` and `logout`: they only render or clear a cookie.
- Whisper inference, voice-activity detection and the transcription options are not modelled. What inference produced for a clip is a parameter: its segments, or an exception. An exception raised while the segment generator is consumed gives `""` exactly like one raised up front.
- `avg_logprob` is a `real` that is only compared with -1.0.
- Console output (`print`) and the `os.path.exists` check. Cleanup is removal from a ghost set of paths present on disk. Whether `os.remove` succeeds is the `removeSucceeds` parameter; a failure is swallowed at app/transcription.py:67-70 and leaves the clip in the set.
- Concurrent calls: `get_model` has no lock, and the model is sequential.
- `Strings.Lower`: maps only A-Z and the Kelvin sign. Every other character is left as it is. Python's full Unicode `lower()` can differ on other characters, but the result is only compared with the all-ASCII denylist, and no other character lower-cases to ASCII. The denylist test is therefore the same as Python's.
- UTF-8 encoding around Fernet is folded into the abstract cipher. A Python string with a lone surrogate would make `encrypt_phi` raise; Dafny strings cannot hold one.
- Fernet, pbkdf2 and JWT are not algorithms here. The lemmas that need them assume `CipherRoundTrips`, `HasherSound` or `JwtRoundTrips`. `CipherRoundTripsSatisfiable`, `HasherSoundSatisfiable` and `JwtRoundTripsSatisfiable` show each hypothesis can be met.
- `JwtRoundTrips` covers only claim sets with a string `sub` and a numeric `exp` and nothing else (`AccessShape`), the only shape the core signs. python-jose's `decode` rejects other shapes it validates, such as a present `aud` when no audience is given.
- Token expiry: the clock is the `now` parameter of `create_access_token`, and `decode` is a fixed function. `JwtRoundTrips` describes decoding within the token's lifetime; expired tokens count among `decode`'s failures, and the one-hour validity window itself is not modelled.
- `Security.GetCurrentUser`: python-jose's own claim checks turn a non-string `sub` into a `JWTError`, so the source answers 401. The model's `decode` is not constrained on such tokens; if it returns them, `Subject` finds no string `sub` and the answer is the same 401.
- The 401 that `OAuth2PasswordBearer` raises when no Authorization header is sent happens before `add_doctor` runs.
- Clock-valued columns (`created_at`, `timestamp`).
- `Store.Db.AddDoctorProfile`, `Store.Db.AddPatientProfile`: both require the owning user to exist, as the declared foreign key says. SQLite does not enforce that key by default, and every caller in the core meets it.
- A commit failing half-way through `register` (after the user row is written) cannot happen in the model: the profile insert is for a fresh user id.
- `add_doctor` passes `specialty` and `status` to `User`, which declares neither column. The model drops them and creates no doctor profile.
