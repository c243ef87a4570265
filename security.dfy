/**
 * PHI encryption, access tokens, the current-user lookup and the audit
 * trail writer (app/security.py). Fernet, python-jose and passlib are not
 * modelled as algorithms: each is a pair of functions under the process key,
 * and the property the code relies on is a predicate the lemmas assume.
 */
module Security {
  import opened Wrappers
  import opened Models
  import opened Store

  // ----- PHI cipher -----

  /**
   * Fernet under the process key. `encrypt` takes the random IV and time
   * stamp as `nonce`; `decrypt` gives None when the token fails
   * authentication or its plaintext is not valid UTF-8.
   */
  datatype Cipher = Cipher(encrypt: (nat, string) -> string, decrypt: string -> Option<string>)

  /** Decryption undoes encryption, and every token is non-empty. */
  ghost predicate CipherRoundTrips(c: Cipher)
  {
    forall nonce, plain :: c.decrypt(c.encrypt(nonce, plain)) == Some(plain) && c.encrypt(nonce, plain) != ""
  }

  /** The placeholder shown instead of a field that cannot be decrypted. */
  const CorruptionSentinel: string := "[DATA CORRUPTION ERROR]"

  /** `encrypt_phi`: the empty field stays empty, anything else becomes a token. */
  function EncryptPhi(c: Cipher, nonce: nat, data: string): (token: string)
    ensures data == "" ==> token == ""
  {
    if data == "" then "" else c.encrypt(nonce, data)
  }

  /**
   * `decrypt_phi`: total (it never raises): the empty token gives "", any
   * other token gives its plaintext or the sentinel.
   */
  function DecryptPhi(c: Cipher, token: string): (plain: string)
    ensures token == "" ==> plain == ""
    ensures token != "" ==> plain == CorruptionSentinel || c.decrypt(token) == Some(plain)
  {
    if token == "" then ""
    else match c.decrypt(token)
      case Some(p) => p
      case None => CorruptionSentinel
  }

  /** Every field, the empty one included, survives encryption and decryption. */
  lemma PhiRoundTrip(c: Cipher, nonce: nat, data: string)
    requires CipherRoundTrips(c)
    ensures DecryptPhi(c, EncryptPhi(c, nonce, data)) == data
  {
    if data != "" {
      assert c.decrypt(c.encrypt(nonce, data)) == Some(data);
    }
  }

  /** With a sound cipher a stored field is empty exactly when the plaintext was. */
  lemma EncryptPhiEmpty(c: Cipher, nonce: nat, data: string)
    requires CipherRoundTrips(c)
    ensures EncryptPhi(c, nonce, data) == "" <==> data == ""
  {
    if data != "" {
      assert c.encrypt(nonce, data) != "";
    }
  }

  /**
   * The sentinel comes back exactly for a non-empty token that fails to
   * decrypt (or whose plaintext happens to be the sentinel itself).
   */
  lemma DecryptPhiSentinel(c: Cipher, token: string)
    ensures DecryptPhi(c, token) == CorruptionSentinel <==>
      token != "" && (c.decrypt(token) == None || c.decrypt(token) == Some(CorruptionSentinel))
  {
  }

  /** The round-trip hypothesis is satisfiable: a toy cipher meets it. */
  lemma CipherRoundTripsSatisfiable()
    ensures exists c :: CipherRoundTrips(c)
  {
    var c := Cipher((nonce: nat, plain: string) => "#" + plain,
                    (token: string) => if token != "" && token[0] == '#' then Some(token[1..]) else None);
    forall nonce: nat, plain: string
      ensures c.decrypt(c.encrypt(nonce, plain)) == Some(plain) && c.encrypt(nonce, plain) != ""
    {
      assert ("#" + plain)[1..] == plain;
    }
    assert CipherRoundTrips(c);
  }

  // ----- passwords -----

  /** passlib's pbkdf2_sha256 context; `hash` takes the random salt as `salt`. */
  datatype Hasher = Hasher(hash: (nat, string) -> string, verify: (string, string) -> bool)

  /** A hash verifies against its password and is never the password itself. */
  ghost predicate HasherSound(h: Hasher)
  {
    forall salt, password :: h.verify(password, h.hash(salt, password)) && h.hash(salt, password) != password
  }

  /** The hypothesis is satisfiable: a tagging hash meets it. */
  lemma HasherSoundSatisfiable()
    ensures exists h :: HasherSound(h)
  {
    var h := Hasher((salt: nat, password: string) => "$" + password,
                    (password: string, hashed: string) => hashed == "$" + password);
    forall salt: nat, password: string
      ensures h.verify(password, h.hash(salt, password)) && h.hash(salt, password) != password
    {
      assert |h.hash(salt, password)| != |password|;
    }
    assert HasherSound(h);
  }

  // ----- access tokens -----

  /** A JSON value of a token claim. */
  datatype ClaimValue = Str(text: string) | Num(value: int) | Null

  type Claims = map<string, ClaimValue>

  /**
   * python-jose with the process secret and HS256. `decode` gives None when
   * it raises `JWTError` (bad signature, malformed token, expired `exp`).
   */
  datatype JwtCodec = JwtCodec(encode: Claims -> string, decode: string -> Option<Claims>)

  /**
   * The claim sets this code signs: a string `sub` and a numeric `exp`, and
   * nothing else. python-jose's `decode` rejects other shapes it validates
   * (a non-string `sub`, an `aud` with no audience given).
   */
  predicate AccessShape(claims: Claims)
  {
    claims.Keys == {"sub", "exp"} && claims["sub"].Str? && claims["exp"].Num?
  }

  /** Decoding a token signed over an access-shaped claim set gives that set back. */
  ghost predicate JwtRoundTrips(j: JwtCodec)
  {
    forall claims | AccessShape(claims) :: j.decode(j.encode(claims)) == Some(claims)
  }

  /** A toy, injective token format: the sign and magnitude of `exp` in unary, a bar, then `sub`. */
  function ToyToken(claims: Claims): string
  {
    if AccessShape(claims) then
      var e := claims["exp"].value;
      [if e < 0 then '-' else '+'] + seq(if e < 0 then -e else e, _ => '1') + "|" + claims["sub"].text
    else ""
  }

  /** Where the bar and the unary digits sit in a toy token. */
  lemma ToyTokenLayout(sign: char, n: nat, sub: string)
    ensures var s := [sign] + seq(n, _ => '1') + "|" + sub;
      && s[0] == sign && s[1 + n] == '|' && s[2 + n..] == sub
      && forall m :: 1 <= m <= n ==> s[m] == '1'
  {
    var s := [sign] + seq(n, _ => '1') + "|" + sub;
    forall m | 1 <= m <= n
      ensures s[m] == '1'
    {
      assert s[m] == seq(n, _ => '1')[m - 1];
    }
  }

  /** Two access-shaped claim sets with the same toy token are equal. */
  lemma ToyTokenInjective(a: Claims, b: Claims)
    requires AccessShape(a) && AccessShape(b) && ToyToken(a) == ToyToken(b)
    ensures a == b
  {
    var ea, eb := a["exp"].value, b["exp"].value;
    var na: nat, nb: nat := if ea < 0 then -ea else ea, if eb < 0 then -eb else eb;
    ToyTokenLayout(if ea < 0 then '-' else '+', na, a["sub"].text);
    ToyTokenLayout(if eb < 0 then '-' else '+', nb, b["sub"].text);
    if na < nb {
      assert false;
    } else if nb < na {
      assert false;
    }
    assert a == map["sub" := a["sub"], "exp" := a["exp"]];
    assert b == map["sub" := b["sub"], "exp" := b["exp"]];
  }

  /** The inverse of ToyToken on access-shaped claim sets. */
  ghost function ToyDecode(token: string): Option<Claims>
  {
    if exists c :: AccessShape(c) && ToyToken(c) == token then
      Some(var c :| AccessShape(c) && ToyToken(c) == token; c)
    else None
  }

  /** The round-trip hypothesis is satisfiable: the toy token format meets it. */
  lemma JwtRoundTripsSatisfiable()
    ensures exists j :: JwtRoundTrips(j)
  {
    var j := JwtCodec(ToyToken, ToyDecode);
    forall claims | AccessShape(claims)
      ensures j.decode(j.encode(claims)) == Some(claims)
    {
      assert AccessShape(claims) && ToyToken(claims) == ToyToken(claims);
      var d := ToyDecode(ToyToken(claims));
      ToyTokenInjective(d.value, claims);
      assert j.decode(j.encode(claims)) == d;
    }
    assert JwtRoundTrips(j);
  }

  const AccessTokenExpireMinutes: nat := 60

  /**
   * The claims `create_access_token` signs: the caller's claims plus `exp`,
   * `now` plus the token lifetime (seconds since the epoch). The caller's
   * map is a value and is not changed.
   */
  function AccessClaims(data: Claims, now: int): (claims: Claims)
    ensures claims.Keys == data.Keys + {"exp"}
    ensures claims["exp"] == Num(now + AccessTokenExpireMinutes * 60)
    ensures forall k :: k in data && k != "exp" ==> claims[k] == data[k]
  {
    data["exp" := Num(now + AccessTokenExpireMinutes * 60)]
  }

  /** `create_access_token`: decoding the token gives back exactly the claims above. */
  function CreateAccessToken(jwt: JwtCodec, data: Claims, now: int): (token: string)
    ensures JwtRoundTrips(jwt) && AccessShape(AccessClaims(data, now)) ==> jwt.decode(token) == Some(AccessClaims(data, now))
  {
    jwt.encode(AccessClaims(data, now))
  }

  const BearerPrefix: string := "Bearer "

  /** One leading "Bearer " is removed; any other token is left alone. */
  function StripBearer(token: string): (r: string)
    ensures BearerPrefix <= token ==> BearerPrefix + r == token
    ensures !(BearerPrefix <= token) ==> r == token
  {
    if BearerPrefix <= token then token[7..] else token
  }

  /** Only one prefix is removed: "Bearer Bearer x" becomes "Bearer x". */
  lemma StripBearerOnce(token: string)
    ensures StripBearer(BearerPrefix + token) == token
  {
    assert BearerPrefix <= BearerPrefix + token;
  }

  /** `select(User).where(User.email == email).first()`. */
  function FindUserByEmail(users: seq<User>, email: string): (found: Option<User>)
    ensures found.None? <==> !EmailTaken(users, email)
    ensures found.Some? ==> found.value in users && found.value.email == email
  {
    if users == [] then None
    else if users[0].email == email then Some(users[0])
    else
      var rest := FindUserByEmail(users[1..], email);
      assert EmailTaken(users[1..], email) ==> EmailTaken(users, email) by {
        if EmailTaken(users[1..], email) {
          var i :| 0 <= i < |users[1..]| && users[1..][i].email == email;
          assert users[i + 1].email == email;
        }
      }
      assert EmailTaken(users, email) ==> EmailTaken(users[1..], email) by {
        if EmailTaken(users, email) {
          var i :| 0 <= i < |users| && users[i].email == email;
          assert users[1..][i - 1].email == email;
        }
      }
      rest
  }

  /** Under the unique index, looking up a stored user's email finds that user. */
  lemma {:induction false} FindUserUnique(users: seq<User>, u: User)
    requires UniqueEmails(users) && u in users
    ensures FindUserByEmail(users, u.email) == Some(u)
  {
    if users[0] != u {
      assert UniqueEmails(users[1..]) by {
        forall i, j | 0 <= i < j < |users[1..]| ensures users[1..][i].email != users[1..][j].email {
          assert users[1..][i] == users[i + 1] && users[1..][j] == users[j + 1];
        }
      }
      var k :| 0 <= k < |users| && users[k] == u;
      assert users[0].email != u.email;
      FindUserUnique(users[1..], u);
    }
  }

  /** The email a payload names: its `sub` claim when that is a string. */
  function Subject(payload: Claims): Option<string>
  {
    if "sub" in payload && payload["sub"].Str? then Some(payload["sub"].text) else None
  }

  /**
   * `get_current_user`: the user the bearer token names, or 401 when the
   * token does not decode, has no string `sub`, or names no stored user.
   */
  function GetCurrentUser(jwt: JwtCodec, users: seq<User>, token: string): (r: Result<User, nat>)
    ensures r.Err? ==> r.error == 401
    ensures r.Ok? <==>
      var payload := jwt.decode(StripBearer(token));
      payload.Some? && Subject(payload.value).Some? && EmailTaken(users, Subject(payload.value).value)
    ensures r.Ok? ==> r.value in users && Subject(jwt.decode(StripBearer(token)).value) == Some(r.value.email)
  {
    match jwt.decode(StripBearer(token))
    case None => Err(401)
    case Some(payload) =>
      match Subject(payload)
      case None => Err(401)
      case Some(email) =>
        match FindUserByEmail(users, email)
        case None => Err(401)
        case Some(user) => Ok(user)
  }

  // ----- audit trail -----

  /** The display string of an actor: "Full Name (role)". */
  function ActorName(actor: User): string
  {
    actor.fullName + " (" + RoleValue(actor.role) + ")"
  }

  /** The row `audit_log` writes as the trail's next entry. */
  function AuditEntry(logs: seq<PrivacyLog>, actor: User, action: string, target: string, purpose: string,
                      consultId: Option<nat>): PrivacyLog
  {
    PrivacyLog(|logs| + 1, consultId, Some(actor.id), ActorName(actor), action, target, purpose)
  }

  /** `audit_log`: appends exactly one entry to the trail and changes nothing else. */
  method AuditLog(db: Db, actor: User, action: string, target: string, purpose: string, consultId: Option<nat>)
    requires db.Valid()
    modifies db
    ensures db.Valid()
    ensures db.Snapshot() ==
      old(db.Snapshot()).(logs := old(db.logs) + [AuditEntry(old(db.logs), actor, action, target, purpose, consultId)])
  {
    var _ := db.AddLog(consultId, Some(actor.id), ActorName(actor), action, target, purpose);
  }
}
