/** The authentication service (src/services/auth.service.ts): token
    issue, registration (which inserts a user into the store) and login
    (a read-only decision chain). Failures are AppErrors: the service's own
    are passed on unchanged, a Mongoose validation error becomes a 400 and
    anything else a 500. */
module AuthService {
  import opened Common
  import opened Text
  import opened AppErrors
  import opened PasswordHash
  import opened Jwt
  import opened UserModel

  /** What a successful registration or login returns. */
  datatype AuthResponse = AuthResponse(token: string, user: UserView)

  /** The registration body. */
  datatype RegistrationData = RegistrationData(
    email: Option<string>,
    password: Option<string>,
    firstName: Option<string>,
    lastName: Option<string>,
    phoneNumber: Option<string>,
    dateOfBirth: Option<int>,
    address: Option<Address>)

  const MissingRegistrationFields := "Please provide email, password, first name, and last name."
  const UserExists := "User already exists with this email."
  const RegistrationServerError := "Server error during registration."
  const MissingLoginFields := "Please provide email and password."
  const InvalidCredentials := "Invalid credentials."
  const LoginServerError := "Server error during login."

  /** `process.env.JWT_EXPIRES_IN || '1d'`, in seconds. */
  function ExpirySeconds(configured: Option<nat>): nat {
    configured.GetOr(OneDay)
  }

  /** `generateToken(userId)` */
  function GenerateToken(id: UserId, secret: string, now: nat, configured: Option<nat>): string {
    Sign(id, secret, now, ExpirySeconds(configured))
  }

  /** The issued token verifies, under the same secret, to the id it was
      issued for until the configured lifetime (one day by default) has
      passed, and is expired from then on. */
  lemma TokenBindsId(id: UserId, secret: string, now: nat, configured: Option<nat>, later: nat)
    requires IsObjectId(id)
    ensures Verify(GenerateToken(id, secret, now, configured), secret, later)
         == if later >= now + ExpirySeconds(configured) then Err(Expired)
            else Ok(Claims(id, now, now + ExpirySeconds(configured)))
    ensures configured.None? ==> ExpirySeconds(configured) == OneDay
  {
    ObjectIdHasNoDot(id);
    VerifySigned(id, secret, now, ExpirySeconds(configured), later);
  }

  /** The lookup key of `findOne({ email: email.toLowerCase() })`: the
      query value passes through the email setters as well, so it is the
      normalised email. */
  function LookupKey(email: string): (key: string)
    ensures key == NormalizeEmail(email)
  {
    LowerIdempotent(email);
    NormalizeEmail(Lower(email))
  }

  /** All four required fields are present and non-empty. */
  predicate HasRegistrationFields(data: RegistrationData) {
    Present(data.email) && Present(data.password) && Present(data.firstName) && Present(data.lastName)
  }

  /** The store key of the registration (the lower-cased email, with the
      schema's setters applied). */
  function RegistrationKey(data: RegistrationData): string
    requires HasRegistrationFields(data)
  {
    NormalizeEmail(data.email.value)
  }

  /** The required paths the new document fails, in schema order. */
  function RegistrationMissing(data: RegistrationData): seq<string>
    requires HasRegistrationFields(data)
  {
    MissingPaths(RegistrationKey(data), Some(Clear(data.password.value)), true,
                 Trim(data.firstName.value), Trim(data.lastName.value))
  }

  /** The record a successful registration stores: normalised email and
      names, the hashed password, the default score and an empty history.
      The phone number is not a schema path and is dropped. The stored
      password accepts exactly the candidates with the registered
      password's bcrypt key; among NUL-free passwords of at most 72 bytes
      that is the registered password alone. */
  function RegisteredUser(id: UserId, data: RegistrationData, salt: nat): (u: User)
    requires HasRegistrationFields(data)
    ensures u.id == id && u.email == RegistrationKey(data)
    ensures Compare(data.password.value, u.password)
    ensures forall other :: Compare(other, u.password) <==> BcryptKey(other) == BcryptKey(data.password.value)
    ensures |Utf8(data.password.value)| <= MaxKeyBytes && '\0' !in data.password.value ==>
      forall other :: |Utf8(other)| <= MaxKeyBytes && '\0' !in other && other != data.password.value ==>
        !Compare(other, u.password)
    ensures u.creditScore == DefaultCreditScore && u.creditHistory == []
  {
    ShortDigestRefusesOthers(data.password.value, salt);
    User(id, RegistrationKey(data), Hash(Clear(data.password.value), salt),
         Trim(data.firstName.value), Trim(data.lastName.value), data.dateOfBirth, data.address,
         DefaultCreditScore, [])
  }

  /** The `catch` of `registerUser` for anything that is not an AppError. */
  function RegistrationFailure(f: Fault): (e: AppError)
    ensures f.ValidationRejected? ==> e == NewAppError("Validation failed: " + f.message, 400)
    ensures !f.ValidationRejected? ==> e == NewAppError(RegistrationServerError, 500)
  {
    if f.ValidationRejected? then NewAppError("Validation failed: " + f.message, 400)
    else NewAppError(RegistrationServerError, 500)
  }

  /** `registerUser(userData)`. `freshId` is the id the new document is
      given, `salt` the hash salt, `now` the clock, and `fault` what the
      first store call throws, if anything. */
  method RegisterUser(store: UserStore, data: RegistrationData, freshId: UserId, salt: nat,
                      secret: string, now: nat, configured: Option<nat>, fault: Option<Fault>)
    returns (r: Result<AuthResponse, AppError>)
    requires store.Valid()
    modifies store
    ensures store.Valid()
    ensures r.Err? ==> store.byEmail == old(store.byEmail) && store.emailOf == old(store.emailOf)
    ensures old(store.ScoresInRange()) ==> store.ScoresInRange()
    ensures !HasRegistrationFields(data) ==> r == Err(NewAppError(MissingRegistrationFields, 400))
    ensures HasRegistrationFields(data) && fault.Some? ==> r == Err(RegistrationFailure(fault.value))
    ensures HasRegistrationFields(data) && fault.None? && RegistrationKey(data) in old(store.byEmail) ==>
      r == Err(NewAppError(UserExists, 400))
    ensures HasRegistrationFields(data) && fault.None? && RegistrationKey(data) !in old(store.byEmail)
            && RegistrationMissing(data) != [] ==>
      r == Err(NewAppError("Validation failed: " + ValidationFailedMessage("User", RegistrationMissing(data)), 400))
    ensures HasRegistrationFields(data) && fault.None? && RegistrationKey(data) !in old(store.byEmail)
            && RegistrationMissing(data) == [] && freshId in old(store.emailOf) ==>
      r == Err(NewAppError(RegistrationServerError, 500))
    ensures HasRegistrationFields(data) && fault.None? && RegistrationKey(data) !in old(store.byEmail)
            && RegistrationMissing(data) == [] && freshId !in old(store.emailOf) ==>
      && store.byEmail == old(store.byEmail)[RegistrationKey(data) := RegisteredUser(freshId, data, salt)]
      && store.emailOf == old(store.emailOf)[freshId := RegistrationKey(data)]
      && r == Ok(AuthResponse(GenerateToken(freshId, secret, now, configured),
                              ServiceView(freshId, RegistrationKey(data), Trim(data.firstName.value),
                                          Trim(data.lastName.value), None)))
  {
    if !HasRegistrationFields(data) {
      return Err(NewAppError(MissingRegistrationFields, 400));
    }
    if fault.Some? {
      return Err(RegistrationFailure(fault.value));
    }
    var lowered := Lower(data.email.value);
    LowerIdempotent(data.email.value);
    var existing := store.FindByEmail(LookupKey(data.email.value));
    if existing.Some? {
      return Err(NewAppError(UserExists, 400));
    }
    var doc := new UserDocument.Create(freshId, lowered, data.password.value, data.firstName.value,
                                       data.lastName.value, data.dateOfBirth, data.address);
    var saveFault := doc.Save(store, salt);
    if saveFault.Some? {
      return Err(RegistrationFailure(saveFault.value));
    }
    var token := GenerateToken(doc.id, secret, now, configured);
    r := Ok(AuthResponse(token, ServiceView(doc.id, doc.email, doc.firstName, doc.lastName, None)));
  }

  /** `loginUser(email, password)` over the store; `fault` is what the user
      lookup throws, if anything. */
  function LoginUser(store: UserStore, email: Option<string>, password: Option<string>,
                     secret: string, now: nat, configured: Option<nat>, fault: Option<Fault>)
    : (r: Result<AuthResponse, AppError>)
    reads store
    ensures !(Present(email) && Present(password)) ==> r == Err(NewAppError(MissingLoginFields, 400))
    ensures Present(email) && Present(password) && fault.Some? ==> r == Err(NewAppError(LoginServerError, 500))
    ensures Present(email) && Present(password) && fault.None? && store.Valid() ==>
      var key := NormalizeEmail(email.value);
      if key in store.byEmail && Compare(password.value, store.byEmail[key].password) then
        var u := store.byEmail[key];
        r == Ok(AuthResponse(GenerateToken(u.id, secret, now, configured),
                             ServiceView(u.id, u.email, u.firstName, u.lastName, None)))
      else
        r == Err(NewAppError(InvalidCredentials, 401))
  {
    if !(Present(email) && Present(password)) then Err(NewAppError(MissingLoginFields, 400))
    else if fault.Some? then Err(NewAppError(LoginServerError, 500))
    else
      var key := LookupKey(email.value);
      if key !in store.byEmail then Err(NewAppError(InvalidCredentials, 401))
      else
        var u := store.byEmail[key];
        var matched := ComparePassword(password.value, Some(u.password), store.FindById(u.id));
        if matched.Err? then Err(NewAppError(LoginServerError, 500))
        else if !matched.value then Err(NewAppError(InvalidCredentials, 401))
        else Ok(AuthResponse(GenerateToken(u.id, secret, now, configured),
                             ServiceView(u.id, u.email, u.firstName, u.lastName, None)))
  }

  /** Logging in as a stored user with a present candidate password: the
      outcome is decided by comparing it with that user's stored password. */
  lemma LoginAsStored(store: UserStore, email: string, candidate: string,
                      secret: string, now: nat, configured: Option<nat>)
    requires store.Valid() && email != "" && candidate != ""
    requires NormalizeEmail(email) in store.byEmail
    ensures var u := store.byEmail[NormalizeEmail(email)];
      LoginUser(store, Some(email), Some(candidate), secret, now, configured, None)
      == if Compare(candidate, u.password) then
           Ok(AuthResponse(GenerateToken(u.id, secret, now, configured),
                           ServiceView(u.id, u.email, u.firstName, u.lastName, None)))
         else Err(NewAppError(InvalidCredentials, 401))
  {
  }

  /** A user stored by a registration logs in with the registered password,
      under any spelling of the email that normalises to the same key, and
      receives a token for their id; a password with another bcrypt key, in
      particular any other password when both are NUL-free and at most 72
      bytes long, is
      refused with the same error as an unknown email. */
  lemma LoginAfterRegistration(store: UserStore, data: RegistrationData, id: UserId, salt: nat,
                               email: string, other: string, secret: string, now: nat, configured: Option<nat>)
    requires store.Valid() && HasRegistrationFields(data)
    requires RegistrationKey(data) in store.byEmail
    requires store.byEmail[RegistrationKey(data)] == RegisteredUser(id, data, salt)
    requires NormalizeEmail(email) == RegistrationKey(data) && email != ""
    ensures LoginUser(store, Some(email), data.password, secret, now, configured, None).Ok?
    ensures LoginUser(store, Some(email), data.password, secret, now, configured, None).value.token
         == GenerateToken(id, secret, now, configured)
    ensures other != "" ==>
      (LoginUser(store, Some(email), Some(other), secret, now, configured, None).Ok?
       <==> BcryptKey(other) == BcryptKey(data.password.value))
    ensures other != "" && BcryptKey(other) != BcryptKey(data.password.value) ==>
      LoginUser(store, Some(email), Some(other), secret, now, configured, None) == Err(NewAppError(InvalidCredentials, 401))
    ensures other != "" && other != data.password.value &&
            |Utf8(other)| <= MaxKeyBytes && |Utf8(data.password.value)| <= MaxKeyBytes &&
            '\0' !in other && '\0' !in data.password.value ==>
      LoginUser(store, Some(email), Some(other), secret, now, configured, None) == Err(NewAppError(InvalidCredentials, 401))
  {
    var pw := data.password.value;
    assert data.password == Some(pw);
    LoginAsStored(store, email, pw, secret, now, configured);
    CompareHash(pw, other, salt);
    if other != "" {
      LoginAsStored(store, email, other, secret, now, configured);
      if other != pw && |Utf8(other)| <= MaxKeyBytes && |Utf8(pw)| <= MaxKeyBytes && '\0' !in other && '\0' !in pw {
        ShortPasswordsDistinguished(pw, other, salt);
      }
    }
  }

  /** An unknown email and a wrong password are indistinguishable to the
      caller. */
  lemma SameErrorForUnknownAndWrong(store: UserStore, known: string, unknown: string, password: string,
                                    secret: string, now: nat, configured: Option<nat>)
    requires store.Valid() && password != "" && known != "" && unknown != ""
    requires NormalizeEmail(unknown) !in store.byEmail
    requires NormalizeEmail(known) in store.byEmail
    requires !Compare(password, store.byEmail[NormalizeEmail(known)].password)
    ensures LoginUser(store, Some(unknown), Some(password), secret, now, configured, None)
         == LoginUser(store, Some(known), Some(password), secret, now, configured, None)
  {
  }
}
