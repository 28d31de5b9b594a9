/** The routed authentication handlers (src/controllers/auth.controller.ts):
    the same register and login flows as the service, answering with status
    codes directly. Every thrown error, a validation error included, is a
    500 carrying the error's message. Tokens always last one day, and the
    login view carries only the id, the email and the first name. */
module AuthController {
  import opened Common
  import opened Text
  import opened PasswordHash
  import opened Jwt
  import opened UserModel
  import opened AuthService
  import opened Http

  const UnknownRegistrationError := "An unknown server error occurred during registration."
  const UnknownLoginError := "An unknown server error occurred during login."

  /** The handlers' `generateToken`: a fixed one-day lifetime. */
  function ControllerToken(id: UserId, secret: string, now: nat): (token: string)
    ensures token == GenerateToken(id, secret, now, None)
  {
    Sign(id, secret, now, OneDay)
  }

  /** `POST /api/auth/register` */
  method Register(store: UserStore, data: RegistrationData, freshId: UserId, salt: nat,
                  secret: string, now: nat, fault: Option<Fault>)
    returns (resp: Response)
    requires store.Valid()
    modifies store
    ensures store.Valid()
    ensures resp.statusCode != 201 ==> store.byEmail == old(store.byEmail) && store.emailOf == old(store.emailOf)
    ensures old(store.ScoresInRange()) ==> store.ScoresInRange()
    ensures !HasRegistrationFields(data) ==> resp == Response(400, Message(MissingRegistrationFields))
    ensures HasRegistrationFields(data) && fault.Some? ==>
      resp == ServerError(RegistrationServerError, UnknownRegistrationError, fault.value)
    ensures HasRegistrationFields(data) && fault.None? && RegistrationKey(data) in old(store.byEmail) ==>
      resp == Response(400, Message(UserExists))
    ensures HasRegistrationFields(data) && fault.None? && RegistrationKey(data) !in old(store.byEmail)
            && RegistrationMissing(data) != [] ==>
      resp == Response(500, MessageWithError(RegistrationServerError, ValidationFailedMessage("User", RegistrationMissing(data))))
    ensures HasRegistrationFields(data) && fault.None? && RegistrationKey(data) !in old(store.byEmail)
            && RegistrationMissing(data) == [] && freshId in old(store.emailOf) ==>
      resp == Response(500, MessageWithError(RegistrationServerError, DuplicateKeyMessage))
    ensures HasRegistrationFields(data) && fault.None? && RegistrationKey(data) !in old(store.byEmail)
            && RegistrationMissing(data) == [] && freshId !in old(store.emailOf) ==>
      && store.byEmail == old(store.byEmail)[RegistrationKey(data) := RegisteredUser(freshId, data, salt)]
      && store.emailOf == old(store.emailOf)[freshId := RegistrationKey(data)]
      && resp == Response(201, Auth(ControllerToken(freshId, secret, now),
                                    RegisteredView(freshId, RegistrationKey(data), Trim(data.firstName.value),
                                                   Trim(data.lastName.value))))
  {
    if !HasRegistrationFields(data) {
      return Response(400, Message(MissingRegistrationFields));
    }
    if fault.Some? {
      return ServerError(RegistrationServerError, UnknownRegistrationError, fault.value);
    }
    var lowered := Lower(data.email.value);
    LowerIdempotent(data.email.value);
    var existing := store.FindByEmail(LookupKey(data.email.value));
    if existing.Some? {
      return Response(400, Message(UserExists));
    }
    var doc := new UserDocument.Create(freshId, lowered, data.password.value, data.firstName.value,
                                       data.lastName.value, data.dateOfBirth, data.address);
    var saveFault := doc.Save(store, salt);
    if saveFault.Some? {
      return ServerError(RegistrationServerError, UnknownRegistrationError, saveFault.value);
    }
    var token := ControllerToken(doc.id, secret, now);
    resp := Response(201, Auth(token, RegisteredView(doc.id, doc.email, doc.firstName, doc.lastName)));
  }

  /** `POST /api/auth/login`; `fault` is what the user lookup throws. */
  function Login(store: UserStore, email: Option<string>, password: Option<string>,
                 secret: string, now: nat, fault: Option<Fault>): (resp: Response)
    reads store
    ensures !(Present(email) && Present(password)) ==> resp == Response(400, Message(MissingLoginFields))
    ensures Present(email) && Present(password) && fault.Some? ==>
      resp == ServerError(LoginServerError, UnknownLoginError, fault.value)
    ensures Present(email) && Present(password) && fault.None? && store.Valid() ==>
      var key := NormalizeEmail(email.value);
      if key in store.byEmail && Compare(password.value, store.byEmail[key].password) then
        var u := store.byEmail[key];
        resp == Response(200, Auth(ControllerToken(u.id, secret, now), LoginView(u.id, u.email, u.firstName)))
      else
        resp == Response(401, Message(InvalidCredentials))
  {
    if !(Present(email) && Present(password)) then Response(400, Message(MissingLoginFields))
    else if fault.Some? then ServerError(LoginServerError, UnknownLoginError, fault.value)
    else
      var key := LookupKey(email.value);
      if key !in store.byEmail then Response(401, Message(InvalidCredentials))
      else
        var u := store.byEmail[key];
        var matched := ComparePassword(password.value, Some(u.password), store.FindById(u.id));
        if matched.Err? then Response(500, MessageWithError(LoginServerError, matched.error))
        else if !matched.value then Response(401, Message(InvalidCredentials))
        else Response(200, Auth(ControllerToken(u.id, secret, now), LoginView(u.id, u.email, u.firstName)))
  }

  /** The routed login and the service's login accept and refuse the same
      credentials and issue the same token; the routed view drops the last
      name and the phone number. */
  lemma LoginAgreesWithService(store: UserStore, email: string, password: string, secret: string, now: nat)
    requires store.Valid() && email != "" && password != ""
    ensures LoginUser(store, Some(email), Some(password), secret, now, None, None).Ok?
        <==> Login(store, Some(email), Some(password), secret, now, None).statusCode == 200
    ensures LoginUser(store, Some(email), Some(password), secret, now, None, None).Ok? ==>
      var s := LoginUser(store, Some(email), Some(password), secret, now, None, None).value;
      var c := Login(store, Some(email), Some(password), secret, now, None).body;
      && c.Auth? && c.token == s.token
      && c.user == LoginView(s.user.id, s.user.email, s.user.firstName)
  {
  }

  /** A validation failure is a 400 in the service but a 500 here. */
  lemma ValidationStatusDiffers(m: string)
    ensures RegistrationFailure(ValidationRejected(m)).statusCode == 400
    ensures ServerError(RegistrationServerError, UnknownRegistrationError, ValidationRejected(m)).statusCode == 500
  {
  }
}
