/** The `protect` middleware (src/middleware/auth.middleware.ts): it takes
    the bearer token from the Authorization header, verifies it with the
    server secret, loads the user it names without the password, attaches
    that user to the request and passes control on. Every other path
    answers and stops.

    Because `TokenExpiredError` is a subclass of `JsonWebTokenError`, the
    first error test already catches expired tokens: the separate
    'token expired' answer is never sent, and an expired token gets the
    generic verification failure with the message "jwt expired". */
module AuthMiddleware {
  import opened Common
  import opened Text
  import opened Jwt
  import opened UserModel
  import opened AuthService
  import opened Http

  const NoToken := "Not authorized, no token provided."
  const ConfigurationError := "Server configuration error."
  const VerificationFailed := "Not authorized, token failed verification."
  const UserNotFound := "Not authorized, user not found."
  const VerificationServerError := "Server error during token verification."

  /** The header is present, non-empty and starts with `Bearer`. */
  predicate HasBearer(header: Option<string>) {
    Present(header) && StartsWith(header.value, "Bearer")
  }

  /** `header.split(' ')[1]`, with an absent field read as empty. */
  function BearerField(header: string): (token: string)
    ensures ' ' !in token
  {
    var parts := Split(header, ' ');
    if |parts| >= 2 then parts[1] else ""
  }

  /** The token a header carries, if any. */
  function TokenOf(header: Option<string>): (t: Option<string>)
    ensures t.Some? <==> HasBearer(header) && BearerField(header.value) != ""
    ensures t.Some? ==> t.value == BearerField(header.value)
  {
    if HasBearer(header) && BearerField(header.value) != "" then Some(BearerField(header.value)) else None
  }

  /** `Bearer <token>` carries exactly the token. */
  lemma BearerHeaderCarriesToken(token: string)
    requires token != "" && ' ' !in token
    ensures TokenOf(Some("Bearer " + token)) == Some(token)
  {
    var h := "Bearer " + token;
    assert h == "Bearer" + [' '] + token;
    SplitAtSeparator("Bearer", ' ', token);
    SplitFree(token, ' ');
    assert h[..|"Bearer"|] == "Bearer";
  }

  /** How `protect` ends: with the user attached and `next()` called, or
      with a response. */
  datatype Outcome = Next(user: PublicUser) | Reject(response: Response)

  /** The decision chain of `protect`; `fault` is what the user lookup
      throws, if anything. */
  function Authenticate(header: Option<string>, secret: string, now: nat, store: UserStore, fault: Option<Fault>)
    : (r: Outcome)
    reads store
    ensures TokenOf(header).None? ==> r == Reject(Response(401, Message(NoToken)))
    ensures TokenOf(header).Some? && secret == "" ==> r == Reject(Response(500, Message(ConfigurationError)))
    ensures TokenOf(header).Some? && secret != "" && Verify(TokenOf(header).value, secret, now).Err? ==>
      r == Reject(Response(401, MessageWithError(VerificationFailed,
                                                 ErrorMessage(Verify(TokenOf(header).value, secret, now).error))))
    ensures TokenOf(header).Some? && secret != "" && Verify(TokenOf(header).value, secret, now).Ok? ==>
      var id := Verify(TokenOf(header).value, secret, now).value.id;
      if fault.Some? || !IsObjectId(id) then r == Reject(Response(500, Message(VerificationServerError)))
      else if store.FindById(id).None? then r == Reject(Response(401, Message(UserNotFound)))
      else r == Next(WithoutPassword(store.FindById(id).value))
    ensures r.Next? ==> exists u :: u in store.byEmail.Values && r.user == WithoutPassword(u)
  {
    match TokenOf(header)
    case None => Reject(Response(401, Message(NoToken)))
    case Some(token) =>
      if secret == "" then Reject(Response(500, Message(ConfigurationError)))
      else
        match Verify(token, secret, now)
        case Err(e) => Reject(Response(401, MessageWithError(VerificationFailed, ErrorMessage(e))))
        case Ok(claims) =>
          if fault.Some? || !IsObjectId(claims.id) then Reject(Response(500, Message(VerificationServerError)))
          else
            match store.FindById(claims.id)
            case None => Reject(Response(401, Message(UserNotFound)))
            case Some(u) =>
              assert u in store.byEmail.Values by {
                assert store.byEmail[store.emailOf[claims.id]] == u;
              }
              Next(WithoutPassword(u))
  }

  /** The request object as far as `protect` touches it. */
  class Request {
    /** `req.user` */
    var user: Option<PublicUser>
    /** how many times `next()` has been called */
    var nextCalls: nat
    /** what was sent with `res.status(..).json(..)`, if anything */
    var response: Option<Response>

    constructor ()
      ensures user.None? && nextCalls == 0 && response.None?
    {
      user := None;
      nextCalls := 0;
      response := None;
    }
  }

  /** `protect(req, res, next)`: on success the password-free user is
      attached and `next` is called once; on every other path a response is
      sent and `next` is not called. */
  method Protect(req: Request, header: Option<string>, secret: string, now: nat, store: UserStore, fault: Option<Fault>)
    modifies req
    ensures Authenticate(header, secret, now, store, fault).Next? ==>
      && req.user == Some(Authenticate(header, secret, now, store, fault).user)
      && req.nextCalls == old(req.nextCalls) + 1
      && req.response == old(req.response)
    ensures Authenticate(header, secret, now, store, fault).Reject? ==>
      && req.user == old(req.user)
      && req.nextCalls == old(req.nextCalls)
      && req.response == Some(Authenticate(header, secret, now, store, fault).response)
  {
    var outcome := Authenticate(header, secret, now, store, fault);
    match outcome {
      case Next(u) =>
        req.user := Some(u);
        req.nextCalls := req.nextCalls + 1;
      case Reject(resp) =>
        req.response := Some(resp);
    }
  }

  lemma NumeralHasNoSpace(n: nat)
    ensures ' ' !in NatToDecimal(n)
  {
  }

  /** An issued token never contains a space, so it survives the header
      round trip. */
  lemma IssuedTokenHasNoSpace(id: UserId, secret: string, now: nat)
    requires IsObjectId(id)
    ensures GenerateToken(id, secret, now, None) != ""
    ensures ' ' !in GenerateToken(id, secret, now, None)
  {
    var exp := now + OneDay;
    var parts := [id, NatToDecimal(now), NatToDecimal(exp), Tag(secret, Payload(id, now, exp))];
    NumeralHasNoSpace(now);
    NumeralHasNoSpace(exp);
    NumeralHasNoSpace(Checksum(secret + "." + Payload(id, now, exp)));
    assert ' ' !in id;
    JoinAvoids(parts, '.', ' ');
    assert GenerateToken(id, secret, now, None) == Join(parts, '.');
  }

  /** A stored user presenting the token issued at login passes `protect`
      for one day, and is refused afterwards with "jwt expired". */
  lemma SessionRoundTrip(store: UserStore, u: User, secret: string, now: nat, later: nat)
    requires store.Valid() && secret != ""
    requires IsObjectId(u.id) && u.id in store.emailOf && store.byEmail[store.emailOf[u.id]] == u
    ensures var header := Some("Bearer " + GenerateToken(u.id, secret, now, None));
      Authenticate(header, secret, later, store, None)
        == if later < now + OneDay then Next(WithoutPassword(u))
           else Reject(Response(401, MessageWithError(VerificationFailed, "jwt expired")))
  {
    var token := GenerateToken(u.id, secret, now, None);
    IssuedTokenHasNoSpace(u.id, secret, now);
    BearerHeaderCarriesToken(token);
    TokenBindsId(u.id, secret, now, None, later);
  }

  /** Without a bearer header nothing is verified and nothing is looked
      up: the answer does not depend on the secret, the clock or the store. */
  lemma NoHeaderNoLookup(header: Option<string>, secret: string, now: nat, store: UserStore, fault: Option<Fault>)
    requires !HasBearer(header)
    ensures Authenticate(header, secret, now, store, fault) == Reject(Response(401, Message(NoToken)))
  {
  }
}
