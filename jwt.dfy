/** Session tokens: signing a user id with the server secret and an expiry,
    and verifying a presented token (jsonwebtoken's `sign` and `verify`).
    The compact token layout is modelled as four dot-separated fields
    `id.iat.exp.tag`; the HMAC is replaced by a keyed checksum rendered in
    decimal, which keeps the round trip and the key dependence but makes no
    claim about unforgeability. Times are whole seconds since the epoch. */
module Jwt {
  import opened Common
  import opened Text

  /** The payload `{ id }` plus the registered claims jsonwebtoken adds. */
  datatype Claims = Claims(id: string, iat: nat, exp: nat)

  /** jsonwebtoken's failures: all are `JsonWebTokenError`s (an expired
      token raises `TokenExpiredError`, a subclass). */
  datatype JwtError = Malformed | InvalidSignature | Expired

  function ErrorMessage(e: JwtError): string {
    match e
    case Malformed => "jwt malformed"
    case InvalidSignature => "invalid signature"
    case Expired => "jwt expired"
  }

  /** `expiresIn: '1d'` in seconds. */
  const OneDay: nat := 86400

  /** Stand-in for the keyed MAC: a polynomial checksum of the key and the
      signed text. */
  function Checksum(s: string): nat
  {
    if s == [] then 7 else (Checksum(s[..|s| - 1]) * 31 + s[|s| - 1] as int) % 2147483647
  }

  function Tag(secret: string, payload: string): string {
    NatToDecimal(Checksum(secret + "." + payload))
  }

  function Payload(id: string, iat: nat, exp: nat): string {
    Join([id, NatToDecimal(iat), NatToDecimal(exp)], '.')
  }

  /** `jwt.sign({ id }, secret, { expiresIn })` at time `now`. */
  function Sign(id: string, secret: string, now: nat, expiresIn: nat): string {
    var exp := now + expiresIn;
    Join([id, NatToDecimal(now), NatToDecimal(exp), Tag(secret, Payload(id, now, exp))], '.')
  }

  /** The token has four fields and its last is the tag of the first three
      under `secret`. */
  predicate SignedWith(token: string, secret: string) {
    var parts := Split(token, '.');
    |parts| == 4 && Tag(secret, Join(parts[..3], '.')) == parts[3]
  }

  /** `jwt.verify(token, secret)` at time `now`: malformed tokens, wrong
      tags and expired tokens are rejected; otherwise the claims are
      returned. */
  function Verify(token: string, secret: string, now: nat): (r: Result<Claims, JwtError>)
    ensures r.Ok? ==> SignedWith(token, secret) && now < r.value.exp
    ensures r.Ok? ==> r.value.id == Split(token, '.')[0] && '.' !in r.value.id
  {
    var parts := Split(token, '.');
    if |parts| != 4 then Err(Malformed)
    else if Tag(secret, Join(parts[..3], '.')) != parts[3] then Err(InvalidSignature)
    else
      match (ParseNat(parts[1]), ParseNat(parts[2]))
      case (Some(iat), Some(exp)) =>
        if now >= exp then Err(Expired) else Ok(Claims(parts[0], iat, exp))
      case _ => Err(Malformed)
  }

  lemma NumeralHasNoDot(n: nat)
    ensures '.' !in NatToDecimal(n)
  {
  }

  lemma Fields(id: string, a: string, b: string, t: string)
    requires '.' !in id && '.' !in a && '.' !in b && '.' !in t
    ensures Split(Join([id, a, b, t], '.'), '.') == [id, a, b, t]
    ensures [id, a, b, t][..3] == [id, a, b]
  {
    SplitJoin([id, a, b, t], '.');
  }

  /** Verifying a token signed with the same secret gives back the signed
      id before the expiry and `Expired` from the expiry on. */
  lemma VerifySigned(id: string, secret: string, now: nat, expiresIn: nat, later: nat)
    requires '.' !in id
    ensures Verify(Sign(id, secret, now, expiresIn), secret, later)
      == if later >= now + expiresIn then Err(Expired) else Ok(Claims(id, now, now + expiresIn))
  {
    var exp := now + expiresIn;
    NumeralHasNoDot(now);
    NumeralHasNoDot(exp);
    NumeralHasNoDot(Checksum(secret + "." + Payload(id, now, exp)));
    Fields(id, NatToDecimal(now), NatToDecimal(exp), Tag(secret, Payload(id, now, exp)));
    ParseNatToDecimal(now);
    ParseNatToDecimal(exp);
  }

  /** A token whose tag is not the tag of its fields under `secret` (a
      tampered field, or a token signed with another key) is rejected. */
  lemma TamperedRejected(id: string, a: string, b: string, t: string, secret: string, now: nat)
    requires '.' !in id && '.' !in a && '.' !in b && '.' !in t
    requires Tag(secret, Join([id, a, b], '.')) != t
    ensures Verify(Join([id, a, b, t], '.'), secret, now) == Err(InvalidSignature)
  {
    Fields(id, a, b, t);
  }

  /** In particular a token signed under one key fails under any key whose
      tag for the same claims differs. */
  lemma OtherKeyRejected(id: string, secret: string, other: string, now: nat, expiresIn: nat, later: nat)
    requires '.' !in id
    requires Tag(other, Payload(id, now, now + expiresIn)) != Tag(secret, Payload(id, now, now + expiresIn))
    ensures Verify(Sign(id, secret, now, expiresIn), other, later) == Err(InvalidSignature)
  {
    var exp := now + expiresIn;
    NumeralHasNoDot(now);
    NumeralHasNoDot(exp);
    NumeralHasNoDot(Checksum(secret + "." + Payload(id, now, exp)));
    TamperedRejected(id, NatToDecimal(now), NatToDecimal(exp), Tag(secret, Payload(id, now, exp)), other, later);
  }
}
