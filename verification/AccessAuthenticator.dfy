/** The reader of the denylist: which access tokens a request or an open stream may go on with. */
module AccessAuthenticator {
  import opened Options
  import opened RefreshTokens
  import opened AuthDenylist

  /** What a correctly signed access token says about itself. */
  datatype Claims = Claims(family: Family, jti: Jti, expiresAt: int)

  datatype Verdict = Accepted(user: Claims) | Rejected | CheckUnavailable

  /** `claims` is None when the signature or the key id is wrong. */
  function Verify(claims: Option<Claims>, now: int): Option<Claims> {
    if claims.Some? && now < claims.value.expiresAt then claims else None
  }

  function Authenticate(claims: Option<Claims>, now: int, lookup: Lookup): Verdict {
    match Verify(claims, now)
    case None => Rejected
    case Some(c) =>
      match lookup
      case Answer(true) => Rejected
      case Answer(false) => Accepted(c)
      case OutOfSync => CheckUnavailable
      case RedisUnavailable => CheckUnavailable
  }

  /** The check before each event of an open stream: doubt closes the stream. */
  predicate IsStillValid(user: Claims, now: int, lookup: Lookup) {
    if user.expiresAt <= now then false
    else match lookup
      case Answer(denied) => !denied
      case OutOfSync => false
      case RedisUnavailable => false
  }

  /**
   A live token is rejected only if the denylist knows it, so that its holder has to log in again; doubt is answered with
   "try again later". An expired or badly signed token is rejected whatever the denylist says.
   */
  lemma LiveTokenIsRejectedOnlyIfDenied(claims: Option<Claims>, now: int, lookup: Lookup)
    ensures claims.None? || claims.value.expiresAt <= now ==> Authenticate(claims, now, lookup) == Rejected
    ensures claims.Some? && now < claims.value.expiresAt ==>
              match Authenticate(claims, now, lookup)
              case Rejected => lookup == Answer(true)
              case Accepted(user) => lookup == Answer(false) && user == claims.value
              case CheckUnavailable => lookup == OutOfSync || lookup == RedisUnavailable
  {
  }

  /** A stream goes on exactly as long as a new request with the same token would be let in. */
  lemma StreamAgreesWithRequest(user: Claims, now: int, lookup: Lookup)
    ensures IsStillValid(user, now, lookup) <==> Authenticate(Some(user), now, lookup) == Accepted(user)
  {
    match lookup
    case Answer(denied) =>
    case OutOfSync =>
    case RedisUnavailable =>
  }
}
