/** The routed user handlers (src/controllers/user.controller.ts): the
    profile of the attached user, and the simulated score update. Unlike
    the service, the handler computes the new score from the attached
    user's score, before the lookup and with no fallback for a zero score. */
module UserController {
  import opened Common
  import opened Score
  import opened UserModel
  import opened UserService
  import opened Http

  const NotAuthorized := "Not authorized."
  const UserNotFound := "User not found."
  const ScoreUpdatedMessage := "Simulated score updated successfully."

  /** The message of the cast error `findById` throws for an id that is
      not an ObjectId. */
  const CastErrorMessage := "Cast to ObjectId failed for value at path \"_id\" for model \"User\""

  /** `GET /api/users/me` */
  function GetMe(user: Option<PublicUser>): (resp: Response)
    ensures user.None? ==> resp == Response(401, Message(NotAuthorized))
    ensures user.Some? ==> resp.statusCode == 200 && resp.body == Profile(user.value)
  {
    match user
    case None => Response(401, Message(NotAuthorized))
    case Some(u) => Response(200, Profile(u))
  }

  /** The handler's new score, from the attached user's score. */
  function ControllerNewScore(attached: int, delta: int): (s: int)
    ensures MinScore <= s <= MaxScore
  {
    Clamp(attached + delta)
  }

  /** The two copies agree for any non-zero score the attached user and
      the store share, and differ for a zero score and a positive step. */
  lemma NewScoreCopiesCompared(score: int, delta: int)
    requires ValidDelta(delta)
    ensures score != 0 ==> ControllerNewScore(score, delta) == ServiceNewScore(score, delta)
    ensures score == 0 && delta > 0 ==>
      ControllerNewScore(score, delta) == MinScore && ServiceNewScore(score, delta) == MinScore + delta
  {
  }

  /** `PUT /api/users/me/simulate-score-update` for the user the middleware
      attached; `fault` is what the first lookup throws, if anything. */
  method SimulateScoreUpdate(store: UserStore, attached: Option<PublicUser>, delta: int, now: int, fault: Option<Fault>)
    returns (resp: Response)
    requires store.Valid() && ValidDelta(delta)
    modifies store
    ensures store.Valid()
    ensures store.emailOf == old(store.emailOf)
    ensures resp.statusCode != 200 ==> store.byEmail == old(store.byEmail)
    ensures old(store.ScoresInRange()) ==> store.ScoresInRange()
    ensures attached.None? ==> resp == Response(401, Message(NotAuthorized))
    ensures attached.Some? && fault.Some? ==>
      resp == ServerError(ScoreServerError, UnknownError, fault.value)
    ensures attached.Some? && fault.None? && !IsObjectId(attached.value.id) ==>
      resp == Response(500, MessageWithError(ScoreServerError, CastErrorMessage))
    ensures attached.Some? && fault.None? && IsObjectId(attached.value.id) && attached.value.id !in old(store.emailOf) ==>
      resp == Response(404, Message(UserNotFound))
    ensures attached.Some? && fault.None? && IsObjectId(attached.value.id) && attached.value.id in old(store.emailOf) ==>
      var u := old(store.byEmail[store.emailOf[attached.value.id]]);
      var s := ControllerNewScore(attached.value.creditScore, delta);
      var v := Rescored(u, s, UpdateEntry(s, delta, now));
      && store.byEmail == old(store.byEmail)[u.email := v]
      && resp == Response(200, ScoreUpdated(ScoreUpdatedMessage, Some(WithoutPassword(v))))
  {
    if attached.None? {
      return Response(401, Message(NotAuthorized));
    }
    var id := attached.value.id;
    var newScore := ControllerNewScore(attached.value.creditScore, delta);
    if fault.Some? {
      return ServerError(ScoreServerError, UnknownError, fault.value);
    }
    if !IsObjectId(id) {
      return Response(500, MessageWithError(ScoreServerError, CastErrorMessage));
    }
    var found := store.FindById(id);
    if found.None? {
      return Response(404, Message(UserNotFound));
    }
    var doc := new UserDocument.Load(found.value, false);
    doc.creditScore := newScore;
    doc.creditHistory := doc.creditHistory + [UpdateEntry(newScore, delta, now)];
    var saveFault := doc.Save(store, 0);
    if saveFault.None? {
      var updated := store.FindById(id);
      resp := Response(200, ScoreUpdated(ScoreUpdatedMessage, if updated.Some? then Some(WithoutPassword(updated.value)) else None));
    } else {
      // the loaded record passed validation when it was stored, and it is
      // written back under its own id and email
      assert false;
    }
  }

  /** When the attached user is the stored one, the handler and the service
      store the same record for every non-zero score. */
  lemma ScoreUpdateCopiesAgree(u: User, delta: int, now: int)
    requires ValidDelta(delta) && u.creditScore != 0
    ensures var sc := ControllerNewScore(WithoutPassword(u).creditScore, delta);
      var ss := ServiceNewScore(u.creditScore, delta);
      Rescored(u, sc, UpdateEntry(sc, delta, now)) == Rescored(u, ss, UpdateEntry(ss, delta, now))
  {
    NewScoreCopiesCompared(u.creditScore, delta);
  }
}
