/** The user service (src/services/user.service.ts): reading a profile and
    the simulated score update, which loads the user document, sets the new
    score, appends one history entry in place and saves the document. */
module UserService {
  import opened Common
  import opened AppErrors
  import opened Score
  import opened UserModel

  const ProfileNotFound := "User not found."
  const ProfileServerError := "Failed to retrieve user profile."
  const ScoreUserNotFound := "User not found for score update."
  const ScoreServerError := "Server error during simulated score update."

  /** `findById(id)` throws a cast error for a string that is not an
      ObjectId; a fault given to the call throws as well. */
  predicate LookupThrows(id: UserId, fault: Option<Fault>) {
    fault.Some? || !IsObjectId(id)
  }

  /** `findUserById(userId)` */
  function FindUserById(store: UserStore, id: UserId, fault: Option<Fault>): (r: Result<PublicUser, AppError>)
    reads store
    ensures LookupThrows(id, fault) ==> r == Err(NewAppError(ProfileServerError, 500))
    ensures !LookupThrows(id, fault) && id !in store.emailOf ==> r == Err(NewAppError(ProfileNotFound, 404))
    ensures store.Valid() && !LookupThrows(id, fault) && id in store.emailOf ==>
      r == Ok(WithoutPassword(store.byEmail[store.emailOf[id]])) && r.value.id == id
  {
    if LookupThrows(id, fault) then Err(NewAppError(ProfileServerError, 500))
    else
      match store.FindById(id)
      case None => Err(NewAppError(ProfileNotFound, 404))
      case Some(u) => Ok(WithoutPassword(u))
  }

  /** The service's new score: a zero score counts as 300 before the step. */
  function ServiceNewScore(stored: int, delta: int): (s: int)
    ensures MinScore <= s <= MaxScore
    ensures stored != 0 ==> s == Clamp(stored + delta)
    ensures stored == 0 ==> s == Clamp(MinScore + delta)
  {
    Clamp(CurrentScore(stored) + delta)
  }

  /** The history entry a score update appends. */
  function UpdateEntry(newScore: int, delta: int, now: int): CreditHistory {
    CreditHistory(now, newScore, Some(ChangeNote(delta)))
  }

  /** `u` after a score update: the new score, and one entry appended. */
  function Rescored(u: User, newScore: int, entry: CreditHistory): (v: User)
    ensures v.creditScore == newScore
    ensures |v.creditHistory| == |u.creditHistory| + 1
    ensures v.creditHistory[..|u.creditHistory|] == u.creditHistory
    ensures v.creditHistory[|u.creditHistory|] == entry
    ensures v.(creditScore := u.creditScore, creditHistory := u.creditHistory) == u
  {
    u.(creditScore := newScore, creditHistory := u.creditHistory + [entry])
  }

  /** After an update by `delta`, the score is in range, moved by at most
      the step from the previous in-range score, and the last history
      entry records the new score and the signed change. */
  lemma RescoredFacts(u: User, delta: int, now: int)
    requires ValidDelta(delta)
    ensures var s := ServiceNewScore(u.creditScore, delta);
      var v := Rescored(u, s, UpdateEntry(s, delta, now));
      && MinScore <= v.creditScore <= MaxScore
      && v.creditHistory[|v.creditHistory| - 1].score == v.creditScore
      && v.creditHistory[|v.creditHistory| - 1].note == Some(ChangeNote(delta))
      && (MinScore <= u.creditScore <= MaxScore ==>
            -25 <= v.creditScore - u.creditScore <= 25)
  {
    if MinScore <= u.creditScore <= MaxScore {
      ClampedStep(u.creditScore, delta);
    }
  }

  /** The failure of a score update that is not an AppError. */
  function ScoreUpdateFailure(f: Fault): (e: AppError)
    ensures f.ValidationRejected? ==> e == NewAppError("Validation failed during score update: " + f.message, 400)
    ensures !f.ValidationRejected? ==> e == NewAppError(ScoreServerError, 500)
  {
    if f.ValidationRejected? then NewAppError("Validation failed during score update: " + f.message, 400)
    else NewAppError(ScoreServerError, 500)
  }

  /** `simulateAndUpdateScore(userId)` with the random step `delta` and
      the clock `now` as parameters; `fault` is what the first lookup
      throws, if anything. */
  method SimulateAndUpdateScore(store: UserStore, id: UserId, delta: int, now: int, fault: Option<Fault>)
    returns (r: Result<PublicUser, AppError>)
    requires store.Valid() && ValidDelta(delta)
    modifies store
    ensures store.Valid()
    ensures store.emailOf == old(store.emailOf)
    ensures r.Err? ==> store.byEmail == old(store.byEmail)
    ensures old(store.ScoresInRange()) ==> store.ScoresInRange()
    ensures fault.Some? ==> r == Err(ScoreUpdateFailure(fault.value))
    ensures fault.None? && !IsObjectId(id) ==> r == Err(NewAppError(ScoreServerError, 500))
    ensures fault.None? && IsObjectId(id) && id !in old(store.emailOf) ==> r == Err(NewAppError(ScoreUserNotFound, 404))
    ensures fault.None? && IsObjectId(id) && id in old(store.emailOf) ==>
      var u := old(store.byEmail[store.emailOf[id]]);
      var s := ServiceNewScore(u.creditScore, delta);
      var v := Rescored(u, s, UpdateEntry(s, delta, now));
      && store.byEmail == old(store.byEmail)[u.email := v]
      && r == Ok(WithoutPassword(v))
  {
    if LookupThrows(id, fault) {
      return Err(if fault.Some? then ScoreUpdateFailure(fault.value) else NewAppError(ScoreServerError, 500));
    }
    var found := store.FindById(id);
    if found.None? {
      return Err(NewAppError(ScoreUserNotFound, 404));
    }
    var doc := new UserDocument.Load(found.value, false);
    var newScore := ServiceNewScore(doc.creditScore, delta);
    var entry := UpdateEntry(newScore, delta, now);
    doc.creditScore := newScore;
    doc.creditHistory := doc.creditHistory + [entry];
    var saveFault := doc.Save(store, 0);
    if saveFault.None? {
      r := FindUserById(store, id, None);
    } else {
      // the loaded record passed validation when it was stored, and it is
      // written back under its own id and email
      assert false;
    }
  }
}
