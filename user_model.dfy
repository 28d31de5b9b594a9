/** The user schema (src/models/User.model.ts): the stored record and its
    sub-documents, the setters and defaults applied when a document is
    created, required-path validation, the pre-save password hook,
    `comparePassword`, the password-free projection, and the users
    collection with its two unique indexes (`_id` and `email`). */
module UserModel {
  import opened Common
  import opened Text
  import opened PasswordHash
  import opened Score

  /** The string form of an ObjectId. */
  type UserId = string

  predicate IsHexDigit(c: char) {
    '0' <= c <= '9' || 'a' <= c <= 'f'
  }

  /** 24 lower-case hexadecimal digits. */
  predicate IsObjectId(id: string) {
    |id| == 24 && forall i :: 0 <= i < |id| ==> IsHexDigit(id[i])
  }

  lemma ObjectIdHasNoDot(id: string)
    requires IsObjectId(id)
    ensures '.' !in id
  {
  }

  datatype Address = Address(street: Option<string>, city: Option<string>, state: Option<string>, zipCode: Option<string>)

  /** One entry of a user's score history. */
  datatype CreditHistory = CreditHistory(date: int, score: int, note: Option<string>)

  /** Creating a history entry: the score is required and the date
      defaults to the current time. */
  function NewCreditHistory(date: Option<int>, score: Option<int>, note: Option<string>, now: int): (r: Option<CreditHistory>)
    ensures r.Some? <==> score.Some?
    ensures r.Some? ==> r.value.score == score.value && r.value.note == note
    ensures r.Some? && date.None? ==> r.value.date == now
    ensures r.Some? && date.Some? ==> r.value.date == date.value
  {
    if score.None? then None else Some(CreditHistory(date.GetOr(now), score.value, note))
  }

  /** The score every new user starts with. */
  const DefaultCreditScore := 300

  /** A stored user record, password included. */
  datatype User = User(
    id: UserId,
    email: string,
    password: Password,
    firstName: string,
    lastName: string,
    dateOfBirth: Option<int>,
    address: Option<Address>,
    creditScore: int,
    creditHistory: seq<CreditHistory>)

  /** A user as read with `select('-password')`: every field but the
      password. This is what the middleware attaches to the request. */
  datatype PublicUser = PublicUser(
    id: UserId,
    email: string,
    firstName: string,
    lastName: string,
    dateOfBirth: Option<int>,
    address: Option<Address>,
    creditScore: int,
    creditHistory: seq<CreditHistory>)

  /** `select('-password')`: every field of the record but the password. */
  function WithoutPassword(u: User): (p: PublicUser)
    ensures p.id == u.id && p.email == u.email && p.creditScore == u.creditScore
    ensures p.creditHistory == u.creditHistory
    ensures p.firstName == u.firstName && p.lastName == u.lastName
    ensures p.dateOfBirth == u.dateOfBirth && p.address == u.address
  {
    PublicUser(u.id, u.email, u.firstName, u.lastName, u.dateOfBirth, u.address, u.creditScore, u.creditHistory)
  }

  /** The user objects the auth responses carry; none has a password. */
  datatype UserView =
    | ServiceView(id: UserId, email: string, firstName: string, lastName: string, phoneNumber: Option<string>)
    | RegisteredView(id: UserId, email: string, firstName: string, lastName: string)
    | LoginView(id: UserId, email: string, firstName: string)

  /** The `lowercase` and `trim` setters of the email path. Mongoose also
      applies them to query values, so lookups use the same key. */
  function NormalizeEmail(email: string): string {
    Trim(Lower(email))
  }

  lemma NormalizeEmailIdempotent(email: string)
    ensures NormalizeEmail(NormalizeEmail(email)) == NormalizeEmail(email)
  {
    var l := Lower(email);
    var t := Trim(l);
    var k := TrimIsSlice(l);
    forall i | 0 <= i < |t| ensures LowerChar(t[i]) == t[i] {
      assert t[i] == l[k + i];
      LowerCharFacts(email[k + i]);
    }
    assert Lower(t) == t;
    TrimIdempotent(l);
  }

  /** A normalised email has no surrounding white space and no upper-case
      ASCII letter. */
  lemma NormalizedEmailIsClean(email: string)
    ensures var e := NormalizeEmail(email); e == [] || (!IsSpace(e[0]) && !IsSpace(e[|e| - 1]))
    ensures forall i :: 0 <= i < |NormalizeEmail(email)| ==> !('A' <= NormalizeEmail(email)[i] <= 'Z')
  {
    var l := Lower(email);
    var t := Trim(l);
    var k := TrimIsSlice(l);
    forall i | 0 <= i < |t| ensures !('A' <= t[i] <= 'Z') {
      assert t[i] == l[k + i];
      LowerCharFacts(email[k + i]);
    }
  }

  /** The required paths that fail validation, in schema order. A password
      that was not selected is not validated, except on a new document. */
  function MissingPaths(email: string, password: Option<Password>, isNew: bool, firstName: string, lastName: string): (paths: seq<string>)
    ensures paths == [] <==> && email != "" && firstName != "" && lastName != ""
                             && (if password.Some? then !IsEmpty(password.value) else !isNew)
  {
    (if email == "" then ["email"] else [])
    + (if (password.None? && isNew) || (password.Some? && IsEmpty(password.value)) then ["password"] else [])
    + (if firstName == "" then ["firstName"] else [])
    + (if lastName == "" then ["lastName"] else [])
  }

  /** A record that passes the schema's required-path validation. */
  predicate Conforms(u: User) {
    u.email != "" && !IsEmpty(u.password) && u.firstName != "" && u.lastName != ""
  }

  /** The pre-save hook: the password is hashed when it was modified and is
      non-empty, and left exactly as it is otherwise. */
  function PreSaveHook(password: Option<Password>, modified: bool, salt: nat): (r: Option<Password>)
    ensures !modified || password.None? || IsEmpty(password.value) ==> r == password
    ensures modified && password.Some? && !IsEmpty(password.value) ==> r == Some(Hash(password.value, salt))
    ensures r.Some? ==> !IsEmpty(r.value) || r == password
  {
    if modified && password.Some? && !IsEmpty(password.value) then Some(Hash(password.value, salt)) else password
  }

  /** After the hook has run on a new plaintext, that plaintext compares
      equal with the stored value, and so does exactly every candidate with
      the same bcrypt key; when both are NUL-free and at most 72 bytes long
      that means no other candidate. */
  lemma HookedPasswordCompares(plain: string, other: string, salt: nat)
    requires plain != ""
    ensures PreSaveHook(Some(Clear(plain)), true, salt).Some?
    ensures Compare(plain, PreSaveHook(Some(Clear(plain)), true, salt).value)
    ensures Compare(other, PreSaveHook(Some(Clear(plain)), true, salt).value) <==> BcryptKey(other) == BcryptKey(plain)
    ensures |Utf8(plain)| <= MaxKeyBytes && |Utf8(other)| <= MaxKeyBytes && '\0' !in plain && '\0' !in other && other != plain ==>
      !Compare(other, PreSaveHook(Some(Clear(plain)), true, salt).value)
  {
    CompareHash(plain, other, salt);
    if |Utf8(plain)| <= MaxKeyBytes && |Utf8(other)| <= MaxKeyBytes && '\0' !in plain && '\0' !in other && other != plain {
      ShortPasswordsDistinguished(plain, other, salt);
    }
  }

  const PasswordUnavailable := "Could not retrieve password for comparison."

  /** `user.comparePassword(candidate)`: `loaded` is the document's password
      field (absent when it was not selected) and `refetched` what reading
      the user again with `+password` gives. */
  function ComparePassword(candidate: string, loaded: Option<Password>, refetched: Option<User>): (r: Result<bool, string>)
    ensures loaded.Some? && !IsEmpty(loaded.value) ==> r == Ok(Compare(candidate, loaded.value))
    ensures (loaded.None? || IsEmpty(loaded.value)) && refetched.Some? && !IsEmpty(refetched.value.password) ==>
      r == Ok(Compare(candidate, refetched.value.password))
    ensures (loaded.None? || IsEmpty(loaded.value)) && (refetched.None? || IsEmpty(refetched.value.password)) ==>
      r == Err(PasswordUnavailable)
  {
    if loaded.Some? && !IsEmpty(loaded.value) then Ok(Compare(candidate, loaded.value))
    else if refetched.None? || IsEmpty(refetched.value.password) then Err(PasswordUnavailable)
    else Ok(Compare(candidate, refetched.value.password))
  }

  const DuplicateKeyMessage := "E11000 duplicate key error collection: users"
  const DocumentNotFoundMessage := "No document found for query on model \"User\""

  lemma MapReplaceKey<K, V>(m: map<K, V>, k: K, v: V)
    requires k in m
    ensures (m - {k})[k := v] == m[k := v]
  {
  }

  /** The users collection: records by their (normalised) email, and the
      `_id` index. */
  class UserStore {
    var byEmail: map<string, User>
    var emailOf: map<UserId, string>

    /** Both unique indexes agree, and every stored record passed
        validation when it was saved. */
    ghost predicate Valid()
      reads this
    {
      && (forall e :: e in byEmail ==>
            byEmail[e].email == e && byEmail[e].id in emailOf && emailOf[byEmail[e].id] == e && Conforms(byEmail[e]))
      && (forall id :: id in emailOf ==> emailOf[id] in byEmail && byEmail[emailOf[id]].id == id)
    }

    /** Every stored score lies in 300..850. */
    ghost predicate ScoresInRange()
      reads this
    {
      forall e :: e in byEmail ==> MinScore <= byEmail[e].creditScore <= MaxScore
    }

    constructor ()
      ensures Valid() && byEmail == map[] && emailOf == map[]
    {
      byEmail := map[];
      emailOf := map[];
    }

    /** `findOne({ email })` */
    function FindByEmail(email: string): (r: Option<User>)
      reads this
      ensures r.Some? <==> email in byEmail
      ensures r.Some? ==> r.value == byEmail[email]
    {
      if email in byEmail then Some(byEmail[email]) else None
    }

    /** `findById(id)` */
    function FindById(id: UserId): (r: Option<User>)
      reads this
      ensures Valid() ==> (r.Some? <==> id in emailOf)
      ensures r.Some? ==> id in emailOf && emailOf[id] in byEmail && r.value == byEmail[emailOf[id]]
      ensures Valid() && r.Some? ==> r.value.id == id && Conforms(r.value)
    {
      if id in emailOf && emailOf[id] in byEmail then Some(byEmail[emailOf[id]]) else None
    }

    /** Inserting a new record; a taken email or id is a duplicate-key
        error and changes nothing. */
    method Insert(u: User) returns (fault: Option<Fault>)
      requires Valid() && Conforms(u)
      modifies this
      ensures Valid()
      ensures u.email in old(byEmail) || u.id in old(emailOf) ==>
        fault == Some(DriverError(DuplicateKeyMessage)) && byEmail == old(byEmail) && emailOf == old(emailOf)
      ensures u.email !in old(byEmail) && u.id !in old(emailOf) ==>
        fault.None? && byEmail == old(byEmail)[u.email := u] && emailOf == old(emailOf)[u.id := u.email]
    {
      if u.email in byEmail || u.id in emailOf {
        fault := Some(DriverError(DuplicateKeyMessage));
      } else {
        byEmail := byEmail[u.email := u];
        emailOf := emailOf[u.id := u.email];
        fault := None;
      }
    }

    /** Writing an existing record back (found by id). A record that is
        gone, or an email taken by another user, is an error and changes
        nothing. */
    method Update(u: User) returns (fault: Option<Fault>)
      requires Valid() && Conforms(u)
      modifies this
      ensures Valid()
      ensures u.id !in old(emailOf) ==>
        fault == Some(DriverError(DocumentNotFoundMessage)) && byEmail == old(byEmail) && emailOf == old(emailOf)
      ensures u.id in old(emailOf) && u.email != old(emailOf)[u.id] && u.email in old(byEmail) ==>
        fault == Some(DriverError(DuplicateKeyMessage)) && byEmail == old(byEmail) && emailOf == old(emailOf)
      ensures u.id in old(emailOf) && u.email == old(emailOf)[u.id] ==>
        fault.None? && byEmail == old(byEmail)[u.email := u] && emailOf == old(emailOf)
      ensures u.id in old(emailOf) && u.email !in old(byEmail) ==>
        fault.None? && byEmail == (old(byEmail) - {old(emailOf)[u.id]})[u.email := u]
        && emailOf == old(emailOf)[u.id := u.email]
    {
      if u.id !in emailOf {
        fault := Some(DriverError(DocumentNotFoundMessage));
      } else {
        var previous := emailOf[u.id];
        if u.email != previous && u.email in byEmail {
          fault := Some(DriverError(DuplicateKeyMessage));
        } else {
          if u.email == previous {
            MapReplaceKey(byEmail, previous, u);
          }
          byEmail := (byEmail - {previous})[u.email := u];
          emailOf := emailOf[u.id := u.email];
          fault := None;
          assert u.email == previous ==> emailOf == old(emailOf);
        }
      }
    }
  }

  /** A user document in memory: what `new UserModel({...})` builds or a
      query returns, updated field by field and then saved. */
  class UserDocument {
    var id: UserId
    var email: string
    /** absent when the query did not select it */
    var password: Option<Password>
    /** Mongoose's dirty flag for the password path */
    var passwordModified: bool
    var firstName: string
    var lastName: string
    var dateOfBirth: Option<int>
    var address: Option<Address>
    var creditScore: int
    var creditHistory: seq<CreditHistory>
    var isNew: bool

    /** `new UserModel({ email, password, firstName, lastName, dateOfBirth,
        address })`: setters normalise the email and trim the names, the
        score and history take their defaults, and the plaintext password
        counts as modified. Fields outside the schema are dropped. */
    constructor Create(id: UserId, email: string, password: string, firstName: string, lastName: string,
                       dateOfBirth: Option<int>, address: Option<Address>)
      ensures this.id == id && this.email == NormalizeEmail(email)
      ensures this.password == Some(Clear(password)) && passwordModified
      ensures this.firstName == Trim(firstName) && this.lastName == Trim(lastName)
      ensures this.dateOfBirth == dateOfBirth && this.address == address
      ensures creditScore == DefaultCreditScore && creditHistory == [] && isNew
    {
      this.id := id;
      this.email := NormalizeEmail(email);
      this.password := Some(Clear(password));
      passwordModified := true;
      this.firstName := Trim(firstName);
      this.lastName := Trim(lastName);
      this.dateOfBirth := dateOfBirth;
      this.address := address;
      creditScore := DefaultCreditScore;
      creditHistory := [];
      isNew := true;
    }

    /** A document read from the store, with or without its password. */
    constructor Load(u: User, withPassword: bool)
      ensures Data() == WithoutPassword(u)
      ensures password == (if withPassword then Some(u.password) else None)
      ensures !passwordModified && !isNew
    {
      id := u.id;
      email := u.email;
      password := if withPassword then Some(u.password) else None;
      passwordModified := false;
      firstName := u.firstName;
      lastName := u.lastName;
      dateOfBirth := u.dateOfBirth;
      address := u.address;
      creditScore := u.creditScore;
      creditHistory := u.creditHistory;
      isNew := false;
    }

    /** Every field but the password and the bookkeeping flags. */
    function Data(): PublicUser
      reads this
    {
      PublicUser(id, email, firstName, lastName, dateOfBirth, address, creditScore, creditHistory)
    }

    function Missing(): seq<string>
      reads this
    {
      MissingPaths(email, password, isNew, firstName, lastName)
    }

    /** The record a save writes; a password that was not loaded keeps the
        stored one. */
    function Record(stored: Password): User
      reads this
    {
      User(id, email, password.GetOr(stored), firstName, lastName, dateOfBirth, address, creditScore, creditHistory)
    }

    /** The pre-save hook, run on this document. */
    method RunPreSaveHook(salt: nat)
      modifies this`password
      ensures password == PreSaveHook(old(password), passwordModified, salt)
    {
      if passwordModified && password.Some? && !IsEmpty(password.value) {
        password := Some(Hash(password.value, salt));
      }
    }

    /** `save()`: validation first, then the pre-save hook, then an insert
        (new document) or a write-back by id (loaded document). */
    method Save(store: UserStore, salt: nat) returns (fault: Option<Fault>)
      requires store.Valid()
      modifies this, store
      ensures store.Valid()
      ensures Data() == old(Data())
      ensures old(Missing()) != [] ==>
        && fault == Some(ValidationRejected(ValidationFailedMessage("User", old(Missing()))))
        && password == old(password) && isNew == old(isNew) && passwordModified == old(passwordModified)
        && store.byEmail == old(store.byEmail) && store.emailOf == old(store.emailOf)
      ensures old(Missing()) == [] ==> password == PreSaveHook(old(password), old(passwordModified), salt)
      ensures old(Missing()) == [] && old(isNew) ==>
        if old(email) in old(store.byEmail) || old(id) in old(store.emailOf) then
          && fault == Some(DriverError(DuplicateKeyMessage))
          && store.byEmail == old(store.byEmail) && store.emailOf == old(store.emailOf)
          && isNew && passwordModified == old(passwordModified)
        else
          && fault.None? && password.Some? && !isNew && !passwordModified
          && store.byEmail == old(store.byEmail)[old(email) := Record(password.value)]
          && store.emailOf == old(store.emailOf)[old(id) := old(email)]
      ensures old(Missing()) == [] && !old(isNew) ==>
        && !isNew && passwordModified == old(passwordModified)
        && (old(id) !in old(store.emailOf) ==>
              && fault == Some(DriverError(DocumentNotFoundMessage))
              && store.byEmail == old(store.byEmail) && store.emailOf == old(store.emailOf))
        && (old(id) in old(store.emailOf) && old(email) == old(store.emailOf)[old(id)] ==>
              && fault.None?
              && store.byEmail == old(store.byEmail)[old(email) := Record(old(store.byEmail)[old(email)].password)]
              && store.emailOf == old(store.emailOf))
        && (old(id) in old(store.emailOf) && old(email) != old(store.emailOf)[old(id)] && old(email) in old(store.byEmail) ==>
              && fault == Some(DriverError(DuplicateKeyMessage))
              && store.byEmail == old(store.byEmail) && store.emailOf == old(store.emailOf))
        && (old(id) in old(store.emailOf) && old(email) !in old(store.byEmail) ==>
              && fault.None?
              && store.byEmail == (old(store.byEmail) - {old(store.emailOf)[old(id)]})
                                    [old(email) := Record(old(store.byEmail)[old(store.emailOf)[old(id)]].password)]
              && store.emailOf == old(store.emailOf)[old(id) := old(email)])
    {
      var missing := Missing();
      if missing != [] {
        return Some(ValidationRejected(ValidationFailedMessage("User", missing)));
      }
      RunPreSaveHook(salt);
      if isNew {
        fault := store.Insert(Record(Clear("")));
        if fault.None? {
          isNew := false;
          passwordModified := false;
        }
      } else {
        var stored := store.FindById(id);
        if stored.None? {
          fault := Some(DriverError(DocumentNotFoundMessage));
        } else {
          fault := store.Update(Record(stored.value.password));
        }
      }
    }
  }
}
