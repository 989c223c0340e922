/**
  registerUserHandler (cmd/api/users.go) once the JSON body is decoded:
  check the confirmation, hash the password, validate, insert, and map each
  outcome to exactly one response. No token is issued in this flow.

  `RegisterUser` is the handler as written, over UserModel.Insert;
  `RegisterUserIntended` is the same handler over the insert its switch
  expects, which reports a duplicate email as ErrDuplicateEmail.
*/
module UsersHandler {

  import opened Wrappers
  import opened Primitives
  import opened Validator
  import opened Users
  import opened Responses

  datatype RegisterInput = RegisterInput(name: Bytes, email: Bytes, password: Bytes, confirmPassword: Bytes)

  const DuplicateEmailMessage: string := "a user with this email address already exists"

  /** The errors ValidateUser records on a fresh validator for this input. */
  function UserErrors(input: RegisterInput): map<string, string>
  {
    Apply(map[], UserRules(input.name, input.email, input.password))
  }

  /** The input gets past the confirmation, the codec and ValidateUser. */
  predicate ReachesInsert(input: RegisterInput, digest: Result<Bytes, Error>)
  {
    input.password == input.confirmPassword && digest.Success? && UserErrors(input) == map[]
  }

  /**
    The handler's switch on an Insert error, reached with an empty
    validator: ErrDuplicateEmail becomes a field error on "email", any other
    error a server error.
  */
  function InsertErrorResponse(err: Error): (r: Response)
  {
    if err == DuplicateEmail then FailedValidation(map["email" := DuplicateEmailMessage]) else ServerError
  }

  /** The document the handler writes: the input, the codec's digest, version 1, not activated. */
  function Registered(input: RegisterInput, passwordHash: Bytes, createdAt: Time, id: ObjectId): UserDoc
  {
    UserDoc(id, createdAt, input.name, input.email, input.password, 1, false, passwordHash)
  }

  /**
    The steps before the insert: the confirmation check, the new User, the
    codec and ValidateUser. Either the user to insert or the response that
    ends the request.
  */
  method PrepareUser(input: RegisterInput, digest: Result<Bytes, Error>) returns (r: Result<User, Response>)
    ensures r.Success? <==> ReachesInsert(input, digest)
    ensures input.password != input.confirmPassword ==>
      r == Failure(FailedValidation(map["confirmPassword" := "must match the password field"]))
    ensures input.password == input.confirmPassword && digest.Failure? ==> r == Failure(ServerError)
    ensures input.password == input.confirmPassword && digest.Success? && UserErrors(input) != map[] ==>
      r == Failure(FailedValidation(UserErrors(input)))
    ensures r.Success? ==>
      fresh(r.value) && r.value.Snapshot() == UserDoc(NilObjectId, 0, input.name, input.email, input.password, 0, false, digest.value)
  {
    if input.password != input.confirmPassword {
      var v := new Validator();
      v.AddError("confirmPassword", "must match the password field");
      return Failure(FailedValidation(v.errors));
    }

    var user := new User(input.name, input.email, false);

    var err := user.SetPassword(input.password, digest);
    if err.Some? {
      return Failure(ServerError);
    }

    var v := new Validator();
    ValidateUser(v, user);
    if !v.Valid() {
      return Failure(FailedValidation(v.errors));
    }
    return Success(user);
  }

  /**
    registerUserHandler as written. `digest` is the password codec's answer
    for the input password; `now` is the time of the insert; `fault` is how
    the datastore answers the write. Insert passes the email index's
    duplicate-key error on unchanged, and the switch turns it into a server
    error.
  */
  method RegisterUser(users: UserModel, input: RegisterInput, digest: Result<Bytes, Error>, now: Time, fault: StoreFault)
    returns (res: Response)
    requires users.Valid()
    requires fault.Fails? ==> DriverError(fault.error)
    modifies users
    ensures users.Valid()
    ensures input.password != input.confirmPassword ==>
      res == FailedValidation(map["confirmPassword" := "must match the password field"]) && users.docs == old(users.docs)
    ensures input.password == input.confirmPassword && digest.Failure? ==>
      res == ServerError && users.docs == old(users.docs)
    ensures input.password == input.confirmPassword && digest.Success? && UserErrors(input) != map[] ==>
      res == FailedValidation(UserErrors(input)) && users.docs == old(users.docs)
    ensures ReachesInsert(input, digest) && fault.Fails? ==>
      res == ServerError && users.docs == old(users.docs)
    ensures ReachesInsert(input, digest) && !fault.Fails? && EmailTaken(old(users.docs), input.email) ==>
      res == ServerError && users.docs == old(users.docs)
    ensures ReachesInsert(input, digest) && fault.OtherIdType? && !EmailTaken(old(users.docs), input.email) ==>
      res == ServerError && users.docs == old(users.docs) + [Registered(input, digest.value, now, old(users.nextId))]
    ensures res.CreatedUser? <==> ReachesInsert(input, digest) && fault.NoFault? && !EmailTaken(old(users.docs), input.email)
    ensures res.CreatedUser? ==>
      && res.user == Registered(input, digest.value, now, res.user.id)
      && users.docs == old(users.docs) + [res.user]
      && res.user.id != NilObjectId
      && (forall i :: 0 <= i < |old(users.docs)| ==> old(users.docs)[i].id != res.user.id)
  {
    var prepared := PrepareUser(input, digest);
    if prepared.Failure? {
      return prepared.error;
    }
    var user := prepared.value;

    var err := users.Insert(user, now, fault);
    if err.Some? {
      return InsertErrorResponse(err.value);
    }

    return CreatedUser(user.Snapshot());
  }

  /**
    registerUserHandler with the insert the switch expects: a duplicate
    email reaches it as ErrDuplicateEmail and is answered with the field
    error on "email".
  */
  method RegisterUserIntended(users: UserModel, input: RegisterInput, digest: Result<Bytes, Error>, now: Time, fault: StoreFault)
    returns (res: Response)
    requires users.Valid()
    requires fault.Fails? ==> DriverError(fault.error)
    modifies users
    ensures users.Valid()
    ensures input.password != input.confirmPassword ==>
      res == FailedValidation(map["confirmPassword" := "must match the password field"]) && users.docs == old(users.docs)
    ensures input.password == input.confirmPassword && digest.Failure? ==>
      res == ServerError && users.docs == old(users.docs)
    ensures input.password == input.confirmPassword && digest.Success? && UserErrors(input) != map[] ==>
      res == FailedValidation(UserErrors(input)) && users.docs == old(users.docs)
    ensures ReachesInsert(input, digest) && fault.Fails? ==>
      && res == (if fault.error == DuplicateKey(EmailIndex) then FailedValidation(map["email" := DuplicateEmailMessage]) else ServerError)
      && users.docs == old(users.docs)
    ensures ReachesInsert(input, digest) && !fault.Fails? && EmailTaken(old(users.docs), input.email) ==>
      res == FailedValidation(map["email" := DuplicateEmailMessage]) && users.docs == old(users.docs)
    ensures ReachesInsert(input, digest) && fault.OtherIdType? && !EmailTaken(old(users.docs), input.email) ==>
      res == ServerError && users.docs == old(users.docs) + [Registered(input, digest.value, now, old(users.nextId))]
    ensures res.CreatedUser? <==> ReachesInsert(input, digest) && fault.NoFault? && !EmailTaken(old(users.docs), input.email)
    ensures res.CreatedUser? ==>
      && res.user == Registered(input, digest.value, now, res.user.id)
      && users.docs == old(users.docs) + [res.user]
      && res.user.id != NilObjectId
      && (forall i :: 0 <= i < |old(users.docs)| ==> old(users.docs)[i].id != res.user.id)
  {
    var prepared := PrepareUser(input, digest);
    if prepared.Failure? {
      return prepared.error;
    }
    var user := prepared.value;

    var err := users.InsertDetectingDuplicateEmail(user, now, fault);
    if err.Some? {
      return InsertErrorResponse(err.value);
    }

    return CreatedUser(user.Snapshot());
  }

  /**
    Registering the same email address twice as written: the first attempt
    creates the account, the second is refused by the email index and
    answered with a server error, never with the field error on "email".
  */
  method RegisterSameEmailTwiceAsWritten(users: UserModel, input: RegisterInput, digest: Bytes, now: Time, later: Time)
    returns (first: Response, second: Response)
    requires users.Valid()
    requires ReachesInsert(input, Success(digest))
    requires !EmailTaken(users.docs, input.email)
    modifies users
    ensures first.CreatedUser? && first.user.email == input.email
    ensures second == ServerError
    ensures users.docs == old(users.docs) + [first.user]
  {
    first := RegisterUser(users, input, Success(digest), now, NoFault);
    assert users.docs[|users.docs| - 1] == first.user;
    second := RegisterUser(users, input, Success(digest), later, NoFault);
  }

  /**
    Registering the same email address twice with the intended insert: the
    first attempt creates the account, the second is refused with the field
    error on "email", and the collection holds one account for the address.
  */
  method RegisterSameEmailTwice(users: UserModel, input: RegisterInput, digest: Bytes, now: Time, later: Time)
    returns (first: Response, second: Response)
    requires users.Valid()
    requires ReachesInsert(input, Success(digest))
    requires !EmailTaken(users.docs, input.email)
    modifies users
    ensures first.CreatedUser? && first.user.email == input.email
    ensures second == FailedValidation(map["email" := DuplicateEmailMessage])
    ensures users.docs == old(users.docs) + [first.user]
  {
    first := RegisterUserIntended(users, input, Success(digest), now, NoFault);
    assert users.docs[|users.docs| - 1] == first.user;
    second := RegisterUserIntended(users, input, Success(digest), later, NoFault);
  }
}
