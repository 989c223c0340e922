/**
  createAuthenticationTokenHandler (cmd/api/tokens.go) once the JSON body
  is decoded: validate, look the account up by email, verify the password,
  and issue an authentication token valid for 24 hours. An unknown email
  and a wrong password get the same response, and the account is never
  written.

  `CreateAuthenticationTokenAsWritten` looks the account up with the
  GetByEmail stub, as the handler does; `CreateAuthenticationToken` with
  a lookup that finds the stored account. Both continue with `AfterLookup`.
*/
module TokensHandler {

  import opened Wrappers
  import opened Primitives
  import opened Users
  import opened Tokens
  import opened Responses

  datatype LoginInput = LoginInput(email: Bytes, password: Bytes)

  /** The lifetime of an authentication token. */
  const AuthenticationTtl: Time := 24 * Hour

  /** The errors ValidateEmail and ValidatePasswordPlaintext record on a fresh validator. */
  function LoginErrors(input: LoginInput): map<string, string>
  {
    ValidatePasswordPlaintext(ValidateEmail(map[], input.email), input.password)
  }

  /**
    The handler from the lookup's answer on. `found` and `lookupErr` are
    the pair GetByEmail returns (a user pointer, absent when nil, and an
    error). A nil user with no error is dereferenced by the password
    check: the panic is recovered by the router's recoverPanic middleware
    (cmd/api/routes.go) and answered with a server error.
  */
  method AfterLookup(tokens: TokenModel, input: LoginInput, found: Option<UserDoc>, lookupErr: Option<Error>,
                     now: Time, random: Result<Bytes, Error>, insertFault: Option<Error>)
    returns (res: Response)
    requires random.Success? ==> |random.value| == RandomBytes
    requires insertFault.Some? ==> DriverError(insertFault.value)
    modifies tokens
    ensures lookupErr.Some? ==>
      res == (if lookupErr.value == RecordNotFound then InvalidCredentials else ServerError)
      && tokens.docs == old(tokens.docs)
    ensures lookupErr.None? && found.None? ==> res == ServerError && tokens.docs == old(tokens.docs)
    ensures lookupErr.None? && found.Some? ==>
      var account := found.value;
      match PasswordMatches(account.passwordHash, input.password)
      case Failure(_) => res == ServerError && tokens.docs == old(tokens.docs)
      case Success(false) => res == InvalidCredentials && tokens.docs == old(tokens.docs)
      case Success(true) =>
        if random.Failure? then res == ServerError && tokens.docs == old(tokens.docs)
        else
          && res.CreatedAuthenticationToken?
          && exists t :: IsGenerated(t, account.id, AuthenticationTtl, ScopeAuthentication, now, random.value)
               && res.token == ToJson(t)
               && tokens.docs == if insertFault.None? then old(tokens.docs) + [Persisted(t)] else old(tokens.docs)
  {
    if lookupErr.Some? {
      if lookupErr.value == RecordNotFound {
        return InvalidCredentials;
      }
      return ServerError;
    }
    if found.None? {
      return ServerError;
    }
    var account := found.value;

    var matches := PasswordMatches(account.passwordHash, input.password);
    if matches.Failure? {
      return ServerError;
    }
    if !matches.value {
      return InvalidCredentials;
    }

    var token := tokens.New(account.id, AuthenticationTtl, ScopeAuthentication, now, random, insertFault);
    if token.Failure? {
      return ServerError;
    }
    return CreatedAuthenticationToken(ToJson(token.value));
  }

  /**
    createAuthenticationTokenHandler as written: the account is looked up
    with UserModel.GetByEmail, which answers with no user and no error, so
    every login that passes validation ends in the recovered nil-dereference
    panic and a server error, and no token is ever issued.
  */
  method CreateAuthenticationTokenAsWritten(users: UserModel, tokens: TokenModel, input: LoginInput, now: Time,
                                            random: Result<Bytes, Error>, insertFault: Option<Error>)
    returns (res: Response)
    requires random.Success? ==> |random.value| == RandomBytes
    requires insertFault.Some? ==> DriverError(insertFault.value)
    modifies tokens
    ensures LoginErrors(input) != map[] ==> res == FailedValidation(LoginErrors(input))
    ensures LoginErrors(input) == map[] ==> res == ServerError
    ensures tokens.docs == old(tokens.docs)
  {
    var errors := LoginErrors(input);
    if errors != map[] {
      return FailedValidation(errors);
    }

    var user, err := users.GetByEmail(input.email);
    res := AfterLookup(tokens, input, user, err, now, random, insertFault);
  }

  /**
    createAuthenticationTokenHandler with a lookup that finds the stored
    account. `lookupFault` is a failure of the account lookup; `random` is
    what the randomness source gives for the token; `insertFault` is a
    failure of the token's write.
  */
  method CreateAuthenticationToken(users: UserModel, tokens: TokenModel, input: LoginInput, now: Time,
                                   lookupFault: Option<Error>, random: Result<Bytes, Error>,
                                   insertFault: Option<Error>)
    returns (res: Response)
    requires users.Valid()
    requires lookupFault.Some? ==> DriverError(lookupFault.value)
    requires random.Success? ==> |random.value| == RandomBytes
    requires insertFault.Some? ==> DriverError(insertFault.value)
    modifies tokens
    ensures LoginErrors(input) != map[] ==>
      res == FailedValidation(LoginErrors(input)) && tokens.docs == old(tokens.docs)
    ensures LoginErrors(input) == map[] && lookupFault.Some? ==>
      res == ServerError && tokens.docs == old(tokens.docs)
    ensures LoginErrors(input) == map[] && lookupFault.None? && !EmailTaken(users.docs, input.email) ==>
      res == InvalidCredentials && tokens.docs == old(tokens.docs)
    ensures LoginErrors(input) == map[] && lookupFault.None? && EmailTaken(users.docs, input.email) ==>
      var account := FindByEmail(users.docs, input.email).value;
      match PasswordMatches(account.passwordHash, input.password)
      case Failure(_) => res == ServerError && tokens.docs == old(tokens.docs)
      case Success(false) => res == InvalidCredentials && tokens.docs == old(tokens.docs)
      case Success(true) =>
        if random.Failure? then res == ServerError && tokens.docs == old(tokens.docs)
        else
          && res.CreatedAuthenticationToken?
          && exists t :: IsGenerated(t, account.id, AuthenticationTtl, ScopeAuthentication, now, random.value)
               && res.token == ToJson(t)
               && tokens.docs == if insertFault.None? then old(tokens.docs) + [Persisted(t)] else old(tokens.docs)
  {
    var errors := LoginErrors(input);
    if errors != map[] {
      return FailedValidation(errors);
    }

    var user := users.LookupByEmail(input.email, lookupFault);
    var found := if user.Success? then Some(user.value) else None;
    var err := if user.Failure? then Some(user.error) else None;
    res := AfterLookup(tokens, input, found, err, now, random, insertFault);
  }
}
