/**
  The responses the handlers of package `main` send, without the HTTP
  framing: one constructor per response helper they call.
*/
module Responses {

  import Users
  import Tokens

  datatype Response =
    | FailedValidation(errors: map<string, string>)  // failedValidationResponse: 422 with the field errors
    | InvalidCredentials                             // invalidCredentialsResponse: 401, one fixed message
    | ServerError                                    // serverErrorResponse: 500, no detail
    | CreatedUser(user: Users.UserDoc)               // 201 Created, envelope{"user": user}
    | CreatedAuthenticationToken(token: Tokens.TokenJson)  // 201 Created, envelope{"authentication_token": token}
}
