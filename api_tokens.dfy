/**
 * cmd/api/tokens.go: issuing an authentication token, as a decision function
 * over the outcomes of its collaborators. `ValidateEmail`,
 * `ValidatePasswordPlaintext`, the repositories and `Password.Matches` are
 * not part of this model.
 */
module TokenHandlers {
  import opened Wrappers
  import opened Validator
  import opened Models
  import opened Durations
  import opened Accounts
  import opened Responses

  datatype Credentials = Credentials(email: string, password: string)

  const AuthenticationTtl: int := 24 * Hour

  /**
   * `handleCreateAuthenticationToken`. `emailErrors` and `passwordErrors` are
   * what the two validators record, run one after the other on one
   * validator; `found` is the outcome of `Users.GetByEmail`, `matched` of
   * `Password.Matches` (`None` on error) and `issued` of `Tokens.New`.
   */
  function Login(decoded: Result<Credentials, string>, emailErrors: Errors, passwordErrors: Errors,
                 found: Result<User, ModelError>, matched: Option<bool>, issued: Result<Token, ModelError>,
                 writeOk: bool): (r: Run<AccountCall>)
    ensures decoded.Failure? ==> r == Run([], [Error(BadRequest(decoded.error))])
    ensures r.calls != [] <==> decoded.Success? && Valid(emailErrors) && Valid(passwordErrors)
    ensures decoded.Success? && r.calls == [] ==>
      r.replies == [Error(FailedValidation(Accumulate(emailErrors, passwordErrors)))]
    ensures r.calls != [] ==> r.calls[0] == GetByEmail(decoded.value.email)
    ensures r.calls != [] && found == Failure(ErrNoRecord) ==> r.replies == [Error(InvalidCredentials)]
    ensures r.calls != [] && found.Failure? && found.error != ErrNoRecord ==> r.replies == [Error(ServerError)]
    ensures |r.calls| >= 2 <==> r.calls != [] && found.Success?
    ensures |r.calls| >= 2 ==> r.calls[1] == PasswordMatches(found.value, decoded.value.password)
    ensures |r.calls| >= 2 && matched.None? ==> r.replies == [Error(ServerError)]
    ensures |r.calls| >= 2 && matched == Some(false) ==> r.replies == [Error(InvalidCredentials)]
    ensures |r.calls| == 3 <==> r.calls != [] && found.Success? && matched == Some(true)
    ensures |r.calls| == 3 ==> r.calls[2] == NewToken(found.value.id, AuthenticationTtl, Authentication)
    ensures |r.calls| == 3 && issued.Failure? ==> r.replies == [Error(ServerError)]
    ensures |r.calls| == 3 && issued.Success? ==>
      r.replies == Answer(Json(201, map["authentication_token" := TokenValue(issued.value)], map[]), writeOk)
  {
    if decoded.Failure? then Run([], [Error(BadRequest(decoded.error))])
    else
      var v := Accumulate(emailErrors, passwordErrors);
      if !Valid(v) then Run([], [Error(FailedValidation(v))])
      else
        var lookup := GetByEmail(decoded.value.email);
        if found.Failure? then
          Run([lookup], [Error(if found.error == ErrNoRecord then InvalidCredentials else ServerError)])
        else
          var check := PasswordMatches(found.value, decoded.value.password);
          if matched.None? then Run([lookup, check], [Error(ServerError)])
          else if !matched.value then Run([lookup, check], [Error(InvalidCredentials)])
          else
            var calls := [lookup, check, NewToken(found.value.id, AuthenticationTtl, Authentication)];
            if issued.Failure? then Run(calls, [Error(ServerError)])
            else Run(calls, Answer(Json(201, map["authentication_token" := TokenValue(issued.value)], map[]), writeOk))
  }

  /** A client cannot tell an unknown email from a wrong password: both runs send the same replies. */
  lemma UnknownEmailLikeWrongPassword(decoded: Result<Credentials, string>, emailErrors: Errors, passwordErrors: Errors,
                                      user: User, matched: Option<bool>, issued: Result<Token, ModelError>,
                                      issuedB: Result<Token, ModelError>, writeOk: bool, writeOkB: bool)
    ensures Login(decoded, emailErrors, passwordErrors, Failure(ErrNoRecord), matched, issued, writeOk).replies
         == Login(decoded, emailErrors, passwordErrors, Success(user), Some(false), issuedB, writeOkB).replies
  {
  }

  /** A failing password check is a server error, never a credentials error. */
  lemma MatchErrorIsServerError(decoded: Result<Credentials, string>, user: User, issued: Result<Token, ModelError>, writeOk: bool)
    requires decoded.Success?
    ensures Login(decoded, map[], map[], Success(user), None, issued, writeOk).replies == [Error(ServerError)]
    ensures Error(InvalidCredentials) !in Login(decoded, map[], map[], Success(user), None, issued, writeOk).replies
  {
  }
}
