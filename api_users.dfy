/**
 * cmd/api/users.go: user registration and activation as decision functions
 * over the outcomes of their collaborators. `ValidateUser`,
 * `ValidateTokenPlaintext`, the repositories and the password hashing are not
 * part of this model; the welcome mail sent in the background is left out.
 */
module UserHandlers {
  import opened Wrappers
  import opened Validator
  import opened Models
  import opened Durations
  import opened Accounts
  import opened Responses

  datatype Registration = Registration(name: string, email: string, password: string)

  const ActivationTtl: int := 3 * 24 * Hour
  const DuplicateEmailMessage: string := "a user with this email already exists"
  const InvalidTokenMessage: string := "invalid or expired activation token"

  /** The user the handler builds: not activated, with the hash `Password.Set` produced. */
  function NewUser(p: Registration, hash: string): (u: User)
    ensures !u.activated && u.name == p.name && u.email == p.email && u.passwordHash == hash
  {
    User(0, p.name, p.email, hash, false)
  }

  /**
   * `handleRegisterUser`. `hashed` is the outcome of `Password.Set` (`None`
   * on error), `validateUser` the errors `ValidateUser` records in a fresh
   * validator, `inserted` the id `Users.Insert` assigns, `added` the error of
   * `Permissions.AddForUser` and `issued` the outcome of `Tokens.New`.
   */
  function Register(decoded: Result<Registration, string>, hashed: Option<string>, validateUser: User -> Errors,
                    inserted: Result<int, ModelError>, added: Option<ModelError>,
                    issued: Result<Token, ModelError>, writeOk: bool): (r: Run<AccountCall>)
    ensures decoded.Failure? ==> r == Run([], [Error(BadRequest(decoded.error))])
    ensures decoded.Success? ==> r.calls != [] && r.calls[0] == SetPassword(decoded.value.password)
    ensures decoded.Success? && hashed.None? ==> r == Run([SetPassword(decoded.value.password)], [Error(ServerError)])
    ensures decoded.Success? && hashed.Some? && !Valid(validateUser(NewUser(decoded.value, hashed.value))) ==>
      r == Run([SetPassword(decoded.value.password)],
               [Error(FailedValidation(validateUser(NewUser(decoded.value, hashed.value))))])
    ensures forall c :: c in r.calls && c.InsertUser? ==> !c.user.activated && Valid(validateUser(c.user))
    ensures |r.calls| >= 2 <==>
      decoded.Success? && hashed.Some? && Valid(validateUser(NewUser(decoded.value, hashed.value)))
    ensures |r.calls| >= 2 ==> r.calls[1] == InsertUser(NewUser(decoded.value, hashed.value))
    ensures |r.calls| == 2 && inserted == Failure(ErrDuplicateEmail) ==>
      r.replies == [Error(FailedValidation(map["email" := DuplicateEmailMessage]))]
    ensures |r.calls| == 2 && inserted.Failure? && inserted.error != ErrDuplicateEmail ==>
      r.replies == [Error(ServerError)]
    ensures |r.calls| == 3 ==> r.replies == [Error(ServerError)]
    ensures |r.calls| == 4 && issued.Failure? ==> r.replies == [Error(ServerError)]
    ensures |r.calls| == 4 <==>
      decoded.Success? && hashed.Some? && Valid(validateUser(NewUser(decoded.value, hashed.value)))
      && inserted.Success? && added.None?
    ensures |r.calls| == 4 ==>
      var id := inserted.value;
      && r.calls[2] == AddForUser(id, "items:read")
      && r.calls[3] == NewToken(id, ActivationTtl, Activation)
    ensures |r.calls| == 4 && issued.Success? ==>
      r.replies == Answer(Json(201, map["user" := UserValue(NewUser(decoded.value, hashed.value).(id := inserted.value))], map[]), writeOk)
  {
    if decoded.Failure? then Run([], [Error(BadRequest(decoded.error))])
    else
      var setCall := SetPassword(decoded.value.password);
      if hashed.None? then Run([setCall], [Error(ServerError)])
      else
        var user := NewUser(decoded.value, hashed.value);
        var v := validateUser(user);
        if !Valid(v) then Run([setCall], [Error(FailedValidation(v))])
        else if inserted.Failure? then
          Run([setCall, InsertUser(user)],
              [Error(if inserted.error == ErrDuplicateEmail
                     then FailedValidation(AddError(v, "email", DuplicateEmailMessage))
                     else ServerError)])
        else
          var id := inserted.value;
          var calls := [setCall, InsertUser(user), AddForUser(id, "items:read")];
          if added.Some? then Run(calls, [Error(ServerError)])
          else
            var calls := calls + [NewToken(id, ActivationTtl, Activation)];
            if issued.Failure? then Run(calls, [Error(ServerError)])
            else Run(calls, Answer(Json(201, map["user" := UserValue(user.(id := id))], map[]), writeOk))
  }

  /**
   * The password is hashed before it is validated: when hashing fails the
   * answer is 500 whatever the validator would have said.
   */
  lemma HashingPrecedesValidation(decoded: Result<Registration, string>, validateA: User -> Errors, validateB: User -> Errors,
                                  inserted: Result<int, ModelError>, added: Option<ModelError>,
                                  issued: Result<Token, ModelError>, writeOk: bool)
    requires decoded.Success?
    ensures Register(decoded, None, validateA, inserted, added, issued, writeOk)
         == Register(decoded, None, validateB, inserted, added, issued, writeOk)
    ensures Register(decoded, None, validateA, inserted, added, issued, writeOk).replies == [Error(ServerError)]
  {
  }

  /** Every failure after the insert is a server error, and only a complete run writes the user envelope. */
  lemma RegisterLateFailures(decoded: Result<Registration, string>, hashed: Option<string>, validateUser: User -> Errors,
                             inserted: Result<int, ModelError>, added: Option<ModelError>,
                             issued: Result<Token, ModelError>, writeOk: bool)
    requires |Register(decoded, hashed, validateUser, inserted, added, issued, writeOk).calls| >= 3
    ensures added.Some? || issued.Failure? ==>
      Register(decoded, hashed, validateUser, inserted, added, issued, writeOk).replies == [Error(ServerError)]
    ensures forall reply :: reply in Register(decoded, hashed, validateUser, inserted, added, issued, writeOk).replies ==>
      reply.Json? ==> added.None? && issued.Success? && reply.status == 201
  {
  }

  /**
   * `handleActivateUser`, as written. `tokenErrors` are the errors
   * `ValidateTokenPlaintext` records in a fresh validator, `found` the
   * outcome of `Users.GetForToken`, `updated` and `cleared` the errors of
   * `Users.Update` and `Tokens.DeleteAllForUser`.
   */
  function Activate(decoded: Result<string, string>, tokenErrors: Errors, found: Result<User, ModelError>,
                    updated: Option<ModelError>, cleared: Option<ModelError>, writeOk: bool): (r: Run<AccountCall>)
    ensures decoded.Failure? ==> r == Run([], [Error(BadRequest(decoded.error))])
    ensures decoded.Success? && !Valid(tokenErrors) ==> r == Run([], [Error(FailedValidation(tokenErrors))])
    ensures decoded.Success? && Valid(tokenErrors) && found == Failure(ErrNoRecord) ==>
      r == Run([GetForToken(Activation, decoded.value)], [Error(FailedValidation(map["token" := InvalidTokenMessage]))])
    ensures decoded.Success? && Valid(tokenErrors) && found.Failure? && found.error != ErrNoRecord ==>
      r == Run([GetForToken(Activation, decoded.value)], [Error(ServerError)])
    ensures forall c :: c in r.calls && c.UpdateUser? ==> found.Success? && c.user == found.value.(activated := true)
    ensures |r.calls| >= 2 <==> decoded.Success? && Valid(tokenErrors) && found.Success?
    ensures |r.calls| >= 2 ==> r.calls[..2] == [GetForToken(Activation, decoded.value), UpdateUser(found.value.(activated := true))]
    ensures |r.calls| >= 2 && updated == Some(ErrEditConflict) ==> r.replies == [Error(EditConflict)]
    ensures |r.calls| >= 2 && updated.Some? && updated.value != ErrEditConflict ==> r.replies == [Error(ServerError)]
    ensures |r.calls| == 3 <==> decoded.Success? && Valid(tokenErrors) && found.Success? && updated.None?
    ensures |r.calls| == 3 ==> r.calls[2] == DeleteAllForUser(Activation, found.value.id)
    ensures |r.calls| == 3 ==>
      var ok := Json(200, map["user" := UserValue(found.value.(activated := true))], map[]);
      r.replies == (if cleared.Some? then [Error(ServerError)] else []) + Answer(ok, writeOk)
  {
    if decoded.Failure? then Run([], [Error(BadRequest(decoded.error))])
    else if !Valid(tokenErrors) then Run([], [Error(FailedValidation(tokenErrors))])
    else
      var lookup := GetForToken(Activation, decoded.value);
      if found.Failure? then
        Run([lookup], [Error(if found.error == ErrNoRecord
                             then FailedValidation(AddError(tokenErrors, "token", InvalidTokenMessage))
                             else ServerError)])
      else
        var user := found.value.(activated := true);
        if updated.Some? then
          Run([lookup, UpdateUser(user)], [Error(if updated.value == ErrEditConflict then EditConflict else ServerError)])
        else
          var calls := [lookup, UpdateUser(user), DeleteAllForUser(Activation, user.id)];
          var ok := Json(200, map["user" := UserValue(user)], map[]);
          Run(calls, (if cleared.Some? then [Error(ServerError)] else []) + Answer(ok, writeOk))
  }

  /**
   * The missing `return` after the token clean-up fails: the client is sent
   * a server error and then, on the same response, the success envelope.
   */
  lemma ActivateAnswersTwice(token: string, user: User)
    ensures var r := Activate(Success(token), map[], Success(user), None, Some(ErrInternal), true);
      && |r.replies| == 2
      && r.replies[0] == Error(ServerError)
      && r.replies[1] == Json(200, map["user" := UserValue(user.(activated := true))], map[])
  {
  }

  /** `handleActivateUser` with the evidently intended `return` after a failed clean-up. */
  function ActivateIntended(decoded: Result<string, string>, tokenErrors: Errors, found: Result<User, ModelError>,
                            updated: Option<ModelError>, cleared: Option<ModelError>, writeOk: bool): (r: Run<AccountCall>)
    ensures r.calls == Activate(decoded, tokenErrors, found, updated, cleared, writeOk).calls
    ensures cleared.None? ==> r == Activate(decoded, tokenErrors, found, updated, cleared, writeOk)
  {
    var r := Activate(decoded, tokenErrors, found, updated, cleared, writeOk);
    if |r.calls| == 3 && cleared.Some? then Run(r.calls, [Error(ServerError)]) else r
  }

  /** With the intended flow a success envelope is never preceded by an error, and a run answers once when writes succeed. */
  lemma ActivateIntendedAnswersOnce(decoded: Result<string, string>, tokenErrors: Errors, found: Result<User, ModelError>,
                                    updated: Option<ModelError>, cleared: Option<ModelError>)
    ensures |ActivateIntended(decoded, tokenErrors, found, updated, cleared, true).replies| == 1
    ensures var r := ActivateIntended(decoded, tokenErrors, found, updated, cleared, true);
      r.replies[0].Json? ==> cleared.None? && r.replies[0].status == 200
  {
  }
}
