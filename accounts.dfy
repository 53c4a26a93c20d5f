/**
 * The user and token records the account handlers pass around, and the
 * calls those handlers make on the user, permission and token repositories.
 * internal/data/users.go, tokens.go, permissions.go and the password hashing
 * are not part of this model: their results are parameters of the flows.
 */
module Accounts {

  datatype Scope = Activation | Authentication

  /** A user as the handlers see it; the password is the hash `Password.Set` produced. */
  datatype User = User(id: int, name: string, email: string, passwordHash: string, activated: bool)

  datatype Token = Token(plaintext: string, userId: int, expiry: int, scope: Scope)

  /** One call of a handler on a collaborator, with its arguments. */
  datatype AccountCall =
    | SetPassword(plaintext: string)
    | InsertUser(user: User)
    | AddForUser(userId: int, code: string)
    | NewToken(userId: int, ttl: int, scope: Scope)
    | GetForToken(scope: Scope, plaintext: string)
    | UpdateUser(user: User)
    | DeleteAllForUser(scope: Scope, userId: int)
    | GetByEmail(email: string)
    | PasswordMatches(user: User, plaintext: string)
}
