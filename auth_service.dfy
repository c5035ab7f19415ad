/** AuthService: registration, and the password-reset flow over the token
    table. The identity provider, the mail sender, the random token and the
    clock are parameters. */
module AuthService {
  import opened Common
  import opened Tables
  import opened Users
  import opened ResetTokens

  /** `plusHours(24)`, in seconds. */
  const ResetTokenLifetime: int := 24 * 60 * 60

  const ResetPath: string := "/reset-password?token="

  /** The link e-mailed to the user. */
  function ResetLink(frontendUrl: string, token: string): (link: string)
    ensures |link| == |frontendUrl| + |ResetPath| + |token|
  {
    frontendUrl + ResetPath + token
  }

  /** The token the reset page reads back from a link of this frontend:
      whatever follows the path and the `token=` parameter. */
  function TokenOfLink(frontendUrl: string, link: string): Option<string> {
    var prefix := frontendUrl + ResetPath;
    if StartsWith(link, prefix) then Some(link[|prefix|..]) else None
  }

  /** The link carries the token: reading it back gives the token sent. */
  lemma ResetLinkRoundTrip(frontendUrl: string, token: string)
    ensures TokenOfLink(frontendUrl, ResetLink(frontendUrl, token)) == Some(token)
  {
    var prefix := frontendUrl + ResetPath;
    assert ResetLink(frontendUrl, token) == prefix + token;
    assert (prefix + token)[..|prefix|] == prefix;
    assert (prefix + token)[|prefix|..] == token;
  }

  // --------------------------------------------------------------- registration

  datatype RegistrationRequest = RegistrationRequest(
    username: string, email: Option<string>, password: string, name: Option<string>, role: Role)

  datatype RegistrationResponse = RegistrationResponse(
    userId: Uuid, username: string, email: Option<string>, name: Option<string>, role: Role, message: string)

  const RegisteredMessage: string := "User registered successfully. You can now log in with your credentials."

  /** `registerUser`. `createKeycloakUser` is the identity provider: the new
      user's id, or the message of the exception it throws. */
  method RegisterUser(users: UserTable, request: RegistrationRequest,
                      createKeycloakUser: RegistrationRequest -> Result<Uuid, string>)
    returns (response: Result<RegistrationResponse, string>)
    requires users.Valid()
    modifies users
    ensures users.Valid()
    ensures createKeycloakUser(request).Failure? ==>
              && response == Failure("Failed to register user: " + createKeycloakUser(request).error)
              && users.rows == old(users.rows)
    ensures createKeycloakUser(request).Success? ==>
              var id := createKeycloakUser(request).value;
              && users.rows == Upserted(old(users.rows), User(id, request.name, request.email, request.role))
              && FindUserById(users.rows, id) == Some(User(id, request.name, request.email, request.role))
              && response == Success(RegistrationResponse(id, request.username, request.email, request.name, request.role, RegisteredMessage))
  {
    var created := createKeycloakUser(request);
    if created.Failure? {
      return Failure("Failed to register user: " + created.error);
    }
    var userId := created.value;
    var user := User(userId, request.name, request.email, request.role);
    UpsertedSpec(users.rows, user);
    users.Save(user);
    response := Success(RegistrationResponse(userId, request.username, request.email, request.name, request.role, RegisteredMessage));
  }

  // ------------------------------------------------------------ reset requests

  /** The token table after `sendPasswordResetEmail(email)` at time `now`,
      where `freshToken` is the random UUID text drawn. Nothing changes when
      no single user has the address; the exception of an ambiguous lookup is
      caught like every other. */
  function ResetRequested(tokens: seq<ResetToken>, users: seq<User>, email: string, now: int, freshToken: string): seq<ResetToken> {
    if FindUserByEmail(users, email).Found?
    then WithoutEmail(tokens, email) + [ResetToken(freshToken, email, now + ResetTokenLifetime, false)]
    else tokens
  }

  /** After a request for a known address, that address has exactly one
      token: the fresh, unused one expiring a day later. Tokens of other
      addresses are untouched, and token strings stay unique. */
  lemma {:induction false} ResetRequestReplacesTokens(tokens: seq<ResetToken>, users: seq<User>, email: string, now: int, freshToken: string)
    requires FindUserByEmail(users, email).Found?
    ensures var r := ResetRequested(tokens, users, email, now, freshToken);
            && CountWhere(r, ForEmail(email)) == 1
            && (forall i :: 0 <= i < |r| && r[i].email == email ==> r[i] == ResetToken(freshToken, email, now + ResetTokenLifetime, false))
            && (forall t :: t in tokens && t.email != email ==> t in r)
            && (forall t :: t in r && t.email != email ==> t in tokens)
    ensures (UniqueTokens(tokens) && forall i :: 0 <= i < |tokens| ==> tokens[i].token != freshToken)
              ==> UniqueTokens(ResetRequested(tokens, users, email, now, freshToken))
  {
    var kept := WithoutEmail(tokens, email);
    var issuedToken := ResetToken(freshToken, email, now + ResetTokenLifetime, false);
    var r := kept + [issuedToken];
    assert forall i :: 0 <= i < |kept| ==> kept[i] in kept;
    assert CountWhere(kept, ForEmail(email)) == 0;
    CountWhereAppend(kept, issuedToken, ForEmail(email));
    forall t | t in tokens && t.email != email ensures t in r {
      var i :| 0 <= i < |tokens| && tokens[i] == t;
    }
    if UniqueTokens(tokens) && forall i :: 0 <= i < |tokens| ==> tokens[i].token != freshToken {
      forall i | 0 <= i < |kept| ensures kept[i].token != freshToken {
        assert kept[i] in tokens;
      }
    }
  }

  /** For an address with no (single) user, the token table is unchanged. */
  lemma UnknownEmailChangesNothing(tokens: seq<ResetToken>, users: seq<User>, email: string, now: int, freshToken: string)
    requires forall i :: 0 <= i < |users| ==> users[i].email != Some(email)
    ensures ResetRequested(tokens, users, email, now, freshToken) == tokens
  {
  }

  /** What is handed to the mail sender. */
  datatype MailRequest = MailRequest(to: string, resetLink: string, userName: Option<string>)

  /** `sendPasswordResetEmail(email)`. It never fails: a failure of the mail
      sender is caught after the tokens are written, so it has no effect on
      the table or the caller. */
  method SendPasswordResetEmail(users: UserTable, tokens: ResetTokenTable, email: string, now: int,
                                freshToken: string, frontendUrl: string)
    returns (mail: Option<MailRequest>)
    requires tokens.Valid()
    requires forall i :: 0 <= i < |tokens.rows| ==> tokens.rows[i].token != freshToken
    modifies tokens
    ensures tokens.Valid()
    ensures tokens.rows == ResetRequested(old(tokens.rows), users.rows, email, now, freshToken)
    ensures mail.Some? <==> FindUserByEmail(users.rows, email).Found?
    ensures mail.Some? ==>
              mail.value == MailRequest(email, ResetLink(frontendUrl, freshToken), users.rows[FindUserByEmail(users.rows, email).index].name)
  {
    var found := FindUserByEmail(users.rows, email);
    if !found.Found? {
      return None;
    }
    var user := users.rows[found.index];
    ResetRequestReplacesTokens(tokens.rows, users.rows, email, now, freshToken);
    tokens.DeleteByEmail(email);
    assert forall i :: 0 <= i < |tokens.rows| ==> tokens.rows[i] in old(tokens.rows);
    var resetToken := ResetToken(freshToken, email, now + ResetTokenLifetime, false);
    tokens.Insert(resetToken);
    var resetLink := ResetLink(frontendUrl, freshToken);
    mail := Some(MailRequest(email, resetLink, user.name));
  }

  // -------------------------------------------------------------- resetting

  datatype ResetError =
    | InvalidToken
    | TokenLookupFailed       // several rows hold the token: the query throws
    | TokenExpired
    | TokenAlreadyUsed
    | PasswordUpdateFailed    // the identity provider threw; the transaction rolls back

  /** The message of the exception thrown, where the service writes it; the
      other two come from the persistence layer and the identity provider. */
  function ResetErrorMessage(e: ResetError): Option<string> {
    match e
    case InvalidToken => Some("Invalid or expired reset token")
    case TokenExpired => Some("Reset token has expired")
    case TokenAlreadyUsed => Some("Reset token has already been used")
    case TokenLookupFailed => None
    case PasswordUpdateFailed => None
  }

  datatype ResetResult = PasswordReset | ResetFailed(error: ResetError)

  /** `resetPassword(token, newPassword)` at time `now`. `updatePassword` is
      the identity provider's password update for an address: `false` where
      it throws. */
  function ResetSpec(rows: seq<ResetToken>, token: string, newPassword: string, now: int,
                     updatePassword: (string, string) -> bool): (r: (ResetResult, seq<ResetToken>))
    ensures r.0.ResetFailed? ==> r.1 == rows
    ensures FindByToken(rows, token).Missing? ==> r.0 == ResetFailed(InvalidToken)
    ensures FindByToken(rows, token).NonUnique? ==> r.0 == ResetFailed(TokenLookupFailed)
    ensures FindByToken(rows, token).Found? ==>
              var t := rows[FindByToken(rows, token).index];
              && (ExpiredAt(t, now) ==> r.0 == ResetFailed(TokenExpired))
              && (!ExpiredAt(t, now) && t.used ==> r.0 == ResetFailed(TokenAlreadyUsed))
              && ((!ExpiredAt(t, now) && !t.used && !updatePassword(t.email, newPassword))
                    ==> r.0 == ResetFailed(PasswordUpdateFailed))
    ensures r.0 == PasswordReset <==>
              && FindByToken(rows, token).Found?
              && var t := rows[FindByToken(rows, token).index];
                 !ExpiredAt(t, now) && !t.used && updatePassword(t.email, newPassword)
    ensures r.0 == PasswordReset ==>
              var i := FindByToken(rows, token).index;
              r.1 == rows[i := rows[i].(used := true)]
  {
    match FindByToken(rows, token)
    case Missing => (ResetFailed(InvalidToken), rows)
    case NonUnique => (ResetFailed(TokenLookupFailed), rows)
    case Found(i) =>
      var resetToken := rows[i];
      if ExpiredAt(resetToken, now) then (ResetFailed(TokenExpired), rows)
      else if resetToken.used then (ResetFailed(TokenAlreadyUsed), rows)
      else if !updatePassword(resetToken.email, newPassword) then (ResetFailed(PasswordUpdateFailed), rows)
      else (PasswordReset, rows[i := resetToken.(used := true)])
  }

  /** `resetPassword` on the token table. */
  method ResetPassword(tokens: ResetTokenTable, token: string, newPassword: string, now: int,
                       updatePassword: (string, string) -> bool)
    returns (result: ResetResult)
    requires tokens.Valid()
    modifies tokens
    ensures tokens.Valid()
    ensures (result, tokens.rows) == ResetSpec(old(tokens.rows), token, newPassword, now, updatePassword)
  {
    var found := FindByToken(tokens.rows, token);
    match found
    case Missing => result := ResetFailed(InvalidToken);
    case NonUnique => result := ResetFailed(TokenLookupFailed);
    case Found(i) =>
      var resetToken := tokens.rows[i];
      if ExpiredAt(resetToken, now) {
        result := ResetFailed(TokenExpired);
      } else if resetToken.used {
        result := ResetFailed(TokenAlreadyUsed);
      } else if !updatePassword(resetToken.email, newPassword) {
        result := ResetFailed(PasswordUpdateFailed);
      } else {
        tokens.MarkUsed(i);
        result := PasswordReset;
      }
  }

  /** A token works once: after a successful reset, any later reset with the
      same token fails, as already used while it has not expired. */
  lemma {:induction false} SecondResetFails(rows: seq<ResetToken>, token: string, now: int, newPassword: string,
                                            updatePassword: (string, string) -> bool,
                                            later: int, otherPassword: string, update2: (string, string) -> bool)
    requires ResetSpec(rows, token, newPassword, now, updatePassword).0 == PasswordReset
    ensures var after := ResetSpec(rows, token, newPassword, now, updatePassword).1;
            var again := ResetSpec(after, token, otherPassword, later, update2);
            && again.0.ResetFailed?
            && (again.0 == ResetFailed(TokenAlreadyUsed) || again.0 == ResetFailed(TokenExpired))
            && again.1 == after
  {
    var i := FindByToken(rows, token).index;
    FindUniqueUpdate(rows, i, rows[i].(used := true), HasToken(token));
  }

  /** After a request for a known address, the fresh token is the last row
      of the table, and the only one holding that string. */
  lemma IssuedTokenIsFound(tokens: seq<ResetToken>, users: seq<User>, email: string, now: int, freshToken: string)
    requires FindUserByEmail(users, email).Found?
    requires forall i :: 0 <= i < |tokens| ==> tokens[i].token != freshToken
    ensures var issued := ResetRequested(tokens, users, email, now, freshToken);
            && |issued| > 0
            && issued[|issued| - 1] == ResetToken(freshToken, email, now + ResetTokenLifetime, false)
            && FindByToken(issued, freshToken) == Found(|issued| - 1)
  {
    var kept := WithoutEmail(tokens, email);
    var issued := ResetRequested(tokens, users, email, now, freshToken);
    assert issued == kept + [ResetToken(freshToken, email, now + ResetTokenLifetime, false)];
    WithoutEmailKeepsAbsent(tokens, email, freshToken);
    var last := |issued| - 1;
    assert forall k :: 0 <= k < last ==> issued[k] == kept[k];
    FindUniqueSingle(issued, last, HasToken(freshToken));
  }

  /** The whole life of a token: after a request for a known address, the
      e-mailed token resets the password at any time up to its expiry, and
      only once. */
  lemma {:induction false} ResetLifecycle(tokens: seq<ResetToken>, users: seq<User>, email: string, now: int,
                                          freshToken: string, later: int, newPassword: string,
                                          updatePassword: (string, string) -> bool)
    requires FindUserByEmail(users, email).Found?
    requires forall i :: 0 <= i < |tokens| ==> tokens[i].token != freshToken
    requires now <= later <= now + ResetTokenLifetime
    requires updatePassword(email, newPassword)
    ensures var issued := ResetRequested(tokens, users, email, now, freshToken);
            var reset := ResetSpec(issued, freshToken, newPassword, later, updatePassword);
            && reset.0 == PasswordReset
            && ResetSpec(reset.1, freshToken, newPassword, later, updatePassword).0 == ResetFailed(TokenAlreadyUsed)
  {
    var issued := ResetRequested(tokens, users, email, now, freshToken);
    IssuedTokenIsFound(tokens, users, email, now, freshToken);
    SecondResetFails(issued, freshToken, later, newPassword, updatePassword, later, newPassword, updatePassword);
  }
}
