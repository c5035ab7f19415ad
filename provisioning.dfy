/** UserProvisioningFilter: on each request carrying an authenticated JWT,
    create the user row for the token's subject unless it already exists. */
module Provisioning {
  import opened Common
  import opened Users
  import opened Identity

  datatype Principal = JwtPrincipal(jwt: Jwt) | OtherPrincipal

  /** The security context's authentication for the request. */
  datatype Authentication = Authentication(authenticated: bool, principal: Principal)

  /** The request carries an authenticated JWT principal. */
  predicate HasJwt(auth: Option<Authentication>) {
    auth.Some? && auth.value.authenticated && auth.value.principal.JwtPrincipal?
  }

  /** The user row the filter builds for a new subject. */
  function NewUser(codec: UuidCodec, upper: string -> string, jwt: Jwt, subject: string): User {
    User(ResolveUserId(codec, subject), jwt.preferredUsername, jwt.email, ExtractRoleFromJwt(jwt, upper))
  }

  /** The user table after the filter has run, or `None` when an exception
      escapes it (a JWT without a subject makes `UUID.fromString(null)` throw
      NullPointerException, which is not the IllegalArgumentException caught). */
  function Provisioned(rows: seq<User>, auth: Option<Authentication>, codec: UuidCodec, upper: string -> string): Option<seq<User>> {
    if !HasJwt(auth) then Some(rows)
    else
      var jwt := auth.value.principal.jwt;
      match jwt.subject
      case None => None
      case Some(subject) =>
        if ExistsById(rows, ResolveUserId(codec, subject)) then Some(rows)
        else Some(rows + [NewUser(codec, upper, jwt, subject)])
  }

  /** Unauthenticated requests and non-JWT principals leave the table alone;
      so does a subject whose user already exists. */
  lemma ProvisionedUnchanged(rows: seq<User>, auth: Option<Authentication>, codec: UuidCodec, upper: string -> string)
    requires || !HasJwt(auth)
             || (auth.value.principal.jwt.subject.Some?
                 && ExistsById(rows, ResolveUserId(codec, auth.value.principal.jwt.subject.value)))
    ensures Provisioned(rows, auth, codec, upper) == Some(rows)
  {
  }

  /** For a subject with no user, exactly one row is added: the resolved id
      with the token's preferred_username, email and extracted role. */
  lemma ProvisionedInsertsOne(rows: seq<User>, auth: Option<Authentication>, codec: UuidCodec, upper: string -> string)
    requires HasJwt(auth) && auth.value.principal.jwt.subject.Some?
    requires !ExistsById(rows, ResolveUserId(codec, auth.value.principal.jwt.subject.value))
    ensures var jwt := auth.value.principal.jwt;
            var u := User(ResolveUserId(codec, jwt.subject.value), jwt.preferredUsername, jwt.email, ExtractRoleFromJwt(jwt, upper));
            Provisioned(rows, auth, codec, upper) == Some(rows + [u])
  {
  }

  /** Provisioning keeps the primary key unique, and afterwards the subject has
      a user. */
  lemma {:induction false} ProvisionedKeepsKeys(rows: seq<User>, auth: Option<Authentication>, codec: UuidCodec, upper: string -> string)
    requires UniqueIds(rows)
    requires Provisioned(rows, auth, codec, upper).Some?
    ensures UniqueIds(Provisioned(rows, auth, codec, upper).value)
    ensures HasJwt(auth) ==> ExistsById(Provisioned(rows, auth, codec, upper).value, ResolveUserId(codec, auth.value.principal.jwt.subject.value))
  {
    if HasJwt(auth) {
      var jwt := auth.value.principal.jwt;
      var id := ResolveUserId(codec, jwt.subject.value);
      if !ExistsById(rows, id) {
        var r := rows + [NewUser(codec, upper, jwt, jwt.subject.value)];
        assert r[|rows|].id == id;
        assert forall i :: 0 <= i < |rows| ==> rows[i].id != id;
      }
    }
  }

  /** Running the filter twice on the same request equals running it once. */
  lemma {:induction false} ProvisionedIdempotent(rows: seq<User>, auth: Option<Authentication>, codec: UuidCodec, upper: string -> string)
    requires Provisioned(rows, auth, codec, upper).Some?
    ensures Provisioned(Provisioned(rows, auth, codec, upper).value, auth, codec, upper) == Provisioned(rows, auth, codec, upper)
  {
    if HasJwt(auth) {
      var jwt := auth.value.principal.jwt;
      var id := ResolveUserId(codec, jwt.subject.value);
      if !ExistsById(rows, id) {
        var r := rows + [NewUser(codec, upper, jwt, jwt.subject.value)];
        assert r[|rows|].id == id;
        assert ExistsById(r, id);
      }
    }
  }

  /** `doFilterInternal`: provision if absent, then pass the request on.
      `continued` is false only when an exception escapes the filter. */
  method DoFilterInternal(users: UserTable, auth: Option<Authentication>, codec: UuidCodec, upper: string -> string) returns (continued: bool)
    requires users.Valid()
    modifies users
    ensures users.Valid()
    ensures continued <==> !(HasJwt(auth) && auth.value.principal.jwt.subject.None?)
    ensures continued ==> Some(users.rows) == Provisioned(old(users.rows), auth, codec, upper)
    ensures !continued ==> users.rows == old(users.rows)
  {
    if HasJwt(auth) {
      var jwt := auth.value.principal.jwt;
      if jwt.subject.None? {
        return false;
      }
      var subject := jwt.subject.value;
      var userId := ResolveUserId(codec, subject);
      if !ExistsById(users.rows, userId) {
        var user := User(userId, jwt.preferredUsername, jwt.email, ExtractRoleFromJwt(jwt, upper));
        UpsertedSpec(users.rows, user);
        users.Save(user);
      }
    }
    continued := true;  // filterChain.doFilter(request, response)
  }
}
