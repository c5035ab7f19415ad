/** JwtAuthenticationConverter: the granted authorities of a request are the
    `ROLE_` realm roles of the token followed by the role stored for the user. */
module Authorities {
  import opened Common
  import opened Tables
  import opened Users
  import opened Identity

  const RolePrefix: string := "ROLE_"

  predicate RolePrefixed(s: string) {
    StartsWith(s, RolePrefix)
  }

  /** A claim value read as `List<String>`; `None` where the cast or a `null`
      throws. */
  function StringList(v: ClaimValue): (r: Option<seq<string>>)
    ensures r.Some? ==> v.JList? && |r.value| == |v.items|
    ensures r.Some? ==> forall i :: 0 <= i < |v.items| ==> v.items[i] == JString(r.value[i])
  {
    if v.JList? && forall i :: 0 <= i < |v.items| ==> v.items[i].JString?
    then Some(seq(|v.items|, i requires 0 <= i < |v.items| => v.items[i].s))
    else None
  }

  /** The `roles` list of the `realm_access` claim: empty when the claim or its
      `roles` entry is missing; `None` when reading it throws (the claim is not
      a map, or `roles` is not a list of strings). */
  function RealmRoles(realmAccess: Option<ClaimValue>): Option<seq<string>> {
    match realmAccess
    case None => Some([])
    case Some(JNull) => Some([])
    case Some(JObject(fields)) => if "roles" !in fields then Some([]) else StringList(fields["roles"])
    case Some(_) => None
  }

  /** The authority for the user's database role, if the lookup finds the
      user. A missing subject or a failing database is caught: no authority. */
  function DatabaseAuthority(jwt: Jwt, codec: UuidCodec, users: seq<User>, databaseUp: bool): Option<string> {
    if !databaseUp || jwt.subject.None? then None
    else
      match FindUserById(users, ResolveUserId(codec, jwt.subject.value))
      case Some(user) => Some(RolePrefix + user.role.Name())
      case None => None
  }

  /** `extractAuthorities`: `None` when an exception escapes the converter. */
  method ExtractAuthorities(jwt: Jwt, codec: UuidCodec, users: seq<User>, databaseUp: bool)
    returns (authorities: Option<seq<string>>)
    ensures authorities.None? <==> RealmRoles(jwt.realmAccess).None?
    ensures authorities.Some? ==>
      var realm := Filter(RealmRoles(jwt.realmAccess).value, RolePrefixed);
      var db := DatabaseAuthority(jwt, codec, users, databaseUp);
      && |authorities.value| == |realm| + (if db.Some? then 1 else 0)
      && authorities.value[..|realm|] == realm
      && (db.Some? ==> authorities.value[|realm|] == db.value)
    ensures authorities.Some? ==> forall a :: a in authorities.value ==> RolePrefixed(a)
    ensures authorities.Some? ==>
      (authorities.value == [] <==>
        Filter(RealmRoles(jwt.realmAccess).value, RolePrefixed) == []
        && DatabaseAuthority(jwt, codec, users, databaseUp).None?)
  {
    var list: seq<string> := [];
    var roles := RealmRoles(jwt.realmAccess);
    if roles.None? {
      return None;
    }
    list := list + Filter(roles.value, RolePrefixed);
    var db := DatabaseAuthority(jwt, codec, users, databaseUp);
    if db.Some? {
      assert StartsWith(db.value, RolePrefix);
      list := list + [db.value];
    }
    authorities := Some(list);
  }

  /** The stored role is appended even when the realm roles already grant it:
      the list is not de-duplicated. */
  lemma DatabaseRoleNotDeduplicated(jwt: Jwt, codec: UuidCodec, users: seq<User>, user: User)
    requires UniqueIds(users) && user in users
    requires jwt.subject.Some? && ResolveUserId(codec, jwt.subject.value) == user.id
    requires jwt.realmAccess == Some(JObject(map["roles" := JList([JString(RolePrefix + user.role.Name())])]))
    ensures var realm := Filter(RealmRoles(jwt.realmAccess).value, RolePrefixed);
            realm == [RolePrefix + user.role.Name()]
            && DatabaseAuthority(jwt, codec, users, true) == Some(RolePrefix + user.role.Name())
  {
    var i :| 0 <= i < |users| && users[i] == user;
    FindUserByIdUnique(users, i);
    var roles := [RolePrefix + user.role.Name()];
    var v := JList([JString(roles[0])]);
    assert v.items[0].JString?;
    assert StringList(v).Some?;
    assert StringList(v).value == roles;
    assert RealmRoles(jwt.realmAccess) == Some(roles);
    assert RolePrefixed(roles[0]);
    assert Matching(roles, RolePrefixed) == [0] by {
      assert roles[..0] == [];
    }
  }
}
