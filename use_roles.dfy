/** The client's `useRoles` hook: the realm roles of the access token, each
    given the `ROLE_` prefix unless it has it already, and one flag per
    application role. */
module UseRoles {
  import opened Common
  import opened Tables
  import opened Users
  import opened Authorities
  import opened JsText

  /** The flag name the client looks for: `ROLE_ORGANIZER` and so on. */
  function RoleName(role: Role): string {
    RolePrefix + role.Name()
  }

  /** The `map` step applied to one role name. */
  function NormaliseRole(r: string): string {
    if RolePrefixed(r) then r else RolePrefix + r
  }

  lemma PrefixAdded(r: string)
    ensures RolePrefixed(RolePrefix + r) && (RolePrefix + r)[|RolePrefix|..] == r
  {
    assert (RolePrefix + r)[..|RolePrefix|] == RolePrefix;
  }

  /** The `map` step over the token's roles: same length and order, a
      prefixed name kept as it is, any other name prefixed. */
  function NormaliseRoles(roles: seq<string>): (r: seq<string>)
    ensures |r| == |roles|
    ensures forall i :: 0 <= i < |r| ==> RolePrefixed(r[i])
    ensures forall i :: 0 <= i < |r| ==> if RolePrefixed(roles[i]) then r[i] == roles[i] else r[i] == RolePrefix + roles[i]
  {
    var r := seq(|roles|, i requires 0 <= i < |roles| => NormaliseRole(roles[i]));
    assert forall i :: 0 <= i < |r| ==> RolePrefixed(r[i]) by {
      forall i | 0 <= i < |r| ensures RolePrefixed(r[i]) {
        PrefixAdded(roles[i]);
      }
    }
    r
  }

  /** The roles the hook publishes: the normalised list, then filtered to the
      prefixed names. */
  function PublishedRoles(roles: seq<string>): seq<string> {
    Filter(NormaliseRoles(roles), RolePrefixed)
  }

  /** After normalisation every name carries the prefix, so the filter that
      follows removes nothing. */
  lemma PublishedRolesAreNormalised(roles: seq<string>)
    ensures PublishedRoles(roles) == NormaliseRoles(roles)
  {
    FilterKeepsAll(NormaliseRoles(roles), RolePrefixed);
  }

  /** Normalising twice is normalising once. */
  lemma NormaliseIdempotent(roles: seq<string>)
    ensures NormaliseRoles(NormaliseRoles(roles)) == NormaliseRoles(roles)
  {
  }

  /** An unprefixed name is published, with its prefix, exactly when the
      token lists it with or without the prefix. */
  lemma {:induction false} PublishedNameSources(roles: seq<string>, name: string)
    requires !RolePrefixed(name)
    ensures RolePrefix + name in NormaliseRoles(roles) <==> name in roles || RolePrefix + name in roles
  {
    PrefixAdded(name);
    var r := NormaliseRoles(roles);
    if RolePrefix + name in r {
      var i :| 0 <= i < |r| && r[i] == RolePrefix + name;
      if !RolePrefixed(roles[i]) {
        PrefixAdded(roles[i]);
        assert roles[i] == name;
      }
    }
    if name in roles {
      var i :| 0 <= i < |roles| && roles[i] == name;
      assert r[i] == RolePrefix + name;
    }
    if RolePrefix + name in roles {
      var i :| 0 <= i < |roles| && roles[i] == RolePrefix + name;
      assert r[i] == RolePrefix + name;
    }
  }

  lemma RoleNameIsBare(role: Role)
    ensures !RolePrefixed(role.Name())
  {
    assert role.Name()[0] != RolePrefix[0];
  }

  /** A role's flag is set when the token grants that role under either
      spelling: both `ORGANIZER` and `ROLE_ORGANIZER` make `isOrganizer` true,
      and nothing else does. */
  lemma FlagFromEitherSpelling(roles: seq<string>, role: Role)
    ensures RoleName(role) in PublishedRoles(roles) <==> role.Name() in roles || RoleName(role) in roles
  {
    PublishedRolesAreNormalised(roles);
    RoleNameIsBare(role);
    PublishedNameSources(roles, role.Name());
  }

  /** The server and the client read the same realm roles differently: for
      a token listing the bare `ORGANIZER`, the client shows the organizer
      flag while the server's realm-role authorities are empty. */
  lemma BareRoleOnlyOnClient()
    ensures RoleName(Organizer) in PublishedRoles([Organizer.Name()])
    ensures Filter([Organizer.Name()], RolePrefixed) == []
  {
    FlagFromEitherSpelling([Organizer.Name()], Organizer);
    RoleNameIsBare(Organizer);
    assert Matching([Organizer.Name()], RolePrefixed) == [] by {
      assert [Organizer.Name()][..0] == [];
    }
  }

  /** The `realm_access` claim as the decoder types it; both levels may be
      absent. */
  datatype RealmAccess = RealmAccess(roles: Option<seq<string>>)
  datatype JwtPayload = JwtPayload(realmAccess: Option<RealmAccess>)

  /** `payload.realm_access?.roles || []`: a missing list reads as empty; an
      empty array is truthy, so it passes through unchanged. */
  function PayloadRoles(p: JwtPayload): (r: seq<string>)
    ensures p.realmAccess.Some? && p.realmAccess.value.roles.Some? ==> r == p.realmAccess.value.roles.value
    ensures p.realmAccess.None? || p.realmAccess.value.roles.None? ==> r == []
  {
    match p.realmAccess
    case None => []
    case Some(access) =>
      match access.roles
      case None => []
      case Some(roles) => roles
  }

  /** The hook's state. */
  class RolesHook {
    var isLoading: bool
    var roles: seq<string>
    var isOrganizer: bool
    var isAttendee: bool
    var isStaff: bool

    /** Every published name carries the prefix, and each flag says whether
        its role is published. */
    ghost predicate Valid()
      reads this
    {
      && (forall i :: 0 <= i < |roles| ==> RolePrefixed(roles[i]))
      && (isOrganizer <==> RoleName(Organizer) in roles)
      && (isAttendee <==> RoleName(Attendee) in roles)
      && (isStaff <==> RoleName(Staff) in roles)
    }

    /** The initial state: loading, no roles, no flags. */
    constructor ()
      ensures Valid()
      ensures isLoading && roles == [] && !isOrganizer && !isAttendee && !isStaff
    {
      isLoading := true;
      roles := [];
      isOrganizer := false;
      isAttendee := false;
      isStaff := false;
    }

    /** The effect, run when the auth state or the access token changes.
        `decode` is `jwtDecode`: `None` where it throws. */
    method RunEffect(isAuthLoading: bool, accessToken: Option<string>, decode: string -> Option<JwtPayload>)
      modifies this
      ensures Valid()
      ensures isLoading == isAuthLoading
      ensures isAuthLoading || !Truthy(accessToken) ==> roles == []
      ensures !isAuthLoading && Truthy(accessToken) && decode(accessToken.value).None? ==> roles == []
      ensures !isAuthLoading && Truthy(accessToken) && decode(accessToken.value).Some? ==>
                roles == PublishedRoles(PayloadRoles(decode(accessToken.value).value))
    ensures !isAuthLoading && Truthy(accessToken) && decode(accessToken.value).Some? ==>
              var granted := PayloadRoles(decode(accessToken.value).value);
              && (isOrganizer <==> Organizer.Name() in granted || RoleName(Organizer) in granted)
              && (isAttendee <==> Attendee.Name() in granted || RoleName(Attendee) in granted)
              && (isStaff <==> Staff.Name() in granted || RoleName(Staff) in granted)
    {
      isLoading := true;
      if isAuthLoading || !Truthy(accessToken) {
        roles := [];
        isOrganizer := false;
        isAttendee := false;
        isStaff := false;
        isLoading := isAuthLoading;
        return;
      }
      var payload := decode(accessToken.value);
      match payload {
      case None =>
        roles := [];
        isOrganizer := false;
        isAttendee := false;
        isStaff := false;
      case Some(p) =>
        var allRoles := PayloadRoles(p);
        var filteredRoles := Filter(NormaliseRoles(allRoles), RolePrefixed);
        FlagFromEitherSpelling(allRoles, Organizer);
        FlagFromEitherSpelling(allRoles, Attendee);
        FlagFromEitherSpelling(allRoles, Staff);
        roles := filteredRoles;
        isOrganizer := RoleName(Organizer) in filteredRoles;
        isAttendee := RoleName(Attendee) in filteredRoles;
        isStaff := RoleName(Staff) in filteredRoles;
      }
      isLoading := false;
    }
  }
}
