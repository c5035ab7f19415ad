/** What the backend reads from a verified JWT: the subject-to-user-id rule
    shared by UserProvisioningFilter, JwtAuthenticationConverter and JwtUtil,
    and the role named by the token's `attributes` claim. */
module Identity {
  import opened Common
  import opened Users

  /** A decoded JSON claim value. */
  datatype ClaimValue =
    | JNull
    | JBool(b: bool)
    | JNumber(n: int)
    | JString(s: string)
    | JList(items: seq<ClaimValue>)
    | JObject(fields: map<string, ClaimValue>)

  /** The claims of a JWT the backend consults; `None` is an absent claim. */
  datatype Jwt = Jwt(
    subject: Option<string>,
    preferredUsername: Option<string>,
    email: Option<string>,
    attributes: Option<ClaimValue>,
    realmAccess: Option<ClaimValue>)

  /** `UUID.fromString` (`None` where it throws IllegalArgumentException) and
      `UUID.nameUUIDFromBytes(subject.getBytes())`, left uninterpreted. */
  datatype UuidCodec = UuidCodec(fromString: string -> Option<Uuid>, nameUuidFromBytes: string -> Uuid)

  predicate IsHexDigit(c: char) {
    ('0' <= c <= '9') || ('a' <= c <= 'f')
  }

  /** The text `UUID.toString()` produces: 8-4-4-4-12 lower-case hex digits. */
  predicate IsCanonicalUuid(s: string) {
    && |s| == 36
    && (forall i :: 0 <= i < 36 ==> (s[i] == '-' <==> i in {8, 13, 18, 23}))
    && (forall i :: 0 <= i < 36 && s[i] != '-' ==> IsHexDigit(s[i]))
  }

  /** What java.util.UUID guarantees of the two conversions: canonical text
      parses to itself, and both produce canonical UUIDs. */
  ghost predicate WellBehaved(codec: UuidCodec) {
    && (forall s :: IsCanonicalUuid(s) ==> codec.fromString(s) == Some(s))
    && (forall s :: codec.fromString(s).Some? ==> IsCanonicalUuid(codec.fromString(s).value))
    && (forall s :: IsCanonicalUuid(codec.nameUuidFromBytes(s)))
  }

  /** The internal user id of a JWT subject: the subject parsed as a UUID when
      it is one, otherwise the name-based UUID of the subject. */
  function ResolveUserId(codec: UuidCodec, subject: string): (id: Uuid)
    ensures codec.fromString(subject).Some? ==> id == codec.fromString(subject).value
    ensures codec.fromString(subject).None? ==> id == codec.nameUuidFromBytes(subject)
  {
    match codec.fromString(subject)
    case Some(u) => u
    case None => codec.nameUuidFromBytes(subject)
  }

  /** `JwtUtil.parseUserId`: `None` when the token has no subject, where
      `UUID.fromString(null)` throws NullPointerException. */
  function ParseUserId(codec: UuidCodec, jwt: Jwt): (r: Option<Uuid>)
    ensures r.None? <==> jwt.subject.None?
    ensures r.Some? ==> r.value == ResolveUserId(codec, jwt.subject.value)
  {
    match jwt.subject
    case Some(subject) => Some(ResolveUserId(codec, subject))
    case None => None
  }

  /** A subject that already is a UUID is its own user id, and every resolved
      id is a canonical UUID. */
  lemma ResolveUserIdCanonical(codec: UuidCodec, subject: string)
    requires WellBehaved(codec)
    ensures IsCanonicalUuid(subject) ==> ResolveUserId(codec, subject) == subject
    ensures IsCanonicalUuid(ResolveUserId(codec, subject))
  {
  }

  predicate IsAscii(c: char) {
    c as int < 128
  }

  predicate AllAscii(s: string) {
    forall i :: 0 <= i < |s| ==> IsAscii(s[i])
  }

  /** `Character.toUpperCase` on an ASCII character, as every default locale
      except Turkish and Azeri maps it: the 26 lower-case letters become
      upper-case letters and every other ASCII character stays. */
  function UpperChar(c: char): (u: char)
    requires IsAscii(c)
    ensures 'a' <= c <= 'z' ==> 'A' <= u <= 'Z' && u as int == c as int - 32
    ensures !('a' <= c <= 'z') ==> u == c
    ensures IsAscii(u) && !('a' <= u <= 'z')
  {
    if 'a' <= c <= 'z' then (c as int - 32) as char else c
  }

  /** `String.toUpperCase()` on ASCII text in such a locale: letter by letter. */
  function ToUpperAscii(s: string): (r: string)
    requires AllAscii(s)
    ensures |r| == |s| && AllAscii(r)
    ensures forall i :: 0 <= i < |s| ==> r[i] == UpperChar(s[i])
  {
    seq(|s|, i requires 0 <= i < |s| => UpperChar(s[i]))
  }

  /** Upper-casing ASCII text is idempotent. */
  lemma ToUpperAsciiIdempotent(s: string)
    requires AllAscii(s)
    ensures ToUpperAscii(ToUpperAscii(s)) == ToUpperAscii(s)
  {
    var u := ToUpperAscii(s);
    assert forall i :: 0 <= i < |u| ==> UpperChar(u[i]) == u[i];
  }

  /** `String.toUpperCase()` depends on the JVM's default locale and on the
      whole Unicode case table, so it is a parameter (`upper`) of every member
      that upper-cases. The one fact the model assumes of it, where a lemma
      says so, is that it maps ASCII text letter by letter; a Turkish or Azeri
      default locale does not (there `i` becomes `İ`). */
  ghost predicate UpperCasesAscii(upper: string -> string) {
    forall s :: AllAscii(s) ==> upper(s) == ToUpperAscii(s)
  }

  /** `attributes.get("role")` when the `attributes` claim is a map. */
  function RoleEntry(jwt: Jwt): Option<ClaimValue> {
    if jwt.attributes.Some? && jwt.attributes.value.JObject? && "role" in jwt.attributes.value.fields
    then Some(jwt.attributes.value.fields["role"])
    else None
  }

  /** The text of the `role` entry of the `attributes` claim: the entry itself
      when it is a string, or the first element of a non-empty list when that
      element is a string. */
  function NamedRoleText(jwt: Jwt): Option<string> {
    match RoleEntry(jwt)
    case Some(JString(s)) => Some(s)
    case Some(JList(items)) => if |items| > 0 && items[0].JString? then Some(items[0].s) else None
    case _ => None
  }

  /** `extractRoleFromJwt`: the role whose name is the upper-cased text of
      the `role` entry; ATTENDEE when the claim is missing, not a map, has no
      usable `role` entry, the list is empty, or the upper-cased text is not a
      role name (the exceptions this raises are caught and mapped to ATTENDEE). */
  function ExtractRoleFromJwt(jwt: Jwt, upper: string -> string): (r: Role)
    ensures (NamedRoleText(jwt).Some? && RoleValueOf(upper(NamedRoleText(jwt).value)).Some?)
              ==> r.Name() == upper(NamedRoleText(jwt).value)
    ensures (NamedRoleText(jwt).None? || RoleValueOf(upper(NamedRoleText(jwt).value)).None?)
              ==> r == Attendee
  {
    match RoleEntry(jwt)
    case Some(JList(items)) =>
      if |items| == 0 then Attendee
      else if items[0].JString? then RoleOrAttendee(upper(items[0].s))
      else Attendee  // a null or non-string element throws, and the exception is caught
    case Some(JString(s)) => RoleOrAttendee(upper(s))
    case _ => Attendee
  }

  /** `Role.valueOf`, with IllegalArgumentException mapped to ATTENDEE. */
  function RoleOrAttendee(name: string): Role {
    match RoleValueOf(name)
    case Some(role) => role
    case None => Attendee
  }

  /** Where upper-casing maps ASCII letter by letter, a role named in any
      letter case, as a string or as the head of a list, is the role
      extracted. */
  lemma ExtractRoleCaseInsensitive(jwt: Jwt, upper: string -> string, role: Role, s: string,
                                   rest: seq<ClaimValue>, other: map<string, ClaimValue>)
    requires UpperCasesAscii(upper)
    requires AllAscii(s) && ToUpperAscii(s) == role.Name()
    requires jwt.attributes == Some(JObject(other["role" := JString(s)]))
          || jwt.attributes == Some(JObject(other["role" := JList([JString(s)] + rest)]))
    ensures ExtractRoleFromJwt(jwt, upper) == role
  {
    assert upper(s) == ToUpperAscii(s);
  }

  /** Under a Turkish default locale, `organizer` upper-cases to `ORGANİZER`
      (dotted capital I), which is no role name, so the role is ATTENDEE. */
  lemma TurkishLocaleLosesRole(jwt: Jwt, upper: string -> string)
    requires upper("organizer") == "ORGAN\U{0130}ZER"
    requires jwt.attributes == Some(JObject(map["role" := JString("organizer")]))
    ensures ExtractRoleFromJwt(jwt, upper) == Attendee
  {
  }

  /** Without a role entry, or with an empty role list, the role is ATTENDEE. */
  lemma ExtractRoleDefaultsToAttendee(jwt: Jwt, upper: string -> string)
    requires || jwt.attributes.None?
             || (jwt.attributes.Some? && !jwt.attributes.value.JObject?)
             || (jwt.attributes.Some? && jwt.attributes.value.JObject? && "role" !in jwt.attributes.value.fields)
             || (jwt.attributes.Some? && jwt.attributes.value.JObject? && "role" in jwt.attributes.value.fields
                 && jwt.attributes.value.fields["role"] == JList([]))
    ensures ExtractRoleFromJwt(jwt, upper) == Attendee
  {
  }
}
