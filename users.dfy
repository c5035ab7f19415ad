/** The user table (UserRepository) that the ticket, identity, admin and
    password-reset code reads and writes. */
module Users {
  import opened Common
  import opened Tables

  /** The application's roles. */
  datatype Role = Attendee | Organizer | Staff {
    /** `Role.name()`. */
    function Name(): string {
      match this
      case Attendee => "ATTENDEE"
      case Organizer => "ORGANIZER"
      case Staff => "STAFF"
    }
  }

  /** `Role.valueOf(s)`: the role whose name is exactly `s`; `None` where Java
      throws IllegalArgumentException. */
  function RoleValueOf(s: string): (r: Option<Role>)
    ensures r.Some? ==> r.value.Name() == s
    ensures forall role: Role :: role.Name() == s ==> r == Some(role)
  {
    if s == "ATTENDEE" then Some(Attendee)
    else if s == "ORGANIZER" then Some(Organizer)
    else if s == "STAFF" then Some(Staff)
    else None
  }

  /** A row of the user table. `name` and `email` are nullable columns. */
  datatype User = User(id: Uuid, name: Option<string>, email: Option<string>, role: Role)

  /** The primary-key constraint of the user table. */
  ghost predicate UniqueIds(rows: seq<User>) {
    forall i, j :: 0 <= i < j < |rows| ==> rows[i].id != rows[j].id
  }

  /** `userRepository.findById(id)`. */
  function FindUserById(rows: seq<User>, id: Uuid): (r: Option<User>)
    ensures r.None? <==> forall i :: 0 <= i < |rows| ==> rows[i].id != id
    ensures r.Some? ==> r.value in rows && r.value.id == id
  {
    match FindFirst(rows, (u: User) => u.id == id)
    case None => None
    case Some(i) => Some(rows[i])
  }

  /** `userRepository.existsById(id)`. */
  function ExistsById(rows: seq<User>, id: Uuid): (r: bool)
    ensures r <==> exists i :: 0 <= i < |rows| && rows[i].id == id
  {
    FindUserById(rows, id).Some?
  }

  /** `userRepository.findByEmail(email)`: the email column is not a key. */
  function FindUserByEmail(rows: seq<User>, email: string): (r: Lookup)
    ensures r.Missing? <==> forall i :: 0 <= i < |rows| ==> rows[i].email != Some(email)
    ensures r.Found? ==> r.index < |rows| && rows[r.index].email == Some(email)
  {
    FindUnique(rows, (u: User) => u.email == Some(email))
  }

  /** The table after `userRepository.save(u)`: JPA merges by primary key, so
      the row with `u`'s id is replaced, or `u` is appended when there is none. */
  function Upserted(rows: seq<User>, u: User): seq<User> {
    match FindFirst(rows, (v: User) => v.id == u.id)
    case Some(i) => rows[i := u]
    case None => rows + [u]
  }

  /** Under the primary-key constraint, `findById` returns the row with that id. */
  lemma FindUserByIdUnique(rows: seq<User>, i: nat)
    requires UniqueIds(rows) && i < |rows|
    ensures FindUserById(rows, rows[i].id) == Some(rows[i])
  {
    var found := FindUserById(rows, rows[i].id);
    var k :| 0 <= k < |rows| && rows[k] == found.value;
    assert k == i;
  }

  /** Saving keeps the primary key unique, makes `u` the row for its id, and
      leaves every row with another id in place. */
  lemma UpsertedSpec(rows: seq<User>, u: User)
    requires UniqueIds(rows)
    ensures UniqueIds(Upserted(rows, u))
    ensures FindUserById(Upserted(rows, u), u.id) == Some(u)
    ensures forall id :: id != u.id ==> FindUserById(Upserted(rows, u), id) == FindUserById(rows, id)
    ensures !ExistsById(rows, u.id) ==> Upserted(rows, u) == rows + [u]
  {
    var r := Upserted(rows, u);
    var at: nat := match FindFirst(rows, (v: User) => v.id == u.id)
      case Some(i) => i
      case None => |rows|;
    assert at < |r| && r[at] == u;
    assert forall j :: 0 <= j < |rows| && j != at ==> r[j] == rows[j];
    assert forall j :: 0 <= j < |rows| && j != at ==> rows[j].id != u.id;
    assert UniqueIds(r);
    FindUserByIdUnique(r, at);
    forall id | id != u.id ensures FindUserById(r, id) == FindUserById(rows, id) {
      if j :| 0 <= j < |rows| && rows[j].id == id {
        FindUserByIdUnique(rows, j);
        FindUserByIdUnique(r, j);
      }
    }
  }

  /** The user table, updated in place by `save`. */
  class UserTable {
    var rows: seq<User>

    ghost predicate Valid()
      reads this
    {
      UniqueIds(rows)
    }

    constructor (initial: seq<User>)
      requires UniqueIds(initial)
      ensures Valid() && rows == initial
    {
      rows := initial;
    }

    /** `userRepository.save(u)`. */
    method Save(u: User)
      requires Valid()
      modifies this
      ensures Valid()
      ensures rows == Upserted(old(rows), u)
    {
      UpsertedSpec(rows, u);
      var found := FindFirst(rows, (v: User) => v.id == u.id);
      match found
      case Some(i) => rows := rows[i := u];
      case None => rows := rows + [u];
    }
  }
}
