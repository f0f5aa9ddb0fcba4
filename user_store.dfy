/** The `user` table of the database, as the auth service uses it through the ORM: lookups by
    email, username and id, and the insertion of a new row. */
module UserStore {
  import opened Js

  /** A row of the `user` table. `password` holds the bcrypt hash. */
  datatype UserRow = UserRow(
    id: int,
    username: string,
    email: string,
    password: string,
    role: string,
    createdAt: Timestamp,
    updatedAt: Timestamp)

  /** `UserDTO`: what the service hands out about a user. It has no password field. */
  datatype UserDto = UserDto(
    id: int,
    username: string,
    email: string,
    role: string,
    createdAt: Timestamp,
    updatedAt: Timestamp)

  /** Copies the six public fields of a row, leaving the password behind. */
  function ToDto(u: UserRow): (d: UserDto)
    ensures d.id == u.id && d.username == u.username && d.email == u.email && d.role == u.role
    ensures d.createdAt == u.createdAt && d.updatedAt == u.updatedAt
  {
    UserDto(u.id, u.username, u.email, u.role, u.createdAt, u.updatedAt)
  }

  /** The password is the only thing the DTO loses: two rows have the same DTO exactly when they
      differ at most in their password. */
  lemma ToDtoForgetsOnlyPassword(u: UserRow, v: UserRow)
    ensures ToDto(u) == ToDto(v) <==> u.(password := v.password) == v
  {
  }

  /** The table's contents and its auto-increment counter. */
  datatype Table = Table(rows: seq<UserRow>, nextId: int)

  /** The constraints the schema enforces: `id`, `email` and `username` are each unique, and
      every id was handed out before the counter's current value. */
  ghost predicate Consistent(t: Table) {
    && (forall i | 0 <= i < |t.rows| :: t.rows[i].id < t.nextId)
    && (forall i, j | 0 <= i < j < |t.rows| ::
          && t.rows[i].id != t.rows[j].id
          && t.rows[i].email != t.rows[j].email
          && t.rows[i].username != t.rows[j].username)
  }

  /** The first row that `matches` accepts. */
  function FindFirst(rows: seq<UserRow>, matches: UserRow -> bool): (r: Option<UserRow>)
    ensures r.Some? ==> matches(r.value) && r.value in rows
    ensures r.None? <==> forall i | 0 <= i < |rows| :: !matches(rows[i])
  {
    if rows == [] then None
    else if matches(rows[0]) then Some(rows[0])
    else
      var r := FindFirst(rows[1..], matches);
      assert forall i | 1 <= i < |rows| :: rows[i] == rows[1..][i - 1];
      r
  }

  /** `findUnique({ where: { email } })`. */
  function FindByEmail(rows: seq<UserRow>, email: string): (r: Option<UserRow>)
    ensures r.Some? ==> r.value in rows && r.value.email == email
    ensures r.None? <==> forall i | 0 <= i < |rows| :: rows[i].email != email
  {
    FindFirst(rows, (u: UserRow) => u.email == email)
  }

  /** `findUnique({ where: { username } })`. */
  function FindByUsername(rows: seq<UserRow>, username: string): (r: Option<UserRow>)
    ensures r.Some? ==> r.value in rows && r.value.username == username
    ensures r.None? <==> forall i | 0 <= i < |rows| :: rows[i].username != username
  {
    FindFirst(rows, (u: UserRow) => u.username == username)
  }

  /** `findUnique({ where: { id } })`. */
  function FindById(rows: seq<UserRow>, id: int): (r: Option<UserRow>)
    ensures r.Some? ==> r.value in rows && r.value.id == id
    ensures r.None? <==> forall i | 0 <= i < |rows| :: rows[i].id != id
  {
    FindFirst(rows, (u: UserRow) => u.id == id)
  }

  /** In a consistent table a lookup by a unique column finds the one row that has the value. */
  lemma {:induction false} LookupsFindTheRow(t: Table, k: nat)
    requires Consistent(t) && k < |t.rows|
    ensures FindByEmail(t.rows, t.rows[k].email) == Some(t.rows[k])
    ensures FindByUsername(t.rows, t.rows[k].username) == Some(t.rows[k])
    ensures FindById(t.rows, t.rows[k].id) == Some(t.rows[k])
  {
    var u := t.rows[k];
    var byEmail := FindByEmail(t.rows, u.email).value;
    var i :| 0 <= i < |t.rows| && t.rows[i] == byEmail;
    assert i == k;
    var byName := FindByUsername(t.rows, u.username).value;
    var j :| 0 <= j < |t.rows| && t.rows[j] == byName;
    assert j == k;
    var byId := FindById(t.rows, u.id).value;
    var l :| 0 <= l < |t.rows| && t.rows[l] == byId;
    assert l == k;
  }

  /** `create({ data })`: appends a row with the next id; both timestamps are the insertion time. */
  function Inserted(t: Table, username: string, email: string, password: string, role: string, now: Timestamp): (r: Table)
    ensures Consistent(t) && FindByEmail(t.rows, email).None? && FindByUsername(t.rows, username).None?
            ==> Consistent(r)
    ensures |r.rows| == |t.rows| + 1 && r.rows[..|t.rows|] == t.rows && r.nextId == t.nextId + 1
    ensures r.rows[|t.rows|] == UserRow(t.nextId, username, email, password, role, now, now)
  {
    var r := Table(t.rows + [UserRow(t.nextId, username, email, password, role, now, now)], t.nextId + 1);
    assert r.rows[..|t.rows|] == t.rows;
    r
  }

  /** The `user` table itself: one object shared by every service that queries it. */
  class UserTable {
    var rows: seq<UserRow>
    var nextId: int

    function Value(): Table
      reads this
    {
      Table(rows, nextId)
    }

    ghost predicate Valid()
      reads this
    {
      Consistent(Value())
    }

    constructor (initial: Table)
      requires Consistent(initial)
      ensures Valid() && Value() == initial
    {
      rows := initial.rows;
      nextId := initial.nextId;
    }

    /** `prisma.user.create`. The unique constraints on `email` and `username` are the caller's
        to respect: the service checks both before it inserts. */
    method Create(username: string, email: string, password: string, role: string, now: Timestamp)
      returns (row: UserRow)
      requires Valid()
      requires FindByEmail(rows, email).None? && FindByUsername(rows, username).None?
      modifies this
      ensures Valid()
      ensures Value() == Inserted(old(Value()), username, email, password, role, now)
      ensures row == UserRow(old(nextId), username, email, password, role, now, now)
    {
      row := UserRow(nextId, username, email, password, role, now, now);
      rows := rows + [row];
      nextId := nextId + 1;
    }
  }
}
