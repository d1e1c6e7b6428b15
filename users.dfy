/**
 * The user table the register and login routes share, and
 * `prisma.user.findUnique({ where: { username } })` over it.
 */
module Users {
  import opened JsText

  /** The messages both auth routes answer with: a missing or empty field,
      and anything that throws. */
  const FieldsRequired: string := "Username and password are required."
  const InternalError: string := "Internal Server Error"

  /** A row: the password column holds bcrypt's hash, never the password. */
  datatype User = User(id: int, username: string, passwordHash: string)

  /** The database's unique constraint on usernames. */
  ghost predicate UniqueUsernames(rows: seq<User>) {
    forall i, j :: 0 <= i < j < |rows| ==> rows[i].username != rows[j].username
  }

  /** The row with this username, if any. */
  function FindUser(rows: seq<User>, username: string): (found: Option<User>)
    ensures found.None? <==> forall i :: 0 <= i < |rows| ==> rows[i].username != username
    ensures found.Some? ==> found.value in rows && found.value.username == username
    ensures found.Some? && UniqueUsernames(rows) ==>
              forall i :: 0 <= i < |rows| && rows[i].username == username ==> rows[i] == found.value
  {
    if rows == [] then None
    else if rows[0].username == username then Some(rows[0])
    else
      var found := FindUser(rows[1..], username);
      assert forall i :: 1 <= i < |rows| ==> rows[i] == rows[1..][i - 1];
      assert UniqueUsernames(rows) ==> UniqueUsernames(rows[1..]);
      found
  }

  /** A row added under a fresh username is what the lookup then finds. */
  lemma FindAppended(rows: seq<User>, user: User)
    requires FindUser(rows, user.username).None?
    ensures FindUser(rows + [user], user.username) == Some(user)
    ensures UniqueUsernames(rows) ==> UniqueUsernames(rows + [user])
  {
    var rows' := rows + [user];
    var found := FindUser(rows', user.username);
    assert rows'[|rows|] == user;
    assert found.Some?;
    assert forall i :: 0 <= i < |rows| ==> rows'[i] == rows[i];
  }
}
