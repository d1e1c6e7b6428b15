/**
 * src/app/api/auth/register/route.ts: POST validates the two fields, refuses
 * a username already taken, stores a new user with the bcrypt hash of the
 * password, and answers with a token signed for the new row. Every exception
 * becomes 500 "Internal Server Error".
 *
 * bcrypt.hash draws a fresh salt on every call, so the hash is a parameter of
 * the call (`hash`); so is token signing (`sign`).
 */
module RegisterRoute {
  import opened JsText
  import opened Auth
  import opened Http
  import opened Users

  const UsernameTaken: string := "Username already exists."

  /** Where the handler's awaited work can throw: the lookup; the hashing or
      the insert (both before any row exists); or the signing, after the row
      has been inserted. */
  datatype RegisterFault = NoFault | LookupThrows | InsertThrows | SignThrows

  /** Whether the call gets as far as inserting a row. */
  predicate Inserts(rows: seq<User>, body: RequestBody, fault: RegisterFault) {
    && body.Fields?
    && Truthy(Field(body, "username")) && Truthy(Field(body, "password"))
    && fault != LookupThrows && fault != InsertThrows
    && FindUser(rows, Field(body, "username").value).None?
  }

  class UserTable {
    var rows: seq<User>
    /** The id the database hands the next row (autoincrement). */
    var nextId: int

    ghost predicate Valid()
      reads this
    {
      && nextId >= 1 && UniqueUsernames(rows)
      && (forall i :: 0 <= i < |rows| ==> 1 <= rows[i].id < nextId)
    }

    constructor ()
      ensures Valid() && rows == [] && nextId == 1
    {
      rows, nextId := [], 1;
    }

    /** POST (lines 10-49). */
    method Register(body: RequestBody, hash: string -> string, sign: Identity -> string, fault: RegisterFault)
      returns (r: Response<string>)
      requires Valid()
      modifies this
      ensures Valid()
      ensures if body.Unreadable? then r == Response(500, Message(InternalError))
              else if !Truthy(Field(body, "username")) || !Truthy(Field(body, "password")) then
                r == Response(400, Message(FieldsRequired))
              else if fault == LookupThrows then r == Response(500, Message(InternalError))
              else if FindUser(old(rows), Field(body, "username").value).Some? then
                r == Response(400, Message(UsernameTaken))
              else if fault == InsertThrows || fault == SignThrows then r == Response(500, Message(InternalError))
              else r == Response(201, Data(sign(Identity(old(nextId), Field(body, "username").value))))
      ensures Inserts(old(rows), body, fault) ==>
                && rows == old(rows) + [User(old(nextId), Field(body, "username").value, hash(Field(body, "password").value))]
                && nextId == old(nextId) + 1
      ensures !Inserts(old(rows), body, fault) ==> rows == old(rows) && nextId == old(nextId)
    {
      if body.Unreadable? {
        return Response(500, Message(InternalError));
      }
      var username := Field(body, "username");
      var password := Field(body, "password");
      if !Truthy(username) || !Truthy(password) {
        return Response(400, Message(FieldsRequired));
      }
      if fault == LookupThrows {
        return Response(500, Message(InternalError));
      }
      var existing := FindUser(rows, username.value);
      if existing.Some? {
        return Response(400, Message(UsernameTaken));
      }
      if fault == InsertThrows {
        return Response(500, Message(InternalError));
      }
      var user := User(nextId, username.value, hash(password.value));
      FindAppended(rows, user);
      rows := rows + [user];
      nextId := nextId + 1;
      if fault == SignThrows {
        return Response(500, Message(InternalError));
      }
      r := Response(201, Data(sign(Identity(user.id, user.username))));
    }
  }
}
