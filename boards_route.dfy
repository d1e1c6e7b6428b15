/**
 * src/app/api/boards/route.ts: GET lists the boards the caller created, POST
 * creates a board with a unique name. The board table is a sequence of rows
 * in the order they were created; its canvas column belongs to the session
 * coordinator and is not part of these rows.
 */
module BoardsRoute {
  import opened JsText
  import opened Auth
  import opened Http

  const Unauthorized: string := "Unauthorized"
  const InvalidToken: string := "Invalid token"
  const NameRequired: string := "Board name is required."
  const NameTaken: string := "Board name already exists."

  datatype Board = Board(id: int, name: string, creatorId: int)

  /** `select: { id: true, name: true }` */
  datatype BoardSummary = BoardSummary(id: int, name: string)

  function Summary(b: Board): BoardSummary {
    BoardSummary(b.id, b.name)
  }

  ghost predicate UniqueNames(rows: seq<Board>) {
    forall i, j :: 0 <= i < j < |rows| ==> rows[i].name != rows[j].name
  }

  predicate NameInUse(rows: seq<Board>, name: string) {
    exists i :: 0 <= i < |rows| && rows[i].name == name
  }

  /** `findMany({ where: { creatorId }, select: { id, name } })`. The query has
      no `orderBy`, so the database promises no order; the model lists the rows
      in the order they were created. */
  function BoardsOf(rows: seq<Board>, creatorId: int): (list: seq<BoardSummary>)
    ensures |list| <= |rows|
    ensures forall b :: b in list <==> exists i :: 0 <= i < |rows| && rows[i].creatorId == creatorId && b == Summary(rows[i])
  {
    if rows == [] then []
    else
      var rest := BoardsOf(rows[1..], creatorId);
      assert forall i :: 1 <= i < |rows| ==> rows[i] == rows[1..][i - 1];
      (if rows[0].creatorId == creatorId then [Summary(rows[0])] else []) + rest
  }

  /** A new row shows up in its creator's list and nowhere else: at the end,
      in the creation order the model lists rows in. */
  lemma {:induction false} BoardsOfAppend(rows: seq<Board>, b: Board, creatorId: int)
    ensures BoardsOf(rows + [b], creatorId) ==
            BoardsOf(rows, creatorId) + (if b.creatorId == creatorId then [Summary(b)] else [])
  {
    if rows == [] {
      assert [b][1..] == [];
    } else {
      assert (rows + [b])[1..] == rows[1..] + [b];
      BoardsOfAppend(rows[1..], b, creatorId);
    }
  }

  /** GET (lines 9-28). `queryFails` stands for findMany throwing, which the
      catch block reports as an invalid token like a failed verification. */
  function ListBoards(rows: seq<Board>, authHeader: Option<string>, verify: string -> Option<Identity>, queryFails: bool)
    : (r: Response<seq<BoardSummary>>)
    ensures BearerToken(authHeader).None? ==> r == Response(401, Message(Unauthorized))
    // a token that fails verification, or a query that throws, is an invalid token
    ensures BearerToken(authHeader).Some? && r.status != 200 ==> r == Response(401, Message(InvalidToken))
    ensures r.status == 200 <==>
              BearerToken(authHeader).Some? && verify(BearerToken(authHeader).value).Some? && !queryFails
    ensures r.status == 200 ==>
              r.body == Data(BoardsOf(rows, verify(BearerToken(authHeader).value).value.id))
    ensures r.status != 200 ==>
              r == Response(401, Message(Unauthorized)) || r == Response(401, Message(InvalidToken))
  {
    match BearerToken(authHeader)
    case None => Response(401, Message(Unauthorized))
    case Some(token) =>
      match verify(token)
      case None => Response(401, Message(InvalidToken))
      case Some(user) =>
        if queryFails then Response(401, Message(InvalidToken))
        else Response(200, Data(BoardsOf(rows, user.id)))
  }

  /** Where POST's database work can throw. */
  datatype StoreFault = NoFault | LookupThrows | CreateThrows

  class BoardTable {
    var rows: seq<Board>
    /** The id the database hands the next row (autoincrement). */
    var nextId: int

    ghost predicate Valid()
      reads this
    {
      && nextId >= 1 && UniqueNames(rows)
      && (forall i :: 0 <= i < |rows| ==> 1 <= rows[i].id < nextId)
      && (forall i, j :: 0 <= i < j < |rows| ==> rows[i].id != rows[j].id)
    }

    constructor ()
      ensures Valid() && rows == [] && nextId == 1
    {
      rows, nextId := [], 1;
    }

    /** POST (lines 30-69). */
    method Create(authHeader: Option<string>, body: RequestBody, verify: string -> Option<Identity>, fault: StoreFault)
      returns (r: Response<Board>)
      requires Valid()
      modifies this
      ensures Valid()
      ensures var token := BearerToken(authHeader);
              if token.None? then r == Response(401, Message(Unauthorized))
              else if verify(token.value).None? || body.Unreadable? then r == Response(401, Message(InvalidToken))
              else if !Truthy(Field(body, "name")) then r == Response(400, Message(NameRequired))
              else if fault == LookupThrows then r == Response(401, Message(InvalidToken))
              else if NameInUse(old(rows), Field(body, "name").value) then r == Response(400, Message(NameTaken))
              else if fault == CreateThrows then r == Response(401, Message(InvalidToken))
              else r == Response(201, Data(Board(old(nextId), Field(body, "name").value, verify(token.value).value.id)))
      ensures r.status == 201 ==> r.body.Data? && rows == old(rows) + [r.body.value] && nextId == old(nextId) + 1
      ensures r.status != 201 ==> rows == old(rows) && nextId == old(nextId)
    {
      var token := BearerToken(authHeader);
      if token.None? {
        return Response(401, Message(Unauthorized));
      }
      var user := verify(token.value);
      if user.None? || body.Unreadable? {
        return Response(401, Message(InvalidToken));
      }
      var name := Field(body, "name");
      if !Truthy(name) {
        return Response(400, Message(NameRequired));
      }
      if fault == LookupThrows {
        return Response(401, Message(InvalidToken));
      }
      if NameInUse(rows, name.value) {
        return Response(400, Message(NameTaken));
      }
      if fault == CreateThrows {
        return Response(401, Message(InvalidToken));
      }
      var board := Board(nextId, name.value, user.value.id);
      rows := rows + [board];
      nextId := nextId + 1;
      r := Response(201, Data(board));
    }
  }
}
