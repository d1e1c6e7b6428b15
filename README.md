# Collaborative whiteboard: session coordinator and REST routes

The system is a collaborative whiteboard. Users register and log in over REST and receive a signed token. They create named boards, then open a board in the browser. A Socket.IO server there relays drawing updates between everyone on the same board and saves the latest canvas to the board table.

This project models the core of that system in Dafny:

- **The session coordinator of `server.ts`** (module `Session`, class `Session.Coordinator`). It holds:
  - the presence registry `activeUsers` (username to socket id);
  - the connected sockets, with the identity the authentication middleware attached to each;
  - room membership, as one log of (socket, room) joins in the order they happened;
  - the canvas column of the board table;
  - an outbox recording every emit in order.

  Each handler is one method:
  - `Connect`: the middleware, the duplicate-login check and registration;
  - `JoinBoard`, `UpdateCanvas` and `Disconnect`.

  The room name `board-<id>` and its decoding with `split("-")[1]` and `parseInt` are pure functions (module `Rooms`). They are built on a model of the JavaScript string and number operations involved (module `JsText`).
- **The REST routes.**
  - `GET`/`POST /api/boards` (module `BoardsRoute`): the listing is a function, creation a method on the class `BoardTable`.
  - `POST /api/auth/register` (module `RegisterRoute`): a method on the class `UserTable`.
  - `POST /api/auth/login` (module `LoginRoute`): a function over the user rows.
  - Module `Http` holds the shared response shape, the bearer-token extraction and the request body.
  - Module `Users` holds the user rows and `findUnique` by username.
- **A client scenario** (module `SessionScenario`):
  - two users connect, and a third connection with the second user's token is refused;
  - both open one board;
  - the first draws;
  - the second leaves.

  Each step is a method whose outcome follows from the handlers' contracts.

These are parameters of the operations that use them:
- token signing and verification (`sign: Identity -> string`, `verify: string -> Option<Identity>`);
- bcrypt hashing and comparison (`hash`, `matches`);
- the points where an awaited call or the signing throws (`StoreFault`, `RegisterFault`, `LoginFault`, `writeFails`, `queryFails`).

The model follows the code as written in these places:
- `userJoined` is sent with `io.to(room)`, so it reaches the joining socket too.
- Joining a board never leaves an earlier board room, and `canvasUpdate` writes to the first board room the socket joined.
- `loadCanvas` is sent only when the stored canvas is truthy, so an empty canvas sends nothing.
- A negative board id gives the room `board--5`. Its `split("-")[1]` is the empty string, so the id decodes to NaN and updates from that room are refused as "Invalid board ID.".
- A connection refused as a duplicate returns before its handlers are registered, so it is never added to the sockets and can never remove the original user's presence entry.
- `findMany` throwing in GET, and any lookup or create failure in POST, is answered like a failed verification: 401 "Invalid token".

## Model

| member | source | states |
|---|---|---|
| JsText.Split | server.ts:121 | `split` with a one-character separator yields at least one part. No part contains the separator, and joining the parts with the separator gives back the string. |
| JsText.StartsWith | server.ts:115 | `startsWith`: the string begins with the prefix. |
| JsText.SplitFirstField | src/app/api/boards/route.ts:11 | The first part of a split is everything before the first separator. |
| JsText.ParseInt | server.ts:121 | `parseInt(s, 10)`: leading white space is skipped, then an optional sign, then the longest run of decimal digits. With no digits the result is NaN. |
| JsText.ParseIntWithoutDigits | server.ts:121-122 | A string without a single digit parses to NaN, whatever white space or signs it holds. |
| JsText.ParseIntOfDigits | server.ts:121 | A plain run of digits parses to the number it spells. |
| JsText.ParseIntOfNegative | server.ts:121 | A minus sign before a run of digits gives the negated number. |
| JsText.IntToString | server.ts:88 | `String(n)` for a safe integer: a minus sign exactly for negatives, then decimal digits with no leading zero (only 0 itself starts with `0`). |
| JsText.ParseIntOfIntToString | server.ts:121 | `parseInt(String(n), 10)` is `n` for every safe integer, negatives included. |
| Rooms.RoomName | server.ts:88 | Every board room name starts with `board-`, the prefix canvasUpdate and disconnect look for. |
| Rooms.DecodeRoom | server.ts:121 | `parseInt(room.split("-")[1], 10)`: a name with no dash has no part 1 and decodes to NaN; otherwise part 1 is parsed. |
| Rooms.RoomNameParts | server.ts:121 | `"board-" + n` splits at `-` into `["board", digits]` for n >= 0, and into `["board", "", digits]` for n < 0. |
| Rooms.DecodeRoomName | server.ts:121-125 | Decoding the room of board n gives n back for every n >= 0. |
| Rooms.DecodeNegativeRoomName | server.ts:121-125 | The room of a negative board id decodes to NaN. |
| Rooms.RoomNameInjective | server.ts:88 | Distinct board ids have distinct rooms. |
| Rooms.RoomsOf | server.ts:114 | `Array.from(socket.rooms)`: the socket's rooms in the order it joined them. |
| Rooms.MembersOf | server.ts:102 | `io.in(room).allSockets()`: the room's sockets in the order they joined it. |
| Rooms.RoomsOfIsMembership | server.ts:114 | A room is among a socket's rooms exactly when that join is in the log. |
| Rooms.MembersOfIsMembership | server.ts:102 | A socket is among a room's members exactly when that join is in the log. |
| Rooms.RoomsOfNoDuplicates | server.ts:114 | A log with no pair twice lists each of a socket's rooms once, as a set does. |
| Rooms.Join | server.ts:89 | `socket.join` adds exactly the pair (socket, room) and keeps every other membership. No pair is ever logged twice. |
| Rooms.JoinRooms | server.ts:89 | After a join, the joiner's room list gains the room at the end, unless the joiner was already in it. Every other socket's room list is unchanged. |
| Rooms.JoinMembers | server.ts:89 | After a join, the room's member list gains the joiner at the end, unless the joiner was already a member. Every other room is unchanged. |
| Rooms.LeaveAll | server.ts:144 | A closing socket leaves every room. Every other membership stays, and none is duplicated. |
| Rooms.LeaveAllRooms | server.ts:149 | After leaving, the socket is in no room. Every other socket's room list is as before. |
| Rooms.LeaveAllMembers | server.ts:149-151 | After leaving, each room's member list is the old one with only the leaver taken out, in the same order. |
| Session.PresentedToken | server.ts:45-49 | A token is presented exactly when it is present and non-empty, the two cases `!token` rejects. |
| Session.Authenticate | server.ts:44-63 | A missing or empty token is refused. Otherwise the socket gets the identity verification yields, and is refused when verification fails. |
| Session.OneSocketPerUsername | server.ts:72-78 | While the registry and the sockets match, two connected sockets with the same username are the same socket. |
| Session.PresenceAfterAccept | server.ts:78 | Registering a socket under a username not yet in use keeps the registry and the sockets matching. |
| Session.PresenceAfterDisconnect | server.ts:145 | Deleting a socket's username and the socket keeps the registry and the sockets matching. |
| Session.MembershipsAfterJoin | server.ts:89 | A connected socket joining a room keeps every room member connected and the log free of duplicates. |
| Session.MembersConnected | server.ts:102-108 | Every member of a room is a connected socket, so none of the list's lookups in `io.sockets.sockets` misses. |
| Session.MembershipsAfterLeave | server.ts:144-154 | After a socket leaves its rooms and is removed, every remaining room member is still connected. |
| Session.RejectedBoardId | server.ts:83 | The test `!boardId` or `isNaN(boardId)`: the id is refused exactly when it is NaN or 0. |
| Session.LoadNotice | server.ts:93-96 | `loadCanvas` is sent exactly when the board exists with a non-empty canvas. It goes to the joiner only and carries that canvas. |
| Session.CurrentUsernames | server.ts:102-109 | The user list names only non-empty usernames of the room's connected sockets, lists every such username, and is never longer than the room. |
| Session.CurrentUsernamesAppend | server.ts:103-108 | The list is built member by member in the room's order: the list for two runs of members is the list for the first followed by the list for the second. |
| Session.CurrentUsernamesOne | server.ts:104-108 | A single member contributes its username when it is connected and the username is truthy, and nothing otherwise. With the append lemma, this fixes the list: one name per such member, in room order. |
| Session.FirstBoardRoom | server.ts:114-115 | The result is None exactly when no room starts with `board-`. Otherwise it is the earliest room that does. |
| Session.FirstBoardRoomKept | server.ts:115 | Rooms joined later never change which board room is found first. |
| Session.LaterJoinKeepsTarget | server.ts:89-115 | Once a socket is in a board room, joining another board does not move its canvas updates' target. |
| Session.FirstJoinSetsTarget | server.ts:114-125 | A socket's first join, to board n, makes the room of n its update target. That room decodes back to n for n >= 0 and to NaN for n < 0. |
| Session.BoardRooms | server.ts:149-150 | The board rooms among the rooms: never more than there are rooms. |
| Session.BoardRoomsKept | server.ts:150 | A room is kept exactly when it starts with `board-`, and a list without repeats gives a filtered list without repeats. |
| Session.BoardRoomsAppend | server.ts:149-150 | The filter keeps the rooms' order: filtering two runs of rooms gives the first run's board rooms followed by the second's. |
| Session.BoardRoomsOne | server.ts:150 | A single room is kept exactly when it starts with `board-`. With the append lemma, this fixes the result: the board rooms, each once, in the rooms' order. |
| Session.UserLeftNotices | server.ts:149-153 | Exactly one `userLeft` emit per board room, in the rooms' order: the i-th goes to the members of the i-th board room. Every other room is skipped. |
| Session.DisconnectNoticesAsWritten | server.ts:149-153 | When the handler runs, Socket.IO has already emptied `socket.rooms`, so the forEach sends no `userLeft` at all. |
| Session.DisconnectNotices | server.ts:149-153 | The evidently intended notices: exactly one `userLeft` per board room the socket was in, in join order, to the members that remain. The leaver gets none, and no room is notified twice. |
| Session.UserLeftLost | server.ts:149-153 | Two sockets share a board room and one disconnects. As written, the other is told nothing; the intended notices tell it who left. |
| Session.Coordinator.constructor | server.ts:66 | The coordinator starts with an empty registry, no sockets, no rooms, no emits, and the given board table. |
| Session.Coordinator.Connect | server.ts:44-78 | A refused token gives "Authentication error" and changes nothing. A username already registered gives `duplicateLogin` to the new socket only, with the registry unchanged. Otherwise the username maps to the new socket. The registry and the sockets stay matching. |
| Session.Coordinator.JoinBoard | server.ts:82-110 | A falsy or NaN id gives "Invalid board ID." to the sender only and leaves rooms and canvases untouched. Otherwise the socket joins `board-<id>`, keeping its earlier rooms. Then come `loadCanvas` when the canvas is truthy, `userJoined` to every member including the joiner, and `currentUsers` to the joiner with the members' usernames. |
| Session.Coordinator.EnterRoom | server.ts:88-109 | For an accepted id: the socket joins `board-<id>` and keeps its earlier rooms, then `loadCanvas` when the canvas is truthy, `userJoined` to every member including the joiner, and `currentUsers` to the joiner. Registry, sockets and canvases are unchanged. |
| Session.Coordinator.UpdateCanvas | server.ts:113-141 | A socket in no board room gets "You are not in any board."; a room that decodes to NaN gets "Invalid board ID."; a failed write, or a missing board, gets "Failed to update canvas.". None of these writes anything or broadcasts. Otherwise the first board room's board holds the canvas, and every other member of that room, not the sender, receives it. |
| Session.Coordinator.Disconnect | server.ts:144-154 | The username leaves the registry, the socket leaves the sockets and every room, the canvases are kept, and exactly the intended `userLeft` notices go out, one per board room the socket was in. |
| SessionScenario.ConnectBoth | server.ts:72-78 | Two users connect. A third socket presenting the second user's token gets `duplicateLogin`, and the registry still maps that user to the original socket. |
| SessionScenario.FirstJoins | server.ts:93-109 | The first user to open a board with an empty canvas gets no `loadCanvas`. They get `userJoined` about themself and a user list naming only them. |
| SessionScenario.SecondJoins | server.ts:99-109 | The second user's arrival is announced to both sockets. Their user list names both users in join order. |
| SessionScenario.FirstDraws | server.ts:113-141 | An update from the first user is stored under the board and reaches the second user, not the sender. |
| SessionScenario.SecondLeaves | server.ts:144-154 | When the second user leaves, their registry entry, socket and membership are gone, and the first user's entry stays. The first user is the recipient of the intended `userLeft`. |
| SessionScenario.TwoUsersOnOneBoard | server.ts:69-154 | After the whole session, only the first user is registered and connected, still in the board. The canvas holds the drawing, and the outbox holds both the drawing sent to the second user and the intended `userLeft` notice that they left. |
| Http.BearerToken | src/app/api/boards/route.ts:10-15 | A token is only ever found in a present header. It is non-empty and is exactly the text between the header's first space and the next space or the end. |
| Http.BearerTokenOfHeader | src/app/api/boards/route.ts:11-13 | A header `<scheme> <field>`, followed by nothing or by a further space, yields the field as the token. An empty field (`"Bearer "`, `"Bearer  t"`) yields none. |
| Http.Truthy | src/app/api/auth/register/route.ts:14-19 | `if (!x)` on a body field: a field passes exactly when it is present and non-empty. |
| Http.NoTokenWithoutSpace | src/app/api/boards/route.ts:11-15 | A header with no space yields no token, hence 401 "Unauthorized". |
| BoardsRoute.BoardsOf | src/app/api/boards/route.ts:19-22 | The listed boards are exactly the `{id, name}` projections of the rows with that creator, never more than the table holds. |
| BoardsRoute.BoardsOfAppend | src/app/api/boards/route.ts:19-22 | A new row shows up in its own creator's list and in no other list. In the model's creation order it comes last. |
| BoardsRoute.ListBoards | src/app/api/boards/route.ts:9-28 | No token gives 401 "Unauthorized". The answer is 200 exactly when the token verifies and the query does not throw, and then it carries the caller's boards. A present token that fails verification, or a query that throws, gets 401 "Invalid token". |
| BoardsRoute.BoardTable.Create | src/app/api/boards/route.ts:30-69 | The checks run in the code's order: missing token 401, failed verification or unreadable body 401, falsy name 400, lookup failure 401, name in use 400, create failure 401. Only a 201 adds a row: exactly one, with the next id, that name and the caller's id, which is also returned. Names and ids stay unique. |
| Users.FindUser | src/app/api/auth/register/route.ts:21 | The lookup finds nothing exactly when no row has the username. Otherwise it finds a row with that username, the only one under the unique constraint. |
| Users.FindAppended | src/app/api/auth/register/route.ts:21-37 | A row added under an unused username is what the lookup then finds, and usernames remain unique. |
| RegisterRoute.UserTable.Register | src/app/api/auth/register/route.ts:10-49 | The answers, in order: unreadable body 500, falsy field 400 "Username and password are required.", lookup failure 500, taken username 400 "Username already exists.", hashing or insert failure 500, signing failure 500 (after the row is stored). Otherwise 201 with a token for the new row's id and username. A row is added exactly when the call gets past the insert: one row, with the next id, and its password column holds `hash(password)`, not the password as given. Usernames stay unique. |
| LoginRoute.Login | src/app/api/auth/login/route.ts:10-49 | An unreadable body gives 500 and a falsy field 400. A 400 is only ever the fields message or "Invalid credentials.", and a 500 only follows an unreadable body or an exception. Past the field check, every step is pinned: a throwing lookup gives 500, an unknown username 400 "Invalid credentials.", a throwing comparison 500, a wrong password 400 "Invalid credentials.", and a throwing signing 500. A 200 carries a token for a row whose username and password hash match. With unique usernames and no exception, the answer is 200 exactly when such a row exists. |
| LoginRoute.UnknownUserLooksLikeWrongPassword | src/app/api/auth/login/route.ts:21-37 | An unknown username and a known one with a wrong password get the same response, 400 "Invalid credentials.". |
| LoginRoute.RegisteredUserCanLogIn | src/app/api/auth/login/route.ts:21-41 | A user just stored by the register route with `hash(password)` logs in with that password. They get 200 and a token for their own id and username. |

## Left out

- Logging (`console.*`), Express, Next.js and Socket.IO server setup (server.ts:11-41, 157-166), and the UI and client files: none of them decides any of the behaviour modelled here.
- Interleaving at the `await` points (server.ts:93, 102, 129) and races between find and create in the REST routes: each handler is one atomic step.
- The order in which the recipients of one emit receive it: an emit is one delivery to a set of sockets.
- Each socket's own room named after its id. Socket.IO ids are random URL-safe base64, so one starting with `board-` is possible, but only about once in 64^6 sockets. The model assumes no id does. Such a socket's own room, the first entry of `socket.rooms`, would be the room `canvasUpdate` finds. On disconnect it changes nothing: as written no `userLeft` is sent at all, and under the intended notices the room has no members left to tell.
- `joinBoard` arguments of other types (a string, an object as src/types/socket.ts declares), fractional numbers and numbers beyond 2^53: the id is a safe integer or NaN.
- `joinBoard`'s `findUnique` throwing: it would be an unhandled rejection that stops the handler before `userJoined`, which the model does not represent.
- Prisma's 32-bit `Int` id range, the `createdAt` and canvas columns returned by POST /api/boards, and autoincrement as anything more than a counter.
- The cryptography of bcrypt and JSON Web Tokens, and the token's 7-day expiry. Signing, verification, hashing and comparison are parameters. src/lib/jwt.ts is not part of this model beyond the identity it signs.
- Request body fields that are not strings: a body is unreadable, or a map of string fields.
- BoardsRoute.BoardsOf: the GET query (src/app/api/boards/route.ts:19-22) has no `orderBy`, so the database may return a user's boards in any order. The model lists them in creation order, and `BoardsOfAppend` states that order, which the database does not promise. Only membership and the `{id, name}` projection are promised by the source.
- src/app/api/boards/[id]/route.ts is not part of this model.
- Boards created by POST /api/boards are not added to `Session.Coordinator.canvases`: the board table of the REST routes and the canvas column the coordinator holds are modelled as two separate stores, and the coordinator's is fixed when it is constructed.

## Findings

| source | as written | input that shows it | evidently intended | confidence | as-written member | corrected member |
|---|---|---|---|---|---|---|
| server.ts:149-153 | The disconnect handler sends `userLeft` to each board room in `socket.rooms`. Socket.IO empties `socket.rooms` before it fires "disconnect", so no notice is ever sent. | Sockets A and B both in `board-7`; B disconnects; A receives nothing. | A receives `userLeft` with B's username, as the comment at server.ts:148 says. | not executed | Session.DisconnectNoticesAsWritten, Session.UserLeftLost | Session.DisconnectNotices, Session.Coordinator.Disconnect |
