/**
 * The real-time session coordinator of server.ts (lines 43-155): the
 * Socket.IO authentication middleware, the duplicate-login check on
 * connection, and the `joinBoard`, `canvasUpdate` and `disconnect` handlers.
 *
 * Each handler is one atomic step of a `Coordinator` object that holds the
 * presence registry (`activeUsers`), the connected sockets with the identity
 * the middleware attached to them, the room membership log, the canvas
 * column of the board table, and an outbox recording every emit in order.
 */
module Session {
  import opened JsText
  import opened Auth
  import opened Rooms

  const AuthenticationError: string := "Authentication error"
  const UsernameInUse: string := "Username is already in use."
  const InvalidBoardId: string := "Invalid board ID."
  const NotInAnyBoard: string := "You are not in any board."
  const UpdateFailed: string := "Failed to update canvas."

  /** What the server emits to clients. ConnectError is the error a middleware
      passes to `next`, which the client sees as `connect_error`. */
  datatype Event =
    | ConnectError(message: string)
    | DuplicateLogin(message: string)
    | LoadCanvas(canvas: string)
    | UserJoined(username: string)
    | CurrentUsers(usernames: seq<string>)
    | CanvasUpdate(canvas: string)
    | UserLeft(username: string)
    | Error(message: string)

  /** One emit: `socket.emit` reaches the socket itself, `io.to(room)` every
      member of the room, `socket.to(room)` every member but the sender. */
  datatype Delivery = Delivery(recipients: set<SocketId>, event: Event)

  function Recipients(members: seq<SocketId>): (r: set<SocketId>)
    ensures forall s :: s in r <==> s in members
  {
    set s | s in members
  }

  // ---------------------------------------------------------------------------
  // Authentication middleware (server.ts:44-63)

  /** `socket.handshake.auth.token` if it is truthy: absent and empty both fail
      the `!token` test. */
  function PresentedToken(token: Option<string>): (t: Option<string>)
    ensures t.Some? <==> token.Some? && token.value != ""
    ensures t.Some? ==> t == token
  {
    if token.Some? && token.value != "" then token else None
  }

  /** The identity attached to the socket, or None when the connection is
      refused with "Authentication error". */
  function Authenticate(token: Option<string>, verify: string -> Option<Identity>): (user: Option<Identity>)
    ensures token.None? || token == Some("") ==> user.None?
    ensures token.Some? && token.value != "" ==> user == verify(token.value)
  {
    match PresentedToken(token)
    case None => None
    case Some(t) => verify(t)
  }

  datatype ConnectOutcome =
    | AuthRejected
    | DuplicateRejected(user: Identity)
    | Accepted(user: Identity)

  // ---------------------------------------------------------------------------
  // State invariants

  /** The presence registry and the connected sockets describe each other:
      every registered username points at a connected socket authenticated as
      that user, and every connected socket is the registered one for its
      username. */
  ghost predicate PresenceMatches(activeUsers: map<string, SocketId>, sockets: map<SocketId, Identity>) {
    && (forall u :: u in activeUsers ==> activeUsers[u] in sockets && sockets[activeUsers[u]].username == u)
    && (forall s :: s in sockets ==> sockets[s].username in activeUsers && activeUsers[sockets[s].username] == s)
  }

  /** At most one live socket per username. */
  lemma OneSocketPerUsername(activeUsers: map<string, SocketId>, sockets: map<SocketId, Identity>, s1: SocketId, s2: SocketId)
    requires PresenceMatches(activeUsers, sockets)
    requires s1 in sockets && s2 in sockets && sockets[s1].username == sockets[s2].username
    ensures s1 == s2
  {
    assert activeUsers[sockets[s1].username] == s1;
  }

  /** Only connected sockets are in rooms, and no pair is logged twice. */
  ghost predicate MembershipsOf(log: seq<Membership>, sockets: map<SocketId, Identity>) {
    && NoDuplicates(log)
    && forall m :: m in log ==> m.socket in sockets
  }

  lemma PresenceAfterAccept(activeUsers: map<string, SocketId>, sockets: map<SocketId, Identity>, sid: SocketId, user: Identity)
    requires PresenceMatches(activeUsers, sockets)
    requires sid !in sockets && user.username !in activeUsers
    ensures PresenceMatches(activeUsers[user.username := sid], sockets[sid := user])
  {
  }

  lemma PresenceAfterDisconnect(activeUsers: map<string, SocketId>, sockets: map<SocketId, Identity>, sid: SocketId)
    requires PresenceMatches(activeUsers, sockets) && sid in sockets
    ensures PresenceMatches(activeUsers - {sockets[sid].username}, sockets - {sid})
  {
  }

  lemma MembershipsAfterJoin(log: seq<Membership>, sockets: map<SocketId, Identity>, sid: SocketId, room: string)
    requires MembershipsOf(log, sockets) && sid in sockets
    ensures MembershipsOf(Join(log, sid, room), sockets)
  {
  }

  /** Every member of a room is a connected socket. */
  lemma MembersConnected(log: seq<Membership>, sockets: map<SocketId, Identity>, room: string)
    requires MembershipsOf(log, sockets)
    ensures forall i :: 0 <= i < |MembersOf(log, room)| ==> MembersOf(log, room)[i] in sockets
  {
    var members := MembersOf(log, room);
    forall i | 0 <= i < |members|
      ensures members[i] in sockets
    {
      MembersOfIsMembership(log, members[i], room);
    }
  }

  lemma MembershipsAfterLeave(log: seq<Membership>, sockets: map<SocketId, Identity>, sid: SocketId)
    requires MembershipsOf(log, sockets)
    ensures MembershipsOf(LeaveAll(log, sid), sockets - {sid})
  {
  }

  // ---------------------------------------------------------------------------
  // joinBoard helpers (server.ts:82-110)

  datatype BoardIdArg = Num(n: SafeInteger) | NotANumber

  /** `!boardId || isNaN(boardId)`: NaN and 0 are the falsy numbers. */
  predicate RejectedBoardId(arg: BoardIdArg) {
    arg.NotANumber? || arg.n == 0
  }

  /** The `loadCanvas` emit, sent only when `board?.canvas` is truthy: the
      board exists and its canvas is non-empty. A board whose canvas column is
      null is stored here as "", which is equally falsy. */
  function LoadNotice(canvases: map<int, string>, boardId: int, s: SocketId): (ds: seq<Delivery>)
    ensures |ds| <= 1
    ensures ds != [] <==> boardId in canvases && canvases[boardId] != ""
    ensures ds != [] ==> ds[0] == Delivery({s}, LoadCanvas(canvases[boardId]))
  {
    if boardId in canvases && canvases[boardId] != "" then [Delivery({s}, LoadCanvas(canvases[boardId]))] else []
  }

  /** The `currentUsers` payload: the usernames of the room's sockets in
      the room's order, with falsy ones filtered out. A socket id with no
      connected socket behind it yields undefined and is filtered out too. */
  function CurrentUsernames(members: seq<SocketId>, sockets: map<SocketId, Identity>): (names: seq<string>)
    ensures |names| <= |members|
    ensures forall i :: 0 <= i < |members| && members[i] in sockets && sockets[members[i]].username != "" ==>
              sockets[members[i]].username in names
    ensures forall u :: u in names ==>
              u != "" && exists i :: 0 <= i < |members| && members[i] in sockets && sockets[members[i]].username == u
  {
    if members == [] then []
    else
      var init := members[..|members| - 1];
      var last := members[|members| - 1];
      var name := if last in sockets then sockets[last].username else "";
      var names := CurrentUsernames(init, sockets);
      assert forall i :: 0 <= i < |init| ==> init[i] == members[i];
      names + (if name != "" then [name] else [])
  }

  /** The list is built member by member in the room's order: one name for
      a connected member with a truthy username, none for any other. */
  lemma {:induction false} CurrentUsernamesAppend(a: seq<SocketId>, b: seq<SocketId>, sockets: map<SocketId, Identity>)
    ensures CurrentUsernames(a + b, sockets) == CurrentUsernames(a, sockets) + CurrentUsernames(b, sockets)
  {
    if b == [] {
      assert a + b == a;
    } else {
      var init := b[..|b| - 1];
      var last := b[|b| - 1];
      var tail := if last in sockets && sockets[last].username != "" then [sockets[last].username] else [];
      CurrentUsernamesAppend(a, init, sockets);
      assert (a + b)[..|a + b| - 1] == a + init;
      assert (a + b)[|a + b| - 1] == last;
      assert CurrentUsernames(b, sockets) == CurrentUsernames(init, sockets) + tail;
      assert CurrentUsernames(a + b, sockets) == CurrentUsernames(a + init, sockets) + tail;
    }
  }

  lemma CurrentUsernamesOne(m: SocketId, sockets: map<SocketId, Identity>)
    ensures CurrentUsernames([m], sockets) ==
            if m in sockets && sockets[m].username != "" then [sockets[m].username] else []
  {
    assert [m][..0] == [];
  }

  // ---------------------------------------------------------------------------
  // canvasUpdate helpers (server.ts:113-141)

  /** `rooms.find((room) => room.startsWith("board-"))` */
  function FirstBoardRoom(rooms: seq<string>): (r: Option<string>)
    ensures r.None? <==> forall i :: 0 <= i < |rooms| ==> !StartsWith(rooms[i], BoardRoomPrefix)
    ensures r.Some? ==> exists k :: 0 <= k < |rooms| && rooms[k] == r.value
                                    && StartsWith(rooms[k], BoardRoomPrefix)
                                    && forall i :: 0 <= i < k ==> !StartsWith(rooms[i], BoardRoomPrefix)
  {
    if rooms == [] then None
    else if StartsWith(rooms[0], BoardRoomPrefix) then Some(rooms[0])
    else
      var r := FirstBoardRoom(rooms[1..]);
      assert forall i :: 1 <= i < |rooms| ==> rooms[i] == rooms[1..][i - 1];
      r
  }

  /** Appending rooms never changes which board room is found first. */
  lemma {:induction false} FirstBoardRoomKept(rooms: seq<string>, more: seq<string>)
    requires FirstBoardRoom(rooms).Some?
    ensures FirstBoardRoom(rooms + more) == FirstBoardRoom(rooms)
  {
    assert (rooms + more)[0] == rooms[0];
    if !StartsWith(rooms[0], BoardRoomPrefix) {
      assert (rooms + more)[1..] == rooms[1..] + more;
      FirstBoardRoomKept(rooms[1..], more);
    }
  }

  /** Joining another board does not move canvasUpdate's target: once a
      socket is in a board room, its updates keep going to the first one. */
  lemma LaterJoinKeepsTarget(log: seq<Membership>, s: SocketId, room: string)
    requires FirstBoardRoom(RoomsOf(log, s)).Some?
    ensures FirstBoardRoom(RoomsOf(Join(log, s, room), s)) == FirstBoardRoom(RoomsOf(log, s))
  {
    JoinRooms(log, s, room, s);
    if room !in RoomsOf(log, s) {
      FirstBoardRoomKept(RoomsOf(log, s), [room]);
    }
  }

  /** A socket's first board join fixes the board its updates are written to:
      board n for n >= 0, and none at all (the update is refused as an invalid
      board id) for n < 0. */
  lemma FirstJoinSetsTarget(log: seq<Membership>, s: SocketId, n: SafeInteger)
    requires RoomsOf(log, s) == []
    ensures FirstBoardRoom(RoomsOf(Join(log, s, RoomName(n)), s)) == Some(RoomName(n))
    ensures DecodeRoom(RoomName(n)) == if n >= 0 then Some(n) else None
  {
    JoinRooms(log, s, RoomName(n), s);
    assert RoomsOf(Join(log, s, RoomName(n)), s) == [RoomName(n)];
    if n >= 0 { DecodeRoomName(n); } else { DecodeNegativeRoomName(n); }
  }

  // ---------------------------------------------------------------------------
  // disconnect helpers (server.ts:144-154)

  /** The board rooms among `rooms`, in their order. */
  function BoardRooms(rooms: seq<string>): (boards: seq<string>)
    ensures |boards| <= |rooms|
  {
    if rooms == [] then []
    else
      var init := rooms[..|rooms| - 1];
      var room := rooms[|rooms| - 1];
      BoardRooms(init) + (if StartsWith(room, BoardRoomPrefix) then [room] else [])
  }

  /** A room is kept exactly when it is a board room, and a list without
      repeats gives a filtered list without repeats. */
  lemma {:induction false} BoardRoomsKept(rooms: seq<string>)
    ensures forall r :: r in BoardRooms(rooms) <==> r in rooms && StartsWith(r, BoardRoomPrefix)
    ensures NoDuplicates(rooms) ==> NoDuplicates(BoardRooms(rooms))
  {
    if rooms != [] {
      var init := rooms[..|rooms| - 1];
      var room := rooms[|rooms| - 1];
      BoardRoomsKept(init);
      assert rooms == init + [room];
      assert forall r :: r in rooms <==> r in init || r == room;
      var kept := BoardRooms(init);
      if StartsWith(room, BoardRoomPrefix) {
        assert (kept + [room])[..|kept|] == kept;
      } else {
        assert kept + [] == kept;
      }
    }
  }

  /** The filter keeps the rooms' order: it works room by room. */
  lemma {:induction false} BoardRoomsAppend(a: seq<string>, b: seq<string>)
    ensures BoardRooms(a + b) == BoardRooms(a) + BoardRooms(b)
  {
    if b == [] {
      assert a + b == a;
    } else {
      var init := b[..|b| - 1];
      var last := b[|b| - 1];
      var tail := if StartsWith(last, BoardRoomPrefix) then [last] else [];
      BoardRoomsAppend(a, init);
      assert (a + b)[..|a + b| - 1] == a + init;
      assert (a + b)[|a + b| - 1] == last;
      assert BoardRooms(b) == BoardRooms(init) + tail;
      assert BoardRooms(a + b) == BoardRooms(a + init) + tail;
    }
  }

  lemma BoardRoomsOne(room: string)
    ensures BoardRooms([room]) == if StartsWith(room, BoardRoomPrefix) then [room] else []
  {
    assert [room][..0] == [];
  }

  /** Lines 149-153: for each of `rooms` that is a board room, one `userLeft`
      emit to that room's members in `log`. */
  function UserLeftNotices(rooms: seq<string>, log: seq<Membership>, username: string): (ds: seq<Delivery>)
    // exactly one emit per board room, in the rooms' order, each to that room
    ensures |ds| == |BoardRooms(rooms)|
    ensures forall i :: 0 <= i < |ds| ==>
              ds[i] == Delivery(Recipients(MembersOf(log, BoardRooms(rooms)[i])), UserLeft(username))
    ensures forall d :: d in ds ==> d.event == UserLeft(username)
    ensures forall d :: d in ds ==> exists r :: r in rooms && StartsWith(r, BoardRoomPrefix) && d.recipients == Recipients(MembersOf(log, r))
    ensures forall r :: r in rooms && StartsWith(r, BoardRoomPrefix) ==> Delivery(Recipients(MembersOf(log, r)), UserLeft(username)) in ds
  {
    if rooms == [] then []
    else
      var init := rooms[..|rooms| - 1];
      var room := rooms[|rooms| - 1];
      assert forall r :: r in rooms <==> r in init || r == room;
      UserLeftNotices(init, log, username)
        + (if StartsWith(room, BoardRoomPrefix) then [Delivery(Recipients(MembersOf(log, room)), UserLeft(username))] else [])
  }

  /** The `userLeft` emits as server.ts writes them: Socket.IO has already made
      the closing socket leave all its rooms when it fires "disconnect", so
      `socket.rooms` is empty in the handler and nothing is sent. */
  function DisconnectNoticesAsWritten(log: seq<Membership>, s: SocketId, username: string): (ds: seq<Delivery>)
    ensures ds == []
  {
    var after := LeaveAll(log, s);
    LeaveAllRooms(log, s, s);
    UserLeftNotices(RoomsOf(after, s), after, username)
  }

  /** The `userLeft` emits the handler is evidently meant to make: one for
      each board room the socket was in before it left, to the members that
      remain. */
  function DisconnectNotices(log: seq<Membership>, s: SocketId, username: string): (ds: seq<Delivery>)
    // one emit per board room of the socket, in join order, to the members left in it
    ensures |ds| == |BoardRooms(RoomsOf(log, s))|
    ensures forall i :: 0 <= i < |ds| ==>
              ds[i] == Delivery(Recipients(Without(MembersOf(log, BoardRooms(RoomsOf(log, s))[i]), s)), UserLeft(username))
    // and a socket never logged twice in a room is in each of those rooms once
    ensures NoDuplicates(log) ==> NoDuplicates(BoardRooms(RoomsOf(log, s)))
    ensures forall d :: d in ds ==> d.event == UserLeft(username) && s !in d.recipients
    ensures forall r :: r in RoomsOf(log, s) && StartsWith(r, BoardRoomPrefix) ==>
              Delivery(Recipients(Without(MembersOf(log, r), s)), UserLeft(username)) in ds
  {
    var after := LeaveAll(log, s);
    LeaveAllMembersEverywhere(log, s);
    RoomsOfNoDuplicates(log, s);
    BoardRoomsKept(RoomsOf(log, s));
    UserLeftNotices(RoomsOf(log, s), after, username)
  }

  /** The log of two sockets that joined one room, first `a`, then `b`. */
  lemma PairLog(a: SocketId, b: SocketId, room: string)
    requires a != b
    ensures RoomsOf([Membership(a, room), Membership(b, room)], b) == [room]
    ensures MembersOf([Membership(a, room), Membership(b, room)], room) == [a, b]
  {
    var first := [Membership(a, room)];
    var log := first + [Membership(b, room)];
    assert log[..1] == first && first[..0] == [];
    assert RoomsOf(first, b) == RoomsOf([], b) + [] == [];
    assert RoomsOf(log, b) == RoomsOf(first, b) + [room] == [room];
    assert MembersOf(first, room) == MembersOf([], room) + [a] == [a];
    assert MembersOf(log, room) == MembersOf(first, room) + [b] == [a, b];
  }

  lemma WithoutSecond(a: SocketId, b: SocketId)
    requires a != b
    ensures Without([a, b], b) == [a]
  {
    assert [a, b][..1] == [a] && [a][..0] == [];
    assert Without([a], b) == Without([], b) + [a] == [a];
    assert Without([a, b], b) == Without([a], b) + [] == [a];
  }

  /** Two sockets share a board room and one of them disconnects: as
      written, the other is told nothing; the intended handler tells it who
      left. */
  lemma UserLeftLost(stays: SocketId, leaves: SocketId, room: string, username: string)
    requires stays != leaves && StartsWith(room, BoardRoomPrefix)
    ensures var log := [Membership(stays, room), Membership(leaves, room)];
            && DisconnectNoticesAsWritten(log, leaves, username) == []
            && Delivery({stays}, UserLeft(username)) in DisconnectNotices(log, leaves, username)
  {
    assert Recipients([stays]) == {stays};
    PairLog(stays, leaves, room);
    WithoutSecond(stays, leaves);
  }

  // ---------------------------------------------------------------------------
  // The coordinator

  class Coordinator {
    /** `activeUsers`: username -> socket id (server.ts:66). */
    var activeUsers: map<string, SocketId>
    /** The sockets that passed both checks, with the `socket.user` the
        middleware attached; a socket rejected as a duplicate never gets here. */
    var sockets: map<SocketId, Identity>
    /** Board-room joins, in join order. */
    var memberships: seq<Membership>
    /** The canvas column of the board table, by board id; a key is present
        exactly when a board row with that id exists. */
    var canvases: map<int, string>
    /** Every emit so far. */
    var outbox: seq<Delivery>

    ghost predicate Valid()
      reads this
    {
      PresenceMatches(activeUsers, sockets) && MembershipsOf(memberships, sockets)
    }

    constructor (store: map<int, string>)
      ensures Valid()
      ensures activeUsers == map[] && sockets == map[] && memberships == []
      ensures canvases == store && outbox == []
    {
      activeUsers, sockets, memberships := map[], map[], [];
      canvases, outbox := store, [];
    }

    /** A new socket `sid` arrives: the middleware (server.ts:44-63), then
        the duplicate-login check and registration (server.ts:72-78). */
    method Connect(sid: SocketId, token: Option<string>, verify: string -> Option<Identity>)
      returns (outcome: ConnectOutcome)
      requires Valid() && sid !in sockets
      modifies this
      ensures Valid()
      ensures outcome == match Authenticate(token, verify)
                         case None => AuthRejected
                         case Some(user) =>
                           if user.username in old(activeUsers) then DuplicateRejected(user) else Accepted(user)
      ensures memberships == old(memberships) && canvases == old(canvases)
      ensures outcome.AuthRejected? ==>
                && activeUsers == old(activeUsers) && sockets == old(sockets)
                && outbox == old(outbox) + [Delivery({sid}, ConnectError(AuthenticationError))]
      ensures outcome.DuplicateRejected? ==>
                && activeUsers == old(activeUsers) && sockets == old(sockets)
                && outbox == old(outbox) + [Delivery({sid}, DuplicateLogin(UsernameInUse))]
      ensures outcome.Accepted? ==>
                && activeUsers == old(activeUsers)[outcome.user.username := sid]
                && sockets == old(sockets)[sid := outcome.user]
                && outbox == old(outbox)
    {
      var user := Authenticate(token, verify);
      if user.None? {
        outbox := outbox + [Delivery({sid}, ConnectError(AuthenticationError))];
        return AuthRejected;
      }
      var u := user.value;
      if u.username in activeUsers {
        outbox := outbox + [Delivery({sid}, DuplicateLogin(UsernameInUse))];
        return DuplicateRejected(u);
      }
      PresenceAfterAccept(activeUsers, sockets, sid, u);
      activeUsers := activeUsers[u.username := sid];
      sockets := sockets[sid := u];
      outcome := Accepted(u);
    }

    /** The `joinBoard` handler of socket `sid` (server.ts:82-110). */
    method JoinBoard(sid: SocketId, boardId: BoardIdArg)
      requires Valid() && sid in sockets
      modifies this
      ensures Valid()
      ensures activeUsers == old(activeUsers) && sockets == old(sockets) && canvases == old(canvases)
      ensures RejectedBoardId(boardId) ==>
                && memberships == old(memberships)
                && outbox == old(outbox) + [Delivery({sid}, Error(InvalidBoardId))]
      ensures !RejectedBoardId(boardId) ==>
                var room := RoomName(boardId.n);
                var members := MembersOf(memberships, room);
                && memberships == Join(old(memberships), sid, room)
                && RoomsOf(memberships, sid) ==
                   (if room in RoomsOf(old(memberships), sid) then RoomsOf(old(memberships), sid)
                    else RoomsOf(old(memberships), sid) + [room])
                && sid in members
                && outbox == old(outbox) + LoadNotice(canvases, boardId.n, sid)
                             + [ Delivery(Recipients(members), UserJoined(sockets[sid].username)),
                                 Delivery({sid}, CurrentUsers(CurrentUsernames(members, sockets))) ]
    {
      if RejectedBoardId(boardId) {
        outbox := outbox + [Delivery({sid}, Error(InvalidBoardId))];
        return;
      }
      EnterRoom(sid, boardId.n);
    }

    /** The accepted path of `joinBoard`: join `board-<n>`, then the emits. */
    method EnterRoom(sid: SocketId, n: SafeInteger)
      requires Valid() && sid in sockets
      modifies this
      ensures Valid()
      ensures activeUsers == old(activeUsers) && sockets == old(sockets) && canvases == old(canvases)
      ensures var room := RoomName(n);
              var members := MembersOf(memberships, room);
              && memberships == Join(old(memberships), sid, room)
              && RoomsOf(memberships, sid) ==
                 (if room in RoomsOf(old(memberships), sid) then RoomsOf(old(memberships), sid)
                  else RoomsOf(old(memberships), sid) + [room])
              && sid in members
              && outbox == old(outbox) + LoadNotice(canvases, n, sid)
                           + [ Delivery(Recipients(members), UserJoined(sockets[sid].username)),
                               Delivery({sid}, CurrentUsers(CurrentUsernames(members, sockets))) ]
    {
      var room := RoomName(n);
      JoinRooms(memberships, sid, room, sid);
      MembershipsAfterJoin(memberships, sockets, sid, room);
      var log := Join(memberships, sid, room);
      MembersOfIsMembership(log, sid, room);
      var members := MembersOf(log, room);
      var user := sockets[sid];
      var joined := [ Delivery(Recipients(members), UserJoined(user.username)),
                      Delivery({sid}, CurrentUsers(CurrentUsernames(members, sockets))) ];
      var out := outbox + LoadNotice(canvases, n, sid) + joined;
      assert PresenceMatches(activeUsers, sockets) && MembershipsOf(log, sockets);
      memberships, outbox := log, out;
    }

    /** The `canvasUpdate` handler of socket `sid` (server.ts:113-141).
        `writeFails` stands for `prisma.board.update` throwing for a reason
        other than a missing row (a missing row makes it throw too). */
    method UpdateCanvas(sid: SocketId, canvasData: string, writeFails: bool)
      requires Valid() && sid in sockets
      modifies this
      ensures Valid()
      ensures activeUsers == old(activeUsers) && sockets == old(sockets) && memberships == old(memberships)
      ensures match FirstBoardRoom(RoomsOf(memberships, sid))
              case None =>
                canvases == old(canvases) && outbox == old(outbox) + [Delivery({sid}, Error(NotInAnyBoard))]
              case Some(room) =>
                match DecodeRoom(room)
                case None =>
                  canvases == old(canvases) && outbox == old(outbox) + [Delivery({sid}, Error(InvalidBoardId))]
                case Some(id) =>
                  if writeFails || id !in old(canvases) then
                    canvases == old(canvases) && outbox == old(outbox) + [Delivery({sid}, Error(UpdateFailed))]
                  else
                    && canvases == old(canvases)[id := canvasData]
                    && outbox == old(outbox) + [Delivery(Recipients(MembersOf(memberships, room)) - {sid}, CanvasUpdate(canvasData))]
    {
      var boardRoom := FirstBoardRoom(RoomsOf(memberships, sid));
      if boardRoom.None? {
        outbox := outbox + [Delivery({sid}, Error(NotInAnyBoard))];
        return;
      }
      var room := boardRoom.value;
      var boardId := DecodeRoom(room);
      if boardId.None? {
        outbox := outbox + [Delivery({sid}, Error(InvalidBoardId))];
        return;
      }
      var id := boardId.value;
      if writeFails || id !in canvases {
        outbox := outbox + [Delivery({sid}, Error(UpdateFailed))];
        return;
      }
      canvases := canvases[id := canvasData];
      outbox := outbox + [Delivery(Recipients(MembersOf(memberships, room)) - {sid}, CanvasUpdate(canvasData))];
    }

    /** The `disconnect` handler of socket `sid` (server.ts:144-154),
        together with Socket.IO making the socket leave its rooms. The
        notices are those of DisconnectNotices; see DisconnectNoticesAsWritten
        for what the handler as written sends. */
    method Disconnect(sid: SocketId)
      requires Valid() && sid in sockets
      modifies this
      ensures Valid()
      ensures activeUsers == old(activeUsers) - {old(sockets)[sid].username}
      ensures sockets == old(sockets) - {sid}
      ensures memberships == LeaveAll(old(memberships), sid)
      ensures RoomsOf(memberships, sid) == []
      ensures canvases == old(canvases)
      ensures outbox == old(outbox) + DisconnectNotices(old(memberships), sid, old(sockets)[sid].username)
    {
      var username := sockets[sid].username;
      var notices := DisconnectNotices(memberships, sid, username);
      PresenceAfterDisconnect(activeUsers, sockets, sid);
      MembershipsAfterLeave(memberships, sockets, sid);
      activeUsers := activeUsers - {username};
      sockets := sockets - {sid};
      LeaveAllRooms(memberships, sid, sid);
      memberships := LeaveAll(memberships, sid);
      outbox := outbox + notices;
    }
  }
}
