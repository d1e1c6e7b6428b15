/**
 * A client of the coordinator, in steps. Two users connect from sockets `a`
 * and `b`, and a third socket `x` presenting the second user's token is
 * turned away; both open board `n`, whose stored canvas is empty; the first
 * user draws; the second leaves. Each step is a method whose outcome follows
 * from the handlers' contracts; the lemmas work out the room log of the
 * session.
 */
module SessionScenario {
  import opened JsText
  import opened Auth
  import opened Rooms
  import opened Session

  /** Who takes part: three distinct sockets and two users with distinct,
      non-empty usernames. */
  predicate Cast(a: SocketId, b: SocketId, x: SocketId, first: Identity, second: Identity) {
    && a != b && a != x && b != x
    && first.username != second.username && first.username != "" && second.username != ""
  }

  lemma SingleLog(a: SocketId, room: string, sockets: map<SocketId, Identity>)
    requires a in sockets && sockets[a].username != ""
    ensures Join([], a, room) == [Membership(a, room)]
    ensures MembersOf([Membership(a, room)], room) == [a]
    ensures CurrentUsernames([a], sockets) == [sockets[a].username]
  {
    assert [Membership(a, room)][..0] == [] && [a][..0] == [];
    assert MembersOf([Membership(a, room)], room) == MembersOf([], room) + [a];
    assert CurrentUsernames([a], sockets) == CurrentUsernames([], sockets) + [sockets[a].username];
  }

  lemma JoinSecond(a: SocketId, b: SocketId, room: string)
    requires a != b
    ensures Join([Membership(a, room)], b, room) == [Membership(a, room), Membership(b, room)]
  {
    assert Membership(b, room) !in [Membership(a, room)];
  }

  lemma PairUsernames(a: SocketId, b: SocketId, sockets: map<SocketId, Identity>)
    requires a in sockets && b in sockets && sockets[a].username != "" && sockets[b].username != ""
    ensures CurrentUsernames([a, b], sockets) == [sockets[a].username, sockets[b].username]
  {
    SingleLog(a, "", sockets);
    assert [a, b][..1] == [a];
    assert CurrentUsernames([a, b], sockets) == CurrentUsernames([a], sockets) + [sockets[b].username];
  }

  lemma FirstRoomOfPair(a: SocketId, b: SocketId, room: string)
    requires a != b && StartsWith(room, BoardRoomPrefix)
    ensures FirstBoardRoom(RoomsOf([Membership(a, room), Membership(b, room)], a)) == Some(room)
  {
    var first := [Membership(a, room)];
    var log := first + [Membership(b, room)];
    assert log[..1] == first && first[..0] == [];
    assert RoomsOf(first, a) == RoomsOf([], a) + [room];
    assert RoomsOf(log, a) == RoomsOf(first, a) + [] == [room];
  }

  lemma PairLeaves(a: SocketId, b: SocketId, room: string)
    requires a != b
    ensures LeaveAll([Membership(a, room), Membership(b, room)], b) == [Membership(a, room)]
  {
    var first := [Membership(a, room)];
    var log := first + [Membership(b, room)];
    assert log[..1] == first && first[..0] == [];
    assert LeaveAll(first, b) == LeaveAll([], b) + first;
    assert LeaveAll(log, b) == LeaveAll(first, b) + [];
  }

  lemma PairMinusSecond<K, V>(a: K, b: K, first: V, second: V)
    requires a != b
    ensures map[a := first, b := second] - {b} == map[a := first]
  {
    assert (map[a := first, b := second] - {b}).Keys == {a};
  }

  /** Both users connect; the second connection presenting the second user's
      token is refused and leaves that user's registration alone. */
  method ConnectBoth(verify: string -> Option<Identity>, tokenA: string, tokenB: string,
                     a: SocketId, b: SocketId, x: SocketId, first: Identity, second: Identity, n: int)
    returns (c: Coordinator)
    requires Cast(a, b, x, first, second)
    requires tokenA != "" && tokenB != "" && verify(tokenA) == Some(first) && verify(tokenB) == Some(second)
    ensures fresh(c) && c.Valid()
    ensures c.activeUsers == map[first.username := a, second.username := b]
    ensures c.sockets == map[a := first, b := second]
    ensures c.memberships == [] && c.canvases == map[n := ""]
    ensures c.outbox == [Delivery({x}, DuplicateLogin(UsernameInUse))]
  {
    c := new Coordinator(map[n := ""]);
    var accepted := c.Connect(a, Some(tokenA), verify);
    assert accepted == Accepted(first);
    accepted := c.Connect(b, Some(tokenB), verify);
    assert accepted == Accepted(second);
    var again := c.Connect(x, Some(tokenB), verify);
    assert again == DuplicateRejected(second);
  }

  /** The first user opens board `n`: no loadCanvas, since the stored canvas
      is empty, but a userJoined about themself and a user list naming only
      them. */
  method FirstJoins(c: Coordinator, a: SocketId, b: SocketId, first: Identity, second: Identity, n: SafeInteger)
    requires c.Valid() && a != b && first.username != "" && n != 0
    requires c.sockets == map[a := first, b := second]
    requires c.memberships == [] && c.canvases == map[n := ""]
    modifies c
    ensures c.Valid() && c.sockets == old(c.sockets) && c.canvases == old(c.canvases)
    ensures c.activeUsers == old(c.activeUsers)
    ensures c.memberships == [Membership(a, RoomName(n))]
    ensures c.outbox == old(c.outbox) + [ Delivery({a}, UserJoined(first.username)),
                                          Delivery({a}, CurrentUsers([first.username])) ]
  {
    assert Recipients([a]) == {a};
    SingleLog(a, RoomName(n), c.sockets);
    assert LoadNotice(c.canvases, n, a) == [];
    assert c.outbox + [] == c.outbox;
    c.JoinBoard(a, Num(n));
  }

  /** The second user opens board `n`: both hear of their arrival, and their
      user list names both users, in join order. */
  method SecondJoins(c: Coordinator, a: SocketId, b: SocketId, first: Identity, second: Identity, n: SafeInteger)
    requires c.Valid() && a != b && first.username != "" && second.username != "" && n != 0
    requires c.sockets == map[a := first, b := second]
    requires c.memberships == [Membership(a, RoomName(n))] && c.canvases == map[n := ""]
    modifies c
    ensures c.Valid() && c.sockets == old(c.sockets) && c.canvases == old(c.canvases)
    ensures c.activeUsers == old(c.activeUsers)
    ensures c.memberships == [Membership(a, RoomName(n)), Membership(b, RoomName(n))]
    ensures c.outbox == old(c.outbox) + [ Delivery({a, b}, UserJoined(second.username)),
                                          Delivery({b}, CurrentUsers([first.username, second.username])) ]
  {
    var room := RoomName(n);
    assert Recipients([a, b]) == {a, b};
    PairLog(a, b, room);
    PairUsernames(a, b, c.sockets);
    JoinSecond(a, b, room);
    assert LoadNotice(c.canvases, n, b) == [];
    assert c.outbox + [] == c.outbox;
    c.JoinBoard(b, Num(n));
  }

  /** The first user draws: the canvas is stored under board `n`, and the
      drawing goes to the second user but not back to the sender. */
  method FirstDraws(c: Coordinator, a: SocketId, b: SocketId, n: SafeInteger, drawing: string)
    requires c.Valid() && a != b && a in c.sockets && n > 0
    requires c.memberships == [Membership(a, RoomName(n)), Membership(b, RoomName(n))]
    requires c.canvases == map[n := ""]
    modifies c
    ensures c.Valid() && c.sockets == old(c.sockets) && c.memberships == old(c.memberships)
    ensures c.activeUsers == old(c.activeUsers)
    ensures c.canvases == map[n := drawing]
    ensures c.outbox == old(c.outbox) + [Delivery({b}, CanvasUpdate(drawing))]
  {
    var room := RoomName(n);
    assert Recipients([a, b]) - {a} == {b};
    assert c.canvases[n := drawing] == map[n := drawing];
    PairLog(a, b, room);
    FirstRoomOfPair(a, b, room);
    DecodeRoomName(n);
    assert FirstBoardRoom(RoomsOf(c.memberships, a)) == Some(room);
    assert DecodeRoom(room) == Some(n) && n in c.canvases;
    c.UpdateCanvas(a, drawing, false);
  }

  /** The second user leaves: their socket and room membership are gone, and
      the first user, still in board `n`, is told who left. */
  method SecondLeaves(c: Coordinator, a: SocketId, b: SocketId, first: Identity, second: Identity, n: SafeInteger)
    requires c.Valid() && a != b && first.username != second.username
    requires c.activeUsers == map[first.username := a, second.username := b]
    requires c.sockets == map[a := first, b := second]
    requires c.memberships == [Membership(a, RoomName(n)), Membership(b, RoomName(n))]
    modifies c
    ensures c.Valid() && c.canvases == old(c.canvases)
    ensures c.activeUsers == map[first.username := a] && c.sockets == map[a := first]
    ensures c.memberships == [Membership(a, RoomName(n))]
    ensures c.outbox == old(c.outbox) + DisconnectNotices(old(c.memberships), b, second.username)
    ensures Delivery({a}, UserLeft(second.username)) in DisconnectNotices(old(c.memberships), b, second.username)
  {
    UserLeftLost(a, b, RoomName(n), second.username);
    PairLeaves(a, b, RoomName(n));
    PairMinusSecond(a, b, first, second);
    PairMinusSecond(first.username, second.username, a, b);
    c.Disconnect(b);
  }

  /** The whole session: afterwards only the first user is connected, still
      in board `n`, the canvas holds the drawing, and the outbox holds both
      the drawing sent to the second user and the intended `userLeft` notice
      that they left. */
  method TwoUsersOnOneBoard(verify: string -> Option<Identity>, tokenA: string, tokenB: string,
                            a: SocketId, b: SocketId, x: SocketId, first: Identity, second: Identity,
                            n: SafeInteger, drawing: string)
    returns (c: Coordinator)
    requires Cast(a, b, x, first, second) && n > 0
    requires tokenA != "" && tokenB != "" && verify(tokenA) == Some(first) && verify(tokenB) == Some(second)
    ensures fresh(c) && c.Valid()
    ensures c.activeUsers == map[first.username := a]
    ensures c.sockets == map[a := first] && c.memberships == [Membership(a, RoomName(n))]
    ensures c.canvases == map[n := drawing]
    ensures Delivery({b}, CanvasUpdate(drawing)) in c.outbox
    ensures Delivery({a}, UserLeft(second.username)) in c.outbox
  {
    c := ConnectBoth(verify, tokenA, tokenB, a, b, x, first, second, n);
    FirstJoins(c, a, b, first, second, n);
    SecondJoins(c, a, b, first, second, n);
    FirstDraws(c, a, b, n, drawing);
    ghost var drawn := c.outbox;
    assert Delivery({b}, CanvasUpdate(drawing)) == drawn[|drawn| - 1];
    SecondLeaves(c, a, b, first, second, n);
    assert c.outbox[..|drawn|] == drawn;
  }
}
