/**
 * Socket.IO rooms as server.ts uses them: a board's room is named
 * `board-<id>` (server.ts:88), and canvasUpdate recovers the id from the name
 * with `parseInt(room.split("-")[1], 10)` (server.ts:121).
 *
 * Room membership is kept as one log of (socket, room) pairs in the order the
 * joins happened. Socket.IO's adapter keeps the same information as two
 * insertion-ordered sets, the rooms of each socket (what `socket.rooms`
 * enumerates) and the sockets of each room (what `allSockets()` returns);
 * both orders are read off the log.
 */
module Rooms {
  import opened JsText

  type SocketId = string

  const BoardRoomPrefix: string := "board-"

  /** `board-${boardId}` */
  function RoomName(boardId: SafeInteger): (room: string)
    ensures StartsWith(room, BoardRoomPrefix)
  {
    BoardRoomPrefix + IntToString(boardId)
  }

  /** `parseInt(room.split("-")[1], 10)`, None standing for NaN; a name with no
      dash has no part 1, and parseInt of undefined is NaN. */
  function DecodeRoom(room: string): Option<int> {
    var parts := Split(room, '-');
    if |parts| < 2 then None else ParseInt(parts[1])
  }

  lemma RoomNameParts(boardId: SafeInteger)
    ensures Split(RoomName(boardId), '-') ==
            if boardId < 0 then ["board", "", NatToDigits(-boardId)] else ["board", IntToString(boardId)]
  {
    var d := NatToDigits(if boardId < 0 then -boardId else boardId);
    DigitsHaveNoSign(d, '-');
    SplitWithoutSeparator(d, '-');
    if boardId < 0 {
      assert RoomName(boardId) == "board" + ([ '-' ] + ([ '-' ] + d));
      SplitAtSeparator(d, '-');
      SplitAtSeparator(['-'] + d, '-');
      SplitAfterPrefix("board", ['-'] + (['-'] + d), '-');
      assert Split(['-'] + (['-'] + d), '-') == ["", "", d];
      assert "board" + "" == "board";
    } else {
      assert IntToString(boardId) == d;
      assert RoomName(boardId) == "board" + (['-'] + d);
      SplitAtSeparator(d, '-');
      SplitAfterPrefix("board", ['-'] + d, '-');
      assert Split(['-'] + d, '-') == ["", d];
      assert "board" + "" == "board";
    }
  }

  /** Decoding a room name gives back every non-negative board id ... */
  lemma DecodeRoomName(boardId: SafeInteger)
    requires boardId >= 0
    ensures DecodeRoom(RoomName(boardId)) == Some(boardId)
  {
    RoomNameParts(boardId);
    ParseIntOfIntToString(boardId);
  }

  /** ... but no negative one: `board--5` splits into "board", "" and "5", and
      part 1 is the empty string, which parseInt reads as NaN. */
  lemma DecodeNegativeRoomName(boardId: SafeInteger)
    requires boardId < 0
    ensures DecodeRoom(RoomName(boardId)) == None
  {
    RoomNameParts(boardId);
  }

  /** Distinct board ids have distinct rooms. */
  lemma RoomNameInjective(a: SafeInteger, b: SafeInteger)
    requires RoomName(a) == RoomName(b)
    ensures a == b
  {
    var sa := IntToString(a);
    var sb := IntToString(b);
    assert sa == RoomName(a)[|BoardRoomPrefix|..];
    assert sb == RoomName(b)[|BoardRoomPrefix|..];
    ParseIntOfIntToString(a);
    ParseIntOfIntToString(b);
  }

  // ---------------------------------------------------------------------------
  // Membership log

  datatype Membership = Membership(socket: SocketId, room: string)

  /** No element occurs twice: the last one is not among the earlier ones,
      which have no repeats either. */
  ghost predicate NoDuplicates<T>(xs: seq<T>) {
    xs == [] || (xs[|xs| - 1] !in xs[..|xs| - 1] && NoDuplicates(xs[..|xs| - 1]))
  }

  /** The rooms of socket `s`, in the order it joined them: what
      `socket.rooms` enumerates. */
  function RoomsOf(log: seq<Membership>, s: SocketId): seq<string> {
    if log == [] then []
    else
      var last := log[|log| - 1];
      RoomsOf(log[..|log| - 1], s) + (if last.socket == s then [last.room] else [])
  }

  /** The sockets in `room`, in the order they joined it: what
      `io.in(room).allSockets()` yields. */
  function MembersOf(log: seq<Membership>, room: string): seq<SocketId> {
    if log == [] then []
    else
      var last := log[|log| - 1];
      MembersOf(log[..|log| - 1], room) + (if last.room == room then [last.socket] else [])
  }

  lemma {:induction false} RoomsOfIsMembership(log: seq<Membership>, s: SocketId, room: string)
    ensures room in RoomsOf(log, s) <==> Membership(s, room) in log
  {
    if log != [] {
      RoomsOfIsMembership(log[..|log| - 1], s, room);
      assert log == log[..|log| - 1] + [log[|log| - 1]];
    }
  }

  lemma {:induction false} MembersOfIsMembership(log: seq<Membership>, s: SocketId, room: string)
    ensures s in MembersOf(log, room) <==> Membership(s, room) in log
  {
    if log != [] {
      MembersOfIsMembership(log[..|log| - 1], s, room);
      assert log == log[..|log| - 1] + [log[|log| - 1]];
    }
  }

  /** A socket never logged twice in a room is listed in it once. */
  lemma {:induction false} RoomsOfNoDuplicates(log: seq<Membership>, s: SocketId)
    ensures NoDuplicates(log) ==> NoDuplicates(RoomsOf(log, s))
  {
    if log != [] && NoDuplicates(log) {
      var init := log[..|log| - 1];
      var last := log[|log| - 1];
      RoomsOfNoDuplicates(init, s);
      assert NoDuplicates(init);
      if last.socket == s {
        assert last !in init && last == Membership(s, last.room);
        RoomsOfIsMembership(init, s, last.room);
        var rooms := RoomsOf(init, s) + [last.room];
        assert forall i :: 0 <= i < |rooms| - 1 ==> rooms[i] == RoomsOf(init, s)[i];
      } else {
        assert RoomsOf(log, s) == RoomsOf(init, s) + [] == RoomsOf(init, s);
      }
    }
  }

  /** `socket.join(room)`: adds the pair unless it is already there, and never
      removes the socket from another room. */
  function Join(log: seq<Membership>, s: SocketId, room: string): (log': seq<Membership>)
    ensures Membership(s, room) in log'
    ensures forall m :: m in log' <==> m in log || m == Membership(s, room)
    ensures NoDuplicates(log) ==> NoDuplicates(log')
  {
    if Membership(s, room) in log then log else log + [Membership(s, room)]
  }

  lemma JoinRooms(log: seq<Membership>, s: SocketId, room: string, t: SocketId)
    ensures RoomsOf(Join(log, s, room), t) ==
            if t == s && room !in RoomsOf(log, s) then RoomsOf(log, t) + [room] else RoomsOf(log, t)
  {
    RoomsOfIsMembership(log, s, room);
    if Membership(s, room) !in log {
      var log' := log + [Membership(s, room)];
      assert log'[..|log'| - 1] == log;
      assert RoomsOf(log', t) == RoomsOf(log, t) + (if t == s then [room] else []);
    }
  }

  lemma JoinMembers(log: seq<Membership>, s: SocketId, room: string, r: string)
    ensures MembersOf(Join(log, s, room), r) ==
            if r == room && s !in MembersOf(log, room) then MembersOf(log, r) + [s] else MembersOf(log, r)
  {
    MembersOfIsMembership(log, s, room);
    if Membership(s, room) !in log {
      var log' := log + [Membership(s, room)];
      assert log'[..|log'| - 1] == log;
      assert MembersOf(log', r) == MembersOf(log, r) + (if r == room then [s] else []);
    }
  }

  /** `xs` with every occurrence of `x` taken out, order kept. */
  function Without(xs: seq<SocketId>, x: SocketId): (ys: seq<SocketId>)
    ensures forall y :: y in ys <==> y in xs && y != x
  {
    if xs == [] then []
    else Without(xs[..|xs| - 1], x) + (if xs[|xs| - 1] == x then [] else [xs[|xs| - 1]])
  }

  /** What Socket.IO does to a closing socket: it leaves every room. */
  function LeaveAll(log: seq<Membership>, s: SocketId): (log': seq<Membership>)
    ensures forall m :: m in log' <==> m in log && m.socket != s
    ensures NoDuplicates(log) ==> NoDuplicates(log')
  {
    if log == [] then []
    else
      var init := log[..|log| - 1];
      var last := log[|log| - 1];
      assert forall m :: m in log <==> m in init || m == last;
      var kept := LeaveAll(init, s);
      if last.socket == s then kept
      else
        assert (kept + [last])[..|kept|] == kept;
        kept + [last]
  }

  lemma {:induction false} LeaveAllRooms(log: seq<Membership>, s: SocketId, t: SocketId)
    ensures RoomsOf(LeaveAll(log, s), t) == if t == s then [] else RoomsOf(log, t)
  {
    if log != [] {
      var init := log[..|log| - 1];
      var last := log[|log| - 1];
      LeaveAllRooms(init, s, t);
      var l := LeaveAll(init, s);
      assert RoomsOf(log, t) == RoomsOf(init, t) + (if last.socket == t then [last.room] else []);
      if last.socket != s {
        var l' := l + [last];
        assert LeaveAll(log, s) == l';
        assert l'[..|l'| - 1] == l;
        assert RoomsOf(l', t) == RoomsOf(l, t) + (if last.socket == t then [last.room] else []);
      } else {
        assert LeaveAll(log, s) == l + [] == l;
      }
    }
  }

  lemma {:induction false} LeaveAllMembers(log: seq<Membership>, s: SocketId, room: string)
    ensures MembersOf(LeaveAll(log, s), room) == Without(MembersOf(log, room), s)
  {
    if log != [] {
      var init := log[..|log| - 1];
      var last := log[|log| - 1];
      LeaveAllMembers(init, s, room);
      var l := LeaveAll(init, s);
      var ms := MembersOf(init, room);
      if last.socket != s {
        assert (l + [last])[..|l + [last]| - 1] == l;
      } else {
        assert l + [] == l;
      }
      if last.room == room {
        var ms' := ms + [last.socket];
        assert ms'[..|ms'| - 1] == ms;
      } else {
        assert ms + [] == ms;
      }
    }
  }

  lemma LeaveAllMembersEverywhere(log: seq<Membership>, s: SocketId)
    ensures forall room :: MembersOf(LeaveAll(log, s), room) == Without(MembersOf(log, room), s)
  {
    forall room {
      LeaveAllMembers(log, s, room);
    }
  }
}
