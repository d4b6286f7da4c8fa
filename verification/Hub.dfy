/**
 The hub's objects and message handlers (server/internal/ws). Each critical section is shown
 to do to the objects what the step system of `HubSteps` says it does to the shared memory.
 */
module Hubs {
  import opened Common
  import opened Records
  import opened Boards
  import opened Messages
  import opened Rooms
  import opened MemStores
  import opened PairedBoards
  import HS = HubSteps

  datatype HubError =
    | NotInRoom | Undecoded | MatchMismatch | WinnerNotInPlayers | StoreUnwired | StoreFailed(error: StoreError)

  function AckJoin(requestId: string, ok: bool, m: string, role: string, opponent: string, reason: string): Envelope {
    Envelope(JOIN_ROOM_ACK, requestId, JoinRoomAckBody(ok, m, role, opponent, reason))
  }

  method RoleOf(uid: string, players: seq<string>) returns (role: string)
    ensures role == HS.RoleOf(uid, players)
  {
    for i := 0 to |players|
      invariant forall k :: 0 <= k < i ==> players[k] != uid
      invariant HS.RoleOf(uid, players)
             == if i == 0 then HS.RoleOf(uid, players) else if uid in players[i..] then "p2" else ""
    {
      assert players[i..] == [players[i]] + players[i + 1..];
      if players[i] == uid {
        return if i == 0 then "p1" else "p2";
      }
      assert i == 0 ==> players[1..] == players[i + 1..];
    }
    return "";
  }

  /** The first player that is not `uid`, or "" when there is none. */
  ghost predicate IsOpponent(uid: string, players: seq<string>, opponent: string) {
    || (opponent == "" && forall p :: p in players ==> p == uid)
    || exists i :: 0 <= i < |players| && players[i] == opponent != uid && forall k :: 0 <= k < i ==> players[k] == uid
  }

  method OpponentOf(uid: string, players: seq<string>) returns (opponent: string)
    ensures IsOpponent(uid, players, opponent)
    ensures players != [] && players[0] != uid ==> opponent == players[0]
    ensures |players| == 2 && players[0] == uid && players[1] != uid ==> opponent == players[1]
    ensures opponent == "" || opponent in players
    ensures (forall i :: 0 <= i < |players| ==> players[i] == uid) ==> opponent == ""
  {
    for i := 0 to |players|
      invariant forall k :: 0 <= k < i ==> players[k] == uid
    {
      if players[i] != uid {
        return players[i];
      }
    }
    return "";
  }

  method HandlePing(env: Envelope, serverNowMs: int) returns (r: Result<Option<Envelope>, HubError>)
    ensures r == if env.body.PingBody?
                 then Ok(Some(Envelope(PONG, env.requestId, PongBody(env.body.clientMs, serverNowMs))))
                 else Err(Undecoded)
  {
    if !env.body.PingBody? {
      return Err(Undecoded);
    }
    return Ok(Some(Envelope(PONG, env.requestId, PongBody(env.body.clientMs, serverNowMs))));
  }

  /** The boards after a match end: a positive score of each of the first two players. */
  function EndScores(bs: BoardMap, m: Match, end: MatchEnd): BoardMap {
    var one :=
      if |m.players| >= 1 && end.scoreP1 > 0 then SubmitBoth(bs, m.puzzleDate, m.players[0], end.scoreP1) else bs;
    if |m.players| >= 2 && end.scoreP2 > 0 then SubmitBoth(one, m.puzzleDate, m.players[1], end.scoreP2) else one
  }

  /** The first score is the first player's, the second the second's. Each, if positive, raises
      that player on the match's daily board and on the global one; no other entry changes. */
  lemma EndScoresExactly(bs: BoardMap, m: Match, end: MatchEnd, board: string, uid: string)
    ensures ScoreOn(EndScores(bs, m, end), board, uid)
         == if board == "lb:daily:" + m.puzzleDate || board == "lb:global:alltime" then
              var one := if |m.players| >= 1 && uid == m.players[0] && end.scoreP1 > 0
                         then Higher(ScoreOn(bs, board, uid), end.scoreP1) else ScoreOn(bs, board, uid);
              if |m.players| >= 2 && uid == m.players[1] && end.scoreP2 > 0 then Higher(one, end.scoreP2) else one
            else ScoreOn(bs, board, uid)
  {
    var one :=
      if |m.players| >= 1 && end.scoreP1 > 0 then SubmitBoth(bs, m.puzzleDate, m.players[0], end.scoreP1) else bs;
    if |m.players| >= 1 && end.scoreP1 > 0 {
      SubmitBothExactly(bs, m.puzzleDate, m.players[0], end.scoreP1, board, uid);
    }
    if |m.players| >= 2 && end.scoreP2 > 0 {
      SubmitBothExactly(one, m.puzzleDate, m.players[1], end.scoreP2, board, uid);
    }
  }

  ghost function Copies(env: Envelope, n: nat): (copies: seq<Envelope>)
    ensures |copies| == n && forall k :: 0 <= k < n ==> copies[k] == env
  {
    if n == 0 then [] else Copies(env, n - 1) + [env]
  }

  /** Writes the frame once to every place in the list, but never to `exclude`. */
  method FanOut(peers: array<Conn>, env: Envelope, exclude: Conn)
    modifies (set d | d in peers[..])`inbox
    ensures forall d: Conn | old(allocated(d)) ::
              d.inbox == old(d.inbox) + Copies(env, if d == exclude then 0 else multiset(peers[..])[d])
  {
    for i := 0 to peers.Length
      invariant forall d: Conn | old(allocated(d)) ::
                  d.inbox == old(d.inbox) + Copies(env, if d == exclude then 0 else multiset(peers[..i])[d])
    {
      var peer := peers[i];
      assert peers[..i + 1] == peers[..i] + [peer];
      if peer != exclude {
        peer.inbox := peer.inbox + [env];
      }
    }
    assert peers[..peers.Length] == peers[..];
  }

  class Hub {
    var conns: set<Conn>
    var rooms: map<string, Room>
    const store: MemStore?
    ghost var allRooms: set<Room>   // every room ever made
    ghost var known: set<Conn>      // every conn ever registered

    ghost predicate Valid()
      reads this, allRooms, set r | r in allRooms :: r.buf
    {
      && conns <= known
      && (forall m :: m in rooms ==> rooms[m] in allRooms)
      && (forall r :: r in allRooms ==> r.Valid())
      && (forall r, q :: r in allRooms && q in allRooms && r != q ==> r.buf != q.buf)
    }

    /** The hub as the step system sees it. */
    ghost function Shared(): HS.Shared<Conn, Room>
      reads this, known`matchID, allRooms`conns
    {
      HS.Shared(conns, rooms,
                map r | r in allRooms :: HS.RoomV(r.matchID, r.conns),
                map c | c in known :: c.matchID)
    }

    constructor (store: MemStore?)
      ensures Valid() && this.store == store && known == {} && allRooms == {}
      ensures Shared() == HS.Shared({}, map[], map[], map[])
    {
      this.store := store;
      conns, rooms, allRooms, known := {}, map[], {}, {};
    }

    method Register(c: Conn)
      requires Valid() && c !in known && c.matchID == ""
      modifies this`conns, this`known
      ensures Valid() && known == old(known) + {c} && allRooms == old(allRooms)
      ensures Shared() == HS.Register(old(Shared()), c)
    {
      conns := conns + {c};
      known := known + {c};
    }

    /** `h.rooms[m]`, made if it is missing. */
    method RoomFor(m: string) returns (room: Room)
      requires Valid()
      modifies this`rooms, this`allRooms
      ensures Valid() && room.matchID == if m in old(rooms) then old(rooms)[m].matchID else m
      ensures if m in old(rooms) then room == old(rooms)[m] && rooms == old(rooms) && allRooms == old(allRooms)
              else fresh(room) && fresh(room.buf) && room.conns == []
                   && rooms == old(rooms)[m := room] && allRooms == old(allRooms) + {room}
    {
      if m in rooms {
        room := rooms[m];
      } else {
        room := new Room(m);
        rooms := rooms[m := room];
        allRooms := allRooms + {room};
      }
    }

    method SetMatchID(c: Conn, m: string)
      requires Valid() && c in known
      modifies c`matchID
      ensures Valid() && Shared() == old(Shared()).(matchOf := old(Shared()).matchOf[c := m])
    {
      c.matchID := m;
    }

    /** `RoomFor`, seen in the shared memory. */
    method MapRoom(m: string) returns (room: Room)
      requires Valid()
      modifies this`rooms, this`allRooms
      ensures Valid() && room in allRooms && (room in old(allRooms) <==> m in old(rooms))
      ensures room !in old(allRooms) ==> fresh(room) && fresh(room.buf)
      ensures m in old(rooms) ==> room == old(rooms)[m] && Shared() == old(Shared())
      ensures m !in old(rooms) ==>
                Shared() == old(Shared()).(rooms := old(rooms)[m := room],
                                           heap := old(Shared()).heap[room := HS.RoomV(m, [])])
    {
      ghost var before := Shared();
      room := RoomFor(m);
      assert Shared().matchOf == before.matchOf;
      if m in before.rooms {
        assert Shared().heap == before.heap;
      } else {
        HeapExtended(before.heap, Shared().heap, room, HS.RoomV(m, []));
      }
    }

    /** First section of JOIN_ROOM, under the hub lock. */
    method LookupOrCreate(c: Conn, m: string) returns (room: Room)
      requires Valid() && c in known
      modifies this`rooms, this`allRooms, c`matchID
      ensures Valid() && room in allRooms && (room in old(allRooms) <==> m in old(rooms))
      ensures room !in old(allRooms) ==> fresh(room) && fresh(room.buf)
      ensures Shared() == HS.LookupOrCreate(old(Shared()), c, m, room).0
      ensures room == HS.LookupOrCreate(old(Shared()), c, m, room).1
    {
      room := MapRoom(m);
      SetMatchID(c, m);
    }

    /** Second section of JOIN_ROOM: room.add, under the room lock only. */
    method AddTo(c: Conn, room: Room)
      requires Valid() && room in allRooms
      modifies room`buf, room`len, room`conns, room.buf
      ensures Valid() && Shared() == HS.AddTo(old(Shared()), c, room)
      ensures room.buf == old(room.buf) || fresh(room.buf)
    {
      ghost var before := Shared();
      AddToBuffer(c, room);
      HeapUpdated(before.heap, Shared().heap, room, HS.RoomV(room.matchID, room.conns));
      assert Shared().matchOf == before.matchOf;
    }

    method AddToBuffer(c: Conn, room: Room)
      requires Valid() && room in allRooms
      modifies room`buf, room`len, room`conns, room.buf
      ensures Valid() && (room.buf == old(room.buf) || fresh(room.buf))
      ensures room.conns == Joined(old(room.conns), c)
    {
      var added := room.Add(c);
    }

    method RemoveFromBuffer(c: Conn, room: Room)
      requires Valid() && room in allRooms
      modifies room`len, room`conns, room.buf
      ensures Valid() && room.conns == Left(old(room.conns), c)
    {
      room.Remove(c);
    }

    method RemoveFrom(c: Conn, room: Room)
      requires Valid() && room in allRooms
      modifies room`len, room`conns, room.buf
      ensures Valid()
      ensures var left := HS.RoomV(room.matchID, Left(old(room.conns), c));
        Shared() == old(Shared()).(heap := old(Shared()).heap[room := left])
    {
      ghost var before := Shared();
      RemoveFromBuffer(c, room);
      HeapUpdated(before.heap, Shared().heap, room, HS.RoomV(room.matchID, room.conns));
      assert Shared().matchOf == before.matchOf;
    }

    method DropConn(c: Conn)
      requires Valid()
      modifies this`conns
      ensures Valid() && Shared() == old(Shared()).(conns := old(conns) - {c})
    {
      conns := conns - {c};
    }

    /** unregister up to and including room.remove. */
    method TakeOut(c: Conn) returns (room: Option<Room>)
      requires Valid() && c in known
      modifies this`conns, allRooms`len, allRooms`conns, set r | r in allRooms :: r.buf
      ensures Valid() && room == HS.RoomOf(old(Shared()), c) && (room.Some? ==> room.value in allRooms)
      ensures Shared() == HS.RemoveFrom(old(Shared()), c)
    {
      DropConn(c);
      if c.matchID == "" || c.matchID !in rooms {
        return None;
      }
      room := Some(rooms[c.matchID]);
      RemoveFrom(c, rooms[c.matchID]);
    }

    method DeleteRoom(m: string)
      requires Valid()
      modifies this`rooms
      ensures Valid() && Shared() == HS.DeleteRoom(old(Shared()), m)
    {
      rooms := rooms - {m};
    }

    /** unregister after room.remove. */
    method Reap(m: string, room: Room)
      requires Valid() && room in allRooms
      modifies this`rooms
      ensures Valid()
      ensures Shared() == if room.conns == [] then HS.DeleteRoom(old(Shared()), m) else old(Shared())
    {
      var empty := room.Empty();
      if empty {
        DeleteRoom(m);
      }
    }

    /** The whole of unregister. */
    method Unregister(c: Conn)
      requires Valid() && c in known
      modifies this`conns, this`rooms, allRooms`len, allRooms`conns, set r | r in allRooms :: r.buf
      ensures Valid() && Shared() == HS.Unregister(old(Shared()), c)
    {
      var room := TakeOut(c);
      if room.Some? {
        assert Shared().heap[room.value].conns == room.value.conns;
        Reap(c.matchID, room.value);
      }
    }

    /** How many copies of a frame for match `m` a broadcast by `exclude` writes to `d`: one for
        each time `d` is listed in the mapped room; never any to `exclude`. */
    ghost function CopiesFor(m: string, d: Conn, exclude: Conn): (n: nat)
      reads this`rooms, (if m in rooms then {rooms[m]} else {})`conns
      ensures n > 0 <==> m in rooms && d in rooms[m].conns && d != exclude
      ensures m in rooms && Distinct(rooms[m].conns) ==> n <= 1
    {
      if m in rooms && d != exclude then
        assert Distinct(rooms[m].conns) ==> multiset(rooms[m].conns)[d] <= 1 by {
          if Distinct(rooms[m].conns) {
            DistinctGetsOne(rooms[m].conns, d);
          }
        }
        multiset(rooms[m].conns)[d]
      else 0
    }

    method BroadcastRoom(m: string, env: Envelope, exclude: Conn)
      requires Valid()
      modifies (if m in rooms then set d | d in rooms[m].conns else {})`inbox
      ensures Valid() && Shared() == old(Shared())
      ensures forall d: Conn | old(allocated(d)) :: d.inbox == old(d.inbox) + Copies(env, old(CopiesFor(m, d, exclude)))
    {
      if m in rooms {
        var peers := rooms[m].Snapshot();
        FanOut(peers, env, exclude);
      }
    }

    // ----- the message handlers

    ghost predicate MayJoin(c: Conn, env: Envelope)
      reads this, c, store
    {
      && store != null && !store.closed && c.uid != "" && env.body.JoinRoomBody? && env.body.joinId != ""
      && env.body.joinId in store.matches && c.uid in store.matches[env.body.joinId].players
    }

    /** The answer to a JOIN_ROOM, before any registration. */
    method VetJoin(c: Conn, env: Envelope) returns (r: Result<Envelope, HubError>)
      ensures r.Err? <==> store != null && c.uid != ""
                          && (!env.body.JoinRoomBody? || (env.body.joinId != "" && store.closed))
      ensures r.Err? ==> r.error == if env.body.JoinRoomBody? then StoreFailed(ErrClosed) else Undecoded
      ensures r.Ok? ==>
                r.value.kind == JOIN_ROOM_ACK && r.value.requestId == env.requestId && r.value.body.JoinRoomAckBody?
      ensures r.Ok? ==> (r.value.body.joined <==> MayJoin(c, env))
      ensures r.Ok? && r.value.body.joined ==>
                c.uid != "" && c.uid in store.matches[env.body.joinId].players && env.body.joinId != ""
      ensures r.Ok? && r.value.body.joined ==>
                var players := store.matches[env.body.joinId].players;
                && r.value.body.matchId == env.body.joinId && r.value.body.reason == ""
                && r.value.body.role == HS.RoleOf(c.uid, players)
                && IsOpponent(c.uid, players, r.value.body.opponentUid)
                && (|players| == 2 && players[0] != players[1] ==>
                      r.value.body.opponentUid == if players[0] == c.uid then players[1] else players[0])
      ensures r.Ok? && !r.value.body.joined ==>
                && r.value.body.role == "" && r.value.body.opponentUid == ""
                && r.value.body.matchId == (if store == null || c.uid == "" then "" else env.body.joinId)
                && r.value.body.reason == if store == null then "sync-pvp disabled"
                                          else if c.uid == "" then "unauthenticated"
                                          else if env.body.joinId == "" then "missing match_id"
                                          else if env.body.joinId !in store.matches then "match not found"
                                          else "uid not in match.players"
    {
      if store == null {
        return Ok(AckJoin(env.requestId, false, "", "", "", "sync-pvp disabled"));
      }
      if c.uid == "" {
        return Ok(AckJoin(env.requestId, false, "", "", "", "unauthenticated"));
      }
      if !env.body.JoinRoomBody? {
        return Err(Undecoded);
      }
      var m := env.body.joinId;
      if m == "" {
        return Ok(AckJoin(env.requestId, false, "", "", "", "missing match_id"));
      }
      var found := store.GetMatch(m);
      if found.Err? {
        if found.error == ErrNotFound {
          return Ok(AckJoin(env.requestId, false, m, "", "", "match not found"));
        }
        return Err(StoreFailed(found.error));
      }
      var role := RoleOf(c.uid, found.value.players);
      HS.RoleOfPlayers(c.uid, found.value.players);
      if role == "" {
        return Ok(AckJoin(env.requestId, false, m, "", "", "uid not in match.players"));
      }
      var opponent := OpponentOf(c.uid, found.value.players);
      return Ok(AckJoin(env.requestId, true, m, role, opponent, ""));
    }

    /** Both sections of JOIN_ROOM, with nothing in between. */
    method Join(c: Conn, m: string)
      requires Valid() && c in known
      modifies this`rooms, this`allRooms, c`matchID
      modifies allRooms`buf, allRooms`len, allRooms`conns, set room | room in allRooms :: room.buf
      ensures Valid() && m in rooms
      ensures Shared() == HS.Join(old(Shared()), c, m, rooms[m])
    {
      var room := LookupOrCreate(c, m);
      AddTo(c, room);
    }

    /** JOIN_ROOM: exactly an authenticated player of a stored match gets in. Nobody else
        changes anything. */
    method HandleJoinRoom(c: Conn, env: Envelope) returns (r: Result<Option<Envelope>, HubError>)
      requires Valid() && c in known
      modifies this`rooms, this`allRooms, c`matchID
      modifies allRooms`buf, allRooms`len, allRooms`conns, set room | room in allRooms :: room.buf
      ensures Valid()
      ensures r.Ok? ==> r.value.Some? && r.value.value.requestId == env.requestId
      ensures r.Ok? ==> r.value.value.kind == JOIN_ROOM_ACK && r.value.value.body.JoinRoomAckBody?
      ensures old(MayJoin(c, env)) <==> r.Ok? && r.value.value.body.joined
      ensures r.Err? <==> store != null && c.uid != ""
                          && (!env.body.JoinRoomBody? || (env.body.joinId != "" && store.closed))
      ensures r.Err? ==> r.error == if env.body.JoinRoomBody? then StoreFailed(ErrClosed) else Undecoded
      ensures r.Ok? && r.value.value.body.joined ==>
                var players := store.matches[env.body.joinId].players;
                && r.value.value.body.matchId == env.body.joinId && r.value.value.body.reason == ""
                && r.value.value.body.role == (if players[0] == c.uid then "p1" else "p2")
                && IsOpponent(c.uid, players, r.value.value.body.opponentUid)
      ensures r.Ok? && !r.value.value.body.joined ==>
                && r.value.value.body.role == "" && r.value.value.body.opponentUid == ""
                && r.value.value.body.matchId == (if store == null || c.uid == "" then "" else env.body.joinId)
                && r.value.value.body.reason == if store == null then "sync-pvp disabled"
                                          else if c.uid == "" then "unauthenticated"
                                          else if env.body.joinId == "" then "missing match_id"
                                          else if env.body.joinId !in store.matches then "match not found"
                                          else "uid not in match.players"
      ensures old(MayJoin(c, env)) ==>
                && env.body.joinId in rooms
                && Shared() == HS.Join(old(Shared()), c, env.body.joinId, rooms[env.body.joinId])
      ensures !old(MayJoin(c, env)) ==> Shared() == old(Shared())
    {
      var ack := VetJoin(c, env);
      if ack.Err? {
        return Err(ack.error);
      }
      assert ack.value.body.joined <==> MayJoin(c, env);
      if ack.value.body.joined {
        HS.RoleOfPlayers(c.uid, store.matches[env.body.joinId].players);
        Join(c, env.body.joinId);
      }
      return Ok(Some(ack.value));
    }

    /** TURN goes to the other conns of the room, and only from a conn that names its own match. */
    method HandleTurn(c: Conn, env: Envelope) returns (r: Result<(), HubError>)
      requires Valid()
      modifies (if c.matchID in rooms then set d | d in rooms[c.matchID].conns else {})`inbox
      ensures r == if c.matchID == "" then Err(NotInRoom)
                   else if !env.body.TurnBody? then Err(Undecoded)
                   else if env.body.turnMatchId != c.matchID then Err(MatchMismatch)
                   else Ok(())
      ensures Valid() && Shared() == old(Shared())
      ensures r.Ok? ==> forall d: Conn | old(allocated(d)) ::
                d.inbox == old(d.inbox) + Copies(env, old(CopiesFor(c.matchID, d, c)))
      ensures r.Err? ==> forall d: Conn | old(allocated(d)) :: d.inbox == old(d.inbox)
    {
      if c.matchID == "" {
        return Err(NotInRoom);
      }
      if !env.body.TurnBody? {
        return Err(Undecoded);
      }
      if env.body.turnMatchId != c.matchID {
        return Err(MatchMismatch);
      }
      BroadcastRoom(c.matchID, env, c);
      return Ok(());
    }

    ghost predicate MayEnd(c: Conn, env: Envelope)
      reads this, c, store
    {
      && store != null && !store.closed && c.matchID != "" && env.body.MatchEndBody?
      && env.body.end.matchID == c.matchID && c.matchID in store.matches
      && (env.body.end.winnerUid == "" || env.body.end.winnerUid in store.matches[c.matchID].players)
    }

    /** Checks the result and writes it: the ended match, then each player's two boards. */
    method PersistEnd(c: Conn, env: Envelope, now: int) returns (r: Result<(), HubError>)
      modifies (if store == null then {} else {store})`matches, (if store == null then {} else {store})`leaderboards
      ensures r.Ok? <==> old(MayEnd(c, env))
      ensures r.Ok? ==>
                && store != null && c.matchID != "" && env.body.MatchEndBody? && env.body.end.matchID == c.matchID
                && c.matchID in old(store.matches)
                && (env.body.end.winnerUid == "" || env.body.end.winnerUid in old(store.matches)[c.matchID].players)
      ensures r.Ok? ==>
                var before := old(store.matches)[c.matchID];
                && store.matches == old(store.matches)[before.id := EndedBy(before, env.body.end, now)]
                && store.leaderboards == EndScores(old(store.leaderboards), before, env.body.end)
      ensures r.Ok? ==>
                var before := old(store.matches)[c.matchID];
                var after := store.matches[before.id];
                && after.state == "ended" && after.winner == env.body.end.winnerUid && after.endedAt == now
                && after == before.(state := after.state, winner := after.winner, turns := after.turns, endedAt := now)
      ensures r.Err? && store != null ==>
                store.matches == old(store.matches) && store.leaderboards == old(store.leaderboards)
      ensures r.Err? ==> r.error == if store == null then StoreUnwired
                                    else if c.matchID == "" then NotInRoom
                                    else if !env.body.MatchEndBody? then Undecoded
                                    else if env.body.end.matchID != c.matchID then MatchMismatch
                                    else if store.closed then StoreFailed(ErrClosed)
                                    else if c.matchID !in store.matches then StoreFailed(ErrNotFound)
                                    else WinnerNotInPlayers
    {
      if store == null {
        return Err(StoreUnwired);
      }
      if c.matchID == "" {
        return Err(NotInRoom);
      }
      if !env.body.MatchEndBody? {
        return Err(Undecoded);
      }
      var req := env.body.end;
      if req.matchID != c.matchID {
        return Err(MatchMismatch);
      }
      var found := store.GetMatch(c.matchID);
      if found.Err? {
        return Err(StoreFailed(found.error));
      }
      var role := RoleOf(req.winnerUid, found.value.players);
      HS.RoleOfPlayers(req.winnerUid, found.value.players);
      if req.winnerUid != "" && role == "" {
        return Err(WinnerNotInPlayers);
      }
      var m := EndedBy(found.value, req, now);
      var put := store.UpsertMatch(m);
      match put {
        case Err(error) => return Err(StoreFailed(error));
        case Ok(_) =>
      }
      if |m.players| >= 1 && req.scoreP1 > 0 {
        var daily := store.SubmitScore(DailyKey(m.puzzleDate), m.players[0], req.scoreP1);
        var all := store.SubmitScore(GLOBAL_KEY, m.players[0], req.scoreP1);
      }
      if |m.players| >= 2 && req.scoreP2 > 0 {
        var daily := store.SubmitScore(DailyKey(m.puzzleDate), m.players[1], req.scoreP2);
        var all := store.SubmitScore(GLOBAL_KEY, m.players[1], req.scoreP2);
      }
      return Ok(());
    }

    /** The same, seen from the rooms: nothing of them changes, nor who would hear a broadcast. */
    method SettleEnd(c: Conn, env: Envelope, now: int) returns (r: Result<(), HubError>)
      requires Valid()
      modifies (if store == null then {} else {store})`matches, (if store == null then {} else {store})`leaderboards
      ensures Valid() && Shared() == old(Shared())
      ensures forall d: Conn | old(allocated(d)) :: CopiesFor(c.matchID, d, c) == old(CopiesFor(c.matchID, d, c))
      ensures r.Ok? <==> old(MayEnd(c, env))
      ensures r.Ok? ==>
                var before := old(store.matches)[c.matchID];
                && store.matches == old(store.matches)[before.id := EndedBy(before, env.body.end, now)]
                && store.leaderboards == EndScores(old(store.leaderboards), before, env.body.end)
      ensures r.Err? && store != null ==>
                store.matches == old(store.matches) && store.leaderboards == old(store.leaderboards)
      ensures r.Err? ==> r.error == if store == null then StoreUnwired
                                    else if c.matchID == "" then NotInRoom
                                    else if !env.body.MatchEndBody? then Undecoded
                                    else if env.body.end.matchID != c.matchID then MatchMismatch
                                    else if store.closed then StoreFailed(ErrClosed)
                                    else if c.matchID !in store.matches then StoreFailed(ErrNotFound)
                                    else WinnerNotInPlayers
    {
      r := PersistEnd(c, env, now);
    }

    /** MATCH_END is echoed to the sender and broadcast to the others exactly when it was persisted. */
    method HandleMatchEnd(c: Conn, env: Envelope, now: int) returns (r: Result<Envelope, HubError>)
      requires Valid()
      modifies (if store == null then {} else {store})`matches, (if store == null then {} else {store})`leaderboards
      modifies (if c.matchID in rooms then set d | d in rooms[c.matchID].conns else {})`inbox
      ensures r.Ok? <==> old(MayEnd(c, env))
      ensures r.Ok? ==>
                var before := old(store.matches)[c.matchID];
                && r.value == env
                && store.matches == old(store.matches)[before.id := EndedBy(before, env.body.end, now)]
                && store.leaderboards == EndScores(old(store.leaderboards), before, env.body.end)
      ensures r.Err? && store != null ==>
                store.matches == old(store.matches) && store.leaderboards == old(store.leaderboards)
      ensures r.Err? ==> r.error == if store == null then StoreUnwired
                                    else if c.matchID == "" then NotInRoom
                                    else if !env.body.MatchEndBody? then Undecoded
                                    else if env.body.end.matchID != c.matchID then MatchMismatch
                                    else if store.closed then StoreFailed(ErrClosed)
                                    else if c.matchID !in store.matches then StoreFailed(ErrNotFound)
                                    else WinnerNotInPlayers
      ensures Valid() && Shared() == old(Shared())
      ensures r.Ok? ==> forall d: Conn | old(allocated(d)) ::
                d.inbox == old(d.inbox) + Copies(env, old(CopiesFor(c.matchID, d, c)))
      ensures r.Err? ==> forall d: Conn | old(allocated(d)) :: d.inbox == old(d.inbox)
    {
      var end := SettleEnd(c, env, now);
      if end.Err? {
        return Err(end.error);
      }
      BroadcastRoom(c.matchID, env, c);
      return Ok(env);
    }

    /** The two kinds that other conns of the room hear of. */
    method ForwardToPeers(c: Conn, env: Envelope, now: int) returns (r: Result<Option<Envelope>, HubError>)
      requires Valid() && env.kind in {TURN, MATCH_END}
      modifies (if c.matchID in rooms then set d | d in rooms[c.matchID].conns else {})`inbox
      modifies (if store == null then {} else {store})`matches, (if store == null then {} else {store})`leaderboards
      ensures Valid() && Shared() == old(Shared())
      ensures env.kind == TURN && store != null ==>
                store.matches == old(store.matches) && store.leaderboards == old(store.leaderboards)
      ensures r.Ok? ==> forall d: Conn | old(allocated(d)) ::
                d.inbox == old(d.inbox) + Copies(env, old(CopiesFor(c.matchID, d, c)))
      ensures r.Err? ==> forall d: Conn | old(allocated(d)) :: d.inbox == old(d.inbox)
      ensures env.kind == TURN ==>
                r == if c.matchID == "" then Err(NotInRoom)
                     else if !env.body.TurnBody? then Err(Undecoded)
                     else if env.body.turnMatchId != c.matchID then Err(MatchMismatch)
                     else Ok(None)
      ensures env.kind == MATCH_END ==> (r.Ok? <==> old(MayEnd(c, env))) && (r.Ok? ==> r.value == Some(env))
      ensures env.kind == MATCH_END && r.Ok? ==>
                var before := old(store.matches[c.matchID]);
                && store.matches == old(store.matches)[before.id := EndedBy(before, env.body.end, now)]
                && store.leaderboards == EndScores(old(store.leaderboards), before, env.body.end)
      ensures r.Err? && store != null ==>
                store.matches == old(store.matches) && store.leaderboards == old(store.leaderboards)
      ensures env.kind == MATCH_END && r.Err? ==>
                r.error == if store == null then StoreUnwired
                           else if c.matchID == "" then NotInRoom
                           else if !env.body.MatchEndBody? then Undecoded
                           else if env.body.end.matchID != c.matchID then MatchMismatch
                           else if store.closed then StoreFailed(ErrClosed)
                           else if c.matchID !in store.matches then StoreFailed(ErrNotFound)
                           else WinnerNotInPlayers
    {
      if env.kind == TURN {
        var sent := HandleTurn(c, env);
        return if sent.Ok? then Ok(None) else Err(sent.error);
      }
      var echo := HandleMatchEnd(c, env, now);
      return if echo.Ok? then Ok(Some(echo.value)) else Err(echo.error);
    }

    /** Routes one envelope. The answer, if any, is a PONG, a JOIN_ROOM_ACK or the MATCH_END
        itself; only JOIN_ROOM touches the rooms, only MATCH_END the store, and only an
        accepted TURN or MATCH_END reaches other conns. */
    method Dispatch(c: Conn, env: Envelope, serverNowMs: int, now: int) returns (r: Result<Option<Envelope>, HubError>)
      requires Valid() && c in known
      modifies this`rooms, this`allRooms, c`matchID
      modifies allRooms`buf, allRooms`len, allRooms`conns, set room | room in allRooms :: room.buf
      modifies (if c.matchID in rooms then set d | d in rooms[c.matchID].conns else {})`inbox
      modifies (if store == null then {} else {store})`matches, (if store == null then {} else {store})`leaderboards
      ensures Valid()
      ensures env.kind != JOIN_ROOM ==> Shared() == old(Shared())
      ensures env.kind != MATCH_END && store != null ==>
                store.matches == old(store.matches) && store.leaderboards == old(store.leaderboards)
      ensures r.Ok? && env.kind in {TURN, MATCH_END} ==> forall d: Conn | old(allocated(d)) ::
                d.inbox == old(d.inbox) + Copies(env, old(CopiesFor(c.matchID, d, c)))
      ensures r.Err? || env.kind !in {TURN, MATCH_END} ==> forall d: Conn | old(allocated(d)) :: d.inbox == old(d.inbox)
      ensures r.Ok? ==> (r.value.Some? <==> env.kind in {PING, JOIN_ROOM, MATCH_END})
      ensures r.Ok? && r.value.Some? ==> r.value.value.requestId == env.requestId
      ensures env.kind == PING ==>
                r == if env.body.PingBody?
                     then Ok(Some(Envelope(PONG, env.requestId, PongBody(env.body.clientMs, serverNowMs))))
                     else Err(Undecoded)
      ensures env.kind == JOIN_ROOM ==>
                && (r.Err? <==> store != null && c.uid != ""
                                && (!env.body.JoinRoomBody? || (env.body.joinId != "" && store.closed)))
                && (r.Err? ==> r.error == if env.body.JoinRoomBody? then StoreFailed(ErrClosed) else Undecoded)
                && (r.Ok? ==> r.value.value.kind == JOIN_ROOM_ACK && r.value.value.body.JoinRoomAckBody?
                              && (r.value.value.body.joined <==> old(MayJoin(c, env))))
      ensures env.kind == JOIN_ROOM && r.Ok? && r.value.value.body.joined ==>
                var players := store.matches[env.body.joinId].players;
                && r.value.value.body.matchId == env.body.joinId && r.value.value.body.reason == ""
                && r.value.value.body.role == (if players[0] == c.uid then "p1" else "p2")
                && IsOpponent(c.uid, players, r.value.value.body.opponentUid)
      ensures env.kind == JOIN_ROOM && r.Ok? && !r.value.value.body.joined ==>
                && r.value.value.body.role == "" && r.value.value.body.opponentUid == ""
                && r.value.value.body.reason == if store == null then "sync-pvp disabled"
                                                else if c.uid == "" then "unauthenticated"
                                                else if env.body.joinId == "" then "missing match_id"
                                                else if env.body.joinId !in store.matches then "match not found"
                                                else "uid not in match.players"
      ensures env.kind == JOIN_ROOM ==>
                if old(MayJoin(c, env)) then
                  && env.body.joinId in rooms
                  && Shared() == HS.Join(old(Shared()), c, env.body.joinId, rooms[env.body.joinId])
                else Shared() == old(Shared())
      ensures env.kind == TURN ==>
                r == if old(c.matchID) == "" then Err(NotInRoom)
                     else if !env.body.TurnBody? then Err(Undecoded)
                     else if env.body.turnMatchId != old(c.matchID) then Err(MatchMismatch)
                     else Ok(None)
      ensures env.kind == MATCH_END ==> (r.Ok? <==> old(MayEnd(c, env))) && (r.Ok? ==> r.value == Some(env))
      ensures env.kind == MATCH_END && r.Ok? ==>
                var before := old(store.matches[c.matchID]);
                && store.matches == old(store.matches)[before.id := EndedBy(before, env.body.end, now)]
                && store.leaderboards == EndScores(old(store.leaderboards), before, env.body.end)
      ensures r.Err? && store != null ==>
                store.matches == old(store.matches) && store.leaderboards == old(store.leaderboards)
      ensures env.kind == MATCH_END && r.Err? ==>
                r.error == if store == null then StoreUnwired
                           else if old(c.matchID) == "" then NotInRoom
                           else if !env.body.MatchEndBody? then Undecoded
                           else if env.body.end.matchID != old(c.matchID) then MatchMismatch
                           else if store.closed then StoreFailed(ErrClosed)
                           else if old(c.matchID) !in store.matches then StoreFailed(ErrNotFound)
                           else WinnerNotInPlayers
      ensures env.kind !in {PING, JOIN_ROOM, TURN, MATCH_END} ==> r == Ok(None)
    {
      match env.kind {
        case PING =>
          r := HandlePing(env, serverNowMs);
        case JOIN_ROOM =>
          r := HandleJoinRoom(c, env);
        case TURN =>
          r := ForwardToPeers(c, env, now);
        case MATCH_END =>
          r := ForwardToPeers(c, env, now);
        case _ =>
          return Ok(None);
      }
    }
  }

  lemma HeapUpdated<R, V>(before: map<R, V>, after: map<R, V>, r: R, v: V)
    requires r in before && after.Keys == before.Keys
    requires forall q :: q in before ==> after[q] == if q == r then v else before[q]
    ensures after == before[r := v]
  {
  }

  lemma HeapExtended<R, V>(before: map<R, V>, after: map<R, V>, r: R, v: V)
    requires r !in before && after.Keys == before.Keys + {r} && after[r] == v
    requires forall q :: q in before ==> after[q] == before[q]
    ensures after == before[r := v]
  {
  }

  /** In a room that lists no conn twice each peer gets the frame exactly once. */
  lemma DistinctGetsOne<C>(s: seq<C>, d: C)
    requires Distinct(s)
    ensures multiset(s)[d] == if d in s then 1 else 0
  {
    if s != [] {
      DistinctGetsOne(s[1..], d);
      assert s == [s[0]] + s[1..];
      assert s[0] !in s[1..];
    }
  }
}
