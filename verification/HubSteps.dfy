/**
 The hub as a system of interleaved steps (server/internal/ws).

 One step is one critical section. `C` is the identity of a connection and `R` the
 identity of a room object; both stand for Go pointers. A room object lives on after
 it was deleted from `rooms`, because a joiner may still hold it.
 */
module HubSteps {
  import opened Common
  import opened Rooms

  datatype RoomV<C(==)> = RoomV(matchID: string, conns: seq<C>)

  /** The memory the steps share: `Hub.conns`, `Hub.rooms`, every room object, `Conn.matchID`. */
  datatype Shared<C(==), R(==)> = Shared(
    conns: set<C>,
    rooms: map<string, R>,
    heap: map<R, RoomV<C>>,
    matchOf: map<C, string>)

  // ----- what each critical section does to the shared memory

  ghost function Register<C, R>(s: Shared<C, R>, c: C): Shared<C, R> {
    s.(conns := s.conns + {c}, matchOf := s.matchOf[c := ""])
  }

  /** First section of JOIN_ROOM, under the hub lock. `made` is the object a create would allocate. */
  ghost function LookupOrCreate<C, R>(s: Shared<C, R>, c: C, m: string, made: R): (res: (Shared<C, R>, R)) {
    if m in s.rooms then
      (s.(matchOf := s.matchOf[c := m]), s.rooms[m])
    else
      (s.(rooms := s.rooms[m := made],
          heap := s.heap[made := RoomV(m, [])],
          matchOf := s.matchOf[c := m]), made)
  }

  /** Second section of JOIN_ROOM, under the room lock only. */
  ghost function AddTo<C, R>(s: Shared<C, R>, c: C, r: R): Shared<C, R>
    requires r in s.heap
  {
    s.(heap := s.heap[r := s.heap[r].(conns := Joined(s.heap[r].conns, c))])
  }

  /** Both sections of JOIN_ROOM when nothing runs in between. */
  ghost function Join<C, R>(s: Shared<C, R>, c: C, m: string, made: R): Shared<C, R> {
    var (t, r) := LookupOrCreate(s, c, m, made);
    if r in t.heap then AddTo(t, c, r) else t
  }

  /** The room `unregister` works on, if any. */
  ghost function RoomOf<C, R>(s: Shared<C, R>, c: C): Option<R> {
    if c in s.matchOf && s.matchOf[c] != "" && s.matchOf[c] in s.rooms then Some(s.rooms[s.matchOf[c]]) else None
  }

  /** `unregister` up to and including `room.remove`. */
  ghost function RemoveFrom<C, R>(s: Shared<C, R>, c: C): Shared<C, R>
    requires RoomOf(s, c).Some? ==> RoomOf(s, c).value in s.heap
  {
    match RoomOf(s, c)
    case None => s.(conns := s.conns - {c})
    case Some(r) => s.(conns := s.conns - {c},
                       heap := s.heap[r := s.heap[r].(conns := Left(s.heap[r].conns, c))])
  }

  ghost function DeleteRoom<C, R>(s: Shared<C, R>, m: string): Shared<C, R> {
    s.(rooms := s.rooms - {m})
  }

  /** The whole of `unregister` when nothing runs in between. */
  ghost function Unregister<C, R>(s: Shared<C, R>, c: C): Shared<C, R>
    requires RoomOf(s, c).Some? ==> RoomOf(s, c).value in s.heap
  {
    var t := RemoveFrom(s, c);
    if RoomOf(s, c).Some? && t.heap[RoomOf(s, c).value].conns == [] then DeleteRoom(t, s.matchOf[c]) else t
  }

  function RoleOf(uid: string, players: seq<string>): string {
    if players == [] then ""
    else if players[0] == uid then "p1"
    else if uid in players[1..] then "p2"
    else ""
  }

  lemma RoleOfPlayers(uid: string, players: seq<string>)
    ensures RoleOf(uid, players) != "" <==> uid in players
    ensures RoleOf(uid, players) == "p1" <==> players != [] && players[0] == uid
    ensures RoleOf(uid, players) == "p2" <==> uid in players && players[0] != uid
  {
    if players != [] {
      assert players == [players[0]] + players[1..];
    }
  }

  /** A join puts the conn into the room filed under its match, and leaves everybody else, and
      every other room, as they were. */
  lemma JoinExactly<C, R>(s: Shared<C, R>, c: C, m: string, made: R)
    requires m in s.rooms ==> s.rooms[m] in s.heap && s.heap[s.rooms[m]].matchID == m
    requires m !in s.rooms ==> made !in s.heap
    ensures var t := Join(s, c, m, made);
      && t.conns == s.conns && t.matchOf == s.matchOf[c := m]
      && m in t.rooms && t.rooms[m] == (if m in s.rooms then s.rooms[m] else made)
      && (forall n :: n != m ==> (n in t.rooms <==> n in s.rooms) && (n in s.rooms ==> t.rooms[n] == s.rooms[n]))
      && t.rooms[m] in t.heap && t.heap[t.rooms[m]].matchID == m
      && (forall d :: d in t.heap[t.rooms[m]].conns <==>
            d == c || (m in s.rooms && d in s.heap[s.rooms[m]].conns))
      && (forall r :: r in s.heap && r != t.rooms[m] ==> r in t.heap && t.heap[r] == s.heap[r])
  {
  }

  /** unregister takes the conn out of the hub and out of its mapped room, deletes that room's
      entry exactly when nobody is left in it, and leaves everything else as it was. */
  lemma UnregisterExactly<C, R>(s: Shared<C, R>, c: C)
    requires RoomOf(s, c).Some? ==> RoomOf(s, c).value in s.heap && Distinct(s.heap[RoomOf(s, c).value].conns)
    ensures var t := Unregister(s, c);
      && t.conns == s.conns - {c} && t.matchOf == s.matchOf
      && (RoomOf(s, c).None? ==> t.rooms == s.rooms && t.heap == s.heap)
      && (RoomOf(s, c).Some? ==>
            var r, m := RoomOf(s, c).value, s.matchOf[c];
            && m in s.rooms && s.rooms[m] == r && r in t.heap && t.heap[r].matchID == s.heap[r].matchID
            && (forall d :: d in t.heap[r].conns <==> d in s.heap[r].conns && d != c)
            && (forall q :: q in s.heap && q != r ==> q in t.heap && t.heap[q] == s.heap[q])
            && (m in t.rooms <==> exists d :: d in s.heap[r].conns && d != c)
            && (forall n :: n in t.rooms ==> n in s.rooms && t.rooms[n] == s.rooms[n])
            && (forall n :: n in s.rooms && n != m ==> n in t.rooms))
  {
    if RoomOf(s, c).Some? {
      var r := RoomOf(s, c).value;
      LeftIsExact(s.heap[r].conns, c);
      var left := Left(s.heap[r].conns, c);
      assert left != [] ==> left[0] in left;
    }
  }

  // ----- the steps of all conns, interleaved

  /** Pointer identities. */
  type ConnId = nat
  type RoomId = nat

  /** Where the goroutine of one conn stands. */
  datatype Phase =
    | Idle                                               // in the read loop, between frames
    | Adding(room: RoomId)                               // between the two sections of JOIN_ROOM
    | Looked(frame: nat, m: string, room: RoomId)        // broadcastRoom found the room
    | Fanning(frame: nat, m: string, rest: seq<ConnId>)  // broadcastRoom is writing to the snapshot
    | Removed(room: RoomId)                              // in unregister, before room.empty; holds the hub lock
    | Checked(room: RoomId, empty: bool)                 // in unregister, after room.empty; holds the hub lock
    | Gone                                               // unregister returned

  datatype Delivery = Delivery(frame: nat, sender: ConnId, receiver: ConnId, m: string)

  /** What the joins have shown. */
  datatype Seen = Seen(
    uid: map<ConnId, string>,
    players: map<string, seq<string>>,  // what the store has answered for each match looked up
    admitted: set<(ConnId, string)>)    // (conn, match) pairs that passed the players check

  /** What the broadcasts have done. */
  datatype Sent = Sent(
    frames: nat,                        // TURN and MATCH_END frames broadcast so far
    log: seq<Delivery>)                 // writes to peers

  datatype Sys = Sys(
    sh: Shared<ConnId, RoomId>,
    phase: map<ConnId, Phase>,
    lock: Option<ConnId>,               // the conn inside a multi-step section of the hub lock
    seen: Seen,
    sent: Sent)

  datatype Action =
    | DoRegister(c: ConnId, u: string)
    | DoLookup(c: ConnId, m: string, players: seq<string>, made: RoomId)
    | DoAdd(c: ConnId)
    | DoFrame(c: ConnId, m: string)
    | DoSnapshot(c: ConnId)
    | DoWrite(c: ConnId)
    | DoRemove(c: ConnId)
    | DoCheck(c: ConnId)
    | DoFinish(c: ConnId)

  ghost function Start(): Sys {
    Sys(Shared({}, map[], map[], map[]), map[], None, Seen(map[], map[], {}), Sent(0, []))
  }

  ghost predicate At(s: Sys, c: ConnId, p: Phase) {
    c in s.phase && s.phase[c] == p
  }

  ghost function MatchOf(s: Sys, c: ConnId): string {
    if c in s.sh.matchOf then s.sh.matchOf[c] else ""
  }

  /** One step, or None when the action is not possible in `s`. Frames that are rejected
      change none of this state and are left out. The store may hold any players for a match,
      but always answers the same ones: no write of a match changes them. */
  ghost function Next(s: Sys, a: Action): Option<Sys> {
    match a
    case DoRegister(c, u) =>
      if c in s.phase || s.lock.Some? then None
      else Some(s.(sh := Register(s.sh, c), phase := s.phase[c := Idle], seen := s.seen.(uid := s.seen.uid[c := u])))
    case DoLookup(c, m, players, made) =>
      if !At(s, c, Idle) || s.lock.Some? || c !in s.seen.uid || s.seen.uid[c] == "" || m == ""
         || RoleOf(s.seen.uid[c], players) == "" || made in s.sh.heap
         || (m in s.seen.players && s.seen.players[m] != players)
      then None
      else
        var (sh, room) := LookupOrCreate(s.sh, c, m, made);
        Some(s.(sh := sh, phase := s.phase[c := Adding(room)],
                seen := s.seen.(players := s.seen.players[m := players], admitted := s.seen.admitted + {(c, m)})))
    case DoAdd(c) =>
      if c in s.phase && s.phase[c].Adding? && s.phase[c].room in s.sh.heap
      then Some(s.(sh := AddTo(s.sh, c, s.phase[c].room), phase := s.phase[c := Idle]))
      else None
    case DoFrame(c, m) =>
      if !At(s, c, Idle) || s.lock.Some? || m == "" || MatchOf(s, c) != m then None
      else if m in s.sh.rooms then
        Some(s.(phase := s.phase[c := Looked(s.sent.frames, m, s.sh.rooms[m])],
                sent := s.sent.(frames := s.sent.frames + 1)))
      else Some(s.(sent := s.sent.(frames := s.sent.frames + 1)))
    case DoSnapshot(c) =>
      if c in s.phase && s.phase[c].Looked? && s.phase[c].room in s.sh.heap then
        var Looked(f, m, room) := s.phase[c];
        Some(s.(phase := s.phase[c := Fanning(f, m, s.sh.heap[room].conns)]))
      else None
    case DoWrite(c) =>
      if c in s.phase && s.phase[c].Fanning? then
        var Fanning(f, m, rest) := s.phase[c];
        if rest == [] then Some(s.(phase := s.phase[c := Idle]))
        else
          Some(s.(phase := s.phase[c := Fanning(f, m, rest[1..])],
                  sent := if rest[0] == c then s.sent else s.sent.(log := s.sent.log + [Delivery(f, c, rest[0], m)])))
      else None
    case DoRemove(c) =>
      if !At(s, c, Idle) || s.lock.Some? then None
      else
        var r := RoomOf(s.sh, c);
        if r.None? then Some(s.(sh := RemoveFrom(s.sh, c), phase := s.phase[c := Gone]))
        else if r.value !in s.sh.heap then None
        else Some(s.(sh := RemoveFrom(s.sh, c), phase := s.phase[c := Removed(r.value)], lock := Some(c)))
    case DoCheck(c) =>
      if c in s.phase && s.phase[c].Removed? && s.phase[c].room in s.sh.heap then
        var r := s.phase[c].room;
        Some(s.(phase := s.phase[c := Checked(r, s.sh.heap[r].conns == [])]))
      else None
    case DoFinish(c) =>
      if c in s.phase && s.phase[c].Checked? then
        Some(s.(sh := if s.phase[c].empty then DeleteRoom(s.sh, MatchOf(s, c)) else s.sh,
                phase := s.phase[c := Gone], lock := None))
      else None
  }

  /** The state a schedule leads to from the empty hub. */
  ghost function Run(tr: seq<Action>): Option<Sys> {
    if tr == [] then Some(Start())
    else
      var before := Run(tr[..|tr| - 1]);
      if before.None? then None else Next(before.value, tr[|tr| - 1])
  }
}
