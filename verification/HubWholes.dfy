/**
 The handlers of `Hubs` run without interruption: what such a handler does to the hub's
 objects is what its steps do to the step system, so the runs include them.
 */
module HubWholes {
  import opened Common
  import opened HubSteps
  import opened HubSafety
  import opened HubJoins

  lemma OneStep(s: Sys, a: Action)
    ensures Steps(s, [a]) == Next(s, a)
  {
    assert [a][1..] == [];
  }

  lemma TwoSteps(s: Sys, a: Action, b: Action)
    requires Next(s, a).Some?
    ensures Steps(s, [a, b]) == Next(Next(s, a).value, b)
  {
    assert [a, b][1..] == [b];
    OneStep(Next(s, a).value, b);
  }

  /** A join whose two sections follow each other. */
  lemma JoinIsTwoSteps(s: Sys, c: ConnId, m: string, players: seq<string>, made: RoomId)
    requires RoomsSound(s) && Next(s, DoLookup(c, m, players, made)).Some?
    ensures var t := Steps(s, [DoLookup(c, m, players, made), DoAdd(c)]);
      t == Some(s.(sh := Join(s.sh, c, m, made), phase := s.phase[c := Idle],
                      seen := s.seen.(players := s.seen.players[m := players], admitted := s.seen.admitted + {(c, m)})))
  {
    var t := Next(s, DoLookup(c, m, players, made)).value;
    var room := LookupOrCreate(s.sh, c, m, made).1;
    TwoSteps(s, DoLookup(c, m, players, made), DoAdd(c));
    assert t.phase[c] == Adding(room) && room in t.sh.heap;
    assert t.phase[c := Idle] == s.phase[c := Idle];
  }

  ghost function UnregisterSteps(s: Sys, c: ConnId): seq<Action> {
    if RoomOf(s.sh, c).Some? then [DoRemove(c)] + ([DoCheck(c)] + [DoFinish(c)]) else [DoRemove(c)] + []
  }

  /** The whole of unregister under the hub lock. */
  lemma UnregisterIsItsSteps(s: Sys, c: ConnId)
    requires RoomsSound(s) && PhasesSound(s) && s.lock.None? && At(s, c, Idle)
    ensures Steps(s, UnregisterSteps(s, c)) == Some(s.(sh := Unregister(s.sh, c), phase := s.phase[c := Gone]))
  {
    assert PhaseSound(s, c);
    var t := Next(s, DoRemove(c)).value;
    if RoomOf(s.sh, c).Some? {
      StepsCons(s, DoRemove(c), [DoCheck(c)] + [DoFinish(c)]);
      RestOfUnregister(t, c);
      assert s.phase[c := Removed(RoomOf(s.sh, c).value)][c := Gone] == s.phase[c := Gone];
    } else {
      StepsCons(s, DoRemove(c), []);
    }
  }

  lemma RestOfUnregister(s: Sys, c: ConnId)
    requires c in s.phase && s.phase[c].Removed? && s.phase[c].room in s.sh.heap
    ensures var empty := s.sh.heap[s.phase[c].room].conns == [];
      Steps(s, [DoCheck(c)] + [DoFinish(c)])
      == Some(s.(sh := if empty then DeleteRoom(s.sh, MatchOf(s, c)) else s.sh,
                 phase := s.phase[c := Gone], lock := None))
  {
    var t := Next(s, DoCheck(c)).value;
    assert [DoCheck(c)] + [DoFinish(c)] == [DoCheck(c), DoFinish(c)];
    TwoSteps(s, DoCheck(c), DoFinish(c));
    assert t.phase[c := Gone] == s.phase[c := Gone];
  }

  // ----- broadcast

  /** What writing frame `f` of `c` to `rest` adds to the log. */
  ghost function Deliveries(f: nat, c: ConnId, m: string, rest: seq<ConnId>): seq<Delivery> {
    if rest == [] then []
    else (if rest[0] == c then [] else [Delivery(f, c, rest[0], m)]) + Deliveries(f, c, m, rest[1..])
  }

  ghost function Writes(c: ConnId, n: nat): seq<Action> {
    if n == 0 then [] else [DoWrite(c)] + Writes(c, n - 1)
  }

  lemma {:induction false} FanningIsItsWrites(s: Sys, c: ConnId)
    requires c in s.phase && s.phase[c].Fanning?
    ensures var Fanning(f, m, rest) := s.phase[c];
      Steps(s, Writes(c, |rest| + 1))
      == Some(s.(phase := s.phase[c := Idle], sent := s.sent.(log := s.sent.log + Deliveries(f, c, m, rest))))
    decreases |s.phase[c].rest|
  {
    var Fanning(f, m, rest) := s.phase[c];
    var t := Next(s, DoWrite(c)).value;
    StepsCons(s, DoWrite(c), Writes(c, |rest|));
    if rest == [] {
      assert s.sent.log + [] == s.sent.log;
    } else {
      FanningIsItsWrites(t, c);
      assert t.phase[c := Idle] == s.phase[c := Idle];
      assert t.sent.log + Deliveries(f, c, m, rest[1..]) == s.sent.log + Deliveries(f, c, m, rest);
    }
  }

  lemma SnapshotIsWritten(s: Sys, c: ConnId)
    requires c in s.phase && s.phase[c].Looked? && s.phase[c].room in s.sh.heap
    ensures var Looked(f, m, room) := s.phase[c]; var conns := s.sh.heap[room].conns;
      Steps(s, [DoSnapshot(c)] + Writes(c, |conns| + 1))
      == Some(s.(phase := s.phase[c := Idle], sent := s.sent.(log := s.sent.log + Deliveries(f, c, m, conns))))
  {
    var t := Next(s, DoSnapshot(c)).value;
    StepsCons(s, DoSnapshot(c), Writes(c, |s.sh.heap[s.phase[c].room].conns| + 1));
    FanningIsItsWrites(t, c);
    assert t.phase[c := Idle] == s.phase[c := Idle];
  }

  lemma FrameIsLooked(s: Sys, c: ConnId, m: string)
    requires Next(s, DoFrame(c, m)).Some? && m in s.sh.rooms
    ensures Next(s, DoFrame(c, m)).value
         == s.(sent := s.sent.(frames := s.sent.frames + 1),
               phase := s.phase[c := Looked(s.sent.frames, m, s.sh.rooms[m])])
  {
  }

  /** A broadcast into a mapped room: one frame, written to every member but the sender. */
  lemma BroadcastIsItsSteps(s: Sys, c: ConnId, m: string)
    requires RoomsSound(s) && Next(s, DoFrame(c, m)).Some? && m in s.sh.rooms
    ensures var conns := s.sh.heap[s.sh.rooms[m]].conns;
      Steps(s, [DoFrame(c, m)] + ([DoSnapshot(c)] + Writes(c, |conns| + 1)))
      == Some(s.(phase := s.phase[c := Idle],
                 sent := Sent(s.sent.frames + 1, s.sent.log + Deliveries(s.sent.frames, c, m, conns))))
  {
    var rest := [DoSnapshot(c)] + Writes(c, |s.sh.heap[s.sh.rooms[m]].conns| + 1);
    var looked := s.phase[c := Looked(s.sent.frames, m, s.sh.rooms[m])];
    FrameIsLooked(s, c, m);
    StepsCons(s, DoFrame(c, m), rest);
    SnapshotIsWritten(s.(sent := s.sent.(frames := s.sent.frames + 1), phase := looked), c);
    assert looked[c := Idle] == s.phase[c := Idle];
  }

  /** Each conn gets as many copies as `Hubs.Listed` says: its number of places in the room,
      none for the sender. */
  lemma {:induction false} DeliveredAsListed(f: nat, c: ConnId, m: string, rest: seq<ConnId>, d: ConnId)
    ensures multiset(Deliveries(f, c, m, rest))[Delivery(f, c, d, m)] == if d == c then 0 else multiset(rest)[d]
  {
    if rest != [] {
      DeliveredAsListed(f, c, m, rest[1..], d);
      assert rest == [rest[0]] + rest[1..];
    }
  }
}
