/** What holds of the hub over every schedule of the steps. */
module HubSafety {
  import opened Common
  import opened Rooms
  import opened HubSteps

  /** Rooms are filed under their own match and hold no conn twice. */
  ghost predicate RoomsSound(s: Sys) {
    && (forall m :: m in s.sh.rooms ==> m != "" && s.sh.rooms[m] in s.sh.heap && s.sh.heap[s.sh.rooms[m]].matchID == m)
    && (forall r :: r in s.sh.heap ==> Distinct(s.sh.heap[r].conns))
  }

  ghost predicate Holds(p: Phase) {
    p.Removed? || p.Checked?
  }

  /** What a conn may rely on between two of its steps. */
  ghost predicate PhaseSound(s: Sys, c: ConnId)
    requires c in s.phase
  {
    && c in s.seen.uid && c in s.sh.matchOf
    && (Holds(s.phase[c]) <==> s.lock == Some(c))
    && match s.phase[c]
       case Idle => true
       case Gone => true
       case Adding(r) => r in s.sh.heap && s.sh.heap[r].matchID == s.sh.matchOf[c]
                         && (c, s.sh.matchOf[c]) in s.seen.admitted
       case Looked(f, m, r) => r in s.sh.heap && s.sh.heap[r].matchID == m && f < s.sent.frames
       case Fanning(f, m, rest) => Distinct(rest) && f < s.sent.frames
                                   && (forall d :: d in rest ==> (d, m) in s.seen.admitted)
       case Removed(r) => s.sh.matchOf[c] in s.sh.rooms && s.sh.rooms[s.sh.matchOf[c]] == r
       case Checked(r, e) => s.sh.matchOf[c] in s.sh.rooms && s.sh.rooms[s.sh.matchOf[c]] == r
                             && (!e ==> r in s.sh.heap && s.sh.heap[r].conns != [])
  }

  ghost predicate PhasesSound(s: Sys) {
    && (s.lock.Some? ==> s.lock.value in s.phase)
    && (forall c :: c in s.phase ==> PhaseSound(s, c))
  }

  /** Members of any room, in the map or not, passed the players check of its match. */
  ghost predicate MembersAdmitted(s: Sys) {
    forall r :: r in s.sh.heap ==> AllAdmitted(s, s.sh.heap[r])
  }

  ghost predicate AllAdmitted(s: Sys, v: RoomV<ConnId>) {
    forall c :: c in v.conns ==> c in s.phase && (c, v.matchID) in s.seen.admitted
  }

  /** `c` is about to add itself to `r`, or is about to find out whether `r` is empty. */
  ghost predicate Keeps(s: Sys, c: ConnId, r: RoomId) {
    At(s, c, Adding(r)) || At(s, c, Removed(r)) || At(s, c, Checked(r, true))
  }

  /** A room in the map is non-empty, has a joiner between its sections, or is being unregistered from. */
  ghost predicate RoomsHeld(s: Sys) {
    forall m :: m in s.sh.rooms && s.sh.rooms[m] in s.sh.heap && s.sh.heap[s.sh.rooms[m]].conns == [] ==>
      exists c :: c in s.phase && Keeps(s, c, s.sh.rooms[m])
  }

  ghost function FrameOf(p: Phase): Option<nat> {
    if p.Looked? || p.Fanning? then Some(p.frame) else None
  }

  ghost predicate LogAddressed(s: Sys) {
    forall e :: e in s.sent.log ==>
      e.sender != e.receiver && (e.receiver, e.m) in s.seen.admitted && e.frame < s.sent.frames
  }

  ghost predicate LogOnce(s: Sys) {
    forall i, j :: 0 <= i < j < |s.sent.log| && s.sent.log[i].frame == s.sent.log[j].frame ==>
      s.sent.log[i].receiver != s.sent.log[j].receiver
  }

  /** Peers already written to for the frame of `c` are not written to again. */
  ghost predicate FrameAhead(s: Sys, c: ConnId)
    requires c in s.phase
  {
    && (s.phase[c].Looked? ==> forall e :: e in s.sent.log ==> e.frame != s.phase[c].frame)
    && (s.phase[c].Fanning? ==>
          forall e :: e in s.sent.log && e.frame == s.phase[c].frame ==> e.receiver !in s.phase[c].rest)
  }

  ghost predicate FramesDistinct(s: Sys) {
    forall c, d :: c in s.phase && d in s.phase
                   && FrameOf(s.phase[c]).Some? && FrameOf(s.phase[c]) == FrameOf(s.phase[d]) ==>
      c == d
  }

  ghost predicate LogSound(s: Sys) {
    LogAddressed(s) && LogOnce(s) && FramesDistinct(s) && forall c :: c in s.phase ==> FrameAhead(s, c)
  }

  ghost predicate Inv(s: Sys) {
    RoomsSound(s) && PhasesSound(s) && MembersAdmitted(s) && RoomsHeld(s) && LogSound(s)
  }

  lemma RemovalKeepsRooms(s: Sys, c: ConnId)
    requires RoomsSound(s) && Next(s, DoRemove(c)).Some?
    ensures RoomsSound(Next(s, DoRemove(c)).value)
  {
    var r := RoomOf(s.sh, c);
    if r.Some? {
      LeftIsExact(s.sh.heap[r.value].conns, c);
    }
  }

  lemma NextKeepsRooms(s: Sys, a: Action)
    requires RoomsSound(s) && Next(s, a).Some?
    ensures RoomsSound(Next(s, a).value)
  {
    if a.DoRemove? {
      RemovalKeepsRooms(s, a.c);
    }
  }

  lemma NextKeepsOthersPhase(s: Sys, a: Action, c: ConnId)
    requires RoomsSound(s) && PhasesSound(s) && Next(s, a).Some? && c in s.phase && c != a.c
    ensures PhaseSound(Next(s, a).value, c)
  {
    var t := Next(s, a).value;
    assert PhaseSound(s, c);
    assert a.c in s.phase ==> PhaseSound(s, a.c);
    assert t.phase[c] == s.phase[c];
    match s.phase[c]
    case Removed(r) => assert t.sh.rooms == s.sh.rooms;
    case Checked(r, e) => assert t.sh.rooms == s.sh.rooms;
    case _ =>
  }

  lemma NextKeepsOwnPhase(s: Sys, a: Action)
    requires RoomsSound(s) && PhasesSound(s) && MembersAdmitted(s) && Next(s, a).Some?
    ensures PhaseSound(Next(s, a).value, a.c)
  {
    var t := Next(s, a).value;
    assert a.c in s.phase ==> PhaseSound(s, a.c);
    if a.DoSnapshot? {
      assert AllAdmitted(s, s.sh.heap[s.phase[a.c].room]);
    }
  }

  lemma NextKeepsPhases(s: Sys, a: Action)
    requires RoomsSound(s) && PhasesSound(s) && MembersAdmitted(s) && Next(s, a).Some?
    ensures PhasesSound(Next(s, a).value)
  {
    var t := Next(s, a).value;
    NextKeepsOwnPhase(s, a);
    forall c | c in t.phase ensures PhaseSound(t, c) {
      if c != a.c {
        NextKeepsOthersPhase(s, a, c);
      }
    }
  }

  lemma NextKeepsMembers(s: Sys, a: Action)
    requires RoomsSound(s) && PhasesSound(s) && MembersAdmitted(s) && Next(s, a).Some?
    ensures MembersAdmitted(Next(s, a).value)
  {
    var t := Next(s, a).value;
    assert a.c in s.phase ==> PhaseSound(s, a.c);
    if a.DoRemove? && RoomOf(s.sh, a.c).Some? {
      LeftIsExact(s.sh.heap[RoomOf(s.sh, a.c).value].conns, a.c);
    }
    forall r | r in t.sh.heap ensures AllAdmitted(t, t.sh.heap[r]) {
      assert r in s.sh.heap ==> AllAdmitted(s, s.sh.heap[r]);
    }
  }

  lemma NextKeepsHeld(s: Sys, a: Action)
    requires RoomsSound(s) && PhasesSound(s) && RoomsHeld(s) && Next(s, a).Some?
    ensures RoomsHeld(Next(s, a).value)
  {
    var t := Next(s, a).value;
    assert a.c in s.phase ==> PhaseSound(s, a.c);
    forall m | m in t.sh.rooms && t.sh.rooms[m] in t.sh.heap && t.sh.heap[t.sh.rooms[m]].conns == []
      ensures exists c :: c in t.phase && Keeps(t, c, t.sh.rooms[m])
    {
      if m in s.sh.rooms && s.sh.heap[s.sh.rooms[m]].conns == [] {
        StillHeld(s, a, m);
      } else {
        assert a.DoLookup? || a.DoRemove?;
        assert Keeps(t, a.c, t.sh.rooms[m]);
      }
    }
  }

  lemma StillHeld(s: Sys, a: Action, m: string)
    requires RoomsSound(s) && PhasesSound(s) && RoomsHeld(s) && Next(s, a).Some?
    requires var t := Next(s, a).value;
      m in s.sh.rooms && s.sh.heap[s.sh.rooms[m]].conns == [] &&
      m in t.sh.rooms && t.sh.rooms[m] in t.sh.heap && t.sh.heap[t.sh.rooms[m]].conns == []
    ensures var t := Next(s, a).value; exists c :: c in t.phase && Keeps(t, c, t.sh.rooms[m])
  {
    var t := Next(s, a).value;
    var r := s.sh.rooms[m];
    assert t.sh.rooms[m] == r;
    var c :| c in s.phase && Keeps(s, c, r);
    assert PhaseSound(s, c);
    if c == a.c {
      KeeperMovesOn(s, a, m);
    } else {
      assert t.phase[c] == s.phase[c];
      assert Keeps(t, c, r);
    }
  }

  lemma KeeperMovesOn(s: Sys, a: Action, m: string)
    requires RoomsSound(s) && PhasesSound(s) && Next(s, a).Some?
    requires m in s.sh.rooms && s.sh.heap[s.sh.rooms[m]].conns == [] && Keeps(s, a.c, s.sh.rooms[m])
    ensures var t := Next(s, a).value;
      m in t.sh.rooms ==> t.sh.heap[t.sh.rooms[m]].conns != [] || Keeps(t, a.c, t.sh.rooms[m])
  {
    assert PhaseSound(s, a.c);
  }

  /** The delivery that a write makes, unless it skips the sender or is done. */
  ghost function Written(s: Sys, c: ConnId): Option<Delivery> {
    if c in s.phase && s.phase[c].Fanning? && s.phase[c].rest != [] && s.phase[c].rest[0] != c
    then Some(Delivery(s.phase[c].frame, c, s.phase[c].rest[0], s.phase[c].m))
    else None
  }

  lemma LogGrowsBy(s: Sys, a: Action)
    requires Next(s, a).Some?
    ensures var e := Written(s, a.c);
      Next(s, a).value.sent.log == if a.DoWrite? && e.Some? then s.sent.log + [e.value] else s.sent.log
    ensures s.sent.frames <= Next(s, a).value.sent.frames && s.seen.admitted <= Next(s, a).value.seen.admitted
    ensures forall d :: d in s.phase && d != a.c ==>
              d in Next(s, a).value.phase && Next(s, a).value.phase[d] == s.phase[d]
    ensures Next(s, a).value.phase.Keys == s.phase.Keys + {a.c}
  {
  }

  lemma NextKeepsFramesDistinct(s: Sys, a: Action)
    requires PhasesSound(s) && FramesDistinct(s) && Next(s, a).Some?
    ensures FramesDistinct(Next(s, a).value)
  {
    var t := Next(s, a).value;
    forall c, d | c in t.phase && d in t.phase
                  && FrameOf(t.phase[c]).Some? && FrameOf(t.phase[c]) == FrameOf(t.phase[d])
      ensures c == d
    {
      LogGrowsBy(s, a);
      if c == d {
      } else if c == a.c {
        OwnFrameDiffers(s, a, d);
      } else if d == a.c {
        OwnFrameDiffers(s, a, c);
      }
    }
  }

  /** After its step a conn is at the frame it was at, or at a new one. */
  lemma OwnFrameDiffers(s: Sys, a: Action, d: ConnId)
    requires PhasesSound(s) && FramesDistinct(s) && Next(s, a).Some? && d in Next(s, a).value.phase && d != a.c
    requires FrameOf(Next(s, a).value.phase[d]).Some?
    ensures FrameOf(Next(s, a).value.phase[a.c]) != FrameOf(Next(s, a).value.phase[d])
  {
    var t := Next(s, a).value;
    assert t.phase[d] == s.phase[d] && PhaseSound(s, d);
    if a.DoFrame? {
      assert FrameOf(t.phase[a.c]) in {None, Some(s.sent.frames)};
    } else if FrameOf(t.phase[a.c]).Some? {
      assert FrameOf(t.phase[a.c]) == FrameOf(s.phase[a.c]);
    }
  }

  lemma NextKeepsAddressed(s: Sys, a: Action)
    requires PhasesSound(s) && LogAddressed(s) && Next(s, a).Some?
    ensures LogAddressed(Next(s, a).value)
  {
    LogGrowsBy(s, a);
    if a.DoWrite? && Written(s, a.c).Some? {
      assert PhaseSound(s, a.c) && s.phase[a.c].rest[0] in s.phase[a.c].rest;
    }
  }

  lemma NextKeepsOnce(s: Sys, a: Action)
    requires LogOnce(s) && Next(s, a).Some? && (a.DoWrite? ==> a.c in s.phase && FrameAhead(s, a.c))
    ensures LogOnce(Next(s, a).value)
  {
    var t := Next(s, a).value;
    LogGrowsBy(s, a);
    if a.DoWrite? && Written(s, a.c).Some? {
      forall i | 0 <= i < |s.sent.log| && s.sent.log[i].frame == s.phase[a.c].frame
        ensures s.sent.log[i].receiver != s.phase[a.c].rest[0]
      {
        assert s.sent.log[i] in s.sent.log;
      }
    }
  }

  lemma OtherFrameAhead(s: Sys, a: Action, c: ConnId)
    requires FramesDistinct(s) && Next(s, a).Some? && c in s.phase && c != a.c && FrameAhead(s, c)
    ensures c in Next(s, a).value.phase && FrameAhead(Next(s, a).value, c)
  {
    LogGrowsBy(s, a);
    if a.DoWrite? && Written(s, a.c).Some? {
      assert FrameOf(s.phase[a.c]) == FrameOf(s.phase[c]) ==> a.c == c;
    }
  }

  lemma OwnFrameAhead(s: Sys, a: Action)
    requires PhasesSound(s) && LogAddressed(s) && Next(s, a).Some? && (a.c in s.phase ==> FrameAhead(s, a.c))
    ensures a.c in Next(s, a).value.phase && FrameAhead(Next(s, a).value, a.c)
  {
    LogGrowsBy(s, a);
    if a.DoWrite? {
      assert PhaseSound(s, a.c);
      WriteKeepsAhead(s, a.c);
    }
  }

  lemma WriteKeepsAhead(s: Sys, c: ConnId)
    requires Next(s, DoWrite(c)).Some? && c in s.phase && FrameAhead(s, c)
    requires s.phase[c].Fanning? ==> Distinct(s.phase[c].rest)
    ensures FrameAhead(Next(s, DoWrite(c)).value, c)
  {
    LogGrowsBy(s, DoWrite(c));
    var rest := s.phase[c].rest;
    if rest != [] {
      assert forall d :: d in rest[1..] ==> d in rest && d != rest[0];
    }
  }

  lemma NextKeepsLog(s: Sys, a: Action)
    requires PhasesSound(s) && LogSound(s) && Next(s, a).Some?
    ensures LogSound(Next(s, a).value)
  {
    var t := Next(s, a).value;
    LogGrowsBy(s, a);
    NextKeepsAddressed(s, a);
    NextKeepsFramesDistinct(s, a);
    NextKeepsOnce(s, a);
    forall c | c in t.phase ensures FrameAhead(t, c) {
      if c == a.c {
        OwnFrameAhead(s, a);
      } else {
        OtherFrameAhead(s, a, c);
      }
    }
  }

  lemma NextKeepsInv(s: Sys, a: Action)
    requires Inv(s) && Next(s, a).Some?
    ensures Inv(Next(s, a).value)
  {
    NextKeepsRooms(s, a);
    NextKeepsPhases(s, a);
    NextKeepsMembers(s, a);
    NextKeepsHeld(s, a);
    NextKeepsLog(s, a);
  }

  lemma {:induction false} RunKeepsInv(tr: seq<Action>)
    requires Run(tr).Some?
    ensures Inv(Run(tr).value)
  {
    if tr != [] {
      RunKeepsInv(tr[..|tr| - 1]);
      NextKeepsInv(Run(tr[..|tr| - 1]).value, tr[|tr| - 1]);
    }
  }
}
