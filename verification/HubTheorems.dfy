/** The main results about the hub: over every run, and exactly when the run matters. */
module HubTheorems {
  import opened Common
  import opened Rooms
  import opened HubSteps
  import opened HubSafety

  lemma RunSnoc(tr: seq<Action>, a: Action)
    requires Run(tr).Some?
    ensures Run(tr + [a]) == Next(Run(tr).value, a)
  {
    assert (tr + [a])[..|tr|] == tr;
  }

  /** Over every interleaving a mapped room is filed under its own match, has no duplicate
      conn and, whenever the hub lock is free, is non-empty or awaited by a joiner. */
  lemma MappedRoomsAreSound(tr: seq<Action>)
    requires Run(tr).Some?
    ensures var s := Run(tr).value;
      forall m :: m in s.sh.rooms ==>
        && s.sh.rooms[m] in s.sh.heap
        && s.sh.heap[s.sh.rooms[m]].matchID == m
        && Distinct(s.sh.heap[s.sh.rooms[m]].conns)
        && (s.lock.None? ==> s.sh.heap[s.sh.rooms[m]].conns != []
                             || exists c :: c in s.phase && s.phase[c] == Adding(s.sh.rooms[m]))
  {
    RunKeepsInv(tr);
    var s := Run(tr).value;
    forall m | m in s.sh.rooms && s.lock.None? && s.sh.heap[s.sh.rooms[m]].conns == []
      ensures exists c :: c in s.phase && s.phase[c] == Adding(s.sh.rooms[m])
    {
      var c :| c in s.phase && Keeps(s, c, s.sh.rooms[m]);
      assert PhaseSound(s, c);
    }
  }

  // ----- progress

  /** The next step of the handler that `c` is in the middle of. */
  ghost function NextOf(p: Phase, c: ConnId): Option<Action> {
    match p
    case Adding(_) => Some(DoAdd(c))
    case Looked(_, _, _) => Some(DoSnapshot(c))
    case Fanning(_, _, _) => Some(DoWrite(c))
    case Removed(_) => Some(DoCheck(c))
    case Checked(_, _) => Some(DoFinish(c))
    case _ => None
  }

  /** No run gets stuck: a conn in the middle of a handler can always take the handler's next
      step, whoever holds the hub lock is such a conn, and with the lock free an idle conn can
      unregister. */
  lemma RunsCanGoOn(tr: seq<Action>)
    requires Run(tr).Some?
    ensures var s := Run(tr).value;
      && (forall c :: c in s.phase && NextOf(s.phase[c], c).Some? ==> Next(s, NextOf(s.phase[c], c).value).Some?)
      && (s.lock.Some? ==> s.lock.value in s.phase && NextOf(s.phase[s.lock.value], s.lock.value).Some?)
      && (s.lock.None? ==> forall c :: At(s, c, Idle) ==> Next(s, DoRemove(c)).Some?)
  {
    RunKeepsInv(tr);
    var s := Run(tr).value;
    forall c | c in s.phase && NextOf(s.phase[c], c).Some? ensures Next(s, NextOf(s.phase[c], c).value).Some? {
      assert PhaseSound(s, c);
    }
    assert s.lock.Some? ==> PhaseSound(s, s.lock.value);
  }

  // ----- delivery

  /** Some step of the schedule let `c` into match `m` after finding its uid among the players
      that the store has for `m`. */
  ghost predicate PassedCheck(tr: seq<Action>, seen: Seen, c: ConnId, m: string) {
    exists i :: 0 <= i < |tr| && Admits(tr[i], seen, c, m)
  }

  ghost predicate Admits(a: Action, seen: Seen, c: ConnId, m: string) {
    && a.DoLookup? && a.c == c && a.m == m
    && m in seen.players && seen.players[m] == a.players && c in seen.uid && seen.uid[c] in a.players
  }

  lemma AdmissionStays(s: Sys, a: Action, b: Action, c: ConnId, m: string)
    requires PhasesSound(s) && Next(s, a).Some? && c in s.phase && Admits(b, s.seen, c, m)
    ensures Admits(b, Next(s, a).value.seen, c, m)
  {
  }

  lemma AdmissionIsChecked(s: Sys, a: Action, c: ConnId, m: string)
    requires Next(s, a).Some?
    requires (c, m) !in s.seen.admitted && (c, m) in Next(s, a).value.seen.admitted
    ensures Admits(a, Next(s, a).value.seen, c, m)
  {
    RoleOfPlayers(s.seen.uid[a.c], a.players);
  }

  lemma {:induction false} AdmittedPassedCheck(tr: seq<Action>, c: ConnId, m: string)
    requires Run(tr).Some? && (c, m) in Run(tr).value.seen.admitted
    ensures PassedCheck(tr, Run(tr).value.seen, c, m)
  {
    var n := |tr| - 1;
    var before, a := tr[..n], tr[n];
    var s := Run(before).value;
    if (c, m) in s.seen.admitted {
      AdmittedPassedCheck(before, c, m);
      AdmittedKnown(before, c, m);
      RunKeepsInv(before);
      var i :| 0 <= i < |before| && Admits(before[i], s.seen, c, m);
      AdmissionStays(s, a, before[i], c, m);
      assert tr[i] == before[i];
    } else {
      AdmissionIsChecked(s, a, c, m);
    }
  }

  lemma AdmittedStep(s: Sys, a: Action, c: ConnId, m: string)
    requires Next(s, a).Some? && (c, m) in Next(s, a).value.seen.admitted
    ensures (c, m) in s.seen.admitted || (a.DoLookup? && a.c == c && a.m == m)
    ensures c in s.phase ==> c in Next(s, a).value.phase
    ensures c == a.c ==> c in Next(s, a).value.phase
  {
  }

  lemma {:induction false} AdmittedKnown(tr: seq<Action>, c: ConnId, m: string)
    requires Run(tr).Some? && (c, m) in Run(tr).value.seen.admitted
    ensures c in Run(tr).value.phase
  {
    var before, a := tr[..|tr| - 1], tr[|tr| - 1];
    AdmittedStep(Run(before).value, a, c, m);
    if (c, m) in Run(before).value.seen.admitted {
      AdmittedKnown(before, c, m);
    }
  }

  /** `c` is known under a uid that is among the players the store has for match `m`. */
  ghost predicate IsPlayer(s: Sys, c: ConnId, m: string) {
    m in s.seen.players && c in s.seen.uid && s.seen.uid[c] in s.seen.players[m]
  }

  /** In every run the conns admitted to a match are players of the stored match. */
  lemma AdmittedArePlayers(tr: seq<Action>, c: ConnId, m: string)
    requires Run(tr).Some? && (c, m) in Run(tr).value.seen.admitted
    ensures IsPlayer(Run(tr).value, c, m)
  {
    AdmittedPassedCheck(tr, c, m);
  }

  /** In every run, a TURN or MATCH_END frame naming match m reaches only conns whose uid is a
      player of the stored match m, never its sender, and each of them at most once. */
  lemma DeliveryIsSafe(tr: seq<Action>)
    requires Run(tr).Some?
    ensures var s := Run(tr).value;
      && (forall i :: 0 <= i < |s.sent.log| ==>
            s.sent.log[i].receiver != s.sent.log[i].sender && IsPlayer(s, s.sent.log[i].receiver, s.sent.log[i].m))
      && (forall i, j :: 0 <= i < j < |s.sent.log| && s.sent.log[i].frame == s.sent.log[j].frame ==>
            s.sent.log[i].receiver != s.sent.log[j].receiver)
  {
    RunKeepsInv(tr);
    var s := Run(tr).value;
    forall i | 0 <= i < |s.sent.log|
      ensures s.sent.log[i].receiver != s.sent.log[i].sender && IsPlayer(s, s.sent.log[i].receiver, s.sent.log[i].m)
    {
      assert s.sent.log[i] in s.sent.log;
      AdmittedArePlayers(tr, s.sent.log[i].receiver, s.sent.log[i].m);
    }
  }

  // ----- and complete

  ghost predicate Delivered(s: Sys, f: nat, d: ConnId) {
    exists e :: e in s.sent.log && e.frame == f && e.receiver == d
  }

  /** Of the snapshot `conns` for frame `f`, exactly the first `done` conns other than the
      sender have been written to. */
  ghost predicate FannedTo(s: Sys, f: nat, c: ConnId, conns: seq<ConnId>, done: nat)
    requires done <= |conns|
  {
    forall d :: Delivered(s, f, d) <==> d in conns[..done] && d != c
  }

  /** The broadcast of frame `f` by `c` is under way at the right place, or is over. */
  ghost predicate FanningOut(s: Sys, f: nat, m: string, c: ConnId, conns: seq<ConnId>) {
    && f < s.sent.frames && c in s.phase
    && if FrameOf(s.phase[c]) == Some(f) then
         s.phase[c].Fanning? && |s.phase[c].rest| <= |conns| && s.phase[c].rest == conns[|conns| - |s.phase[c].rest|..]
         && FannedTo(s, f, c, conns, |conns| - |s.phase[c].rest|)
       else FannedTo(s, f, c, conns, |conns|)
  }

  lemma SnapshotStartsFanning(s: Sys, c: ConnId)
    requires PhasesSound(s) && LogSound(s) && Next(s, DoSnapshot(c)).Some?
    ensures var t := Next(s, DoSnapshot(c)).value; var p := t.phase[c];
      p.Fanning? && p.rest == s.sh.heap[s.phase[c].room].conns && FanningOut(t, p.frame, p.m, c, p.rest)
  {
    var t := Next(s, DoSnapshot(c)).value;
    assert PhaseSound(s, c) && FrameAhead(s, c);
    assert t.sent.log == s.sent.log;
  }

  lemma QuietKeepsDelivered(s: Sys, a: Action, f: nat)
    requires Next(s, a).Some? && (Written(s, a.c).Some? && a.DoWrite? ==> Written(s, a.c).value.frame != f)
    ensures forall d :: Delivered(Next(s, a).value, f, d) <==> Delivered(s, f, d)
  {
    LogGrowsBy(s, a);
    var t := Next(s, a).value;
    forall d ensures Delivered(t, f, d) <==> Delivered(s, f, d) {
      if Delivered(s, f, d) {
        var e :| e in s.sent.log && e.frame == f && e.receiver == d;
        assert e in t.sent.log;
      }
      if Delivered(t, f, d) {
        var e :| e in t.sent.log && e.frame == f && e.receiver == d;
        assert e in s.sent.log;
      }
    }
  }

  lemma WriteDelivers(s: Sys, c: ConnId)
    requires Next(s, DoWrite(c)).Some? && s.phase[c].rest != []
    ensures var f, to := s.phase[c].frame, s.phase[c].rest[0];
      forall d :: Delivered(Next(s, DoWrite(c)).value, f, d) <==> Delivered(s, f, d) || (d == to && to != c)
  {
    LogGrowsBy(s, DoWrite(c));
    var t, f, to := Next(s, DoWrite(c)).value, s.phase[c].frame, s.phase[c].rest[0];
    forall d ensures Delivered(t, f, d) <==> Delivered(s, f, d) || (d == to && to != c) {
      if Delivered(s, f, d) {
        var e :| e in s.sent.log && e.frame == f && e.receiver == d;
        assert e in t.sent.log;
      }
      if d == to && to != c {
        assert Written(s, c).value in t.sent.log;
      }
    }
  }

  lemma OwnWriteKeepsFanning(s: Sys, c: ConnId, f: nat, m: string, conns: seq<ConnId>)
    requires Next(s, DoWrite(c)).Some? && FrameOf(s.phase[c]) == Some(f) && FanningOut(s, f, m, c, conns)
    ensures FanningOut(Next(s, DoWrite(c)).value, f, m, c, conns)
  {
    var t, rest := Next(s, DoWrite(c)).value, s.phase[c].rest;
    var done := |conns| - |rest|;
    if rest == [] {
      QuietKeepsDelivered(s, DoWrite(c), f);
      assert FannedTo(s, f, c, conns, |conns|);
    } else {
      WriteDelivers(s, c);
      assert conns[..done + 1] == conns[..done] + [rest[0]];
      assert rest[1..] == conns[done + 1..];
    }
  }

  lemma NextKeepsFanning(s: Sys, a: Action, f: nat, m: string, c: ConnId, conns: seq<ConnId>)
    requires PhasesSound(s) && FramesDistinct(s) && Next(s, a).Some? && FanningOut(s, f, m, c, conns)
    requires forall d :: d in s.phase && d != c ==> FrameOf(s.phase[d]) != Some(f)
    ensures FanningOut(Next(s, a).value, f, m, c, conns)
    ensures forall d :: d in Next(s, a).value.phase && d != c ==> FrameOf(Next(s, a).value.phase[d]) != Some(f)
  {
    LogGrowsBy(s, a);
    FrameStays(s, a, f, c);
    if a == DoWrite(c) && FrameOf(s.phase[c]) == Some(f) {
      OwnWriteKeepsFanning(s, c, f, m, conns);
    } else {
      QuietKeepsDelivered(s, a, f);
    }
  }

  /** An old frame is taken up by no conn that was not at it. */
  lemma FrameStays(s: Sys, a: Action, f: nat, c: ConnId)
    requires Next(s, a).Some? && f < s.sent.frames && c in s.phase
    requires forall d :: d in s.phase && d != c ==> FrameOf(s.phase[d]) != Some(f)
    requires FrameOf(s.phase[c]) == Some(f) ==> s.phase[c].Fanning?
    ensures forall d :: d in Next(s, a).value.phase && d != c ==> FrameOf(Next(s, a).value.phase[d]) != Some(f)
    ensures FrameOf(s.phase[c]) != Some(f) ==> FrameOf(Next(s, a).value.phase[c]) != Some(f)
    ensures a != DoWrite(c) && FrameOf(s.phase[c]) == Some(f) ==> Next(s, a).value.phase[c] == s.phase[c]
  {
  }

  /** Every run after the snapshot of a broadcast, whatever other conns do in between: as long
      as the sender has conns left to write to, exactly those before them have the frame; once
      it is at something else, exactly the conns of the snapshot other than itself have. */
  lemma {:induction false} BroadcastIsComplete(tr: seq<Action>, k: nat, c: ConnId)
    requires Run(tr).Some? && k < |tr| && tr[k] == DoSnapshot(c)
    ensures Run(tr[..k + 1]).Some? && c in Run(tr[..k + 1]).value.phase && Run(tr[..k + 1]).value.phase[c].Fanning?
    ensures var p := Run(tr[..k + 1]).value.phase[c]; var s := Run(tr).value;
      && FanningOut(s, p.frame, p.m, c, p.rest)
      && forall d :: d in s.phase && d != c ==> FrameOf(s.phase[d]) != Some(p.frame)
    decreases |tr|
  {
    var n := |tr| - 1;
    var before := tr[..n];
    var s := Run(before).value;
    RunKeepsInv(before);
    if k == n {
      assert tr[..k + 1] == tr;
      SnapshotStartsFanning(s, c);
      SnapshotIsAlone(s, c);
    } else {
      assert before[..k + 1] == tr[..k + 1];
      BroadcastIsComplete(before, k, c);
      var p := Run(tr[..k + 1]).value.phase[c];
      NextKeepsFanning(s, tr[n], p.frame, p.m, c, p.rest);
    }
  }

  lemma SnapshotIsAlone(s: Sys, c: ConnId)
    requires FramesDistinct(s) && Next(s, DoSnapshot(c)).Some?
    ensures var t := Next(s, DoSnapshot(c)).value;
      forall d :: d in t.phase && d != c ==> FrameOf(t.phase[d]) != FrameOf(t.phase[c])
  {
    assert FrameOf(Next(s, DoSnapshot(c)).value.phase[c]) == FrameOf(s.phase[c]);
  }

  // ----- which schedules leave a conn behind

  ghost predicate Leaving(p: Phase) {
    p.Removed? || p.Checked? || p.Gone?
  }

  /** `c` has unregistered, or is doing so, and sits in a mapped room other than its last one. */
  ghost predicate LeftBehind(s: Sys, c: ConnId, m: string) {
    && c in s.phase && Leaving(s.phase[c])
    && m in s.sh.rooms && m != MatchOf(s, c)
    && s.sh.rooms[m] in s.sh.heap && c in s.sh.heap[s.sh.rooms[m]].conns
  }

  /** A leaving conn is out of the room of its last match. */
  ghost predicate OutOfLast(s: Sys, c: ConnId)
    requires c in s.phase
  {
    Leaving(s.phase[c]) && MatchOf(s, c) in s.sh.rooms && s.sh.rooms[MatchOf(s, c)] in s.sh.heap ==>
      c !in s.sh.heap[s.sh.rooms[MatchOf(s, c)]].conns
  }

  /** A room that `d` found empty has since been entered by live conns only. */
  ghost predicate OutOfEmptied(s: Sys, c: ConnId, d: ConnId)
    requires c in s.phase && d in s.phase
  {
    Leaving(s.phase[c]) && s.phase[d].Checked? && s.phase[d].empty && s.phase[d].room in s.sh.heap ==>
      c !in s.sh.heap[s.phase[d].room].conns
  }

  ghost predicate LeavingSound(s: Sys) {
    && (forall c :: c in s.phase ==> OutOfLast(s, c))
    && (forall c, d :: c in s.phase && d in s.phase ==> OutOfEmptied(s, c, d))
  }

  lemma RemovalKeepsOutOfLast(s: Sys, d: ConnId, c: ConnId)
    requires RoomsSound(s) && PhasesSound(s) && Next(s, DoRemove(d)).Some? && c in s.phase && OutOfLast(s, c)
    ensures OutOfLast(Next(s, DoRemove(d)).value, c)
  {
    var r, t := RoomOf(s.sh, d), Next(s, DoRemove(d)).value;
    assert t.sh.rooms == s.sh.rooms && MatchOf(t, c) == MatchOf(s, c);
    if r.Some? {
      LeftIsExact(s.sh.heap[r.value].conns, d);
    }
  }

  lemma AddKeepsOutOfLast(s: Sys, d: ConnId, c: ConnId)
    requires Next(s, DoAdd(d)).Some? && c in s.phase && OutOfLast(s, c)
    ensures OutOfLast(Next(s, DoAdd(d)).value, c)
  {
    var t := Next(s, DoAdd(d)).value;
    assert t.sh.rooms == s.sh.rooms && MatchOf(t, c) == MatchOf(s, c);
  }

  lemma NextKeepsOutOfLast(s: Sys, a: Action, c: ConnId)
    requires RoomsSound(s) && PhasesSound(s) && LeavingSound(s) && Next(s, a).Some? && c in Next(s, a).value.phase
    ensures OutOfLast(Next(s, a).value, c)
  {
    assert a.c in s.phase ==> PhaseSound(s, a.c);
    if c in s.phase {
      assert PhaseSound(s, c) && OutOfLast(s, c);
      match a
      case DoRemove(d) => RemovalKeepsOutOfLast(s, d, c);
      case DoAdd(d) => AddKeepsOutOfLast(s, d, c);
      case _ =>
    }
  }

  lemma NextKeepsOutOfEmptied(s: Sys, a: Action, c: ConnId, d: ConnId)
    requires RoomsSound(s) && PhasesSound(s) && LeavingSound(s) && Next(s, a).Some?
    requires c in Next(s, a).value.phase && d in Next(s, a).value.phase
    ensures OutOfEmptied(Next(s, a).value, c, d)
  {
    assert a.c in s.phase ==> PhaseSound(s, a.c);
    if c in s.phase && d in s.phase {
      assert PhaseSound(s, c) && PhaseSound(s, d) && OutOfEmptied(s, c, d);
      if a.c == c {
        assert !a.DoRemove? || s.lock.None?;
      }
    }
  }

  lemma NextKeepsLeavingSound(s: Sys, a: Action)
    requires RoomsSound(s) && PhasesSound(s) && LeavingSound(s) && Next(s, a).Some?
    ensures LeavingSound(Next(s, a).value)
  {
    var t := Next(s, a).value;
    forall c | c in t.phase ensures OutOfLast(t, c) {
      NextKeepsOutOfLast(s, a, c);
    }
    forall c, d | c in t.phase && d in t.phase ensures OutOfEmptied(t, c, d) {
      NextKeepsOutOfEmptied(s, a, c, d);
    }
  }

  lemma {:induction false} RunKeepsLeavingSound(tr: seq<Action>)
    requires Run(tr).Some?
    ensures LeavingSound(Run(tr).value)
  {
    if tr != [] {
      RunKeepsInv(tr[..|tr| - 1]);
      RunKeepsLeavingSound(tr[..|tr| - 1]);
      NextKeepsLeavingSound(Run(tr[..|tr| - 1]).value, tr[|tr| - 1]);
    }
  }

  /** Nothing ever takes a left-behind conn, or its room, out of the map again. */
  lemma LeftBehindStays(s: Sys, a: Action, c: ConnId, m: string)
    requires RoomsSound(s) && PhasesSound(s) && LeavingSound(s) && Next(s, a).Some? && LeftBehind(s, c, m)
    ensures LeftBehind(Next(s, a).value, c, m)
  {
    var t := Next(s, a).value;
    assert PhaseSound(s, c);
    assert a.c in s.phase ==> PhaseSound(s, a.c);
    if a.DoRemove? && RoomOf(s.sh, a.c).Some? {
      LeftIsExact(s.sh.heap[RoomOf(s.sh, a.c).value].conns, a.c);
    }
    if a.DoFinish? && s.phase[a.c].empty && a.c != c {
      assert OutOfEmptied(s, c, a.c);
      assert MatchOf(s, a.c) != m;
    }
  }

  /** Unregistering at this moment leaves `a.c` behind in the mapped room of `m`. */
  ghost predicate Strays(s: Sys, a: Action, m: string) {
    && a.DoRemove? && m in s.sh.rooms && m != MatchOf(s, a.c)
    && s.sh.rooms[m] in s.sh.heap && a.c in s.sh.heap[s.sh.rooms[m]].conns
  }

  lemma RemovalStrays(s: Sys, c: ConnId, m: string)
    requires RoomsSound(s) && PhasesSound(s) && Next(s, DoRemove(c)).Some?
    ensures LeftBehind(Next(s, DoRemove(c)).value, c, m) <==> Strays(s, DoRemove(c), m)
  {
    var t := Next(s, DoRemove(c)).value;
    assert PhaseSound(s, c) && t.sh.rooms == s.sh.rooms && MatchOf(t, c) == MatchOf(s, c);
    if RoomOf(s.sh, c).Some? {
      LeftIsExact(s.sh.heap[RoomOf(s.sh, c).value].conns, c);
    }
  }

  lemma OthersRemovalStraysNone(s: Sys, d: ConnId, c: ConnId, m: string)
    requires RoomsSound(s) && PhasesSound(s) && Next(s, DoRemove(d)).Some? && c != d
    requires LeftBehind(Next(s, DoRemove(d)).value, c, m)
    ensures LeftBehind(s, c, m)
  {
    var r := RoomOf(s.sh, d);
    if r.Some? {
      LeftIsExact(s.sh.heap[r.value].conns, d);
    }
  }

  lemma OnlyRemovalStrays(s: Sys, a: Action, c: ConnId, m: string)
    requires RoomsSound(s) && PhasesSound(s) && Next(s, a).Some? && LeftBehind(Next(s, a).value, c, m)
    ensures LeftBehind(s, c, m) || (c == a.c && a.DoRemove?)
  {
    assert a.c in s.phase ==> PhaseSound(s, a.c);
    if a.DoRemove? {
      if c != a.c {
        OthersRemovalStraysNone(s, a.c, c, m);
      }
    } else if c in s.phase {
      assert PhaseSound(s, c);
    }
  }

  lemma StrayingBeginsIt(s: Sys, a: Action, c: ConnId, m: string)
    requires RoomsSound(s) && PhasesSound(s) && LeavingSound(s) && Next(s, a).Some?
    ensures LeftBehind(Next(s, a).value, c, m) <==> LeftBehind(s, c, m) || (c == a.c && Strays(s, a, m))
  {
    if a.DoRemove? && a.c == c {
      RemovalStrays(s, c, m);
    }
    if LeftBehind(s, c, m) {
      LeftBehindStays(s, a, c, m);
    } else if LeftBehind(Next(s, a).value, c, m) {
      OnlyRemovalStrays(s, a, c, m);
    }
  }

  ghost predicate StraysAt(tr: seq<Action>, k: nat, c: ConnId, m: string)
    requires k < |tr|
  {
    Run(tr[..k]).Some? && tr[k].c == c && Strays(Run(tr[..k]).value, tr[k], m)
  }

  lemma StraysAtPrefix(tr: seq<Action>, n: nat, k: nat, c: ConnId, m: string)
    requires k < n <= |tr|
    ensures StraysAt(tr[..n], k, c, m) <==> StraysAt(tr, k, c, m)
  {
    assert tr[..n][..k] == tr[..k];
  }

  lemma {:induction false} LeftBehindStrayed(tr: seq<Action>, c: ConnId, m: string) returns (k: nat)
    requires Run(tr).Some? && LeftBehind(Run(tr).value, c, m)
    ensures k < |tr| && StraysAt(tr, k, c, m)
  {
    var n := |tr| - 1;
    var before := tr[..n];
    RunKeepsInv(before);
    RunKeepsLeavingSound(before);
    StrayingBeginsIt(Run(before).value, tr[n], c, m);
    if LeftBehind(Run(before).value, c, m) {
      k := LeftBehindStrayed(before, c, m);
      StraysAtPrefix(tr, n, k, c, m);
    } else {
      k := n;
    }
  }

  lemma {:induction false} StrayedIsLeftBehind(tr: seq<Action>, k: nat, c: ConnId, m: string)
    requires Run(tr).Some? && k < |tr| && StraysAt(tr, k, c, m)
    ensures LeftBehind(Run(tr).value, c, m)
  {
    var n := |tr| - 1;
    var before := tr[..n];
    var s := Run(before).value;
    RunKeepsInv(before);
    RunKeepsLeavingSound(before);
    if k < n {
      StraysAtPrefix(tr, n, k, c, m);
      StrayedIsLeftBehind(before, k, c, m);
      LeftBehindStays(s, tr[n], c, m);
    } else {
      assert Strays(s, tr[n], m);
      StrayingBeginsIt(s, tr[n], c, m);
    }
  }

  /** Once all conns have unregistered, `h.rooms` is empty exactly when no conn ever
      unregistered while it sat in a mapped room other than that of its current match. */
  lemma RoomsDrainExactly(tr: seq<Action>)
    requires Run(tr).Some?
    requires forall c :: c in Run(tr).value.phase ==> Run(tr).value.phase[c].Gone?
    ensures Run(tr).value.sh.rooms == map[] <==>
            forall k: nat, c, m :: k < |tr| ==> !StraysAt(tr, k, c, m)
  {
    var s := Run(tr).value;
    RunKeepsInv(tr);
    RunKeepsLeavingSound(tr);
    if s.sh.rooms != map[] {
      var m :| m in s.sh.rooms;
      MappedRoomsAreSound(tr);
      assert s.lock.Some? ==> PhaseSound(s, s.lock.value);
      var conns := s.sh.heap[s.sh.rooms[m]].conns;
      assert conns != [] && conns[0] in conns;
      assert AllAdmitted(s, s.sh.heap[s.sh.rooms[m]]);
      var k := LeftBehindStrayed(tr, conns[0], m);
    } else {
      forall k: nat, c, m | k < |tr| ensures !StraysAt(tr, k, c, m) {
        if StraysAt(tr, k, c, m) {
          StrayedIsLeftBehind(tr, k, c, m);
        }
      }
    }
  }

  /** `u` alone in match `a`, then in match `b`, then gone. */
  ghost function TwoMatchRun(u: string, a: string, b: string): seq<Action> {
    [DoRegister(1, u)] + [DoLookup(1, a, [u], 0)] + [DoAdd(1)] + [DoLookup(1, b, [u], 1)] + [DoAdd(1)]
    + [DoRemove(1)] + [DoCheck(1)] + [DoFinish(1)]
  }

  lemma Registers(u: string)
    ensures Run([DoRegister(1, u)])
         == Some(Sys(Shared({1}, map[], map[], map[1 := ""]), map[1 := Idle], None,
                     Seen(map[1 := u], map[], {}), Sent(0, [])))
  {
    RunSnoc([], DoRegister(1, u));
    assert [] + [DoRegister(1, u)] == [DoRegister(1, u)];
    var s := Run([DoRegister(1, u)]).value;
    assert s.sh.conns == {1} && s.sh.matchOf == map[1 := ""];
    assert s.phase == map[1 := Idle] && s.seen.uid == map[1 := u];
  }

  lemma LooksUpFirst(u: string, a: string)
    requires u != "" && a != ""
    ensures Run([DoRegister(1, u)] + [DoLookup(1, a, [u], 0)])
         == Some(Sys(Shared({1}, map[a := 0], map[0 := RoomV(a, [])], map[1 := a]), map[1 := Adding(0)], None,
                     Seen(map[1 := u], map[a := [u]], {(1, a)}), Sent(0, [])))
  {
    Registers(u);
    RoleOfPlayers(u, [u]);
    RunSnoc([DoRegister(1, u)], DoLookup(1, a, [u], 0));
    var s := Run([DoRegister(1, u)] + [DoLookup(1, a, [u], 0)]).value;
    assert s.sh.rooms == map[a := 0] && s.sh.heap == map[0 := RoomV(a, [])] && s.sh.matchOf == map[1 := a];
    assert s.phase == map[1 := Adding(0)] && s.seen.players == map[a := [u]] && s.seen.admitted == {(1, a)};
  }

  lemma JoinsFirst(u: string, a: string)
    requires u != "" && a != ""
    ensures Run([DoRegister(1, u)] + [DoLookup(1, a, [u], 0)] + [DoAdd(1)])
         == Some(Sys(Shared({1}, map[a := 0], map[0 := RoomV(a, [1])], map[1 := a]), map[1 := Idle], None,
                     Seen(map[1 := u], map[a := [u]], {(1, a)}), Sent(0, [])))
  {
    LooksUpFirst(u, a);
    RunSnoc([DoRegister(1, u)] + [DoLookup(1, a, [u], 0)], DoAdd(1));
    assert Joined([], 1) == [1];
    var s := Run([DoRegister(1, u)] + [DoLookup(1, a, [u], 0)] + [DoAdd(1)]).value;
    assert s.sh.heap == map[0 := RoomV(a, [1])] && s.phase == map[1 := Idle];
  }

  lemma JoinsSecond(s: Sys, u: string, a: string, b: string)
    requires u != "" && b != "" && a != b
    requires s == Sys(Shared({1}, map[a := 0], map[0 := RoomV(a, [1])], map[1 := a]), map[1 := Idle], None,
                      Seen(map[1 := u], map[a := [u]], {(1, a)}), Sent(0, []))
    ensures Next(s, DoLookup(1, b, [u], 1)).Some? && Next(Next(s, DoLookup(1, b, [u], 1)).value, DoAdd(1)).Some?
    ensures var t := Next(Next(s, DoLookup(1, b, [u], 1)).value, DoAdd(1)).value;
      && t.sh.rooms == map[a := 0, b := 1] && t.sh.heap == map[0 := RoomV(a, [1]), 1 := RoomV(b, [1])]
      && t.sh.matchOf == map[1 := b] && t.phase == map[1 := Idle] && t.lock == None
  {
    RoleOfPlayers(u, [u]);
    assert Joined([], 1) == [1];
    var t := Next(s, DoLookup(1, b, [u], 1)).value;
    assert t.sh.heap == map[0 := RoomV(a, [1]), 1 := RoomV(b, [])] && t.phase[1] == Adding(1);
    assert t.phase[1 := Idle] == map[1 := Idle];
  }

  lemma LeavesSecond(s: Sys, a: string, b: string)
    requires b != "" && a != b
    requires s.sh.rooms == map[a := 0, b := 1] && s.sh.heap == map[0 := RoomV(a, [1]), 1 := RoomV(b, [1])]
    requires s.sh.matchOf == map[1 := b] && s.phase == map[1 := Idle] && s.lock == None
    ensures Next(s, DoRemove(1)).Some?
    ensures Next(Next(s, DoRemove(1)).value, DoCheck(1)).Some?
    ensures Next(Next(Next(s, DoRemove(1)).value, DoCheck(1)).value, DoFinish(1)).Some?
    ensures var t := Next(Next(Next(s, DoRemove(1)).value, DoCheck(1)).value, DoFinish(1)).value;
      a in t.sh.rooms && t.phase == map[1 := Gone]
  {
    assert RoomOf(s.sh, 1) == Some(1) && Left([1], 1) == [];
  }

  /** Rooms do fail to drain: every conn is gone and the room of the first match is still mapped,
      because its one member strayed. */
  lemma SecondMatchStrandsFirst(u: string, a: string, b: string)
    requires u != "" && a != "" && b != "" && a != b
    ensures var tr := TwoMatchRun(u, a, b);
      && Run(tr).Some? && StraysAt(tr, 5, 1, a)
      && a in Run(tr).value.sh.rooms && forall c :: c in Run(tr).value.phase ==> Run(tr).value.phase[c].Gone?
  {
    var first := [DoRegister(1, u)] + [DoLookup(1, a, [u], 0)] + [DoAdd(1)];
    var both := first + [DoLookup(1, b, [u], 1)] + [DoAdd(1)];
    JoinsFirst(u, a);
    JoinsSecond(Run(first).value, u, a, b);
    RunSnoc(first, DoLookup(1, b, [u], 1));
    RunSnoc(first + [DoLookup(1, b, [u], 1)], DoAdd(1));
    LeavesSecond(Run(both).value, a, b);
    RunSnoc(both, DoRemove(1));
    RunSnoc(both + [DoRemove(1)], DoCheck(1));
    RunSnoc(both + [DoRemove(1)] + [DoCheck(1)], DoFinish(1));
    assert TwoMatchRun(u, a, b)[..5] == both && TwoMatchRun(u, a, b)[5] == DoRemove(1);
  }

  /** Each conn asks for one match only. */
  ghost predicate OneMatchEach(tr: seq<Action>) {
    forall i, j :: 0 <= i < |tr| && 0 <= j < |tr| && tr[i].DoLookup? && tr[j].DoLookup? && tr[i].c == tr[j].c ==>
      tr[i].m == tr[j].m
  }

  ghost predicate AskedAt(tr: seq<Action>, i: nat, c: ConnId, m: string)
    requires i < |tr|
  {
    tr[i].DoLookup? && tr[i].c == c && tr[i].m == m
  }

  lemma AdmittedAsked(tr: seq<Action>, c: ConnId, m: string)
    requires Run(tr).Some? && (c, m) in Run(tr).value.seen.admitted
    ensures exists i: nat :: i < |tr| && AskedAt(tr, i, c, m)
  {
    RunKeepsInv(tr);
    AdmittedPassedCheck(tr, c, m);
    var i :| 0 <= i < |tr| && Admits(tr[i], Run(tr).value.seen, c, m);
    assert AskedAt(tr, i, c, m);
  }

  lemma CurrentChangesByLookup(s: Sys, a: Action, c: ConnId)
    requires Next(s, a).Some? && c in s.phase && !(a.DoLookup? && a.c == c)
    ensures MatchOf(Next(s, a).value, c) == MatchOf(s, c)
  {
  }

  lemma {:induction false} OneMatchIsCurrent(tr: seq<Action>, c: ConnId, m: string)
    requires Run(tr).Some? && OneMatchEach(tr) && (c, m) in Run(tr).value.seen.admitted
    ensures MatchOf(Run(tr).value, c) == m
  {
    var n := |tr| - 1;
    var before := tr[..n];
    var s := Run(before).value;
    if tr[n].DoLookup? && tr[n].c == c {
      AdmittedAsked(tr, c, m);
    } else {
      assert (c, m) in s.seen.admitted;
      AdmittedKnown(before, c, m);
      OneMatchIsCurrent(before, c, m);
      CurrentChangesByLookup(s, tr[n], c);
    }
  }

  /** If each conn joins one match only, an unregistered conn is in no mapped room, and the
      room map is empty once all conns have unregistered. */
  lemma OneMatchDrains(tr: seq<Action>)
    requires Run(tr).Some? && OneMatchEach(tr)
    ensures var s := Run(tr).value;
      forall c, m :: c in s.phase && Leaving(s.phase[c]) && m in s.sh.rooms ==>
        s.sh.rooms[m] in s.sh.heap && c !in s.sh.heap[s.sh.rooms[m]].conns
    ensures var s := Run(tr).value;
      (forall c :: c in s.phase ==> s.phase[c].Gone?) ==> s.sh.rooms == map[]
  {
    var s := Run(tr).value;
    RunKeepsInv(tr);
    RunKeepsLeavingSound(tr);
    forall c, m | c in s.phase && Leaving(s.phase[c]) && m in s.sh.rooms
      ensures c !in s.sh.heap[s.sh.rooms[m]].conns
    {
      if c in s.sh.heap[s.sh.rooms[m]].conns {
        assert AllAdmitted(s, s.sh.heap[s.sh.rooms[m]]);
        OneMatchIsCurrent(tr, c, m);
      }
    }
    if forall c :: c in s.phase ==> s.phase[c].Gone? {
      forall k: nat, c, m | k < |tr| ensures !StraysAt(tr, k, c, m) {
        if StraysAt(tr, k, c, m) {
          StrayedIsLeftBehind(tr, k, c, m);
        }
      }
      RoomsDrainExactly(tr);
    }
  }
}
