/** The two-section join: when a registered conn really is in the mapped room of its match. */
module HubJoins {
  import opened Common
  import opened Rooms
  import opened HubSteps
  import opened HubSafety
  import opened HubTheorems

  /** `a` deletes the mapped room of match `m`. */
  ghost predicate Deletes(s: Sys, a: Action, m: string) {
    a.DoFinish? && a.c in s.phase && s.phase[a.c].Checked? && s.phase[a.c].empty && MatchOf(s, a.c) == m
  }

  /** Since the last join of `c`, the room of its match was deleted from the map. */
  ghost predicate LostRoom(tr: seq<Action>, c: ConnId) {
    if tr == [] || Run(tr[..|tr| - 1]).None? then false
    else
      var before, a := tr[..|tr| - 1], tr[|tr| - 1];
      if (a.DoLookup? || a.DoRegister?) && a.c == c then false
      else LostRoom(before, c) || Deletes(Run(before).value, a, MatchOf(Run(before).value, c))
  }

  ghost predicate InMappedRoom(s: Sys, c: ConnId) {
    && MatchOf(s, c) in s.sh.rooms
    && s.sh.rooms[MatchOf(s, c)] in s.sh.heap
    && c in s.sh.heap[s.sh.rooms[MatchOf(s, c)]].conns
  }

  /** `c` is a member of the mapped room of its match, or about to add itself to it. */
  ghost predicate HeadedHome(s: Sys, c: ConnId) {
    InMappedRoom(s, c)
    || (MatchOf(s, c) in s.sh.rooms && At(s, c, Adding(s.sh.rooms[MatchOf(s, c)])))
  }

  ghost predicate Live(s: Sys, c: ConnId) {
    c in s.phase && !Leaving(s.phase[c])
  }

  lemma OwnStepKeepsHome(s: Sys, a: Action)
    requires RoomsSound(s) && PhasesSound(s) && Next(s, a).Some? && Live(s, a.c) && Live(Next(s, a).value, a.c)
    requires !a.DoLookup? && MatchOf(s, a.c) != ""
    ensures HeadedHome(Next(s, a).value, a.c) <==> HeadedHome(s, a.c)
  {
    assert PhaseSound(s, a.c);
  }

  lemma OtherStepKeepsHome(s: Sys, a: Action, c: ConnId)
    requires RoomsSound(s) && PhasesSound(s) && Next(s, a).Some? && Live(s, c) && a.c != c && MatchOf(s, c) != ""
    ensures HeadedHome(Next(s, a).value, c) <==> HeadedHome(s, c) && !Deletes(s, a, MatchOf(s, c))
  {
    var t, m := Next(s, a).value, MatchOf(s, c);
    assert PhaseSound(s, c);
    assert MatchOf(t, c) == m && t.phase[c] == s.phase[c];
    match a
    case DoRemove(d) => RemovalKeepsHome(s, d, c);
    case DoFinish(d) => FinishKeepsHome(s, d, c);
    case DoLookup(d, n, players, made) => LookupKeepsHome(s, a, c);
    case DoAdd(d) => AddKeepsHome(s, d, c);
    case _ =>
      assert t.sh.rooms == s.sh.rooms && t.sh.heap == s.sh.heap;
  }

  lemma FinishKeepsHome(s: Sys, d: ConnId, c: ConnId)
    requires RoomsSound(s) && PhasesSound(s) && Next(s, DoFinish(d)).Some?
    requires Live(s, c) && d != c && MatchOf(s, c) != ""
    ensures HeadedHome(Next(s, DoFinish(d)).value, c) <==> HeadedHome(s, c) && !Deletes(s, DoFinish(d), MatchOf(s, c))
  {
    var t := Next(s, DoFinish(d)).value;
    assert PhaseSound(s, d) && t.sh.heap == s.sh.heap && t.phase[c] == s.phase[c] && MatchOf(t, c) == MatchOf(s, c);
  }

  lemma AddKeepsHome(s: Sys, d: ConnId, c: ConnId)
    requires RoomsSound(s) && PhasesSound(s) && Next(s, DoAdd(d)).Some? && Live(s, c) && d != c
    ensures HeadedHome(Next(s, DoAdd(d)).value, c) <==> HeadedHome(s, c)
  {
    var t := Next(s, DoAdd(d)).value;
    assert t.sh.rooms == s.sh.rooms && t.phase[c] == s.phase[c] && MatchOf(t, c) == MatchOf(s, c);
  }

  lemma RemovalKeepsHome(s: Sys, d: ConnId, c: ConnId)
    requires RoomsSound(s) && PhasesSound(s) && Next(s, DoRemove(d)).Some? && Live(s, c) && d != c
    ensures HeadedHome(Next(s, DoRemove(d)).value, c) <==> HeadedHome(s, c)
  {
    var r := RoomOf(s.sh, d);
    assert Next(s, DoRemove(d)).value.sh.rooms == s.sh.rooms;
    if r.Some? {
      LeftIsExact(s.sh.heap[r.value].conns, d);
    }
  }

  lemma LookupKeepsHome(s: Sys, a: Action, c: ConnId)
    requires RoomsSound(s) && PhasesSound(s) && a.DoLookup? && Next(s, a).Some? && Live(s, c) && a.c != c
    ensures HeadedHome(Next(s, a).value, c) <==> HeadedHome(s, c)
  {
    var t, m := Next(s, a).value, MatchOf(s, c);
    assert PhaseSound(s, c);
    assert t.phase[c] == s.phase[c] && MatchOf(t, c) == m;
    if m in s.sh.rooms {
      assert t.sh.rooms[m] == s.sh.rooms[m] && t.sh.heap[t.sh.rooms[m]] == s.sh.heap[s.sh.rooms[m]];
    } else if m in t.sh.rooms {
      assert t.sh.heap[t.sh.rooms[m]].conns == [];
    }
  }

  lemma LiveBefore(s: Sys, a: Action, c: ConnId)
    requires Next(s, a).Some? && Live(Next(s, a).value, c)
    ensures Live(s, c) || a.DoRegister?
    ensures !Live(s, c) ==> a.c == c && MatchOf(Next(s, a).value, c) == ""
    ensures MatchOf(Next(s, a).value, c) == MatchOf(s, c) || (a.c == c && (a.DoLookup? || a.DoRegister?))
  {
  }

  lemma LookupHeadsHome(s: Sys, a: Action)
    requires RoomsSound(s) && a.DoLookup? && Next(s, a).Some?
    ensures HeadedHome(Next(s, a).value, a.c)
  {
  }

  lemma {:induction false} HeadedHomeExactly(tr: seq<Action>, c: ConnId)
    requires Run(tr).Some? && Live(Run(tr).value, c) && MatchOf(Run(tr).value, c) != ""
    ensures HeadedHome(Run(tr).value, c) <==> !LostRoom(tr, c)
  {
    var before, a := tr[..|tr| - 1], tr[|tr| - 1];
    var s := Run(before).value;
    RunKeepsInv(before);
    LiveBefore(s, a, c);
    if a.c == c && a.DoLookup? {
      LookupHeadsHome(s, a);
    } else if a.c == c {
      HeadedHomeExactly(before, c);
      OwnStepKeepsHome(s, a);
      assert !Deletes(s, a, MatchOf(s, c));
    } else {
      HeadedHomeExactly(before, c);
      OtherStepKeepsHome(s, a, c);
    }
  }

  /** Split join, every interleaving: a registered conn outside its own join is in the mapped
      room of its match exactly when that room was not deleted since the conn looked it up. */
  lemma SplitJoinExactly(tr: seq<Action>, c: ConnId)
    requires Run(tr).Some?
    requires Live(Run(tr).value, c) && !Run(tr).value.phase[c].Adding? && MatchOf(Run(tr).value, c) != ""
    ensures InMappedRoom(Run(tr).value, c) <==> !LostRoom(tr, c)
  {
    HeadedHomeExactly(tr, c);
  }

  /** `h.conns` holds exactly the conns that have registered and not begun to leave. */
  lemma {:induction false} RegisteredIsLive(tr: seq<Action>, c: ConnId)
    requires Run(tr).Some?
    ensures c in Run(tr).value.sh.conns <==> Live(Run(tr).value, c)
  {
    if tr != [] {
      RegisteredIsLive(tr[..|tr| - 1], c);
      RegisteredStep(Run(tr[..|tr| - 1]).value, tr[|tr| - 1], c);
    }
  }

  lemma RegisteredStep(s: Sys, a: Action, c: ConnId)
    requires Next(s, a).Some? && (c in s.sh.conns <==> Live(s, c))
    ensures c in Next(s, a).value.sh.conns <==> Live(Next(s, a).value, c)
  {
  }

  // ----- the two sections as one step

  /** No step of another conn comes between the two sections of a join. */
  ghost predicate AtomicJoins(tr: seq<Action>) {
    forall i :: 0 <= i < |tr| - 1 && tr[i].DoLookup? ==> tr[i + 1] == DoAdd(tr[i].c)
  }

  lemma {:induction false} OnlyLastIsAdding(tr: seq<Action>, c: ConnId)
    requires Run(tr).Some? && AtomicJoins(tr)
    requires c in Run(tr).value.phase && Run(tr).value.phase[c].Adding?
    ensures tr != [] && tr[|tr| - 1].DoLookup? && tr[|tr| - 1].c == c
  {
    var n := |tr| - 1;
    var before, a := tr[..n], tr[n];
    if !(a.DoLookup? && a.c == c) {
      var next := if n > 0 && tr[n - 1].DoLookup? then Some(DoAdd(tr[n - 1].c)) else None;
      assert next.Some? ==> tr[n - 1 + 1] == next.value;
      OnlyLastIsAdding(before, c);
    }
  }

  lemma {:induction false} EmptiedStaysEmpty(tr: seq<Action>, d: ConnId)
    requires Run(tr).Some? && AtomicJoins(tr)
    requires d in Run(tr).value.phase && Run(tr).value.phase[d].Checked? && Run(tr).value.phase[d].empty
    ensures Run(tr).value.phase[d].room in Run(tr).value.sh.heap
    ensures Run(tr).value.sh.heap[Run(tr).value.phase[d].room].conns == []
    ensures !tr[|tr| - 1].DoLookup?
  {
    var n := |tr| - 1;
    var before, a := tr[..n], tr[n];
    var s := Run(before).value;
    RunKeepsInv(before);
    if a.c != d {
      EmptiedStaysEmpty(before, d);
      assert PhaseSound(s, d);
      assert a.c in s.phase ==> PhaseSound(s, a.c);
      if a.DoAdd? {
        OnlyLastIsAdding(before, a.c);
        assert false;
      }
    }
  }

  /** With atomic joins, no unregister deletes the room of a live conn. */
  lemma AtomicDeletionSpares(tr: seq<Action>, a: Action, c: ConnId)
    requires Run(tr).Some? && AtomicJoins(tr) && Next(Run(tr).value, a).Some?
    requires Live(Run(tr).value, c) && MatchOf(Run(tr).value, c) != "" && !LostRoom(tr, c)
    ensures !Deletes(Run(tr).value, a, MatchOf(Run(tr).value, c))
  {
    var s := Run(tr).value;
    RunKeepsInv(tr);
    if Deletes(s, a, MatchOf(s, c)) {
      HeadedHomeExactly(tr, c);
      EmptiedStaysEmpty(tr, a.c);
      assert PhaseSound(s, a.c);
      if s.phase[c].Adding? {
        OnlyLastIsAdding(tr, c);
      }
      assert false;
    }
  }

  lemma {:induction false} AtomicNeverLoses(tr: seq<Action>, c: ConnId)
    requires Run(tr).Some? && AtomicJoins(tr)
    requires Live(Run(tr).value, c) && MatchOf(Run(tr).value, c) != ""
    ensures !LostRoom(tr, c)
  {
    var n := |tr| - 1;
    var before, a := tr[..n], tr[n];
    LiveBefore(Run(before).value, a, c);
    if !(a.c == c && (a.DoLookup? || a.DoRegister?)) {
      AtomicNeverLoses(before, c);
      AtomicDeletionSpares(before, a, c);
    }
  }

  /** If the two sections run as one step, every registered conn with a match is in the
      mapped room of that match. */
  lemma AtomicJoinIsPresent(tr: seq<Action>)
    requires Run(tr).Some? && AtomicJoins(tr) && (tr != [] ==> !tr[|tr| - 1].DoLookup?)
    ensures var s := Run(tr).value;
      forall c :: c in s.sh.conns && MatchOf(s, c) != "" ==> InMappedRoom(s, c)
  {
    var s := Run(tr).value;
    forall c | c in s.sh.conns && MatchOf(s, c) != "" ensures InMappedRoom(s, c) {
      RegisteredIsLive(tr, c);
      if s.phase[c].Adding? {
        OnlyLastIsAdding(tr, c);
      }
      AtomicNeverLoses(tr, c);
      SplitJoinExactly(tr, c);
    }
  }

  /** With one match per conn as well, membership is exactly "registered with that match". */
  lemma AtomicMembershipExactly(tr: seq<Action>, m: string, c: ConnId)
    requires Run(tr).Some? && AtomicJoins(tr) && OneMatchEach(tr) && (tr != [] ==> !tr[|tr| - 1].DoLookup?)
    requires m in Run(tr).value.sh.rooms
    ensures var s := Run(tr).value;
      s.sh.rooms[m] in s.sh.heap &&
      (c in s.sh.heap[s.sh.rooms[m]].conns <==> c in s.sh.conns && MatchOf(s, c) == m)
  {
    var s := Run(tr).value;
    RunKeepsInv(tr);
    assert "" !in s.sh.rooms;
    if c in s.sh.heap[s.sh.rooms[m]].conns {
      assert AllAdmitted(s, s.sh.heap[s.sh.rooms[m]]);
      OneMatchIsCurrent(tr, c, m);
      OneMatchDrains(tr);
      RegisteredIsLive(tr, c);
    } else if c in s.sh.conns && MatchOf(s, c) == m {
      AtomicJoinIsPresent(tr);
    }
  }

  // ----- a schedule of the split join that breaks it

  /** `c` is alone in the mapped room of `m`, and `d` may join `m`. */
  ghost predicate LoneMember(s: Sys, c: ConnId, d: ConnId, m: string, players: seq<string>) {
    && c != d && s.lock.None? && At(s, c, Idle) && At(s, d, Idle)
    && m != "" && m in s.sh.rooms && s.sh.rooms[m] in s.sh.heap
    && s.sh.heap[s.sh.rooms[m]].conns == [c] && MatchOf(s, c) == m
    && d in s.seen.uid && s.seen.uid[d] != "" && s.seen.uid[d] in players
    && (m in s.seen.players ==> s.seen.players[m] == players)
  }

  ghost function Steps(s: Sys, tr: seq<Action>): Option<Sys>
    decreases |tr|
  {
    if tr == [] then Some(s)
    else if Next(s, tr[0]).None? then None
    else Steps(Next(s, tr[0]).value, tr[1..])
  }

  /** `d` looks the room up; `c` unregisters, emptying and deleting it; `d` adds itself. */
  ghost function LosingSchedule(c: ConnId, d: ConnId, m: string, players: seq<string>, made: RoomId): seq<Action> {
    [DoLookup(d, m, players, made)] + [DoRemove(c)] + [DoCheck(c)] + [DoFinish(c)] + [DoAdd(d)]
  }

  lemma StepsCons(s: Sys, a: Action, tr: seq<Action>)
    requires Next(s, a).Some?
    ensures Steps(s, [a] + tr) == Steps(Next(s, a).value, tr)
  {
    assert ([a] + tr)[1..] == tr;
  }

  lemma EmptyingUnderTheJoiner(s: Sys, c: ConnId, d: ConnId, m: string, r: RoomId)
    requires RoomsSound(s) && PhasesSound(s) && s.lock.None?
    requires At(s, c, Idle) && At(s, d, Adding(r)) && MatchOf(s, c) == m
    requires m in s.sh.rooms && s.sh.rooms[m] == r && r in s.sh.heap && s.sh.heap[r].conns == [c]
    ensures Steps(s, [DoRemove(c)] + ([DoCheck(c)] + [DoFinish(c)])).Some?
    ensures var t := Steps(s, [DoRemove(c)] + ([DoCheck(c)] + [DoFinish(c)])).value;
      At(t, d, Adding(r)) && r in t.sh.heap && m !in t.sh.rooms && MatchOf(t, d) == MatchOf(s, d)
      && t.sh.conns == s.sh.conns - {c}
  {
    assert PhaseSound(s, c);
    assert RoomOf(s.sh, c) == Some(r);
    var s2 := Next(s, DoRemove(c)).value;
    assert s2.sh.heap[r].conns == [] && s2.phase[c] == Removed(r);
    var s3 := Next(s2, DoCheck(c)).value;
    assert s3.sh == s2.sh && s3.phase[c] == Checked(r, true);
    assert Next(s3, DoFinish(c)).Some?;
    StepsCons(s3, DoFinish(c), []);
    StepsCons(s2, DoCheck(c), [DoFinish(c)]);
    StepsCons(s, DoRemove(c), [DoCheck(c)] + [DoFinish(c)]);
    assert [DoFinish(c)] + [] == [DoFinish(c)];
  }

  lemma StepsHead(s: Sys, tr: seq<Action>)
    requires tr != [] && Steps(s, tr).Some?
    ensures Next(s, tr[0]).Some? && Steps(s, tr) == Steps(Next(s, tr[0]).value, tr[1..])
  {
  }

  lemma {:induction false} StepsAppend(s: Sys, tr: seq<Action>, more: seq<Action>)
    requires Steps(s, tr).Some?
    ensures Steps(s, tr + more) == Steps(Steps(s, tr).value, more)
    decreases |tr|
  {
    if tr == [] {
      assert tr + more == more;
    } else {
      var t := Next(s, tr[0]).value;
      StepsHead(s, tr);
      StepsAppend(t, tr[1..], more);
      StepsCons(s, tr[0], tr[1..] + more);
      assert tr + more == [tr[0]] + (tr[1..] + more);
    }
  }

  lemma JoinerLooksUp(s: Sys, c: ConnId, d: ConnId, m: string, players: seq<string>, made: RoomId)
    requires RoomsSound(s) && LoneMember(s, c, d, m, players) && made !in s.sh.heap
    ensures Next(s, DoLookup(d, m, players, made)).Some?
    ensures var t := Next(s, DoLookup(d, m, players, made)).value;
      && t.lock.None? && At(t, c, Idle) && At(t, d, Adding(s.sh.rooms[m])) && MatchOf(t, c) == MatchOf(t, d) == m
      && t.sh.rooms == s.sh.rooms && t.sh.heap == s.sh.heap && t.sh.conns == s.sh.conns
  {
    RoleOfPlayers(s.seen.uid[d], players);
  }

  lemma JoinerAdds(s: Sys, d: ConnId, r: RoomId)
    requires At(s, d, Adding(r)) && r in s.sh.heap
    ensures Next(s, DoAdd(d)).Some?
    ensures var t := Next(s, DoAdd(d)).value;
      At(t, d, Idle) && MatchOf(t, d) == MatchOf(s, d) && t.sh.rooms == s.sh.rooms && t.sh.conns == s.sh.conns
  {
  }

  /** From every state with a lone member, the split join has a schedule after which the
      joiner is registered for `m` but `m` has no mapped room. */
  lemma SplitJoinCanLose(s: Sys, c: ConnId, d: ConnId, m: string, players: seq<string>, made: RoomId)
    requires Inv(s) && LoneMember(s, c, d, m, players) && made !in s.sh.heap
    requires d in s.sh.conns
    ensures Steps(s, LosingSchedule(c, d, m, players, made)).Some?
    ensures var t := Steps(s, LosingSchedule(c, d, m, players, made)).value;
      d in t.sh.conns && At(t, d, Idle) && MatchOf(t, d) == m && m !in t.sh.rooms
  {
    var r := s.sh.rooms[m];
    var a := DoLookup(d, m, players, made);
    var middle := [DoRemove(c)] + ([DoCheck(c)] + [DoFinish(c)]);
    JoinerLooksUp(s, c, d, m, players, made);
    var s1 := Next(s, a).value;
    NextKeepsInv(s, a);
    EmptyingUnderTheJoiner(s1, c, d, m, r);
    var s4 := Steps(s1, middle).value;
    JoinerAdds(s4, d, r);
    StepsCons(s4, DoAdd(d), []);
    StepsAppend(s1, middle, [DoAdd(d)] + []);
    StepsCons(s, a, middle + ([DoAdd(d)] + []));
    assert LosingSchedule(c, d, m, players, made) == [a] + (middle + ([DoAdd(d)] + []));
  }

  lemma RunTakesHead(tr: seq<Action>, more: seq<Action>)
    requires Run(tr).Some? && more != [] && Steps(Run(tr).value, more).Some?
    ensures Run(tr + [more[0]]).Some?
    ensures Steps(Run(tr + [more[0]]).value, more[1..]) == Steps(Run(tr).value, more)
  {
    StepsHead(Run(tr).value, more);
    RunSnoc(tr, more[0]);
  }

  /** What the steps of a schedule do after a run is what the longer run does. */
  lemma {:induction false} StepsAreRun(tr: seq<Action>, more: seq<Action>)
    requires Run(tr).Some? && Steps(Run(tr).value, more).Some?
    ensures Run(tr + more) == Steps(Run(tr).value, more)
    decreases |more|
  {
    if more == [] {
      assert tr + more == tr;
    } else {
      var longer, rest := tr + [more[0]], more[1..];
      assert longer + rest == tr + more;
      RunTakesHead(tr, more);
      StepsAreRun(longer, rest);
    }
  }

  ghost function LoneMemberRun(m: string, players: seq<string>): seq<Action>
    requires |players| == 2
  {
    [DoRegister(1, players[0])] + [DoRegister(2, players[1])] + [DoLookup(1, m, players, 0)] + [DoAdd(1)]
  }

  /** Such a state is reached by two registrations and one join. */
  lemma LoneMemberIsReachable(m: string, players: seq<string>)
    requires m != "" && |players| == 2 && players[0] != "" && players[1] != ""
    ensures Run(LoneMemberRun(m, players)).Some?
    ensures var s := Run(LoneMemberRun(m, players)).value;
      LoneMember(s, 1, 2, m, players) && 2 in s.sh.conns && 1 !in s.sh.heap
  {
    RoleOfPlayers(players[0], players);
    assert [] + [DoRegister(1, players[0])] == [DoRegister(1, players[0])];
    RunSnoc([], DoRegister(1, players[0]));
    RunSnoc([DoRegister(1, players[0])], DoRegister(2, players[1]));
    RunSnoc([DoRegister(1, players[0])] + [DoRegister(2, players[1])], DoLookup(1, m, players, 0));
    RunSnoc([DoRegister(1, players[0])] + [DoRegister(2, players[1])] + [DoLookup(1, m, players, 0)], DoAdd(1));
  }

  /** For every match of two players there is a run that loses one of them: conn 2 is registered
      for the match and idle, the match has no mapped room, and `LostRoom` says so. */
  lemma SplitJoinLosesInARun(m: string, players: seq<string>)
    requires m != "" && |players| == 2 && players[0] != "" && players[1] != ""
    ensures var tr := LoneMemberRun(m, players) + LosingSchedule(1, 2, m, players, 1);
      && Run(tr).Some?
      && var t := Run(tr).value;
         2 in t.sh.conns && At(t, 2, Idle) && MatchOf(t, 2) == m && m !in t.sh.rooms && LostRoom(tr, 2)
  {
    var tr, more := LoneMemberRun(m, players), LosingSchedule(1, 2, m, players, 1);
    LoneMemberIsReachable(m, players);
    RunKeepsInv(tr);
    SplitJoinCanLose(Run(tr).value, 1, 2, m, players, 1);
    StepsAreRun(tr, more);
    SplitJoinExactly(tr + more, 2);
  }
}
