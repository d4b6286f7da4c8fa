/**
 MATCH_END is a read, a change and a write with no lock in between
 (server/internal/ws/match_lifecycle.go:105-119). Reads and writes of several conns interleave.
 */
module MatchRuns {
  import opened Common
  import opened Records

  type Table = map<string, Match>

  /** A conn that has read `read` and will write it back ended. */
  datatype Pending = Pending(read: Match, req: MatchEnd, now: int) {
    function Write(): Match {
      EndedBy(read, req, now)
    }
  }

  datatype MState = MState(table: Table, held: map<nat, Pending>)

  datatype MAction =
    | Read(c: nat, req: MatchEnd, now: int)
    | Write(c: nat)

  predicate WinnerAllowed(req: MatchEnd, m: Match) {
    req.winnerUid == "" || req.winnerUid in m.players
  }

  ghost function MNext(s: MState, a: MAction): Option<MState> {
    match a
    case Read(c, req, now) =>
      if c in s.held || req.matchID !in s.table || !WinnerAllowed(req, s.table[req.matchID]) then None
      else Some(s.(held := s.held[c := Pending(s.table[req.matchID], req, now)]))
    case Write(c) =>
      if c !in s.held then None
      else Some(MState(s.table[s.held[c].read.id := s.held[c].Write()], s.held - {c}))
  }

  ghost function MRun(t0: Table, tr: seq<MAction>): Option<MState> {
    if tr == [] then Some(MState(t0, map[]))
    else
      var before := MRun(t0, tr[..|tr| - 1]);
      if before.None? then None else MNext(before.value, tr[|tr| - 1])
  }

  /** The last write to match `id` in the run, if any. */
  ghost function LastWrite(t0: Table, tr: seq<MAction>, id: string): Option<Pending> {
    if tr == [] || MRun(t0, tr[..|tr| - 1]).None? then None
    else
      var s, a := MRun(t0, tr[..|tr| - 1]).value, tr[|tr| - 1];
      if a.Write? && a.c in s.held && s.held[a.c].read.id == id then Some(s.held[a.c])
      else LastWrite(t0, tr[..|tr| - 1], id)
  }

  ghost predicate TableSound(t: Table) {
    forall id :: id in t ==> t[id].id == id && (t[id].winner == "" || t[id].winner in t[id].players)
  }

  /** What no MATCH_END may change. */
  ghost predicate SameIdentity(m: Match, n: Match) {
    m.id == n.id && m.players == n.players && m.mode == n.mode && m.puzzleDate == n.puzzleDate
    && m.createdAt == n.createdAt
  }

  ghost predicate Derived(t0: Table, p: Pending) {
    p.read.id in t0 && SameIdentity(p.read, t0[p.read.id]) && WinnerAllowed(p.req, t0[p.read.id])
    && p.req.matchID == p.read.id
  }

  /** Match `id` is as it was stored at first, or is that record ended by `last`. */
  ghost predicate WrittenBy(t0: Table, t: Table, id: string, last: Option<Pending>)
    requires id in t0
  {
    && id in t
    && match last
       case None => t[id] == t0[id]
       case Some(p) => t[id] == EndedBy(t0[id], p.req, p.now) && p.req.matchID == id && WinnerAllowed(p.req, t0[id])
  }

  lemma NextWrites(t0: Table, s: MState, a: MAction, id: string, last: Option<Pending>)
    requires TableSound(t0) && MNext(s, a).Some? && id in t0 && WrittenBy(t0, s.table, id, last)
    requires forall c :: c in s.held ==> Derived(t0, s.held[c])
    ensures WrittenBy(t0, MNext(s, a).value.table, id,
                      if a.Write? && a.c in s.held && s.held[a.c].read.id == id then Some(s.held[a.c]) else last)
  {
  }

  lemma NextHolds(t0: Table, s: MState, a: MAction, last: Option<Pending>)
    requires TableSound(t0) && MNext(s, a).Some? && s.table.Keys == t0.Keys
    requires forall c :: c in s.held ==> Derived(t0, s.held[c])
    requires a.Read? ==> a.req.matchID in t0 && WrittenBy(t0, s.table, a.req.matchID, last)
    ensures MNext(s, a).value.table.Keys == t0.Keys
    ensures forall c :: c in MNext(s, a).value.held ==> Derived(t0, MNext(s, a).value.held[c])
  {
  }

  /** After any interleaving a match is as it was stored at first, or is that record ended by
      the last write alone: earlier reads and lost updates leave no trace. */
  lemma {:induction false} MatchIsLastWrite(t0: Table, tr: seq<MAction>)
    requires TableSound(t0) && MRun(t0, tr).Some?
    ensures MRun(t0, tr).value.table.Keys == t0.Keys
    ensures forall c :: c in MRun(t0, tr).value.held ==> Derived(t0, MRun(t0, tr).value.held[c])
    ensures forall id :: id in t0 ==> WrittenBy(t0, MRun(t0, tr).value.table, id, LastWrite(t0, tr, id))
  {
    if tr != [] {
      var before, a := tr[..|tr| - 1], tr[|tr| - 1];
      MatchIsLastWrite(t0, before);
      var s := MRun(t0, before).value;
      NextHolds(t0, s, a, if a.Read? then LastWrite(t0, before, a.req.matchID) else None);
      forall id | id in t0 ensures WrittenBy(t0, MRun(t0, tr).value.table, id, LastWrite(t0, tr, id)) {
        NextWrites(t0, s, a, id, LastWrite(t0, before, id));
      }
    }
  }

  /** Ended stays ended; identity never changes; the winner is empty or a player; the turn
      count is the larger score of the last write. */
  lemma MatchEndIsSafe(t0: Table, tr: seq<MAction>, id: string)
    requires TableSound(t0) && MRun(t0, tr).Some? && id in t0
    ensures var s := MRun(t0, tr).value;
      && TableSound(s.table) && id in s.table && SameIdentity(s.table[id], t0[id])
      && (t0[id].state == "ended" ==> s.table[id].state == "ended")
      && (LastWrite(t0, tr, id).Some? ==>
            var req := LastWrite(t0, tr, id).value.req;
            && s.table[id].state == "ended"
            && s.table[id].winner == req.winnerUid && s.table[id].endedAt == LastWrite(t0, tr, id).value.now
            && s.table[id].turns >= req.scoreP1 && s.table[id].turns >= req.scoreP2
            && s.table[id].turns in {req.scoreP1, req.scoreP2})
  {
    MatchIsLastWrite(t0, tr);
    var s := MRun(t0, tr).value;
    forall k | k in s.table
      ensures s.table[k].id == k && (s.table[k].winner == "" || s.table[k].winner in s.table[k].players)
    {
      assert k in t0 && WrittenBy(t0, s.table, k, LastWrite(t0, tr, k));
    }
    assert WrittenBy(t0, s.table, id, LastWrite(t0, tr, id));
  }

  /** Once some prefix of the run has ended a match, every longer prefix finds it ended. */
  lemma {:induction false} EndedStaysEnded(t0: Table, tr: seq<MAction>, k: nat, id: string)
    requires TableSound(t0) && MRun(t0, tr).Some? && k <= |tr| && id in t0
    requires MRun(t0, tr[..k]).Some? && id in MRun(t0, tr[..k]).value.table
    requires MRun(t0, tr[..k]).value.table[id].state == "ended"
    ensures id in MRun(t0, tr).value.table && MRun(t0, tr).value.table[id].state == "ended"
    decreases |tr|
  {
    if k == |tr| {
      assert tr[..k] == tr;
    } else {
      var before := tr[..|tr| - 1];
      assert before[..k] == tr[..k];
      EndedStaysEnded(t0, before, k, id);
      MatchIsLastWrite(t0, before);
      MatchIsLastWrite(t0, tr);
      assert WrittenBy(t0, MRun(t0, tr).value.table, id, LastWrite(t0, tr, id));
    }
  }

  /** An uninterrupted MATCH_END, with what `Hubs.Hub.PersistEnd` ensures of the match table,
      is a read and a write of such a run. */
  lemma EndIsReadWrite(t0: Table, tr: seq<MAction>, c: nat, req: MatchEnd, now: int)
    requires MRun(t0, tr).Some? && c !in MRun(t0, tr).value.held
    requires var t := MRun(t0, tr).value.table; req.matchID in t && WinnerAllowed(req, t[req.matchID])
    ensures var s := MRun(t0, tr).value; var m := s.table[req.matchID];
      MRun(t0, tr + [Read(c, req, now), Write(c)]) == Some(s.(table := s.table[m.id := EndedBy(m, req, now)]))
  {
    var s := MRun(t0, tr).value;
    var all := tr + [Read(c, req, now), Write(c)];
    assert all[..|all| - 1] == tr + [Read(c, req, now)];
    assert (tr + [Read(c, req, now)])[..|tr|] == tr;
    assert MRun(t0, tr + [Read(c, req, now)]) == MNext(s, Read(c, req, now));
    assert s.held[c := Pending(s.table[req.matchID], req, now)] - {c} == s.held;
  }
}
