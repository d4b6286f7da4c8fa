/** The documents of the store (server/internal/store/store.go) and the MATCH_END body. */
module Records {
  import opened Common

  datatype Attempt = Attempt(
    uid: string, puzzleDate: string, guesses: seq<string>,
    won: bool, score: int, completedAt: int, inProgress: bool)

  datatype Match = Match(
    id: string, players: seq<string>, mode: string, puzzleDate: string,
    state: string, turns: int, winner: string, createdAt: int, endedAt: int)

  datatype MatchEnd = MatchEnd(matchID: string, winnerUid: string, scoreP1: int, scoreP2: int)

  function MaxScoreToTurns(s1: int, s2: int): int {
    if s1 > s2 then s1 else s2
  }

  /** The record a MATCH_END writes over the one it read. */
  function EndedBy(m: Match, req: MatchEnd, now: int): Match {
    m.(state := "ended", winner := req.winnerUid, turns := MaxScoreToTurns(req.scoreP1, req.scoreP2), endedAt := now)
  }

  function AttemptKey(uid: string, date: string): string {
    uid + "::" + date
  }

  function DailyKey(date: string): string {
    "lb:daily:" + date
  }

  const GLOBAL_KEY: string := "lb:global:alltime"

  ghost predicate EndsWith(s: string, tail: string) {
    |tail| <= |s| && s[|s| - |tail|..] == tail
  }

  /** Some two attempts on these dates share a key. */
  ghost predicate KeysClash(d1: string, d2: string) {
    exists u1, u2 :: AttemptKey(u1, d1) == AttemptKey(u2, d2) && (u1, d1) != (u2, d2)
  }

  lemma LongerTailClashes(d1: string, d2: string) returns (u: string)
    requires |d1| < |d2| && EndsWith("::" + d2, "::" + d1)
    ensures AttemptKey(u, d1) == AttemptKey("", d2)
  {
    u := ("::" + d2)[..|d2| - |d1|];
    assert u + "::" + d1 == u + ("::" + d1) == "::" + d2;
    assert "" + "::" + d2 == "::" + d2;
  }

  lemma ClashIsTail(u1: string, d1: string, u2: string, d2: string)
    requires AttemptKey(u1, d1) == AttemptKey(u2, d2) && |d1| <= |d2|
    ensures |d1| == |d2| ==> u1 == u2 && d1 == d2
    ensures EndsWith("::" + d2, "::" + d1)
  {
    var k := AttemptKey(u1, d1);
    assert |k| == |u1| + 2 + |d1| == |u2| + 2 + |d2|;
    assert "::" + d1 == k[|u1|..] && "::" + d2 == k[|u2|..];
    assert k[|u2|..][|u1| - |u2|..] == k[|u1|..];
    if |d1| == |d2| {
      assert u1 == k[..|u1|] && u2 == k[..|u2|];
      assert d1 == k[|u1| + 2..] && d2 == k[|u2| + 2..];
    }
  }

  /** The key mixes up attempts on two dates exactly when "::" and one date end in "::" and the
      other, shorter, date. */
  lemma AttemptKeyClashesExactly(d1: string, d2: string)
    ensures KeysClash(d1, d2)
            <==> |d1| != |d2| && (EndsWith("::" + d2, "::" + d1) || EndsWith("::" + d1, "::" + d2))
  {
    if KeysClash(d1, d2) {
      var u1, u2 :| AttemptKey(u1, d1) == AttemptKey(u2, d2) && (u1, d1) != (u2, d2);
      if |d1| <= |d2| {
        ClashIsTail(u1, d1, u2, d2);
      } else {
        ClashIsTail(u2, d2, u1, d1);
      }
    }
    if |d1| < |d2| && EndsWith("::" + d2, "::" + d1) {
      var u := LongerTailClashes(d1, d2);
      assert AttemptKey(u, d1) == AttemptKey("", d2) && (u, d1) != ("", d2);
    }
    if |d2| < |d1| && EndsWith("::" + d1, "::" + d2) {
      var u := LongerTailClashes(d2, d1);
      assert AttemptKey("", d1) == AttemptKey(u, d2) && ("", d1) != (u, d2);
    }
  }

  /** Dates of one length never clash, whatever the uids contain. */
  lemma AttemptKeyInjective(u1: string, d1: string, u2: string, d2: string)
    requires |d1| == |d2| && AttemptKey(u1, d1) == AttemptKey(u2, d2)
    ensures u1 == u2 && d1 == d2
  {
    AttemptKeyClashesExactly(d1, d2);
    assert (u1, d1) == (u2, d2);
  }

  /** Length of a YYYY-MM-DD date, which the attempt handler insists on. */
  const DATE_LENGTH: nat := 10

  /** Every stored attempt is filed under its own uid and date. */
  ghost predicate AttemptsFiled(attempts: map<string, Attempt>) {
    forall key :: key in attempts ==>
      key == AttemptKey(attempts[key].uid, attempts[key].puzzleDate) && |attempts[key].puzzleDate| == DATE_LENGTH
  }

  /** `found` is the one stored attempt of (uid, date), or None when there is none. */
  ghost predicate IsAttemptOf(attempts: map<string, Attempt>, uid: string, date: string, found: Option<Attempt>) {
    match found
    case Some(a) => a in attempts.Values && a.uid == uid && a.puzzleDate == date
                    && forall b :: b in attempts.Values && b.uid == uid && b.puzzleDate == date ==> b == a
    case None => forall a :: a in attempts.Values ==> a.uid != uid || a.puzzleDate != date
  }

  function AttemptAt(attempts: map<string, Attempt>, uid: string, date: string): Option<Attempt> {
    if AttemptKey(uid, date) in attempts then Some(attempts[AttemptKey(uid, date)]) else None
  }

  /** With attempts filed so, looking up the key finds the attempt of that uid and date and
      never anybody else's. */
  lemma LookupIsExact(attempts: map<string, Attempt>, uid: string, date: string)
    requires AttemptsFiled(attempts) && |date| == DATE_LENGTH
    ensures IsAttemptOf(attempts, uid, date, AttemptAt(attempts, uid, date))
  {
    var key := AttemptKey(uid, date);
    if key in attempts {
      AttemptKeyInjective(uid, date, attempts[key].uid, attempts[key].puzzleDate);
    }
  }

  /** Writing one attempt leaves that of every other uid and date as it was. */
  lemma WriteIsExact(attempts: map<string, Attempt>, a: Attempt, uid: string, date: string)
    requires |a.puzzleDate| == |date|
    ensures AttemptAt(attempts[AttemptKey(a.uid, a.puzzleDate) := a], uid, date)
         == if uid == a.uid && date == a.puzzleDate then Some(a) else AttemptAt(attempts, uid, date)
  {
    if AttemptKey(uid, date) == AttemptKey(a.uid, a.puzzleDate) {
      AttemptKeyInjective(uid, date, a.uid, a.puzzleDate);
    }
  }

  lemma BoardKeysDiffer(d1: string, d2: string)
    ensures DailyKey(d1) != GLOBAL_KEY
    ensures DailyKey(d1) == DailyKey(d2) ==> d1 == d2
  {
    assert DailyKey(d1)[3] == 'd' && GLOBAL_KEY[3] == 'g';
    assert DailyKey(d1)[9..] == d1 && DailyKey(d2)[9..] == d2;
  }
}
