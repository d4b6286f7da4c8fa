/**
 Attempt submits and match ends feed a daily board and then the global one
 (server/internal/api/attempts.go:79-89, server/internal/ws/match_lifecycle.go:121-129).
 The calls of several requests interleave; no call fails.
 */
module PairedBoards {
  import opened Common
  import opened Records
  import opened Boards

  /** A board update some request has still to make. */
  datatype Todo =
    | Daily(date: string, uid: string, score: int)
    | Global(uid: string, score: int)

  datatype PState = PState(boards: BoardMap, attempts: map<string, Attempt>, todo: multiset<Todo>)

  datatype PAction =
    | StoreAttempt(a: Attempt)                         // UpsertAttempt of a re-scored attempt
    | EndMatch(date: string, uid: string, score: int)  // a match end about to report a positive score
    | Perform(t: Todo)                                 // the next SubmitScore of some request

  /** What one request's two calls do to the boards when nothing runs in between. */
  function SubmitBoth(bs: BoardMap, date: string, uid: string, score: int): BoardMap {
    Submit(Submit(bs, Submission(DailyKey(date), uid, score)), Submission(GLOBAL_KEY, uid, score))
  }

  /** What a board lists for a uid, if anything. */
  function ScoreOn(bs: BoardMap, board: string, uid: string): Option<int> {
    if uid in BoardOf(bs, board) then Some(BoardOf(bs, board)[uid]) else None
  }

  function Higher(before: Option<int>, score: int): Option<int> {
    if before.Some? && before.value >= score then before else Some(score)
  }

  /** Exactly the uid's entries on the day's board and on the global one are raised. */
  lemma SubmitBothExactly(bs: BoardMap, date: string, uid: string, score: int, board: string, u: string)
    ensures ScoreOn(SubmitBoth(bs, date, uid, score), board, u)
         == if u == uid && (board == "lb:daily:" + date || board == "lb:global:alltime")
            then Higher(ScoreOn(bs, board, u), score) else ScoreOn(bs, board, u)
  {
    BoardKeysDiffer(date, date);
  }

  ghost function PNext(s: PState, x: PAction): Option<PState> {
    match x
    case StoreAttempt(a) =>
      if |a.puzzleDate| != DATE_LENGTH then None
      else Some(s.(attempts := s.attempts[AttemptKey(a.uid, a.puzzleDate) := a],
                   todo := if a.score > 0 then s.todo + multiset{Daily(a.puzzleDate, a.uid, a.score)} else s.todo))
    case EndMatch(date, uid, score) =>
      if score <= 0 then None else Some(s.(todo := s.todo + multiset{Daily(date, uid, score)}))
    case Perform(t) =>
      if t !in s.todo then None
      else
        match t
        case Daily(date, uid, score) =>
          Some(s.(boards := Submit(s.boards, Submission(DailyKey(date), uid, score)),
                  todo := s.todo - multiset{t} + multiset{Global(uid, score)}))
        case Global(uid, score) =>
          Some(s.(boards := Submit(s.boards, Submission(GLOBAL_KEY, uid, score)),
                  todo := s.todo - multiset{t}))
  }

  ghost function PRun(tr: seq<PAction>): Option<PState> {
    if tr == [] then Some(PState(map[], map[], multiset{}))
    else
      var before := PRun(tr[..|tr| - 1]);
      if before.None? then None else PNext(before.value, tr[|tr| - 1])
  }

  function DailyOf(bs: BoardMap, date: string): Board {
    BoardOf(bs, DailyKey(date))
  }

  function GlobalOf(bs: BoardMap): Board {
    BoardOf(bs, GLOBAL_KEY)
  }

  /** The daily board of `date` gives `uid` at least `score`. */
  ghost predicate OnDaily(s: PState, date: string, uid: string, score: int) {
    uid in DailyOf(s.boards, date) && DailyOf(s.boards, date)[uid] >= score
  }

  /** The global board gives `uid` at least `score`, or a request is about to see to it. */
  ghost predicate OnGlobalSoon(s: PState, uid: string, score: int) {
    || (uid in GlobalOf(s.boards) && GlobalOf(s.boards)[uid] >= score)
    || exists more :: Global(uid, more) in s.todo && more >= score
  }

  ghost predicate OnDailySoon(s: PState, date: string, uid: string, score: int) {
    OnDaily(s, date, uid, score) || exists more :: Daily(date, uid, more) in s.todo && more >= score
  }

  ghost predicate DailyFollowed(s: PState) {
    forall date, uid :: uid in DailyOf(s.boards, date) ==> OnGlobalSoon(s, uid, DailyOf(s.boards, date)[uid])
  }

  ghost predicate GlobalBacked(s: PState) {
    && (forall uid :: uid in GlobalOf(s.boards) ==> exists date :: OnDaily(s, date, uid, GlobalOf(s.boards)[uid]))
    && (forall uid, score :: Global(uid, score) in s.todo ==> exists date :: OnDaily(s, date, uid, score))
  }

  ghost predicate AttemptsFollowed(s: PState) {
    && AttemptsFiled(s.attempts)
    && forall key :: key in s.attempts ==>
         var a := s.attempts[key];
         a.score > 0 ==> OnDailySoon(s, a.puzzleDate, a.uid, a.score)
  }

  ghost predicate PInv(s: PState) {
    DailyFollowed(s) && GlobalBacked(s) && AttemptsFollowed(s)
  }

  lemma KeepsOnDaily(s: PState, x: PAction, date: string, uid: string, score: int)
    requires PNext(s, x).Some? && OnDaily(s, date, uid, score)
    ensures OnDaily(PNext(s, x).value, date, uid, score)
  {
  }

  lemma KeepsOnDailySoon(s: PState, x: PAction, date: string, uid: string, score: int)
    requires PNext(s, x).Some? && OnDailySoon(s, date, uid, score)
    ensures OnDailySoon(PNext(s, x).value, date, uid, score)
  {
    var t := PNext(s, x).value;
    if OnDaily(s, date, uid, score) {
      KeepsOnDaily(s, x, date, uid, score);
    } else {
      var more :| Daily(date, uid, more) in s.todo && more >= score;
      if x == Perform(Daily(date, uid, more)) {
        assert OnDaily(t, date, uid, score);
      } else {
        assert Daily(date, uid, more) in t.todo;
      }
    }
  }

  lemma KeepsOnGlobal(s: PState, x: PAction, uid: string)
    requires PNext(s, x).Some? && uid in GlobalOf(s.boards)
    ensures uid in GlobalOf(PNext(s, x).value.boards)
    ensures GlobalOf(PNext(s, x).value.boards)[uid] >= GlobalOf(s.boards)[uid]
  {
    if x.Perform? && x.t.Daily? {
      BoardKeysDiffer(x.t.date, x.t.date);
    }
  }

  lemma KeepsOnGlobalSoon(s: PState, x: PAction, uid: string, score: int)
    requires PNext(s, x).Some? && OnGlobalSoon(s, uid, score)
    ensures OnGlobalSoon(PNext(s, x).value, uid, score)
  {
    var t := PNext(s, x).value;
    if uid in GlobalOf(s.boards) && GlobalOf(s.boards)[uid] >= score {
      KeepsOnGlobal(s, x, uid);
    } else {
      var more :| Global(uid, more) in s.todo && more >= score;
      if x != Perform(Global(uid, more)) {
        assert Global(uid, more) in t.todo;
      }
    }
  }

  lemma NextKeepsDailyFollowed(s: PState, x: PAction)
    requires PInv(s) && PNext(s, x).Some?
    ensures DailyFollowed(PNext(s, x).value)
  {
    var t := PNext(s, x).value;
    forall date, uid | uid in DailyOf(t.boards, date) ensures OnGlobalSoon(t, uid, DailyOf(t.boards, date)[uid]) {
      BoardKeysDiffer(date, if x.Perform? && x.t.Daily? then x.t.date else date);
      if uid in DailyOf(s.boards, date) && DailyOf(s.boards, date)[uid] == DailyOf(t.boards, date)[uid] {
        KeepsOnGlobalSoon(s, x, uid, DailyOf(s.boards, date)[uid]);
      } else {
        assert Global(uid, DailyOf(t.boards, date)[uid]) in t.todo;
      }
    }
  }

  /** A global score that one SubmitScore produces was there before or was about to be. */
  lemma GlobalScoreSource(s: PState, x: PAction, uid: string)
    requires PNext(s, x).Some? && uid in GlobalOf(PNext(s, x).value.boards)
    ensures var score := GlobalOf(PNext(s, x).value.boards)[uid];
      (uid in GlobalOf(s.boards) && GlobalOf(s.boards)[uid] == score) || Global(uid, score) in s.todo
  {
    if x.Perform? && x.t.Daily? {
      BoardKeysDiffer(x.t.date, x.t.date);
    }
  }

  lemma KeepsBacked(s: PState, x: PAction, uid: string, score: int)
    requires PNext(s, x).Some? && exists date :: OnDaily(s, date, uid, score)
    ensures exists date :: OnDaily(PNext(s, x).value, date, uid, score)
  {
    var date :| OnDaily(s, date, uid, score);
    KeepsOnDaily(s, x, date, uid, score);
  }

  lemma NewGlobalIsBacked(s: PState, x: PAction, uid: string, score: int)
    requires PNext(s, x).Some? && Global(uid, score) in PNext(s, x).value.todo && Global(uid, score) !in s.todo
    ensures exists date :: OnDaily(PNext(s, x).value, date, uid, score)
  {
    assert OnDaily(PNext(s, x).value, x.t.date, uid, score);
  }

  lemma NextKeepsGlobalBacked(s: PState, x: PAction)
    requires GlobalBacked(s) && PNext(s, x).Some?
    ensures GlobalBacked(PNext(s, x).value)
  {
    var t := PNext(s, x).value;
    forall uid | uid in GlobalOf(t.boards) ensures exists date :: OnDaily(t, date, uid, GlobalOf(t.boards)[uid]) {
      GlobalScoreSource(s, x, uid);
      KeepsBacked(s, x, uid, GlobalOf(t.boards)[uid]);
    }
    forall uid, score | Global(uid, score) in t.todo ensures exists date :: OnDaily(t, date, uid, score) {
      if Global(uid, score) in s.todo {
        KeepsBacked(s, x, uid, score);
      } else {
        NewGlobalIsBacked(s, x, uid, score);
      }
    }
  }

  lemma NextKeepsAttempts(s: PState, x: PAction)
    requires PInv(s) && PNext(s, x).Some?
    ensures AttemptsFollowed(PNext(s, x).value)
  {
    var t := PNext(s, x).value;
    forall key | key in t.attempts && t.attempts[key].score > 0
      ensures OnDailySoon(t, t.attempts[key].puzzleDate, t.attempts[key].uid, t.attempts[key].score)
    {
      var a := t.attempts[key];
      if key in s.attempts && s.attempts[key] == a {
        KeepsOnDailySoon(s, x, a.puzzleDate, a.uid, a.score);
      } else {
        assert Daily(a.puzzleDate, a.uid, a.score) in t.todo;
      }
    }
  }

  lemma {:induction false} RunKeepsPInv(tr: seq<PAction>)
    requires PRun(tr).Some?
    ensures PInv(PRun(tr).value)
  {
    if tr != [] {
      var before, x := tr[..|tr| - 1], tr[|tr| - 1];
      RunKeepsPInv(before);
      NextKeepsDailyFollowed(PRun(before).value, x);
      NextKeepsGlobalBacked(PRun(before).value, x);
      NextKeepsAttempts(PRun(before).value, x);
    }
  }

  /** Whatever this uid still has outstanding for the global board is already reached there. */
  ghost predicate GlobalReached(s: PState, uid: string) {
    forall score :: Global(uid, score) in s.todo ==> uid in GlobalOf(s.boards) && GlobalOf(s.boards)[uid] >= score
  }

  /** The global board mirrors the daily ones for this uid. */
  ghost predicate GlobalMirrors(s: PState, uid: string) {
    && (uid in GlobalOf(s.boards) <==> exists date :: uid in DailyOf(s.boards, date))
    && (forall date :: uid in DailyOf(s.boards, date) ==> DailyOf(s.boards, date)[uid] <= GlobalOf(s.boards)[uid])
    && (uid in GlobalOf(s.boards) ==>
          exists date :: uid in DailyOf(s.boards, date) && DailyOf(s.boards, date)[uid] == GlobalOf(s.boards)[uid])
  }

  lemma ReachedMirrors(s: PState, uid: string)
    requires PInv(s) && GlobalReached(s, uid)
    ensures GlobalMirrors(s, uid)
  {
    forall date | uid in DailyOf(s.boards, date)
      ensures uid in GlobalOf(s.boards) && DailyOf(s.boards, date)[uid] <= GlobalOf(s.boards)[uid]
    {
      assert OnGlobalSoon(s, uid, DailyOf(s.boards, date)[uid]);
    }
    if uid in GlobalOf(s.boards) {
      var date :| OnDaily(s, date, uid, GlobalOf(s.boards)[uid]);
      assert DailyOf(s.boards, date)[uid] == GlobalOf(s.boards)[uid];
    }
  }

  /** At every moment of every run, whoever else has requests in flight: a uid is on the global
      board exactly when it is on some daily board, with the maximum of its daily scores, if
      and only if none of its own outstanding global calls would still raise it. */
  lemma GlobalIsMaxOfDailies(tr: seq<PAction>, uid: string)
    requires PRun(tr).Some?
    ensures GlobalMirrors(PRun(tr).value, uid) <==> GlobalReached(PRun(tr).value, uid)
  {
    RunKeepsPInv(tr);
    var s := PRun(tr).value;
    if GlobalReached(s, uid) {
      ReachedMirrors(s, uid);
    } else {
      var score :| Global(uid, score) in s.todo && !(uid in GlobalOf(s.boards) && GlobalOf(s.boards)[uid] >= score);
      var date :| OnDaily(s, date, uid, score);
    }
  }

  /** The global board is never ahead of the daily ones. */
  lemma GlobalNeverAhead(tr: seq<PAction>, uid: string)
    requires PRun(tr).Some? && uid in GlobalOf(PRun(tr).value.boards)
    ensures var s := PRun(tr).value; exists date :: OnDaily(s, date, uid, GlobalOf(s.boards)[uid])
  {
    RunKeepsPInv(tr);
  }

  /** The global board does lag: a request between its two calls. */
  lemma GlobalCanLag(a: Attempt)
    requires a.score > 0 && |a.puzzleDate| == DATE_LENGTH
    ensures var s := PRun([StoreAttempt(a)] + [Perform(Daily(a.puzzleDate, a.uid, a.score))]);
      s.Some? && !GlobalMirrors(s.value, a.uid) && OnDaily(s.value, a.puzzleDate, a.uid, a.score)
  {
    var x, y := StoreAttempt(a), Perform(Daily(a.puzzleDate, a.uid, a.score));
    assert [x][..0] == [] && ([x] + [y])[..1] == [x];
    assert PRun([]) == Some(PState(map[], map[], multiset{}));
    assert PRun([x]) == PNext(PRun([]).value, x);
    var s1 := PRun([x]).value;
    assert Daily(a.puzzleDate, a.uid, a.score) in s1.todo && s1.boards == map[];
    var s2 := PRun([x] + [y]).value;
    BoardKeysDiffer(a.puzzleDate, a.puzzleDate);
    assert a.uid in DailyOf(s2.boards, a.puzzleDate) && a.uid !in GlobalOf(s2.boards);
  }

  /** The attempt read back for (uid, date) is that uid's on that date; its score never exceeds
      the uid's score on that daily board unless a call that will raise it to that is due. */
  lemma AttemptWithinDaily(tr: seq<PAction>, uid: string, date: string)
    requires PRun(tr).Some? && |date| == DATE_LENGTH
    requires AttemptKey(uid, date) in PRun(tr).value.attempts
    ensures var s := PRun(tr).value; var a := s.attempts[AttemptKey(uid, date)];
      && a.uid == uid && a.puzzleDate == date
      && (a.score > 0 && !OnDaily(s, date, uid, a.score) ==>
            exists more :: Daily(date, uid, more) in s.todo && more >= a.score)
  {
    RunKeepsPInv(tr);
    var s := PRun(tr).value;
    var a := s.attempts[AttemptKey(uid, date)];
    AttemptKeyInjective(uid, date, a.uid, a.puzzleDate);
  }

  /** A score a request has reported stays: once its daily call was made the daily board gives
      the uid at least that, and the global one does or is about to; once its global call was
      made the global board does. */
  lemma {:induction false} ReportedIsListed(tr: seq<PAction>, i: nat, date: string, uid: string, score: int)
    requires PRun(tr).Some? && i < |tr|
    ensures tr[i] == Perform(Daily(date, uid, score)) ==>
              OnDaily(PRun(tr).value, date, uid, score) && OnGlobalSoon(PRun(tr).value, uid, score)
    ensures tr[i] == Perform(Global(uid, score)) ==>
              uid in GlobalOf(PRun(tr).value.boards) && GlobalOf(PRun(tr).value.boards)[uid] >= score
  {
    var before, x := tr[..|tr| - 1], tr[|tr| - 1];
    var s := PRun(before).value;
    if i < |tr| - 1 {
      ReportedIsListed(before, i, date, uid, score);
      if tr[i] == Perform(Daily(date, uid, score)) {
        KeepsOnDaily(s, x, date, uid, score);
        KeepsOnGlobalSoon(s, x, uid, score);
      } else if tr[i] == Perform(Global(uid, score)) {
        KeepsOnGlobal(s, x, uid);
      }
    } else if x == Perform(Daily(date, uid, score)) {
      assert Global(uid, score) in PRun(tr).value.todo;
    }
  }
}
