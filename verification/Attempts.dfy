/** POST /attempts and GET /attempts/me/:date (server/internal/api/attempts.go:38-121). */
module Attempts {
  import opened Common
  import opened Records
  import opened MemStores
  import opened PairedBoards
  import opened WordleScoring
  import opened ServerScoring

  datatype AttemptError =
    | InvalidDate | OutsideWindow | NoGuesses | PuzzleNotFound | NoAttempt | StoreFailure | NotPersisted

  datatype Submitted = Submitted(score: int, won: bool)

  /** The attempt the server stores for these guesses. */
  function Scored(uid: string, date: string, guesses: seq<string>, now: int, outcome: Submitted): Attempt {
    Attempt(uid, date, guesses, outcome.won, outcome.score, now, !outcome.won && |guesses| < MAX_GUESSES)
  }

  /** `isDay` and `inWindow` are the calendar checks, `puzzle` the solution looked up for `date`. */
  method SubmitAttempt(store: MemStore, uid: string, date: string, guesses: seq<string>,
                isDay: bool, inWindow: bool, puzzle: Result<string, StoreError>, now: int)
    returns (r: Result<Submitted, AttemptError>)
    modifies store`attempts, store`leaderboards
    ensures r.Ok? <==> |date| == DATE_LENGTH && isDay && inWindow && guesses != [] && puzzle.Ok? && !store.closed
    ensures r.Ok? ==> IsScore(puzzle.value, guesses, r.value.score, r.value.won)
    ensures store.attempts
         == if r.Err? then old(store.attempts)
            else old(store.attempts)[AttemptKey(uid, date) := Scored(uid, date, guesses, now, r.value)]
    ensures r.Ok? ==>
              && uid + "::" + date in store.attempts
              && var a := store.attempts[uid + "::" + date];
                 && a.uid == uid && a.puzzleDate == date && a.guesses == guesses && a.completedAt == now
                 && a.score == r.value.score && a.won == r.value.won && (a.inProgress <==> !a.won && |guesses| < 6)
    ensures AttemptsFiled(old(store.attempts)) ==> AttemptsFiled(store.attempts)
    ensures store.leaderboards
         == if r.Ok? && r.value.score > 0 then SubmitBoth(old(store.leaderboards), date, uid, r.value.score)
            else old(store.leaderboards)
    ensures r.Err? ==> r.error == if |date| != DATE_LENGTH || !isDay then InvalidDate
                                  else if !inWindow then OutsideWindow
                                  else if guesses == [] then NoGuesses
                                  else if puzzle == Err(ErrNotFound) then PuzzleNotFound
                                  else if puzzle.Err? then StoreFailure
                                  else NotPersisted
  {
    if |date| != DATE_LENGTH || !isDay {
      return Err(InvalidDate);
    }
    if !inWindow {
      return Err(OutsideWindow);
    }
    if |guesses| == 0 {
      return Err(NoGuesses);
    }
    if puzzle.Err? {
      return Err(if puzzle.error == ErrNotFound then PuzzleNotFound else StoreFailure);
    }
    var attempt := Finalize(Attempt(uid, date, guesses, false, 0, now, false), puzzle.value);
    var put := store.UpsertAttempt(attempt);
    if put.Err? {
      return Err(NotPersisted);
    }
    if attempt.score > 0 {
      var daily := store.SubmitScore(DailyKey(date), uid, attempt.score);
      var all := store.SubmitScore(GLOBAL_KEY, uid, attempt.score);
    }
    return Ok(Submitted(attempt.score, attempt.won));
  }

  /** What a uid gets back for a date: the attempt stored for exactly that uid and date. */
  method Mine(store: MemStore, uid: string, date: string, isDay: bool) returns (r: Result<Attempt, AttemptError>)
    ensures r.Err? && r.error == InvalidDate <==> |date| != DATE_LENGTH || !isDay
    ensures |date| == DATE_LENGTH && isDay && store.closed ==> r == Err(StoreFailure)
    ensures |date| == DATE_LENGTH && isDay && !store.closed && AttemptsFiled(store.attempts) ==>
              && IsAttemptOf(store.attempts, uid, date, if r.Ok? then Some(r.value) else None)
              && (r.Err? ==> r.error == NoAttempt)
  {
    if |date| != DATE_LENGTH || !isDay {
      return Err(InvalidDate);
    }
    var found := store.GetAttempt(uid, date);
    match found {
      case Ok(a) => return Ok(a);
      case Err(error) => return Err(if error == ErrNotFound then NoAttempt else StoreFailure);
    }
  }

  /** The steps of a submit in the board runs of `PairedBoards` when nothing runs in between. */
  ghost function SubmitSteps(a: Attempt): seq<PAction> {
    [StoreAttempt(a)]
    + if a.score > 0 then [Perform(Daily(a.puzzleDate, a.uid, a.score)), Perform(Global(a.uid, a.score))] else []
  }

  ghost function EndSteps(date: string, uid: string, score: int): seq<PAction> {
    [EndMatch(date, uid, score), Perform(Daily(date, uid, score)), Perform(Global(uid, score))]
  }

  lemma StepAfter(tr: seq<PAction>, x: PAction)
    requires PRun(tr).Some?
    ensures PRun(tr + [x]) == PNext(PRun(tr).value, x)
  {
    var longer := tr + [x];
    assert longer[..|longer| - 1] == tr && longer[|longer| - 1] == x;
  }

  lemma TwoCallsAfter(tr: seq<PAction>, date: string, uid: string, score: int)
    requires PRun(tr).Some? && Daily(date, uid, score) in PRun(tr).value.todo
    ensures var s := PRun(tr).value;
      PRun(tr + [Perform(Daily(date, uid, score)), Perform(Global(uid, score))])
      == Some(PState(SubmitBoth(s.boards, date, uid, score), s.attempts, s.todo - multiset{Daily(date, uid, score)}))
  {
    var s := PRun(tr).value;
    var x, y := Perform(Daily(date, uid, score)), Perform(Global(uid, score));
    StepAfter(tr, x);
    var t := PRun(tr + [x]).value;
    assert t.todo == s.todo - multiset{Daily(date, uid, score)} + multiset{Global(uid, score)};
    StepAfter(tr + [x], y);
    assert t.todo - multiset{Global(uid, score)} == s.todo - multiset{Daily(date, uid, score)};
    assert tr + [x] + [y] == tr + [x, y];
  }

  /** An uninterrupted submit, with what `SubmitAttempt` ensures of the store, is a schedule of those
      runs: every property of the runs holds of the real boards and attempts. */
  lemma SubmitIsSchedule(tr: seq<PAction>, a: Attempt)
    requires PRun(tr).Some? && |a.puzzleDate| == DATE_LENGTH
    ensures var s := PRun(tr).value;
      PRun(tr + SubmitSteps(a))
      == Some(PState(if a.score > 0 then SubmitBoth(s.boards, a.puzzleDate, a.uid, a.score) else s.boards,
                     s.attempts[AttemptKey(a.uid, a.puzzleDate) := a], s.todo))
  {
    var s, d := PRun(tr).value, Daily(a.puzzleDate, a.uid, a.score);
    StepAfter(tr, StoreAttempt(a));
    assert tr + SubmitSteps(a) == tr + [StoreAttempt(a)] + SubmitSteps(a)[1..];
    if a.score > 0 {
      TwoCallsAfter(tr + [StoreAttempt(a)], a.puzzleDate, a.uid, a.score);
      assert s.todo + multiset{d} - multiset{d} == s.todo;
    }
  }

  /** Likewise for each score a match end reports. */
  lemma EndIsSchedule(tr: seq<PAction>, date: string, uid: string, score: int)
    requires PRun(tr).Some? && score > 0
    ensures var s := PRun(tr).value;
      PRun(tr + EndSteps(date, uid, score))
      == Some(s.(boards := SubmitBoth(s.boards, date, uid, score)))
  {
    var s, x, d := PRun(tr).value, EndMatch(date, uid, score), Daily(date, uid, score);
    StepAfter(tr, x);
    assert tr + EndSteps(date, uid, score) == tr + [x] + EndSteps(date, uid, score)[1..];
    TwoCallsAfter(tr + [x], date, uid, score);
    assert s.todo + multiset{d} - multiset{d} == s.todo;
  }
}
