/**
 The game scene of the client (client/web/src/games/wordle/WordleScene.js), without its
 drawing. A guess's flip ends in a callback, and any keys may come in between. All flips take
 the same time, so their callbacks run in the order of the guesses.
 */
module WordleScenes {
  import opened Common
  import opened WordleScoring

  datatype InitData = InitData(solution: string, length: nat, resumeGuesses: seq<string>)

  /** `FlipDone` is the end of the flip that has been running longest. */
  datatype Input = KeyDown(name: string) | VirtualKey(k: char) | FlipDone

  datatype Command = Submit | Pop | Push(c: char) | EndFlip | Ignore

  /** What the scene announces on the event bus. */
  datatype Event =
    | GuessSubmitted(guess: string)
    | AttemptComplete(guesses: seq<string>, evaluations: seq<seq<Eval>>, won: bool)

  datatype SceneV = SceneV(
    solution: string, wordLength: nat,
    guesses: seq<string>, evaluations: seq<seq<Eval>>,
    input: string, finished: bool,
    pending: seq<seq<Eval>>,        // marks of the guesses whose flip is running
    shown: nat)                     // guesses there were when the keys were last coloured

  predicate IsLetter(c: char) {
    'a' <= c <= 'z' || 'A' <= c <= 'Z'
  }

  /** The letter buttons; '\n' and '\b' stand for the enter and the erase button. */
  predicate IsButton(k: char) {
    'A' <= k <= 'Z' || k == '\n' || k == '\U{08}'
  }

  function Meaning(x: Input): Command {
    match x
    case KeyDown(name) =>
      if name == "Enter" then Submit
      else if name == "Backspace" then Pop
      else if |name| == 1 && IsLetter(name[0]) then Push(UpperChar(name[0]))
      else Ignore
    case VirtualKey(k) =>
      if k == '\n' then Submit
      else if k == '\U{08}' then Pop
      else if IsButton(k) then Push(k)
      else Ignore
    case FlipDone => EndFlip
  }

  // ----- the scene as a transition function

  function Judge(guess: string, solution: string): seq<Eval>
    requires |guess| == |solution|
  {
    assert |Upper(guess)| == |guess| && |Upper(solution)| == |solution|;
    Feedback(Upper(guess), Upper(solution))
  }

  predicate SomeWin(evaluations: seq<seq<Eval>>) {
    exists i :: 0 <= i < |evaluations| && IsWin(evaluations[i])
  }

  function WordLength(data: InitData): nat {
    if data.length != 0 then data.length else if data.solution != "" then |data.solution| else 5
  }

  function AllUpper(gs: seq<string>): seq<string> {
    seq(|gs|, i requires 0 <= i < |gs| => Upper(gs[i]))
  }

  function AllJudged(gs: seq<string>, solution: string): seq<seq<Eval>>
    requires forall g :: g in gs ==> |g| == |solution|
  {
    seq(|gs|, i requires 0 <= i < |gs| => Judge(gs[i], solution))
  }

  /** The state after init, or None when a resumed guess has the wrong length and init throws. */
  function InitScene(data: InitData): Option<SceneV> {
    if exists g :: g in data.resumeGuesses && |g| != |data.solution| then None
    else
      var guesses := AllUpper(data.resumeGuesses);
      var evaluations := AllJudged(data.resumeGuesses, data.solution);
      Some(SceneV(Upper(data.solution), WordLength(data), guesses, evaluations, "",
                  SomeWin(evaluations) || |guesses| >= MAX_GUESSES, [], 0))
  }

  /** The state after create, or None when there are more rows than the grid has and create throws. */
  function CreateScene(v: SceneV): Option<SceneV> {
    if |v.guesses| > MAX_GUESSES then None else Some(v.(shown := |v.guesses|))
  }

  /** A new scene: init, then create. */
  function StartScene(data: InitData): Option<SceneV> {
    match InitScene(data)
    case None => None
    case Some(v) => CreateScene(v)
  }

  /** The enter key stores a guess. One as long as the row but not as the solution throws first. */
  predicate Accepts(v: SceneV, x: Input) {
    Meaning(x).Submit? && !v.finished && |v.input| == v.wordLength && |v.input| == |v.solution|
  }

  function Stored(v: SceneV): SceneV
    requires |v.input| == |v.solution|
  {
    var ev := Judge(v.input, v.solution);
    v.(guesses := v.guesses + [v.input], evaluations := v.evaluations + [ev], input := "",
       // past the last row of the grid the flip throws before it starts
       pending := if |v.guesses| < MAX_GUESSES then v.pending + [ev] else v.pending)
  }

  /** The flip callback: it knows its own marks, and the guesses there are by then. */
  function Flipped(v: SceneV): (SceneV, seq<Event>)
    requires v.pending != []
  {
    var won := IsWin(v.pending[0]);
    var over := won || |v.guesses| >= MAX_GUESSES;
    (v.(pending := v.pending[1..], shown := |v.guesses|, finished := v.finished || over),
     if over then [AttemptComplete(v.guesses, v.evaluations, won)] else [])
  }

  function Press(v: SceneV, x: Input): (SceneV, seq<Event>) {
    match Meaning(x)
    case Ignore => (v, [])
    case EndFlip => if v.pending == [] then (v, []) else Flipped(v)
    case Push(c) => (if v.finished || |v.input| >= v.wordLength then v else v.(input := v.input + [c]), [])
    case Pop => (if v.finished || v.input == "" then v else v.(input := v.input[..|v.input| - 1]), [])
    case Submit => if Accepts(v, x) then (Stored(v), [GuessSubmitted(v.input)]) else (v, [])
  }

  function Play(v: SceneV, xs: seq<Input>): (SceneV, seq<Event>) {
    if xs == [] then (v, [])
    else
      var (before, events) := Play(v, xs[..|xs| - 1]);
      var (after, more) := Press(before, xs[|xs| - 1]);
      (after, events + more)
  }

  // ----- the keyboard colours

  function Rank(e: Eval): nat {
    match e case Hit => 3 case Present => 2 case Miss => 1
  }

  function Max(a: nat, b: nat): nat {
    if a > b then a else b
  }

  /** Rank of the mark at row i, column j if that cell carries `c`; else 0. */
  function CellRank(guesses: seq<string>, evaluations: seq<seq<Eval>>, i: nat, j: nat, c: char): nat {
    if i < |guesses| && i < |evaluations| && j < |guesses[i]| && j < |evaluations[i]| && guesses[i][j] == c
    then Rank(evaluations[i][j]) else 0
  }

  /** The best rank of `c` in the rows before `i` and the first `j` cells of row `i`. */
  function BestRank(guesses: seq<string>, evaluations: seq<seq<Eval>>, width: nat, i: nat, j: nat, c: char): nat
    decreases i, j
  {
    if j > 0 then Max(BestRank(guesses, evaluations, width, i, j - 1, c), CellRank(guesses, evaluations, i, j - 1, c))
    else if i > 0 then BestRank(guesses, evaluations, width, i - 1, width, c)
    else 0
  }

  /** Rank of the colour of a key. */
  function KeyRank(v: SceneV, c: char): nat {
    BestRank(v.guesses, v.evaluations, v.wordLength, v.shown, 0, c)
  }

  lemma {:induction false} BestRowGrows(gs: seq<string>, evs: seq<seq<Eval>>, width: nat, i: nat, j: nat, c: char)
    ensures BestRank(gs, evs, width, i, 0, c) <= BestRank(gs, evs, width, i, j, c)
    decreases j
  {
    if j > 0 {
      BestRowGrows(gs, evs, width, i, j - 1, c);
    }
  }

  lemma {:induction false} BestGrows(gs: seq<string>, evs: seq<seq<Eval>>, width: nat, i: nat, k: nat, c: char)
    requires i <= k
    ensures BestRank(gs, evs, width, i, 0, c) <= BestRank(gs, evs, width, k, 0, c)
    decreases k
  {
    if i < k {
      BestGrows(gs, evs, width, i, k - 1, c);
      BestRowGrows(gs, evs, width, k - 1, width, c);
    }
  }

  lemma {:induction false} BestOfPrefix(gs: seq<string>, evs: seq<seq<Eval>>, hs: seq<string>, fs: seq<seq<Eval>>,
                                        width: nat, i: nat, j: nat, c: char)
    requires gs <= hs && evs <= fs && |gs| == |evs| && (i < |gs| || (i == |gs| && j == 0))
    ensures BestRank(gs, evs, width, i, j, c) == BestRank(hs, fs, width, i, j, c)
    decreases i, j
  {
    if j > 0 {
      BestOfPrefix(gs, evs, hs, fs, width, i, j - 1, c);
    } else if i > 0 {
      BestOfPrefix(gs, evs, hs, fs, width, i - 1, width, c);
    }
  }

  /** The colour of a key is the maximum rank its letter was given. */
  lemma {:induction false} BestIsMax(guesses: seq<string>, evs: seq<seq<Eval>>, width: nat, i: nat, j: nat, c: char)
    requires j <= width
    ensures forall p, q :: 0 <= p && 0 <= q < width && (p < i || (p == i && q < j)) ==>
              CellRank(guesses, evs, p, q, c) <= BestRank(guesses, evs, width, i, j, c)
    ensures BestRank(guesses, evs, width, i, j, c) > 0 ==>
              exists p, q :: 0 <= p && 0 <= q < width && (p < i || (p == i && q < j))
                             && CellRank(guesses, evs, p, q, c) == BestRank(guesses, evs, width, i, j, c)
    decreases i, j
  {
    if j > 0 {
      BestIsMax(guesses, evs, width, i, j - 1, c);
    } else if i > 0 {
      BestIsMax(guesses, evs, width, i - 1, width, c);
    }
  }

  /** Some cell of `c` in the rows shown is marked `e`. */
  ghost predicate ShowsMark(v: SceneV, c: char, e: Eval) {
    exists p, q :: 0 <= p < v.shown && p < |v.guesses| && p < |v.evaluations|
                   && 0 <= q < v.wordLength && q < |v.guesses[p]| && q < |v.evaluations[p]|
                   && v.guesses[p][q] == c && v.evaluations[p][q] == e
  }

  /** The colour a key should have: the best mark its letter has in the rows shown. */
  ghost predicate BestMark(v: SceneV, c: char, e: Eval) {
    match e
    case Hit => ShowsMark(v, c, Hit)
    case Present => !ShowsMark(v, c, Hit) && ShowsMark(v, c, Present)
    case Miss => !ShowsMark(v, c, Hit) && !ShowsMark(v, c, Present) && ShowsMark(v, c, Miss)
  }

  lemma MarkIsRanked(v: SceneV, c: char, e: Eval)
    requires |v.guesses| == |v.evaluations| && v.shown <= |v.guesses|
    ensures ShowsMark(v, c, e) ==> Rank(e) <= KeyRank(v, c)
    ensures KeyRank(v, c) == Rank(e) ==> ShowsMark(v, c, e)
  {
    BestIsMax(v.guesses, v.evaluations, v.wordLength, v.shown, 0, c);
    if ShowsMark(v, c, e) {
      var p, q :| 0 <= p < v.shown && 0 <= q < v.wordLength && q < |v.guesses[p]| && q < |v.evaluations[p]|
                  && v.guesses[p][q] == c && v.evaluations[p][q] == e;
      assert CellRank(v.guesses, v.evaluations, p, q, c) == Rank(e);
    }
    if KeyRank(v, c) == Rank(e) {
      var p, q :| 0 <= p < v.shown && 0 <= q < v.wordLength
                  && CellRank(v.guesses, v.evaluations, p, q, c) == KeyRank(v, c);
      assert v.guesses[p][q] == c && v.evaluations[p][q] == e;
    }
  }

  /** Rank and mark say the same of a key. */
  lemma RankIsBestMark(v: SceneV, c: char, e: Eval)
    requires |v.guesses| == |v.evaluations| && v.shown <= |v.guesses|
    ensures KeyRank(v, c) == Rank(e) <==> BestMark(v, c, e)
  {
    MarkIsRanked(v, c, Hit);
    MarkIsRanked(v, c, Present);
    MarkIsRanked(v, c, Miss);
    RankIsSome(v, c);
  }

  lemma RankIsSome(v: SceneV, c: char)
    ensures KeyRank(v, c) in {0, 1, 2, 3}
  {
    BestIsMax(v.guesses, v.evaluations, v.wordLength, v.shown, 0, c);
  }

  function RankIn(m: map<char, Eval>, c: char): nat {
    if c in m then Rank(m[c]) else 0
  }

  /** evaluations.some(isWin) */
  method AnyWin(evaluations: seq<seq<Eval>>) returns (won: bool)
    ensures won <==> SomeWin(evaluations)
  {
    for i := 0 to |evaluations|
      invariant forall k :: 0 <= k < i ==> !IsWin(evaluations[k])
    {
      if IsWin(evaluations[i]) {
        return true;
      }
    }
    return false;
  }

  class WordleScene {
    var solution: string
    var wordLength: nat
    var guesses: seq<string>
    var evaluations: seq<seq<Eval>>
    var currentInput: string
    var finished: bool
    var flips: seq<seq<Eval>>       // what the running flips hand to their callbacks
    var colors: map<char, Eval>     // fill of each letter button
    var events: seq<Event>          // emitted so far
    ghost var shown: nat

    ghost function State(): SceneV
      reads this
    {
      SceneV(solution, wordLength, guesses, evaluations, currentInput, finished, flips, shown)
    }

    /** Each letter key shows the best mark of its letter in the rows shown. */
    ghost predicate Coloured()
      reads this
    {
      && |guesses| == |evaluations| && shown <= |guesses|
      && forall k :: 'A' <= k <= 'Z' ==> RankIn(colors, k) == KeyRank(State(), k)
    }

    /** Each letter key has the colour of the best mark of its letter: hit before present before
        miss, and none if the letter is not shown. */
    lemma ColouredByBestMark(k: char, e: Eval)
      requires Coloured() && 'A' <= k <= 'Z'
      ensures k in colors && colors[k] == e <==> BestMark(State(), k, e)
    {
      RankIsBestMark(State(), k, e);
    }

    constructor ()
      ensures State() == SceneV("", 5, [], [], "", false, [], 0)
      ensures colors == map[] && events == []
    {
      solution, wordLength, guesses, evaluations, currentInput, finished := "", 5, [], [], "", false;
      flips, colors, events, shown := [], map[], [], 0;
    }

    /** The loop of init over the resumed guesses. False: one of them threw. */
    method Resume(gs: seq<string>, ghost raw: string) returns (ok: bool)
      requires solution == Upper(raw) && guesses == [] && evaluations == []
      modifies this`guesses, this`evaluations
      ensures ok <==> forall g :: g in gs ==> |g| == |raw|
      ensures ok ==> guesses == AllUpper(gs) && evaluations == AllJudged(gs, raw)
    {
      UpperTwice(raw);
      for i := 0 to |gs|
        invariant forall g :: g in gs[..i] ==> |g| == |raw|
        invariant guesses == AllUpper(gs[..i]) && evaluations == AllJudged(gs[..i], raw)
      {
        var g := gs[i];
        var guess := Upper(g);
        guesses := guesses + [guess];
        var ev := EvaluateGuess(guess, solution);
        UpperTwice(g);
        assert g in gs;
        if ev.Err? {
          return false;
        }
        evaluations := evaluations + [ev.value];
        assert gs[..i + 1] == gs[..i] + [g];
      }
      assert gs[..|gs|] == gs;
      return true;
    }

    /** The resumed guesses, and whether they end the game. */
    method Restore(gs: seq<string>, ghost raw: string) returns (ok: bool)
      requires solution == Upper(raw) && guesses == [] && evaluations == [] && !finished
      modifies this`guesses, this`evaluations, this`finished
      ensures ok <==> forall g :: g in gs ==> |g| == |raw|
      ensures ok ==> guesses == AllUpper(gs) && evaluations == AllJudged(gs, raw)
      ensures ok ==> (finished <==> SomeWin(evaluations) || |guesses| >= MAX_GUESSES)
    {
      ok := Resume(gs, raw);
      if !ok {
        return;
      }
      var won := AnyWin(evaluations);
      if won {
        finished := true;
      } else if |guesses| >= MAX_GUESSES {
        finished := true;
      }
    }

    /** Starts the scene object afresh. False: a resumed guess threw. */
    method Init(data: InitData) returns (ok: bool)
      requires flips == []
      modifies this
      ensures ok <==> InitScene(data).Some?
      ensures ok ==> State() == InitScene(data).value
      ensures solution == Upper(data.solution) && currentInput == "" && flips == []
      ensures wordLength == if data.length > 0 then data.length else if data.solution != "" then |data.solution| else 5
      ensures ok ==> |guesses| == |data.resumeGuesses|
                     && forall i :: 0 <= i < |guesses| ==> guesses[i] == Upper(data.resumeGuesses[i])
      ensures ok ==> (finished <==> |guesses| >= 6 || exists i :: 0 <= i < |evaluations| && IsWin(evaluations[i]))
      ensures events == old(events) && colors == old(colors)
    {
      solution := Upper(data.solution);
      wordLength := if data.length != 0 then data.length else if |solution| != 0 then |solution| else 5;
      guesses, evaluations, currentInput, finished := [], [], "", false;
      shown := 0;
      ok := true;
      if |data.resumeGuesses| > 0 {
        ok := Restore(data.resumeGuesses, data.solution);
      }
    }

    /** New buttons, then the colours of the resumed rows. False: a row beyond the grid threw. */
    method Create() returns (ok: bool)
      requires |guesses| == |evaluations|
      modifies this`colors, this`shown
      ensures ok <==> CreateScene(old(State())).Some?
      ensures ok ==> State() == CreateScene(old(State())).value && Coloured()
    {
      colors := map[];
      if |guesses| > MAX_GUESSES {
        return false;
      }
      shown := 0;
      RefreshKeyboardColors();
      return true;
    }

    method PushLetter(c: char)
      modifies this`currentInput
      ensures currentInput == if |old(currentInput)| >= wordLength then old(currentInput) else old(currentInput) + [c]
    {
      if |currentInput| >= wordLength {
        return;
      }
      currentInput := currentInput + [c];
    }

    method PopLetter()
      modifies this`currentInput
      ensures currentInput == if old(currentInput) == "" then "" else old(currentInput)[..|old(currentInput)| - 1]
    {
      if |currentInput| == 0 {
        return;
      }
      currentInput := currentInput[..|currentInput| - 1];
    }

    method SubmitGuess()
      requires !finished && Coloured()
      modifies this`guesses, this`evaluations, this`currentInput, this`events, this`flips
      ensures Coloured()
      ensures State() == Press(old(State()), KeyDown("Enter")).0
      ensures events == old(events) + Press(old(State()), KeyDown("Enter")).1
    {
      if |currentInput| != wordLength {
        return;
      }
      var guess := currentInput;
      var r := EvaluateGuess(guess, solution);
      if r.Err? {
        return;
      }
      var evaluation := r.value;
      var row := |guesses|;
      ghost var rows, marks := guesses, evaluations;
      guesses := guesses + [guess];
      evaluations := evaluations + [evaluation];
      currentInput := "";
      events := events + [GuessSubmitted(guess)];
      if row < MAX_GUESSES {
        flips := flips + [evaluation];
      }
      forall k: char ensures KeyRank(State(), k) == BestRank(rows, marks, wordLength, shown, 0, k) {
        BestOfPrefix(rows, marks, guesses, evaluations, wordLength, shown, 0, k);
      }
    }

    /** The callback of the longest-running flip. */
    method OnFlipDone()
      requires flips != [] && Coloured()
      modifies this`flips, this`colors, this`shown, this`finished, this`events
      ensures Coloured()
      ensures State() == Press(old(State()), FlipDone).0
      ensures events == old(events) + Press(old(State()), FlipDone).1
    {
      var evaluation := flips[0];
      flips := flips[1..];
      RefreshKeyboardColors();
      var won := IsWin(evaluation);
      var lost := !won && |guesses| >= MAX_GUESSES;
      if won || lost {
        finished := true;
        events := events + [AttemptComplete(guesses, evaluations, won)];
      }
    }

    method HandleKeyDown(name: string)
      requires Coloured()
      modifies this
      ensures Coloured()
      ensures State() == Press(old(State()), KeyDown(name)).0
      ensures events == old(events) + Press(old(State()), KeyDown(name)).1
      ensures old(finished) ==> State() == old(State()) && events == old(events)
      ensures !old(finished) && name == "Backspace" ==>
                currentInput == (if old(currentInput) == "" then "" else old(currentInput)[..|old(currentInput)| - 1])
                && events == old(events) && guesses == old(guesses)
      ensures !old(finished) && |name| == 1 && ('a' <= name[0] <= 'z' || 'A' <= name[0] <= 'Z') ==>
                currentInput == (if |old(currentInput)| >= wordLength then old(currentInput)
                                 else old(currentInput) + [UpperChar(name[0])])
                && events == old(events) && guesses == old(guesses)
      ensures !old(finished) && name == "Enter" && |old(currentInput)| == wordLength == |solution| ==>
                currentInput == "" && guesses == old(guesses) + [old(currentInput)]
                && events == old(events) + [GuessSubmitted(old(currentInput))]
      ensures guesses != old(guesses) ==>
                name == "Enter" && !old(finished) && |old(currentInput)| == wordLength == |solution|
    {
      if finished {
        return;
      }
      if name == "Enter" {
        SubmitGuess();
      } else if name == "Backspace" {
        PopLetter();
      } else if |name| == 1 && IsLetter(name[0]) {
        PushLetter(UpperChar(name[0]));
      }
    }

    method HandleVirtualKey(k: char)
      requires IsButton(k) && Coloured()
      modifies this
      ensures Coloured()
      ensures State() == Press(old(State()), VirtualKey(k)).0
      ensures events == old(events) + Press(old(State()), VirtualKey(k)).1
      ensures old(finished) ==> State() == old(State()) && events == old(events)
      ensures !old(finished) && k == '\U{08}' ==>
                currentInput == (if old(currentInput) == "" then "" else old(currentInput)[..|old(currentInput)| - 1])
                && events == old(events) && guesses == old(guesses)
      ensures !old(finished) && 'A' <= k <= 'Z' ==>
                currentInput == (if |old(currentInput)| >= wordLength then old(currentInput)
                                 else old(currentInput) + [k])
                && events == old(events) && guesses == old(guesses)
      ensures !old(finished) && k == '\n' && |old(currentInput)| == wordLength == |solution| ==>
                currentInput == "" && guesses == old(guesses) + [old(currentInput)]
                && events == old(events) + [GuessSubmitted(old(currentInput))]
      ensures guesses != old(guesses) ==>
                k == '\n' && !old(finished) && |old(currentInput)| == wordLength == |solution|
    {
      if finished {
        return;
      }
      if k == '\n' {
        SubmitGuess();
      } else if k == '\U{08}' {
        PopLetter();
      } else {
        PushLetter(k);
      }
    }

    /** Best-known mark per letter; a button without one keeps its fill. */
    method RefreshKeyboardColors()
      requires |guesses| == |evaluations| && shown <= |guesses|
      requires forall k :: 'A' <= k <= 'Z' ==> RankIn(colors, k) <= KeyRank(State(), k)
      modifies this`colors, this`shown
      ensures shown == |guesses| && Coloured()
      ensures forall k, e :: 'A' <= k <= 'Z' ==> (k in colors && colors[k] == e <==> BestMark(State(), k, e))
    {
      var best: map<char, Eval> := map[];
      for i := 0 to |guesses|
        invariant forall c :: RankIn(best, c) == BestRank(guesses, evaluations, wordLength, i, 0, c)
      {
        for j := 0 to wordLength
          invariant forall c :: RankIn(best, c) == BestRank(guesses, evaluations, wordLength, i, j, c)
        {
          // reading past the end of a row yields undefined, which colours nothing
          if j < |guesses[i]| && j < |evaluations[i]| {
            var c, e := guesses[i][j], evaluations[i][j];
            if c !in best || Rank(e) > Rank(best[c]) {
              best := best[c := e];
            }
          }
        }
      }
      forall k: char ensures KeyRank(State(), k) <= RankIn(best, k) {
        BestGrows(guesses, evaluations, wordLength, shown, |guesses|, k);
      }
      var painted := map k | k in best && 'A' <= k <= 'Z' :: best[k];
      colors := colors + painted;
      shown := |guesses|;
      forall k, e | 'A' <= k <= 'Z' ensures k in colors && colors[k] == e <==> BestMark(State(), k, e) {
        ColouredByBestMark(k, e);
      }
    }
  }

  lemma UpperTwice(s: string)
    ensures Upper(Upper(s)) == Upper(s)
  {
  }
}
