/** Whole games: from a fresh or resumed scene to the score the server stores. */
module WordleRuns {
  import opened WordleScoring
  import opened ServerScoring
  import opened WordleScenes

  /** What holds in every run: rows and marks agree, and a full grid is either finished or about to be. */
  ghost predicate SceneInv(v: SceneV) {
    && |v.guesses| == |v.evaluations| && Upper(v.solution) == v.solution
    && (forall i :: 0 <= i < |v.guesses| ==>
          |v.guesses[i]| == |v.solution| && Upper(v.guesses[i]) == v.guesses[i]
          && v.evaluations[i] == Feedback(v.guesses[i], v.solution))
    && Upper(v.input) == v.input && |v.input| <= v.wordLength
    && (forall p :: p in v.pending ==> p in v.evaluations)
    && v.shown <= |v.guesses| && (v.pending == [] ==> v.shown == |v.guesses|)
    && (!v.finished && |v.guesses| >= MAX_GUESSES ==> v.pending != [])
  }

  /** What holds as long as no guess was rushed at the wrong moment. */
  ghost predicate Steady(v: SceneV) {
    && |v.guesses| == |v.evaluations|
    && if v.pending == [] then v.finished <==> SomeWin(v.evaluations) || |v.guesses| >= MAX_GUESSES
       else
         && !v.finished && |v.guesses| <= MAX_GUESSES && (|v.guesses| == MAX_GUESSES ==> |v.pending| == 1)
         && (forall i :: 0 <= i < |v.evaluations| - 1 ==> !IsWin(v.evaluations[i]))
         && |v.pending| <= |v.evaluations| && v.pending == v.evaluations[|v.evaluations| - |v.pending|..]
  }

  /** A guess is stored while a winning row is still flipping, or while any row is and the guess
      is the sixth or a later one. */
  ghost predicate Spoils(v: SceneV, x: Input) {
    Accepts(v, x) && v.pending != [] && (SomeWin(v.pending) || |v.guesses| >= MAX_GUESSES - 1)
  }

  ghost predicate SpoiltAt(v0: SceneV, xs: seq<Input>, k: nat)
    requires k < |xs|
  {
    Spoils(Play(v0, xs[..k]).0, xs[k])
  }

  ghost predicate Unspoilt(v0: SceneV, xs: seq<Input>) {
    forall k: nat :: k < |xs| ==> !SpoiltAt(v0, xs, k)
  }

  lemma SpoiltAtPrefix(v0: SceneV, xs: seq<Input>, n: nat, k: nat)
    requires k < n <= |xs|
    ensures SpoiltAt(v0, xs[..n], k) <==> SpoiltAt(v0, xs, k)
  {
    assert xs[..n][..k] == xs[..k];
  }

  lemma UnspoiltPrefix(v0: SceneV, xs: seq<Input>)
    requires xs != []
    ensures Unspoilt(v0, xs) <==> Unspoilt(v0, xs[..|xs| - 1]) && !SpoiltAt(v0, xs, |xs| - 1)
  {
    var n := |xs| - 1;
    forall k: nat | k < n ensures SpoiltAt(v0, xs[..n], k) <==> SpoiltAt(v0, xs, k) {
      SpoiltAtPrefix(v0, xs, n, k);
    }
  }

  lemma StartIsSound(data: InitData)
    requires StartScene(data).Some?
    ensures SceneInv(StartScene(data).value) && Steady(StartScene(data).value) && StartScene(data).value.pending == []
  {
    var v := StartScene(data).value;
    UpperTwice(data.solution);
    forall i | 0 <= i < |v.guesses|
      ensures |v.guesses[i]| == |v.solution| && Upper(v.guesses[i]) == v.guesses[i]
              && v.evaluations[i] == Feedback(v.guesses[i], v.solution)
    {
      var g := data.resumeGuesses[i];
      assert g in data.resumeGuesses;
      UpperTwice(g);
      assert |Upper(g)| == |g|;
    }
  }

  lemma SomeWinSnoc(evs: seq<seq<Eval>>, ev: seq<Eval>)
    ensures SomeWin(evs + [ev]) <==> SomeWin(evs) || IsWin(ev)
  {
    if SomeWin(evs) {
      var i :| 0 <= i < |evs| && IsWin(evs[i]);
      assert (evs + [ev])[i] == evs[i];
    } else if IsWin(ev) {
      assert (evs + [ev])[|evs|] == ev;
    }
  }

  lemma StoringKeepsInv(v: SceneV)
    requires SceneInv(v) && |v.input| == |v.solution| && !v.finished
    ensures SceneInv(Stored(v))
  {
    var w := Stored(v);
    forall p | p in w.pending ensures p in w.evaluations {
      if p in v.pending {
        assert p in v.evaluations;
      } else {
        assert w.evaluations[|v.evaluations|] == p;
      }
    }
  }

  lemma PressKeepsInv(v: SceneV, x: Input)
    requires SceneInv(v)
    ensures SceneInv(Press(v, x).0)
  {
    var w := Press(v, x).0;
    match Meaning(x)
    case Ignore =>
    case EndFlip =>
    case Pop =>
      assert v.input != "" ==> Upper(w.input) == Upper(v.input)[..|w.input|] || w == v;
    case Push(c) =>
      assert UpperChar(c) == c;
      assert w != v ==> Upper(w.input) == Upper(v.input) + [c];
    case Submit =>
      if Accepts(v, x) {
        StoringKeepsInv(v);
      }
  }

  lemma {:induction false} PlayKeepsInv(v0: SceneV, xs: seq<Input>)
    requires SceneInv(v0)
    ensures SceneInv(Play(v0, xs).0)
  {
    if xs != [] {
      PlayKeepsInv(v0, xs[..|xs| - 1]);
      PressKeepsInv(Play(v0, xs[..|xs| - 1]).0, xs[|xs| - 1]);
    }
  }

  // ----- what a run announces

  ghost predicate Silent(events: seq<Event>) {
    forall k :: 0 <= k < |events| ==> !events[k].AttemptComplete?
  }

  /** A completion as it should be: at most six guesses, none but the last a win, and the status
      that of the last. */
  ghost predicate Fits(e: Event) {
    e.AttemptComplete? ==>
      && 1 <= |e.guesses| == |e.evaluations| <= MAX_GUESSES
      && (forall i :: 0 <= i < |e.guesses| - 1 ==> !IsWin(e.evaluations[i]))
      && (e.won <==> SomeWin(e.evaluations))
  }

  /** At most one completion, and that as it should be. */
  ghost predicate RightEvents(events: seq<Event>) {
    && (forall k :: 0 <= k < |events| ==> Fits(events[k]))
    && forall i, j :: 0 <= i < j < |events| ==> !(events[i].AttemptComplete? && events[j].AttemptComplete?)
  }

  /** The completion of a finished game is its last event and tells its rows. */
  ghost predicate Announced(events: seq<Event>, v: SceneV) {
    && |events| > 0 && v.finished && v.pending == []
    && events[|events| - 1] == AttemptComplete(v.guesses, v.evaluations, SomeWin(v.evaluations))
    && Fits(events[|events| - 1])
    && Silent(events[..|events| - 1])
  }

  ghost predicate RightlyAnnounced(v0: SceneV, v: SceneV, events: seq<Event>) {
    && Steady(v)
    && (v0.finished ==> v == v0 && events == [])
    && (!v0.finished && v.finished ==> Announced(events, v))
    && (!v.finished ==> Silent(events))
  }

  lemma SteadyHasNoWin(v: SceneV, x: Input)
    requires Steady(v) && Accepts(v, x) && !Spoils(v, x)
    ensures !SomeWin(v.evaluations) && |v.guesses| < MAX_GUESSES
  {
    if v.pending != [] {
      assert !IsWin(v.pending[|v.pending| - 1]);
      assert v.pending[|v.pending| - 1] == v.evaluations[|v.evaluations| - 1];
    }
  }

  lemma StoringKeepsSteady(v: SceneV, x: Input)
    requires SceneInv(v) && Steady(v) && Accepts(v, x) && !Spoils(v, x)
    ensures Steady(Stored(v)) && !Stored(v).finished
  {
    var w, n := Stored(v), |v.evaluations|;
    SteadyHasNoWin(v, x);
    forall i | 0 <= i < n ensures !IsWin(w.evaluations[i]) {
      assert w.evaluations[i] == v.evaluations[i];
    }
    assert w.pending == v.pending + [w.evaluations[n]];
    assert w.pending == w.evaluations[n + 1 - |w.pending|..];
  }

  /** A flip that ends with another one running tells nothing; the last one tells the end. */
  lemma FlipKeepsSteady(v: SceneV)
    requires SceneInv(v) && Steady(v) && v.pending != []
    ensures var (w, more) := Flipped(v);
      && Steady(w) && (!w.finished ==> more == [])
      && (w.finished ==>
            && w.pending == [] && more == [AttemptComplete(w.guesses, w.evaluations, SomeWin(w.evaluations))]
            && Fits(more[0]))
  {
    var n := |v.evaluations|;
    var first := v.pending[0];
    assert first == v.evaluations[n - |v.pending|];
    if |v.pending| == 1 {
      assert SomeWin(v.evaluations) <==> IsWin(first);
      assert first in v.evaluations && n >= 1;
    } else {
      assert !IsWin(first) && |v.guesses| < MAX_GUESSES;
      assert v.pending[1..] == v.evaluations[n - |v.pending[1..]|..];
    }
  }

  lemma FlipKeepsAnnounced(v0: SceneV, v: SceneV, events: seq<Event>)
    requires SceneInv(v) && RightlyAnnounced(v0, v, events) && v.pending != []
    ensures RightlyAnnounced(v0, Flipped(v).0, events + Flipped(v).1)
  {
    var (w, more) := Flipped(v);
    FlipKeepsSteady(v);
    if w.finished {
      assert (events + more)[..|events|] == events;
    } else {
      assert events + more == events;
    }
  }

  lemma PressKeepsAnnounced(v0: SceneV, v: SceneV, events: seq<Event>, x: Input)
    requires SceneInv(v) && RightlyAnnounced(v0, v, events) && !Spoils(v, x)
    ensures RightlyAnnounced(v0, Press(v, x).0, events + Press(v, x).1)
  {
    if v.pending != [] && Meaning(x).EndFlip? {
      FlipKeepsAnnounced(v0, v, events);
    } else if Accepts(v, x) {
      StoringKeepsSteady(v, x);
    } else {
      OtherPressIsSilent(v, x);
      assert events + [] == events;
    }
  }

  lemma OtherPressIsSilent(v: SceneV, x: Input)
    requires !Accepts(v, x) && !(Meaning(x).EndFlip? && v.pending != [])
    ensures Press(v, x).1 == [] && (v.finished ==> Press(v, x).0 == v)
    ensures Press(v, x).0 == v.(input := Press(v, x).0.input)
  {
  }

  /** Every run from a new scene in which no guess spoils it: letters, erasures and guesses may
      come in the middle of flips, and completion is still announced at most once, as the last
      event, with at most six guesses and no win before the last. */
  lemma {:induction false} AnnouncesOnce(v0: SceneV, xs: seq<Input>)
    requires SceneInv(v0) && Steady(v0) && v0.pending == [] && Unspoilt(v0, xs)
    ensures RightlyAnnounced(v0, Play(v0, xs).0, Play(v0, xs).1)
  {
    if xs != [] {
      var before := xs[..|xs| - 1];
      UnspoiltPrefix(v0, xs);
      AnnouncesOnce(v0, before);
      PlayKeepsInv(v0, before);
      assert !Spoils(Play(v0, before).0, xs[|xs| - 1]);
      PressKeepsAnnounced(v0, Play(v0, before).0, Play(v0, before).1, xs[|xs| - 1]);
    }
  }

  /** The guesses that a run of events announces one by one. */
  function Told(events: seq<Event>): seq<string> {
    if events == [] then []
    else
      var last := events[|events| - 1];
      Told(events[..|events| - 1]) + if last.GuessSubmitted? then [last.guess] else []
  }

  lemma {:induction false} ToldConcat(a: seq<Event>, b: seq<Event>)
    ensures Told(a + b) == Told(a) + Told(b)
  {
    if b == [] {
      assert a + b == a;
    } else {
      var n := |b| - 1;
      ToldConcat(a, b[..n]);
      assert (a + b)[..|a| + n] == a + b[..n];
    }
  }

  /** In every run the stored guesses are the resumed ones and then those announced, in order. */
  lemma {:induction false} GuessesAreTold(v0: SceneV, xs: seq<Input>)
    ensures Play(v0, xs).0.guesses == v0.guesses + Told(Play(v0, xs).1)
  {
    if xs == [] {
      assert v0.guesses + [] == v0.guesses;
    } else {
      var n := |xs| - 1;
      var (v, events) := Play(v0, xs[..n]);
      GuessesAreTold(v0, xs[..n]);
      ToldConcat(events, Press(v, xs[n]).1);
      PressTells(v, xs[n]);
    }
  }

  lemma PressTells(v: SceneV, x: Input)
    ensures Press(v, x).0.guesses == v.guesses + Told(Press(v, x).1)
  {
    if Accepts(v, x) {
      assert [GuessSubmitted(v.input)][..0] == [];
      assert Told([]) == [] && [] + [v.input] == [v.input];
    } else if Meaning(x).EndFlip? && v.pending != [] && Press(v, x).1 != [] {
      assert Press(v, x).1[..0] == [];
      assert Told([]) == [] && v.guesses + [] == v.guesses;
    } else {
      assert v.guesses + [] == v.guesses;
    }
  }

  // ----- and that this is exact

  ghost predicate EarlyWin(evs: seq<seq<Eval>>) {
    exists i :: 0 <= i < |evs| - 1 && IsWin(evs[i])
  }

  /** The announcements are wrong, or the running flips will make them so. */
  ghost predicate Doomed(v: SceneV, events: seq<Event>) {
    || !RightEvents(events)
    || (SomeWin(v.pending) && EarlyWin(v.evaluations))
    || (|v.guesses| >= MAX_GUESSES && (|v.pending| >= 2 || (|v.pending| == 1 && !Silent(events))))
    || (|v.guesses| > MAX_GUESSES && v.pending != [])
  }

  lemma RightPrefix(events: seq<Event>, more: seq<Event>)
    requires RightEvents(events + more)
    ensures RightEvents(events)
    ensures more != [] && more[0].AttemptComplete? ==> Silent(events)
    ensures more != [] ==> Fits(more[0])
  {
    var all := events + more;
    assert forall k :: 0 <= k < |events| ==> all[k] == events[k];
    assert more != [] ==> all[|events|] == more[0];
  }

  lemma EarlyWinGrows(evs: seq<seq<Eval>>, ev: seq<Eval>)
    ensures SomeWin(evs) ==> EarlyWin(evs + [ev])
    ensures EarlyWin(evs) ==> EarlyWin(evs + [ev])
  {
    if SomeWin(evs) {
      var i :| 0 <= i < |evs| && IsWin(evs[i]);
      assert IsWin((evs + [ev])[i]);
    }
  }

  lemma StoringStaysDoomed(v: SceneV, events: seq<Event>)
    requires SceneInv(v) && |v.input| == |v.solution| && Doomed(v, events)
    ensures Doomed(Stored(v), events + [GuessSubmitted(v.input)])
  {
    var ev := Judge(v.input, v.solution);
    var all := events + [GuessSubmitted(v.input)];
    if RightEvents(all) {
      RightPrefix(events, [GuessSubmitted(v.input)]);
    }
    assert Silent(all) ==> forall k :: 0 <= k < |events| ==> events[k] == all[k];
    EarlyWinGrows(v.evaluations, ev);
    SomeWinSnoc(v.pending, ev);
  }

  lemma FlipStaysDoomed(v: SceneV, events: seq<Event>)
    requires SceneInv(v) && v.pending != [] && Doomed(v, events)
    ensures Doomed(Flipped(v).0, events + Flipped(v).1)
  {
    var (w, more) := Flipped(v);
    assert v.pending == [v.pending[0]] + w.pending;
    if RightEvents(events + more) {
      RightPrefix(events, more);
      if SomeWin(v.pending) && EarlyWin(v.evaluations) {
        assert !IsWin(v.pending[0]);
        var i :| 0 <= i < |v.pending| && IsWin(v.pending[i]);
        assert w.pending[i - 1] == v.pending[i];
      } else {
        assert more != [] && (events + more)[|events|] == more[0];
        assert |v.guesses| <= MAX_GUESSES;
      }
    }
  }

  lemma PressStaysDoomed(v: SceneV, events: seq<Event>, x: Input)
    requires SceneInv(v) && Doomed(v, events)
    ensures Doomed(Press(v, x).0, events + Press(v, x).1)
  {
    if Meaning(x).EndFlip? && v.pending != [] {
      FlipStaysDoomed(v, events);
    } else if Accepts(v, x) {
      StoringStaysDoomed(v, events);
    } else {
      assert events + [] == events;
    }
  }

  lemma SpoilingDooms(v: SceneV, events: seq<Event>, x: Input)
    requires SceneInv(v) && Spoils(v, x)
    ensures Doomed(Press(v, x).0, events + Press(v, x).1)
  {
    var w := Stored(v);
    if SomeWin(v.pending) {
      var i :| 0 <= i < |v.pending| && IsWin(v.pending[i]);
      assert v.pending[i] in v.evaluations;
      EarlyWinGrows(v.evaluations, Judge(v.input, v.solution));
      SomeWinSnoc(v.pending, Judge(v.input, v.solution));
    }
  }

  lemma {:induction false} SpoiltIsDoomed(v0: SceneV, xs: seq<Input>)
    requires SceneInv(v0) && !Unspoilt(v0, xs)
    ensures Doomed(Play(v0, xs).0, Play(v0, xs).1)
  {
    var before, x := xs[..|xs| - 1], xs[|xs| - 1];
    var (v, events) := Play(v0, before);
    UnspoiltPrefix(v0, xs);
    PlayKeepsInv(v0, before);
    if Spoils(v, x) {
      SpoilingDooms(v, events, x);
    } else {
      SpoiltIsDoomed(v0, before);
      PressStaysDoomed(v, events, x);
    }
  }

  lemma AnnouncedIsRight(events: seq<Event>, v: SceneV)
    requires Announced(events, v)
    ensures RightEvents(events)
  {
    var n := |events| - 1;
    assert forall k :: 0 <= k < n ==> events[k] == events[..n][k];
  }

  /** In every run from a new scene whose flips have all ended, completion is announced at most
      once and as it should be if and only if no guess was stored while a winning row was still
      flipping, nor a sixth or later guess while any row was. */
  lemma AnnouncesRightlyExactly(v0: SceneV, xs: seq<Input>)
    requires SceneInv(v0) && Steady(v0) && v0.pending == [] && Play(v0, xs).0.pending == []
    ensures RightEvents(Play(v0, xs).1) <==> Unspoilt(v0, xs)
  {
    var (v, events) := Play(v0, xs);
    if Unspoilt(v0, xs) {
      AnnouncesOnce(v0, xs);
      if !v0.finished && v.finished {
        AnnouncedIsRight(events, v);
      }
    } else {
      SpoiltIsDoomed(v0, xs);
    }
  }

  lemma PlaySnoc(v: SceneV, xs: seq<Input>, x: Input)
    ensures Play(v, xs + [x]).0 == Press(Play(v, xs).0, x).0
    ensures Play(v, xs + [x]).1 == Play(v, xs).1 + Press(Play(v, xs).0, x).1
  {
    assert (xs + [x])[..|xs|] == xs;
  }

  /** Five rows stored, the last of them still flipping and none the solution, which is typed. */
  ghost predicate LateSolution(v: SceneV) {
    && SceneInv(v) && !v.finished && |v.guesses| == 5 && |v.pending| == 1 && !SomeWin(v.evaluations)
    && v.input == v.solution && |v.solution| == v.wordLength > 0
  }

  lemma LateSolutionIsStored(v: SceneV)
    requires LateSolution(v)
    ensures Press(v, KeyDown("Enter")) == (Stored(v), [GuessSubmitted(v.solution)])
    ensures var w := Stored(v);
      |w.guesses| == 6 && |w.pending| == 2 && !IsWin(w.pending[0]) && IsWin(w.pending[1])
  {
    assert v.pending[0] in v.evaluations && !IsWin(v.pending[0]);
    WinIsEquality(Upper(v.solution), Upper(v.solution));
    assert |Upper(v.solution)| == |v.solution|;
  }

  /** The solution entered as sixth guess while the wrong fifth one is still flipping: both
      flips announce completion, first as lost, then as won. */
  lemma LateSolutionGetsBoth(v: SceneV)
    requires LateSolution(v)
    ensures var events := Play(v, [KeyDown("Enter")] + [FlipDone] + [FlipDone]).1;
      && |events| == 3 && events[0] == GuessSubmitted(v.solution)
      && events[1].AttemptComplete? && !events[1].won && events[2].AttemptComplete? && events[2].won
      && events[1].guesses == events[2].guesses
  {
    LateSolutionIsStored(v);
    assert [] + [KeyDown("Enter")] == [KeyDown("Enter")];
    PlaySnoc(v, [], KeyDown("Enter"));
    PlaySnoc(v, [KeyDown("Enter")], FlipDone);
    PlaySnoc(v, [KeyDown("Enter")] + [FlipDone], FlipDone);
  }

  function Keys(word: string): seq<Input> {
    seq(|word|, i requires 0 <= i < |word| => VirtualKey(word[i]))
  }

  lemma {:induction false} PlayConcat(v: SceneV, xs: seq<Input>, ys: seq<Input>)
    ensures Play(v, xs + ys).0 == Play(Play(v, xs).0, ys).0
  {
    if ys == [] {
      assert xs + ys == xs;
    } else {
      var n := |ys| - 1;
      PlayConcat(v, xs, ys[..n]);
      assert (xs + ys)[..|xs| + n] == xs + ys[..n];
    }
  }

  ghost predicate InCapitals(word: string) {
    forall i :: 0 <= i < |word| ==> 'A' <= word[i] <= 'Z'
  }

  lemma {:induction false} TypedWord(v: SceneV, word: string)
    requires !v.finished && |v.input| + |word| <= v.wordLength && InCapitals(word)
    ensures Play(v, Keys(word)).0 == v.(input := v.input + word)
  {
    if word == [] {
      assert v.input + word == v.input;
    } else {
      var n := |word| - 1;
      TypedWord(v, word[..n]);
      assert Keys(word)[..n] == Keys(word[..n]);
      assert v.input + word[..n] + [word[n]] == v.input + word;
    }
  }

  /** Typing a word in capitals and enter stores exactly that word, marked against the solution. */
  lemma EnteredWordIsStored(v: SceneV, word: string)
    requires !v.finished && v.input == "" && |word| == v.wordLength == |v.solution| && InCapitals(word)
    ensures var w := Play(v, Keys(word) + [KeyDown("Enter")]).0;
      w.guesses == v.guesses + [word] && w.evaluations == v.evaluations + [Judge(word, v.solution)] && w.input == ""
  {
    TypedWord(v, word);
    assert "" + word == word;
    PlaySnoc(v, Keys(word), KeyDown("Enter"));
  }

  lemma UpperIsSame(word: string)
    requires InCapitals(word)
    ensures Upper(word) == word
  {
  }

  lemma FourWrongResumed(data: InitData)
    requires |data.solution| == data.length > 0 && InCapitals(data.solution) && |data.resumeGuesses| == 4
    requires forall g :: g in data.resumeGuesses ==> |g| == |data.solution| && Upper(g) != data.solution
    ensures StartScene(data).Some?
    ensures var v := StartScene(data).value;
      && !v.finished && |v.guesses| == 4 && !SomeWin(v.evaluations) && v.pending == [] && v.input == ""
      && v.solution == data.solution && v.wordLength == |data.solution|
  {
    UpperIsSame(data.solution);
    forall i | 0 <= i < 4 ensures !IsWin(Judge(data.resumeGuesses[i], data.solution)) {
      assert data.resumeGuesses[i] in data.resumeGuesses;
      WinIsEquality(Upper(data.resumeGuesses[i]), Upper(data.solution));
    }
  }

  lemma FifthWrongStored(v: SceneV)
    requires !v.finished && |v.guesses| == 4 && !SomeWin(v.evaluations) && v.pending == []
    requires |v.input| == |v.solution| == v.wordLength && v.input != v.solution
    requires InCapitals(v.input) && InCapitals(v.solution)
    ensures Press(v, KeyDown("Enter")).0 == Stored(v)
    ensures var w := Stored(v); |w.guesses| == 5 && |w.pending| == 1 && !SomeWin(w.evaluations)
  {
    UpperIsSame(v.input);
    UpperIsSame(v.solution);
    WinIsEquality(Upper(v.input), Upper(v.solution));
    SomeWinSnoc(v.evaluations, Judge(v.input, v.solution));
  }

  /** A new scene that resumes four wrong guesses comes to that by typing a fifth wrong one,
      enter, and the solution. */
  lemma LateSolutionIsReachable(data: InitData, wrong: string)
    requires |data.solution| == data.length == |wrong| > 0 && wrong != data.solution
    requires InCapitals(data.solution) && InCapitals(wrong) && |data.resumeGuesses| == 4
    requires forall g :: g in data.resumeGuesses ==> |g| == |data.solution| && Upper(g) != data.solution
    ensures StartScene(data).Some?
    ensures LateSolution(Play(StartScene(data).value, Keys(wrong) + [KeyDown("Enter")] + Keys(data.solution)).0)
  {
    FourWrongResumed(data);
    StartIsSound(data);
    var v0 := StartScene(data).value;
    TypedWord(v0, wrong);
    assert "" + wrong == wrong && "" + data.solution == data.solution;
    FifthWrongStored(v0.(input := wrong));
    PlaySnoc(v0, Keys(wrong), KeyDown("Enter"));
    PlayConcat(v0, Keys(wrong) + [KeyDown("Enter")], Keys(data.solution));
    TypedWord(Stored(v0.(input := wrong)), data.solution);
    PlayKeepsInv(v0, Keys(wrong) + [KeyDown("Enter")] + Keys(data.solution));
  }

  // ----- the server's verdict

  /** On rows the scene has marked, the server finds a win at a row exactly where the scene did. */
  lemma RowsAgree(v: SceneV, raw: string, i: nat)
    requires SceneInv(v) && v.solution == Upper(raw) && Trim(raw) == raw && i < |v.guesses|
    ensures IsWin(v.evaluations[i]) <==> Trim(raw) != [] && ServerMatch(v.guesses[i], raw)
  {
    assert |Upper(raw)| == |raw|;
    WinsAgree(v.guesses[i], raw);
  }

  /** The guesses announced at the end of a run score, on the server, as the scene said: won
      exactly if the status is 'won', 100 - 15(k - 1) for a win with k guesses, 0 otherwise;
      and the stored attempt is no longer in progress. */
  lemma ServerConfirms(data: InitData, xs: seq<Input>, score: int, won: bool)
    requires StartScene(data).Some? && !StartScene(data).value.finished && Trim(data.solution) == data.solution
    requires Unspoilt(StartScene(data).value, xs) && Play(StartScene(data).value, xs).0.finished
    requires IsScore(data.solution, Play(StartScene(data).value, xs).0.guesses, score, won)
    ensures var (v, events) := Play(StartScene(data).value, xs);
      && Announced(events, v)
      && (won <==> events[|events| - 1].won)
      && score == (if won then 100 - 15 * (|v.guesses| - 1) else 0)
      && !(!won && |v.guesses| < MAX_GUESSES)
  {
    var v0 := StartScene(data).value;
    StartIsSound(data);
    AnnouncesOnce(v0, xs);
    PlayKeepsInv(v0, xs);
    var (v, events) := Play(v0, xs);
    SolutionStays(v0, xs);
    VerdictOnRows(v, data.solution, score, won);
  }

  lemma OnlyLastWins(v: SceneV, raw: string)
    requires SceneInv(v) && v.solution == Upper(raw) && Trim(raw) == raw && 1 <= |v.guesses| <= MAX_GUESSES
    requires forall i :: 0 <= i < |v.guesses| - 1 ==> !IsWin(v.evaluations[i])
    ensures SomeWin(v.evaluations) <==> FirstWin(raw, v.guesses, |v.guesses| - 1)
    ensures forall k: nat :: FirstWin(raw, v.guesses, k) ==> k == |v.guesses| - 1
  {
    var last := |v.guesses| - 1;
    forall i | 0 <= i < |v.guesses|
      ensures IsWin(v.evaluations[i]) <==> Trim(raw) != [] && ServerMatch(v.guesses[i], raw)
    {
      RowsAgree(v, raw, i);
    }
    assert SomeWin(v.evaluations) <==> IsWin(v.evaluations[last]);
  }

  lemma VerdictOnRows(v: SceneV, raw: string, score: int, won: bool)
    requires SceneInv(v) && v.solution == Upper(raw) && Trim(raw) == raw && 1 <= |v.guesses| <= MAX_GUESSES
    requires forall i :: 0 <= i < |v.guesses| - 1 ==> !IsWin(v.evaluations[i])
    requires IsScore(raw, v.guesses, score, won)
    ensures won <==> SomeWin(v.evaluations)
    ensures score == if won then 100 - 15 * (|v.guesses| - 1) else 0
  {
    OnlyLastWins(v, raw);
  }

  lemma {:induction false} SolutionStays(v0: SceneV, xs: seq<Input>)
    ensures Play(v0, xs).0.solution == v0.solution && Play(v0, xs).0.wordLength == v0.wordLength
  {
    if xs != [] {
      SolutionStays(v0, xs[..|xs| - 1]);
    }
  }

  /** On resume the scene is finished exactly when the server no longer has the attempt in progress. */
  lemma ResumeAgrees(data: InitData, score: int, won: bool)
    requires InitScene(data).Some? && Trim(data.solution) == data.solution
    requires IsScore(data.solution, data.resumeGuesses, score, won)
    ensures InitScene(data).value.finished <==> !(!won && |data.resumeGuesses| < MAX_GUESSES)
  {
    var v := InitScene(data).value;
    if |data.resumeGuesses| < MAX_GUESSES {
      forall i | 0 <= i < |v.guesses|
        ensures IsWin(v.evaluations[i])
                <==> Trim(data.solution) != [] && ServerMatch(data.resumeGuesses[i], data.solution)
      {
        assert data.resumeGuesses[i] in data.resumeGuesses;
        assert v.evaluations[i] == Judge(data.resumeGuesses[i], data.solution);
        WinsAgree(data.resumeGuesses[i], data.solution);
      }
      if won {
        var k: nat :| FirstWin(data.solution, data.resumeGuesses, k);
        assert IsWin(v.evaluations[k]);
      } else if SomeWin(v.evaluations) {
        var i :| 0 <= i < |v.evaluations| && IsWin(v.evaluations[i]);
        FirstWinExists(data.solution, data.resumeGuesses, i);
      }
    }
  }

  lemma {:induction false} FirstWinExists(solution: string, guesses: seq<string>, k: nat)
    requires k < |guesses| && k < MAX_GUESSES && Trim(solution) != [] && ServerMatch(guesses[k], solution)
    ensures exists j: nat :: FirstWin(solution, guesses, j)
  {
    if forall i :: 0 <= i < k ==> !ServerMatch(guesses[i], solution) {
      assert FirstWin(solution, guesses, k);
    } else {
      var i :| 0 <= i < k && ServerMatch(guesses[i], solution);
      FirstWinExists(solution, guesses, i);
    }
  }

  // ----- the keyboard

  lemma PressKeepsColours(v: SceneV, x: Input, c: char)
    requires SceneInv(v)
    ensures KeyRank(v, c) <= KeyRank(Press(v, x).0, c)
  {
    var w := Press(v, x).0;
    BestOfPrefix(v.guesses, v.evaluations, w.guesses, w.evaluations, v.wordLength, v.shown, 0, c);
    BestGrows(w.guesses, w.evaluations, v.wordLength, v.shown, w.shown, c);
  }

  /** In every run the colour of a key never gets worse. */
  lemma {:induction false} ColoursNeverWorsen(v0: SceneV, xs: seq<Input>, k: nat, c: char)
    requires SceneInv(v0) && k <= |xs|
    ensures KeyRank(Play(v0, xs[..k]).0, c) <= KeyRank(Play(v0, xs).0, c)
    decreases |xs|
  {
    if k == |xs| {
      assert xs[..k] == xs;
    } else {
      var before := xs[..|xs| - 1];
      assert before[..k] == xs[..k];
      ColoursNeverWorsen(v0, before, k, c);
      PlayKeepsInv(v0, before);
      PressKeepsColours(Play(v0, before).0, xs[|xs| - 1], c);
    }
  }

  lemma ShownMarkStays(v: SceneV, x: Input, c: char, e: Eval)
    requires SceneInv(v) && ShowsMark(v, c, e)
    ensures ShowsMark(Press(v, x).0, c, e)
  {
    var w := Press(v, x).0;
    var p, q :| 0 <= p < v.shown && 0 <= q < v.wordLength && q < |v.guesses[p]| && q < |v.evaluations[p]|
                && v.guesses[p][q] == c && v.evaluations[p][q] == e;
    assert w.guesses[p] == v.guesses[p] && w.evaluations[p] == v.evaluations[p];
    assert w.guesses[p][q] == c && w.evaluations[p][q] == e;
  }

  /** In every run a key that is green stays green, and one that is yellow never turns grey. */
  lemma {:induction false} GreenStaysGreen(v0: SceneV, xs: seq<Input>, k: nat, c: char)
    requires SceneInv(v0) && k <= |xs|
    ensures forall e :: ShowsMark(Play(v0, xs[..k]).0, c, e) ==> ShowsMark(Play(v0, xs).0, c, e)
    ensures BestMark(Play(v0, xs[..k]).0, c, Hit) ==> BestMark(Play(v0, xs).0, c, Hit)
    ensures BestMark(Play(v0, xs[..k]).0, c, Present) ==>
              BestMark(Play(v0, xs).0, c, Present) || BestMark(Play(v0, xs).0, c, Hit)
    decreases |xs|
  {
    if k == |xs| {
      assert xs[..k] == xs;
    } else {
      var before := xs[..|xs| - 1];
      assert before[..k] == xs[..k];
      GreenStaysGreen(v0, before, k, c);
      PlayKeepsInv(v0, before);
      forall e | ShowsMark(Play(v0, before).0, c, e) ensures ShowsMark(Play(v0, xs).0, c, e) {
        ShownMarkStays(Play(v0, before).0, xs[|xs| - 1], c, e);
      }
    }
  }

  /** The row shows `c` at column `q` of row `p`. */
  ghost predicate ShowsAt(v: SceneV, p: int, q: int, c: char) {
    0 <= p < v.shown <= |v.guesses| && 0 <= q < v.wordLength && q < |v.guesses[p]| && v.guesses[p][q] == c
  }

  /** Some shown cell of `c` is marked hit or present. */
  ghost predicate MarkShown(v: SceneV, c: char) {
    exists p, q :: ShowsAt(v, p, q, c)
                   && q < |v.solution| == |v.guesses[p]| && EvalAt(v.guesses[p], v.solution, q) != Miss
  }

  lemma KeyRankIsShown(v: SceneV, c: char)
    requires SceneInv(v)
    ensures KeyRank(v, c) > 0 <==> exists p, q :: ShowsAt(v, p, q, c)
    ensures KeyRank(v, c) > Rank(Miss) <==> MarkShown(v, c)
  {
    BestIsMax(v.guesses, v.evaluations, v.wordLength, v.shown, 0, c);
    forall p, q | ShowsAt(v, p, q, c)
      ensures KeyRank(v, c) >= CellRank(v.guesses, v.evaluations, p, q, c) == Rank(EvalAt(v.guesses[p], v.solution, q))
    {
    }
    if KeyRank(v, c) > 0 {
      var p, q :| 0 <= p < v.shown && 0 <= q < v.wordLength
                  && CellRank(v.guesses, v.evaluations, p, q, c) == KeyRank(v, c);
      assert ShowsAt(v, p, q, c);
    }
  }

  lemma AbsentIsUnmarked(v: SceneV, c: char)
    requires SceneInv(v) && c !in v.solution
    ensures !MarkShown(v, c)
  {
    forall p, q | ShowsAt(v, p, q, c) ensures EvalAt(v.guesses[p], v.solution, q) == Miss {
      GreyExactly(v.guesses[p], v.solution, c);
    }
  }

  lemma PresentIsMarked(v: SceneV, c: char, p: int, q: int)
    requires SceneInv(v) && v.wordLength >= |v.solution| && c in v.solution && ShowsAt(v, p, q, c)
    ensures MarkShown(v, c)
  {
    GreyExactly(v.guesses[p], v.solution, c);
    var i :| 0 <= i < |v.guesses[p]| && v.guesses[p][i] == c && EvalAt(v.guesses[p], v.solution, i) != Miss;
    assert ShowsAt(v, p, i, c);
  }

  /** A key is coloured exactly if a shown cell carries its letter. A coloured key tells the truth
      (grey if and only if the solution lacks the letter) exactly when the solution lacks it or
      a marked cell of it is shown; and that is so whenever the row holds the whole solution. */
  lemma GreyKeyExactly(v: SceneV, c: char)
    requires SceneInv(v)
    ensures KeyRank(v, c) > 0 <==> exists p, q :: ShowsAt(v, p, q, c)
    ensures KeyRank(v, c) > 0 ==>
              ((KeyRank(v, c) == Rank(Miss) <==> c !in v.solution) <==> c !in v.solution || MarkShown(v, c))
    ensures KeyRank(v, c) > 0 && v.wordLength >= |v.solution| ==> c !in v.solution || MarkShown(v, c)
    ensures v.wordLength >= |v.solution| ==> (KeyRank(v, c) > 0 <==> exists p :: 0 <= p < v.shown && c in v.guesses[p])
  {
    KeyRankIsShown(v, c);
    forall p | 0 <= p < v.shown && v.wordLength >= |v.solution| && c in v.guesses[p] ensures KeyRank(v, c) > 0 {
      var q :| 0 <= q < |v.guesses[p]| && v.guesses[p][q] == c;
      assert ShowsAt(v, p, q, c);
    }
    if c !in v.solution {
      AbsentIsUnmarked(v, c);
    } else if KeyRank(v, c) > 0 && v.wordLength >= |v.solution| {
      var p, q :| ShowsAt(v, p, q, c);
      PresentIsMarked(v, c, p, q);
    }
  }

  /** A row shorter than the solution: the key of a letter that stands in the solution past the
      row's end is grey when a resumed guess also has it, misplaced, inside the row. */
  lemma ShortRowGreysPresent(a: char, b: char)
    requires 'A' <= a <= 'Z' && 'A' <= b <= 'Z' && a != b
    ensures StartScene(InitData([a] + [b], 1, [[b] + [b]])).Some?
    ensures var v := StartScene(InitData([a] + [b], 1, [[b] + [b]])).value;
      KeyRank(v, b) == Rank(Miss) && b in v.solution
  {
    var data := InitData([a] + [b], 1, [[b] + [b]]);
    var g, s := [b] + [b], [a] + [b];
    UpperIsSame(g);
    UpperIsSame(s);
    StartIsSound(data);
    var v := StartScene(data).value;
    assert v.guesses == [g] && v.solution == s;
    assert Unmatched(s, g, s, 1, b) == 0 && Unmatched(s, g, s, 2, b) == 0;
    assert EvalAt(g, s, 0) == Miss;
    KeyRankIsShown(v, b);
    assert ShowsAt(v, 0, 0, b);
  }

  /** In every run from a new scene: a coloured key is grey if and only if the solution lacks its
      letter, exactly when it does lack it or a marked cell of it is shown, as it always is with
      rows that hold the solution; and once no flip is running every stored row is shown. */
  lemma KeysTellTheTruth(data: InitData, xs: seq<Input>, c: char)
    requires StartScene(data).Some?
    ensures var v := Play(StartScene(data).value, xs).0;
      && (KeyRank(v, c) > 0 ==>
            ((KeyRank(v, c) == Rank(Miss) <==> c !in Upper(data.solution))
             <==> c !in Upper(data.solution) || MarkShown(v, c)))
      && (KeyRank(v, c) > 0 && (data.length == 0 || data.length >= |data.solution|) ==>
            (KeyRank(v, c) == Rank(Miss) <==> c !in Upper(data.solution)))
      && (v.pending == [] ==> v.shown == |v.guesses|)
      && (v.pending == [] && (data.length == 0 || data.length >= |data.solution|) ==>
            (KeyRank(v, c) > 0 <==> exists g :: g in v.guesses && c in g))
  {
    var v0 := StartScene(data).value;
    StartIsSound(data);
    PlayKeepsInv(v0, xs);
    SolutionStays(v0, xs);
    assert |Upper(data.solution)| == |data.solution|;
    var v := Play(v0, xs).0;
    GreyKeyExactly(v, c);
    assert forall p :: 0 <= p < |v.guesses| ==> v.guesses[p] in v.guesses;
  }
}
