/** The server's re-scoring (server/internal/api/scoring.go) and the client's preview of it. */
module ServerScoring {
  import opened Records
  import opened WordleScoring

  const SCORE_FIRST_SOLVE: int := 100
  const SCORE_PER_GUESS: int := 15
  const SCORE_FLOOR: int := 0

  predicate IsSpace(c: char) {
    c == ' ' || c == '\t' || c == '\n' || c == '\r' || c == '\U{0B}' || c == '\U{0C}'
  }

  function TrimLeft(s: string): string {
    if s != [] && IsSpace(s[0]) then TrimLeft(s[1..]) else s
  }

  function TrimRight(s: string): string {
    if s != [] && IsSpace(s[|s| - 1]) then TrimRight(s[..|s| - 1]) else s
  }

  function Trim(s: string): string {
    TrimRight(TrimLeft(s))
  }

  predicate ServerMatch(guess: string, solution: string) {
    Lower(Trim(guess)) == Lower(Trim(solution))
  }

  /** Index of the winning guess among the first MAX_GUESSES. */
  ghost predicate FirstWin(solution: string, guesses: seq<string>, k: nat) {
    && k < |guesses| && k < MAX_GUESSES && Trim(solution) != [] && ServerMatch(guesses[k], solution)
    && forall i :: 0 <= i < k ==> !ServerMatch(guesses[i], solution)
  }

  ghost predicate IsScore(solution: string, guesses: seq<string>, score: int, won: bool) {
    && (won <==> exists k: nat :: FirstWin(solution, guesses, k))
    && (!won ==> score == SCORE_FLOOR)
    && forall k: nat :: FirstWin(solution, guesses, k) ==> score == SCORE_FIRST_SOLVE - k * SCORE_PER_GUESS
  }

  lemma LowerEmpty(s: string)
    ensures Lower(s) == [] <==> s == []
  {
    assert |Lower(s)| == |s|;
  }

  method Score(solution: string, guesses: seq<string>) returns (score: int, won: bool)
    ensures IsScore(solution, guesses, score, won)
  {
    var target := Lower(Trim(solution));
    LowerEmpty(Trim(solution));
    if target == "" || |guesses| == 0 {
      return SCORE_FLOOR, false;
    }
    for i := 0 to |guesses|
      invariant forall j :: 0 <= j < i && j < MAX_GUESSES ==> !ServerMatch(guesses[j], solution)
    {
      if i >= MAX_GUESSES {
        break;
      }
      if Lower(Trim(guesses[i])) == target {
        var n := SCORE_FIRST_SOLVE - i * SCORE_PER_GUESS;
        if n < SCORE_FLOOR {
          n := SCORE_FLOOR;
        }
        assert FirstWin(solution, guesses, i);
        return n, true;
      }
    }
    return SCORE_FLOOR, false;
  }

  /** Everything a client posts about the outcome is overwritten. */
  method Finalize(a: Attempt, solution: string) returns (b: Attempt)
    ensures IsScore(solution, a.guesses, b.score, b.won)
    ensures b.inProgress <==> !b.won && |a.guesses| < MAX_GUESSES
    ensures b == a.(score := b.score, won := b.won, inProgress := b.inProgress)
  {
    var score, won := Score(solution, a.guesses);
    b := a.(score := score, won := won, inProgress := !won && |a.guesses| < MAX_GUESSES);
  }

  lemma ScoreIsUnique(solution: string, guesses: seq<string>, s1: int, w1: bool, s2: int, w2: bool)
    requires IsScore(solution, guesses, s1, w1) && IsScore(solution, guesses, s2, w2)
    ensures s1 == s2 && w1 == w2
  {
    if w1 {
      var k :| FirstWin(solution, guesses, k);
    }
  }

  // ----- case does not matter which way

  lemma CaseAgreesChar(a: char, b: char)
    ensures UpperChar(a) == UpperChar(b) <==> LowerChar(a) == LowerChar(b)
  {
  }

  lemma CaseAgrees(a: string, b: string)
    ensures Upper(a) == Upper(b) <==> Lower(a) == Lower(b)
  {
    if Upper(a) == Upper(b) || Lower(a) == Lower(b) {
      assert |a| == |Upper(a)| == |Lower(a)| && |b| == |Upper(b)| == |Lower(b)|;
      forall i | 0 <= i < |a| ensures UpperChar(a[i]) == UpperChar(b[i]) <==> LowerChar(a[i]) == LowerChar(b[i]) {
        CaseAgreesChar(a[i], b[i]);
      }
      if Upper(a) == Upper(b) {
        forall i | 0 <= i < |a| ensures Lower(a)[i] == Lower(b)[i] {
          assert Upper(a)[i] == Upper(b)[i];
        }
      } else {
        forall i | 0 <= i < |a| ensures Upper(a)[i] == Upper(b)[i] {
          assert Lower(a)[i] == Lower(b)[i];
        }
      }
    }
  }

  /** The client's preview of the score; it compares in upper case. */
  method ClientScore(guesses: seq<string>, solution: string) returns (score: int, won: bool)
    ensures IsScore(solution, guesses, score, won)
  {
    var target := Upper(Trim(solution));
    assert |target| == |Trim(solution)|;
    if target == "" || |guesses| == 0 {
      return 0, false;
    }
    var i := 0;
    while i < |guesses| && i < MAX_GUESSES
      invariant i <= |guesses| && i <= MAX_GUESSES
      invariant forall j :: 0 <= j < i ==> !ServerMatch(guesses[j], solution)
    {
      CaseAgrees(Trim(guesses[i]), Trim(solution));
      if Upper(Trim(guesses[i])) == target {
        var n := SCORE_FIRST_SOLVE - i * SCORE_PER_GUESS;
        assert FirstWin(solution, guesses, i);
        return if n > 0 then n else 0, true;
      }
      i := i + 1;
    }
    return 0, false;
  }

  // ----- client and server agree on what a winning guess is

  predicate ClientWins(guess: string, solution: string) {
    |guess| == |solution| && IsWin(Feedback(Upper(guess), Upper(solution)))
  }

  predicate ServerWins(guess: string, solution: string) {
    Trim(solution) != [] && ServerMatch(guess, solution)
  }

  lemma {:induction false} TrimLeftShape(s: string)
    ensures |TrimLeft(s)| <= |s| && (|TrimLeft(s)| == |s| ==> TrimLeft(s) == s)
    ensures TrimLeft(s) == s <==> s == [] || !IsSpace(s[0])
  {
    if s != [] && IsSpace(s[0]) {
      TrimLeftShape(s[1..]);
    }
  }

  lemma {:induction false} TrimRightShape(s: string)
    ensures |TrimRight(s)| <= |s| && (|TrimRight(s)| == |s| ==> TrimRight(s) == s)
    ensures TrimRight(s) == s <==> s == [] || !IsSpace(s[|s| - 1])
  {
    if s != [] && IsSpace(s[|s| - 1]) {
      TrimRightShape(s[..|s| - 1]);
    }
  }

  lemma TrimShape(s: string)
    ensures |Trim(s)| <= |s| && (|Trim(s)| == |s| ==> Trim(s) == s)
    ensures Trim(s) == s <==> s == [] || (!IsSpace(s[0]) && !IsSpace(s[|s| - 1]))
  {
    TrimLeftShape(s);
    TrimRightShape(TrimLeft(s));
  }

  lemma LowerLength(a: string, b: string)
    requires Lower(a) == Lower(b)
    ensures |a| == |b|
  {
    assert |a| == |Lower(a)| && |b| == |Lower(b)|;
  }

  lemma WinsAgree(guess: string, solution: string)
    requires |guess| == |solution| && Trim(solution) == solution
    ensures ClientWins(guess, solution) <==> ServerWins(guess, solution)
  {
    WinIsEquality(Upper(guess), Upper(solution));
    TrimShape(guess);
    CaseAgrees(guess, solution);
    assert |Upper(solution)| == |solution|;
    if Lower(Trim(guess)) == Lower(Trim(solution)) {
      LowerLength(Trim(guess), Trim(solution));
    }
    if Upper(guess) == Upper(solution) && solution != [] {
      UpperKeepsTrimmed(guess, solution);
    }
  }

  lemma UpperKeepsTrimmed(guess: string, solution: string)
    requires Upper(guess) == Upper(solution) && |guess| == |solution| > 0 && Trim(solution) == solution
    ensures Trim(guess) == guess
  {
    TrimShape(solution);
    TrimShape(guess);
    assert Upper(guess)[0] == Upper(solution)[0];
    assert Upper(guess)[|guess| - 1] == Upper(solution)[|guess| - 1];
  }

  function OtherSpace(c: char): char {
    if c == ' ' then '\t' else ' '
  }

  lemma UntrimmedDisagree(solution: string)
    requires Trim(solution) != solution
    ensures exists g :: |g| == |solution| && ClientWins(g, solution) != ServerWins(g, solution)
  {
    TrimShape(solution);
    var n := |solution| - 1;
    if Trim(solution) == [] {
      WinIsEquality(Upper(solution), Upper(solution));
      assert |Upper(solution)| == |solution|;
      assert ClientWins(solution, solution) && !ServerWins(solution, solution);
    } else {
      var at := if IsSpace(solution[0]) then 0 else n;
      var g := solution[at := OtherSpace(solution[at])];
      WinIsEquality(Upper(g), Upper(solution));
      assert Upper(g)[at] != Upper(solution)[at];
      if at == 0 {
        assert g[1..] == solution[1..];
      } else {
        TrimLeftShape(g);
        TrimLeftShape(solution);
        assert g[..n] == solution[..n];
      }
      assert Trim(g) == Trim(solution);
      assert !ClientWins(g, solution) && ServerWins(g, solution);
    }
  }

  /** Client and server call the same guesses of the right length winning exactly when the
      solution carries no surrounding white space. */
  lemma WinsAgreeExactly(solution: string)
    ensures (forall g :: |g| == |solution| ==> (ClientWins(g, solution) <==> ServerWins(g, solution)))
            <==> Trim(solution) == solution
  {
    if Trim(solution) == solution {
      forall g | |g| == |solution| ensures ClientWins(g, solution) <==> ServerWins(g, solution) {
        WinsAgree(g, solution);
      }
    } else {
      UntrimmedDisagree(solution);
    }
  }
}
