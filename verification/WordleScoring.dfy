/**
 Per-guess feedback of the client (client/web/src/games/wordle/scoring.js). Strings are ASCII,
 where changing case is letter by letter.
 */
module WordleScoring {
  import opened Common

  datatype Eval = Hit | Present | Miss

  const MAX_GUESSES: nat := 6

  function UpperChar(c: char): char {
    if 'a' <= c <= 'z' then (c as int - 32) as char else c
  }

  function LowerChar(c: char): char {
    if 'A' <= c <= 'Z' then (c as int + 32) as char else c
  }

  function Upper(s: string): string {
    seq(|s|, i requires 0 <= i < |s| => UpperChar(s[i]))
  }

  function Lower(s: string): string {
    seq(|s|, i requires 0 <= i < |s| => LowerChar(s[i]))
  }

  // ----- what feedback means

  /** How many of the first `n` positions are not hits and carry `c` in the word `x`. */
  function Unmatched(x: string, g: string, s: string, n: nat, c: char): nat
    requires |x| == |g| == |s| && n <= |g|
  {
    if n == 0 then 0
    else Unmatched(x, g, s, n - 1, c) + if g[n - 1] != s[n - 1] && x[n - 1] == c then 1 else 0
  }

  /** Hit: the letters match. Present: not a hit, and fewer earlier non-hit positions of the
      guess carry that letter than non-hit positions of the solution do. */
  function EvalAt(g: string, s: string, i: nat): Eval
    requires |g| == |s| && i < |g|
  {
    if g[i] == s[i] then Hit
    else if Unmatched(g, g, s, i, g[i]) < Unmatched(s, g, s, |g|, g[i]) then Present
    else Miss
  }

  function Feedback(g: string, s: string): seq<Eval>
    requires |g| == |s|
  {
    seq(|g|, i requires 0 <= i < |g| => EvalAt(g, s, i))
  }

  function Get(m: map<char, int>, c: char): int {
    if c in m then m[c] else 0
  }

  function HitOrMiss(g: string, s: string, k: nat): Eval
    requires k < |g| && k < |s|
  {
    if g[k] == s[k] then Hit else Miss
  }

  /** First pass: hits are placed, the other letters of the solution are counted. */
  method PlaceHits(g: string, s: string) returns (out: array<Eval>, remaining: map<char, int>)
    requires |g| == |s|
    ensures fresh(out) && out.Length == |g|
    ensures forall k :: 0 <= k < |g| ==> out[k] == HitOrMiss(g, s, k)
    ensures forall c :: Get(remaining, c) == Unmatched(s, g, s, |g|, c)
  {
    out := new Eval[|g|](_ => Miss);
    remaining := map[];
    for i := 0 to |g|
      invariant forall k :: 0 <= k < |g| ==> out[k] == if k < i then HitOrMiss(g, s, k) else Miss
      invariant forall c :: Get(remaining, c) == Unmatched(s, g, s, i, c)
    {
      if g[i] == s[i] {
        out[i] := Hit;
      } else {
        remaining := remaining[s[i] := Get(remaining, s[i]) + 1];
      }
    }
  }

  /** Second pass: each other letter takes one of the counted ones, if any is left. */
  method PlacePresents(g: string, s: string, out: array<Eval>, counted: map<char, int>)
    requires |g| == |s| == out.Length
    requires forall k :: 0 <= k < |g| ==> out[k] == HitOrMiss(g, s, k)
    requires forall c :: Get(counted, c) == Unmatched(s, g, s, |g|, c)
    modifies out
    ensures out[..] == Feedback(g, s)
  {
    var remaining := counted;
    for i := 0 to |g|
      invariant forall k :: 0 <= k < |g| ==> out[k] == if k < i then EvalAt(g, s, k) else HitOrMiss(g, s, k)
      invariant forall c :: Get(remaining, c) == Minus(Unmatched(s, g, s, |g|, c), Unmatched(g, g, s, i, c))
    {
      if out[i] != Hit {
        var c := g[i];
        if Get(remaining, c) > 0 {
          out[i] := Present;
          remaining := remaining[c := remaining[c] - 1];
        }
      }
    }
  }

  /** The error is the length mismatch. */
  method EvaluateGuess(guess: string, solution: string) returns (r: Result<seq<Eval>, (nat, nat)>)
    ensures r == if |guess| != |solution| then Err((|guess|, |solution|))
                 else Ok(Feedback(Upper(guess), Upper(solution)))
  {
    var g, s := Upper(guess), Upper(solution);
    if |g| != |s| {
      return Err((|g|, |s|));
    }
    var out, remaining := PlaceHits(g, s);
    PlacePresents(g, s, out, remaining);
    return Ok(out[..]);
  }

  function Minus(a: nat, b: nat): nat {
    if a > b then a - b else 0
  }

  // ----- what feedback tells

  /** Positions among the first `n` with letter `c` and a mark other than Miss. */
  function Marked(g: string, s: string, n: nat, c: char): nat
    requires |g| == |s| && n <= |g|
  {
    if n == 0 then 0
    else Marked(g, s, n - 1, c) + if g[n - 1] == c && EvalAt(g, s, n - 1) != Miss then 1 else 0
  }

  function Hits(g: string, s: string, n: nat, c: char): nat
    requires |g| == |s| && n <= |g|
  {
    if n == 0 then 0 else Hits(g, s, n - 1, c) + if g[n - 1] == s[n - 1] == c then 1 else 0
  }

  function Min(a: nat, b: nat): nat {
    if a < b then a else b
  }

  lemma {:induction false} MarkedPrefix(g: string, s: string, n: nat, c: char)
    requires |g| == |s| && n <= |g|
    ensures Marked(g, s, n, c) == Hits(g, s, n, c) + Min(Unmatched(g, g, s, n, c), Unmatched(s, g, s, |g|, c))
  {
    if n > 0 {
      MarkedPrefix(g, s, n - 1, c);
    }
  }

  lemma {:induction false} CountSplits(x: string, g: string, s: string, n: nat, c: char)
    requires |g| == |s| && n <= |g| && (x == g || x == s)
    ensures multiset(x[..n])[c] == Hits(g, s, n, c) + Unmatched(x, g, s, n, c)
  {
    if n > 0 {
      CountSplits(x, g, s, n - 1, c);
      assert x[..n] == x[..n - 1] + [x[n - 1]];
    }
  }

  /** For each letter, hits plus presents equals the smaller of its counts in guess and solution. */
  lemma MarksAreSharedLetters(g: string, s: string, c: char)
    requires |g| == |s|
    ensures Marked(g, s, |g|, c) == Min(multiset(g)[c], multiset(s)[c])
  {
    MarkedPrefix(g, s, |g|, c);
    CountSplits(g, g, s, |g|, c);
    CountSplits(s, g, s, |g|, c);
    assert g[..|g|] == g && s[..|s|] == s;
  }

  /** The letters of the guess that are not marked Miss, in order. */
  function MarkedLetters(g: string, s: string, n: nat): string
    requires |g| == |s| && n <= |g|
  {
    if n == 0 then []
    else if EvalAt(g, s, n - 1) != Miss then MarkedLetters(g, s, n - 1) + [g[n - 1]]
    else MarkedLetters(g, s, n - 1)
  }

  lemma CountSnoc(s: string, x: char, c: char)
    ensures multiset(s + [x])[c] == multiset(s)[c] + if x == c then 1 else 0
  {
  }

  lemma {:induction false} MarkedLettersCount(g: string, s: string, n: nat, c: char)
    requires |g| == |s| && n <= |g|
    ensures multiset(MarkedLetters(g, s, n))[c] == Marked(g, s, n, c)
  {
    if n > 0 {
      MarkedLettersCount(g, s, n - 1, c);
      if EvalAt(g, s, n - 1) != Miss {
        CountSnoc(MarkedLetters(g, s, n - 1), g[n - 1], c);
      }
    }
  }

  lemma MarkedIsShared(g: string, s: string)
    requires |g| == |s|
    ensures multiset(MarkedLetters(g, s, |g|)) == multiset(g) * multiset(s)
  {
    forall c ensures multiset(MarkedLetters(g, s, |g|))[c] == Min(multiset(g)[c], multiset(s)[c]) {
      MarkedLettersCount(g, s, |g|, c);
      MarksAreSharedLetters(g, s, c);
    }
  }

  /** The marked letters are the multiset intersection of the two words; so their number is
      the same when guess and solution change places. */
  lemma MarkedIsIntersection(g: string, s: string)
    requires |g| == |s|
    ensures multiset(MarkedLetters(g, s, |g|)) == multiset(g) * multiset(s)
    ensures |MarkedLetters(g, s, |g|)| == |MarkedLetters(s, g, |g|)|
  {
    MarkedIsShared(g, s);
    MarkedIsShared(s, g);
    assert multiset(g) * multiset(s) == multiset(s) * multiset(g);
    assert |MarkedLetters(g, s, |g|)| == |multiset(MarkedLetters(g, s, |g|))|;
  }

  lemma {:induction false} UnmatchedGrows(x: string, g: string, s: string, i: nat, j: nat, c: char)
    requires |x| == |g| == |s| && i <= j <= |g|
    ensures Unmatched(x, g, s, i, c) <= Unmatched(x, g, s, j, c)
  {
    if i < j {
      UnmatchedGrows(x, g, s, i, j - 1, c);
    }
  }

  /** Of equal letters that are not hits the earlier ones are marked first. */
  lemma PresentsComeFirst(g: string, s: string, i: nat, j: nat)
    requires |g| == |s| && i < j < |g| && g[i] == g[j] && g[i] != s[i]
    ensures Feedback(g, s)[j] == Present ==> Feedback(g, s)[i] == Present
    ensures Feedback(g, s)[i] == Miss && g[j] != s[j] ==> Feedback(g, s)[j] == Miss
  {
    UnmatchedGrows(g, g, s, i, j, g[i]);
  }

  predicate IsWin(ev: seq<Eval>) {
    |ev| > 0 && forall i :: 0 <= i < |ev| ==> ev[i] == Hit
  }

  /** All hits exactly when the words are equal. */
  lemma WinIsEquality(g: string, s: string)
    requires |g| == |s|
    ensures IsWin(Feedback(g, s)) <==> g == s && s != []
  {
    if IsWin(Feedback(g, s)) {
      forall i | 0 <= i < |g| ensures g[i] == s[i] {
        assert Feedback(g, s)[i] == Hit;
      }
    }
  }

  lemma {:induction false} NoOtherUnmatched(g: string, s: string, i: nat, n: nat)
    requires |g| == |s| && i < |g| && n <= |g| && g[i] != s[i]
    requires forall k :: 0 <= k < |g| && k != i ==> g[k] == s[k]
    ensures Unmatched(s, g, s, n, g[i]) == 0
  {
    if n > 0 {
      NoOtherUnmatched(g, s, i, n - 1);
    }
  }

  /** One letter short of a win is never marked Present: it is a Miss. */
  lemma LastLetterIsMiss(g: string, s: string, i: nat)
    requires |g| == |s| && i < |g|
    requires forall k :: 0 <= k < |g| && k != i ==> Feedback(g, s)[k] == Hit
    ensures Feedback(g, s)[i] != Present
  {
    forall k | 0 <= k < |g| && k != i ensures g[k] == s[k] {
      assert Feedback(g, s)[k] == Hit;
    }
    if g[i] != s[i] {
      NoOtherUnmatched(g, s, i, |g|);
    }
  }

  /** A letter is marked Miss everywhere in the guess exactly when the solution lacks it. */
  lemma GreyExactly(g: string, s: string, c: char)
    requires |g| == |s| && c in g
    ensures (forall i :: 0 <= i < |g| && g[i] == c ==> EvalAt(g, s, i) == Miss) <==> c !in s
  {
    MarksAreSharedLetters(g, s, c);
    assert c in multiset(g) && (c in s <==> c in multiset(s));
    MarkedZero(g, s, |g|, c);
  }

  lemma {:induction false} MarkedZero(g: string, s: string, n: nat, c: char)
    requires |g| == |s| && n <= |g|
    ensures Marked(g, s, n, c) == 0 <==> forall i :: 0 <= i < n && g[i] == c ==> EvalAt(g, s, i) == Miss
  {
    if n > 0 {
      MarkedZero(g, s, n - 1, c);
    }
  }
}
