/** Leaderboards: keep-the-maximum submissions and the canonical top-N list. */
module Boards {
  import opened Common
  import opened Lex

  datatype Rank = Rank(uid: string, score: int)
  datatype Submission = Submission(board: string, uid: string, score: int)

  type Board = map<string, int>           // uid -> score
  type BoardMap = map<string, Board>      // board key -> board

  /** Only a strictly higher score replaces the stored one. */
  function Raise(b: Board, uid: string, score: int): Board {
    if uid in b && b[uid] >= score then b else b[uid := score]
  }

  function BoardOf(bs: BoardMap, board: string): Board {
    if board in bs then bs[board] else map[]
  }

  function Submit(bs: BoardMap, x: Submission): BoardMap {
    bs[x.board := Raise(BoardOf(bs, x.board), x.uid, x.score)]
  }

  function SubmitAll(xs: seq<Submission>): BoardMap {
    if xs == [] then map[] else Submit(SubmitAll(xs[..|xs| - 1]), xs[|xs| - 1])
  }

  // ----- a run of submissions is a pointwise maximum

  ghost predicate IsBest(xs: seq<Submission>, board: string, uid: string, score: int) {
    && Submission(board, uid, score) in xs
    && forall x :: x in xs && x.board == board && x.uid == uid ==> x.score <= score
  }

  /** A board exists once something was submitted to it; it lists exactly the submitting
      uids, each with the maximum of its scores. */
  lemma {:induction false} BoardsHoldTheBest(xs: seq<Submission>, board: string)
    ensures forall x :: x in xs && x.board == board ==> board in SubmitAll(xs) && x.uid in SubmitAll(xs)[board]
    ensures board in SubmitAll(xs) ==> SubmitAll(xs)[board] != map[]
    ensures forall uid :: uid in BoardOf(SubmitAll(xs), board) ==>
              IsBest(xs, board, uid, SubmitAll(xs)[board][uid])
  {
    if xs != [] {
      var n := |xs| - 1;
      var before, last := xs[..n], xs[n];
      assert xs == before + [last];
      BoardsHoldTheBest(before, board);
      assert last.uid in SubmitAll(xs)[last.board];
      forall uid | uid in BoardOf(SubmitAll(xs), board)
        ensures IsBest(xs, board, uid, SubmitAll(xs)[board][uid])
      {
        if uid in BoardOf(SubmitAll(before), board) {
          assert IsBest(before, board, uid, SubmitAll(before)[board][uid]);
        }
      }
    }
  }

  lemma EmptyBoardExactly(xs: seq<Submission>, board: string)
    ensures BoardOf(SubmitAll(xs), board) == map[] <==> forall x :: x in xs ==> x.board != board
  {
    BoardsHoldTheBest(xs, board);
    var b := BoardOf(SubmitAll(xs), board);
    if b != map[] {
      var uid :| uid in b;
      assert IsBest(xs, board, uid, b[uid]);
    }
  }

  lemma BestIsSame(xs: seq<Submission>, ys: seq<Submission>, board: string, uid: string)
    requires forall x :: x in xs <==> x in ys
    requires uid in BoardOf(SubmitAll(xs), board)
    ensures uid in BoardOf(SubmitAll(ys), board)
    ensures BoardOf(SubmitAll(xs), board)[uid] == BoardOf(SubmitAll(ys), board)[uid]
  {
    BoardsHoldTheBest(xs, board);
    BoardsHoldTheBest(ys, board);
    var s := BoardOf(SubmitAll(xs), board)[uid];
    assert IsBest(xs, board, uid, s);
    assert Submission(board, uid, s) in ys;
    assert IsBest(ys, board, uid, BoardOf(SubmitAll(ys), board)[uid]);
  }

  lemma SameBoard(xs: seq<Submission>, ys: seq<Submission>, board: string)
    requires forall x :: x in xs <==> x in ys
    ensures BoardOf(SubmitAll(xs), board) == BoardOf(SubmitAll(ys), board)
  {
    var a, b := BoardOf(SubmitAll(xs), board), BoardOf(SubmitAll(ys), board);
    forall uid | uid in a ensures uid in b && a[uid] == b[uid] {
      BestIsSame(xs, ys, board, uid);
    }
    forall uid | uid in b ensures uid in a {
      BestIsSame(ys, xs, board, uid);
    }
    assert a.Keys == b.Keys;
  }

  /** The boards depend only on which submissions were made, not on their order or number. */
  lemma BoardsForgetOrder(xs: seq<Submission>, ys: seq<Submission>)
    requires forall x :: x in xs <==> x in ys
    ensures SubmitAll(xs) == SubmitAll(ys)
  {
    forall board
      ensures board in SubmitAll(xs) <==> board in SubmitAll(ys)
      ensures BoardOf(SubmitAll(xs), board) == BoardOf(SubmitAll(ys), board)
    {
      BoardsHoldTheBest(xs, board);
      BoardsHoldTheBest(ys, board);
      SameBoard(xs, ys, board);
    }
    forall board | board in SubmitAll(xs) ensures SubmitAll(xs)[board] == SubmitAll(ys)[board] {
      assert BoardOf(SubmitAll(xs), board) == BoardOf(SubmitAll(ys), board);
    }
  }

  // ----- the order of a board

  /** Higher scores first; equal scores by uid. */
  predicate Before(a: Rank, b: Rank) {
    a.score > b.score || (a.score == b.score && LexLess(Codes(a.uid), Codes(b.uid)))
  }

  lemma BeforeTotal(a: Rank, b: Rank)
    ensures a == b || Before(a, b) || Before(b, a)
    ensures !(Before(a, b) && Before(b, a))
    ensures a == b ==> !Before(a, b)
  {
    LexTotal(Codes(a.uid), Codes(b.uid));
    if Codes(a.uid) == Codes(b.uid) {
      CodesInjective(a.uid, b.uid);
    }
  }

  lemma BeforeTransitive(a: Rank, b: Rank, c: Rank)
    requires Before(a, b) && Before(b, c)
    ensures Before(a, c)
  {
    if a.score == b.score && b.score == c.score {
      LexTransitive(Codes(a.uid), Codes(b.uid), Codes(c.uid));
    }
  }

  /** `u` is the beginning of `w`, or has the smaller character where they first differ. */
  ghost predicate ComesFirst(u: string, w: string) {
    exists k :: 0 <= k <= |u| && k < |w| && u[..k] == w[..k] && (k == |u| || u[k] < w[k])
  }

  lemma BeforeIsByScoreThenUid(a: Rank, b: Rank)
    ensures Before(a, b) <==> a.score > b.score || (a.score == b.score && ComesFirst(a.uid, b.uid))
  {
    var u, w := Codes(a.uid), Codes(b.uid);
    LexLessExactly(u, w);
    forall k | 0 <= k <= |u| && k < |w| ensures u[..k] == w[..k] <==> a.uid[..k] == b.uid[..k] {
      assert u[..k] == Codes(a.uid[..k]) && w[..k] == Codes(b.uid[..k]);
      if u[..k] == w[..k] {
        CodesInjective(a.uid[..k], b.uid[..k]);
      }
    }
    if LexLess(u, w) {
      var k :| 0 <= k <= |u| && k < |w| && u[..k] == w[..k] && (k == |u| || u[k] < w[k]);
      assert a.uid[..k] == b.uid[..k];
    }
    if ComesFirst(a.uid, b.uid) {
      var k :| 0 <= k <= |a.uid| && k < |b.uid| && a.uid[..k] == b.uid[..k] && (k == |a.uid| || a.uid[k] < b.uid[k]);
      assert u[..k] == w[..k];
    }
  }

  ghost predicate StrictlyOrdered(s: seq<Rank>) {
    forall i, j :: 0 <= i < j < |s| ==> Before(s[i], s[j])
  }

  /** `sort.Slice` with that order. */
  function InsertRank(r: Rank, s: seq<Rank>): seq<Rank> {
    if s == [] || Before(r, s[0]) then [r] + s else [s[0]] + InsertRank(r, s[1..])
  }

  function SortRanks(s: seq<Rank>): seq<Rank> {
    if s == [] then [] else InsertRank(s[0], SortRanks(s[1..]))
  }

  lemma {:induction false} InsertRankIsSorted(r: Rank, s: seq<Rank>)
    requires StrictlyOrdered(s) && r !in s
    ensures StrictlyOrdered(InsertRank(r, s))
    ensures multiset(InsertRank(r, s)) == multiset(s) + multiset{r}
    ensures |InsertRank(r, s)| == |s| + 1
  {
    if s == [] {
    } else if Before(r, s[0]) {
      forall j | 0 <= j < |s| ensures Before(r, s[j]) {
        if j > 0 {
          BeforeTransitive(r, s[0], s[j]);
        }
      }
    } else {
      var rest := InsertRank(r, s[1..]);
      InsertRankIsSorted(r, s[1..]);
      assert s == [s[0]] + s[1..];
      forall j | 0 <= j < |rest| ensures Before(s[0], rest[j]) {
        assert rest[j] in multiset(rest);
        BeforeTotal(r, s[0]);
        if rest[j] != r {
          assert rest[j] in s[1..];
        }
      }
    }
  }

  lemma {:induction false} SortRanksSorts(s: seq<Rank>)
    requires Distinct(s)
    ensures StrictlyOrdered(SortRanks(s))
    ensures multiset(SortRanks(s)) == multiset(s)
    ensures |SortRanks(s)| == |s|
  {
    if s != [] {
      SortRanksSorts(s[1..]);
      assert s == [s[0]] + s[1..];
      assert s[0] !in s[1..];
      assert s[0] !in multiset(SortRanks(s[1..]));
      InsertRankIsSorted(s[0], SortRanks(s[1..]));
    }
  }

  // ----- the top-N list

  ghost predicate Lists(b: Board, out: seq<Rank>) {
    forall r :: r in out ==> r.uid in b && b[r.uid] == r.score
  }

  function Cut(b: Board, n: int): nat {
    if n > 0 && |b| > n then n else |b|
  }

  /** `out` is strictly ordered, has the right length, and every omitted row is below every kept one. */
  ghost predicate IsTop(b: Board, n: int, out: seq<Rank>) {
    && StrictlyOrdered(out) && Lists(b, out) && |out| == Cut(b, n)
    && forall uid, r :: uid in b && Rank(uid, b[uid]) !in out && r in out ==> Before(r, Rank(uid, b[uid]))
  }

  lemma {:induction false} TopAgrees(b: Board, n: int, m: int, out: seq<Rank>, long: seq<Rank>, i: nat)
    requires IsTop(b, n, out) && IsTop(b, m, long) && i < |out| && i < |long|
    ensures out[i] == long[i]
    decreases i
  {
    forall k | 0 <= k < i ensures out[k] == long[k] {
      TopAgrees(b, n, m, out, long, k);
    }
    BeforeTotal(out[i], long[i]);
    if Before(out[i], long[i]) {
      NotEarlier(b, m, out, long, i);
    } else if Before(long[i], out[i]) {
      NotEarlier(b, n, long, out, i);
    }
  }

  lemma NotEarlier(b: Board, m: int, out: seq<Rank>, long: seq<Rank>, i: nat)
    requires Lists(b, out) && StrictlyOrdered(out) && IsTop(b, m, long) && i < |out| && i < |long|
    requires forall k :: 0 <= k < i ==> out[k] == long[k]
    ensures !Before(out[i], long[i])
  {
    var r := out[i];
    assert r == Rank(r.uid, b[r.uid]);
    BeforeTotal(r, long[i]);
    if r in long {
      var j :| 0 <= j < |long| && long[j] == r;
      if j < i {
        assert Before(out[j], out[i]);
        BeforeTotal(out[j], out[i]);
      }
    } else {
      assert long[i] in long;
    }
  }

  /** The top-N list is unique, and a shorter one is a prefix of a longer one. */
  lemma TopIsCanonical(b: Board, n: int, m: int, out: seq<Rank>, long: seq<Rank>)
    requires IsTop(b, n, out) && IsTop(b, m, long)
    ensures n == m ==> out == long
    ensures 0 < n <= m ==> out <= long
  {
    forall i | 0 <= i < |out| && i < |long| ensures out[i] == long[i] {
      TopAgrees(b, n, m, out, long, i);
    }
    assert 0 < n <= m ==> out == long[..|out|];
  }

  /** The list spelled out. */
  lemma TopIsByScoreThenUid(b: Board, n: int, out: seq<Rank>)
    requires IsTop(b, n, out)
    ensures |out| == if n > 0 && n < |b| then n else |b|
    ensures forall x :: x in out ==> x.uid in b && b[x.uid] == x.score
    ensures forall i, j :: 0 <= i < j < |out| ==>
              out[i].score > out[j].score || (out[i].score == out[j].score && ComesFirst(out[i].uid, out[j].uid))
  {
    forall i, j | 0 <= i < j < |out|
      ensures out[i].score > out[j].score || (out[i].score == out[j].score && ComesFirst(out[i].uid, out[j].uid))
    {
      BeforeIsByScoreThenUid(out[i], out[j]);
    }
  }

  // ----- a list ordered by score alone

  /** What a store that sorts by score only may return: ties in any order. */
  ghost predicate IsScoreTop(b: Board, n: int, out: seq<Rank>) {
    && (forall i, j :: 0 <= i < j < |out| ==> out[i].score >= out[j].score && out[i].uid != out[j].uid)
    && Lists(b, out) && |out| == Cut(b, n)
    && forall uid, r :: uid in b && Rank(uid, b[uid]) !in out && r in out ==> r.score >= b[uid]
  }

  lemma TopIsScoreTop(b: Board, n: int, out: seq<Rank>)
    requires IsTop(b, n, out)
    ensures IsScoreTop(b, n, out)
  {
    forall i, j | 0 <= i < j < |out| ensures out[i].uid != out[j].uid {
      assert out[i] in out && out[j] in out;
      BeforeTotal(out[i], out[j]);
    }
  }

  ghost function Uids(s: seq<Rank>): set<string> {
    set r | r in s :: r.uid
  }

  lemma {:induction false} UidsCount(s: seq<Rank>)
    requires forall i, j :: 0 <= i < j < |s| ==> s[i].uid != s[j].uid
    ensures |Uids(s)| == |s|
  {
    if s != [] {
      var n := |s| - 1;
      UidsCount(s[..n]);
      assert s == s[..n] + [s[n]];
      assert Uids(s) == Uids(s[..n]) + {s[n].uid};
    }
  }

  lemma HigherIsListed(b: Board, n: int, r: Rank, ys: seq<Rank>, i: nat)
    requires IsScoreTop(b, n, ys) && i < |ys|
    requires r.uid in b && b[r.uid] == r.score && r.score > ys[i].score
    ensures r.uid in Uids(ys[..i])
  {
    assert ys[i] in ys;
    assert r == Rank(r.uid, b[r.uid]) && r in ys;
    var j :| 0 <= j < |ys| && ys[j] == r;
    assert j < i && ys[j] in ys[..i];
  }

  lemma HigherAreListed(b: Board, n: int, xs: seq<Rank>, ys: seq<Rank>, i: nat)
    requires IsScoreTop(b, n, xs) && IsScoreTop(b, n, ys) && i < |xs| && i < |ys|
    requires xs[i].score > ys[i].score
    ensures Uids(xs[..i + 1]) <= Uids(ys[..i])
  {
    forall u | u in Uids(xs[..i + 1]) ensures u in Uids(ys[..i]) {
      var k :| 0 <= k <= i && xs[k].uid == u;
      assert xs[k] in xs;
      HigherIsListed(b, n, xs[k], ys, i);
    }
  }

  lemma NoHigherScore(b: Board, n: int, xs: seq<Rank>, ys: seq<Rank>, i: nat)
    requires IsScoreTop(b, n, xs) && IsScoreTop(b, n, ys) && i < |xs| && i < |ys|
    ensures xs[i].score <= ys[i].score
  {
    if xs[i].score > ys[i].score {
      HigherAreListed(b, n, xs, ys, i);
      CardinalityOfSubset(Uids(xs[..i + 1]), Uids(ys[..i]));
      UidsCount(xs[..i + 1]);
      UidsCount(ys[..i]);
    }
  }

  lemma {:induction false} CardinalityOfSubset(a: set<string>, b: set<string>)
    requires a <= b
    ensures |a| <= |b|
  {
    if a != {} {
      var x :| x in a;
      CardinalityOfSubset(a - {x}, b - {x});
    }
  }

  /** Sorting by score alone returns the same score sequence as the canonical list. */
  lemma ScoresAreCanonical(b: Board, n: int, xs: seq<Rank>, ys: seq<Rank>)
    requires IsTop(b, n, xs) && IsScoreTop(b, n, ys)
    ensures |xs| == |ys| && forall i :: 0 <= i < |xs| ==> xs[i].score == ys[i].score
  {
    TopIsScoreTop(b, n, xs);
    forall i | 0 <= i < |xs| ensures xs[i].score == ys[i].score {
      NoHigherScore(b, n, xs, ys, i);
      NoHigherScore(b, n, ys, xs, i);
    }
  }
}
