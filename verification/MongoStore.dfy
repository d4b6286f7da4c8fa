/**
 The MongoDB store (server/internal/store/mongodb): documents as field maps, the update
 operators the calls name, and the TTL indexes.
 */
module MongoStores {
  import opened Common
  import opened Boards
  import Ttl

  datatype Bson = Binary(bytes: seq<int>) | Date(millis: int)

  type Doc = map<string, Bson>
  type Collection = map<string, Doc>      // _id -> document

  /** updateOne({_id}, {$set, $unset}, upsert). */
  function UpdateOne(coll: Collection, id: string, fields: Doc, unset: set<string>): Collection {
    var doc := if id in coll then coll[id] else map[];
    coll[id := (doc - unset) + fields]
  }

  function DateOf(t: int): Bson {
    Date(Ttl.Millis(t))
  }

  /** Documents carry the field types the store itself writes. */
  ghost predicate WellTyped(coll: Collection) {
    forall id :: id in coll ==>
      && ("val" in coll[id] ==> coll[id]["val"].Binary?)
      && ("expireAt" in coll[id] ==> coll[id]["expireAt"].Date?)
  }

  /** What MarkOnline writes and nothing else: an expiry and no value. */
  ghost predicate PresenceDocs(coll: Collection) {
    WellTyped(coll) && forall id :: id in coll ==> "val" !in coll[id] && "expireAt" in coll[id]
  }

  /** A document as an entry: its value and its expiry. */
  function EntryOf(doc: Doc): Ttl.Entry {
    Ttl.Entry(
      if "val" in doc && doc["val"].Binary? then doc["val"].bytes else [],
      if "expireAt" in doc && doc["expireAt"].Date? then Some(doc["expireAt"].millis * Ttl.NANOS_PER_MILLI) else None)
  }

  function View(coll: Collection): Ttl.Store {
    map id | id in coll :: EntryOf(coll[id])
  }

  datatype BoardUid = BoardUid(board: string, uid: string)

  /** One board as the (board, uid) documents show it. */
  function BoardIn(scores: map<BoardUid, int>, board: string): Board {
    map k | k in scores && k.board == board :: k.uid := scores[k]
  }

  /** updateOne({board, uid}, {$max: {score}}, upsert). */
  function MaxUpsert(scores: map<BoardUid, int>, k: BoardUid, score: int): map<BoardUid, int> {
    scores[k := if k in scores && scores[k] > score then scores[k] else score]
  }

  /** `$max` upsert is the compare-and-set of the in-memory store, board by board. */
  lemma MaxUpsertIsRaise(scores: map<BoardUid, int>, x: Submission, board: string)
    ensures BoardIn(MaxUpsert(scores, BoardUid(x.board, x.uid), x.score), board)
         == if board == x.board then Raise(BoardIn(scores, board), x.uid, x.score) else BoardIn(scores, board)
  {
    var k := BoardUid(x.board, x.uid);
    var after := BoardIn(MaxUpsert(scores, k, x.score), board);
    forall uid ensures uid in after <==> BoardUid(board, uid) in MaxUpsert(scores, k, x.score) {
    }
    forall uid ensures uid in BoardIn(scores, board) <==> BoardUid(board, uid) in scores {
    }
    forall uid | uid in after ensures after[uid] == MaxUpsert(scores, k, x.score)[BoardUid(board, uid)] {
    }
  }

  function MaxUpsertAll(xs: seq<Submission>): map<BoardUid, int> {
    if xs == [] then map[]
    else
      var last := xs[|xs| - 1];
      MaxUpsert(MaxUpsertAll(xs[..|xs| - 1]), BoardUid(last.board, last.uid), last.score)
  }

  /** After the same submissions both stores hold the same boards. */
  lemma {:induction false} StoresHoldSameBoards(xs: seq<Submission>, board: string)
    ensures BoardIn(MaxUpsertAll(xs), board) == BoardOf(SubmitAll(xs), board)
  {
    if xs != [] {
      var n := |xs| - 1;
      StoresHoldSameBoards(xs[..n], board);
      MaxUpsertIsRaise(MaxUpsertAll(xs[..n]), xs[n], board);
    }
  }

  /** Over the same submissions, whatever order ties come in, the two stores return the same
      score sequence; for n <= 0 they do so exactly on an empty board, because memstore then
      returns every row and MongoDB none. */
  lemma TopScoresAgree(xs: seq<Submission>, board: string, n: int, mem: seq<Rank>, mongo: seq<Rank>)
    requires IsTop(BoardOf(SubmitAll(xs), board), n, mem)
    requires if n > 0 then IsScoreTop(BoardIn(MaxUpsertAll(xs), board), n, mongo) else mongo == []
    ensures (|mem| == |mongo| && forall i :: 0 <= i < |mem| ==> mem[i].score == mongo[i].score)
            <==> n > 0 || forall x :: x in xs ==> x.board != board
  {
    var b := BoardOf(SubmitAll(xs), board);
    StoresHoldSameBoards(xs, board);
    EmptyBoardExactly(xs, board);
    if n > 0 {
      ScoresAreCanonical(b, n, mem, mongo);
    }
  }

  function InsertByScore(r: Rank, s: seq<Rank>): seq<Rank> {
    if s == [] || r.score >= s[0].score then [r] + s else [s[0]] + InsertByScore(r, s[1..])
  }

  /** The server's sort: by score, ties as the documents happen to come. */
  function SortByScore(s: seq<Rank>): seq<Rank> {
    if s == [] then [] else InsertByScore(s[0], SortByScore(s[1..]))
  }

  ghost predicate ScoreOrdered(s: seq<Rank>) {
    forall i, j :: 0 <= i < j < |s| ==> s[i].score >= s[j].score && s[i].uid != s[j].uid
  }

  lemma {:induction false} InsertByScoreSorts(r: Rank, s: seq<Rank>)
    requires ScoreOrdered(s) && forall x :: x in s ==> x.uid != r.uid
    ensures ScoreOrdered(InsertByScore(r, s)) && |InsertByScore(r, s)| == |s| + 1
    ensures forall x :: x in InsertByScore(r, s) <==> x == r || x in s
  {
    if s != [] && r.score < s[0].score {
      var rest := InsertByScore(r, s[1..]);
      assert s == [s[0]] + s[1..];
      InsertByScoreSorts(r, s[1..]);
      forall j | 0 <= j < |rest| ensures s[0].score >= rest[j].score && s[0].uid != rest[j].uid {
        assert rest[j] == r || rest[j] in s[1..];
      }
    }
  }

  lemma {:induction false} SortByScoreSorts(s: seq<Rank>)
    requires forall i, j :: 0 <= i < j < |s| ==> s[i].uid != s[j].uid
    ensures ScoreOrdered(SortByScore(s)) && |SortByScore(s)| == |s|
    ensures forall x :: x in SortByScore(s) <==> x in s
  {
    if s != [] {
      SortByScoreSorts(s[1..]);
      assert s == [s[0]] + s[1..];
      InsertByScoreSorts(s[0], SortByScore(s[1..]));
    }
  }

  lemma CutKeepsScoreTop(b: Board, n: int, sorted: seq<Rank>)
    requires ScoreOrdered(sorted) && Lists(b, sorted) && |sorted| == |b| && n > 0
    requires forall uid :: uid in b ==> Rank(uid, b[uid]) in sorted
    ensures IsScoreTop(b, n, sorted[..Cut(b, n)])
  {
    var m := Cut(b, n);
    assert forall k :: 0 <= k < m ==> sorted[..m][k] == sorted[k];
    forall uid, r | uid in b && Rank(uid, b[uid]) !in sorted[..m] && r in sorted[..m] ensures r.score >= b[uid] {
      var i :| 0 <= i < |sorted| && sorted[i] == Rank(uid, b[uid]);
      var j :| 0 <= j < m && sorted[j] == r;
    }
  }

  /** Deletes the documents named by `victims` whose expireAt is not after `now`. */
  function Purged(coll: Collection, victims: set<string>, now: nat): (after: Collection)
    requires WellTyped(coll)
    ensures View(after) == Ttl.Apply(View(coll), Ttl.Event(now, Ttl.Purge(victims)), Ttl.MongoDead)
  {
    map id | id in coll
             && !(id in victims && "expireAt" in coll[id] && coll[id]["expireAt"].millis <= DateOf(now).millis)
           :: coll[id]
  }

  class MongoStore {
    var scores: map<BoardUid, int>     // leaderboards, unique on (board, uid)
    var presence: Collection
    var cache: Collection

    constructor ()
      ensures scores == map[] && presence == map[] && cache == map[]
    {
      scores, presence, cache := map[], map[], map[];
    }

    method SubmitScore(board: string, uid: string, score: int)
      modifies this`scores
      ensures forall k ::
                BoardIn(scores, k)
                == if k == board then Raise(BoardIn(old(scores), k), uid, score) else BoardIn(old(scores), k)
    {
      ghost var before := scores;
      scores := MaxUpsert(scores, BoardUid(board, uid), score);
      forall k
        ensures BoardIn(scores, k) == if k == board then Raise(BoardIn(before, k), uid, score) else BoardIn(before, k)
      {
        MaxUpsertIsRaise(before, Submission(board, uid, score), k);
      }
    }

    /** find({board}).sort({score: -1}).limit(n) */
    method FindByScore(board: string, n: int) returns (rows: seq<Rank>)
      requires n > 0
      ensures IsScoreTop(BoardIn(scores, board), n, rows)
    {
      var b := BoardIn(scores, board);
      var docs: seq<Rank> := [];
      var todo := b.Keys;
      while todo != {}
        invariant todo <= b.Keys && |docs| + |todo| == |b|
        invariant Lists(b, docs)
        invariant forall i, j :: 0 <= i < j < |docs| ==> docs[i].uid != docs[j].uid
        invariant forall uid :: uid in b ==> (uid in todo <==> Rank(uid, b[uid]) !in docs)
        invariant forall r :: r in docs ==> r.uid !in todo
      {
        var uid :| uid in todo;
        docs := docs + [Rank(uid, b[uid])];
        todo := todo - {uid};
      }
      SortByScoreSorts(docs);
      var sorted := SortByScore(docs);
      CutKeepsScoreTop(b, n, sorted);
      rows := sorted[..Cut(b, n)];
    }

    /** Nothing for n <= 0; else the cursor's rows, read one by one. */
    method TopN(board: string, n: int) returns (out: seq<Rank>)
      ensures if n <= 0 then out == [] else IsScoreTop(BoardIn(scores, board), n, out)
      ensures n > 0 ==> |out| == if n < |BoardIn(scores, board)| then n else |BoardIn(scores, board)|
      ensures forall i, j :: 0 <= i < j < |out| ==> out[i].score >= out[j].score && out[i].uid != out[j].uid
      ensures forall x :: x in out ==> BoardUid(board, x.uid) in scores && scores[BoardUid(board, x.uid)] == x.score
    {
      if n <= 0 {
        return [];
      }
      var cursor := FindByScore(board, n);
      out := [];
      for i := 0 to |cursor|
        invariant out == cursor[..i]
      {
        out := out + [cursor[i]];
      }
      assert cursor[..|cursor|] == cursor;
      forall x | x in out ensures BoardUid(board, x.uid) in scores && scores[BoardUid(board, x.uid)] == x.score {
        assert x.uid in BoardIn(scores, board) && BoardIn(scores, board)[x.uid] == x.score;
      }
    }

    method MarkOnline(uid: string, ttl: int, now: nat)
      requires PresenceDocs(presence)
      modifies this`presence
      ensures PresenceDocs(presence)
      ensures uid in presence && presence[uid]["expireAt"] == Date((now + ttl) / 1_000_000)
      ensures View(presence)
           == Ttl.Apply(View(old(presence)),
                        Ttl.Event(now, Ttl.Put(uid, Ttl.AsStored(Ttl.Entry([], Some(now + ttl))))), Ttl.MongoDead)
    {
      presence := UpdateOne(presence, uid, map["expireAt" := DateOf(now + ttl)], {});
    }

    /** countDocuments({_id, expireAt: {$gt: now}}) > 0 */
    method IsOnline(uid: string, now: nat) returns (online: bool)
      requires PresenceDocs(presence)
      ensures online <==> uid in presence && presence[uid]["expireAt"].millis > now / 1_000_000
      ensures online <==> Ttl.Read(View(presence), uid, now, Ttl.MongoDead).Some?
    {
      var n := if uid in presence && "expireAt" in presence[uid]
                  && presence[uid]["expireAt"].Date? && presence[uid]["expireAt"].millis > DateOf(now).millis
               then 1 else 0;
      return n > 0;
    }

    /** findOne({_id, $or: [expireAt > now, expireAt missing]}) */
    method CacheGet(key: string, now: nat) returns (r: Option<seq<int>>)
      requires WellTyped(cache)
      ensures r == match Ttl.Read(View(cache), key, now, Ttl.MongoDead) case None => None case Some(e) => Some(e.val)
    {
      if key in cache {
        var doc := cache[key];
        if "expireAt" !in doc || doc["expireAt"].millis > DateOf(now).millis {
          return Some(if "val" in doc then doc["val"].bytes else []);
        }
      }
      return None;
    }

    /** A key set without a ttl does not inherit an earlier expiry. */
    method CacheSet(key: string, val: seq<int>, ttl: int, now: nat)
      requires WellTyped(cache)
      modifies this`cache
      ensures WellTyped(cache)
      ensures key in cache && "val" in cache[key] && cache[key]["val"] == Binary(val)
      ensures "expireAt" in cache[key] <==> ttl > 0
      ensures ttl > 0 ==> cache[key]["expireAt"] == Date((now + ttl) / 1_000_000)
      ensures View(cache)
           == Ttl.Apply(View(old(cache)),
                        Ttl.Event(now, Ttl.Put(key, Ttl.AsStored(
                          Ttl.Entry(val, if ttl > 0 then Some(now + ttl) else None)))),
                        Ttl.MongoDead)
    {
      if ttl <= 0 {
        cache := UpdateOne(cache, key, map["val" := Binary(val)], {"expireAt"});
      } else {
        cache := UpdateOne(cache, key, map["val" := Binary(val), "expireAt" := DateOf(now + ttl)], {});
      }
    }

    /** One pass of the TTL indexes: some of the expired documents go. */
    method TtlPass(idle: set<string>, stale: set<string>, now: nat)
      requires PresenceDocs(presence) && WellTyped(cache)
      modifies this`presence, this`cache
      ensures PresenceDocs(presence) && WellTyped(cache)
      ensures View(presence) == Ttl.Apply(View(old(presence)), Ttl.Event(now, Ttl.Purge(idle)), Ttl.MongoDead)
      ensures View(cache) == Ttl.Apply(View(old(cache)), Ttl.Event(now, Ttl.Purge(stale)), Ttl.MongoDead)
    {
      presence := Purged(presence, idle, now);
      cache := Purged(cache, stale, now);
    }
  }
}
