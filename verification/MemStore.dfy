/** The in-memory store (server/internal/store/memstore/memstore.go). Clock readings are arguments. */
module MemStores {
  import opened Common
  import opened Records
  import opened Boards
  import Ttl

  datatype StoreError = ErrClosed | ErrNotFound

  /** Go's zero time; a clock reads at or after it. */
  const ZERO_TIME: int := 0

  datatype CacheEntry = CacheEntry(val: seq<int>, expiry: int)

  function PresenceView(presence: map<string, int>): Ttl.Store {
    map uid | uid in presence :: Ttl.Entry([], Some(presence[uid]))
  }

  function CacheView(cache: map<string, CacheEntry>): Ttl.Store {
    map k | k in cache :: Ttl.Entry(cache[k].val, if cache[k].expiry == ZERO_TIME then None else Some(cache[k].expiry))
  }

  /** What CacheSet puts: a value that expires after a positive ttl, else never. */
  function PutEvent(key: string, val: seq<int>, ttl: int, now: nat): Ttl.Event {
    Ttl.Event(now, Ttl.Put(key, Ttl.Entry(val, if ttl > 0 then Some(now + ttl) else None)))
  }

  class MemStore {
    var attempts: map<string, Attempt>
    var matches: map<string, Match>
    var leaderboards: BoardMap
    var presence: map<string, int>
    var cache: map<string, CacheEntry>
    var closed: bool

    constructor ()
      ensures attempts == map[] && matches == map[] && leaderboards == map[]
      ensures presence == map[] && cache == map[] && !closed
    {
      attempts, matches, leaderboards, presence, cache, closed := map[], map[], map[], map[], map[], false;
    }

    method GetAttempt(uid: string, date: string) returns (r: Result<Attempt, StoreError>)
      ensures r == if closed then Err(ErrClosed)
                   else if AttemptKey(uid, date) in attempts then Ok(attempts[AttemptKey(uid, date)])
                   else Err(ErrNotFound)
      ensures !closed && AttemptsFiled(attempts) && |date| == DATE_LENGTH ==>
                IsAttemptOf(attempts, uid, date, if r.Ok? then Some(r.value) else None)
    {
      if closed {
        return Err(ErrClosed);
      }
      var key := AttemptKey(uid, date);
      if AttemptsFiled(attempts) && |date| == DATE_LENGTH {
        LookupIsExact(attempts, uid, date);
      }
      return if key in attempts then Ok(attempts[key]) else Err(ErrNotFound);
    }

    method UpsertAttempt(a: Attempt) returns (r: Result<(), StoreError>)
      modifies this`attempts
      ensures r == if closed then Err(ErrClosed) else Ok(())
      ensures attempts == if closed then old(attempts) else old(attempts)[AttemptKey(a.uid, a.puzzleDate) := a]
      ensures AttemptsFiled(old(attempts)) && |a.puzzleDate| == DATE_LENGTH ==> AttemptsFiled(attempts)
      ensures r.Ok? ==> forall uid, date :: |date| == |a.puzzleDate| ==>
                AttemptAt(attempts, uid, date)
                == if uid == a.uid && date == a.puzzleDate then Some(a) else AttemptAt(old(attempts), uid, date)
    {
      if closed {
        return Err(ErrClosed);
      }
      forall uid, date | |date| == |a.puzzleDate|
        ensures AttemptAt(attempts[AttemptKey(a.uid, a.puzzleDate) := a], uid, date)
             == if uid == a.uid && date == a.puzzleDate then Some(a) else AttemptAt(attempts, uid, date)
      {
        WriteIsExact(attempts, a, uid, date);
      }
      attempts := attempts[AttemptKey(a.uid, a.puzzleDate) := a];
      return Ok(());
    }

    method GetMatch(matchID: string) returns (r: Result<Match, StoreError>)
      ensures r == if closed then Err(ErrClosed)
                   else if matchID in matches then Ok(matches[matchID])
                   else Err(ErrNotFound)
    {
      if closed {
        return Err(ErrClosed);
      }
      return if matchID in matches then Ok(matches[matchID]) else Err(ErrNotFound);
    }

    method UpsertMatch(m: Match) returns (r: Result<(), StoreError>)
      modifies this`matches
      ensures r == if closed then Err(ErrClosed) else Ok(())
      ensures matches == if closed then old(matches) else old(matches)[m.id := m]
    {
      if closed {
        return Err(ErrClosed);
      }
      matches := matches[m.id := m];
      return Ok(());
    }

    method SubmitScore(board: string, uid: string, score: int) returns (r: Result<(), StoreError>)
      modifies this`leaderboards
      ensures r == if closed then Err(ErrClosed) else Ok(())
      ensures leaderboards
           == if closed then old(leaderboards) else Submit(old(leaderboards), Submission(board, uid, score))
    {
      if closed {
        return Err(ErrClosed);
      }
      var b: Board := map[];
      if board in leaderboards {
        b := leaderboards[board];
      } else {
        leaderboards := leaderboards[board := b];
      }
      if uid in b && b[uid] >= score {
        return Ok(());
      }
      b := b[uid := score];
      leaderboards := leaderboards[board := b];
      return Ok(());
    }

    /** The canonical list, whatever the order in which the map is walked. */
    method TopN(board: string, n: int) returns (r: Result<seq<Rank>, StoreError>)
      ensures closed ==> r == Err(ErrClosed)
      ensures !closed ==> r.Ok? && IsTop(BoardOf(leaderboards, board), n, r.value)
      ensures !closed ==>
                var b := if board in leaderboards then leaderboards[board] else map[];
                && |r.value| == (if n > 0 && n < |b| then n else |b|)
                && (forall x :: x in r.value ==> x.uid in b && b[x.uid] == x.score)
                && (forall i, j :: 0 <= i < j < |r.value| ==>
                      r.value[i].score > r.value[j].score
                      || (r.value[i].score == r.value[j].score && ComesFirst(r.value[i].uid, r.value[j].uid)))
    {
      if closed {
        return Err(ErrClosed);
      }
      var b := if board in leaderboards then leaderboards[board] else map[];
      var out: seq<Rank> := [];
      var todo := b.Keys;
      while todo != {}
        invariant todo <= b.Keys && |out| + |todo| == |b|
        invariant Lists(b, out) && Distinct(out)
        invariant forall uid :: uid in b ==> (uid in todo <==> Rank(uid, b[uid]) !in out)
      {
        var uid :| uid in todo;
        out := out + [Rank(uid, b[uid])];
        todo := todo - {uid};
      }
      SortedRowsAreTop(b, n, out);
      var sorted := SortRanks(out);
      if n > 0 && |sorted| > n {
        sorted := sorted[..n];
      }
      TopIsByScoreThenUid(b, n, sorted);
      return Ok(sorted);
    }

    method MarkOnline(uid: string, ttl: int, now: nat) returns (r: Result<(), StoreError>)
      modifies this`presence
      ensures !closed ==> uid in presence && presence[uid] == now + ttl && presence - {uid} == old(presence) - {uid}
      ensures r == if closed then Err(ErrClosed) else Ok(())
      ensures closed ==> presence == old(presence)
      ensures !closed ==>
                PresenceView(presence)
                == Ttl.Apply(PresenceView(old(presence)),
                             Ttl.Event(now, Ttl.Put(uid, Ttl.Entry([], Some(now + ttl)))), Ttl.MemDead)
    {
      if closed {
        return Err(ErrClosed);
      }
      presence := presence[uid := now + ttl];
      return Ok(());
    }

    /** Answers as a read of the view; its delete is a purge of the one key. */
    method IsOnline(uid: string, now: nat) returns (r: Result<bool, StoreError>)
      modifies this`presence
      ensures closed ==> r == Err(ErrClosed) && presence == old(presence)
      ensures !closed ==> r == Ok(Ttl.Read(PresenceView(old(presence)), uid, now, Ttl.MemDead).Some?)
      ensures !closed ==> r == Ok(uid in old(presence) && now <= old(presence)[uid])
      ensures !closed ==>
                PresenceView(presence)
                == Ttl.Apply(PresenceView(old(presence)), Ttl.Event(now, Ttl.Purge({uid})), Ttl.MemDead)
    {
      if closed {
        return Err(ErrClosed);
      }
      if uid !in presence {
        return Ok(false);
      }
      if now > presence[uid] {
        presence := presence - {uid};
        return Ok(false);
      }
      return Ok(true);
    }

    method CacheGet(key: string, now: nat) returns (r: Result<Option<seq<int>>, StoreError>)
      modifies this`cache
      ensures closed ==> r == Err(ErrClosed) && cache == old(cache)
      ensures !closed ==> r == Ok(match Ttl.Read(CacheView(old(cache)), key, now, Ttl.MemDead)
                                  case None => None
                                  case Some(e) => Some(e.val))
      ensures !closed ==>
                CacheView(cache) == Ttl.Apply(CacheView(old(cache)), Ttl.Event(now, Ttl.Purge({key})), Ttl.MemDead)
      ensures r.Ok? && r.value.Some? ==> key in old(cache) && r.value.value == old(cache)[key].val
      ensures r.Ok? ==>
                (r.value.Some? <==>
                   key in old(cache) && (old(cache)[key].expiry == 0 || now <= old(cache)[key].expiry))
    {
      if closed {
        return Err(ErrClosed);
      }
      if key !in cache {
        return Ok(None);
      }
      var e := cache[key];
      if e.expiry != ZERO_TIME && now > e.expiry {
        cache := cache - {key};
        return Ok(None);
      }
      return Ok(Some(e.val));
    }

    method CacheSet(key: string, val: seq<int>, ttl: int, now: nat) returns (r: Result<(), StoreError>)
      modifies this`cache
      ensures r == if closed then Err(ErrClosed) else Ok(())
      ensures closed ==> cache == old(cache)
      ensures !closed ==> key in cache && cache[key].val == val && cache - {key} == old(cache) - {key}
      ensures !closed ==> cache[key].expiry == if ttl > 0 then now + ttl else 0
      ensures !closed ==>
                CacheView(cache) == Ttl.Apply(CacheView(old(cache)), PutEvent(key, val, ttl, now), Ttl.MemDead)
    {
      if closed {
        return Err(ErrClosed);
      }
      var e := CacheEntry(val, ZERO_TIME);
      if ttl > 0 {
        e := e.(expiry := now + ttl);
      }
      cache := cache[key := e];
      return Ok(());
    }
  }

  lemma SortedRowsAreTop(b: Board, n: int, rows: seq<Rank>)
    requires Lists(b, rows) && Distinct(rows) && |rows| == |b|
    requires forall uid :: uid in b ==> Rank(uid, b[uid]) in rows
    ensures |SortRanks(rows)| == |b| && IsTop(b, n, SortRanks(rows)[..Cut(b, n)])
    ensures SortRanks(rows)[..|b|] == SortRanks(rows)
  {
    var sorted, m := SortRanks(rows), Cut(b, n);
    SortRanksSorts(rows);
    assert forall x :: x in multiset(sorted) <==> x in multiset(rows);
    assert forall k :: 0 <= k < m ==> sorted[..m][k] == sorted[k];
    forall x | x in sorted[..m] ensures x in rows {
      assert x in multiset(sorted);
    }
    forall uid, r | uid in b && Rank(uid, b[uid]) !in sorted[..m] && r in sorted[..m]
      ensures Before(r, Rank(uid, b[uid]))
    {
      assert Rank(uid, b[uid]) in multiset(rows);
      var i :| 0 <= i < |sorted| && sorted[i] == Rank(uid, b[uid]);
      var j :| 0 <= j < m && sorted[j] == r;
    }
  }
}
