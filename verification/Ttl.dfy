/**
 Entries that expire. MongoDB removes expired documents in the background, memstore removes
 them when a read meets them; both are `Purge` events here, at any point of a run.
 */
module Ttl {
  import opened Common

  datatype Entry = Entry(val: seq<int>, expiry: Option<int>)

  datatype Op = Put(key: string, entry: Entry) | Purge(keys: set<string>)

  datatype Event = Event(now: int, op: Op)

  type Store = map<string, Entry>

  /** When an entry is dead, by the rules of one store. */
  type Rule = (Entry, int) -> bool

  ghost predicate Lasting(dead: Rule) {
    forall e, t, u :: dead(e, t) && t <= u ==> dead(e, u)
  }

  function Apply(s: Store, ev: Event, dead: Rule): Store {
    match ev.op
    case Put(key, entry) => s[key := entry]
    case Purge(keys) => map k | k in s && !(k in keys && dead(s[k], ev.now)) :: s[k]
  }

  function After(evs: seq<Event>, dead: Rule): Store {
    if evs == [] then map[] else Apply(After(evs[..|evs| - 1], dead), evs[|evs| - 1], dead)
  }

  /** A read: the stored entry unless it is dead. */
  function Read(s: Store, key: string, now: int, dead: Rule): Option<Entry> {
    if key in s && !dead(s[key], now) then Some(s[key]) else None
  }

  /** The clock never runs backwards and has reached at most `now`. */
  ghost predicate Clocked(evs: seq<Event>, now: int) {
    (forall i :: 0 <= i < |evs| ==> evs[i].now <= now)
    && forall i, j :: 0 <= i < j < |evs| ==> evs[i].now <= evs[j].now
  }

  function LastPut(evs: seq<Event>, key: string): Option<Entry> {
    if evs == [] then None
    else if evs[|evs| - 1].op.Put? && evs[|evs| - 1].op.key == key then Some(evs[|evs| - 1].op.entry)
    else LastPut(evs[..|evs| - 1], key)
  }

  function WithoutPurges(evs: seq<Event>): seq<Event> {
    if evs == [] then []
    else WithoutPurges(evs[..|evs| - 1]) + if evs[|evs| - 1].op.Put? then [evs[|evs| - 1]] else []
  }

  /** Since the last put of the key some purge named it at a time when its entry was dead. */
  ghost predicate PurgedSince(evs: seq<Event>, key: string, dead: Rule) {
    evs != [] &&
    var before, ev := evs[..|evs| - 1], evs[|evs| - 1];
    match ev.op
    case Put(k, _) => k != key && PurgedSince(before, key, dead)
    case Purge(keys) =>
      || PurgedSince(before, key, dead)
      || (key in keys && LastPut(before, key).Some? && dead(LastPut(before, key).value, ev.now))
  }

  /** What a store holds of a key, on any clock. */
  lemma {:induction false} StoredExactly(evs: seq<Event>, key: string, dead: Rule)
    ensures key in After(evs, dead) <==> LastPut(evs, key).Some? && !PurgedSince(evs, key, dead)
    ensures key in After(evs, dead) ==> After(evs, dead)[key] == LastPut(evs, key).value
  {
    if evs != [] {
      StoredExactly(evs[..|evs| - 1], key, dead);
    }
  }

  lemma {:induction false} WithoutPurgesSame(evs: seq<Event>, key: string, dead: Rule)
    ensures LastPut(WithoutPurges(evs), key) == LastPut(evs, key)
    ensures !PurgedSince(WithoutPurges(evs), key, dead)
  {
    if evs != [] {
      var n := |evs| - 1;
      var rest := WithoutPurges(evs[..n]);
      WithoutPurgesSame(evs[..n], key, dead);
      if evs[n].op.Put? {
        assert WithoutPurges(evs)[..|rest|] == rest;
      } else {
        assert WithoutPurges(evs) == rest;
      }
    }
  }

  /** On any clock: the purges of a run change a read exactly when one of them met the entry
      dead and the read, by its own clock reading, finds it alive again. */
  lemma PurgesShowExactly(evs: seq<Event>, key: string, now: int, dead: Rule)
    ensures Read(After(evs, dead), key, now, dead) != Read(After(WithoutPurges(evs), dead), key, now, dead)
            <==> PurgedSince(evs, key, dead) && LastPut(evs, key).Some? && !dead(LastPut(evs, key).value, now)
  {
    StoredExactly(evs, key, dead);
    StoredExactly(WithoutPurges(evs), key, dead);
    WithoutPurgesSame(evs, key, dead);
  }

  lemma {:induction false} PurgedIsDead(evs: seq<Event>, key: string, now: int, dead: Rule)
    requires Clocked(evs, now) && Lasting(dead) && PurgedSince(evs, key, dead)
    ensures LastPut(evs, key).Some? && dead(LastPut(evs, key).value, now)
  {
    var n := |evs| - 1;
    assert evs[n].now <= now;
    if PurgedSince(evs[..n], key, dead) {
      PurgedIsDead(evs[..n], key, evs[n].now, dead);
    }
  }

  /** Under a monotone clock purges of dead entries, inserted anywhere, change no read. */
  lemma PurgesAreInvisible(evs: seq<Event>, key: string, now: int, dead: Rule)
    requires Clocked(evs, now) && Lasting(dead)
    ensures Read(After(evs, dead), key, now, dead) == Read(After(WithoutPurges(evs), dead), key, now, dead)
  {
    PurgesShowExactly(evs, key, now, dead);
    if PurgedSince(evs, key, dead) {
      PurgedIsDead(evs, key, now, dead);
    }
  }

  /** Under a monotone clock a read returns the last value put, unless that is dead by now:
      whatever was purged on the way cannot be observed. */
  lemma ReadIsLastPut(evs: seq<Event>, key: string, now: int, dead: Rule)
    requires Clocked(evs, now) && Lasting(dead)
    ensures Read(After(evs, dead), key, now, dead)
         == match LastPut(evs, key) case None => None case Some(e) => if dead(e, now) then None else Some(e)
  {
    PurgesAreInvisible(evs, key, now, dead);
    StoredExactly(WithoutPurges(evs), key, dead);
    WithoutPurgesSame(evs, key, dead);
  }

  // ----- the two stores

  const NANOS_PER_MILLI: int := 1_000_000

  /** A BSON date keeps whole milliseconds. Times are nanoseconds. */
  function Millis(t: int): int {
    t / NANOS_PER_MILLI
  }

  /** memstore: `now.After(expiry)`. */
  predicate MemDead(e: Entry, now: int) {
    e.expiry.Some? && now > e.expiry.value
  }

  /** MongoDB: not matched by `expireAt > now`; the stored and the queried time are BSON dates. */
  predicate MongoDead(e: Entry, now: int) {
    e.expiry.Some? && Millis(e.expiry.value) <= Millis(now)
  }

  lemma RulesAreLasting()
    ensures Lasting(MemDead) && Lasting(MongoDead)
  {
  }

  /** A wall clock that is set back shows a pass of the TTL index: an entry good for `ttl` is
      purged at its expiry and missing from a read stamped earlier. */
  lemma BackwardClockShowsPurges(key: string, val: seq<int>, t: int, ttl: int, now: int)
    requires Millis(now) < Millis(t + ttl)
    ensures var put := Event(t, Put(key, Entry(val, Some(t + ttl)))); var evs := [put, Event(t + ttl, Purge({key}))];
      Read(After(evs, MongoDead), key, now, MongoDead) == None
      && Read(After(WithoutPurges(evs), MongoDead), key, now, MongoDead) == Some(put.op.entry)
  {
    var put := Event(t, Put(key, Entry(val, Some(t + ttl))));
    var evs := [put, Event(t + ttl, Purge({key}))];
    assert evs[..1] == [put] && [put][..0] == [];
    assert LastPut([put], key) == Some(put.op.entry);
    assert PurgedSince(evs, key, MongoDead);
    StoredExactly(evs, key, MongoDead);
    WithoutPurgesSame(evs, key, MongoDead);
    StoredExactly(WithoutPurges(evs), key, MongoDead);
  }

  /** What MongoDB keeps of an entry: its expiry in whole milliseconds. */
  function AsStored(e: Entry): Entry {
    match e.expiry
    case None => e
    case Some(t) => e.(expiry := Some(Millis(t) * NANOS_PER_MILLI))
  }

  lemma StoredExpiryIsSame(e: Entry, now: int)
    ensures MongoDead(AsStored(e), now) <==> MongoDead(e, now)
  {
  }

  /** The last value of `key` in a memstore run and in a MongoDB run come from the same call. */
  ghost predicate SameLastPut(mem: seq<Event>, mongo: seq<Event>, key: string) {
    LastPut(mongo, key) == match LastPut(mem, key) case None => None case Some(e) => Some(AsStored(e))
  }

  /** The events as MongoDB keeps them. */
  function AllAsStored(evs: seq<Event>): seq<Event> {
    seq(|evs|, i requires 0 <= i < |evs| =>
      match evs[i].op
      case Put(key, entry) => evs[i].(op := Put(key, AsStored(entry)))
      case Purge(_) => evs[i])
  }

  lemma {:induction false} LastPutAsStored(evs: seq<Event>, key: string)
    ensures LastPut(AllAsStored(evs), key)
         == match LastPut(evs, key) case None => None case Some(e) => Some(AsStored(e))
  {
    if evs != [] {
      LastPutAsStored(evs[..|evs| - 1], key);
      assert AllAsStored(evs)[..|evs| - 1] == AllAsStored(evs[..|evs| - 1]);
    }
  }

  /** Runs of the two stores with the same puts, each purging in its own way, agree on the last
      put of every key. */
  lemma SamePutsSameLast(mem: seq<Event>, mongo: seq<Event>, key: string)
    requires WithoutPurges(mongo) == AllAsStored(WithoutPurges(mem))
    ensures SameLastPut(mem, mongo, key)
  {
    LastPutAsStored(WithoutPurges(mem), key);
    WithoutPurgesSame(mem, key, MemDead);
    WithoutPurgesSame(mongo, key, MongoDead);
  }

  /** Reads of the two stores after runs whose last puts of the key agree. They disagree exactly
      when the read falls in the expiry's millisecond and not after the expiry itself; then
      memstore still has the entry and MongoDB does not. */
  lemma StoresAgreeExactly(mem: seq<Event>, mongo: seq<Event>, key: string, now: int)
    requires Clocked(mem, now) && Clocked(mongo, now) && SameLastPut(mem, mongo, key)
    ensures var inMem := Read(After(mem, MemDead), key, now, MemDead);
      var inMongo := Read(After(mongo, MongoDead), key, now, MongoDead);
      var last := LastPut(mem, key);
      && (inMem.Some? && inMongo.Some? ==> inMem.value.val == inMongo.value.val)
      && (inMongo.Some? ==> inMem.Some?)
      && (inMem.Some? && inMongo.None? <==>
          (last.Some? && last.value.expiry.Some?
           && Millis(now) == Millis(last.value.expiry.value) && now <= last.value.expiry.value))
  {
    RulesAreLasting();
    ReadIsLastPut(mem, key, now, MemDead);
    ReadIsLastPut(mongo, key, now, MongoDead);
    if LastPut(mem, key).Some? {
      StoredExpiryIsSame(LastPut(mem, key).value, now);
    }
  }

  /** With times in whole milliseconds the only read they disagree on is at the expiry instant. */
  lemma StoresAgreeOnMillis(mem: seq<Event>, mongo: seq<Event>, key: string, now: int, exp: int)
    requires Clocked(mem, now) && Clocked(mongo, now) && SameLastPut(mem, mongo, key)
    requires LastPut(mem, key).Some? && LastPut(mem, key).value.expiry == Some(exp)
    requires now % NANOS_PER_MILLI == 0 && exp % NANOS_PER_MILLI == 0
    ensures (Read(After(mem, MemDead), key, now, MemDead).Some?
             != Read(After(mongo, MongoDead), key, now, MongoDead).Some?)
            <==> now == exp
  {
    StoresAgreeExactly(mem, mongo, key, now);
  }

  /** And there they do: a value put at `t` for `ttl`, read at its very expiry. */
  lemma ExpiryInstantDiffers(key: string, val: seq<int>, t: int, ttl: int)
    requires ttl >= 0
    ensures var entry := Entry(val, Some(t + ttl));
      && Read(After([Event(t, Put(key, entry))], MemDead), key, t + ttl, MemDead) == Some(entry)
      && Read(After([Event(t, Put(key, AsStored(entry)))], MongoDead), key, t + ttl, MongoDead) == None
  {
    var mem := [Event(t, Put(key, Entry(val, Some(t + ttl))))];
    var mongo := [Event(t, Put(key, AsStored(Entry(val, Some(t + ttl)))))];
    assert mem[..0] == [] && mongo[..0] == [];
    StoredExactly(mem, key, MemDead);
    StoresAgreeExactly(mem, mongo, key, t + ttl);
  }
}
