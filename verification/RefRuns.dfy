/** Runs of the reference table in which every finalize consumes one outstanding reference. */
module RefRuns {
  import opened Common
  import opened RefTables

  /** A slot Go code still holds, and the value it was made for. */
  datatype Held = Held(value: Value, slot: Slot)

  datatype RState = RState(table: Table, held: seq<Held>)

  datatype RAction = Store(v: Value) | Drop(k: nat)

  /** None: the table is full, or there is no such reference to drop. */
  ghost function RNext(s: RState, a: RAction): Option<RState> {
    match a
    case Store(v) =>
      if !Proper(v) then None
      else if !IsRef(v) then Some(s.(held := s.held + [Held(v, Immediate(v))]))
      else if !Fits(s.table, v) then None
      else
        var (t, id) := Hold(s.table, v);
        Some(RState(t, s.held + [Held(v, RefSlot(v, id))]))
    case Drop(k) =>
      if k >= |s.held| || !IsRef(s.held[k].value) || s.held[k].slot.lo >= |s.table.values|
         || |s.table.values| != |s.table.counts|
      then None
      else Some(RState(Finalize(s.table, s.held[k].slot.lo), s.held[..k] + s.held[k + 1..]))
  }

  ghost predicate Fits(t: Table, v: Value) {
    && |t.values| == |t.counts| && |t.values| < MAX_TABLE && NextId(t) <= |t.values|
    && (Key(v) in t.ids ==> t.ids[Key(v)] < |t.counts|)
  }

  ghost function RRun(tr: seq<RAction>): Option<RState> {
    if tr == [] then Some(RState(START, []))
    else
      var before := RRun(tr[..|tr| - 1]);
      if before.None? then None else RNext(before.value, tr[|tr| - 1])
  }

  /** How many outstanding references carry this id. */
  ghost function Outstanding(held: seq<Held>, id: nat): nat {
    if held == [] then 0
    else Outstanding(held[..|held| - 1], id)
         + if IsRef(held[|held| - 1].value) && held[|held| - 1].slot.lo == id then 1 else 0
  }

  lemma {:induction false} OutstandingWithout(held: seq<Held>, k: nat, id: nat)
    requires k < |held|
    ensures Outstanding(held[..k] + held[k + 1..], id)
         == Outstanding(held, id) - if IsRef(held[k].value) && held[k].slot.lo == id then 1 else 0
  {
    var n := |held| - 1;
    var rest := held[..k] + held[k + 1..];
    if k == n {
      assert rest == held[..n];
    } else {
      OutstandingWithout(held[..n], k, id);
      assert rest[..n - 1] == held[..n][..k] + held[..n][k + 1..];
    }
  }

  lemma {:induction false} HeldIsOutstanding(held: seq<Held>, k: nat)
    requires k < |held| && IsRef(held[k].value)
    ensures Outstanding(held, held[k].slot.lo) > 0
  {
    if k < |held| - 1 {
      HeldIsOutstanding(held[..|held| - 1], k);
    }
  }

  const RESERVED: nat := 7

  ghost predicate Predefined(t: Table) {
    && |t.values| == |t.counts| && RESERVED <= |t.values|
    && forall id :: 0 <= id < RESERVED ==> t.values[id] == PREDEFINED[id] && t.counts[id] == Infinite
  }

  ghost predicate Dead(t: Table, id: nat) {
    RESERVED <= id < |t.values| && id < |t.counts| && t.counts[id] == Finite(0)
  }

  ghost predicate Filed(t: Table, v: Value)
    requires v in t.ids
  {
    1 <= t.ids[v] < |t.values| && t.values[t.ids[v]] == v && !Dead(t, t.ids[v]) && IsRef(v) && Key(v) == v
  }

  ghost predicate LiveFiled(t: Table, id: nat)
    requires id < |t.values|
  {
    t.values[id] in t.ids && t.ids[t.values[id]] == id
  }

  /** `_ids` is the inverse of the live part of `_values`. */
  ghost predicate Inverse(t: Table) {
    && |t.values| == |t.counts|
    && (forall v :: v in t.ids ==> Filed(t, v))
    && (forall id :: 1 <= id < |t.values| && !Dead(t, id) ==> LiveFiled(t, id))
  }

  /** The free list holds each dead id once, and nothing else. */
  ghost predicate PoolExact(t: Table) {
    && Distinct(t.pool)
    && forall id :: id in t.pool <==> Dead(t, id)
  }

  ghost predicate CountsExact(t: Table, held: seq<Held>) {
    forall id :: RESERVED <= id < |t.values| && id < |t.counts| ==> t.counts[id] == Finite(Outstanding(held, id))
  }

  ghost predicate HeldSound(t: Table, h: Held) {
    if IsRef(h.value) then
      Key(h.value) in t.ids && t.ids[Key(h.value)] < MAX_TABLE && h.slot == RefSlot(h.value, t.ids[Key(h.value)])
    else h.slot == Immediate(h.value)
  }

  ghost predicate AllHeldSound(t: Table, held: seq<Held>) {
    forall k :: 0 <= k < |held| ==> HeldSound(t, held[k])
  }

  ghost predicate RInv(s: RState) {
    && Predefined(s.table) && Inverse(s.table) && PoolExact(s.table) && |s.table.values| <= MAX_TABLE
    && CountsExact(s.table, s.held) && AllHeldSound(s.table, s.held)
    && |s.table.values| == |s.table.ids| + 1 + |s.table.pool|
  }

  lemma NextIdIsFree(t: Table)
    requires Predefined(t) && PoolExact(t)
    ensures RESERVED <= NextId(t) <= |t.values|
    ensures NextId(t) < |t.values| ==> Dead(t, NextId(t))
  {
    if t.pool != [] {
      assert NextId(t) in t.pool;
    }
  }

  lemma OutstandingSnoc(held: seq<Held>, h: Held, id: nat)
    ensures Outstanding(held + [h], id) == Outstanding(held, id) + if IsRef(h.value) && h.slot.lo == id then 1 else 0
  {
    assert (held + [h])[..|held|] == held;
  }

  lemma {:induction false} UnusedIdHasNone(t: Table, held: seq<Held>, id: nat)
    requires AllHeldSound(t, held) && Inverse(t) && id >= |t.values|
    ensures Outstanding(held, id) == 0
  {
    if held != [] {
      var n := |held| - 1;
      assert HeldSound(t, held[n]);
      UnusedIdHasNone(t, held[..n], id);
    }
  }

  lemma KeyOfRef(v: Value)
    requires IsRef(v)
    ensures IsRef(Key(v)) && Key(Key(v)) == Key(v) && TypeFlag(Key(v)) == TypeFlag(v)
    ensures v.Number? ==> Key(v) == ZERO
  {
  }

  lemma InsertShape(t: Table, v: Value)
    requires Predefined(t) && PoolExact(t)
    ensures NextId(t) <= |t.values| && RESERVED <= NextId(t)
    ensures var u, id := Insert(t, v), NextId(t);
      && |u.values| == |u.counts| >= |t.values| && id < |u.values|
      && u.values[id] == v && u.counts[id] == Finite(1)
      && (forall x :: 0 <= x < |u.values| && x != id ==>
            x < |t.values| && u.values[x] == t.values[x] && u.counts[x] == t.counts[x])
      && (forall x :: x != id ==> (Dead(u, x) <==> Dead(t, x))) && !Dead(u, id)
      && (id < |t.values| ==> Dead(t, id))
  {
    NextIdIsFree(t);
  }

  lemma InsertKeepsInverse(t: Table, v: Value)
    requires Predefined(t) && Inverse(t) && PoolExact(t) && IsRef(v) && Key(v) !in t.ids
    requires NextId(t) <= |t.values|
    ensures Predefined(Insert(t, v)) && Inverse(Insert(t, v))
    ensures forall w :: w in t.ids ==> w in Insert(t, v).ids && Insert(t, v).ids[w] == t.ids[w]
  {
    InsertShape(t, v);
    var id, u := NextId(t), Insert(t, v);
    ZeroIsFiled(t);
    assert Key(v) == v;
    forall w | w in u.ids ensures Filed(u, w) {
      if w != v {
        assert Filed(t, w) && t.ids[w] != id;
      }
    }
    forall x | 1 <= x < |u.values| && !Dead(u, x) ensures LiveFiled(u, x) {
      if x != id {
        assert LiveFiled(t, x) && t.values[x] != v;
      }
    }
  }

  lemma ZeroIsFiled(t: Table)
    requires Predefined(t) && Inverse(t)
    ensures ZERO in t.ids && t.ids[ZERO] == 1
  {
    assert t.values[1] == PREDEFINED[1] == ZERO && LiveFiled(t, 1);
  }

  lemma InsertKeepsPool(t: Table, v: Value)
    requires Predefined(t) && PoolExact(t) && NextId(t) <= |t.values|
    ensures PoolExact(Insert(t, v))
  {
    InsertShape(t, v);
    var id, u := NextId(t), Insert(t, v);
    if t.pool != [] {
      assert t.pool == u.pool + [id];
      assert forall x :: x in t.pool <==> x in u.pool || x == id;
    }
  }

  lemma InsertKeepsSize(t: Table, v: Value)
    requires Predefined(t) && PoolExact(t) && NextId(t) <= |t.values| && Key(v) !in t.ids
    requires |t.values| == |t.ids| + 1 + |t.pool|
    ensures |Insert(t, v).values| == |Insert(t, v).ids| + 1 + |Insert(t, v).pool|
  {
    NextIdIsFree(t);
    assert t.pool != [] ==> NextId(t) in t.pool;
    assert Insert(t, v).ids.Keys == t.ids.Keys + {Key(v)};
    assert |Insert(t, v).ids| == |Insert(t, v).ids.Keys| == |t.ids.Keys| + 1 == |t.ids| + 1;
  }

  lemma UpKeepsTable(t: Table, id: nat)
    requires Predefined(t) && Inverse(t) && PoolExact(t) && id < |t.values| && !Dead(t, id)
    requires t.counts[id] != Finite(-1)
    ensures var u := t.(counts := t.counts[id := Up(t.counts[id])]);
      Predefined(u) && Inverse(u) && PoolExact(u)
  {
    var u := t.(counts := t.counts[id := Up(t.counts[id])]);
    assert forall x :: Dead(u, x) <==> Dead(t, x);
  }

  lemma OutstandingAfterStore(held: seq<Held>, h: Held)
    ensures forall id :: Outstanding(held + [h], id)
                         == Outstanding(held, id) + if IsRef(h.value) && h.slot.lo == id then 1 else 0
  {
    forall id
      ensures Outstanding(held + [h], id) == Outstanding(held, id) + if IsRef(h.value) && h.slot.lo == id then 1 else 0
    {
      OutstandingSnoc(held, h, id);
    }
  }

  lemma InsertKeepsCounts(s: RState, v: Value)
    requires RInv(s) && IsRef(v) && Fits(s.table, v)
    ensures CountsExact(Insert(s.table, v), s.held + [Held(v, RefSlot(v, NextId(s.table)))])
  {
    InsertShape(s.table, v);
    OutstandingAfterStore(s.held, Held(v, RefSlot(v, NextId(s.table))));
    UnusedIdHasNone(s.table, s.held, |s.table.values|);
  }

  lemma StoreNewKeepsInv(s: RState, v: Value)
    requires RInv(s) && Proper(v) && IsRef(v) && Fits(s.table, v) && Key(v) !in s.table.ids
    ensures RInv(RNext(s, Store(v)).value)
  {
    var n := RNext(s, Store(v)).value;
    var h := Held(v, RefSlot(v, NextId(s.table)));
    assert n.held == s.held + [h];
    OutstandingAfterStore(s.held, h);
    InsertKeepsInverse(s.table, v);
    InsertKeepsPool(s.table, v);
    InsertKeepsSize(s.table, v);
    InsertKeepsCounts(s, v);
    KeyOfRef(v);
    forall k | 0 <= k < |n.held| ensures HeldSound(n.table, n.held[k]) {
      assert k < |s.held| ==> HeldSound(s.table, s.held[k]);
    }
  }

  lemma StoreKnownKeepsInv(s: RState, v: Value)
    requires RInv(s) && Proper(v) && IsRef(v) && Fits(s.table, v) && Key(v) in s.table.ids
    ensures RInv(RNext(s, Store(v)).value)
  {
    var n := RNext(s, Store(v)).value;
    var id := s.table.ids[Key(v)];
    var h := Held(v, RefSlot(v, id));
    assert n.held == s.held + [h];
    OutstandingAfterStore(s.held, h);
    UpKeepsTable(s.table, id);
    KeyOfRef(v);
    forall k | 0 <= k < |n.held| ensures HeldSound(n.table, n.held[k]) {
      assert k < |s.held| ==> HeldSound(s.table, s.held[k]);
    }
  }

  lemma StoreImmediateKeepsInv(s: RState, v: Value)
    requires RInv(s) && Proper(v) && !IsRef(v)
    ensures RInv(RNext(s, Store(v)).value)
  {
    var n := RNext(s, Store(v)).value;
    OutstandingAfterStore(s.held, Held(v, Immediate(v)));
    forall k | 0 <= k < |n.held| ensures HeldSound(n.table, n.held[k]) {
      assert k < |s.held| ==> HeldSound(s.table, s.held[k]);
    }
  }

  lemma FinalizeKeepsInverse(t: Table, id: nat)
    requires Predefined(t) && Inverse(t) && 1 <= id < |t.values| && !Dead(t, id)
    requires t.counts[id].Finite? ==> t.counts[id].n > 0
    ensures Predefined(Finalize(t, id)) && Inverse(Finalize(t, id))
  {
    var u := Finalize(t, id);
    assert LiveFiled(t, id);
    if t.counts[id] == Finite(1) {
      assert id >= RESERVED && Dead(u, id);
      assert forall x :: x != id ==> (Dead(u, x) <==> Dead(t, x));
      forall w | w in u.ids ensures Filed(u, w) {
        assert Filed(t, w) && t.ids[w] != id;
      }
      forall x | 1 <= x < |u.values| && !Dead(u, x) ensures LiveFiled(u, x) {
        assert LiveFiled(t, x);
      }
    } else {
      assert forall x :: Dead(u, x) <==> Dead(t, x);
      forall w | w in u.ids ensures Filed(u, w) {
        assert Filed(t, w);
      }
      forall x | 1 <= x < |u.values| && !Dead(u, x) ensures LiveFiled(u, x) {
        assert LiveFiled(t, x);
      }
    }
  }

  lemma FinalizeKeepsPool(t: Table, id: nat)
    requires Predefined(t) && PoolExact(t) && id < |t.values| && !Dead(t, id)
    requires t.counts[id].Finite? ==> t.counts[id].n > 0
    ensures PoolExact(Finalize(t, id))
  {
    var u := Finalize(t, id);
    if t.counts[id] == Finite(1) {
      assert id >= RESERVED && Dead(u, id) && id !in t.pool;
      assert forall x :: x != id ==> (Dead(u, x) <==> Dead(t, x));
      assert forall x :: x in u.pool <==> x in t.pool || x == id;
    } else {
      assert forall x :: Dead(u, x) <==> Dead(t, x);
    }
  }

  lemma FinalizeKeepsSize(t: Table, id: nat)
    requires Inverse(t) && 1 <= id < |t.values| && !Dead(t, id) && |t.values| == |t.ids| + 1 + |t.pool|
    ensures |Finalize(t, id).values| == |Finalize(t, id).ids| + 1 + |Finalize(t, id).pool|
  {
    assert LiveFiled(t, id);
    assert (t.ids - {t.values[id]}).Keys == t.ids.Keys - {t.values[id]};
    assert |t.ids.Keys - {t.values[id]}| == |t.ids.Keys| - 1;
  }

  lemma FinalizeKeepsHeld(t: Table, id: nat, h: Held)
    requires Inverse(t) && 1 <= id < |t.values| && !Dead(t, id) && HeldSound(t, h)
    requires IsRef(h.value) && h.slot.lo == id ==> Down(t.counts[id]) != Finite(0)
    ensures HeldSound(Finalize(t, id), h)
  {
    if IsRef(h.value) {
      KeyOfRef(h.value);
      assert Filed(t, Key(h.value)) && LiveFiled(t, id);
    }
  }

  lemma SharedIdSurvives(t: Table, held: seq<Held>, k: nat, j: nat)
    requires Predefined(t) && CountsExact(t, held) && k < |held| && j < |held| && j != k
    requires IsRef(held[k].value) && IsRef(held[j].value) && held[j].slot.lo == held[k].slot.lo < |t.values|
    ensures Down(t.counts[held[k].slot.lo]) != Finite(0)
  {
    var id := held[k].slot.lo;
    var rest := held[..k] + held[k + 1..];
    assert rest[if j < k then j else j - 1] == held[j];
    HeldIsOutstanding(rest, if j < k then j else j - 1);
    OutstandingWithout(held, k, id);
  }

  lemma DropKeepsHeld(s: RState, k: nat, j: nat)
    requires RInv(s) && RNext(s, Drop(k)).Some? && j < |s.held| && j != k
    ensures HeldSound(RNext(s, Drop(k)).value.table, s.held[j])
  {
    var id, h := s.held[k].slot.lo, s.held[j];
    assert HeldSound(s.table, h);
    if IsRef(h.value) && h.slot.lo == id {
      SharedIdSurvives(s.table, s.held, k, j);
    }
    DroppedIsLive(s, k);
    FinalizeKeepsHeld(s.table, id, h);
  }

  lemma DropKeepsCounts(s: RState, k: nat)
    requires RInv(s) && RNext(s, Drop(k)).Some?
    ensures CountsExact(RNext(s, Drop(k)).value.table, RNext(s, Drop(k)).value.held)
  {
    var n := RNext(s, Drop(k)).value;
    forall x ensures Outstanding(n.held, x) == Outstanding(s.held, x) - if x == s.held[k].slot.lo then 1 else 0 {
      OutstandingWithout(s.held, k, x);
    }
  }

  lemma DroppedIsLive(s: RState, k: nat)
    requires RInv(s) && RNext(s, Drop(k)).Some?
    ensures var id := s.held[k].slot.lo;
      1 <= id < |s.table.values| && !Dead(s.table, id) && (s.table.counts[id].Finite? ==> s.table.counts[id].n > 0)
  {
    assert HeldSound(s.table, s.held[k]);
    assert Filed(s.table, Key(s.held[k].value));
    HeldIsOutstanding(s.held, k);
  }

  lemma DropKeepsTable(s: RState, k: nat)
    requires RInv(s) && RNext(s, Drop(k)).Some?
    ensures var t := RNext(s, Drop(k)).value.table;
      && Predefined(t) && Inverse(t) && PoolExact(t)
      && |t.values| == |s.table.values| && |t.values| == |t.ids| + 1 + |t.pool|
  {
    var id := s.held[k].slot.lo;
    DroppedIsLive(s, k);
    FinalizeKeepsInverse(s.table, id);
    FinalizeKeepsPool(s.table, id);
    FinalizeKeepsSize(s.table, id);
  }

  lemma DropKeepsAllHeld(s: RState, k: nat)
    requires RInv(s) && RNext(s, Drop(k)).Some?
    ensures AllHeldSound(RNext(s, Drop(k)).value.table, RNext(s, Drop(k)).value.held)
  {
    var n := RNext(s, Drop(k)).value;
    forall j | 0 <= j < |n.held| ensures HeldSound(n.table, n.held[j]) {
      DropKeepsHeld(s, k, if j < k then j else j + 1);
    }
  }

  lemma DropKeepsInv(s: RState, k: nat)
    requires RInv(s) && RNext(s, Drop(k)).Some?
    ensures RInv(RNext(s, Drop(k)).value)
  {
    DropKeepsTable(s, k);
    DropKeepsCounts(s, k);
    DropKeepsAllHeld(s, k);
  }

  lemma StartHasSixIds()
    ensures |START.ids| == 6
  {
    assert START.ids.Keys == {ZERO, Null, Boolean(true), Boolean(false), GLOBAL_THIS, GO};
    assert |{Boolean(true), Boolean(false)}| == 2;
    assert |{ZERO, Null}| == 2;
    assert |{GLOBAL_THIS, GO}| == 2;
    assert {ZERO, Null, Boolean(true), Boolean(false), GLOBAL_THIS, GO}
        == {ZERO, Null} + ({Boolean(true), Boolean(false)} + {GLOBAL_THIS, GO});
  }

  lemma StartIsInverse()
    ensures Predefined(START) && Inverse(START) && PoolExact(START)
  {
    StartIsFiled();
    assert LiveFiled(START, 1) && LiveFiled(START, 2) && LiveFiled(START, 3);
    assert LiveFiled(START, 4) && LiveFiled(START, 5) && LiveFiled(START, 6);
  }

  lemma StartIsFiled()
    ensures forall v :: v in START.ids ==> Filed(START, v)
  {
  }

  lemma StartIsSound()
    ensures RInv(RState(START, []))
  {
    StartIsInverse();
    StartHasSixIds();
  }

  lemma {:induction false} RunKeepsRInv(tr: seq<RAction>)
    requires RRun(tr).Some?
    ensures RInv(RRun(tr).value)
  {
    if tr == [] {
      StartIsSound();
    } else {
      RunKeepsRInv(tr[..|tr| - 1]);
      var s, a := RRun(tr[..|tr| - 1]).value, tr[|tr| - 1];
      match a
      case Drop(k) => DropKeepsInv(s, k);
      case Store(v) =>
        if !IsRef(v) {
          StoreImmediateKeepsInv(s, v);
        } else if Key(v) in s.table.ids {
          StoreKnownKeepsInv(s, v);
        } else {
          StoreNewKeepsInv(s, v);
        }
    }
  }

  // ----- what Go code may rely on

  /** In every run an outstanding reference loads as the value it was made for, -0 as 0, and two
      outstanding slots are equal exactly when their values are the same Map key. */
  lemma OutstandingIsSafe(tr: seq<RAction>, i: nat, j: nat)
    requires RRun(tr).Some? && i < |RRun(tr).value.held| && j < |RRun(tr).value.held|
    ensures var s := RRun(tr).value; var h, g := s.held[i], s.held[j];
      && Load(s.table, h.slot) == Key(h.value)
      && (h.value != Number(Slot(0x8000_0000, 0)) ==> Load(s.table, h.slot) == h.value)
      && (h.slot == g.slot <==> Key(h.value) == Key(g.value))
  {
    RunKeepsRInv(tr);
    HeldIsProper(tr, i);
    HeldIsProper(tr, j);
    var s := RRun(tr).value;
    SlotLoads(s.table, s.held[i]);
    SlotLoads(s.table, s.held[j]);
    if Key(s.held[i].value) == Key(s.held[j].value) {
      KeyDecidesKind(s.held[i].value, s.held[j].value);
    }
  }

  /** In every run the head of an outstanding reference tells the kind of its value. */
  lemma HeadTellsKind(tr: seq<RAction>, i: nat)
    requires RRun(tr).Some? && i < |RRun(tr).value.held| && IsRef(RRun(tr).value.held[i].value)
    ensures var h := RRun(tr).value.held[i];
      && (h.value.Object? <==> h.slot.hi == 0x7FF8_0001)
      && (h.value.String? <==> h.slot.hi == 0x7FF8_0002)
      && (h.value.Symbol? <==> h.slot.hi == 0x7FF8_0003)
      && (h.value.Function? <==> h.slot.hi == 0x7FF8_0004)
      && (h.value.Null? || h.value.Boolean? || h.value.BigInt? || h.value.Number? <==> h.slot.hi == 0x7FF8_0000)
  {
    RunKeepsRInv(tr);
    assert HeldSound(RRun(tr).value.table, RRun(tr).value.held[i]);
  }

  lemma KeyDecidesKind(v: Value, w: Value)
    requires Key(v) == Key(w)
    ensures IsRef(v) == IsRef(w) && TypeFlag(v) == TypeFlag(w) && (!IsRef(v) ==> v == w)
  {
  }

  lemma SlotLoads(t: Table, h: Held)
    requires Predefined(t) && Inverse(t) && HeldSound(t, h) && Proper(h.value)
    ensures Load(t, h.slot) == Key(h.value)
  {
    assert t.values[0] == PREDEFINED[0] == NaN;
    if IsRef(h.value) {
      assert Filed(t, Key(h.value));
      assert TypeFlag(h.value) <= 4;
      assert IsNaNBits(h.slot) && !IsZeroBits(h.slot);
    }
  }

  lemma {:induction false} HeldIsProper(tr: seq<RAction>, k: nat)
    requires RRun(tr).Some? && k < |RRun(tr).value.held|
    ensures Proper(RRun(tr).value.held[k].value)
  {
    var before, a := tr[..|tr| - 1], tr[|tr| - 1];
    var s := RRun(before).value;
    if a.Store? {
      if k < |s.held| {
        HeldIsProper(before, k);
      }
    } else {
      HeldIsProper(before, if k < a.k then k else k + 1);
    }
  }

  /** In every run: the reserved ids keep their values and are never freed; the count of any
      other id is its number of outstanding references; the free list holds each dead id
      once and nothing else, so an id in use is never handed out. */
  lemma AllocatorIsSafe(tr: seq<RAction>)
    requires RRun(tr).Some?
    ensures var s := RRun(tr).value; var t := s.table;
      && |t.values| == |t.counts| >= 7
      && t.values[..7] == [NaN, Number(Slot(0, 0)), Null, Boolean(true), Boolean(false), GLOBAL_THIS, GO]
      && (forall id :: 0 <= id < 7 ==> id !in t.pool)
      && (forall id :: RESERVED <= id < |t.values| ==> t.counts[id] == Finite(Outstanding(s.held, id)))
      && Distinct(t.pool)
      && (forall id :: id in t.pool <==> RESERVED <= id < |t.values| && Outstanding(s.held, id) == 0)
      && (NextId(t) == |t.values| || Outstanding(s.held, NextId(t)) == 0)
  {
    RunKeepsRInv(tr);
    NextIdIsFree(RRun(tr).value.table);
  }

  // ----- the table is as small as possible

  const RESERVED_KEYS: set<Value> := {ZERO, Null, Boolean(true), Boolean(false), GLOBAL_THIS, GO}

  /** The distinct values, other than the predefined ones, that references are outstanding for. */
  ghost function LiveValues(held: seq<Held>): set<Value> {
    (set h | h in held && IsRef(h.value) :: Key(h.value)) - RESERVED_KEYS
  }

  ghost function Peak(tr: seq<RAction>): nat {
    if tr == [] || RRun(tr).None? then 0
    else
      var before, now := Peak(tr[..|tr| - 1]), |LiveValues(RRun(tr).value.held)|;
      if now > before then now else before
  }

  lemma {:induction false} OutstandingHasHolder(held: seq<Held>, id: nat) returns (k: nat)
    requires Outstanding(held, id) > 0
    ensures k < |held| && IsRef(held[k].value) && held[k].slot.lo == id
  {
    var n := |held| - 1;
    if IsRef(held[n].value) && held[n].slot.lo == id {
      k := n;
    } else {
      k := OutstandingHasHolder(held[..n], id);
    }
  }

  lemma ReservedAreFiled(t: Table, v: Value)
    requires Predefined(t) && Inverse(t)
    ensures v in RESERVED_KEYS <==> v in t.ids && t.ids[v] < RESERVED
  {
    if v in t.ids && t.ids[v] < RESERVED {
      assert Filed(t, v) && v == PREDEFINED[t.ids[v]];
    }
    if v in RESERVED_KEYS {
      var id := if v == ZERO then 1 else if v == Null then 2 else if v == Boolean(true) then 3
                else if v == Boolean(false) then 4 else if v == GLOBAL_THIS then 5 else 6;
      assert t.values[id] == PREDEFINED[id] == v;
      assert LiveFiled(t, id);
    }
  }

  lemma FiledIsReservedOrLive(s: RState, v: Value)
    requires RInv(s)
    ensures v in s.table.ids <==> v in RESERVED_KEYS || v in LiveValues(s.held)
  {
    ReservedAreFiled(s.table, v);
    if v in s.table.ids && v !in RESERVED_KEYS {
      assert Filed(s.table, v);
      var id := s.table.ids[v];
      var k := OutstandingHasHolder(s.held, id);
      assert HeldSound(s.table, s.held[k]);
      KeyOfRef(s.held[k].value);
      assert Filed(s.table, Key(s.held[k].value));
      assert s.held[k] in s.held;
    }
    if v in LiveValues(s.held) {
      var h :| h in s.held && IsRef(h.value) && Key(h.value) == v;
      var k :| 0 <= k < |s.held| && s.held[k] == h;
      assert HeldSound(s.table, s.held[k]);
    }
  }

  lemma LiveCount(s: RState)
    requires RInv(s)
    ensures |s.table.ids| == 6 + |LiveValues(s.held)|
  {
    forall v ensures v in s.table.ids <==> v in RESERVED_KEYS || v in LiveValues(s.held) {
      FiledIsReservedOrLive(s, v);
    }
    assert s.table.ids.Keys == RESERVED_KEYS + LiveValues(s.held);
    StartHasSixIds();
    assert START.ids.Keys == RESERVED_KEYS;
  }

  lemma PeakStep(s: RState, a: RAction, peak: nat)
    requires RInv(s) && RNext(s, a).Some? && RInv(RNext(s, a).value) && |s.table.values| == RESERVED + peak
    ensures var t := RNext(s, a).value; var live := |LiveValues(t.held)|;
      |t.table.values| == RESERVED + if live > peak then live else peak
  {
    LiveCount(s);
    LiveCount(RNext(s, a).value);
    TableGrowsLast(s, a);
  }

  /** The table has one entry per reserved id and one per value of the peak: its length is
      always 7 plus the largest number of distinct values ever held at once. */
  lemma {:induction false} TableIsSmallest(tr: seq<RAction>)
    requires RRun(tr).Some?
    ensures |RRun(tr).value.table.values| == RESERVED + Peak(tr)
  {
    if tr != [] {
      var before, a := tr[..|tr| - 1], tr[|tr| - 1];
      TableIsSmallest(before);
      RunKeepsRInv(before);
      RunKeepsRInv(tr);
      PeakStep(RRun(before).value, a, Peak(before));
    }
  }

  /** The table grows only when the free list is empty, and never shrinks. */
  lemma TableGrowsLast(s: RState, a: RAction)
    requires RInv(s) && RNext(s, a).Some?
    ensures var t, u := s.table, RNext(s, a).value.table;
      |u.values| == |t.values| || (|u.values| == |t.values| + 1 && t.pool == [] && u.pool == [])
  {
    NextIdIsFree(s.table);
    assert s.table.pool != [] ==> NextId(s.table) in s.table.pool;
  }
}
