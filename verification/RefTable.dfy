/**
 The table through which Go code holds JavaScript values (web/wasm_exec.js): an id allocator
 with reference counts and a free list, and an encoding of ids as NaNs in 64-bit slots.
 */
module RefTables {

  type Word = w: nat | w < 0x1_0000_0000 witness 0

  /** The 8 bytes of a slot as two little-endian 32-bit words, low word first in memory. */
  datatype Slot = Slot(hi: Word, lo: Word)

  /** Exponent all ones, mantissa not zero (IEEE 754 binary64). */
  predicate IsNaNBits(s: Slot) {
    (s.hi / 0x10_0000) % 0x800 == 0x7FF && (s.hi % 0x10_0000 != 0 || s.lo != 0)
  }

  /** +0 or -0. */
  predicate IsZeroBits(s: Slot) {
    s.hi % 0x8000_0000 == 0 && s.lo == 0
  }

  /** A number is its bit pattern; the NaN patterns are one value, `NaN`. Objects, symbols and
      functions are known by identity, strings and big integers by content. */
  datatype Value =
    | Undefined | Null | NaN
    | Number(bits: Slot)
    | Boolean(b: bool)
    | Object(identity: nat)
    | String(text: string)
    | Symbol(identity: nat)
    | Function(identity: nat)
    | BigInt(n: int)

  predicate Proper(v: Value) {
    v.Number? ==> !IsNaNBits(v.bits)
  }

  const ZERO: Value := Number(Slot(0, 0))
  const NEGATIVE_ZERO: Value := Number(Slot(0x8000_0000, 0))
  const GLOBAL_THIS: Value := Object(0)
  const GO: Value := Object(1)

  /** The key a Map files a value under: -0 is filed as 0. */
  function Key(v: Value): Value {
    if v == NEGATIVE_ZERO then ZERO else v
  }

  /** Only -0 is filed under another value. */
  lemma KeyIsItself(v: Value)
    ensures Key(v) == if v == Number(Slot(0x8000_0000, 0)) then Number(Slot(0, 0)) else v
    ensures Key(v) == Key(Key(v))
  {
  }

  /** Values kept in the table: all but `undefined`, NaN and the non-zero numbers. */
  predicate IsRef(v: Value) {
    !v.Undefined? && !v.NaN? && (v.Number? ==> IsZeroBits(v.bits))
  }

  function TypeFlag(v: Value): nat {
    match v
    case Object(_) => 1
    case String(_) => 2
    case Symbol(_) => 3
    case Function(_) => 4
    case _ => 0
  }

  /** `nanHead | typeFlag`: the low three bits of the head are zero. */
  const NAN_HEAD: nat := 0x7FF8_0000

  function RefSlot(v: Value, id: Word): Slot {
    Slot(NAN_HEAD + TypeFlag(v), id)
  }

  datatype Count = Infinite | Finite(n: int)

  function Up(c: Count): Count {
    if c.Infinite? then c else Finite(c.n + 1)
  }

  function Down(c: Count): Count {
    if c.Infinite? then c else Finite(c.n - 1)
  }

  datatype Table = Table(values: seq<Value>, counts: seq<Count>, ids: map<Value, nat>, pool: seq<nat>)

  const PREDEFINED: seq<Value> := [NaN, ZERO, Null, Boolean(true), Boolean(false), GLOBAL_THIS, GO]

  const START: Table := Table(
    PREDEFINED,
    [Infinite, Infinite, Infinite, Infinite, Infinite, Infinite, Infinite],
    map[ZERO := 1, Null := 2, Boolean(true) := 3, Boolean(false) := 4, GLOBAL_THIS := 5, GO := 6],
    [])

  /** A JavaScript array has fewer than 2^32 - 1 indices. */
  const MAX_TABLE: nat := 0xFFFF_FFFF

  /** The id under which a new value goes in: the last freed one, else the next unused. */
  function NextId(t: Table): nat {
    if t.pool == [] then |t.values| else t.pool[|t.pool| - 1]
  }

  function Insert(t: Table, v: Value): Table
    requires |t.values| == |t.counts| && NextId(t) <= |t.values|
  {
    var id := NextId(t);
    Table(
      if id == |t.values| then t.values + [v] else t.values[id := v],
      if id == |t.counts| then t.counts + [Finite(1)] else t.counts[id := Finite(1)],
      t.ids[Key(v) := id],
      if t.pool == [] then [] else t.pool[..|t.pool| - 1])
  }

  /** `storeValue` on a value of the table kind. */
  function Hold(t: Table, v: Value): (Table, nat)
    requires |t.values| == |t.counts| && NextId(t) <= |t.values|
    requires Key(v) in t.ids ==> t.ids[Key(v)] < |t.counts|
  {
    if Key(v) in t.ids then
      var id := t.ids[Key(v)];
      (t.(counts := t.counts[id := Up(t.counts[id])]), id)
    else
      (Insert(t, v), NextId(t))
  }

  function Load(t: Table, s: Slot): Value {
    if IsZeroBits(s) then Undefined
    else if !IsNaNBits(s) then Number(s)
    else if s.lo < |t.values| then t.values[s.lo]
    else Undefined
  }

  function Finalize(t: Table, id: nat): Table
    requires |t.values| == |t.counts| && id < |t.values|
  {
    var counts := t.counts[id := Down(t.counts[id])];
    if counts[id] == Finite(0) then
      Table(t.values[id := Null], counts, t.ids - {t.values[id]}, t.pool + [id])
    else t.(counts := counts)
  }

  /** The slot an immediate value is written as. */
  function Immediate(v: Value): Slot
    requires !IsRef(v)
  {
    if v.NaN? then Slot(NAN_HEAD, 0) else if v.Undefined? then Slot(0, 0) else v.bits
  }

  /** `Go` keeps the table in four fields. */
  class Go {
    var values: seq<Value>
    var goRefCounts: seq<Count>
    var ids: map<Value, nat>
    var idPool: seq<nat>

    ghost function State(): Table
      reads this
    {
      Table(values, goRefCounts, ids, idPool)
    }

    constructor ()
      ensures State() == START
    {
      values := PREDEFINED;
      goRefCounts := [Infinite, Infinite, Infinite, Infinite, Infinite, Infinite, Infinite];
      ids := map[ZERO := 1, Null := 2, Boolean(true) := 3, Boolean(false) := 4, GLOBAL_THIS := 5, GO := 6];
      idPool := [];
    }

    method LoadValue(s: Slot) returns (v: Value)
      ensures v == Load(State(), s)
      ensures s == Slot(0, 0) || s == Slot(0x8000_0000, 0) ==> v == Undefined
      ensures 0x7FF8_0000 <= s.hi < 0x8000_0000 && s.lo < |values| && (s.hi != 0x7FF8_0000 || s.lo != 0) ==>
                v == values[s.lo]
    {
      if IsZeroBits(s) {
        return Undefined;
      }
      if !IsNaNBits(s) {
        return Number(s);
      }
      var id := s.lo;
      return if id < |values| then values[id] else Undefined;
    }

    method StoreValue(v: Value) returns (s: Slot)
      requires |values| == |goRefCounts| && |values| < MAX_TABLE && NextId(State()) <= |values|
      requires Key(v) in ids ==> ids[Key(v)] < |goRefCounts|
      modifies this
      ensures !IsRef(v) ==> State() == old(State()) && s == Immediate(v)
      ensures v.NaN? ==> s == Slot(0x7FF8_0000, 0)
      ensures v.Undefined? ==> s == Slot(0, 0)
      ensures v.Number? && !IsZeroBits(v.bits) ==> s == v.bits
      ensures v.Object? ==> s.hi == 0x7FF8_0001
      ensures v.String? ==> s.hi == 0x7FF8_0002
      ensures v.Symbol? ==> s.hi == 0x7FF8_0003
      ensures v.Function? ==> s.hi == 0x7FF8_0004
      ensures v.Null? || v.Boolean? || v.BigInt? || (v.Number? && IsZeroBits(v.bits)) ==> s.hi == 0x7FF8_0000
      ensures IsRef(v) && Key(v) in old(ids) ==>
                s.lo == old(ids)[Key(v)] && values == old(values) && ids == old(ids) && idPool == old(idPool)
      ensures IsRef(v) && Key(v) !in old(ids) ==>
                && s.lo == (if old(idPool) == [] then |old(values)| else old(idPool)[|old(idPool)| - 1])
                && s.lo < |values| && values[s.lo] == v && ids == old(ids)[Key(v) := s.lo]
                && idPool == (if old(idPool) == [] then [] else old(idPool)[..|old(idPool)| - 1])
      ensures IsRef(v) ==> State() == Hold(old(State()), v).0 && s == RefSlot(v, Hold(old(State()), v).1)
    {
      if v.NaN? || (v.Number? && !IsZeroBits(v.bits)) {
        if v.NaN? {
          return Slot(NAN_HEAD, 0);
        }
        return v.bits;
      }
      if v.Undefined? {
        return Slot(0, 0);
      }
      var id;
      if Key(v) in ids {
        id := ids[Key(v)];
      } else {
        if idPool == [] {
          id := |values|;
        } else {
          id := idPool[|idPool| - 1];
          idPool := idPool[..|idPool| - 1];
        }
        if id == |values| {
          values := values + [v];
          goRefCounts := goRefCounts + [Finite(0)];
        } else {
          values := values[id := v];
          goRefCounts := goRefCounts[id := Finite(0)];
        }
        ids := ids[Key(v) := id];
      }
      goRefCounts := goRefCounts[id := Up(goRefCounts[id])];
      return Slot(NAN_HEAD + TypeFlag(v), id);
    }

    method FinalizeRef(id: nat)
      requires |values| == |goRefCounts| && id < |values|
      modifies this
      ensures State() == Finalize(old(State()), id)
      ensures old(goRefCounts)[id] == Finite(1) ==>
                values == old(values)[id := Null] && ids == old(ids) - {old(values)[id]} && idPool == old(idPool) + [id]
      ensures old(goRefCounts)[id] != Finite(1) ==> values == old(values) && ids == old(ids) && idPool == old(idPool)
    {
      goRefCounts := goRefCounts[id := Down(goRefCounts[id])];
      if goRefCounts[id] == Finite(0) {
        var v := values[id];
        values := values[id := Null];
        ids := ids - {v};
        idPool := idPool + [id];
      }
    }
  }
}
