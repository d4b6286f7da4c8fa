/**
 How `run` hands argv and env to WebAssembly (web/wasm_exec.js:506-546): NUL-terminated
 strings from byte 4096 on, each start aligned to 8, then a table of 8-byte pointers with a
 zero after argv and a zero after env.
 */
module ArgvLayouts {
  import opened Common
  import opened JsStrings

  const START_OFFSET: nat := 4096
  const MIN_DATA_ADDR: nat := 4096 + 8192

  datatype LayoutError = RangeError | LimitExceeded

  /** What `run(argc, argv)` is called with. */
  datatype Layout = Layout(argc: nat, argv: nat)

  // ----- reading the memory back

  /** The bytes from `p` up to the first zero. */
  function ReadString(m: Bytes, p: nat): Bytes
    decreases |m| - p
  {
    if p >= |m| || m[p] == 0 then [] else [m[p]] + ReadString(m, p + 1)
  }

  function Word(m: Bytes, a: nat): nat
    requires a + 4 <= |m|
  {
    m[a] as int + 0x100 * m[a + 1] as int + 0x1_0000 * m[a + 2] as int + 0x100_0000 * m[a + 3] as int
  }

  /** The strings of a zero-terminated pointer vector. */
  function ReadVector(m: Bytes, at: nat): seq<Bytes>
    decreases |m| - at
  {
    if at + 8 > |m| || (Word(m, at) == 0 && Word(m, at + 4) == 0) then []
    else [ReadString(m, Word(m, at))] + ReadVector(m, at + 8)
  }

  // ----- what the writer leaves in memory

  /** `text` and its terminating zero stand at `p`, before `end`. */
  ghost predicate Placed(m: Bytes, p: nat, text: Bytes, end: nat) {
    && START_OFFSET <= p && p % 8 == 0 && p + |text| + 1 <= end <= |m|
    && (forall k :: 0 <= k < |text| ==> m[p + k] == text[k]) && m[p + |text|] == 0
  }

  ghost predicate AllPlaced(m: Bytes, ptrs: seq<nat>, texts: seq<Bytes>, end: nat) {
    && |ptrs| == |texts|
    && (forall i :: 0 <= i < |ptrs| ==> Placed(m, ptrs[i], texts[i], end))
    && (forall i, j :: 0 <= i < j < |ptrs| ==> ptrs[i] + |texts[i]| + 1 <= ptrs[j])
  }

  ghost predicate Entries(m: Bytes, at: nat, words: seq<nat>) {
    && at + 8 * |words| <= |m|
    && forall i :: 0 <= i < |words| ==> Word(m, at + 8 * i) == words[i] && Word(m, at + 8 * i + 4) == 0
  }

  lemma {:induction false} ReadPlaced(m: Bytes, p: nat, text: Bytes, end: nat, k: nat)
    requires Placed(m, p, text, end) && k <= |text|
    ensures ReadString(m, p + k) == Cut(text[k..])
    decreases |text| - k
  {
    if k < |text| {
      ReadPlaced(m, p, text, end, k + 1);
      assert text[k..][1..] == text[k + 1..];
    }
  }

  function CutAll(texts: seq<Bytes>): seq<Bytes> {
    seq(|texts|, i requires 0 <= i < |texts| => Cut(texts[i]))
  }

  lemma {:induction false} ReadEntries(m: Bytes, at: nat, ptrs: seq<nat>, texts: seq<Bytes>, end: nat, k: nat)
    requires AllPlaced(m, ptrs, texts, end) && k <= |ptrs|
    requires Entries(m, at, ptrs + [0])
    ensures ReadVector(m, at + 8 * k) == CutAll(texts)[k..]
    decreases |ptrs| - k
  {
    var words := ptrs + [0];
    assert Word(m, at + 8 * k) == words[k] && Word(m, at + 8 * k + 4) == 0;
    if k < |ptrs| {
      assert Placed(m, ptrs[k], texts[k], end);
      ReadPlaced(m, ptrs[k], texts[k], end, 0);
      assert texts[k][0..] == texts[k];
      ReadEntries(m, at, ptrs, texts, end, k + 1);
      assert at + 8 * k + 8 == at + 8 * (k + 1);
      assert CutAll(texts)[k..] == [CutAll(texts)[k]] + CutAll(texts)[k + 1..];
    }
  }

  lemma PlacedFrame(m: Bytes, n: Bytes, ptrs: seq<nat>, texts: seq<Bytes>, end: nat, later: nat)
    requires AllPlaced(m, ptrs, texts, end) && end <= later <= |m| == |n|
    requires forall k :: 0 <= k < end ==> m[k] == n[k]
    ensures AllPlaced(n, ptrs, texts, later)
  {
    forall i | 0 <= i < |ptrs| ensures Placed(n, ptrs[i], texts[i], later) {
      assert Placed(m, ptrs[i], texts[i], end);
    }
  }

  function Aligned(offset: nat): nat {
    if offset % 8 != 0 then offset + (8 - offset % 8) else offset
  }

  lemma AlignedFits(n: nat, length: nat)
    requires length % 8 == 0
    ensures n <= Aligned(n) < n + 8 && Aligned(n) % 8 == 0
    ensures Aligned(n) <= length <==> n <= length
  {
  }

  /** Nothing outside [lo, hi) differs. */
  ghost predicate Untouched(m: Bytes, n: Bytes, lo: nat, hi: nat) {
    |m| == |n| && forall k :: 0 <= k < |m| && (k < lo || hi <= k) ==> m[k] == n[k]
  }

  /** Writes one string at `offset` and returns the next offset, or None past the memory's end. */
  method StrPtr(mem: array<Byte>, offset: nat, text: Bytes) returns (next: Option<nat>)
    requires START_OFFSET <= offset && offset % 8 == 0
    modifies mem
    ensures next == if offset + |text| + 1 > mem.Length then None else Some(Aligned(offset + |text| + 1))
    ensures next.None? ==> mem[..] == old(mem[..])
    ensures next.Some? ==>
              && Placed(mem[..], offset, text, offset + |text| + 1)
              && Untouched(old(mem[..]), mem[..], offset, offset + |text| + 1)
  {
    var bytes := text + [0];
    if offset + |bytes| > mem.Length {
      return None;
    }
    forall i | 0 <= i < |bytes| {
      mem[offset + i] := bytes[i];
    }
    assert forall k :: 0 <= k < |text| ==> mem[offset + k] == bytes[k];
    assert mem[offset + |text|] == bytes[|text|];
    var o := offset + |bytes|;
    if o % 8 != 0 {
      o := o + (8 - o % 8);
    }
    return Some(o);
  }

  lemma FourBytes(w: nat)
    requires w < 0x1_0000_0000
    ensures w / 0x100_0000 < 0x100
    ensures w == w % 0x100 + 0x100 * ((w / 0x100) % 0x100) + 0x1_0000 * ((w / 0x1_0000) % 0x100)
                 + 0x100_0000 * (w / 0x100_0000)
  {
    var x := w / 0x100;
    var y := x / 0x100;
    assert w == 0x100 * x + w % 0x100 && x == 0x100 * y + x % 0x100 && y == 0x100 * (y / 0x100) + y % 0x100;
    assert w / 0x1_0000 == y && w / 0x100_0000 == y / 0x100;
  }

  /** `setUint32(a, v, true)` with a view as long as the memory. */
  method SetUint32(mem: array<Byte>, a: nat, v: nat)
    requires a + 4 <= mem.Length
    modifies mem
    ensures Word(mem[..], a) == v % 0x1_0000_0000
    ensures v < 0x1_0000_0000 ==>
              v == mem[a] as int + mem[a + 1] as int * 0x100
                   + mem[a + 2] as int * 0x1_0000 + mem[a + 3] as int * 0x100_0000
    ensures Untouched(old(mem[..]), mem[..], a, a + 4)
  {
    var w := v % 0x1_0000_0000;
    FourBytes(w);
    mem[a] := w % 0x100;
    mem[a + 1] := (w / 0x100) % 0x100;
    mem[a + 2] := (w / 0x1_0000) % 0x100;
    mem[a + 3] := w / 0x100_0000;
  }

  /** Where the next string would start after `texts` were written from `start` on. */
  function EndOffset(start: nat, texts: seq<Bytes>): nat {
    if texts == [] then start
    else Aligned(EndOffset(start, texts[..|texts| - 1]) + |texts[|texts| - 1]| + 1)
  }

  lemma {:induction false} EndOffsetGrows(start: nat, texts: seq<Bytes>, k: nat)
    requires k <= |texts|
    ensures start <= EndOffset(start, texts[..k]) <= EndOffset(start, texts)
    decreases |texts|
  {
    if k < |texts| {
      EndOffsetGrows(start, texts[..|texts| - 1], k);
      assert texts[..|texts| - 1][..k] == texts[..k];
    } else if texts != [] {
      EndOffsetGrows(start, texts[..|texts| - 1], |texts| - 1);
      assert texts[..k] == texts;
    }
  }

  lemma {:induction false} EndOffsetOfSum(start: nat, a: seq<Bytes>, b: seq<Bytes>)
    ensures EndOffset(start, a + b) == EndOffset(EndOffset(start, a), b)
  {
    if b == [] {
      assert a + b == a;
    } else {
      EndOffsetOfSum(start, a, b[..|b| - 1]);
      assert (a + b)[..|a + b| - 1] == a + b[..|b| - 1];
    }
  }

  lemma PlacedSnoc(m: Bytes, ptrs: seq<nat>, texts: seq<Bytes>, p: nat, text: Bytes, end: nat)
    requires AllPlaced(m, ptrs, texts, end) && Placed(m, p, text, end)
    requires forall i :: 0 <= i < |ptrs| ==> ptrs[i] + |texts[i]| + 1 <= p
    ensures AllPlaced(m, ptrs + [p], texts + [text], end)
  {
  }

  lemma PlacedOneMore(m: Bytes, n: Bytes, ptrs: seq<nat>, texts: seq<Bytes>, p: nat, text: Bytes, next: nat)
    requires AllPlaced(m, ptrs, texts, p) && p <= next <= |m| && Untouched(m, n, p, next)
    requires Placed(n, p, text, next)
    ensures AllPlaced(n, ptrs + [p], texts + [text], next)
  {
    PlacedFrame(m, n, ptrs, texts, p, next);
    forall i | 0 <= i < |ptrs| ensures ptrs[i] + |texts[i]| + 1 <= p {
      assert Placed(m, ptrs[i], texts[i], p);
    }
    PlacedSnoc(n, ptrs, texts, p, text, next);
  }

  lemma EndOffsetStep(start: nat, texts: seq<Bytes>, i: nat)
    requires i < |texts|
    ensures texts[..i + 1] == texts[..i] + [texts[i]]
    ensures EndOffset(start, texts[..i + 1]) == Aligned(EndOffset(start, texts[..i]) + |texts[i]| + 1)
    ensures EndOffset(start, texts[..i + 1]) <= EndOffset(start, texts)
  {
    assert texts[..i + 1][..i] == texts[..i];
    EndOffsetGrows(start, texts, i + 1);
  }

  /** One turn of a string loop: the strings so far stay, and the next one joins them. */
  method AppendString(mem: array<Byte>, offset: nat, ghost ptrs: seq<nat>, ghost start: nat, texts: seq<Bytes>, i: nat)
    returns (next: Option<nat>)
    requires mem.Length % 8 == 0 && i < |texts|
    requires START_OFFSET <= offset <= mem.Length && offset % 8 == 0 && offset == EndOffset(start, texts[..i])
    requires AllPlaced(mem[..], ptrs, texts[..i], offset)
    modifies mem
    ensures var end := EndOffset(start, texts[..i + 1]);
      next == if end > mem.Length then None else Some(end)
    ensures next.None? ==> mem[..] == old(mem[..]) && EndOffset(start, texts) > mem.Length
    ensures next.Some? ==>
              && offset <= next.value && next.value % 8 == 0
              && AllPlaced(mem[..], ptrs + [offset], texts[..i + 1], next.value)
              && Untouched(old(mem[..]), mem[..], offset, next.value)
  {
    ghost var before := mem[..];
    EndOffsetStep(start, texts, i);
    AlignedFits(offset + |texts[i]| + 1, mem.Length);
    next := StrPtr(mem, offset, texts[i]);
    if next.Some? {
      PlacedOneMore(before, mem[..], ptrs, texts[..i], offset, texts[i], next.value);
    }
  }

  /** One of the two loops that write strings. */
  method WriteStrings(mem: array<Byte>, start: nat, texts: seq<Bytes>) returns (r: Option<nat>, ptrs: seq<nat>)
    requires mem.Length % 8 == 0 && START_OFFSET <= start <= mem.Length && start % 8 == 0
    modifies mem
    ensures r == if EndOffset(start, texts) > mem.Length then None else Some(EndOffset(start, texts))
    ensures Untouched(old(mem[..]), mem[..], start, if r.Some? then r.value else mem.Length)
    ensures r.Some? ==> r.value % 8 == 0 && start <= r.value && AllPlaced(mem[..], ptrs, texts, r.value)
    ensures r.Some? ==> forall i :: 0 <= i < |ptrs| ==> start <= ptrs[i]
  {
    ptrs := [];
    var offset := start;
    for i := 0 to |texts|
      invariant start <= offset <= mem.Length && offset % 8 == 0
      invariant offset == EndOffset(start, texts[..i])
      invariant AllPlaced(mem[..], ptrs, texts[..i], offset)
      invariant forall j :: 0 <= j < |ptrs| ==> start <= ptrs[j]
      invariant Untouched(old(mem[..]), mem[..], start, offset)
    {
      var next := AppendString(mem, offset, ptrs, start, texts, i);
      if next.None? {
        return None, ptrs;
      }
      ptrs := ptrs + [offset];
      offset := next.value;
    }
    assert texts[..|texts|] == texts;
    return Some(offset), ptrs;
  }

  /** One turn of the pointer loop. */
  method WriteEntry(mem: array<Byte>, ghost at: nat, words: seq<nat>, i: nat, offset: nat)
    requires i < |words| && offset == at + 8 * i && offset + 8 <= mem.Length
    requires words[i] < 0x1_0000_0000 && Entries(mem[..], at, words[..i])
    modifies mem
    ensures Entries(mem[..], at, words[..i + 1])
    ensures Untouched(old(mem[..]), mem[..], offset, offset + 8)
  {
    ghost var before := mem[..];
    SetUint32(mem, offset, words[i]);
    ghost var mid := mem[..];
    SetUint32(mem, offset + 4, 0);
    SameWord(mid, mem[..], offset);
    forall k | 0 <= k < i
      ensures Word(mem[..], at + 8 * k) == words[k] && Word(mem[..], at + 8 * k + 4) == 0
    {
      SameWord(before, mem[..], at + 8 * k);
      SameWord(before, mem[..], at + 8 * k + 4);
      assert words[..i][k] == words[k];
    }
  }

  lemma SameWord(m: Bytes, n: Bytes, a: nat)
    requires |m| == |n| && a + 4 <= |m| && forall k :: a <= k < a + 4 ==> m[k] == n[k]
    ensures Word(m, a) == Word(n, a)
  {
  }

  /** The loop that writes the pointers, 8 bytes each. */
  method WriteVector(mem: array<Byte>, at: nat, words: seq<nat>) returns (r: Option<nat>)
    requires at <= mem.Length && forall w :: w in words ==> w < 0x1_0000_0000
    modifies mem
    ensures r == if at + 8 * |words| > mem.Length then None else Some(at + 8 * |words|)
    ensures r.Some? ==> Entries(mem[..], at, words) && Untouched(old(mem[..]), mem[..], at, r.value)
  {
    var offset := at;
    for i := 0 to |words|
      invariant offset == at + 8 * i <= mem.Length
      invariant Entries(mem[..], at, words[..i])
      invariant Untouched(old(mem[..]), mem[..], at, offset)
    {
      if offset + 8 > mem.Length {
        return None;
      }
      assert words[i] in words;
      WriteEntry(mem, at, words, i, offset);
      offset := offset + 8;
    }
    assert words[..|words|] == words;
    return Some(offset);
  }

  function EncodeAll(ss: seq<JsString>): seq<Bytes> {
    seq(|ss|, i requires 0 <= i < |ss| => Encode(ss[i]))
  }

  const EQUALS: JsString := [0x3D]

  /** The `key=value` lines for the given keys. */
  function EnvLines(keys: seq<JsString>, env: map<JsString, JsString>): (lines: seq<JsString>)
    requires forall k :: k in keys ==> k in env
    ensures |lines| == |keys|
    ensures forall i :: 0 <= i < |keys| ==>
              && |lines[i]| == |keys[i]| + 1 + |env[keys[i]]| && keys[i] <= lines[i]
              && lines[i][|keys[i]|] == '=' as int && lines[i][|keys[i]| + 1..] == env[keys[i]]
  {
    seq(|keys|, i requires 0 <= i < |keys| => keys[i] + EQUALS + env[keys[i]])
  }

  lemma TwoVectors(m: Bytes, at: nat, p: seq<nat>, q: seq<nat>)
    requires Entries(m, at, p + [0] + (q + [0]))
    ensures Entries(m, at, p + [0]) && Entries(m, at + 8 * (|p| + 1), q + [0])
  {
    var words := p + [0] + (q + [0]);
    forall i | 0 <= i < |p| + 1 ensures Word(m, at + 8 * i) == (p + [0])[i] && Word(m, at + 8 * i + 4) == 0 {
      assert words[i] == (p + [0])[i];
    }
    forall i | 0 <= i < |q| + 1
      ensures Word(m, at + 8 * (|p| + 1) + 8 * i) == (q + [0])[i] && Word(m, at + 8 * (|p| + 1) + 8 * i + 4) == 0
    {
      assert words[|p| + 1 + i] == (q + [0])[i];
      assert at + 8 * (|p| + 1) + 8 * i == at + 8 * (|p| + 1 + i);
    }
  }

  lemma PlacedJoined(m: Bytes, p: seq<nat>, a: seq<Bytes>, mid: nat, q: seq<nat>, b: seq<Bytes>, end: nat)
    requires AllPlaced(m, p, a, mid) && mid <= end <= |m| && AllPlaced(m, q, b, end)
    requires forall i :: 0 <= i < |q| ==> mid <= q[i]
    ensures AllPlaced(m, p + q, a + b, end)
  {
    forall i | 0 <= i < |p| + |q| ensures Placed(m, (p + q)[i], (a + b)[i], end) {
      if i < |p| {
        assert Placed(m, p[i], a[i], mid);
      } else {
        assert Placed(m, q[i - |p|], b[i - |p|], end);
      }
    }
    forall i, j | 0 <= i < j < |p| + |q| ensures (p + q)[i] + |(a + b)[i]| + 1 <= (p + q)[j] {
      if i < |p| <= j {
        assert Placed(m, p[i], a[i], mid);
      }
    }
  }

  /** Object.keys(env).sort() */
  method SortedKeys(env: map<JsString, JsString>) returns (keys: seq<JsString>)
    ensures Sorted(keys) && forall k :: k in keys <==> k in env
  {
    var order: seq<JsString> := [];
    var todo := env.Keys;
    while todo != {}
      invariant todo <= env.Keys && Distinct(order)
      invariant forall k :: k in env <==> k in todo || k in order
      invariant forall k :: k in todo ==> k !in order
    {
      var k :| k in todo;
      order := order + [k];
      todo := todo - {k};
    }
    SortStringsSorts(order);
    keys := SortStrings(order);
  }

  /** The two string loops: argv first, then the environment lines. */
  method WriteBoth(mem: array<Byte>, args: seq<Bytes>, lines: seq<Bytes>)
    returns (end: Option<nat>, p: seq<nat>, q: seq<nat>)
    requires mem.Length % 8 == 0 && START_OFFSET <= mem.Length
    modifies mem
    ensures end == if EndOffset(START_OFFSET, args + lines) > mem.Length then None
                   else Some(EndOffset(START_OFFSET, args + lines))
    ensures end.Some? ==>
              && end.value % 8 == 0 && |p| == |args|
              && AllPlaced(mem[..], p + q, args + lines, end.value)
              && Untouched(old(mem[..]), mem[..], START_OFFSET, end.value)
  {
    EndOffsetOfSum(START_OFFSET, args, lines);
    EndOffsetGrows(START_OFFSET, args + lines, |args|);
    assert (args + lines)[..|args|] == args;
    var mid;
    q := [];
    mid, p := WriteStrings(mem, START_OFFSET, args);
    if mid.None? {
      return None, p, q;
    }
    ghost var before := mem[..];
    end, q := WriteStrings(mem, mid.value, lines);
    if end.Some? {
      PlacedFrame(before, mem[..], p, args, mid.value, mid.value);
      PlacedJoined(mem[..], p, args, mid.value, q, lines, end.value);
    }
  }

  /** `run` up to the call of the exported function. It succeeds exactly when everything ends
      before the program's own data. */
  method PassArgs(mem: array<Byte>, args: seq<JsString>, env: map<JsString, JsString>)
    returns (r: Result<Layout, LayoutError>, ghost keys: seq<JsString>, ghost ptrs: seq<nat>)
    requires 0 < mem.Length <= 0x1_0000_0000 && mem.Length % 0x1_0000 == 0
    modifies mem
    ensures Sorted(keys) && forall k :: k in keys <==> k in env
    ensures var texts := EncodeAll(args) + EncodeAll(EnvLines(keys, env));
      && (r.Ok? <==> EndOffset(4096, texts) + 8 * (|texts| + 2) < 12288)
      && (r.Ok? ==>
            && r.value.argc == |args| && r.value.argv + 8 * (|texts| + 2) < 12288
            && (forall w :: w in ptrs ==> 4096 <= w && w % 8 == 0)
            && Laid(mem[..], r.value, args, EnvLines(keys, env), ptrs)
            && Untouched(old(mem[..]), mem[..], START_OFFSET, MIN_DATA_ADDR))
  {
    var order := SortedKeys(env);
    keys, ptrs := order, [];
    var a, b := EncodeAll(args), EncodeAll(EnvLines(order, env));
    var end, p, q := WriteBoth(mem, a, b);
    if end.None? {
      return Err(RangeError), keys, ptrs;
    }
    ghost var before := mem[..];
    ptrs := p + q;
    var words := p + [0] + (q + [0]);
    PointersFit(before, ptrs, a + b, end.value);
    assert forall w :: w in words ==> w == 0 || w in ptrs;
    var offset := WriteVector(mem, end.value, words);
    if offset.None? {
      return Err(RangeError), keys, ptrs;
    }
    if offset.value >= MIN_DATA_ADDR {
      return Err(LimitExceeded), keys, ptrs;
    }
    PlacedFrame(before, mem[..], ptrs, a + b, end.value, end.value);
    assert ptrs[..|args|] == p && ptrs[|args|..] == q;
    return Ok(Layout(|args|, end.value)), keys, ptrs;
  }

  lemma PointersFit(m: Bytes, ptrs: seq<nat>, texts: seq<Bytes>, end: nat)
    requires AllPlaced(m, ptrs, texts, end)
    ensures forall w :: w in ptrs ==> START_OFFSET <= w < |m| && w % 8 == 0
  {
    forall w | w in ptrs ensures START_OFFSET <= w < |m| && w % 8 == 0 {
      var i :| 0 <= i < |ptrs| && ptrs[i] == w;
      assert Placed(m, ptrs[i], texts[i], end);
    }
  }

  /** Strings at `ptrs`, in order, 8-aligned and pairwise disjoint; after them the two
      zero-terminated pointer vectors. */
  ghost predicate Laid(m: Bytes, layout: Layout, args: seq<JsString>, lines: seq<JsString>, ptrs: seq<nat>) {
    && AllPlaced(m, ptrs, EncodeAll(args) + EncodeAll(lines), layout.argv)
    && layout.argc == |args| && layout.argv % 8 == 0
    && Entries(m, layout.argv, ptrs[..|args|] + [0] + (ptrs[|args|..] + [0]))
  }

  lemma ReadPlacedVector(m: Bytes, at: nat, ptrs: seq<nat>, texts: seq<Bytes>, end: nat)
    requires AllPlaced(m, ptrs, texts, end) && Entries(m, at, ptrs + [0])
    ensures ReadVector(m, at) == CutAll(texts)
  {
    ReadEntries(m, at, ptrs, texts, end, 0);
    assert CutAll(texts)[0..] == CutAll(texts);
  }

  function DecodeAll(texts: seq<Bytes>): seq<JsString> {
    seq(|texts|, i requires 0 <= i < |texts| => Decode(texts[i]))
  }

  /** Following the pointers from argv up to each zero, and each pointer up to the first zero
      byte, gives the encodings of argv and then of the environment lines, each up to its first
      NUL. */
  lemma LaidReadsBack(m: Bytes, layout: Layout, args: seq<JsString>, lines: seq<JsString>, ptrs: seq<nat>)
    requires Laid(m, layout, args, lines, ptrs)
    ensures ReadVector(m, layout.argv) == CutAll(EncodeAll(args))
    ensures ReadVector(m, layout.argv + 8 * (layout.argc + 1)) == CutAll(EncodeAll(lines))
  {
    var p, q := ptrs[..|args|], ptrs[|args|..];
    TwoVectors(m, layout.argv, p, q);
    PlacedSplit(m, ptrs, EncodeAll(args), EncodeAll(lines), layout.argv);
    ReadPlacedVector(m, layout.argv, p, EncodeAll(args), layout.argv);
    ReadPlacedVector(m, layout.argv + 8 * (layout.argc + 1), q, EncodeAll(lines), layout.argv);
  }

  lemma AllRecoveredExactly(ss: seq<JsString>)
    ensures DecodeAll(CutAll(EncodeAll(ss))) == ss <==> forall s :: s in ss ==> WellFormed(s) && 0 !in s
    ensures CutAll(EncodeAll(ss)) == EncodeAll(ss) <==> forall s :: s in ss ==> 0 !in s
  {
    var back := DecodeAll(CutAll(EncodeAll(ss)));
    forall i | 0 <= i < |ss| ensures back[i] == ss[i] <==> WellFormed(ss[i]) && 0 !in ss[i] {
      RecoveredExactly(ss[i]);
    }
    forall i | 0 <= i < |ss| ensures CutAll(EncodeAll(ss))[i] == EncodeAll(ss)[i] <==> 0 !in ss[i] {
      CutEncodedExactly(ss[i]);
    }
    assert (forall i :: 0 <= i < |ss| ==> back[i] == ss[i]) ==> back == ss;
    assert (forall s :: s in ss ==> 0 !in s) ==> CutAll(EncodeAll(ss)) == EncodeAll(ss);
  }

  /** The program finds exactly argv and exactly the environment lines if and only if none of
      these strings has a NUL or an unpaired surrogate. With NULs excluded it finds exactly
      their encodings. */
  lemma LaidIsRecovered(m: Bytes, layout: Layout, args: seq<JsString>, lines: seq<JsString>, ptrs: seq<nat>)
    requires Laid(m, layout, args, lines, ptrs)
    ensures (DecodeAll(ReadVector(m, layout.argv)) == args
             && DecodeAll(ReadVector(m, layout.argv + 8 * (layout.argc + 1))) == lines)
            <==> forall s :: s in args || s in lines ==> WellFormed(s) && 0 !in s
    ensures (ReadVector(m, layout.argv) == EncodeAll(args)
             && ReadVector(m, layout.argv + 8 * (layout.argc + 1)) == EncodeAll(lines))
            <==> forall s :: s in args || s in lines ==> 0 !in s
  {
    LaidReadsBack(m, layout, args, lines, ptrs);
    AllRecoveredExactly(args);
    AllRecoveredExactly(lines);
  }

  lemma PlacedSplit(m: Bytes, ptrs: seq<nat>, a: seq<Bytes>, b: seq<Bytes>, end: nat)
    requires AllPlaced(m, ptrs, a + b, end)
    ensures AllPlaced(m, ptrs[..|a|], a, end) && AllPlaced(m, ptrs[|a|..], b, end)
  {
    forall i | 0 <= i < |a| ensures Placed(m, ptrs[..|a|][i], a[i], end) {
      assert Placed(m, ptrs[i], (a + b)[i], end);
    }
    forall i | 0 <= i < |b| ensures Placed(m, ptrs[|a|..][i], b[i], end) {
      assert Placed(m, ptrs[|a| + i], (a + b)[|a| + i], end);
    }
    assert forall i :: 0 <= i < |b| ==> b[i] == (a + b)[|a| + i];
  }
}
