/**
 JavaScript strings as UTF-16 code units, their sort order, and what `TextEncoder.encode` makes
 of them: UTF-8 (section 3 of RFC 3629), with U+FFFD for a surrogate that is not in a pair.
 */
module JsStrings {
  import opened Common
  import opened Lex

  type Unit = u: nat | u < 0x1_0000
  type JsString = seq<Unit>

  type Byte = b: nat | b < 256
  type Bytes = seq<Byte>

  /** A Unicode scalar value. */
  type Scalar = p: nat | p < 0x11_0000 && !(0xD800 <= p < 0xE000)

  const REPLACEMENT: Scalar := 0xFFFD

  // ----- sorting

  ghost predicate Sorted(s: seq<JsString>) {
    forall i, j :: 0 <= i < j < |s| ==> LexLess(s[i], s[j])
  }

  /** `sort()`: by code units. */
  function InsertString(x: JsString, s: seq<JsString>): seq<JsString> {
    if s == [] || LexLess(x, s[0]) then [x] + s else [s[0]] + InsertString(x, s[1..])
  }

  function SortStrings(s: seq<JsString>): seq<JsString> {
    if s == [] then [] else InsertString(s[0], SortStrings(s[1..]))
  }

  lemma {:induction false} InsertStringSorts(x: JsString, s: seq<JsString>)
    requires Sorted(s) && x !in s
    ensures Sorted(InsertString(x, s))
    ensures forall y :: y in InsertString(x, s) <==> y == x || y in s
  {
    if s != [] {
      assert s == [s[0]] + s[1..];
      LexTotal(x, s[0]);
      if LexLess(x, s[0]) {
        forall j | 0 <= j < |s| ensures LexLess(x, s[j]) {
          if j > 0 {
            LexTransitive(x, s[0], s[j]);
          }
        }
      } else {
        var rest := InsertString(x, s[1..]);
        InsertStringSorts(x, s[1..]);
        forall j | 0 <= j < |rest| ensures LexLess(s[0], rest[j]) {
          assert rest[j] in rest;
        }
      }
    }
  }

  lemma {:induction false} SortStringsSorts(s: seq<JsString>)
    requires Distinct(s)
    ensures Sorted(SortStrings(s))
    ensures forall y :: y in SortStrings(s) <==> y in s
  {
    if s != [] {
      SortStringsSorts(s[1..]);
      assert s == [s[0]] + s[1..];
      InsertStringSorts(s[0], SortStrings(s[1..]));
    }
  }

  // ----- code units and scalar values

  predicate IsSurrogate(u: Unit) {
    0xD800 <= u < 0xE000
  }

  predicate StartsPair(s: JsString) {
    |s| >= 2 && 0xD800 <= s[0] < 0xDC00 <= s[1] < 0xE000
  }

  function PairPoint(high: Unit, low: Unit): Scalar
    requires 0xD800 <= high < 0xDC00 <= low < 0xE000
  {
    0x1_0000 + (high - 0xD800) * 0x400 + (low - 0xDC00)
  }

  function Points(s: JsString): seq<Scalar> {
    if s == [] then []
    else if StartsPair(s) then [PairPoint(s[0], s[1])] + Points(s[2..])
    else [if IsSurrogate(s[0]) then REPLACEMENT else s[0]] + Points(s[1..])
  }

  /** Every surrogate is in a pair. */
  predicate WellFormed(s: JsString) {
    s == [] || if StartsPair(s) then WellFormed(s[2..]) else !IsSurrogate(s[0]) && WellFormed(s[1..])
  }

  function UnitsOf(p: Scalar): JsString {
    if p < 0x1_0000 then [p] else [0xD800 + (p - 0x1_0000) / 0x400, 0xDC00 + (p - 0x1_0000) % 0x400]
  }

  function Units(ps: seq<Scalar>): JsString {
    if ps == [] then [] else UnitsOf(ps[0]) + Units(ps[1..])
  }

  lemma PairUnits(high: Unit, low: Unit)
    requires 0xD800 <= high < 0xDC00 <= low < 0xE000
    ensures UnitsOf(PairPoint(high, low)) == [high, low]
  {
  }

  /** The pairs count up from U+10000 in the order of their units, to U+10FFFF. */
  lemma PairsCountUp(high: Unit, low: Unit)
    requires 0xD800 <= high < 0xDC00 <= low < 0xE000
    ensures PairPoint(0xD800, 0xDC00) == 0x1_0000 && PairPoint(0xDBFF, 0xDFFF) == 0x10_FFFF
    ensures low < 0xDFFF ==> PairPoint(high, low + 1) == PairPoint(high, low) + 1
    ensures low == 0xDFFF && high < 0xDBFF ==> PairPoint(high + 1, 0xDC00) == PairPoint(high, low) + 1
  {
  }

  /** The scalar values give the string back exactly when it is well formed. */
  lemma {:induction false} PointsGiveBack(s: JsString)
    ensures |Units(Points(s))| == |s|
    ensures Units(Points(s)) == s <==> WellFormed(s)
    decreases |s|
  {
    if s == [] {
    } else if StartsPair(s) {
      PairUnits(s[0], s[1]);
      PointsGiveBack(s[2..]);
      assert s == [s[0], s[1]] + s[2..];
      assert Units(Points(s)) == [s[0], s[1]] + Units(Points(s[2..]));
      assert Units(Points(s))[2..] == Units(Points(s[2..]));
    } else {
      PointsGiveBack(s[1..]);
      var u: Scalar := if IsSurrogate(s[0]) then REPLACEMENT else s[0];
      assert s == [s[0]] + s[1..];
      assert Units(Points(s)) == [u] + Units(Points(s[1..]));
      assert Units(Points(s))[1..] == Units(Points(s[1..]));
    }
  }

  lemma {:induction false} ZeroPoints(s: JsString)
    ensures 0 in Points(s) <==> 0 in s
    decreases |s|
  {
    if s == [] {
    } else if StartsPair(s) {
      ZeroPoints(s[2..]);
      assert s == [s[0], s[1]] + s[2..];
    } else {
      ZeroPoints(s[1..]);
      assert s == [s[0]] + s[1..];
    }
  }

  lemma {:induction false} ZeroUnits(ps: seq<Scalar>)
    ensures 0 in Units(ps) <==> 0 in ps
  {
    if ps != [] {
      ZeroUnits(ps[1..]);
      assert ps == [ps[0]] + ps[1..];
    }
  }

  // ----- UTF-8

  function Tail(n: nat): Byte {
    0x80 + n % 0x40
  }

  function EncodePoint(p: Scalar): Bytes {
    if p < 0x80 then [p]
    else if p < 0x800 then [0xC0 + p / 0x40, Tail(p)]
    else if p < 0x1_0000 then [0xE0 + p / 0x1000, Tail(p / 0x40), Tail(p)]
    else [0xF0 + p / 0x4_0000, Tail(p / 0x1000), Tail(p / 0x40), Tail(p)]
  }

  /** The table of section 3 of RFC 3629: how many bytes, which bits each carries, and the marks
      that tell first bytes and continuation bytes apart. */
  lemma EncodePointIsUtf8(p: Scalar)
    ensures var b := EncodePoint(p);
      && (p <= 0x7F ==> b == [p])
      && (0x80 <= p <= 0x7FF ==>
            |b| == 2 && 0xC2 <= b[0] <= 0xDF && p == (b[0] as int - 0xC0) * 0x40 + (b[1] as int - 0x80))
      && (0x800 <= p <= 0xFFFF ==>
            |b| == 3 && 0xE0 <= b[0] <= 0xEF
            && p == (b[0] as int - 0xE0) * 0x1000 + (b[1] as int - 0x80) * 0x40 + (b[2] as int - 0x80))
      && (0x1_0000 <= p ==>
            |b| == 4 && 0xF0 <= b[0] <= 0xF4
            && p == (b[0] as int - 0xF0) * 0x4_0000 + (b[1] as int - 0x80) * 0x1000
                    + (b[2] as int - 0x80) * 0x40 + (b[3] as int - 0x80))
      && forall k :: 1 <= k < |b| ==> 0x80 <= b[k] <= 0xBF
  {
    TailIsMarked(p);
    TailIsMarked(p / 0x40);
    TailIsMarked(p / 0x1000);
    TailsSpell(p);
  }

  lemma TailIsMarked(n: nat)
    ensures 0x80 <= Tail(n) <= 0xBF && Low6(Tail(n)) == Tail(n) as int - 0x80
  {
  }

  function EncodePoints(ps: seq<Scalar>): Bytes {
    if ps == [] then [] else EncodePoint(ps[0]) + EncodePoints(ps[1..])
  }

  /** `encoder.encode(s)` */
  function Encode(s: JsString): Bytes {
    EncodePoints(Points(s))
  }

  /** How many bytes the first byte announces. */
  function Span(lead: Byte): nat {
    if lead < 0x80 then 1 else if lead < 0xE0 then 2 else if lead < 0xF0 then 3 else 4
  }

  function Low6(b: Byte): nat {
    b % 0x40
  }

  /** The number its first bytes spell. */
  function FirstPoint(b: Bytes): nat
    requires b != [] && Span(b[0]) <= |b|
  {
    var lead: nat := b[0];
    if lead < 0x80 then lead
    else if lead < 0xE0 then lead % 0x20 * 0x40 + Low6(b[1])
    else if lead < 0xF0 then lead % 0x10 * 0x1000 + Low6(b[1]) * 0x40 + Low6(b[2])
    else lead % 8 * 0x4_0000 + Low6(b[1]) * 0x1000 + Low6(b[2]) * 0x40 + Low6(b[3])
  }

  /** A UTF-8 reader; it stops at a cut-off or impossible sequence. */
  function DecodePoints(b: Bytes): seq<Scalar> {
    if b == [] || Span(b[0]) > |b| then []
    else
      var p := FirstPoint(b);
      if p >= 0x11_0000 || 0xD800 <= p < 0xE000 then [] else [p] + DecodePoints(b[Span(b[0])..])
  }

  function Decode(b: Bytes): JsString {
    Units(DecodePoints(b))
  }

  lemma TailsSpell(p: nat)
    ensures p == p / 0x40 * 0x40 + Low6(Tail(p))
    ensures p == p / 0x1000 * 0x1000 + Low6(Tail(p / 0x40)) * 0x40 + Low6(Tail(p))
    ensures p == p / 0x4_0000 * 0x4_0000 + Low6(Tail(p / 0x1000)) * 0x1000 + Low6(Tail(p / 0x40)) * 0x40 + Low6(Tail(p))
  {
    Low6OfTail(p);
    Low6OfTail(p / 0x40);
    Low6OfTail(p / 0x1000);
    assert p / 0x40 / 0x40 == p / 0x1000 && p / 0x1000 / 0x40 == p / 0x4_0000;
  }

  lemma Low6OfTail(n: nat)
    ensures Low6(Tail(n)) == n % 0x40 && n == n / 0x40 * 0x40 + Low6(Tail(n))
  {
  }

  lemma LeadBack(p: Scalar)
    ensures var lead: nat := EncodePoint(p)[0];
      && Span(lead) == |EncodePoint(p)|
      && (0x80 <= p < 0x800 ==> lead % 0x20 == p / 0x40)
      && (0x800 <= p < 0x1_0000 ==> lead % 0x10 == p / 0x1000)
      && (0x1_0000 <= p ==> lead % 8 == p / 0x4_0000)
  {
  }

  lemma FirstPointOfOne(p: Scalar)
    ensures Span(EncodePoint(p)[0]) == |EncodePoint(p)| && FirstPoint(EncodePoint(p)) == p
  {
    LeadBack(p);
    TailsSpell(p);
  }

  lemma FirstPointBack(p: Scalar, rest: Bytes)
    ensures var b := EncodePoint(p) + rest;
      Span(b[0]) == |EncodePoint(p)| <= |b| && FirstPoint(b) == p && b[Span(b[0])..] == rest
  {
    var one := EncodePoint(p);
    var b := one + rest;
    FirstPointOfOne(p);
    assert forall k :: 0 <= k < |one| ==> b[k] == one[k];
    SamePrefix(b, one);
  }

  lemma SamePrefix(a: Bytes, b: Bytes)
    requires b != [] && b <= a && Span(b[0]) == |b|
    ensures FirstPoint(a) == FirstPoint(b)
  {
  }

  lemma {:induction false} DecodePointsBack(ps: seq<Scalar>)
    ensures DecodePoints(EncodePoints(ps)) == ps
  {
    if ps != [] {
      DecodePointsBack(ps[1..]);
      FirstPointBack(ps[0], EncodePoints(ps[1..]));
      assert ps == [ps[0]] + ps[1..];
    }
  }

  /** Reading the encoding gives the string back exactly when it is well formed. */
  lemma DecodeGivesBack(s: JsString)
    ensures Decode(Encode(s)) == s <==> WellFormed(s)
  {
    DecodePointsBack(Points(s));
    PointsGiveBack(s);
  }

  /** Different well-formed strings have different encodings. */
  lemma EncodeInjective(s: JsString, t: JsString)
    requires WellFormed(s) && WellFormed(t) && Encode(s) == Encode(t)
    ensures s == t
  {
    DecodeGivesBack(s);
    DecodeGivesBack(t);
  }

  lemma ZeroByte(p: Scalar)
    ensures 0 in EncodePoint(p) <==> p == 0
  {
    if p < 0x80 {
      assert EncodePoint(p)[0] == p;
    }
  }

  /** A surrogate outside a pair is encoded as U+FFFD, a string of other units unit by unit. */
  lemma EncodeLaws(u: Unit, rest: JsString)
    requires !StartsPair([u] + rest)
    ensures Encode([u] + rest) == (if IsSurrogate(u) then [0xEF, 0xBF, 0xBD] else EncodePoint(u)) + Encode(rest)
    ensures Encode([]) == []
  {
    assert ([u] + rest)[1..] == rest;
  }

  lemma EncodePairLaw(high: Unit, low: Unit, rest: JsString)
    requires 0xD800 <= high < 0xDC00 <= low < 0xE000
    ensures Encode([high, low] + rest) == EncodePoint(PairPoint(high, low)) + Encode(rest)
  {
    assert ([high, low] + rest)[2..] == rest;
  }

  // ----- NUL-terminated

  /** The bytes before the first zero. */
  function Cut(b: Bytes): Bytes {
    if b == [] || b[0] == 0 then [] else [b[0]] + Cut(b[1..])
  }

  lemma {:induction false} CutSkips(a: Bytes, b: Bytes)
    requires 0 !in a
    ensures Cut(a + b) == a + Cut(b)
  {
    if a == [] {
      assert a + b == b;
    } else {
      assert a == [a[0]] + a[1..] && (a + b)[1..] == a[1..] + b;
      CutSkips(a[1..], b);
    }
  }

  function BeforeZero(ps: seq<Scalar>): seq<Scalar> {
    if ps == [] || ps[0] == 0 then [] else [ps[0]] + BeforeZero(ps[1..])
  }

  lemma {:induction false} CutPoints(ps: seq<Scalar>)
    ensures Cut(EncodePoints(ps)) == EncodePoints(BeforeZero(ps))
    ensures 0 !in BeforeZero(ps)
    ensures BeforeZero(ps) == ps <==> 0 !in ps
  {
    if ps != [] {
      ZeroByte(ps[0]);
      CutPoints(ps[1..]);
      assert ps == [ps[0]] + ps[1..];
      if ps[0] != 0 {
        CutSkips(EncodePoint(ps[0]), EncodePoints(ps[1..]));
        assert BeforeZero(ps)[1..] == BeforeZero(ps[1..]);
      }
    }
  }

  lemma CutEncodedExactly(s: JsString)
    ensures Cut(Encode(s)) == Encode(s) <==> 0 !in s
  {
    ZeroPoints(s);
    CutPoints(Points(s));
    DecodePointsBack(Points(s));
    DecodePointsBack(BeforeZero(Points(s)));
  }

  /** What a reader that stops at the first zero byte recovers is the string exactly when the
      string is well formed and has no NUL. */
  lemma RecoveredExactly(s: JsString)
    ensures Decode(Cut(Encode(s))) == s <==> WellFormed(s) && 0 !in s
  {
    ZeroPoints(s);
    CutPoints(Points(s));
    DecodePointsBack(BeforeZero(Points(s)));
    ZeroUnits(BeforeZero(Points(s)));
    PointsGiveBack(s);
  }
}
