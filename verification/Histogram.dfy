/**
 The latency histogram: power-of-two buckets of equal-width slots. Percentiles
 are compared with the sorted sequence of what was recorded.
 */
module Histogram {

  import opened Bytes

  const INT64_MAX := 0x7FFF_FFFF_FFFF_FFFF

  function Pow10(k: nat): (p: nat)
    ensures p >= 1
  {
    if k == 0 then 1 else 10 * Pow10(k - 1)
  }

  // 64 - countl_zero
  function BitLength(n: nat): nat {
    if n == 0 then 0 else 1 + BitLength(n / 2)
  }

  /** bits: precision bits; limit: the first value past the last bucket. */
  datatype Layout = Layout(maxTrackable: nat, digits: nat, bits: nat, buckets: nat)

  function Half(l: Layout): nat {
    if l.bits == 0 then 1 else Pow2(l.bits - 1)
  }

  function CountsLen(l: Layout): nat {
    (l.buckets + 1) * Half(l)
  }

  // countl_zero sees the value with the low precision bits set.
  function BucketIndex(l: Layout, value: nat): nat {
    if BitLength(value) <= l.bits then 0 else BitLength(value) - l.bits
  }

  function SlotNumber(bucket: nat, half: nat, value: nat, width: nat): nat
    requires width > 0
  {
    bucket * half + value / width
  }

  // The slot before clamping.
  function RawIndex(l: Layout, value: nat): nat {
    var b := BucketIndex(l, value);
    SlotNumber(b, Half(l), value, Pow2(b))
  }

  function IndexFor(l: Layout, value: nat): int {
    var index := RawIndex(l, value);
    if index < CountsLen(l) then index else CountsLen(l) - 1
  }

  function ValueForIndex(l: Layout, index: nat): nat {
    var q, r := index / Half(l), index % Half(l);
    if q == 0 then r else (r + Half(l)) * Pow2(q - 1)
  }

  function SlotWidth(l: Layout, index: nat): nat {
    var q := index / Half(l);
    Pow2(if q > 0 then q - 1 else 0)
  }

  // What ValueAtPercentile reports for a slot.
  function HighestFor(l: Layout, index: nat): nat {
    ValueForIndex(l, index) + SlotWidth(l, index) - 1
  }

  ghost predicate WellFormed(l: Layout) {
    && 2 <= l.maxTrackable <= INT64_MAX && 1 <= l.digits <= 5
    && l.bits >= 1 && Pow2(l.bits) >= 2 * Pow10(l.digits) && (l.bits > 1 ==> Pow2(l.bits - 1) < 2 * Pow10(l.digits))
    && l.buckets >= 1
    && (l.maxTrackable < Pow2(l.bits + l.buckets - 1) || Pow2(l.bits + l.buckets - 1) == Pow2(62))
    && (l.buckets > 1 ==> Pow2(l.bits + l.buckets - 2) <= l.maxTrackable && l.bits + l.buckets - 1 <= 62)
  }

  // -------------------------------------------------------------- arithmetic

  lemma {:induction false} PowAdd(a: nat, b: nat)
    ensures Pow2(a + b) == Pow2(a) * Pow2(b)
  {
    hide Pow2;
    if a == 0 {
      PowStep(1);
    } else {
      PowAdd(a - 1, b);
      PowStep(a + b);
      PowStep(a);
      Doubled(Pow2(a - 1), Pow2(b));
    }
  }

  lemma Doubled(x: int, y: int)
    ensures (2 * x) * y == 2 * (x * y)
  {
  }

  lemma PowStep(n: nat)
    requires n > 0
    ensures Pow2(n) == 2 * Pow2(n - 1) && Pow2(0) == 1
  {
  }

  lemma {:induction false} PowMonotone(a: nat, b: nat)
    requires a <= b
    ensures Pow2(a) <= Pow2(b)
    decreases b - a
  {
    if a < b {
      PowMonotone(a, b - 1);
    }
  }

  lemma {:induction false} BitLengthBounds(n: nat)
    ensures n < Pow2(BitLength(n))
    ensures if n == 0 then BitLength(n) == 0 else BitLength(n) > 0 && Pow2(BitLength(n) - 1) <= n
  {
    if n > 0 {
      BitLengthBounds(n / 2);
    }
  }

  lemma {:induction false} BitLengthMonotone(m: nat, n: nat)
    requires m <= n
    ensures BitLength(m) <= BitLength(n)
  {
    if m > 0 {
      BitLengthMonotone(m / 2, n / 2);
    }
  }

  lemma DivBounds(n: nat, d: nat)
    requires d > 0
    ensures n / d * d <= n < (n / d + 1) * d
  {
  }

  lemma DivLess(n: nat, d: nat, q: nat)
    requires d > 0 && n < q * d
    ensures n / d < q
  {
    if n / d >= q {
      Bytes.MulMonotone(d, q, n / d);
    }
  }

  lemma DivAtLeast(n: nat, d: nat, q: nat)
    requires d > 0 && q * d <= n
    ensures n / d >= q
  {
    if n / d < q {
      Bytes.MulMonotone(d, n / d + 1, q);
    }
  }

  // ------------------------------------------------------------------- slots

  // Where a value sits: bucket 0 holds it exactly, later buckets in their upper half.
  lemma SlotOf(l: Layout, value: nat)
    requires l.bits >= 1
    ensures var b := BucketIndex(l, value); var sub := value / Pow2(b);
      && sub < 2 * Half(l) && (b > 0 ==> sub >= Half(l))
      && sub * Pow2(b) <= value < (sub + 1) * Pow2(b)
      && (b == 0 ==> sub == value)
  {
    hide Pow2, BitLength;
    var b, n := BucketIndex(l, value), BitLength(value);
    BitLengthBounds(value);
    DivBounds(value, Pow2(b));
    PowStep(l.bits);
    if b == 0 {
      PowMonotone(n, l.bits);
    } else {
      PowAdd(l.bits, b);
      DivLess(value, Pow2(b), Pow2(l.bits));
      PowAdd(l.bits - 1, b);
      DivAtLeast(value, Pow2(b), Half(l));
    }
  }

  // The slot number read back.
  lemma RawIndexParts(l: Layout, value: nat)
    requires l.bits >= 1
    ensures var b := BucketIndex(l, value); var sub := value / Pow2(b); var i := RawIndex(l, value);
      if sub < Half(l) then i / Half(l) == 0 && i % Half(l) == sub && b == 0
      else i / Half(l) == b + 1 && i % Half(l) == sub - Half(l)
  {
    hide Pow2, Half, BucketIndex;
    SlotOf(l, value);
    var b, h := BucketIndex(l, value), Half(l);
    var sub := value / Pow2(b);
    if sub < h {
      assert b * h == 0;
      Bytes.DivModUnique(RawIndex(l, value), h, 0, sub);
    } else {
      assert h * (b + 1) == b * h + h;
      Bytes.DivModUnique(RawIndex(l, value), h, b + 1, sub - h);
    }
  }

  lemma NextMultiple(a: nat, b: nat, h: nat)
    requires a < b
    ensures a * h + h <= b * h
  {
    Bytes.MulMonotone(h, a + 1, b);
  }

  lemma RawIndexMonotone(l: Layout, v: nat, w: nat)
    requires l.bits >= 1 && v <= w
    ensures RawIndex(l, v) <= RawIndex(l, w)
  {
    hide Half, Pow2, BitLength;
    var b, c := BucketIndex(l, v), BucketIndex(l, w);
    BitLengthMonotone(v, w);
    SlotOf(l, v);
    SlotOf(l, w);
    if b == c {
      DivAtLeast(w, Pow2(b), v / Pow2(b));
    } else {
      NextMultiple(b, c, Half(l));
    }
  }

  // The slot is inside the table exactly for the values below the last bucket's end.
  lemma RawIndexInRange(l: Layout, value: nat)
    requires l.bits >= 1 && l.buckets >= 1
    ensures RawIndex(l, value) < CountsLen(l) <==> value < Pow2(l.bits + l.buckets - 1)
  {
    hide Half, Pow2, BitLength;
    var b, h := BucketIndex(l, value), Half(l);
    SlotOf(l, value);
    BucketInRange(l, value);
    assert CountsLen(l) == l.buckets * h + h;
    if b < l.buckets {
      NextMultiple(b, l.buckets, h);
    } else {
      Bytes.MulMonotone(h, l.buckets, b);
    }
  }

  lemma BucketInRange(l: Layout, value: nat)
    requires l.bits >= 1 && l.buckets >= 1
    ensures BucketIndex(l, value) < l.buckets <==> value < Pow2(l.bits + l.buckets - 1)
  {
    hide Pow2, BitLength;
    var n := BitLength(value);
    BitLengthBounds(value);
    if n <= l.bits + l.buckets - 1 {
      PowMonotone(n, l.bits + l.buckets - 1);
    } else {
      PowMonotone(l.bits + l.buckets - 1, n - 1);
      BitLengthZero(value);
    }
  }

  lemma BitLengthZero(n: nat)
    ensures BitLength(n) > 0 ==> n > 0
  {
  }

  /** A reported value: never below the recorded one, and above it by less than one part in 10^digits. */
  ghost predicate CloseAbove(l: Layout, value: nat, reported: nat) {
    value <= reported && (reported == value || (reported - value) * Pow10(l.digits) < value)
  }

  lemma RawClose(l: Layout, value: nat)
    requires l.bits >= 1 && Pow2(l.bits) >= 2 * Pow10(l.digits)
    ensures CloseAbove(l, value, HighestFor(l, RawIndex(l, value)))
  {
    SlotOf(l, value);
    RawIndexParts(l, value);
    var b := BucketIndex(l, value);
    var sub, p := value / Pow2(b), Pow2(b);
    if b > 0 {
      var reported := HighestFor(l, RawIndex(l, value));
      assert reported == sub * p + p - 1;
      assert (sub + 1) * p == sub * p + p;
      assert reported - value <= p - 1;
      SmallError(reported - value, p, Pow10(l.digits), Half(l), value, sub);
    }
  }

  lemma SmallError(e: nat, p: nat, ten: nat, half: nat, value: nat, sub: nat)
    requires e < p && 0 < ten <= half <= sub && sub * p <= value
    ensures e * ten < value
  {
    Bytes.MulMonotone(ten, e, p - 1);
    Bytes.MulMonotone(p, ten, sub);
    assert (p - 1) * ten == p * ten - ten;
  }

  lemma IndexInRange(l: Layout, value: nat)
    requires WellFormed(l)
    ensures 0 <= IndexFor(l, value) < CountsLen(l)
  {
    hide Pow2, Pow10, RawIndex;
    Bytes.MulMonotone(Half(l), 1, l.buckets + 1);
  }

  lemma IndexMonotone(l: Layout, v: nat, w: nat)
    requires WellFormed(l) && v <= w
    ensures IndexFor(l, v) <= IndexFor(l, w)
  {
    hide RawIndex, CountsLen, Pow2, Pow10;
    RawIndexMonotone(l, v, w);
  }

  // ------------------------------------------------------- the error bound

  ghost predicate Accurate(l: Layout)
    requires WellFormed(l)
  {
    forall v: nat :: v <= l.maxTrackable ==> CloseAbove(l, v, Reported(l, v))
  }

  ghost function Reported(l: Layout, value: nat): nat
    requires WellFormed(l)
  {
    IndexInRange(l, value);
    HighestFor(l, IndexFor(l, value))
  }

  /** Value by value: the bound holds exactly below 2^62, where the bucket loop stops. */
  lemma CloseIff(l: Layout, v: nat)
    requires WellFormed(l) && v <= l.maxTrackable
    ensures CloseAbove(l, v, Reported(l, v)) <==> v < Pow2(62)
  {
    hide Pow2, Pow10, HighestFor, RawIndex, CountsLen;
    RawIndexInRange(l, v);
    if v < Pow2(62) {
      RawClose(l, v);
    } else {
      TopBucket(l);
      LastSlot(l);
    }
  }

  /** The error bound holds for every trackable value exactly when the range ends below 2^62. */
  lemma AccurateIff(l: Layout)
    requires WellFormed(l)
    ensures Accurate(l) <==> l.maxTrackable < Pow2(62)
  {
    hide Pow2, CloseAbove, WellFormed;
    forall v: nat | v <= l.maxTrackable
      ensures CloseAbove(l, v, Reported(l, v)) <==> v < Pow2(62)
    {
      CloseIff(l, v);
    }
    assert Pow2(62) <= l.maxTrackable ==> !CloseAbove(l, Pow2(62), Reported(l, Pow2(62)));
  }

  lemma TopBucket(l: Layout)
    requires WellFormed(l) && l.maxTrackable >= Pow2(62)
    ensures Pow2(l.bits + l.buckets - 1) == Pow2(62)
  {
    hide Pow2, Pow10;
    if l.buckets == 1 {
      FewBits(l.bits, l.digits);
    } else {
      PowMonotone(l.bits + l.buckets - 1, 62);
    }
  }

  lemma FewBits(bits: nat, digits: nat)
    requires bits >= 1 && digits <= 5 && (bits > 1 ==> Pow2(bits - 1) < 2 * Pow10(digits))
    ensures Pow2(bits) < Pow2(62)
  {
    hide Pow2, Pow10;
    TenPowers(digits);
    Powers();
    if bits >= 20 {
      PowMonotone(19, bits - 1);
    } else {
      PowMonotone(bits, 20);
    }
  }

  lemma TenPowers(d: nat)
    requires d <= 5
    ensures Pow10(d) <= 100000
  {
    assert Pow10(1) == 10 && Pow10(2) == 100 && Pow10(3) == 1000 && Pow10(4) == 10000 && Pow10(5) == 100000;
  }

  lemma Powers()
    ensures Pow2(19) == 0x8_0000 && Pow2(20) == 0x10_0000 && Pow2(62) == 0x4000_0000_0000_0000
  {
    assert Pow2(5) == 32 && Pow2(10) == 1024;
    PowAdd(10, 9);
    PowAdd(10, 10);
    PowAdd(20, 20);
    PowAdd(40, 20);
    PowAdd(60, 2);
  }

  lemma LastSlot(l: Layout)
    requires WellFormed(l)
    ensures CountsLen(l) > 0 && HighestFor(l, CountsLen(l) - 1) == Pow2(l.bits + l.buckets - 1) - 1
  {
    hide Pow10, Pow2, Half, CountsLen, ValueForIndex, SlotWidth, WellFormed;
    WellFormedParts(l);
    HalfDouble(l);
    LenSplit(l);
    var h, p := Half(l), Pow2(l.buckets - 1);
    SlotParts(l, CountsLen(l) - 1, l.buckets, h - 1);
    PowAdd(l.bits, l.buckets - 1);
    LastProduct(h, p);
  }

  lemma WellFormedParts(l: Layout)
    requires WellFormed(l)
    ensures l.bits >= 1 && l.buckets >= 1
  {
  }

  lemma LenSplit(l: Layout)
    ensures CountsLen(l) == Half(l) * l.buckets + Half(l)
  {
  }

  lemma SlotParts(l: Layout, i: nat, q: nat, r: nat)
    requires l.bits >= 1 && q >= 1 && r < Half(l) && i == Half(l) * q + r
    ensures ValueForIndex(l, i) == (r + Half(l)) * Pow2(q - 1) && SlotWidth(l, i) == Pow2(q - 1)
  {
    hide Pow2, Half;
    Bytes.DivModUnique(i, Half(l), q, r);
  }

  lemma HalfDouble(l: Layout)
    requires l.bits >= 1
    ensures Half(l) >= 1 && Pow2(l.bits) == 2 * Half(l)
  {
  }

  lemma LastProduct(h: nat, p: nat)
    requires h >= 1
    ensures ((h - 1) + h) * p + p == (2 * h) * p
  {
  }

  // -------------------------------------------------- counting and ranking

  // How many of s fall in the first n slots.
  ghost function Within(l: Layout, s: seq<nat>, n: int): (k: nat)
    ensures k <= |s|
  {
    if s == [] then 0
    else Within(l, s[..|s| - 1], n) + (if IndexFor(l, s[|s| - 1]) < n then 1 else 0)
  }

  // How many of s fall in slot i.
  ghost function At(l: Layout, s: seq<nat>, i: int): nat {
    if s == [] then 0
    else At(l, s[..|s| - 1], i) + (if IndexFor(l, s[|s| - 1]) == i then 1 else 0)
  }

  function Repeat(v: nat, count: nat): (s: seq<nat>)
    ensures |s| == count && forall k :: 0 <= k < count ==> s[k] == v
  {
    if count == 0 then [] else Repeat(v, count - 1) + [v]
  }

  lemma {:induction false} WithinStep(l: Layout, s: seq<nat>, n: int)
    ensures Within(l, s, n + 1) == Within(l, s, n) + At(l, s, n)
  {
    hide IndexFor;
    if s != [] {
      WithinStep(l, s[..|s| - 1], n);
    }
  }

  lemma {:induction false} WithinConcat(l: Layout, a: seq<nat>, b: seq<nat>, n: int)
    ensures Within(l, a + b, n) == Within(l, a, n) + Within(l, b, n)
  {
    hide IndexFor;
    if b == [] {
      assert a + b == a;
    } else {
      assert (a + b)[..|a + b| - 1] == a + b[..|b| - 1];
      WithinConcat(l, a, b[..|b| - 1], n);
    }
  }

  lemma {:induction false} AtConcat(l: Layout, a: seq<nat>, b: seq<nat>, i: int)
    ensures At(l, a + b, i) == At(l, a, i) + At(l, b, i)
  {
    hide IndexFor;
    if b == [] {
      assert a + b == a;
    } else {
      assert (a + b)[..|a + b| - 1] == a + b[..|b| - 1];
      AtConcat(l, a, b[..|b| - 1], i);
    }
  }

  lemma {:induction false} AtRepeat(l: Layout, v: nat, count: nat, i: int)
    ensures At(l, Repeat(v, count), i) == if IndexFor(l, v) == i then count else 0
  {
    hide IndexFor;
    if count > 0 {
      assert Repeat(v, count)[..count - 1] == Repeat(v, count - 1);
      AtRepeat(l, v, count - 1, i);
    }
  }

  lemma {:induction false} WithinAll(l: Layout, s: seq<nat>, n: int)
    requires forall k :: 0 <= k < |s| ==> IndexFor(l, s[k]) < n
    ensures Within(l, s, n) == |s|
  {
    hide IndexFor;
    if s != [] {
      WithinAll(l, s[..|s| - 1], n);
    }
  }

  lemma {:induction false} WithinNone(l: Layout, s: seq<nat>, n: int)
    requires forall k :: 0 <= k < |s| ==> IndexFor(l, s[k]) >= n
    ensures Within(l, s, n) == 0
  {
    hide IndexFor;
    if s != [] {
      WithinNone(l, s[..|s| - 1], n);
    }
  }

  lemma {:induction false} WithinPermuted(l: Layout, a: seq<nat>, b: seq<nat>, n: int)
    requires multiset(a) == multiset(b)
    ensures Within(l, a, n) == Within(l, b, n)
  {
    hide IndexFor;
    if a == [] {
      SameSize(a, b);
    } else {
      var x := a[|a| - 1];
      assert x in multiset(b);
      var j :| 0 <= j < |b| && b[j] == x;
      RemoveOne(a, b, j);
      WithinPermuted(l, a[..|a| - 1], b[..j] + b[j + 1..], n);
      assert b == (b[..j] + [x]) + b[j + 1..];
      WithinConcat(l, b[..j] + [x], b[j + 1..], n);
      WithinConcat(l, b[..j], [x], n);
      WithinConcat(l, b[..j], b[j + 1..], n);
    }
  }

  lemma RemoveOne(a: seq<nat>, b: seq<nat>, j: nat)
    requires a != [] && multiset(a) == multiset(b) && j < |b| && b[j] == a[|a| - 1]
    ensures multiset(a[..|a| - 1]) == multiset(b[..j] + b[j + 1..])
  {
    var a', b', x := a[..|a| - 1], b[..j] + b[j + 1..], b[j];
    assert a == a' + [x];
    assert b == b[..j] + [x] + b[j + 1..];
    assert multiset(a) == multiset(a') + multiset{x};
    assert multiset(b) == multiset(b') + multiset{x};
    assert multiset(a') == (multiset(a') + multiset{x}) - multiset{x};
    assert multiset(b') == (multiset(b') + multiset{x}) - multiset{x};
  }

  lemma SameSize(a: seq<nat>, b: seq<nat>)
    requires multiset(a) == multiset(b)
    ensures |a| == |b|
  {
    assert |multiset(a)| == |a| && |multiset(b)| == |b|;
  }

  ghost predicate Sorted(s: seq<nat>) {
    forall i, j :: 0 <= i < j < |s| ==> s[i] <= s[j]
  }

  lemma IndexOrder(l: Layout, s: seq<nat>, t: nat)
    requires WellFormed(l) && Sorted(s) && t < |s|
    ensures forall k :: 0 <= k <= t ==> IndexFor(l, s[k]) <= IndexFor(l, s[t])
    ensures forall k :: t <= k < |s| ==> IndexFor(l, s[t]) <= IndexFor(l, s[k])
  {
    hide IndexFor, WellFormed;
    forall k | 0 <= k <= t
      ensures IndexFor(l, s[k]) <= IndexFor(l, s[t])
    {
      IndexMonotone(l, s[k], s[t]);
    }
    forall k | t <= k < |s|
      ensures IndexFor(l, s[t]) <= IndexFor(l, s[k])
    {
      IndexMonotone(l, s[t], s[k]);
    }
  }

  /** The running sum passes rank t exactly at the slot of the t-th smallest value. */
  lemma RankSlot(l: Layout, s: seq<nat>, t: nat)
    requires WellFormed(l) && Sorted(s) && 1 <= t <= |s|
    ensures var j := IndexFor(l, s[t - 1]); Within(l, s, j) < t <= Within(l, s, j + 1)
  {
    hide IndexFor, WellFormed, Within;
    var j := IndexFor(l, s[t - 1]);
    IndexOrder(l, s, t - 1);
    assert s == s[..t - 1] + s[t - 1..] == s[..t] + s[t..];
    WithinConcat(l, s[..t - 1], s[t - 1..], j);
    WithinNone(l, s[t - 1..], j);
    WithinConcat(l, s[..t], s[t..], j + 1);
    WithinAll(l, s[..t], j + 1);
  }

  lemma {:induction false} WithinMonotone(l: Layout, s: seq<nat>, m: int, n: int)
    requires m <= n
    ensures Within(l, s, m) <= Within(l, s, n)
  {
    hide IndexFor;
    if s != [] {
      WithinMonotone(l, s[..|s| - 1], m, n);
    }
  }

  lemma RankUnique(l: Layout, s: seq<nat>, t: nat, i: int)
    requires WellFormed(l) && Sorted(s) && 1 <= t <= |s|
    requires Within(l, s, i) < t <= Within(l, s, i + 1)
    ensures i == IndexFor(l, s[t - 1])
  {
    hide IndexFor, WellFormed, Within;
    RankSlot(l, s, t);
    var j := IndexFor(l, s[t - 1]);
    if i < j {
      WithinMonotone(l, s, i + 1, j);
    } else if j < i {
      WithinMonotone(l, s, j + 1, i);
    }
  }

  /** What the running-sum loop stops at, against any sorted arrangement of the same values. */
  lemma StopSlot(l: Layout, recorded: seq<nat>, s: seq<nat>, t: nat, i: nat)
    requires WellFormed(l) && Sorted(s) && multiset(s) == multiset(recorded) && 1 <= t <= |recorded|
    requires Within(l, recorded, i) < t <= Within(l, recorded, i + 1)
    ensures |s| == |recorded| && Reported(l, s[t - 1]) == HighestFor(l, i)
  {
    hide IndexFor, WellFormed, Within;
    SameSize(s, recorded);
    WithinPermuted(l, s, recorded, i);
    WithinPermuted(l, s, recorded, i + 1);
    RankUnique(l, s, t, i);
  }

  // ------------------------------------------------------ building a layout

  /** PrecisionBits: the fewest bits that hold twice the digits' range. */
  method PrecisionBits(digits: nat) returns (bits: nat)
    requires 1 <= digits <= 5
    ensures bits >= 1 && Pow2(bits) >= 2 * Pow10(digits)
    ensures forall k: nat :: k < bits ==> Pow2(k) < 2 * Pow10(digits)
  {
    var largest := Pow10(digits);
    bits := 0;
    while Pow2(bits) < largest * 2
      invariant forall k: nat :: k < bits ==> Pow2(k) < largest * 2
      decreases 2 * largest - Pow2(bits)
    {
      bits := bits + 1;
    }
  }

  lemma PowDouble(k: nat)
    ensures Pow2(k + 1) == 2 * Pow2(k)
  {
  }

  /** How many power-of-two buckets reach the range, or reach 2^62. */
  method CountBuckets(bits: nat, maxTrackable: nat) returns (buckets: nat)
    requires maxTrackable <= INT64_MAX && Pow2(bits) < Pow2(62)
    ensures buckets >= 1
    ensures maxTrackable < Pow2(bits + buckets - 1) || Pow2(bits + buckets - 1) == Pow2(62)
    ensures buckets > 1 ==> Pow2(bits + buckets - 2) <= maxTrackable && bits + buckets - 1 <= 62
  {
    var smallestUntrackable := Pow2(bits);
    hide Pow2;
    Powers();
    buckets := 1;
    while smallestUntrackable <= maxTrackable
      invariant buckets >= 1 && smallestUntrackable == Pow2(bits + buckets - 1)
      invariant buckets > 1 ==> Pow2(bits + buckets - 2) <= maxTrackable && bits + buckets - 1 <= 62
      decreases maxTrackable - smallestUntrackable
    {
      if smallestUntrackable > INT64_MAX / 2 {
        break;
      }
      if bits + buckets - 1 >= 62 {
        PowMonotone(62, bits + buckets - 1);
      }
      PowDouble(bits + buckets - 1);
      smallestUntrackable := smallestUntrackable * 2;
      buckets := buckets + 1;
    }
    if buckets > 1 {
      PowMonotone(bits + buckets - 1, 62);
    }
  }

  /** The constructor's arithmetic, for any requested range and digits. */
  method MakeLayout(maxTrackable: int, digits: int) returns (l: Layout)
    requires maxTrackable <= INT64_MAX
    ensures WellFormed(l)
    ensures l.maxTrackable == (if maxTrackable < 2 then 2 else maxTrackable)
    ensures l.digits == (if digits < 1 then 1 else if digits > 5 then 5 else digits)
  {
    hide Pow2, Pow10;
    var m := if maxTrackable < 2 then 2 else maxTrackable;
    var d := if digits < 1 then 1 else if digits > 5 then 5 else digits;
    var bits := PrecisionBits(d);
    FewBits(bits, d);
    var buckets := CountBuckets(bits, m);
    l := Layout(m, d, bits, buckets);
  }

  // ----------------------------------------------------------- the recorder

  function Clamped(l: Layout, value: int): nat {
    if value < 0 then 0 else if value > l.maxTrackable then l.maxTrackable else value
  }

  lemma LayoutRange(l: Layout)
    requires WellFormed(l)
    ensures l.maxTrackable <= INT64_MAX
  {
  }

  // counts is how often each slot was hit.
  ghost predicate Tally(l: Layout, s: seq<nat>, counts: seq<nat>) {
    |counts| == CountsLen(l) && forall i :: 0 <= i < |counts| ==> counts[i] == At(l, s, i)
  }

  lemma TallyAdd(l: Layout, s: seq<nat>, counts: seq<nat>, v: nat, count: nat)
    requires WellFormed(l) && Tally(l, s, counts)
    ensures 0 <= IndexFor(l, v) < |counts|
    ensures Tally(l, s + Repeat(v, count), counts[IndexFor(l, v) := counts[IndexFor(l, v)] + count])
  {
    hide WellFormed, IndexFor, CountsLen, At;
    IndexInRange(l, v);
    var i := IndexFor(l, v);
    var added, after := Repeat(v, count), counts[i := counts[i] + count];
    forall k | 0 <= k < |after|
      ensures after[k] == At(l, s + added, k)
    {
      AtConcat(l, s, added, k);
      AtRepeat(l, v, count, k);
    }
  }

  lemma TallyAll(l: Layout, s: seq<nat>)
    requires WellFormed(l)
    ensures Within(l, s, CountsLen(l)) == |s|
    ensures Within(l, s, 0) == 0
  {
    hide WellFormed, IndexFor, CountsLen, Within;
    forall k | 0 <= k < |s|
      ensures 0 <= IndexFor(l, s[k]) < CountsLen(l)
    {
      IndexInRange(l, s[k]);
    }
    WithinAll(l, s, CountsLen(l));
    WithinNone(l, s, 0);
  }

  ghost predicate Extremes(s: seq<nat>, min: int, max: int) {
    if s == [] then min == INT64_MAX && max == 0
    else min in s && max in s && forall k :: 0 <= k < |s| ==> min <= s[k] <= max
  }

  lemma ExtremesExtend(s: seq<nat>, min: int, max: int, v: nat, count: nat)
    requires Extremes(s, min, max) && v <= INT64_MAX && count > 0
    ensures Extremes(s + Repeat(v, count), if v < min then v else min, if v > max then v else max)
  {
    var t := s + Repeat(v, count);
    assert t[|s|] == v;
    assert forall x :: x in s ==> x in t;
  }

  ghost function Sum(s: seq<nat>): real {
    if s == [] then 0.0 else Sum(s[..|s| - 1]) + s[|s| - 1] as real
  }

  function Weighted(v: nat, count: nat): real {
    v as real * count as real
  }

  lemma WeightedStep(v: nat, count: nat)
    ensures Weighted(v, 0) == 0.0 && Weighted(v, count + 1) == Weighted(v, count) + v as real
  {
    var x, y := v as real, count as real;
    assert (count + 1) as real == y + 1.0;
    assert x * (y + 1.0) == x * y + x;
  }

  lemma {:induction false} SumRepeat(s: seq<nat>, v: nat, count: nat)
    ensures Sum(s + Repeat(v, count)) == Sum(s) + Weighted(v, count)
    decreases count
  {
    hide Sum, Weighted;
    if count == 0 {
      WeightedStep(v, 0);
      assert s + Repeat(v, 0) == s;
    } else {
      SumRepeat(s, v, count - 1);
      WeightedStep(v, count - 1);
      SumSnoc(s + Repeat(v, count - 1), v);
      assert s + Repeat(v, count) == s + Repeat(v, count - 1) + [v];
    }
  }

  lemma SumSnoc(s: seq<nat>, v: nat)
    ensures Sum(s + [v]) == Sum(s) + v as real
  {
    assert (s + [v])[..|s|] == s;
  }

  class Histogram {
    const layout: Layout
    const counts: array<nat>
    var totalCount: nat
    var overflowCount: nat
    var min: int
    var max: int
    var sum: real
    ghost var recorded: seq<nat>

    ghost predicate Valid()
      reads this, counts
    {
      && WellFormed(layout) && Tally(layout, recorded, counts[..]) && totalCount == |recorded|
      && (forall k :: 0 <= k < |recorded| ==> recorded[k] <= layout.maxTrackable)
      && Extremes(recorded, min, max)
      && sum == Sum(recorded)
    }

    constructor (maxTrackable: int, digits: int)
      requires maxTrackable <= INT64_MAX
      ensures Valid() && fresh(counts) && recorded == [] && overflowCount == 0
      ensures layout.maxTrackable == (if maxTrackable < 2 then 2 else maxTrackable)
      ensures layout.digits == (if digits < 1 then 1 else if digits > 5 then 5 else digits)
    {
      hide Pow2, Pow10;
      var l := MakeLayout(maxTrackable, digits);
      layout := l;
      counts := new nat[CountsLen(l)](_ => 0);
      totalCount, overflowCount, min, max, sum := 0, 0, INT64_MAX, 0, 0.0;
      recorded := [];
    }

    method RecordMany(value: int, count: nat)
      requires Valid()
      modifies this, counts
      ensures Valid()
      ensures recorded == old(recorded) + Repeat(Clamped(layout, value), count)
      ensures overflowCount == old(overflowCount) + (if value > layout.maxTrackable then count else 0)
      // A value in range is recorded as itself, any other as the nearer end of the range.
      ensures |recorded| == |old(recorded)| + count && forall k :: |old(recorded)| <= k < |recorded| ==>
        recorded[k] == if value < 0 then 0 else if value > layout.maxTrackable then layout.maxTrackable else value
    {
      hide WellFormed, IndexFor, Tally, Extremes, Repeat, Sum, Weighted;
      LayoutRange(layout);
      if count == 0 {
        assert recorded == recorded + Repeat(Clamped(layout, value), 0);
        return;
      }
      var v := Clamped(layout, value);
      TallyAdd(layout, recorded, counts[..], v, count);
      ExtremesExtend(recorded, min, max, v, count);
      if value > layout.maxTrackable {
        overflowCount := overflowCount + count;
      }
      var i := IndexFor(layout, v);
      counts[i] := counts[i] + count;
      totalCount := totalCount + count;
      if v < min {
        min := v;
      }
      if v > max {
        max := v;
      }
      SumRepeat(recorded, v, count);
      sum := sum + Weighted(v, count);
      recorded := recorded + Repeat(v, count);
      assert counts[..] == old(counts[..])[i := old(counts[..])[i] + count];
    }

    /** Mean: what was recorded, averaged. */
    method Mean() returns (mean: real)
      requires Valid()
      ensures if recorded == [] then mean == 0.0 else mean * |recorded| as real == Sum(recorded)
    {
      hide WellFormed, Tally, Extremes, Sum;
      mean := if totalCount == 0 then 0.0 else sum / totalCount as real;
    }

    /** ValueAtPercentile, from the rank the percentile rounds to. */
    method ValueAtRank(rank: nat) returns (reported: nat)
      requires Valid()
      ensures recorded == [] ==> reported == 0
      ensures recorded != [] ==>
        QuantileOf(layout, recorded, if rank == 0 then 1 else if rank > |recorded| then |recorded| else rank, reported)
    {
      if totalCount == 0 {
        return 0;
      }
      var target := ClampedRank(rank, totalCount);
      TallyAll(layout, recorded);
      hide WellFormed, IndexFor, CountsLen, Within, HighestFor, At, Extremes, QuantileOf;
      var running := 0;
      var i := 0;
      while running < target && i < counts.Length
        invariant 0 <= i <= counts.Length && running == Within(layout, recorded, i)
        invariant running >= target ==> i > 0 && Within(layout, recorded, i - 1) < target
      {
        WithinStep(layout, recorded, i);
        running := running + counts[i];
        i := i + 1;
      }
      reported := HighestFor(layout, i - 1);
      StopAnswers(layout, recorded, target, i - 1);
    }
  }

  function ClampedRank(rank: nat, total: nat): nat {
    if rank == 0 then 1 else if rank > total then total else rank
  }

  /** Against any sorted arrangement of the recorded values: the value of rank t, within the error bound below 2^62. */
  ghost predicate QuantileOf(l: Layout, recorded: seq<nat>, t: nat, reported: nat)
    requires 1 <= t <= |recorded|
  {
    forall s: seq<nat> :: Sorted(s) && multiset(s) == multiset(recorded) ==>
      |s| == |recorded| && (CloseAbove(l, s[t - 1], reported) <==> s[t - 1] < Pow2(62))
  }

  lemma StopAnswers(l: Layout, recorded: seq<nat>, t: nat, i: nat)
    requires WellFormed(l) && 1 <= t <= |recorded|
    requires forall k :: 0 <= k < |recorded| ==> recorded[k] <= l.maxTrackable
    requires Within(l, recorded, i) < t <= Within(l, recorded, i + 1)
    ensures QuantileOf(l, recorded, t, HighestFor(l, i))
  {
    hide WellFormed, IndexFor, CountsLen, Within, HighestFor, Pow2, CloseAbove, Reported;
    forall s: seq<nat> | Sorted(s) && multiset(s) == multiset(recorded)
      ensures |s| == |recorded| && (CloseAbove(l, s[t - 1], HighestFor(l, i)) <==> s[t - 1] < Pow2(62))
    {
      StopSlot(l, recorded, s, t, i);
      InRange(recorded, s, l.maxTrackable);
      CloseIff(l, s[t - 1]);
    }
  }

  lemma InRange(a: seq<nat>, b: seq<nat>, max: nat)
    requires multiset(a) == multiset(b) && forall k :: 0 <= k < |a| ==> a[k] <= max
    ensures forall k :: 0 <= k < |b| ==> b[k] <= max
  {
    forall k | 0 <= k < |b|
      ensures b[k] <= max
    {
      assert b[k] in multiset(b) && b[k] in multiset(a);
    }
  }
}
