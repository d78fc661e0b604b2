/**
 What the CRC-32C register is, apart from how it is shifted: the remainder of
 the message polynomial modulo the generator of section 12.1 of RFC 3720.
 Polynomials over two elements are sets of exponents.
 */
module CrcPolynomial {

  import opened Bytes
  import opened Crc32c

  type Poly = set<nat>

  /** x^32 + x^28 + x^27 + x^26 + x^25 + x^23 + x^22 + x^20 + x^19 + x^18 + x^14 + x^13 + x^11 + x^10 + x^9 + x^8 + x^6 + 1 */
  const GENERATOR: Poly := {32, 28, 27, 26, 25, 23, 22, 20, 19, 18, 14, 13, 11, 10, 9, 8, 6, 0}

  function Add(p: Poly, q: Poly): Poly {
    (p - q) + (q - p)
  }

  /** p times x^k. */
  ghost function Times(p: Poly, k: nat): (r: Poly)
    ensures forall e :: e in r <==> e >= k && e - k in p
  {
    RaisedMembers(p, k);
    Raised(p, k)
  }

  ghost function Raised(p: Poly, k: nat): Poly {
    set d | d in p :: Plus(d, k)
  }

  function Plus(d: nat, k: nat): nat {
    d + k
  }

  lemma RaisedMembers(p: Poly, k: nat)
    ensures forall e :: e in Raised(p, k) <==> e >= k && e - k in p
  {
    forall e: nat | e >= k && e - k in p
      ensures e in Raised(p, k)
    {
      assert Plus(e - k, k) == e;
    }
  }

  /** The generator times the polynomial with coefficients q, highest power first. */
  ghost function Product(q: seq<bool>): Poly {
    if q == [] then {} else Add(if q[0] then Times(GENERATOR, |q| - 1) else {}, Product(q[1..]))
  }

  /** r is what is left of m after division by the generator. */
  ghost predicate IsRemainder(m: Poly, r: Poly) {
    (forall e :: e in r ==> e < 32) && exists q :: m == Add(Product(q), r)
  }

  // ------------------------------------------------------ division is unique

  lemma {:induction false} ProductDegree(q: seq<bool>, e: nat)
    requires e in Product(q)
    ensures e < 32 + |q|
  {
    if q != [] && e in Product(q[1..]) {
      ProductDegree(q[1..], e);
    }
  }

  // The leading coefficient of the quotient shows in the product.
  lemma LeadingTerm(q: seq<bool>)
    requires q != []
    ensures 31 + |q| in Product(q) <==> q[0]
  {
    if 31 + |q| in Product(q[1..]) {
      ProductDegree(q[1..], 31 + |q|);
    }
  }

  lemma LeadingZero(q: seq<bool>)
    ensures Product([false] + q) == Product(q)
  {
    assert ([false] + q)[1..] == q;
  }

  lemma {:induction false} Padded(q: seq<bool>, n: nat)
    requires |q| <= n
    ensures exists p :: |p| == n && Product(p) == Product(q)
    decreases n
  {
    if |q| < n {
      Padded(q, n - 1);
      var p :| |p| == n - 1 && Product(p) == Product(q);
      LeadingZero(p);
      assert |[false] + p| == n;
    }
  }

  lemma {:induction false} EqualLengths(q: seq<bool>, q': seq<bool>, r: Poly, r': Poly)
    requires |q| == |q'| && Add(Product(q), r) == Add(Product(q'), r')
    requires (forall e :: e in r ==> e < 32) && (forall e :: e in r' ==> e < 32)
    ensures r == r'
  {
    if q == [] {
      assert Add({}, r) == r && Add({}, r') == r';
    } else {
      var top := 31 + |q|;
      LeadingTerm(q);
      LeadingTerm(q');
      assert top in Add(Product(q), r) <==> top in Product(q);
      assert top in Add(Product(q'), r') <==> top in Product(q');
      var g := if q[0] then Times(GENERATOR, |q| - 1) else {};
      var p, p' := Product(q[1..]), Product(q'[1..]);
      Cancel(g, p, r, p', r');
      EqualLengths(q[1..], q'[1..], r, r');
    }
  }

  lemma Cancel(g: Poly, p: Poly, r: Poly, p': Poly, r': Poly)
    requires Add(Add(g, p), r) == Add(Add(g, p'), r')
    ensures Add(p, r) == Add(p', r')
  {
    forall e
      ensures e in Add(p, r) <==> e in Add(p', r')
    {
      assert e in Add(Add(g, p), r) <==> e in Add(Add(g, p'), r');
    }
  }

  /** A polynomial has one remainder. */
  lemma OneRemainder(m: Poly, r: Poly, r': Poly)
    requires IsRemainder(m, r) && IsRemainder(m, r')
    ensures r == r'
  {
    hide Product, Add;
    var q :| m == Add(Product(q), r);
    var q' :| m == Add(Product(q'), r');
    var n := if |q| < |q'| then |q'| else |q|;
    Padded(q, n);
    Padded(q', n);
    var p :| |p| == n && Product(p) == Product(q);
    var p' :| |p'| == n && Product(p') == Product(q');
    EqualLengths(p, p', r, r');
  }

  // One more quotient bit.
  lemma {:induction false} ProductNext(q: seq<bool>, b: bool)
    ensures Product(q + [b]) == Add(Times(Product(q), 1), if b then GENERATOR else {})
  {
    hide GENERATOR;
    if q == [] {
      assert [b][1..] == [] && Times(GENERATOR, 0) == GENERATOR && Times({}, 1) == {};
      assert q + [b] == [b];
    } else {
      ProductNext(q[1..], b);
      assert (q + [b])[1..] == q[1..] + [b] && (q + [b])[0] == q[0];
      var lead, last := if q[0] then Times(GENERATOR, |q| - 1) else {}, if b then GENERATOR else {};
      assert Times(Times(GENERATOR, |q| - 1), 1) == Times(GENERATOR, |q|);
      assert Times({}, 1) == {};
      TimesAdd(lead, Product(q[1..]), 1);
      AddAssoc(Times(lead, 1), Times(Product(q[1..]), 1), last);
    }
  }

  lemma TimesAdd(p: Poly, q: Poly, k: nat)
    ensures Times(Add(p, q), k) == Add(Times(p, k), Times(q, k))
  {
  }

  lemma AddAssoc(p: Poly, q: Poly, r: Poly)
    ensures Add(Add(p, q), r) == Add(p, Add(q, r))
  {
  }

  // ------------------------------------------------- registers as polynomials

  // Bit i, counted from the low end.
  predicate Bit(c: Word, i: nat)
    decreases i
  {
    if i == 0 then Odd(c) else Bit(Half(c), i - 1)
  }

  /** The reflected register: its low bit is the coefficient of x^31. */
  ghost function Coefficients(c: Word): Poly {
    set e: nat | e < 32 && Coefficient(c, e)
  }

  predicate Coefficient(c: Word, e: nat) {
    e < 32 && Bit(c, 31 - e)
  }

  lemma {:induction false} BitXor(a: Word, b: Word, i: nat)
    ensures Bit(Xor(a, b), i) <==> Bit(a, i) != Bit(b, i)
    decreases i
  {
    hide Xor, Half, Odd;
    if i == 0 {
      OddXor(a, b);
    } else {
      HalfXor(a, b);
      BitXor(Half(a), Half(b), i - 1);
    }
  }

  lemma {:induction false} BitZero(i: nat)
    ensures !Bit(Word(0), i)
    decreases i
  {
    if i > 0 {
      assert Half(Word(0)) == Word(0);
      BitZero(i - 1);
    }
  }

  lemma EightHalves(c: Word)
    ensures Half(Half(Half(Half(Half(Half(Half(Half(c)))))))) == Down8(c)
  {
  }

  lemma BitDown8(c: Word, i: nat)
    requires i >= 8
    ensures Bit(c, i) == Bit(Down8(c), i - 8)
  {
    hide Half, Odd, Down8, Bit;
    EightHalves(c);
    var h1 := Half(c);
    var h2 := Half(h1);
    var h3 := Half(h2);
    var h4 := Half(h3);
    var h5 := Half(h4);
    var h6 := Half(h5);
    var h7 := Half(h6);
    BitHalf(c, i);
    BitHalf(h1, i - 1);
    BitHalf(h2, i - 2);
    BitHalf(h3, i - 3);
    BitHalf(h4, i - 4);
    BitHalf(h5, i - 5);
    BitHalf(h6, i - 6);
    BitHalf(h7, i - 7);
  }

  lemma BitHalf(c: Word, i: nat)
    requires i > 0
    ensures Bit(c, i) == Bit(Half(c), i - 1)
  {
  }

  lemma AllDown(c: Word)
    ensures Down8(Down8(Down8(Down8(c)))) == Word(0)
  {
  }

  // A register has 32 bits.
  lemma NoBit32(c: Word)
    ensures !Bit(c, 32)
  {
    hide Bit, Down8;
    BitDown8(c, 32);
    BitDown8(Down8(c), 24);
    BitDown8(Down8(Down8(c)), 16);
    BitDown8(Down8(Down8(Down8(c))), 8);
    AllDown(c);
    BitZero(0);
  }

  lemma PolyByte0()
    ensures var c := Word(0x82F63B78); !Bit(c, 0) && !Bit(c, 1) && !Bit(c, 2) && Bit(c, 3) && Bit(c, 4) && Bit(c, 5) && Bit(c, 6) && !Bit(c, 7)
  {
  }

  lemma PolyByte1()
    ensures var c := Word(0x82F63B); Bit(c, 0) && Bit(c, 1) && !Bit(c, 2) && Bit(c, 3) && Bit(c, 4) && Bit(c, 5) && !Bit(c, 6) && !Bit(c, 7)
  {
  }

  lemma PolyByte2()
    ensures var c := Word(0x82F6); !Bit(c, 0) && Bit(c, 1) && Bit(c, 2) && !Bit(c, 3) && Bit(c, 4) && Bit(c, 5) && Bit(c, 6) && Bit(c, 7)
  {
  }

  lemma PolyByte3()
    ensures var c := Word(0x82); !Bit(c, 0) && Bit(c, 1) && !Bit(c, 2) && !Bit(c, 3) && !Bit(c, 4) && !Bit(c, 5) && !Bit(c, 6) && Bit(c, 7)
  {
  }

  lemma PolyBytes()
    ensures Word(POLY) == Word(0x82F63B78) && Down8(Word(0x82F63B78)) == Word(0x82F63B)
    ensures Down8(Word(0x82F63B)) == Word(0x82F6) && Down8(Word(0x82F6)) == Word(0x82)
  {
  }

  // The shift's constant is the generator without its leading term.
  lemma PolyIsGenerator(e: nat)
    ensures Coefficient(Word(POLY), e) <==> e < 32 && e in GENERATOR
  {
    hide Bit, Down8;
    PolyBytes();
    PolyByte0();
    PolyByte1();
    PolyByte2();
    PolyByte3();
    if e < 24 {
      BitDown8(Word(0x82F63B78), 31 - e);
    }
    if e < 16 {
      BitDown8(Word(0x82F63B), 23 - e);
    }
    if e < 8 {
      BitDown8(Word(0x82F6), 15 - e);
    }
  }

  // ----------------------------------------------------------- feeding bits

  /** One message bit enters at the low end, then one shift. */
  function FeedBit(c: Word, b: bool): Word {
    Shift(Xor(c, Word(if b then 1 else 0)))
  }

  function FeedBits(c: Word, bits: seq<bool>): Word {
    if bits == [] then c else FeedBit(FeedBits(c, bits[..|bits| - 1]), bits[|bits| - 1])
  }

  /** A byte, low bit first. */
  function ByteBits(b: byte): (bits: seq<bool>)
    ensures |bits| == 8
  {
    [OddInt(b), OddInt(b / 2), OddInt(b / 2 / 2), OddInt(b / 2 / 2 / 2), OddInt(b / 2 / 2 / 2 / 2),
     OddInt(b / 2 / 2 / 2 / 2 / 2), OddInt(b / 2 / 2 / 2 / 2 / 2 / 2), OddInt(b / 2 / 2 / 2 / 2 / 2 / 2 / 2)]
  }

  function MessageBits(data: seq<byte>): (bits: seq<bool>)
    ensures |bits| == 8 * |data|
  {
    if data == [] then [] else MessageBits(data[..|data| - 1]) + ByteBits(data[|data| - 1])
  }

  /** The bits as coefficients, first bit highest. */
  ghost function OfBits(bits: seq<bool>): Poly {
    set e: nat | e < |bits| && Term(bits, e)
  }

  predicate Term(bits: seq<bool>, e: nat) {
    e < |bits| && bits[|bits| - 1 - e]
  }

  lemma OfBitsNext(bits: seq<bool>, b: bool)
    ensures OfBits(bits + [b]) == Add(Times(OfBits(bits), 1), if b then {0} else {})
  {
    var more := bits + [b];
    forall e
      ensures e in OfBits(more) <==> e in Add(Times(OfBits(bits), 1), if b then {0} else {})
    {
      if 0 < e <= |bits| {
        assert more[|more| - 1 - e] == bits[|bits| - 1 - (e - 1)];
        assert Term(more, e) <==> Term(bits, e - 1);
      } else if e == 0 {
        assert Term(more, e) <==> b;
      }
    }
  }

  // ------------------------------------------------- a shift divides one step

  lemma ShiftBit(c: Word, i: nat)
    ensures Bit(Shift(c), i) <==> Bit(c, i + 1) != (Odd(c) && Bit(Word(POLY), i))
  {
    hide Xor, Half, Odd, Bit;
    BitXor(Half(c), Word(POLY), i);
    BitHalf(c, i + 1);
  }

  /** A shift multiplies by x and takes the generator off once if x^32 appeared. */
  lemma ShiftDivides(c: Word)
    ensures Coefficients(Shift(c)) == Add(Times(Coefficients(c), 1), if Odd(c) then GENERATOR else {})
  {
    hide Shift, Odd, Bit;
    LowBit(c);
    NoBit32(c);
    forall e: nat
      ensures e in Coefficients(Shift(c)) <==> e in Add(Times(Coefficients(c), 1), if Odd(c) then GENERATOR else {})
    {
      PolyIsGenerator(e);
      GeneratorDegree(e);
      if e < 32 {
        ShiftBit(c, 31 - e);
        assert Coefficient(Shift(c), e) <==> Bit(c, 32 - e) != (Odd(c) && e in GENERATOR);
        assert e > 0 ==> (Coefficient(c, e - 1) <==> Bit(c, 32 - e));
      } else if e == 32 {
        assert Coefficient(c, 31) <==> Odd(c);
      }
    }
  }

  lemma GeneratorDegree(e: nat)
    ensures e > 32 ==> e !in GENERATOR
    ensures 32 in GENERATOR
  {
  }

  lemma LowBit(c: Word)
    ensures Bit(c, 0) <==> Odd(c)
  {
  }

  lemma OneBit(i: nat)
    ensures Bit(Word(1), i) <==> i == 0
  {
    if i > 0 {
      assert Half(Word(1)) == Word(0);
      BitZero(i - 1);
    }
  }

  lemma EnterBit(c: Word, b: bool)
    ensures Coefficients(Xor(c, Word(if b then 1 else 0))) == Add(Coefficients(c), if b then {31} else {})
  {
    hide Xor, Bit;
    var w := Word(if b then 1 else 0);
    forall e: nat
      ensures e in Coefficients(Xor(c, w)) <==> e in Add(Coefficients(c), if b then {31} else {})
    {
      if e < 32 {
        BitXor(c, w, 31 - e);
        OneBit(31 - e);
        BitZero(31 - e);
        assert Coefficient(Xor(c, w), e) <==> Coefficient(c, e) != (b && e == 31);
      }
    }
  }

  /** One more message bit: what is left of the longer message. */
  lemma BitDivides(m: Poly, q: seq<bool>, c: Word, b: bool)
    requires m == Add(Product(q), Coefficients(c))
    ensures exists q' :: Add(Times(m, 1), if b then {32} else {}) == Add(Product(q'), Coefficients(FeedBit(c, b)))
  {
    hide Xor, Shift, Odd, Bit, Product, Coefficients, Add;
    var one, g := if b then {31} else {}, Xor(c, Word(if b then 1 else 0));
    var d := if Odd(g) then GENERATOR else {};
    EnterBit(c, b);
    ShiftDivides(g);
    ProductNext(q, Odd(g));
    Regroup(Product(q), Coefficients(c), one, d);
    assert Times(one, 1) == if b then {32} else {};
    TimesAdd(m, one, 1);
    assert Add(Times(m, 1), if b then {32} else {}) == Add(Product(q + [Odd(g)]), Coefficients(FeedBit(c, b)));
  }

  // x (p + r + t) is x p + d and x (r + t) + d.
  lemma Regroup(p: Poly, r: Poly, t: Poly, d: Poly)
    ensures Times(Add(Add(p, r), t), 1) == Add(Add(Times(p, 1), d), Add(Times(Add(r, t), 1), d))
  {
  }

  /** The register after any bits is the remainder of message times x^32 plus the starting register shifted past it. */
  lemma {:induction false} BitsRemainder(c: Word, bits: seq<bool>)
    ensures exists q :: Add(Times(OfBits(bits), 32), Times(Coefficients(c), |bits|)) == Add(Product(q), Coefficients(FeedBits(c, bits)))
    decreases |bits|
  {
    hide FeedBit, Product, Coefficients, Add, OfBits;
    if bits == [] {
      NoBits(c);
    } else {
      var init, b := bits[..|bits| - 1], bits[|bits| - 1];
      assert bits == init + [b];
      BitsRemainder(c, init);
      var m := Add(Times(OfBits(init), 32), Times(Coefficients(c), |init|));
      var q :| m == Add(Product(q), Coefficients(FeedBits(c, init)));
      BitDivides(m, q, FeedBits(c, init), b);
      OfBitsNext(init, b);
      Longer(OfBits(init), Coefficients(c), |init|, b);
    }
  }

  lemma NoBits(c: Word)
    ensures Add(Times(OfBits([]), 32), Times(Coefficients(c), 0)) == Add(Product([]), Coefficients(c))
  {
    hide Coefficient;
    assert OfBits([]) == {} && Times({}, 32) == {} && Times(Coefficients(c), 0) == Coefficients(c);
  }

  lemma Longer(m: Poly, c: Poly, n: nat, b: bool)
    ensures Add(Times(Add(Times(m, 1), if b then {0} else {}), 32), Times(c, n + 1)) ==
            Add(Times(Add(Times(m, 32), Times(c, n)), 1), if b then {32} else {})
  {
    hide Add, Times;
    var last := if b then {0} else {};
    TimesAdd(Times(m, 1), last, 32);
    TimesAdd(Times(m, 32), Times(c, n), 1);
    TimesTwice(m, 1, 32);
    TimesTwice(m, 32, 1);
    TimesTwice(c, n, 1);
    TimesOne(0, 32);
    Swap(Times(Times(m, 32), 1), Times(last, 32), Times(c, n + 1));
  }

  lemma TimesTwice(p: Poly, i: nat, j: nat)
    ensures Times(Times(p, i), j) == Times(p, i + j)
  {
    hide Raised;
  }

  lemma TimesOne(e: nat, k: nat)
    ensures Times({e}, k) == {e + k} && Times({}, k) == {}
  {
    hide Raised;
  }

  lemma Swap(p: Poly, q: Poly, r: Poly)
    ensures Add(Add(p, q), r) == Add(Add(p, r), q)
  {
  }

  // ---------------------------------------------------------- bytes are bits

  lemma ShiftEnters(c: Word, w: Word)
    ensures Shift(Xor(c, w)) == Xor(FeedBit(c, Odd(w)), Half(w))
  {
    hide Xor, Half, Odd;
    var one := Word(if Odd(w) then 1 else 0);
    OddXor(c, w);
    OddXor(c, one);
    HalfXor(c, w);
    HalfXor(c, one);
    BitWord(Odd(w));
    XorSelf(Half(c));
    XorAssoc(Half(c), Half(w), Word(POLY));
    XorComm(Half(w), Word(POLY));
    XorAssoc(Half(c), Word(POLY), Half(w));
  }

  lemma BitWord(b: bool)
    ensures var w := Word(if b then 1 else 0); (Odd(w) <==> b) && Half(w) == Word(0)
  {
  }

  // Eight shifts of register and byte together feed the byte's bits.
  lemma FeedIsBits(c: Word, b: byte)
    ensures Feed(c, b) == FeedBits(c, ByteBits(b))
  {
    hide Xor, Half, Odd, Shift, Shifts, FeedBit, FeedBits, ByteBits, OfByte, OddInt;
    var w0 := OfByte(b);
    var w1 := Half(w0);
    var w2 := Half(w1);
    var w3 := Half(w2);
    var w4 := Half(w3);
    var w5 := Half(w4);
    var w6 := Half(w5);
    var w7 := Half(w6);
    var bits := ByteBits(b);
    ByteEnters(b);
    var c1 := FeedBit(c, bits[0]);
    var c2 := FeedBit(c1, bits[1]);
    var c3 := FeedBit(c2, bits[2]);
    var c4 := FeedBit(c3, bits[3]);
    ShiftEnters(c, w0);
    ShiftEnters(c1, w1);
    ShiftEnters(c2, w2);
    ShiftEnters(c3, w3);
    ShiftsFour(Xor(c, w0), 4);
    FeedLast(c4, w4);
    FeedEight(c, bits);
  }

  lemma ShiftsFour(c: Word, n: nat)
    ensures Shifts(c, n + 4) == Shifts(Shift(Shift(Shift(Shift(c)))), n)
  {
    hide Shift;
    var c1 := Shift(c);
    var c2 := Shift(c1);
    var c3 := Shift(c2);
    assert Shifts(c, n + 4) == Shifts(c1, n + 3) && Shifts(c1, n + 3) == Shifts(c2, n + 2);
    assert Shifts(c2, n + 2) == Shifts(c3, n + 1) && Shifts(c3, n + 1) == Shifts(Shift(c3), n);
  }

  lemma FeedLast(c: Word, w: Word)
    requires Half(Half(Half(Half(w)))) == Word(0)
    ensures Shifts(Xor(c, w), 4) ==
            FeedBit(FeedBit(FeedBit(FeedBit(c, Odd(w)), Odd(Half(w))), Odd(Half(Half(w)))), Odd(Half(Half(Half(w)))))
  {
    hide Xor, Half, Odd, Shift, FeedBit;
    var w1 := Half(w);
    var w2 := Half(w1);
    var w3 := Half(w2);
    var c1 := FeedBit(c, Odd(w));
    var c2 := FeedBit(c1, Odd(w1));
    var c3 := FeedBit(c2, Odd(w2));
    ShiftEnters(c, w);
    ShiftEnters(c1, w1);
    ShiftEnters(c2, w2);
    ShiftEnters(c3, w3);
    ShiftsFour(Xor(c, w), 0);
    XorSelf(FeedBit(c3, Odd(w3)));
  }

  lemma FeedEight(c: Word, bits: seq<bool>)
    requires |bits| == 8
    ensures FeedBits(c, bits) ==
            FeedBit(FeedBit(FeedBit(FeedBit(FeedBit(FeedBit(FeedBit(FeedBit(c, bits[0]), bits[1]), bits[2]), bits[3]),
                                    bits[4]), bits[5]), bits[6]), bits[7])
  {
    hide FeedBit;
    FeedFourBits(c, bits[..4]);
    FeedFourBits(FeedBits(c, bits[..4]), bits[4..]);
    FeedAppend(c, bits[..4], bits[4..]);
    assert bits == bits[..4] + bits[4..];
  }

  lemma FeedFourBits(c: Word, bits: seq<bool>)
    requires |bits| == 4
    ensures FeedBits(c, bits) == FeedBit(FeedBit(FeedBit(FeedBit(c, bits[0]), bits[1]), bits[2]), bits[3])
  {
    hide FeedBit;
    var b3, b2, b1 := bits[..3], bits[..2], bits[..1];
    assert b3[..2] == b2 && b2[..1] == b1 && b1[..0] == [];
    assert FeedBits(c, b1) == FeedBit(FeedBits(c, b1[..0]), bits[0]);
    assert FeedBits(c, b2) == FeedBit(FeedBits(c, b1), bits[1]);
    assert FeedBits(c, b3) == FeedBit(FeedBits(c, b2), bits[2]);
  }

  lemma {:induction false} FeedAppend(c: Word, a: seq<bool>, b: seq<bool>)
    ensures FeedBits(c, a + b) == FeedBits(FeedBits(c, a), b)
    decreases |b|
  {
    hide FeedBit;
    if b == [] {
      assert a + b == a;
    } else {
      assert (a + b)[..|a + b| - 1] == a + b[..|b| - 1];
      FeedAppend(c, a, b[..|b| - 1]);
    }
  }

  // The halves of a widened byte show its bits, and nothing is left after eight.
  lemma ByteEnters(b: byte)
    ensures var w := OfByte(b); var bits := ByteBits(b);
      && Odd(w) == bits[0] && Odd(Half(w)) == bits[1] && Odd(Half(Half(w))) == bits[2] && Odd(Half(Half(Half(w)))) == bits[3]
      && var v := Half(Half(Half(Half(w))));
      && Odd(v) == bits[4] && Odd(Half(v)) == bits[5] && Odd(Half(Half(v))) == bits[6] && Odd(Half(Half(Half(v)))) == bits[7]
      && Half(Half(Half(Half(v)))) == Word(0)
  {
    hide OddInt, OfByte, Half, Odd, Has, Small, ByteBits;
    OfByteHas(b);
    LowFour(OfByte(b));
    HighFour(OfByte(b));
  }

  predicate Has(w: Word, mask: bv32) {
    w.bits & mask != 0
  }

  predicate Small(w: Word) {
    w.bits < 256
  }

  lemma OfByteHas(b: byte)
    ensures var w := OfByte(b); var bits := ByteBits(b);
      && Small(w) && Has(w, 1) == bits[0] && Has(w, 2) == bits[1] && Has(w, 4) == bits[2] && Has(w, 8) == bits[3]
      && Has(w, 16) == bits[4] && Has(w, 32) == bits[5] && Has(w, 64) == bits[6] && Has(w, 128) == bits[7]
  {
    hide OddInt, Gather;
    var bits := ByteBits(b);
    GatherBits(bits[0], bits[1], bits[2], bits[3], bits[4], bits[5], bits[6], bits[7]);
  }

  lemma LowFour(w: Word)
    ensures (Odd(w) <==> Has(w, 1)) && (Odd(Half(w)) <==> Has(w, 2))
    ensures (Odd(Half(Half(w))) <==> Has(w, 4)) && (Odd(Half(Half(Half(w)))) <==> Has(w, 8))
  {
  }

  lemma HighFour(w: Word)
    requires Small(w)
    ensures var v := Half(Half(Half(Half(w))));
      && (Odd(v) <==> Has(w, 16)) && (Odd(Half(v)) <==> Has(w, 32))
      && (Odd(Half(Half(v))) <==> Has(w, 64)) && (Odd(Half(Half(Half(v)))) <==> Has(w, 128))
      && Half(Half(Half(Half(v)))) == Word(0)
  {
  }

  lemma {:induction false} RegisterIsBits(c: Word, data: seq<byte>)
    ensures Register(c, data) == FeedBits(c, MessageBits(data))
    decreases |data|
  {
    hide Feed, FeedBit, ByteBits;
    if data != [] {
      var init, b := data[..|data| - 1], data[|data| - 1];
      assert data == init + [b];
      RegisterIsBits(c, init);
      RegisterAppend(c, init, [b]);
      assert [b][1..] == [];
      FeedIsBits(Register(c, init), b);
      FeedAppend(c, MessageBits(init), ByteBits(b));
    }
  }

  // -------------------------------------------------------------- the theorem

  ghost function Complement(p: Poly): Poly {
    set e: nat | e < 32 && e !in p
  }

  lemma AllOnes(i: nat)
    requires i < 32
    ensures Bit(Word(0xFFFF_FFFF), i)
  {
    hide Bit, Down8;
    OnesBytes();
    OnesLow();
    if i >= 8 {
      BitDown8(Word(0xFFFF_FFFF), i);
    }
    if i >= 16 {
      BitDown8(Word(0xFF_FFFF), i - 8);
    }
    if i >= 24 {
      BitDown8(Word(0xFFFF), i - 16);
    }
  }

  lemma OnesBytes()
    ensures Down8(Word(0xFFFF_FFFF)) == Word(0xFF_FFFF) && Down8(Word(0xFF_FFFF)) == Word(0xFFFF) && Down8(Word(0xFFFF)) == Word(0xFF)
  {
  }

  lemma OnesLow()
    ensures forall i :: 0 <= i < 8 ==> Bit(Word(0xFF), i) && Bit(Word(0xFFFF), i) && Bit(Word(0xFF_FFFF), i) && Bit(Word(0xFFFF_FFFF), i)
  {
    LowByte(Word(0xFF));
    LowByte(Word(0xFFFF));
    LowByte(Word(0xFF_FFFF));
    LowByte(Word(0xFFFF_FFFF));
  }

  lemma LowByte(c: Word)
    requires Low(c) == Word(0xFF)
    ensures forall i :: 0 <= i < 8 ==> Bit(c, i)
  {
    var h1 := Half(c);
    var h2 := Half(h1);
    var h3 := Half(h2);
    var h4 := Half(h3);
    var h5 := Half(h4);
    var h6 := Half(h5);
    var h7 := Half(h6);
    LowHalves(c);
    hide Odd, Half;
    assert Bit(h7, 0) && Bit(h6, 1) && Bit(h5, 2) && Bit(h4, 3) && Bit(h3, 4) && Bit(h2, 5) && Bit(h1, 6) && Bit(c, 7);
    assert Bit(h6, 0) && Bit(h5, 1) && Bit(h4, 2) && Bit(h3, 3) && Bit(h2, 4) && Bit(h1, 5) && Bit(c, 6);
    assert Bit(h5, 0) && Bit(h4, 1) && Bit(h3, 2) && Bit(h2, 3) && Bit(h1, 4) && Bit(c, 5);
    assert Bit(h4, 0) && Bit(h3, 1) && Bit(h2, 2) && Bit(h1, 3) && Bit(c, 4);
    assert Bit(h3, 0) && Bit(h2, 1) && Bit(h1, 2) && Bit(c, 3);
    assert Bit(h2, 0) && Bit(h1, 1) && Bit(c, 2);
    assert Bit(h1, 0) && Bit(c, 1) && Bit(c, 0);
  }

  lemma LowHalves(c: Word)
    requires Low(c) == Word(0xFF)
    ensures Odd(c) && Odd(Half(c)) && Odd(Half(Half(c))) && Odd(Half(Half(Half(c))))
    ensures var v := Half(Half(Half(Half(c)))); Odd(v) && Odd(Half(v)) && Odd(Half(Half(v))) && Odd(Half(Half(Half(v))))
  {
  }

  lemma NotIsXor(c: Word)
    ensures Not(c) == Xor(c, Word(0xFFFF_FFFF))
  {
  }

  lemma NotComplements(c: Word)
    ensures Coefficients(Not(c)) == Complement(Coefficients(c))
  {
    hide Not, Xor, Bit;
    NotIsXor(c);
    forall e: nat | e < 32
      ensures Coefficient(Not(c), e) <==> !Coefficient(c, e)
    {
      AllOnes(31 - e);
      BitXor(c, Word(0xFFFF_FFFF), 31 - e);
    }
  }

  /**
   For every string and seed: the complement of the checksum is the remainder,
   modulo the generator, of the message times x^32 plus the complemented seed
   times x to the message's length. The message's first bit is the low bit of
   its first byte, and the highest power.
   */
  lemma ChecksumIsRemainder(data: seq<byte>, seed: Word)
    ensures IsRemainder(Add(Times(OfBits(MessageBits(data)), 32), Times(Complement(Coefficients(seed)), 8 * |data|)),
                        Complement(Coefficients(Checksum(data, seed))))
  {
    hide Not, Register, FeedBits, MessageBits, OfBits, Product, Add, Coefficient, Complement;
    var c := Not(seed);
    NotComplements(seed);
    NotComplements(Checksum(data, seed));
    NotNot(Register(c, data));
    RegisterIsBits(c, data);
    BitsRemainder(c, MessageBits(data));
  }

  // ------------------------------------------------------------ a test vector

  function FourShifts(c: Word): Word {
    Shift(Shift(Shift(Shift(c))))
  }

  function SixteenShifts(c: Word): Word {
    FourShifts(FourShifts(FourShifts(FourShifts(c))))
  }

  lemma ShiftsSixteen(c: Word, n: nat)
    ensures Shifts(c, n + 16) == Shifts(SixteenShifts(c), n)
  {
    hide Shift, Shifts;
    ShiftsFour(c, n + 12);
    ShiftsFour(FourShifts(c), n + 8);
    ShiftsFour(FourShifts(FourShifts(c)), n + 4);
    ShiftsFour(FourShifts(FourShifts(FourShifts(c))), n);
  }

  lemma ShiftsSixtyFour(c: Word)
    ensures Shifts(c, 64) == SixteenShifts(SixteenShifts(SixteenShifts(SixteenShifts(c))))
  {
    hide SixteenShifts, Shift, Shifts;
    ShiftsSixteen(c, 48);
    ShiftsSixteen(SixteenShifts(c), 32);
    ShiftsSixteen(SixteenShifts(SixteenShifts(c)), 16);
    ShiftsSixteen(SixteenShifts(SixteenShifts(SixteenShifts(c))), 0);
    ShiftsNone(SixteenShifts(SixteenShifts(SixteenShifts(SixteenShifts(c)))));
  }

  // What eight bytes of zeros do to the register, two bytes at a time.
  lemma ZerosFirst()
    ensures SixteenShifts(Word(0xFFFF_FFFF)) == Word(0x0E9E_882D)
    ensures SixteenShifts(Word(0x0E9E_882D)) == Word(0xB798_B438)
    ensures SixteenShifts(Word(0xB798_B438)) == Word(0xA8D5_8375)
    ensures SixteenShifts(Word(0xA8D5_8375)) == Word(0x73D7_4D75)
  {
  }

  lemma ZerosSecond()
    ensures SixteenShifts(Word(0x73D7_4D75)) == Word(0x1C22_0F94)
    ensures SixteenShifts(Word(0x1C22_0F94)) == Word(0xD49F_4AA2)
    ensures SixteenShifts(Word(0xD49F_4AA2)) == Word(0x8994_C80E)
    ensures SixteenShifts(Word(0x8994_C80E)) == Word(0xBD8F_6515)
  {
  }

  lemma ZerosThird()
    ensures SixteenShifts(Word(0xBD8F_6515)) == Word(0x36DA_32DB)
    ensures SixteenShifts(Word(0x36DA_32DB)) == Word(0x433A_A9C1)
    ensures SixteenShifts(Word(0x433A_A9C1)) == Word(0xCD8F_89DA)
    ensures SixteenShifts(Word(0xCD8F_89DA)) == Word(0x7B04_1311)
  {
  }

  lemma ZerosFourth()
    ensures SixteenShifts(Word(0x7B04_1311)) == Word(0x2F69_2669)
    ensures SixteenShifts(Word(0x2F69_2669)) == Word(0x0836_3896)
    ensures SixteenShifts(Word(0x0836_3896)) == Word(0x17F3_4302)
    ensures SixteenShifts(Word(0x17F3_4302)) == Word(0x756E_C955)
  {
  }

  lemma {:induction false} RegisterZeros(c: Word, data: seq<byte>)
    requires forall i :: 0 <= i < |data| ==> data[i] == 0
    ensures Register(c, data) == Shifts(c, 8 * |data|)
    decreases |data|
  {
    hide Xor, OfByte, Shift, Shifts;
    if data == [] {
      ShiftsNone(c);
    } else {
      OfZero();
      XorSelf(c);
      RegisterZeros(Feed(c, 0), data[1..]);
      ShiftsCompose(c, 8, 8 * |data[1..]|);
    }
  }

  lemma ShiftsNone(c: Word)
    ensures Shifts(c, 0) == c
  {
  }

  /** Appendix B.4 of RFC 3720: 32 bytes of zeros. */
  lemma ZerosVector(data: seq<byte>)
    requires |data| == 32 && forall i :: 0 <= i < 32 ==> data[i] == 0
    ensures Checksum(data, Word(0)) == Word(0x8A91_36AA)
  {
    hide Shifts, SixteenShifts, Register;
    RegisterZeros(Word(0xFFFF_FFFF), data);
    ZerosFirst();
    ZerosSecond();
    ZerosThird();
    ZerosFourth();
    ShiftsSixtyFour(Word(0xFFFF_FFFF));
    ShiftsSixtyFour(Word(0x73D7_4D75));
    ShiftsSixtyFour(Word(0xBD8F_6515));
    ShiftsSixtyFour(Word(0x7B04_1311));
    ShiftsCompose(Word(0xFFFF_FFFF), 64, 64);
    ShiftsCompose(Word(0xFFFF_FFFF), 128, 64);
    ShiftsCompose(Word(0xFFFF_FFFF), 192, 64);
  }
}
