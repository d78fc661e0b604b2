/**
 CRC-32C (sections 12.1 and B.4 of RFC 3720): the bit-at-a-time reflected
 register is the definition; the slicing-by-8 tables and loop refine it.
 */
module Crc32c {
  import opened Bytes

  // The reflected Castagnoli polynomial.
  const POLY: bv32 := 0x82F63B78

  /** A 32-bit register. The wrapper keeps the proofs equational. */
  datatype Word = Word(bits: bv32)

  function Xor(a: Word, b: Word): Word {
    Word(a.bits ^ b.bits)
  }

  function Not(a: Word): Word {
    Word(!a.bits)
  }

  function Half(c: Word): Word {
    Word(c.bits >> 1)
  }

  function Double(c: Word): Word {
    Word(c.bits << 1)
  }

  function Down8(c: Word): Word {
    Word(c.bits >> 8)
  }

  function Up8(c: Word): Word {
    Word(c.bits << 8)
  }

  function Low(c: Word): Word {
    Word(c.bits & 0xFF)
  }

  predicate Odd(c: Word) {
    c.bits & 1 == 1
  }

  predicate Top(c: Word) {
    c.bits & 0x8000_0000 != 0
  }

  // The top byte is clear: Up8 loses nothing.
  predicate Room8(c: Word) {
    c.bits & 0xFF00_0000 == 0
  }

  function Gather(b0: bool, b1: bool, b2: bool, b3: bool, b4: bool, b5: bool, b6: bool, b7: bool): bv32 {
    (if b0 then 1 else 0) | (if b1 then 2 else 0) | (if b2 then 4 else 0) | (if b3 then 8 else 0)
    | (if b4 then 16 else 0) | (if b5 then 32 else 0) | (if b6 then 64 else 0) | (if b7 then 128 else 0)
  }

  function Value(b0: bool, b1: bool, b2: bool, b3: bool, b4: bool, b5: bool, b6: bool, b7: bool): byte {
    Digit(b0) + 2 * (Digit(b1) + 2 * (Digit(b2) + 2 * (Digit(b3) + 2 * (
      Digit(b4) + 2 * (Digit(b5) + 2 * (Digit(b6) + 2 * Digit(b7)))))))
  }

  function Digit(b: bool): int {
    if b then 1 else 0
  }

  predicate OddInt(n: int) {
    n % 2 == 1
  }

  /** A byte widened to a register: its binary digits, bit for bit. */
  function OfByte(b: byte): Word {
    Word(Gather(OddInt(b), OddInt(b / 2), OddInt(b / 2 / 2), OddInt(b / 2 / 2 / 2),
                OddInt(b / 2 / 2 / 2 / 2), OddInt(b / 2 / 2 / 2 / 2 / 2), OddInt(b / 2 / 2 / 2 / 2 / 2 / 2), OddInt(b / 2 / 2 / 2 / 2 / 2 / 2 / 2)))
  }

  /** The low byte of a register, as an index. */
  function ToByte(c: Word): byte {
    Value(c.bits & 1 != 0, c.bits & 2 != 0, c.bits & 4 != 0, c.bits & 8 != 0,
          c.bits & 16 != 0, c.bits & 32 != 0, c.bits & 64 != 0, c.bits & 128 != 0)
  }

  // ------------------------------------------------------------- definition

  // One register shift: divide by x and reduce.
  function Shift(c: Word): Word {
    if Odd(c) then Xor(Half(c), Word(POLY)) else Half(c)
  }

  function Shifts(c: Word, n: nat): Word
    decreases n
  {
    if n == 0 then c else Shifts(Shift(c), n - 1)
  }

  function Feed(c: Word, b: byte): Word {
    Shifts(Xor(c, OfByte(b)), 8)
  }

  function Register(c: Word, data: seq<byte>): Word
    decreases |data|
  {
    if data == [] then c else Register(Feed(c, data[0]), data[1..])
  }

  function Checksum(data: seq<byte>, seed: Word): Word {
    Not(Register(Not(seed), data))
  }

  // ------------------------------------------------------------- bit facts

  lemma XorAssoc(a: Word, b: Word, c: Word)
    ensures Xor(Xor(a, b), c) == Xor(a, Xor(b, c))
  {
  }

  lemma XorComm(a: Word, b: Word)
    ensures Xor(a, b) == Xor(b, a)
  {
  }

  lemma XorSelf(a: Word)
    ensures Xor(a, a) == Word(0)
    ensures Xor(a, Word(0)) == a
  {
  }

  lemma NotNot(a: Word)
    ensures Not(Not(a)) == a
  {
  }

  lemma HalfXor(a: Word, b: Word)
    ensures Half(Xor(a, b)) == Xor(Half(a), Half(b))
  {
  }

  lemma OddXor(a: Word, b: Word)
    ensures Odd(Xor(a, b)) <==> Odd(a) != Odd(b)
  {
  }

  // The reduction sets the top bit, so a register never forgets its low bit.
  lemma ShiftInjective(a: Word, b: Word)
    requires Shift(a) == Shift(b)
    ensures a == b
  {
  }

  lemma DoubleIsEven(c: Word)
    ensures !Odd(Double(c))
  {
  }

  lemma HalfDouble(c: Word)
    requires !Top(c)
    ensures Half(Double(c)) == c
  {
  }

  lemma Up8Doubles(c: Word)
    ensures Up8(c) == Double(Double(Double(Double(Double(Double(Double(Double(c))))))))
  {
  }

  lemma RoomForFour(c: Word)
    requires Room8(c)
    ensures !Top(c) && !Top(Double(c)) && !Top(Double(Double(c))) && !Top(Double(Double(Double(c))))
  {
  }

  lemma RoomForFive(c: Word)
    requires Room8(c)
    ensures !Top(Double(Double(Double(Double(c)))))
    ensures !Top(Double(Double(Double(Double(Double(c))))))
  {
  }

  lemma RoomForSeven(c: Word)
    requires Room8(c)
    ensures !Top(Double(Double(Double(Double(Double(Double(c)))))))
    ensures !Top(Double(Double(Double(Double(Double(Double(Double(c))))))))
  {
  }

  lemma SplitLow(c: Word)
    ensures Xor(Low(c), Up8(Down8(c))) == c
  {
  }

  lemma DownHasRoom(c: Word)
    ensures Room8(Down8(c))
  {
  }

  lemma TopByteIsLow(c: Word)
    ensures Low(Down8(Down8(Down8(c)))) == Down8(Down8(Down8(c)))
  {
  }

  lemma GatherBits(b0: bool, b1: bool, b2: bool, b3: bool, b4: bool, b5: bool, b6: bool, b7: bool)
    ensures var x := Gather(b0, b1, b2, b3, b4, b5, b6, b7);
            && (x & 1 != 0 <==> b0) && (x & 2 != 0 <==> b1) && (x & 4 != 0 <==> b2) && (x & 8 != 0 <==> b3)
            && (x & 16 != 0 <==> b4) && (x & 32 != 0 <==> b5) && (x & 64 != 0 <==> b6) && (x & 128 != 0 <==> b7)
            && x < 256
  {
  }

  lemma GatherAll(x: bv32)
    ensures Gather(x & 1 != 0, x & 2 != 0, x & 4 != 0, x & 8 != 0,
                   x & 16 != 0, x & 32 != 0, x & 64 != 0, x & 128 != 0) == x & 0xFF
  {
  }

  lemma ValueDigits(b0: bool, b1: bool, b2: bool, b3: bool, b4: bool, b5: bool, b6: bool, b7: bool)
    ensures var v := Value(b0, b1, b2, b3, b4, b5, b6, b7);
            && (OddInt(v) <==> b0) && (OddInt(v / 2) <==> b1) && (OddInt(v / 2 / 2) <==> b2)
            && (OddInt(v / 2 / 2 / 2) <==> b3) && (OddInt(v / 2 / 2 / 2 / 2) <==> b4)
            && (OddInt(v / 2 / 2 / 2 / 2 / 2) <==> b5) && (OddInt(v / 2 / 2 / 2 / 2 / 2 / 2) <==> b6)
            && (OddInt(v / 2 / 2 / 2 / 2 / 2 / 2 / 2) <==> b7)
  {
    var v7 := Digit(b7);
    var v6 := Digit(b6) + 2 * v7;
    var v5 := Digit(b5) + 2 * v6;
    var v4 := Digit(b4) + 2 * v5;
    var v3 := Digit(b3) + 2 * v4;
    var v2 := Digit(b2) + 2 * v3;
    var v1 := Digit(b1) + 2 * v2;
    var v0 := Digit(b0) + 2 * v1;
    hide OddInt, Digit;
    Halving(b0, v1);
    Halving(b1, v2);
    Halving(b2, v3);
    Halving(b3, v4);
    Halving(b4, v5);
    Halving(b5, v6);
    Halving(b6, v7);
    Halving(b7, 0);
  }

  lemma Halving(b: bool, q: int)
    ensures OddInt(Digit(b) + 2 * q) <==> b
    ensures (Digit(b) + 2 * q) / 2 == q
  {
  }

  lemma Splitting(n: nat)
    ensures n == Digit(OddInt(n)) + 2 * (n / 2)
  {
  }

  lemma DigitsValue(b: byte)
    ensures Value(OddInt(b), OddInt(b / 2), OddInt(b / 2 / 2), OddInt(b / 2 / 2 / 2),
                  OddInt(b / 2 / 2 / 2 / 2), OddInt(b / 2 / 2 / 2 / 2 / 2), OddInt(b / 2 / 2 / 2 / 2 / 2 / 2),
                  OddInt(b / 2 / 2 / 2 / 2 / 2 / 2 / 2)) == b
  {
    hide Value, OddInt, Digit;
    var q1 := b / 2;
    var q2 := q1 / 2;
    var q3 := q2 / 2;
    var q4 := q3 / 2;
    var q5 := q4 / 2;
    var q6 := q5 / 2;
    var q7 := q6 / 2;
    Splitting(b);
    Splitting(q1);
    Splitting(q2);
    Splitting(q3);
    Splitting(q4);
    Splitting(q5);
    Splitting(q6);
    Horner(b, q1, q2, q3, q4, q5, q6, q7, OddInt(b), OddInt(q1), OddInt(q2), OddInt(q3), OddInt(q4), OddInt(q5),
           OddInt(q6), OddInt(q7));
  }

  lemma Horner(b: byte, q1: nat, q2: nat, q3: nat, q4: nat, q5: nat, q6: nat, q7: nat,
               b0: bool, b1: bool, b2: bool, b3: bool, b4: bool, b5: bool, b6: bool, b7: bool)
    requires b == Digit(b0) + 2 * q1 && q1 == Digit(b1) + 2 * q2 && q2 == Digit(b2) + 2 * q3
    requires q3 == Digit(b3) + 2 * q4 && q4 == Digit(b4) + 2 * q5 && q5 == Digit(b5) + 2 * q6
    requires q6 == Digit(b6) + 2 * q7 && (b7 <==> OddInt(q7))
    ensures Value(b0, b1, b2, b3, b4, b5, b6, b7) == b
  {
    assert q7 <= 1;
  }

  lemma OfToByte(c: Word)
    ensures OfByte(ToByte(c)) == Low(c)
  {
    hide Gather, Value;
    var x := c.bits;
    ValueDigits(x & 1 != 0, x & 2 != 0, x & 4 != 0, x & 8 != 0, x & 16 != 0, x & 32 != 0, x & 64 != 0, x & 128 != 0);
    GatherAll(x);
  }

  lemma ToOfByte(b: byte)
    ensures ToByte(OfByte(b)) == b
  {
    hide Gather, Value;
    GatherBits(OddInt(b), OddInt(b / 2), OddInt(b / 2 / 2), OddInt(b / 2 / 2 / 2),
               OddInt(b / 2 / 2 / 2 / 2), OddInt(b / 2 / 2 / 2 / 2 / 2), OddInt(b / 2 / 2 / 2 / 2 / 2 / 2), OddInt(b / 2 / 2 / 2 / 2 / 2 / 2 / 2));
    DigitsValue(b);
  }

  lemma OfByteInjective(a: byte, b: byte)
    requires OfByte(a) == OfByte(b)
    ensures a == b
  {
    hide OfByte, ToByte;
    ToOfByte(a);
    ToOfByte(b);
  }

  lemma OfByteSmall(b: byte)
    ensures OfByte(b).bits < 256
  {
    hide Gather;
    GatherBits(OddInt(b), OddInt(b / 2), OddInt(b / 2 / 2), OddInt(b / 2 / 2 / 2),
               OddInt(b / 2 / 2 / 2 / 2), OddInt(b / 2 / 2 / 2 / 2 / 2), OddInt(b / 2 / 2 / 2 / 2 / 2 / 2), OddInt(b / 2 / 2 / 2 / 2 / 2 / 2 / 2));
  }

  lemma SmallHasRoom(c: Word)
    requires c.bits < 256
    ensures Room8(c) && Room8(Up8(c)) && Room8(Up8(Up8(c)))
  {
  }

  lemma ByteHasRoom(b: byte)
    ensures Room8(OfByte(b)) && Room8(Up8(OfByte(b))) && Room8(Up8(Up8(OfByte(b))))
  {
    hide OfByte;
    OfByteSmall(b);
    SmallHasRoom(OfByte(b));
  }

  // ------------------------------------------- algebra of the shift register

  lemma XorSwap(a: Word, b: Word, c: Word, d: Word)
    ensures Xor(Xor(a, b), Xor(c, d)) == Xor(Xor(a, c), Xor(b, d))
  {
    hide Xor;
    XorAssoc(a, b, Xor(c, d));
    XorAssoc(b, c, d);
    XorComm(b, c);
    XorAssoc(c, b, d);
    XorAssoc(a, c, Xor(b, d));
  }

  lemma XorCancel(a: Word, b: Word, c: Word)
    requires Xor(a, c) == Xor(b, c)
    ensures a == b
  {
    hide Xor;
    XorAssoc(a, c, c);
    XorAssoc(b, c, c);
    XorSelf(c);
    XorSelf(a);
    XorSelf(b);
  }

  lemma ShiftXor(a: Word, b: Word)
    ensures Shift(Xor(a, b)) == Xor(Shift(a), Shift(b))
  {
    hide Xor, Half, Odd;
    HalfXor(a, b);
    OddXor(a, b);
    var p := Word(POLY);
    XorSelf(p);
    XorSelf(Xor(Half(a), Half(b)));
    XorSwap(Half(a), p, Half(b), p);
    XorAssoc(Half(a), Half(b), p);
    XorAssoc(Half(a), p, Half(b));
    XorComm(p, Half(b));
  }

  lemma {:induction false} ShiftsXor(a: Word, b: Word, n: nat)
    ensures Shifts(Xor(a, b), n) == Xor(Shifts(a, n), Shifts(b, n))
    decreases n
  {
    hide Xor, Shift;
    if n > 0 {
      ShiftXor(a, b);
      ShiftsXor(Shift(a), Shift(b), n - 1);
    }
  }

  lemma {:induction false} ShiftsCompose(c: Word, m: nat, n: nat)
    ensures Shifts(c, m + n) == Shifts(Shifts(c, m), n)
    decreases m
  {
    hide Shift;
    if m > 0 {
      ShiftsCompose(Shift(c), m - 1, n);
    }
  }

  lemma {:induction false} ShiftsInjective(a: Word, b: Word, n: nat)
    requires Shifts(a, n) == Shifts(b, n)
    ensures a == b
    decreases n
  {
    hide Shift;
    if n > 0 {
      ShiftsInjective(Shift(a), Shift(b), n - 1);
      ShiftInjective(a, b);
    }
  }

  // A shift undoes a doubling that lost no bit, whatever follows.
  lemma ShiftsDouble(c: Word, n: nat)
    requires !Top(c) && n > 0
    ensures Shifts(Double(c), n) == Shifts(c, n - 1)
  {
    hide Half, Double, Odd, Top, Xor;
    DoubleIsEven(c);
    HalfDouble(c);
  }

  lemma ShiftsUp8(c: Word, n: nat)
    requires Room8(c)
    ensures Shifts(Up8(c), n + 8) == Shifts(c, n)
  {
    hide Double, Top, Room8, Shift, Shifts, Up8;
    RoomForFour(c);
    RoomForFive(c);
    RoomForSeven(c);
    Up8Doubles(c);
    var d1 := Double(c);
    var d2 := Double(d1);
    var d3 := Double(d2);
    var d4 := Double(d3);
    var d5 := Double(d4);
    var d6 := Double(d5);
    var d7 := Double(d6);
    ShiftsDouble(d7, n + 8);
    ShiftsDouble(d6, n + 7);
    ShiftsDouble(d5, n + 6);
    ShiftsDouble(d4, n + 5);
    ShiftsDouble(d3, n + 4);
    ShiftsDouble(d2, n + 3);
    ShiftsDouble(d1, n + 2);
    ShiftsDouble(c, n + 1);
  }

  // Peel the low byte: it meets all the shifts, the rest meets eight fewer.
  lemma PeelByte(c: Word, n: nat)
    ensures Shifts(c, n + 8) == Xor(Shifts(OfByte(ToByte(c)), n + 8), Shifts(Down8(c), n))
  {
    hide Xor, Low, Up8, Down8, Shift, Shifts, Room8, OfByte, ToByte;
    SplitLow(c);
    OfToByte(c);
    DownHasRoom(c);
    ShiftsXor(Low(c), Up8(Down8(c)), n + 8);
    ShiftsUp8(Down8(c), n);
  }

  // ------------------------------------------------------- table generation

  type Tables = seq<seq<Word>>

  // What every table entry means: byte i pushed through k + 1 byte times.
  ghost predicate TablesMean(t: Tables) {
    |t| == 8
    && (forall k :: 0 <= k < 8 ==> |t[k]| == 256)
    && forall k, i :: 0 <= k < 8 && 0 <= i < 256 ==> t[k][i] == Shifts(OfByte(i), 8 * k + 8)
  }

  // The shift as the table builder writes it, without a branch.
  function MaskedShift(c: Word): Word {
    Word((c.bits >> 1) ^ (POLY & (!(c.bits & 1) + 1)))
  }

  lemma MaskBits(c: bv32)
    ensures c & 1 == 1 ==> POLY & (!(c & 1) + 1) == POLY
    ensures c & 1 != 1 ==> POLY & (!(c & 1) + 1) == 0
    ensures (c >> 1) ^ 0 == c >> 1
  {
  }

  lemma MaskedShiftIsShift(c: Word)
    ensures MaskedShift(c) == Shift(c)
  {
    MaskBits(c.bits);
  }

  /** MakeTables, first loop body: one entry of table 0, bit by bit. */
  method FirstEntry(i: byte) returns (crc: Word)
    ensures crc == Shifts(OfByte(i), 8)
  {
    hide OfByte, Shift, MaskedShift;
    crc := OfByte(i);
    for bit := 0 to 8
      invariant Shifts(crc, 8 - bit) == Shifts(OfByte(i), 8)
    {
      MaskedShiftIsShift(crc);
      crc := MaskedShift(crc);
    }
  }

  method MakeTables() returns (tables: Tables)
    ensures TablesMean(tables)
  {
    hide OfByte, ToByte, Xor, Down8, Shifts;
    var zeros := seq(256, i => Word(0));
    tables := seq(8, k => zeros);
    for i := 0 to 256
      invariant |tables| == 8 && forall k :: 0 <= k < 8 ==> |tables[k]| == 256
      invariant forall j :: 0 <= j < i ==> tables[0][j] == Shifts(OfByte(j), 8)
    {
      var crc := FirstEntry(i);
      tables := tables[0 := tables[0][i := crc]];
    }
    ghost var first := tables[0];
    for i := 0 to 256
      invariant |tables| == 8 && forall k :: 0 <= k < 8 ==> |tables[k]| == 256
      invariant tables[0] == first
      invariant forall k, j :: 0 <= k < 8 && 0 <= j < i ==> tables[k][j] == Shifts(OfByte(j), 8 * k + 8)
    {
      var crc := tables[0][i];
      for slice := 1 to 8
        invariant |tables| == 8 && forall k :: 0 <= k < 8 ==> |tables[k]| == 256
        invariant tables[0] == first
        invariant crc == Shifts(OfByte(i), 8 * slice)
        invariant forall k, j :: 0 <= k < 8 && 0 <= j < i ==> tables[k][j] == Shifts(OfByte(j), 8 * k + 8)
        invariant forall k :: 0 <= k < slice ==> tables[k][i] == Shifts(OfByte(i), 8 * k + 8)
      {
        TableStep(crc);
        ShiftsCompose(OfByte(i), 8 * slice, 8);
        crc := Xor(tables[0][ToByte(crc)], Down8(crc));
        tables := tables[slice := tables[slice][i := crc]];
      }
    }
  }

  // The one-table step: eight shifts are a lookup of the low byte and a move.
  lemma TableStep(c: Word)
    ensures Shifts(c, 8) == Xor(Shifts(OfByte(ToByte(c)), 8), Down8(c))
  {
    hide Xor, Down8, Shift, OfByte, ToByte;
    PeelByte(c, 0);
  }

  // -------------------------------------------------------- slicing by eight

  /** LoadLe<uint32> over four bytes. */
  function Load4(b0: byte, b1: byte, b2: byte, b3: byte): Word {
    Xor(Xor(OfByte(b0), Up8(OfByte(b1))),
        Xor(Up8(Up8(OfByte(b2))), Up8(Up8(Up8(OfByte(b3))))))
  }

  // Feeding a byte after n shifts is feeding its raised image before them.
  lemma FeedRaised(x: Word, n: nat, b: byte, raised: Word)
    requires Shifts(raised, n) == OfByte(b)
    ensures Feed(Shifts(x, n), b) == Shifts(Xor(x, raised), n + 8)
  {
    hide Xor, OfByte, Shift, Shifts;
    ShiftsXor(x, raised, n);
    ShiftsCompose(Xor(x, raised), n, 8);
  }

  lemma RaisedSinks(b: byte)
    ensures Shifts(OfByte(b), 0) == OfByte(b)
    ensures Shifts(Up8(OfByte(b)), 8) == OfByte(b)
    ensures Shifts(Up8(Up8(OfByte(b))), 16) == OfByte(b)
    ensures Shifts(Up8(Up8(Up8(OfByte(b)))), 24) == OfByte(b)
  {
    hide Up8, OfByte, Shift, Room8;
    ByteHasRoom(b);
    ShiftsUp8(OfByte(b), 0);
    ShiftsUp8(Up8(OfByte(b)), 8);
    ShiftsUp8(Up8(Up8(OfByte(b))), 16);
  }

  // Four bytes enter the register as one 32-bit word.
  lemma FeedFour(c: Word, b0: byte, b1: byte, b2: byte, b3: byte)
    ensures Feed(Feed(Feed(Feed(c, b0), b1), b2), b3) == Shifts(Xor(c, Load4(b0, b1, b2, b3)), 32)
  {
    hide Xor, OfByte, Up8, Shift, Feed;
    RaisedSinks(b0);
    RaisedSinks(b1);
    RaisedSinks(b2);
    RaisedSinks(b3);
    var r1, r2, r3 := Up8(OfByte(b1)), Up8(Up8(OfByte(b2))), Up8(Up8(Up8(OfByte(b3))));
    var x1 := Xor(c, OfByte(b0));
    var x2 := Xor(x1, r1);
    var x3 := Xor(x2, r2);
    FeedRaised(c, 0, b0, OfByte(b0));
    FeedRaised(x1, 8, b1, r1);
    FeedRaised(x2, 16, b2, r2);
    FeedRaised(x3, 24, b3, r3);
    XorAssoc(c, OfByte(b0), r1);
    XorAssoc(x2, r2, r3);
    XorAssoc(c, Xor(OfByte(b0), r1), Xor(r2, r3));
  }

  // The four lookups of one half of the slicing step.
  function Lookup4(t: Tables, top: nat, w: Word): Word
    requires 3 <= top < 8 && |t| == 8 && forall k :: 0 <= k < 8 ==> |t[k]| == 256
  {
    Xor(Xor(t[top][ToByte(w)], t[top - 1][ToByte(Down8(w))]),
        Xor(t[top - 2][ToByte(Down8(Down8(w)))], t[top - 3][ToByte(Down8(Down8(Down8(w))))]))
  }

  lemma Lookup4Meaning(t: Tables, top: nat, w: Word)
    requires 3 <= top < 8 && TablesMean(t)
    ensures Lookup4(t, top, w) == Shifts(w, 8 * top + 8)
  {
    hide Xor, OfByte, ToByte, Down8, Shift, Shifts, Low;
    var w1 := Down8(w);
    var w2 := Down8(w1);
    var w3 := Down8(w2);
    PeelByte(w, 8 * top);
    PeelByte(w1, 8 * top - 8);
    PeelByte(w2, 8 * top - 16);
    TopByteIsLow(w);
    OfToByte(w3);
    var s0 := Shifts(OfByte(ToByte(w)), 8 * top + 8);
    var s1 := Shifts(OfByte(ToByte(w1)), 8 * top);
    var s2 := Shifts(OfByte(ToByte(w2)), 8 * top - 8);
    var s3 := Shifts(w3, 8 * top - 16);
    XorAssoc(s0, s1, Xor(s2, s3));
    assert 8 * (top - 1) + 8 == 8 * top && 8 * (top - 2) + 8 == 8 * top - 8 && 8 * (top - 3) + 8 == 8 * top - 16;
  }

  // One iteration of the eight-byte loop against eight single-byte feeds.
  lemma SliceStep(t: Tables, c: Word, b: seq<byte>)
    requires TablesMean(t) && |b| == 8
    ensures Xor(Lookup4(t, 7, Xor(c, Load4(b[0], b[1], b[2], b[3]))), Lookup4(t, 3, Load4(b[4], b[5], b[6], b[7])))
         == Register(c, b)
  {
    hide Xor, Load4, Lookup4, Shift, Shifts, Feed;
    var lo, hi := Load4(b[0], b[1], b[2], b[3]), Load4(b[4], b[5], b[6], b[7]);
    Lookup4Meaning(t, 7, Xor(c, lo));
    Lookup4Meaning(t, 3, hi);
    FeedFour(c, b[0], b[1], b[2], b[3]);
    var mid := Shifts(Xor(c, lo), 32);
    FeedFour(mid, b[4], b[5], b[6], b[7]);
    ShiftsXor(mid, hi, 32);
    ShiftsCompose(Xor(c, lo), 32, 32);
    RegisterEight(c, b);
  }

  lemma RegisterEight(c: Word, b: seq<byte>)
    requires |b| == 8
    ensures Register(c, b) ==
            Feed(Feed(Feed(Feed(Feed(Feed(Feed(Feed(c, b[0]), b[1]), b[2]), b[3]), b[4]), b[5]), b[6]), b[7])
  {
    hide Feed;
    var lo, hi := b[..4], b[4..];
    RegisterFour(c, lo);
    RegisterFour(Register(c, lo), hi);
    RegisterAppend(c, lo, hi);
    assert b == lo + hi;
  }

  lemma RegisterFour(c: Word, b: seq<byte>)
    requires |b| == 4
    ensures Register(c, b) == Feed(Feed(Feed(Feed(c, b[0]), b[1]), b[2]), b[3])
  {
    hide Feed;
    var c1 := Feed(c, b[0]);
    var c2 := Feed(c1, b[1]);
    var c3 := Feed(c2, b[2]);
    assert b[1..][0] == b[1] && b[1..][1..] == b[2..];
    assert b[2..][0] == b[2] && b[2..][1..] == b[3..];
    assert b[3..][0] == b[3] && b[3..][1..] == [];
    assert Register(c1, b[1..]) == Register(c2, b[2..]);
    assert Register(c2, b[2..]) == Register(c3, b[3..]);
    assert Register(c3, b[3..]) == Register(Feed(c3, b[3]), []);
  }

  lemma {:induction false} RegisterAppend(c: Word, a: seq<byte>, b: seq<byte>)
    ensures Register(c, a + b) == Register(Register(c, a), b)
    decreases |a|
  {
    hide Feed;
    if a == [] {
      assert a + b == b;
    } else {
      assert (a + b)[1..] == a[1..] + b;
      RegisterAppend(Feed(c, a[0]), a[1..], b);
    }
  }

  method Crc32cSoftware(data: seq<byte>, seed: Word) returns (crc: Word)
    ensures crc == Checksum(data, seed)
  {
    hide Xor, Not, Load4, Lookup4, ToByte, OfByte, Down8, Shift, Shifts, TablesMean;
    var tables := MakeTables();
    TableShape(tables);
    crc := Not(seed);
    var p := 0;
    while |data| - p >= 8
      invariant 0 <= p <= |data|
      invariant Register(crc, data[p..]) == Register(Not(seed), data)
    {
      ghost var before := crc;
      SliceStep(tables, crc, data[p..p + 8]);
      RegisterAppend(crc, data[p..p + 8], data[p + 8..]);
      assert data[p..] == data[p..p + 8] + data[p + 8..];
      crc := Xor(crc, Load4(data[p], data[p + 1], data[p + 2], data[p + 3]));
      var next := Load4(data[p + 4], data[p + 5], data[p + 6], data[p + 7]);
      crc := Xor(Lookup4(tables, 7, crc), Lookup4(tables, 3, next));
      assert crc == Register(before, data[p..p + 8]);
      p := p + 8;
    }
    while p < |data|
      invariant 0 <= p <= |data|
      invariant Register(crc, data[p..]) == Register(Not(seed), data)
    {
      ByteStepFeeds(tables, crc, data[p]);
      assert data[p..][1..] == data[p + 1..];
      crc := ByteStep(tables, crc, data[p]);
      p := p + 1;
    }
    crc := Not(crc);
  }

  lemma TableShape(t: Tables)
    requires TablesMean(t)
    ensures |t| == 8 && forall k :: 0 <= k < 8 ==> |t[k]| == 256
  {
  }

  // tables[0][(crc ^ b) & 0xFF] ^ (crc >> 8)
  function ByteStep(t: Tables, c: Word, b: byte): Word
    requires |t| == 8 && |t[0]| == 256
  {
    Xor(t[0][ToByte(Xor(c, OfByte(b)))], Down8(c))
  }

  lemma DownIgnoresSmall(c: Word, d: Word)
    requires d.bits < 256
    ensures Down8(Xor(c, d)) == Down8(c)
  {
  }

  lemma ByteStepFeeds(t: Tables, c: Word, b: byte)
    requires TablesMean(t)
    ensures ByteStep(t, c, b) == Feed(c, b)
  {
    hide Xor, ToByte, OfByte, Down8, Shift, Shifts;
    TableStep(Xor(c, OfByte(b)));
    OfByteSmall(b);
    DownIgnoresSmall(c, OfByte(b));
  }

  // ------------------------------------------------------- detection theorems

  /** A checksum continued through the seed is one checksum of the whole. */
  lemma Chaining(a: seq<byte>, b: seq<byte>, seed: Word)
    ensures Checksum(a + b, seed) == Checksum(b, Checksum(a, seed))
  {
    hide Not, Register;
    RegisterAppend(Not(seed), a, b);
    NotNot(Register(Not(seed), a));
  }

  lemma {:induction false} RegisterInjective(a: Word, b: Word, data: seq<byte>)
    requires Register(a, data) == Register(b, data)
    ensures a == b
    decreases |data|
  {
    hide Xor, OfByte, Shifts;
    if data != [] {
      RegisterInjective(Feed(a, data[0]), Feed(b, data[0]), data[1..]);
      ShiftsInjective(Xor(a, OfByte(data[0])), Xor(b, OfByte(data[0])), 8);
      XorCancel(a, b, OfByte(data[0]));
    }
  }

  // Four bytes are recovered from the word they form, lowest first.
  lemma Load4Low(b0: byte, b1: byte, b2: byte, b3: byte)
    ensures Low(Load4(b0, b1, b2, b3)) == OfByte(b0)
    ensures Down8(Load4(b0, b1, b2, b3)) == Load4(b1, b2, b3, 0)
  {
    hide OfByte;
    OfByteSmall(b0);
    OfByteSmall(b1);
    OfByteSmall(b2);
    OfByteSmall(b3);
    OfZero();
    JoinBits(OfByte(b0).bits, OfByte(b1).bits, OfByte(b2).bits, OfByte(b3).bits);
  }

  lemma OfZero()
    ensures OfByte(0) == Word(0)
  {
    hide Gather;
    GatherNone(false);
  }

  lemma GatherNone(b: bool)
    ensures !b ==> Gather(b, b, b, b, b, b, b, b) == 0
  {
  }

  lemma JoinBits(x0: bv32, x1: bv32, x2: bv32, x3: bv32)
    requires x0 < 256 && x1 < 256 && x2 < 256 && x3 < 256
    ensures var w := (x0 ^ (x1 << 8)) ^ (((x2 << 8) << 8) ^ (((x3 << 8) << 8) << 8));
            && w & 0xFF == x0
            && w >> 8 == (x1 ^ (x2 << 8)) ^ (((x3 << 8) << 8) ^ (((0 << 8) << 8) << 8))
  {
  }

  lemma Load4Injective(a0: byte, a1: byte, a2: byte, a3: byte, b0: byte, b1: byte, b2: byte, b3: byte)
    requires Load4(a0, a1, a2, a3) == Load4(b0, b1, b2, b3)
    ensures a0 == b0 && a1 == b1 && a2 == b2 && a3 == b3
  {
    hide Load4, Low, Down8, OfByte;
    Load4Low(a0, a1, a2, a3);
    Load4Low(b0, b1, b2, b3);
    OfByteInjective(a0, b0);
    Load4Low(a1, a2, a3, 0);
    Load4Low(b1, b2, b3, 0);
    OfByteInjective(a1, b1);
    Load4Low(a2, a3, 0, 0);
    Load4Low(b2, b3, 0, 0);
    OfByteInjective(a2, b2);
    Load4Low(a3, 0, 0, 0);
    Load4Low(b3, 0, 0, 0);
    OfByteInjective(a3, b3);
  }

  lemma FourInjective(c: Word, x: seq<byte>, y: seq<byte>)
    requires |x| == |y| == 4 && Register(c, x) == Register(c, y)
    ensures x == y
  {
    hide Xor, Load4, Shifts, Feed, Register;
    RegisterFour(c, x);
    RegisterFour(c, y);
    FeedFour(c, x[0], x[1], x[2], x[3]);
    FeedFour(c, y[0], y[1], y[2], y[3]);
    var u, v := Load4(x[0], x[1], x[2], x[3]), Load4(y[0], y[1], y[2], y[3]);
    ShiftsInjective(Xor(c, u), Xor(c, v), 32);
    XorComm(c, u);
    XorComm(c, v);
    XorCancel(u, v, c);
    Load4Injective(x[0], x[1], x[2], x[3], y[0], y[1], y[2], y[3]);
  }

  /** A window of up to four bytes enters the register without loss. */
  lemma WindowInjective(c: Word, x: seq<byte>, y: seq<byte>)
    requires |x| == |y| <= 4 && Register(c, x) == Register(c, y)
    ensures x == y
  {
    hide Register;
    var z: seq<byte> := seq(4 - |x|, i => 0);
    RegisterAppend(c, x, z);
    RegisterAppend(c, y, z);
    FourInjective(c, x + z, y + z);
    assert x == (x + z)[..|x|] && y == (y + z)[..|x|];
  }

  /**
   Two strings of equal length that differ only inside some window of at most
   four bytes never share a checksum; a single changed byte is the case |x| = 1.
   */
  lemma BurstDetected(before: seq<byte>, x: seq<byte>, y: seq<byte>, after: seq<byte>, seed: Word)
    requires |x| == |y| <= 4 && x != y
    ensures Checksum(before + x + after, seed) != Checksum(before + y + after, seed)
  {
    hide Not, Register;
    var c := Not(seed);
    RegisterAppend(c, before + x, after);
    RegisterAppend(c, before + y, after);
    RegisterAppend(c, before, x);
    RegisterAppend(c, before, y);
    var d := Register(c, before);
    if Checksum(before + x + after, seed) == Checksum(before + y + after, seed) {
      NotNot(Register(c, before + x + after));
      NotNot(Register(c, before + y + after));
      RegisterInjective(Register(d, x), Register(d, y), after);
      WindowInjective(d, x, y);
    }
  }

  /** The checksum as the unsigned integer the codecs store. */
  function Crc(data: seq<byte>): u32 {
    Checksum(data, Word(0)).bits as int
  }

  lemma SameBits(a: bv32, b: bv32)
    ensures a as int == b as int ==> a == b
  {
    assert (a as int) as bv32 == a && (b as int) as bv32 == b;
  }

  /** The checksum field tells apart any two strings that differ inside one stretch of at most four bytes. */
  lemma CrcBurst(before: seq<byte>, x: seq<byte>, y: seq<byte>, after: seq<byte>)
    requires |x| == |y| <= 4 && x != y
    ensures Crc(before + x + after) != Crc(before + y + after)
  {
    hide Checksum;
    BurstDetected(before, x, y, after, Word(0));
    SameBits(Checksum(before + x + after, Word(0)).bits, Checksum(before + y + after, Word(0)).bits);
  }
}
