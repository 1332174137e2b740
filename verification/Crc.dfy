// CRC-32 as frontend/src/lib/chartExport.ts computes it, one table look-up a byte,
// and as RFC 2083 (section 3.4) defines it: the remainder of a polynomial division.
//
// An unsigned 32-bit number is the sequence of its bits, least significant first.
module Crc {

  import opened Bytes

  type Word = w: seq<bool> | |w| == 32 witness Zeros(32)

  function Zeros(n: nat): (r: seq<bool>)
    ensures |r| == n && forall i :: 0 <= i < n ==> !r[i]
  {
    seq(n, _ => false)
  }

  function Ones(n: nat): (r: seq<bool>)
    ensures |r| == n && forall i :: 0 <= i < n ==> r[i]
  {
    seq(n, _ => true)
  }

  // The n low bits of v.
  function ToBits(v: nat, n: nat): (r: seq<bool>)
    ensures |r| == n
    decreases n, v
  {
    if n == 0 then [] else [v % 2 == 1] + ToBits(v / 2, n - 1)
  }

  function Value(bits: seq<bool>): nat {
    if bits == [] then 0 else (if bits[0] then 1 else 0) + 2 * Value(bits[1..])
  }

  function Xor(a: seq<bool>, b: seq<bool>): (r: seq<bool>)
    requires |a| == |b|
    ensures |r| == |a| && forall i :: 0 <= i < |a| ==> r[i] == (a[i] != b[i])
  {
    seq(|a|, i requires 0 <= i < |a| => a[i] != b[i])
  }

  // The word shifted down by n bits, zeros coming in.
  function ShiftRight(w: seq<bool>, n: nat): (r: seq<bool>)
    requires n <= |w|
    ensures |r| == |w|
  {
    w[n..] + Zeros(n)
  }

  // 0xedb88320, the byte 0x20 first
  const POLYNOMIAL: Word :=
    [false, false, false, false, false, true, false, false]
    + [true, true, false, false, false, false, false, true]
    + [false, false, false, true, true, true, false, true]
    + [true, false, true, true, false, true, true, true]

  function Power2(n: nat): nat { if n == 0 then 1 else 2 * Power2(n - 1) }

  lemma {:induction false} ValueConcat(a: seq<bool>, b: seq<bool>)
    ensures Value(a + b) == Value(a) + Power2(|a|) * Value(b)
  {
    if a == [] {
      assert a + b == b;
    } else {
      ValueConcat(a[1..], b);
      assert (a + b)[1..] == a[1..] + b;
      assert Power2(|a|) * Value(b) == 2 * (Power2(|a| - 1) * Value(b));
    }
  }

  lemma ValueStep(b: seq<bool>, i: nat)
    requires i < |b|
    ensures Value(b[i..]) == (if b[i] then 1 else 0) + 2 * Value(b[i + 1..])
  {
    assert b[i..][1..] == b[i + 1..];
  }

  lemma ValueOfFour(b: seq<bool>)
    requires |b| == 4
    ensures Value(b) == (if b[0] then 1 else 0) + (if b[1] then 2 else 0) + (if b[2] then 4 else 0) + (if b[3] then 8 else 0)
  {
    ValueStep(b, 0);
    ValueStep(b, 1);
    ValueStep(b, 2);
    ValueStep(b, 3);
    assert b[0..] == b;
    assert b[4..] == [];
  }

  lemma ValueOfByte(b: seq<bool>)
    requires |b| == 8
    ensures Value(b) == Value(b[..4]) + 16 * Value(b[4..])
  {
    assert b == b[..4] + b[4..];
    ValueConcat(b[..4], b[4..]);
    assert Power2(4) == 16;
  }

  lemma ValueOfWord(w: Word)
    ensures Value(w) == Value(w[..8]) + 0x100 * Value(w[8..16]) + 0x10000 * Value(w[16..24]) + 0x1000000 * Value(w[24..])
  {
    assert Power2(8) == 256;
    ValueConcat(w[16..24], w[24..]);
    assert w[16..24] + w[24..] == w[16..];
    ValueConcat(w[8..16], w[16..]);
    assert w[8..16] + w[16..] == w[8..];
    ValueConcat(w[..8], w[8..]);
    assert w[..8] + w[8..] == w;
  }

  lemma PolynomialValue()
    ensures Value(POLYNOMIAL) == 0xedb88320
  {
    ValueOfWord(POLYNOMIAL);
    PolynomialByte(POLYNOMIAL[..8], 0, 2);
    PolynomialByte(POLYNOMIAL[8..16], 3, 8);
    PolynomialByte(POLYNOMIAL[16..24], 8, 11);
    PolynomialByte(POLYNOMIAL[24..], 13, 14);
  }

  lemma PolynomialByte(b: seq<bool>, low: nat, high: nat)
    requires |b| == 8
    requires low == (if b[0] then 1 else 0) + (if b[1] then 2 else 0) + (if b[2] then 4 else 0) + (if b[3] then 8 else 0)
    requires high == (if b[4] then 1 else 0) + (if b[5] then 2 else 0) + (if b[6] then 4 else 0) + (if b[7] then 8 else 0)
    ensures Value(b) == low + 16 * high
  {
    ValueOfByte(b);
    ValueOfFour(b[..4]);
    ValueOfFour(b[4..]);
  }

  lemma {:induction false} ValueBound(bits: seq<bool>)
    ensures Value(bits) < Power2(|bits|)
  {
    if bits != [] {
      ValueBound(bits[1..]);
    }
  }

  lemma {:induction false} BitsOfValue(bits: seq<bool>)
    ensures ToBits(Value(bits), |bits|) == bits
  {
    if bits != [] {
      BitsOfValue(bits[1..]);
    }
  }

  lemma {:induction false} ValueOfBits(v: nat, n: nat)
    requires v < Power2(n)
    ensures Value(ToBits(v, n)) == v
    decreases n
  {
    if n > 0 {
      ValueOfBits(v / 2, n - 1);
      assert ToBits(v, n)[1..] == ToBits(v / 2, n - 1);
    }
  }

  lemma {:induction false} BitsOfZero(n: nat)
    ensures ToBits(0, n) == Zeros(n)
    decreases n
  {
    if n > 0 {
      BitsOfZero(n - 1);
    }
  }

  // A number with k bits has zeros above them.
  lemma {:induction false} HighBits(v: nat, k: nat, n: nat)
    requires k <= n && v < Power2(k)
    ensures ToBits(v, n) == ToBits(v, k) + Zeros(n - k)
    decreases k
  {
    if k == 0 {
      BitsOfZero(n);
    } else {
      HighBits(v / 2, k - 1, n - 1);
    }
  }

  // ----- the register, one bit at a time -----

  // One bit out of the register; the polynomial goes in if the bit was set.
  function Step(c: Word): Word {
    if c[0] then Xor(POLYNOMIAL, ShiftRight(c, 1)) else ShiftRight(c, 1)
  }

  function Steps(c: Word, n: nat): Word
    decreases n, c
  {
    if n == 0 then c else Steps(Step(c), n - 1)
  }

  // Feeding a message bit by bit, with no table.
  function Feed(register: Word, bits: seq<bool>): Word
    decreases |bits|
  {
    if bits == [] then register else Feed(Step(register[0 := register[0] != bits[0]]), bits[1..])
  }

  // The bits of the message, the bits of each byte least significant first.
  function MessageBits(bytes: seq<byte>): seq<bool> {
    if bytes == [] then [] else ToBits(bytes[0], 8) + MessageBits(bytes[1..])
  }

  function CrcWord(bytes: seq<byte>): Word {
    Xor(Feed(Ones(32), MessageBits(bytes)), Ones(32))
  }

  function CrcValue(bytes: seq<byte>): nat {
    Value(CrcWord(bytes))
  }

  // ----- a table entry is eight steps at once -----

  lemma ShiftXor(a: Word, b: Word)
    ensures ShiftRight(Xor(a, b), 1) == Xor(ShiftRight(a, 1), ShiftRight(b, 1))
  {
  }

  lemma XorShuffle(p: Word, a: Word, b: Word)
    ensures Xor(Xor(p, a), Xor(p, b)) == Xor(a, b)
    ensures Xor(Xor(p, a), b) == Xor(p, Xor(a, b))
    ensures Xor(a, Xor(p, b)) == Xor(p, Xor(a, b))
  {
  }

  lemma StepIsLinear(a: Word, b: Word)
    ensures Step(Xor(a, b)) == Xor(Step(a), Step(b))
  {
    ShiftXor(a, b);
    XorShuffle(POLYNOMIAL, ShiftRight(a, 1), ShiftRight(b, 1));
  }

  lemma {:induction false} StepsAreLinear(a: Word, b: Word, n: nat)
    ensures Steps(Xor(a, b), n) == Xor(Steps(a, n), Steps(b, n))
    decreases n
  {
    if n > 0 {
      StepIsLinear(a, b);
      StepsAreLinear(Step(a), Step(b), n - 1);
    }
  }

  lemma StepZero(c: Word)
    requires !c[0]
    ensures Step(c) == c[1..] + [false]
  {
  }

  // Zeros fall out without a subtraction.
  lemma {:induction false} StepZeros(high: seq<bool>, k: nat)
    requires |high| + k == 32
    ensures Steps(Zeros(k) + high, k) == high + Zeros(k)
    decreases k
  {
    if k == 0 {
      assert Zeros(0) + high == high == high + Zeros(0);
    } else {
      var c := Zeros(k) + high;
      StepZero(c);
      assert c[1..] + [false] == Zeros(k - 1) + (high + [false]);
      StepZeros(high + [false], k - 1);
      assert high + [false] + Zeros(k - 1) == high + Zeros(k);
    }
  }

  lemma SplitWord(c: Word)
    ensures c == Xor(c[..8] + Zeros(24), Zeros(8) + c[8..])
  {
  }

  /** Eight steps are one look-up and one shift. */
  lemma EightSteps(c: Word)
    ensures Steps(c, 8) == Xor(Steps(c[..8] + Zeros(24), 8), ShiftRight(c, 8))
  {
    SplitWord(c);
    StepsAreLinear(c[..8] + Zeros(24), Zeros(8) + c[8..], 8);
    StepZeros(c[8..], 8);
  }

  lemma XorFirst(c: Word, bits: seq<bool>)
    requires 0 < |bits| <= 32
    ensures var first := c[0 := c[0] != bits[0]];
      Xor(Step(first), bits[1..] + Zeros(33 - |bits|)) == Step(Xor(c, bits + Zeros(32 - |bits|)))
  {
    var first := c[0 := c[0] != bits[0]];
    var rest := [false] + bits[1..] + Zeros(32 - |bits|);
    assert Xor(c, bits + Zeros(32 - |bits|)) == Xor(first, rest);
    StepIsLinear(first, rest);
    StepZero(rest);
    assert rest[1..] + [false] == bits[1..] + Zeros(33 - |bits|);
  }

  // Feeding up to 32 bits is xoring them in and stepping as often.
  lemma {:induction false} FeedBits(c: Word, bits: seq<bool>)
    requires |bits| <= 32
    ensures Feed(c, bits) == Steps(Xor(c, bits + Zeros(32 - |bits|)), |bits|)
    decreases |bits|
  {
    if bits == [] {
      assert Xor(c, [] + Zeros(32)) == c;
    } else {
      FeedBits(Step(c[0 := c[0] != bits[0]]), bits[1..]);
      XorFirst(c, bits);
    }
  }

  lemma {:induction false} FeedConcat(c: Word, a: seq<bool>, b: seq<bool>)
    ensures Feed(c, a + b) == Feed(Feed(c, a), b)
    decreases |a|
  {
    if a == [] {
      assert a + b == b;
    } else {
      assert (a + b)[1..] == a[1..] + b;
      FeedConcat(Step(c[0 := c[0] != a[0]]), a[1..], b);
    }
  }

  // CRC32_TABLE[index]
  function Entry(index: nat): Word {
    Steps(ToBits(index, 32), 8)
  }

  // One byte at a time: the table entry of the low byte mixed with b, and the rest of the register.
  function TableStep(crc: Word, b: byte): Word {
    Xor(Entry(Value(Xor(crc, ToBits(b, 32))[..8])), ShiftRight(crc, 8))
  }

  lemma ByteFits(v: nat)
    requires v < 256
    ensures v < Power2(8)
  {
    assert Power2(8) == 256;
  }

  lemma ByteValue(bits: seq<bool>)
    requires |bits| == 8
    ensures Value(bits) < 256
    ensures ToBits(Value(bits), 32) == bits + Zeros(24)
  {
    ValueBound(bits);
    assert Power2(8) == 256;
    HighBits(Value(bits), 8, 32);
    BitsOfValue(bits);
  }

  lemma LowByte(bits: seq<bool>)
    requires |bits| == 8
    ensures Value(bits) < 256
    ensures Entry(Value(bits)) == Steps(bits + Zeros(24), 8)
  {
    ByteValue(bits);
  }

  /** One table look-up feeds the eight bits of a byte. */
  lemma TableStepFeedsByte(crc: Word, b: byte)
    ensures TableStep(crc, b) == Feed(crc, ToBits(b, 8))
  {
    ByteFits(b);
    HighBits(b, 8, 32);
    var x := Xor(crc, ToBits(b, 32));
    FeedBits(crc, ToBits(b, 8));
    EightSteps(x);
    LowByte(x[..8]);
    assert ShiftRight(x, 8) == ShiftRight(crc, 8);
  }

  function FeedBytes(register: Word, bytes: seq<byte>): Word {
    Feed(register, MessageBits(bytes))
  }

  lemma {:induction false} MessageBitsConcat(a: seq<byte>, b: seq<byte>)
    ensures MessageBits(a + b) == MessageBits(a) + MessageBits(b)
  {
    if a == [] {
      assert a + b == b;
    } else {
      assert (a + b)[1..] == a[1..] + b;
      MessageBitsConcat(a[1..], b);
    }
  }

  lemma MessageBitsNext(bytes: seq<byte>, k: nat)
    requires k < |bytes|
    ensures MessageBits(bytes[..k + 1]) == MessageBits(bytes[..k]) + ToBits(bytes[k], 8)
  {
    assert bytes[..k + 1] == bytes[..k] + [bytes[k]];
    MessageBitsConcat(bytes[..k], [bytes[k]]);
    assert MessageBits([bytes[k]]) == ToBits(bytes[k], 8) + MessageBits([]) == ToBits(bytes[k], 8);
  }

  lemma FeedNextByte(register: Word, bytes: seq<byte>, k: nat)
    requires k < |bytes|
    ensures FeedBytes(register, bytes[..k + 1]) == TableStep(FeedBytes(register, bytes[..k]), bytes[k])
  {
    MessageBitsNext(bytes, k);
    FeedConcat(register, MessageBits(bytes[..k]), ToBits(bytes[k], 8));
    TableStepFeedsByte(FeedBytes(register, bytes[..k]), bytes[k]);
  }

  // The inner loop of the table: eight conditional subtractions.
  method BuildEntry(value: nat) returns (current: Word)
    ensures current == Entry(value)
  {
    current := ToBits(value, 32);
    for bit := 0 to 8
      invariant Steps(current, 8 - bit) == Entry(value)
    {
      current := if current[0] then Xor(POLYNOMIAL, ShiftRight(current, 1)) else ShiftRight(current, 1);
    }
  }

  // The 256-entry table, built once.
  method BuildTable() returns (table: array<Word>)
    ensures fresh(table) && table.Length == 256
    ensures forall v :: 0 <= v < 256 ==> table[v] == Entry(v)
  {
    table := new Word[256](_ => Zeros(32));
    for value := 0 to 256
      invariant forall v :: 0 <= v < value ==> table[v] == Entry(v)
    {
      table[value] := BuildEntry(value);
    }
  }

  /** The table-driven loop computes, for every byte string, what feeding its bits one at a time computes. */
  method Crc32(table: array<Word>, bytes: seq<byte>) returns (r: nat)
    requires table.Length == 256 && forall v :: 0 <= v < 256 ==> table[v] == Entry(v)
    ensures r == CrcValue(bytes)
  {
    var crc: Word := Ones(32);
    for index := 0 to |bytes|
      invariant crc == FeedBytes(Ones(32), bytes[..index])
    {
      var low := Xor(crc, ToBits(bytes[index], 32))[..8];
      LowByte(low);
      FeedNextByte(Ones(32), bytes, index);
      crc := Xor(table[Value(low)], ShiftRight(crc, 8));
    }
    assert bytes[..|bytes|] == bytes;
    r := Value(Xor(crc, Ones(32)));
  }

  // ----- the polynomial division -----

  // d with its first terms added to p, over the field of two elements.
  function AddFront(d: seq<bool>, p: seq<bool>): (r: seq<bool>)
    requires |p| <= |d|
    ensures |r| == |d|
  {
    Xor(d[..|p|], p) + d[|p|..]
  }

  // x^32 + x^26 + x^23 + x^22 + x^16 + x^12 + x^11 + x^10 + x^8 + x^7 + x^5 + x^4 + x^2 + x + 1, highest term first.
  function Divisor(): (r: seq<bool>)
    ensures |r| == 33
  {
    [true] + POLYNOMIAL
  }

  lemma DivisorTerms()
    ensures forall i :: 0 <= i <= 32 ==>
      (Divisor()[i] <==> 32 - i in {32, 26, 23, 22, 16, 12, 11, 10, 8, 7, 5, 4, 2, 1, 0})
  {
  }

  // The remainder of d, highest term first, by schoolbook long division.
  function Remainder(d: seq<bool>): seq<bool>
    decreases |d|
  {
    if |d| <= 32 then d
    else if d[0] then Remainder(AddFront(d, Divisor())[1..])
    else Remainder(d[1..])
  }

  // One step of the register is one step of the division.
  lemma DivisionStep(m: seq<bool>, register: Word)
    requires m != []
    ensures var d := AddFront(m + Zeros(32), register);
      var d' := AddFront(m[1..] + Zeros(32), Step(register[0 := register[0] != m[0]]));
      (if d[0] then AddFront(d, Divisor())[1..] else d[1..]) == d'
  {
    var d := AddFront(m + Zeros(32), register);
    var next := Step(register[0 := register[0] != m[0]]);
    var d' := AddFront(m[1..] + Zeros(32), next);
    var e := if d[0] then AddFront(d, Divisor())[1..] else d[1..];
    assert |e| == |d'|;
    forall i | 0 <= i < |e| ensures e[i] == d'[i] {
      DivisionStepAt(m, register, i);
    }
  }

  // Position i after dividing once, in terms of position i + 1 before.
  lemma DividedAt(d: seq<bool>, i: nat)
    requires |d| >= 33 && i < |d| - 1
    ensures (if d[0] then AddFront(d, Divisor())[1..] else d[1..])[i]
         == (d[i + 1] != (i < 32 && d[0] && POLYNOMIAL[i]))
  {
  }

  // And after one step of the register that has taken in a bit.
  lemma SteppedAt(register: Word, bit: bool, i: nat)
    requires i < 32
    ensures Step(register[0 := register[0] != bit])[i]
         == ((i < 31 && register[i + 1]) != ((register[0] != bit) && POLYNOMIAL[i]))
  {
    var flipped := register[0 := register[0] != bit];
    assert ShiftRight(flipped, 1)[i] == (i < 31 && register[i + 1]);
  }

  lemma FrontAt(d: seq<bool>, p: seq<bool>, i: nat)
    requires |p| <= |d| && i < |d|
    ensures AddFront(d, p)[i] == (d[i] != (i < |p| && p[i]))
  {
  }

  lemma DivisionStepAt(m: seq<bool>, register: Word, i: nat)
    requires m != [] && i < |m| + 31
    ensures var d := AddFront(m + Zeros(32), register);
      var d' := AddFront(m[1..] + Zeros(32), Step(register[0 := register[0] != m[0]]));
      (if d[0] then AddFront(d, Divisor())[1..] else d[1..])[i] == d'[i]
  {
    var fed, rest := m + Zeros(32), m[1..] + Zeros(32);
    assert fed[1..] == rest;
    FrontAt(fed, register, 0);
    FrontAt(fed, register, i + 1);
    FrontAt(rest, Step(register[0 := register[0] != m[0]]), i);
    DividedAt(AddFront(fed, register), i);
    if i < 32 {
      SteppedAt(register, m[0], i);
    }
  }

  lemma {:induction false} FeedDivides(m: seq<bool>, register: Word)
    ensures Remainder(AddFront(m + Zeros(32), register)) == Feed(register, m)
    decreases |m|
  {
    if m == [] {
      assert AddFront([] + Zeros(32), register) == register;
    } else {
      DivisionStep(m, register);
      FeedDivides(m[1..], Step(register[0 := register[0] != m[0]]));
    }
  }

  /** RFC 2083: take the message times x^32, complement its first 32 terms, divide, and complement the remainder. */
  lemma CrcIsRemainder(bytes: seq<byte>)
    ensures var dividend := AddFront(MessageBits(bytes) + Zeros(32), Ones(32));
      |Remainder(dividend)| == 32 && CrcWord(bytes) == Xor(Remainder(dividend), Ones(32))
  {
    FeedDivides(MessageBits(bytes), Ones(32));
  }
}
