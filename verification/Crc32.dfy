/**
 CRC-32 with the reflected generator 0xEDB88320 (section 8 of RFC 1952).

 The register is a `bv32`.  Bit operations are named (`Xor`, `Half`, `Odd`), so
 that a proof about runs of register shifts hides their bits and reasons with
 the few laws below.
 */
module Crc32 {
  import opened Bytes

  const GENERATOR: bv32 := 0xEDB8_8320
  const ALL_ONES: bv32 := 0xFFFF_FFFF

  function Xor(a: bv32, b: bv32): bv32 { a ^ b }

  function Half(a: bv32): bv32 { a >> 1 }

  predicate Odd(a: bv32) { a & 1 != 0 }

  // One shift of the register: one step of division by the generator
  function Shift(c: bv32): bv32 {
    if Odd(c) then Xor(Half(c), GENERATOR) else Half(c)
  }

  function Shifts(c: bv32, k: nat): bv32
    decreases k
  {
    if k == 0 then c else Shifts(Shift(c), k - 1)
  }

  function Narrow(b: byte): bv8 {
    b as bv8
  }

  function Widen(b: byte): bv32 {
    Narrow(b) as bv32
  }

  // The register after the bytes of data, eight shifts for each
  function Update(c: bv32, data: seq<byte>): bv32
    decreases |data|
  {
    if |data| == 0 then c else Update(Shifts(Xor(c, Widen(data[0])), 8), data[1..])
  }

  function Crc(data: seq<byte>): u32 {
    Xor(Update(ALL_ONES, data), ALL_ONES) as int
  }

  // Laws of the bit operations

  lemma XorSwap(a: bv32, b: bv32, c: bv32)
    ensures Xor(Xor(a, b), c) == Xor(Xor(a, c), b)
  {
    hide Xor;
    XorBits(a, b);
    XorBits(a ^ b, c);
    XorBits(a, c);
    XorBits(a ^ c, b);
    SwapBits(a, b, c);
  }

  lemma XorBits(a: bv32, b: bv32)
    ensures Xor(a, b) == a ^ b
  {
  }

  lemma SwapBits(a: bv32, b: bv32, c: bv32)
    ensures (a ^ b) ^ c == (a ^ c) ^ b
  {
  }

  lemma XorCancel(a: bv32, b: bv32, c: bv32)
    requires Xor(a, c) == Xor(b, c)
    ensures a == b
  {
  }

  lemma HalfXor(a: bv32, b: bv32)
    ensures Half(Xor(a, b)) == Xor(Half(a), Half(b))
  {
  }

  lemma OddXor(a: bv32, b: bv32)
    ensures Odd(Xor(a, b)) <==> (Odd(a) != Odd(b))
  {
  }

  lemma ShiftInjective(c: bv32, d: bv32)
    requires Shift(c) == Shift(d)
    ensures c == d
  {
  }

  lemma ShiftXorEven(c: bv32, d: bv32)
    requires !Odd(d)
    ensures Shift(Xor(c, d)) == Xor(Shift(c), Half(d))
  {
    hide Xor, Half, Odd;
    OddXor(c, d);
    HalfXor(c, d);
    XorSwap(Half(c), Half(d), GENERATOR);
  }

  // Runs of shifts

  lemma {:induction false} UpdateAppend(c: bv32, a: seq<byte>, b: seq<byte>)
    ensures Update(c, a + b) == Update(Update(c, a), b)
    decreases |a|
  {
    hide Xor, Shifts, Widen;
    if |a| == 0 {
      assert a + b == b;
    } else {
      assert (a + b)[1..] == a[1..] + b;
      UpdateAppend(Shifts(Xor(c, Widen(a[0])), 8), a[1..], b);
    }
  }

  function Halves(d: bv32, k: nat): bv32
    decreases k
  {
    if k == 0 then d else Halves(Half(d), k - 1)
  }

  // The low k bits of d are zero.
  predicate LowZero(d: bv32, k: nat)
    decreases k
  {
    k == 0 || (!Odd(d) && LowZero(Half(d), k - 1))
  }

  // Bits above the low k only move down while those are consumed.
  lemma {:induction false} ShiftsXorHigh(c: bv32, d: bv32, k: nat)
    requires LowZero(d, k)
    ensures Shifts(Xor(c, d), k) == Xor(Shifts(c, k), Halves(d, k))
    decreases k
  {
    hide Shift, Half, Xor, Odd;
    if k > 0 {
      ShiftXorEven(c, d);
      ShiftsXorHigh(Shift(c), Half(d), k - 1);
    }
  }

  lemma {:induction false} HalvesAdd(d: bv32, j: nat, k: nat)
    ensures Halves(d, j + k) == Halves(Halves(d, j), k)
    decreases j
  {
    hide Half;
    if j > 0 {
      HalvesAdd(Half(d), j - 1, k);
    }
  }

  lemma HalfBits(d: bv32)
    ensures Half(d) == d >> 1 && Half(d >> 1) == d >> 2 && Half(d >> 2) == d >> 3
    ensures Half(d >> 3) == d >> 4 && Half(d >> 4) == d >> 5 && Half(d >> 5) == d >> 6
    ensures Half(d >> 6) == d >> 7 && Half(d >> 7) == d >> 8
  {
  }

  lemma HalvesByte(d: bv32)
    ensures Halves(d, 8) == d >> 8
  {
    hide Half;
    HalfBits(d);
    assert Halves(d >> 5, 3) == d >> 8;
    assert Halves(d >> 3, 5) == d >> 8;
    assert Halves(d >> 1, 7) == d >> 8;
  }

  lemma HalvesWord(d: bv32)
    ensures Halves(d, 32) == 0
  {
    var d1 := d >> 8;
    var d2 := d1 >> 8;
    var d3 := d2 >> 8;
    HalvesByte(d);
    HalvesByte(d1);
    HalvesByte(d2);
    HalvesByte(d3);
    HalvesAdd(d, 8, 24);
    HalvesAdd(d1, 8, 16);
    HalvesAdd(d2, 8, 8);
  }

  // A word with an empty low byte
  lemma ClearLowByte(d: bv32)
    requires d & 0xFF == 0
    ensures LowZero(d, 8)
  {
    hide Half, Odd;
    HalfBits(d);
    EvenBits(d);
    assert LowZero(d >> 5, 3);
    assert LowZero(d >> 3, 5);
    assert LowZero(d >> 1, 7);
  }

  lemma EvenBits(d: bv32)
    requires d & 0xFF == 0
    ensures !Odd(d) && !Odd(d >> 1) && !Odd(d >> 2) && !Odd(d >> 3)
    ensures !Odd(d >> 4) && !Odd(d >> 5) && !Odd(d >> 6) && !Odd(d >> 7)
  {
  }

  // Eight shifts of a register are one table entry and one byte move.
  lemma ShiftsByTable(c: bv32)
    ensures Shifts(c, 8) == Xor(Shifts(c & 0xFF, 8), c >> 8)
  {
    hide Xor, Shift, Half, Odd;
    var low, high := c & 0xFF, c & 0xFFFF_FF00;
    SplitLowByte(c);
    ClearLowByte(high);
    HalvesByte(high);
    ShiftsXorHigh(low, high, 8);
  }

  lemma SplitLowByte(c: bv32)
    ensures Xor(c & 0xFF, c & 0xFFFF_FF00) == c
    ensures (c & 0xFFFF_FF00) & 0xFF == 0 && (c & 0xFFFF_FF00) >> 8 == c >> 8
  {
  }

  // The table-driven form

  ghost predicate IsTable(table: seq<bv32>) {
    && |table| == 256
    && forall i: byte :: table[i] == Shifts(Widen(i), 8)
  }

  method BuildTable() returns (table: array<bv32>)
    ensures fresh(table) && IsTable(table[..])
  {
    hide Widen, Shift;
    table := new bv32[256];
    for index := 0 to 256
      invariant forall i: byte :: i < index ==> table[i] == Shifts(Widen(i), 8)
    {
      var value := Widen(index);
      for bit := 0 to 8
        invariant Shifts(value, 8 - bit) == Shifts(Widen(index), 8)
      {
        value := Shift(value);
      }
      table[index] := value;
    }
  }

  // The table entry selected by a register and a message byte
  function TableIndex(c: bv32, b: byte): (i: byte)
    ensures Widen(i) == Xor(c, Widen(b)) & 0xFF
  {
    LowByte(Xor(c, Widen(b)) & 0xFF);
    ((Xor(c, Widen(b)) & 0xFF) as bv8) as int
  }

  lemma LowByte(x: bv32)
    requires x & 0xFF == x
    ensures x <= 0xFF && 0 <= (x as bv8) as int < 256
    ensures Widen((x as bv8) as int) == x
  {
    hide Widen;
    WidenBack(x as bv8);
  }

  lemma WidenBack(b: bv8)
    ensures 0 <= b as int < 256 && Widen(b as int) == b as bv32
  {
  }

  lemma WidenSmall(b: byte)
    ensures Widen(b) & 0xFFFF_FF00 == 0
  {
    hide Narrow;
  }

  lemma UpperBytes(c: bv32, b: byte)
    ensures Xor(c, Widen(b)) >> 8 == c >> 8
  {
    hide Widen;
    WidenSmall(b);
    ShiftOutByte(c, Widen(b));
  }

  lemma ShiftOutByte(c: bv32, b: bv32)
    requires b & 0xFFFF_FF00 == 0
    ensures Xor(c, b) >> 8 == c >> 8
  {
  }

  lemma TableStep(table: seq<bv32>, c: bv32, b: byte)
    requires IsTable(table)
    ensures Xor(table[TableIndex(c, b)], c >> 8) == Shifts(Xor(c, Widen(b)), 8)
  {
    hide Xor, Shifts, Widen, TableIndex;
    ShiftsByTable(Xor(c, Widen(b)));
    UpperBytes(c, b);
  }

  method UpdateCrc32(table: array<bv32>, crc: bv32, data: seq<byte>) returns (r: bv32)
    requires IsTable(table[..])
    ensures r == Update(crc, data)
  {
    hide Xor, Shifts, Widen, TableIndex;
    r := crc;
    for i := 0 to |data|
      invariant Update(r, data[i..]) == Update(crc, data)
    {
      TableStep(table[..], r, data[i]);
      r := Xor(table[TableIndex(r, data[i])], r >> 8);
      assert data[i..][1..] == data[i + 1..];
    }
  }

  method ComputeCrc32(data: seq<byte>) returns (r: u32)
    ensures r == Crc(data)
  {
    var table := BuildTable();
    var crc := UpdateCrc32(table, ALL_ONES, data);
    r := Xor(crc, ALL_ONES) as int;
  }

  method ComputeCrc32Segments(first: seq<byte>, second: seq<byte>) returns (r: u32)
    ensures r == Crc(first + second)
  {
    var table := BuildTable();
    var crc := UpdateCrc32(table, ALL_ONES, first);
    crc := UpdateCrc32(table, crc, second);
    UpdateAppend(ALL_ONES, first, second);
    r := Xor(crc, ALL_ONES) as int;
  }

  // Schoolbook division of polynomials over GF(2).  A polynomial is the
  // sequence of its coefficients, highest degree first; a message sends the low
  // bit of each byte first.

  function Bits(c: bv32, k: nat): (bits: seq<bool>)
    ensures |bits| == k
    decreases k
  {
    if k == 0 then [] else [Odd(c)] + Bits(Half(c), k - 1)
  }

  function MessageBits(data: seq<byte>): (bits: seq<bool>)
    ensures |bits| == 8 * |data|
  {
    if |data| == 0 then [] else Bits(Widen(data[0]), 8) + MessageBits(data[1..])
  }

  // p plus q, aligned at their highest coefficients
  function Plus(p: seq<bool>, q: seq<bool>): (r: seq<bool>)
    requires |q| <= |p|
    ensures |r| == |p|
  {
    seq(|p|, i requires 0 <= i < |p| => if i < |q| then p[i] != q[i] else p[i])
  }

  // The generator of degree 32
  function Divisor(): (g: seq<bool>)
    ensures |g| == 33
  {
    [true] + Bits(GENERATOR, 32)
  }

  function Remainder(p: seq<bool>): (r: seq<bool>)
    requires |p| >= 32
    ensures |r| == 32
    decreases |p|
  {
    if |p| == 32 then p
    else if p[0] then Remainder(Plus(p, Divisor())[1..])
    else Remainder(p[1..])
  }

  function Zeros(n: nat): (z: seq<bool>)
    ensures |z| == n
  {
    seq(n, i => false)
  }

  // The register fed with single bits
  function Feed(c: bv32, bits: seq<bool>): bv32
    decreases |bits|
  {
    if |bits| == 0 then c
    else Feed(Shift(if bits[0] then Xor(c, 1) else c), bits[1..])
  }

  lemma {:induction false} FeedAppend(c: bv32, p: seq<bool>, q: seq<bool>)
    ensures Feed(c, p + q) == Feed(Feed(c, p), q)
    decreases |p|
  {
    hide Shift, Xor;
    if |p| == 0 {
      assert p + q == q;
    } else {
      assert (p + q)[1..] == p[1..] + q;
      FeedAppend(Shift(if p[0] then Xor(c, 1) else c), p[1..], q);
    }
  }

  lemma LowBit(c: bv32, x: bv32)
    ensures Odd(x) ==> !Odd(Xor(x, 1))
    ensures Odd(x) ==> Xor(c, x) == Xor(Xor(c, 1), Xor(x, 1))
    ensures Half(Xor(x, 1)) == Half(x)
  {
  }

  // Feeding the bits of x one by one, or adding x first and then shifting
  lemma {:induction false} FeedBits(c: bv32, x: bv32, k: nat)
    ensures Feed(c, Bits(x, k)) == Xor(Shifts(Xor(c, x), k), Halves(x, k))
    decreases k
  {
    hide Shift, Xor, Half, Odd;
    if k == 0 {
      XorTwice(c, x);
    } else {
      var c1 := if Odd(x) then Xor(c, 1) else c;
      var rest := if Odd(x) then Xor(x, 1) else x;
      LowBit(c, x);
      ShiftXorEven(c1, rest);
      assert Bits(x, k)[1..] == Bits(Half(x), k - 1);
      FeedBits(Shift(c1), Half(x), k - 1);
    }
  }

  lemma XorTwice(a: bv32, b: bv32)
    ensures Xor(Xor(a, b), b) == a
    ensures Xor(a, 0) == a
  {
  }

  lemma {:induction false} FeedMessage(c: bv32, data: seq<byte>)
    ensures Feed(c, MessageBits(data)) == Update(c, data)
    decreases |data|
  {
    hide Shifts, Xor, Bits, Widen;
    if |data| > 0 {
      var b := Widen(data[0]);
      FeedAppend(c, Bits(b, 8), MessageBits(data[1..]));
      FeedBits(c, b, 8);
      HalvesByte(b);
      WidenSmall(data[0]);
      XorTwice(Shifts(Xor(c, b), 8), b);
      FeedMessage(Shifts(Xor(c, b), 8), data[1..]);
    }
  }

  // The bits of a shifted register

  lemma {:induction false} BitsXor(a: bv32, b: bv32, k: nat)
    ensures forall i :: 0 <= i < k ==> Bits(Xor(a, b), k)[i] == (Bits(a, k)[i] != Bits(b, k)[i])
    decreases k
  {
    hide Xor, Half, Odd;
    if k > 0 {
      OddXor(a, b);
      HalfXor(a, b);
      BitsXor(Half(a), Half(b), k - 1);
    }
  }

  lemma {:induction false} BitsLast(c: bv32, k: nat)
    ensures Bits(c, k + 1) == Bits(c, k) + [Odd(Halves(c, k))]
    decreases k
  {
    hide Half, Odd;
    if k > 0 {
      BitsLast(Half(c), k - 1);
    }
  }

  lemma BitsHalf(c: bv32)
    ensures Bits(Half(c), 32) == Bits(c, 32)[1..] + [false]
  {
    hide Half;
    BitsLast(Half(c), 31);
    HalvesWord(c);
    assert Halves(Half(c), 31) == Halves(c, 32);
  }

  // One step of the division, given the bits b of the register and the bits
  // that remain of it after the step
  lemma DivisionStep(m: seq<bool>, b: seq<bool>, g: seq<bool>)
    requires |m| > 0 && |b| == |g| == 32
    ensures
      var dividend := Plus(m + Zeros(32), b);
      var moved := b[1..] + [false];
      && dividend[0] == (m[0] != b[0])
      && Plus(dividend, [true] + g)[1..] == Plus(m[1..] + Zeros(32), Plus(moved, g))
      && dividend[1..] == Plus(m[1..] + Zeros(32), moved)
  {
  }

  // Division, one coefficient at a time, is what the register computes.
  lemma {:induction false} FeedDivides(c: bv32, m: seq<bool>)
    ensures Bits(Feed(c, m), 32) == Remainder(Plus(m + Zeros(32), Bits(c, 32)))
    decreases |m|
  {
    if |m| == 0 {
      assert Plus(m + Zeros(32), Bits(c, 32)) == Bits(c, 32);
    } else {
      var c1 := if m[0] then Xor(c, 1) else c;
      FeedDividesStep(c, c1, m);
      FeedDivides(Shift(c1), m[1..]);
    }
  }

  lemma FeedDividesStep(c: bv32, c1: bv32, m: seq<bool>)
    requires |m| > 0 && c1 == if m[0] then Xor(c, 1) else c
    ensures Remainder(Plus(m + Zeros(32), Bits(c, 32)))
      == Remainder(Plus(m[1..] + Zeros(32), Bits(Shift(c1), 32)))
  {
    hide Half, Odd, Xor, Plus, Zeros;
    OneBit(c);
    BitsHalf(c1);
    BitsPlus(Half(c1), GENERATOR);
    assert Bits(c1, 32)[1..] == Bits(c, 32)[1..];
    DivisionStep(m, Bits(c, 32), Bits(GENERATOR, 32));
    var dividend := Plus(m + Zeros(32), Bits(c, 32));
    assert dividend[0] == Odd(c1);
    if Odd(c1) {
      assert Remainder(dividend) == Remainder(Plus(dividend, Divisor())[1..]);
      assert Bits(Shift(c1), 32) == Plus(Bits(c, 32)[1..] + [false], Bits(GENERATOR, 32));
    } else {
      assert Remainder(dividend) == Remainder(dividend[1..]);
      assert Bits(Shift(c1), 32) == Bits(c, 32)[1..] + [false];
    }
  }

  lemma BitsPlus(a: bv32, b: bv32)
    ensures Bits(Xor(a, b), 32) == Plus(Bits(a, 32), Bits(b, 32))
  {
    hide Xor;
    BitsXor(a, b, 32);
  }

  lemma OneBit(c: bv32)
    ensures Half(Xor(c, 1)) == Half(c)
    ensures Odd(Xor(c, 1)) == !Odd(c)
  {
  }

  // The stored checksum is the complement of the remainder of the message,
  // extended by 32 zero coefficients, with its first 32 coefficients inverted.
  lemma CrcIsPolynomialDivision(data: seq<byte>)
    ensures var register := Update(ALL_ONES, data);
      && Crc(data) == Xor(register, ALL_ONES) as int
      && Bits(register, 32) == Remainder(Plus(MessageBits(data) + Zeros(32), Bits(ALL_ONES, 32)))
  {
    FeedMessage(ALL_ONES, data);
    FeedDivides(ALL_ONES, MessageBits(data));
  }

  // Detection of bursts

  lemma XorBoth(a: bv32, b: bv32, g: bv32)
    ensures Xor(Xor(a, g), Xor(b, g)) == Xor(a, b)
  {
    hide Xor;
    XorAssociative(a, g, Xor(b, g));
    XorAround(b, g);
  }

  lemma XorAround(b: bv32, g: bv32)
    ensures Xor(g, Xor(b, g)) == b
  {
  }

  lemma ShiftXor(c: bv32, d: bv32)
    ensures Shift(Xor(c, d)) == Xor(Shift(c), Shift(d))
  {
    hide Xor, Half, Odd;
    OddXor(c, d);
    HalfXor(c, d);
    XorSwap(Half(c), Half(d), GENERATOR);
    XorBoth(Half(c), Half(d), GENERATOR);
    XorAssociative(Half(c), Half(d), GENERATOR);
  }

  lemma XorAssociative(a: bv32, b: bv32, c: bv32)
    ensures Xor(Xor(a, b), c) == Xor(a, Xor(b, c))
  {
  }

  function FeedBit(c: bv32, bit: bool): bv32 {
    if bit then Xor(c, 1) else c
  }

  lemma FeedBitXor(c: bv32, d: bv32, p: bool, q: bool)
    ensures FeedBit(Xor(c, d), p != q) == Xor(FeedBit(c, p), FeedBit(d, q))
  {
    hide Xor;
    XorSwap(c, d, 1);
    XorBoth(c, d, 1);
    XorAssociative(c, d, 1);
  }

  // Registers and messages that differ give a register fed with the difference.
  lemma {:induction false} FeedXor(c: bv32, d: bv32, p: seq<bool>, q: seq<bool>)
    requires |p| == |q|
    ensures Feed(Xor(c, d), Plus(p, q)) == Xor(Feed(c, p), Feed(d, q))
    decreases |p|
  {
    hide Xor, Shift;
    if |p| > 0 {
      FeedBitXor(c, d, p[0], q[0]);
      ShiftXor(FeedBit(c, p[0]), FeedBit(d, q[0]));
      assert Plus(p, q)[1..] == Plus(p[1..], q[1..]);
      FeedXor(Shift(FeedBit(c, p[0])), Shift(FeedBit(d, q[0])), p[1..], q[1..]);
    }
  }

  lemma {:induction false} FeedInjective(c: bv32, d: bv32, m: seq<bool>)
    requires Feed(c, m) == Feed(d, m)
    ensures c == d
    decreases |m|
  {
    hide Xor, Shift;
    if |m| > 0 {
      FeedInjective(Shift(FeedBit(c, m[0])), Shift(FeedBit(d, m[0])), m[1..]);
      ShiftInjective(FeedBit(c, m[0]), FeedBit(d, m[0]));
      if m[0] {
        XorCancel(c, d, 1);
      }
    }
  }

  lemma {:induction false} HalvesZero(k: nat)
    ensures Halves(0, k) == 0
  {
    if k > 0 {
      assert Half(0) == 0;
      HalvesZero(k - 1);
    }
  }

  lemma HalvesTop(e: bv32)
    ensures Halves(e, 31) == e >> 31
  {
    hide Half;
    var e1 := e >> 8;
    var e2 := e1 >> 8;
    var e3 := e2 >> 8;
    HalvesByte(e);
    HalvesByte(e1);
    HalvesByte(e2);
    HalvesAdd(e, 8, 23);
    HalvesAdd(e1, 8, 15);
    HalvesAdd(e2, 8, 7);
    HalvesSeven(e3);
    RightShifts(e);
  }

  lemma HalvesSeven(d: bv32)
    ensures Halves(d, 7) == d >> 7
  {
    hide Half;
    HalfBits(d);
    assert Halves(d >> 4, 3) == d >> 7;
    assert Halves(d >> 2, 5) == d >> 7;
  }

  lemma RightShifts(e: bv32)
    ensures (((e >> 8) >> 8) >> 8) >> 7 == e >> 31
  {
  }

  // A shifted register with a clear top bit was not reduced by the generator.
  lemma ShiftTopClear(e: bv32)
    requires Shift(e) >> 31 == 0
    ensures !Odd(e) && Shift(e) == Half(e)
  {
  }

  // Feeding at most 32 bits brings only the register holding those bits to zero.
  lemma {:induction false} FeedToZero(e: bv32, m: seq<bool>)
    requires |m| <= 32 && Feed(e, m) == 0
    ensures Bits(e, |m|) == m && Halves(e, |m|) == 0
    decreases |m|
  {
    hide Xor, Shift, Half, Odd;
    if |m| > 0 {
      var e1 := FeedBit(e, m[0]);
      var n := |m| - 1;
      FeedToZero(Shift(e1), m[1..]);
      HalvesAdd(Shift(e1), n, 31 - n);
      HalvesZero(31 - n);
      HalvesTop(Shift(e1));
      ShiftTopClear(e1);
      OneBit(e);
    }
  }

  lemma {:induction false} BitsZero(k: nat)
    ensures forall i :: 0 <= i < k ==> !Bits(0, k)[i]
  {
    if k > 0 {
      assert Half(0) == 0;
      BitsZero(k - 1);
    }
  }

  // A window of at most 32 bits is determined by its effect on the register.
  lemma WindowInjective(c: bv32, p: seq<bool>, q: seq<bool>)
    requires |p| == |q| <= 32 && Feed(c, p) == Feed(c, q)
    ensures p == q
  {
    hide Feed, Bits;
    FeedXor(c, c, p, q);
    XorSelf(c);
    XorSelf(Feed(c, p));
    FeedToZero(0, Plus(p, q));
    BitsZero(|p|);
    forall i | 0 <= i < |p|
      ensures p[i] == q[i]
    {
      assert !Plus(p, q)[i];
    }
  }

  lemma XorSelf(a: bv32)
    ensures Xor(a, a) == 0
  {
  }

  lemma {:induction false} BitsInjective(a: bv32, b: bv32, k: nat)
    requires Bits(a, k) == Bits(b, k) && Halves(a, k) == Halves(b, k)
    ensures a == b
    decreases k
  {
    hide Half, Odd;
    if k > 0 {
      assert Bits(a, k)[0] == Bits(b, k)[0];
      assert Bits(a, k)[1..] == Bits(b, k)[1..];
      BitsInjective(Half(a), Half(b), k - 1);
      OddHalf(a, b);
    }
  }

  lemma OddHalf(a: bv32, b: bv32)
    requires Odd(a) == Odd(b) && Half(a) == Half(b)
    ensures a == b
  {
  }

  lemma ByteBitsInjective(a: byte, b: byte)
    requires Bits(Widen(a), 8) == Bits(Widen(b), 8)
    ensures a == b
  {
    hide Bits, Widen;
    WidenSmall(a);
    WidenSmall(b);
    HalvesByte(Widen(a));
    HalvesByte(Widen(b));
    BitsInjective(Widen(a), Widen(b), 8);
    WidenInjective(a, b);
  }

  lemma WidenInjective(a: byte, b: byte)
    requires Widen(a) == Widen(b)
    ensures a == b
  {
    hide Narrow;
    assert Narrow(a) == Narrow(b);
    NarrowBack(a);
    NarrowBack(b);
  }

  lemma NarrowBack(a: byte)
    ensures Narrow(a) as int == a
  {
    ByteBack(a);
  }

  lemma ByteBack(n: nat)
    requires n < 256
    ensures (n as bv8) as int == n
  {
    BinaryDigits(n);
  }

  lemma BinaryDigits(n: nat)
    requires n < 256
    ensures n == 128 * (n / 128 % 2) + 64 * (n / 64 % 2) + 32 * (n / 32 % 2) + 16 * (n / 16 % 2)
      + 8 * (n / 8 % 2) + 4 * (n / 4 % 2) + 2 * (n / 2 % 2) + n % 2
  {
    var m := n / 16;
    FourDigits(n);
    FourDigits(m);
    assert m / 2 == n / 32 && m / 4 == n / 64 && m / 8 == n / 128 && m / 16 == 0;
    assert n / 128 % 2 == n / 128;
  }

  lemma FourDigits(n: nat)
    ensures n == 16 * (n / 16) + 8 * (n / 8 % 2) + 4 * (n / 4 % 2) + 2 * (n / 2 % 2) + n % 2
  {
    HalveThrice(n);
    var a, b, c, d := n / 2, n / 4, n / 8, n / 16;
    assert n == 2 * a + n % 2;
    assert a == 2 * b + a % 2;
    assert b == 2 * c + b % 2;
    assert c == 2 * d + c % 2;
  }

  lemma HalveThrice(n: nat)
    ensures n / 4 == n / 2 / 2 && n / 8 == n / 4 / 2 && n / 16 == n / 8 / 2
  {
  }

  lemma {:induction false} MessageBitsInjective(a: seq<byte>, b: seq<byte>)
    requires |a| == |b| && MessageBits(a) == MessageBits(b)
    ensures a == b
  {
    hide Bits, Widen;
    if |a| > 0 {
      assert MessageBits(a)[..8] == Bits(Widen(a[0]), 8);
      assert MessageBits(b)[..8] == Bits(Widen(b[0]), 8);
      assert MessageBits(a)[8..] == MessageBits(a[1..]);
      assert MessageBits(b)[8..] == MessageBits(b[1..]);
      ByteBitsInjective(a[0], b[0]);
      MessageBitsInjective(a[1..], b[1..]);
      assert a == [a[0]] + a[1..] && b == [b[0]] + b[1..];
    }
  }

  ghost predicate AgreeOutside(p: seq<bool>, q: seq<bool>, from: nat, to: nat) {
    && |p| == |q|
    && forall i :: 0 <= i < |p| && !(from <= i < to) ==> p[i] == q[i]
  }

  lemma FeedThree(c: bv32, p: seq<bool>, s: nat, e: nat)
    requires s <= e <= |p|
    ensures Feed(c, p) == Feed(Feed(Feed(c, p[..s]), p[s..e]), p[e..])
  {
    hide Feed;
    assert p == p[..s] + (p[s..e] + p[e..]);
    FeedAppend(c, p[..s], p[s..e] + p[e..]);
    FeedAppend(Feed(c, p[..s]), p[s..e], p[e..]);
  }

  lemma BurstChangesRegister(c: bv32, p: seq<bool>, q: seq<bool>, s: nat, e: nat)
    requires s <= e <= |p| == |q| && e - s <= 32
    requires p[..s] == q[..s] && p[e..] == q[e..]
    requires Feed(c, p) == Feed(c, q)
    ensures p == q
  {
    hide Feed;
    FeedThree(c, p, s, e);
    FeedThree(c, q, s, e);
    var d := Feed(c, p[..s]);
    FeedInjective(Feed(d, p[s..e]), Feed(d, q[s..e]), p[e..]);
    WindowInjective(d, p[s..e], q[s..e]);
    assert p == p[..s] + p[s..e] + p[e..] && q == q[..s] + q[s..e] + q[e..];
  }

  // Two different messages of one length whose bits differ only within 32
  // consecutive positions have different checksums.
  lemma BurstChangesCrc(a: seq<byte>, b: seq<byte>, from: nat)
    requires |a| == |b| && a != b
    requires AgreeOutside(MessageBits(a), MessageBits(b), from, from + 32)
    ensures Crc(a) != Crc(b)
  {
    hide Update, Xor, Feed, MessageBits;
    var p, q := MessageBits(a), MessageBits(b);
    var s := if from < |p| then from else |p|;
    var e := if from + 32 < |p| then from + 32 else |p|;
    if Crc(a) == Crc(b) {
      CrcCancel(Update(ALL_ONES, a), Update(ALL_ONES, b));
      FeedMessage(ALL_ONES, a);
      FeedMessage(ALL_ONES, b);
      BurstChangesRegister(ALL_ONES, p, q, s, e);
      MessageBitsInjective(a, b);
    }
  }

  lemma CrcCancel(a: bv32, b: bv32)
    requires Xor(a, ALL_ONES) as int == Xor(b, ALL_ONES) as int
    ensures a == b
  {
    hide Xor;
    IntBack(Xor(a, ALL_ONES));
    IntBack(Xor(b, ALL_ONES));
    XorCancel(a, b, ALL_ONES);
  }

  lemma IntBack(a: bv32)
    ensures (a as int) as bv32 == a
  {
  }

  lemma {:induction false} MessageBitsAppend(a: seq<byte>, b: seq<byte>)
    ensures MessageBits(a + b) == MessageBits(a) + MessageBits(b)
  {
    hide Bits, Widen;
    if |a| == 0 {
      assert a + b == b;
    } else {
      assert (a + b)[1..] == a[1..] + b;
      MessageBitsAppend(a[1..], b);
    }
  }

  // In particular a change within four consecutive bytes is detected.
  lemma ByteBurstChangesCrc(a: seq<byte>, b: seq<byte>, start: nat)
    requires |a| == |b| && start + 4 <= |a| && a != b
    requires forall i :: 0 <= i < |a| && !(start <= i < start + 4) ==> a[i] == b[i]
    ensures Crc(a) != Crc(b)
  {
    hide Crc, MessageBits;
    var head, v, w, tail := a[..start], a[start..start + 4], b[start..start + 4], a[start + 4..];
    assert b[..start] == head && b[start + 4..] == tail;
    assert a == head + (v + tail) && b == head + (w + tail);
    MessageBitsAppend(head, v + tail);
    MessageBitsAppend(head, w + tail);
    MessageBitsAppend(v, tail);
    MessageBitsAppend(w, tail);
    BurstChangesCrc(a, b, 8 * start);
  }

  // One byte of the register's input
  lemma UpdateByte(c: bv32, data: seq<byte>, b: byte, d: bv32)
    requires Shifts(Xor(c, Widen(b)), 8) == d
    ensures Update(c, [b] + data) == Update(d, data)
  {
    hide Shifts, Xor, Widen;
    assert ([b] + data)[1..] == data;
  }

  lemma CheckFirst()
    ensures Update(0xFFFF_FFFF, [0x31, 0x32, 0x33, 0x34, 0x35]) == 0x340A_C5E3
  {
    assert Xor(0xFFFF_FFFF, Widen(0x31)) == 0xFFFF_FFCE && Shifts(0xFFFF_FFCE, 8) == 0x7C23_1048;
    assert Xor(0x7C23_1048, Widen(0x32)) == 0x7C23_107A && Shifts(0x7C23_107A, 8) == 0xB0AC_BB32;
    assert Xor(0xB0AC_BB32, Widen(0x33)) == 0xB0AC_BB01 && Shifts(0xB0AC_BB01, 8) == 0x77B7_9C2D;
    assert Xor(0x77B7_9C2D, Widen(0x34)) == 0x77B7_9C19 && Shifts(0x77B7_9C19, 8) == 0x641C_1F5C;
    assert Xor(0x641C_1F5C, Widen(0x35)) == 0x641C_1F69 && Shifts(0x641C_1F69, 8) == 0x340A_C5E3;
    UpdateByte(0xFFFF_FFFF, [0x32, 0x33, 0x34, 0x35], 0x31, 0x7C23_1048);
    UpdateByte(0x7C23_1048, [0x33, 0x34, 0x35], 0x32, 0xB0AC_BB32);
    UpdateByte(0xB0AC_BB32, [0x34, 0x35], 0x33, 0x77B7_9C2D);
    UpdateByte(0x77B7_9C2D, [0x35], 0x34, 0x641C_1F5C);
    UpdateByte(0x641C_1F5C, [], 0x35, 0x340A_C5E3);
  }

  lemma CheckLast()
    ensures Update(0x340A_C5E3, [0x36, 0x37, 0x38, 0x39]) == 0x340B_C6D9
  {
    assert Xor(0x340A_C5E3, Widen(0x36)) == 0x340A_C5D5 && Shifts(0x340A_C5D5, 8) == 0xF68D_2C9E;
    assert Xor(0xF68D_2C9E, Widen(0x37)) == 0xF68D_2CA9 && Shifts(0xF68D_2CA9, 8) == 0xAFFC_9660;
    assert Xor(0xAFFC_9660, Widen(0x38)) == 0xAFFC_9658 && Shifts(0xAFFC_9658, 8) == 0x651F_2550;
    assert Xor(0x651F_2550, Widen(0x39)) == 0x651F_2569 && Shifts(0x651F_2569, 8) == 0x340B_C6D9;
    UpdateByte(0x340A_C5E3, [0x37, 0x38, 0x39], 0x36, 0xF68D_2C9E);
    UpdateByte(0xF68D_2C9E, [0x38, 0x39], 0x37, 0xAFFC_9660);
    UpdateByte(0xAFFC_9660, [0x39], 0x38, 0x651F_2550);
    UpdateByte(0x651F_2550, [], 0x39, 0x340B_C6D9);
  }

  // The published check value: the checksum of the nine ASCII digits 1 to 9
  lemma CheckValue()
    ensures Crc([0x31, 0x32, 0x33, 0x34, 0x35, 0x36, 0x37, 0x38, 0x39]) == 0xCBF4_3926
  {
    hide Update, Shifts, Shift, Widen;
    var digits: seq<byte> := [0x31, 0x32, 0x33, 0x34, 0x35, 0x36, 0x37, 0x38, 0x39];
    CheckFirst();
    CheckLast();
    assert digits == [0x31, 0x32, 0x33, 0x34, 0x35] + [0x36, 0x37, 0x38, 0x39];
    UpdateAppend(ALL_ONES, [0x31, 0x32, 0x33, 0x34, 0x35], [0x36, 0x37, 0x38, 0x39]);
    assert Xor(0x340B_C6D9, ALL_ONES) == 0xCBF4_3926;
  }
}
