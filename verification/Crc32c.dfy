/** The bitwise CRC-32C of scripts/checkpoint_payload.py, related to polynomial division over GF(2). */
module Crc32c {
  // The source computes with unbounded nonnegative integers, and so does this model: `>> 1` is division by two,
  // `& 1` the remainder, and `^` the bitwise exclusive or defined here. The register is reflected: its least
  // significant bit is the coefficient of the highest power, which is also the order in which RFC 3720
  // section 12.1 sends the bits of a message.

  import opened Gf2Division

  newtype byte = x: int | 0 <= x < 256

  const REFLECTED_POLYNOMIAL: nat := 0x82f63b78
  const ALL_ONES: nat := 0xffffffff

  function BitXor(x: nat, y: nat): nat {
    if x == 0 && y == 0 then 0
    else 2 * BitXor(x / 2, y / 2) + if x % 2 == y % 2 then 0 else 1
  }

  // ----- The register

  function Shift(crc: nat): nat {
    BitXor(crc / 2, if crc % 2 == 1 then REFLECTED_POLYNOMIAL else 0)
  }

  function ShiftN(crc: nat, n: nat): nat
    decreases n, crc
  {
    if n == 0 then crc else ShiftN(Shift(crc), n - 1)
  }

  function Register(crc: nat, payload: seq<byte>): nat
    decreases |payload|
  {
    if payload == [] then crc else Register(ShiftN(BitXor(crc, payload[0] as nat), 8), payload[1..])
  }

  function Checksum(payload: seq<byte>): nat {
    BitXor(Register(ALL_ONES, payload), ALL_ONES)
  }

  /** The two nested loops of the source, the inner one below. The complement of the result is the RFC's remainder. */
  method Compute(payload: seq<byte>) returns (crc: nat)
    ensures crc == Checksum(payload)
    ensures IsWord(crc) && IsRemainder(Dividend(payload), GeneratorLow(), Complement(Bits(crc, 32)))
  {
    crc := ALL_ONES;
    for i := 0 to |payload|
      invariant Register(ALL_ONES, payload) == Register(crc, payload[i..])
    {
      assert payload[i..][1..] == payload[i + 1..];
      crc := Feed(crc, payload[i]);
    }
    crc := BitXor(crc, ALL_ONES);
    ChecksumUnique(payload, crc);
  }

  /** The inner loop: one byte goes into the register, bit by bit. */
  method Feed(crc: nat, value: byte) returns (next: nat)
    ensures next == ShiftN(BitXor(crc, value as nat), 8)
  {
    next := BitXor(crc, value as nat);
    ghost var start := next;
    for k := 0 to 8
      invariant ShiftN(start, 8) == ShiftN(next, 8 - k)
    {
      next := BitXor(next / 2, if next % 2 == 1 then REFLECTED_POLYNOMIAL else 0);
    }
  }

  // ----- The RFC's dividend

  /** The lowest n bits of a number, least significant first. */
  function Bits(x: nat, n: nat): (r: Poly)
    ensures |r| == n
    decreases n, x
  {
    if n == 0 then [] else [x % 2 == 1] + Bits(x / 2, n - 1)
  }

  /** x fits in thirty-two bits. */
  predicate IsWord(x: nat) {
    x <= ALL_ONES
  }

  /** RFC 3720 section 12.1: x^32 + x^28 + x^27 + x^26 + x^25 + x^23 + x^22 + x^20 + x^19 + x^18 + x^14 + x^13
      + x^11 + x^10 + x^9 + x^8 + x^6 + 1. */
  predicate InGenerator(power: nat) {
    power in {32, 28, 27, 26, 25, 23, 22, 20, 19, 18, 14, 13, 11, 10, 9, 8, 6, 0}
  }

  /** The generator without its leading term, from the highest power down. */
  function GeneratorLow(): (r: Poly)
    ensures |r| == 32
  {
    seq(32, i requires 0 <= i < 32 => InGenerator(31 - i))
  }

  /** The message polynomial: every byte is sent least significant bit first. */
  function Message(payload: seq<byte>): (r: Poly)
    ensures |r| == 8 * |payload|
  {
    if payload == [] then [] else Bits(payload[0] as nat, 8) + Message(payload[1..])
  }

  /** x^32 times the message, with its first thirty-two coefficients complemented. */
  function Dividend(payload: seq<byte>): (r: Poly)
    ensures |r| == 8 * |payload| + 32
  {
    Sum(AllOnes(), Message(payload))
  }

  function AllOnes(): (r: Poly)
    ensures |r| == 32
  {
    Complement(Zeros(32))
  }

  // ----- Numbers and their bits

  lemma {:induction false} BitsXor(x: nat, y: nat, n: nat)
    ensures Bits(BitXor(x, y), n) == Xor(Bits(x, n), Bits(y, n))
    decreases n
  {
    if n > 0 {
      BitsXor(x / 2, y / 2, n - 1);
    }
  }

  function Pow2(n: nat): (r: nat)
    ensures r >= 1
  {
    if n == 0 then 1 else 2 * Pow2(n - 1)
  }

  lemma {:induction false} BitXorBound(x: nat, y: nat, n: nat)
    requires x < Pow2(n) && y < Pow2(n)
    ensures BitXor(x, y) < Pow2(n)
    decreases n
  {
    if n > 0 {
      BitXorBound(x / 2, y / 2, n - 1);
    }
  }

  lemma {:induction false} BitsInjective(x: nat, y: nat, n: nat)
    requires x < Pow2(n) && y < Pow2(n) && Bits(x, n) == Bits(y, n)
    ensures x == y
    decreases n
  {
    if n > 0 {
      assert Bits(x, n)[0] == Bits(y, n)[0];
      assert Bits(x / 2, n - 1) == Bits(x, n)[1..] == Bits(y, n)[1..] == Bits(y / 2, n - 1);
      BitsInjective(x / 2, y / 2, n - 1);
    }
  }

  lemma {:induction false} BitsExtend(x: nat, m: nat, n: nat)
    requires x < Pow2(m)
    ensures Bits(x, m + n) == Bits(x, m) + Zeros(n)
    decreases m
  {
    if m > 0 {
      BitsExtend(x / 2, m - 1, n);
    } else {
      BitsOfZero(n);
    }
  }

  lemma {:induction false} BitsOfZero(n: nat)
    ensures Bits(0, n) == Zeros(n)
  {
    if n > 0 {
      BitsOfZero(n - 1);
    }
  }

  // ----- The one-bit step on words

  /** What was shifted out is the highest bit: the polynomial has it, and what is shifted in does not. */
  function Unshift(crc: nat): nat {
    if crc > ALL_ONES / 2 then 2 * BitXor(crc, REFLECTED_POLYNOMIAL) + 1 else 2 * crc
  }

  lemma {:induction false} XorCancels(x: nat, y: nat)
    ensures BitXor(BitXor(x, y), y) == x
    decreases x, y
  {
    if x != 0 || y != 0 {
      var z := BitXor(x, y);
      assert z / 2 == BitXor(x / 2, y / 2) && z % 2 == if x % 2 == y % 2 then 0 else 1;
      XorCancels(x / 2, y / 2);
    }
  }

  lemma {:induction false} XorHighest(x: nat, y: nat, n: nat)
    requires x < 2 * Pow2(n) && Pow2(n) <= y < 2 * Pow2(n)
    ensures BitXor(x, y) < 2 * Pow2(n) && (BitXor(x, y) >= Pow2(n) <==> x < Pow2(n))
    decreases n
  {
    if n > 0 {
      XorHighest(x / 2, y / 2, n - 1);
    } else {
      assert y == 1 && x < 2 && BitXor(0, 0) == 0;
    }
  }

  /** The step is a bijection on words. */
  lemma ShiftBijective(crc: nat)
    requires IsWord(crc)
    ensures IsWord(Shift(crc)) && IsWord(Unshift(crc))
    ensures Unshift(Shift(crc)) == crc && Shift(Unshift(crc)) == crc
  {
    UnshiftShift(crc);
    ShiftUnshift(crc);
  }

  lemma UnshiftShift(crc: nat)
    requires IsWord(crc)
    ensures IsWord(Shift(crc)) && Unshift(Shift(crc)) == crc
  {
    WordPow2();
    XorZero(crc / 2);
    XorHighest(crc / 2, REFLECTED_POLYNOMIAL, 31);
    XorCancels(crc / 2, REFLECTED_POLYNOMIAL);
  }

  lemma ShiftUnshift(crc: nat)
    requires IsWord(crc)
    ensures IsWord(Unshift(crc)) && Shift(Unshift(crc)) == crc
  {
    WordPow2();
    XorZero(crc);
    XorHighest(crc, REFLECTED_POLYNOMIAL, 31);
    XorCancels(crc, REFLECTED_POLYNOMIAL);
  }

  lemma {:induction false} XorZero(x: nat)
    ensures BitXor(x, 0) == x
  {
    if x != 0 {
      XorZero(x / 2);
    }
  }

  lemma WordPow2()
    ensures Pow2(32) == ALL_ONES + 1 && Pow2(31) == 0x8000_0000 && Pow2(8) == 256
  {
    assert Pow2(4) == 16;
    assert Pow2(8) == 256;
    assert Pow2(12) == 0x1000;
    assert Pow2(16) == 0x1_0000;
    assert Pow2(20) == 0x10_0000;
    assert Pow2(24) == 0x100_0000;
    assert Pow2(28) == 0x1000_0000;
    assert Pow2(31) == 0x8000_0000;
  }

  lemma {:induction false} BitsOfOnes(n: nat)
    ensures Bits(Pow2(n) - 1, n) == Complement(Zeros(n))
  {
    if n > 0 {
      BitsOfOnes(n - 1);
      BitsCons(Pow2(n) - 1, n - 1, true, Pow2(n - 1) - 1, Complement(Zeros(n - 1)));
      assert Complement(Zeros(n)) == [true] + Complement(Zeros(n - 1));
    }
  }

  lemma BitsCons(x: nat, n: nat, bit: bool, half: nat, rest: Poly)
    requires x == 2 * half + if bit then 1 else 0
    requires Bits(half, n) == rest
    ensures Bits(x, n + 1) == [bit] + rest
  {
  }

  function Coefficient(power: nat): nat {
    if InGenerator(power) then 1 else 0
  }

  lemma TailStep(x: nat, half: nat, power: nat)
    requires power < 32 && x == 2 * half + Coefficient(power)
    requires Bits(half, power) == GeneratorLow()[32 - power..]
    ensures Bits(x, power + 1) == GeneratorLow()[31 - power..]
  {
    TailCons(GeneratorLow(), x, half, 31 - power);
  }

  lemma TailCons(low: Poly, x: nat, half: nat, k: nat)
    requires k < |low| && x == 2 * half + if low[k] then 1 else 0
    requires Bits(half, |low| - 1 - k) == low[k + 1..]
    ensures Bits(x, |low| - k) == low[k..]
  {
    BitsCons(x, |low| - 1 - k, low[k], half, low[k + 1..]);
  }

  /** Four coefficients at a time: one hexadecimal digit of the reflected polynomial. */
  lemma TailDigit(x: nat, rest: nat, power: nat)
    requires power <= 28
    requires x == 16 * rest + 8 * Coefficient(power) + 4 * Coefficient(power + 1) + 2 * Coefficient(power + 2) + Coefficient(power + 3)
    requires Bits(rest, power) == GeneratorLow()[32 - power..]
    ensures Bits(x, power + 4) == GeneratorLow()[28 - power..]
  {
    var a := 2 * rest + Coefficient(power);
    var b := 2 * a + Coefficient(power + 1);
    var c := 2 * b + Coefficient(power + 2);
    TailStep(a, rest, power);
    TailStep(b, a, power + 1);
    TailStep(c, b, power + 2);
    TailStep(x, c, power + 3);
  }

  /** The word 0x82f63b78 is the RFC's generator without its leading term, reflected. */
  lemma PolynomialIsGenerator()
    ensures Bits(REFLECTED_POLYNOMIAL, 32) == GeneratorLow()
  {
    TailDigit(0x8, 0, 0);
    TailDigit(0x82, 0x8, 4);
    TailDigit(0x82f, 0x82, 8);
    TailDigit(0x82f6, 0x82f, 12);
    TailDigit(0x82f63, 0x82f6, 16);
    TailDigit(0x82f63b, 0x82f63, 20);
    TailDigit(0x82f63b7, 0x82f63b, 24);
    TailDigit(0x82f63b78, 0x82f63b7, 28);
  }

  // ----- The register performs the division

  lemma RegisterIsWord(crc: nat, payload: seq<byte>)
    requires IsWord(crc)
    ensures IsWord(Register(crc, payload))
    decreases |payload|
  {
    WordPow2();
    if payload != [] {
      BitXorBound(crc, payload[0] as nat, 32);
      ShiftNIsWord(BitXor(crc, payload[0] as nat), 8);
      RegisterIsWord(ShiftN(BitXor(crc, payload[0] as nat), 8), payload[1..]);
    }
  }

  lemma ShiftNIsWord(crc: nat, n: nat)
    requires IsWord(crc)
    ensures IsWord(ShiftN(crc, n))
    decreases n
  {
    WordPow2();
    if n > 0 {
      BitXorBound(crc / 2, if crc % 2 == 1 then REFLECTED_POLYNOMIAL else 0, 32);
      ShiftNIsWord(Shift(crc), n - 1);
    }
  }

  /** Shifting the register is one step of the division, its message bit being already added in. */
  lemma ShiftDivides(crc: nat)
    requires IsWord(crc)
    ensures Bits(Shift(crc), 32) == Step(GeneratorLow(), Bits(crc, 32), false)
  {
    WordPow2();
    BitsExtend(crc / 2, 31, 1);
    PolynomialIsGenerator();
    ReflectedStep(crc, REFLECTED_POLYNOMIAL, GeneratorLow());
  }

  /** One shift of a reflected register, for any width and polynomial. */
  lemma ReflectedStep(crc: nat, polynomial: nat, low: Poly)
    requires |low| > 0 && Bits(polynomial, |low|) == low
    requires Bits(crc / 2, |low|) == Bits(crc / 2, |low| - 1) + [false]
    ensures Bits(BitXor(crc / 2, if crc % 2 == 1 then polynomial else 0), |low|) == Step(low, Bits(crc, |low|), false)
  {
    BitsXor(crc / 2, if crc % 2 == 1 then polynomial else 0, |low|);
    BitsOfZero(|low|);
    assert Bits(crc, |low|)[1..] == Bits(crc / 2, |low| - 1);
  }

  lemma {:induction false} ShiftNDivides(crc: nat, n: nat)
    requires IsWord(crc)
    ensures Bits(ShiftN(crc, n), 32) == Divide(GeneratorLow(), Bits(crc, 32), Zeros(n))
    decreases n
  {
    if n > 0 {
      ShiftNIsWord(crc, 1);
      assert ShiftN(crc, 1) == ShiftN(Shift(crc), 0) == Shift(crc);
      ShiftDivides(crc);
      ShiftNDivides(Shift(crc), n - 1);
      assert Zeros(n)[1..] == Zeros(n - 1);
    }
  }

  /** Absorbing a byte divides by its eight bits. */
  lemma ByteDivides(crc: nat, value: nat)
    requires IsWord(crc) && value < 256
    ensures Bits(ShiftN(BitXor(crc, value), 8), 32) == Divide(GeneratorLow(), Bits(crc, 32), Bits(value, 8))
  {
    WordPow2();
    BitXorBound(crc, value, 32);
    ShiftNDivides(BitXor(crc, value), 8);
    BitsXor(crc, value, 32);
    BitsExtend(value, 8, 24);
    AbsorbFirst(GeneratorLow(), Bits(crc, 32), Bits(value, 8));
  }

  lemma {:induction false} RegisterDivides(crc: nat, payload: seq<byte>)
    requires IsWord(crc)
    ensures Bits(Register(crc, payload), 32) == Divide(GeneratorLow(), Bits(crc, 32), Message(payload))
    decreases |payload|
  {
    if payload != [] {
      var value := payload[0] as nat;
      ByteDivides(crc, value);
      RegisterIsWord(crc, payload[..1]);
      assert ShiftN(BitXor(crc, value), 8) == Register(crc, payload[..1]);
      RegisterDivides(ShiftN(BitXor(crc, value), 8), payload[1..]);
      DivideConcat(GeneratorLow(), Bits(crc, 32), Bits(value, 8), Message(payload[1..]));
    }
  }

  function Remainder(payload: seq<byte>): (r: Poly)
    ensures |r| == 32
  {
    Divide(GeneratorLow(), AllOnes(), Message(payload))
  }

  lemma ChecksumBits(payload: seq<byte>)
    ensures IsWord(Checksum(payload))
    ensures Bits(Checksum(payload), 32) == Complement(Remainder(payload))
    ensures Complement(Bits(Checksum(payload), 32)) == Remainder(payload)
  {
    RegisterIsWord(ALL_ONES, payload);
    StartBits(payload);
    OnesBits(Register(ALL_ONES, payload));
    XorOnes(Remainder(payload));
  }

  lemma StartBits(payload: seq<byte>)
    ensures Bits(Register(ALL_ONES, payload), 32) == Remainder(payload)
  {
    WordPow2();
    BitsOfOnes(32);
    RegisterDivides(ALL_ONES, payload);
  }

  lemma OnesBits(word: nat)
    requires IsWord(word)
    ensures IsWord(BitXor(word, ALL_ONES)) && Bits(BitXor(word, ALL_ONES), 32) == Xor(Bits(word, 32), AllOnes())
  {
    WordPow2();
    XorAllBits(word, ALL_ONES, 32);
  }

  lemma XorAllBits(x: nat, ones: nat, n: nat)
    requires x < Pow2(n) && ones == Pow2(n) - 1
    ensures BitXor(x, ones) < Pow2(n) && Bits(BitXor(x, ones), n) == Xor(Bits(x, n), Complement(Zeros(n)))
  {
    BitsOfOnes(n);
    BitXorBound(x, ones, n);
    BitsXor(x, ones, n);
  }

  lemma XorOnes(p: Poly)
    requires |p| == 32
    ensures Xor(p, AllOnes()) == Complement(p) && Complement(Complement(p)) == p
  {
  }

  lemma WordInjective(x: nat, y: nat)
    requires IsWord(x) && IsWord(y) && Bits(x, 32) == Bits(y, 32)
    ensures x == y
  {
    WordPow2();
    BitsInjective(x, y, 32);
  }

  /** The checksum is the one word whose complement is the remainder of the RFC's division. */
  lemma ChecksumUnique(payload: seq<byte>, crc: nat)
    ensures IsWord(crc) && IsRemainder(Dividend(payload), GeneratorLow(), Complement(Bits(crc, 32)))
       <==> crc == Checksum(payload)
  {
    ChecksumBits(payload);
    DivideIsRemainder(GeneratorLow(), AllOnes(), Message(payload), Complement(Bits(crc, 32)));
    if IsWord(crc) && Complement(Bits(crc, 32)) == Remainder(payload) {
      XorOnes(Bits(crc, 32));
      WordInjective(crc, Checksum(payload));
    }
  }

  // ----- Affinity and burst detection

  function XorBytes(p: seq<byte>, q: seq<byte>): (r: seq<byte>)
    requires |p| == |q|
    ensures |r| == |p|
    ensures forall i {:trigger r[i]} :: 0 <= i < |r| ==> r[i] as nat == BitXor(p[i] as nat, q[i] as nat)
  {
    seq(|p|, i requires 0 <= i < |p| => XorByte(p[i], q[i]))
  }

  function XorByte(a: byte, b: byte): (r: byte)
    ensures r as nat == BitXor(a as nat, b as nat)
  {
    WordPow2();
    BitXorBound(a as nat, b as nat, 8);
    BitXor(a as nat, b as nat) as byte
  }

  lemma {:induction false} MessageXor(p: seq<byte>, q: seq<byte>)
    requires |p| == |q|
    ensures Message(XorBytes(p, q)) == Xor(Message(p), Message(q))
    decreases |p|
  {
    if p != [] {
      MessageXor(p[1..], q[1..]);
      assert XorBytes(p, q)[1..] == XorBytes(p[1..], q[1..]);
      BitsXor(p[0] as nat, q[0] as nat, 8);
      XorConcat(Bits(p[0] as nat, 8), Message(p[1..]), Bits(q[0] as nat, 8), Message(q[1..]));
    }
  }

  lemma XorConcat(a: Poly, b: Poly, c: Poly, d: Poly)
    requires |a| == |c| && |b| == |d|
    ensures Xor(a + b, c + d) == Xor(a, c) + Xor(b, d)
  {
  }

  lemma XorThree(p: Poly, q: Poly, r: Poly)
    requires |p| == |q| == |r|
    ensures Complement(Xor(Xor(p, q), r)) == Xor(Xor(Complement(p), Complement(q)), Complement(r))
  {
  }

  lemma RemainderAffine(p: seq<byte>, q: seq<byte>, r: seq<byte>)
    requires |p| == |q| == |r|
    ensures Remainder(XorBytes(XorBytes(p, q), r)) == Xor(Xor(Remainder(p), Remainder(q)), Remainder(r))
  {
    var g, ones := GeneratorLow(), AllOnes();
    MessageXor(p, q);
    MessageXor(XorBytes(p, q), r);
    DivideLinear(g, ones, Message(p), ones, Message(q));
    DivideLinear(g, Xor(ones, ones), Xor(Message(p), Message(q)), ones, Message(r));
    assert Xor(Xor(ones, ones), ones) == ones;
  }

  /** The checksum of the sum of three messages is the sum of their checksums, for every length. */
  lemma ChecksumAffine(p: seq<byte>, q: seq<byte>, r: seq<byte>)
    requires |p| == |q| == |r|
    ensures Checksum(XorBytes(XorBytes(p, q), r)) == BitXor(BitXor(Checksum(p), Checksum(q)), Checksum(r))
  {
    var sum := XorBytes(XorBytes(p, q), r);
    RemainderAffine(p, q, r);
    XorThree(Remainder(p), Remainder(q), Remainder(r));
    ChecksumBits(p);
    ChecksumBits(q);
    ChecksumBits(r);
    ChecksumBits(sum);
    WordPow2();
    BitXorBound(Checksum(p), Checksum(q), 32);
    BitXorBound(BitXor(Checksum(p), Checksum(q)), Checksum(r), 32);
    BitsXor(Checksum(p), Checksum(q), 32);
    BitsXor(BitXor(Checksum(p), Checksum(q)), Checksum(r), 32);
    WordInjective(Checksum(sum), BitXor(BitXor(Checksum(p), Checksum(q)), Checksum(r)));
  }

  lemma MessageHead(p: seq<byte>)
    requires p != []
    ensures Message(p)[..8] == Bits(p[0] as nat, 8) && Message(p)[8..] == Message(p[1..])
  {
  }

  lemma {:induction false} MessageInjective(p: seq<byte>, q: seq<byte>)
    requires |p| == |q| && Message(p) == Message(q)
    ensures p == q
    decreases |p|
  {
    if p != [] {
      MessageHead(p);
      MessageHead(q);
      WordPow2();
      BitsInjective(p[0] as nat, q[0] as nat, 8);
      MessageInjective(p[1..], q[1..]);
      assert p == [p[0]] + p[1..] && q == [q[0]] + q[1..];
    }
  }

  /** Every change confined to thirty-two consecutive message bits is detected, for every payload length. */
  lemma BitBurstDetected(p: seq<byte>, q: seq<byte>, start: nat)
    requires |p| == |q| && p != q
    requires forall i :: 0 <= i < 8 * |p| && !(start <= i < start + 32) ==> Message(p)[i] == Message(q)[i]
    ensures Checksum(p) != Checksum(q)
  {
    assert GeneratorLow()[31];
    ChecksumBits(p);
    ChecksumBits(q);
    if Message(p) == Message(q) {
      MessageInjective(p, q);
    }
    BurstDetected(GeneratorLow(), AllOnes(), Message(p), Message(q), start);
  }

  lemma {:induction false} MessageByte(p: seq<byte>, k: nat)
    requires k < |p|
    ensures Message(p)[8 * k..8 * k + 8] == Bits(p[k] as nat, 8)
    decreases k
  {
    MessageHead(p);
    if k > 0 {
      var m := Message(p);
      MessageByte(p[1..], k - 1);
      assert m[8..] == Message(p[1..]);
      SliceTail(m, 8, 8 * (k - 1), 8 * k);
    }
  }

  lemma SliceTail(m: Poly, head: nat, a: nat, b: nat)
    requires a <= b && head + b <= |m|
    ensures m[head..][a..b] == m[head + a..head + b]
  {
  }

  /** In particular every change confined to four consecutive bytes is detected. */
  lemma FourByteBurstDetected(p: seq<byte>, q: seq<byte>, start: nat)
    requires |p| == |q| && p != q
    requires forall i :: 0 <= i < |p| && !(start <= i < start + 4) ==> p[i] == q[i]
    ensures Checksum(p) != Checksum(q)
  {
    forall i | 0 <= i < 8 * |p| && !(8 * start <= i < 8 * start + 32)
      ensures Message(p)[i] == Message(q)[i]
    {
      var k := i / 8;
      MessageByte(p, k);
      MessageByte(q, k);
      assert Message(p)[i] == Message(p)[8 * k..8 * k + 8][i % 8];
      assert Message(q)[i] == Message(q)[8 * k..8 * k + 8][i % 8];
    }
    BitBurstDetected(p, q, 8 * start);
  }
}
