/** Division of a stream of bits by the polynomial of section 8 of RFC 1952, one bit at a time. */
module CrcDivision {
  type Byte = bv8
  type Word = bv32

  /** The divisor of section 8 of RFC 1952 without its leading term, the highest power in the lowest bit. */
  const POLY: Word := 0xEDB88320

  const ALL_ONES: Word := 0xFFFF_FFFF

  // ---------------------------------------------------------------- a step taken many times

  function Iterate<G>(f: G -> G, x: G, n: nat): G
    decreases n
  {
    if n == 0 then x else Iterate(f, f(x), n - 1)
  }

  lemma {:induction false} IterateLinear<G(!new)>(f: G -> G, op: (G, G) -> G, x: G, y: G, n: nat)
    requires forall a, b :: f(op(a, b)) == op(f(a), f(b))
    ensures Iterate(f, op(x, y), n) == op(Iterate(f, x, n), Iterate(f, y, n))
    decreases n
  {
    if n > 0 { IterateLinear(f, op, f(x), f(y), n - 1); }
  }

  // ---------------------------------------------------------------- the register

  function Xor(a: Word, b: Word): Word {
    a ^ b
  }

  /** One step of the division: drop the lowest bit, and take away the divisor when that bit was set. */
  function Shift(c: Word): Word {
    if c & 1 == 1 then (c >> 1) ^ POLY else c >> 1
  }

  function Shifts(c: Word, n: nat): Word {
    Iterate(Shift, c, n)
  }

  lemma LowBit(a: Word)
    ensures a & 1 == 0 || a & 1 == 1
  {
  }

  lemma XorHalves(a: Word, b: Word)
    ensures (a ^ b) >> 1 == (a >> 1) ^ (b >> 1)
    ensures (a ^ b) & 1 == (a & 1) ^ (b & 1)
  {
  }

  lemma XorLaws(a: Word, b: Word, p: Word)
    ensures (a ^ b) ^ p == (a ^ p) ^ b == a ^ (b ^ p) && (a ^ p) ^ (b ^ p) == a ^ b
  {
  }

  lemma ShiftLinear(a: Word, b: Word)
    ensures Shift(a ^ b) == Shift(a) ^ Shift(b)
  {
    LowBit(a);
    LowBit(b);
    XorHalves(a, b);
    XorLaws(a >> 1, b >> 1, POLY);
  }

  lemma ShiftsLinear(a: Word, b: Word, n: nat)
    ensures Shifts(Xor(a, b), n) == Xor(Shifts(a, n), Shifts(b, n))
  {
    forall x, y ensures Shift(Xor(x, y)) == Xor(Shift(x), Shift(y)) {
      ShiftLinear(x, y);
    }
    IterateLinear(Shift, Xor, a, b, n);
  }

  // ---------------------------------------------------------------- one bit at a time

  /** The register after one message bit: the divisor is taken away when that bit and the lowest one differ. */
  function Feed(c: Word, bit: bool): Word {
    if (c & 1 == 1) != bit then (c >> 1) ^ POLY else c >> 1
  }

  /** Bit-serial division: the register after all the bits. */
  function Serial(c: Word, bits: seq<bool>): Word
    decreases |bits|
  {
    if bits == [] then c else Serial(Feed(c, bits[0]), bits[1..])
  }

  /** The n low bits of c, lowest first. */
  function Bits(c: Word, n: nat): (r: seq<bool>)
    ensures |r| == n
    decreases n
  {
    if n == 0 then [] else [c & 1 == 1] + Bits(c >> 1, n - 1)
  }

  function ByteBits(b: Byte): seq<bool> {
    Bits(b as Word, 8)
  }

  function Flat<T>(f: T -> seq<bool>, items: seq<T>): seq<bool>
    decreases |items|
  {
    if items == [] then [] else f(items[0]) + Flat(f, items[1..])
  }

  /** The message as the stream of its bits, the lowest bit of each byte first. */
  function BitsOf(message: seq<Byte>): seq<bool> {
    Flat(ByteBits, message)
  }

  lemma {:induction false} FlatJoins<T>(f: T -> seq<bool>, a: seq<T>, b: seq<T>)
    ensures Flat(f, a + b) == Flat(f, a) + Flat(f, b)
    decreases |a|
  {
    if a == [] {
      assert a + b == b;
    } else {
      assert (a + b)[1..] == a[1..] + b;
      FlatJoins(f, a[1..], b);
    }
  }

  lemma FlatOne<T>(f: T -> seq<bool>, x: T)
    ensures Flat(f, [x]) == f(x)
  {
    assert Flat(f, []) == [];
  }

  lemma {:induction false} SerialJoins(c: Word, a: seq<bool>, b: seq<bool>)
    ensures Serial(c, a + b) == Serial(Serial(c, a), b)
    decreases |a|
  {
    if a == [] {
      assert a + b == b;
    } else {
      assert (a + b)[1..] == a[1..] + b;
      SerialJoins(Feed(c, a[0]), a[1..], b);
    }
  }

  /** The word has no bit set above its n low ones. */
  predicate Fits(d: Word, n: nat)
    decreases n
  {
    if n == 0 then d == 0 else Fits(d >> 1, n - 1)
  }

  lemma ByteFits(d: Word)
    requires d <= 0xFF
    ensures Fits(d, 8)
  {
    assert d >> 1 >> 1 >> 1 >> 1 >> 1 >> 1 >> 1 >> 1 == 0;
    assert Fits(d >> 1 >> 1 >> 1 >> 1 >> 1 >> 1, 2);
    assert Fits(d >> 1 >> 1 >> 1 >> 1, 4);
    assert Fits(d >> 1 >> 1, 6);
  }

  lemma FeedMerges(c: Word, d: Word)
    ensures Shift(c ^ d) == Feed(c, d & 1 == 1) ^ (d >> 1)
  {
    LowBit(c);
    LowBit(d);
    XorHalves(c, d);
    XorLaws(c >> 1, d >> 1, POLY);
  }

  lemma XorZero(c: Word)
    ensures Xor(c, 0) == c
  {
  }

  /** Shifting in the n bits of d is adding d to the register and shifting n times. */
  lemma {:induction false} SerialIsShifts(c: Word, d: Word, n: nat)
    requires Fits(d, n)
    ensures Serial(c, Bits(d, n)) == Shifts(Xor(c, d), n)
    decreases n
  {
    if n == 0 {
      XorZero(c);
    } else {
      FeedMerges(c, d);
      assert Bits(d, n)[1..] == Bits(d >> 1, n - 1);
      SerialIsShifts(Feed(c, d & 1 == 1), d >> 1, n - 1);
    }
  }
}
