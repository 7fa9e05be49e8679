/** What the remainder is, as polynomial long division, and which errors it always shows. */
module CrcGuarantees {
  import opened CrcDivision
  import opened Crc

  // ---------------------------------------------------------------- bits of words

  lemma {:induction false} FitsBelow(d: Word, m: Word, n: nat)
    requires d <= m && Fits(m, n)
    ensures Fits(d, n)
    decreases n
  {
    if n > 0 { FitsBelow(d >> 1, m >> 1, n - 1); }
  }

  lemma {:induction false} FitsMore(d: Word, n: nat, m: nat)
    requires Fits(d, n) && n <= m
    ensures Fits(d, m)
    decreases m
  {
    if n > 0 {
      FitsMore(d >> 1, n - 1, m - 1);
    } else if m > 0 {
      FitsMore(d >> 1, 0, m - 1);
    }
  }

  lemma FitsFour(d: Word, h: Word, n: nat)
    requires h == d >> 1 >> 1 >> 1 >> 1
    ensures Fits(d, n + 4) <==> Fits(h, n)
  {
    assert Fits(d, n + 4) <==> Fits(d >> 1 >> 1, n + 2);
    assert Fits(d >> 1 >> 1, n + 2) <==> Fits(d >> 1 >> 1 >> 1 >> 1, n);
  }

  lemma FourHalves(d: Word)
    ensures d >> 4 == d >> 1 >> 1 >> 1 >> 1
  {
  }

  lemma FitsByte(d: Word, h: Word, n: nat)
    requires h == d >> 4 >> 4
    ensures Fits(d, n + 8) <==> Fits(h, n)
  {
    FourHalves(d);
    FourHalves(d >> 4);
    FitsFour(d, d >> 4, n + 4);
    FitsFour(d >> 4, h, n);
  }

  lemma FitsThreeBytes(d: Word, e: Word, f: Word, g: Word, n: nat)
    requires e == d >> 4 >> 4 && f == e >> 4 >> 4 && g == f >> 4 >> 4
    ensures Fits(d, n + 24) <==> Fits(g, n)
  {
    FitsByte(d, e, n + 16);
    FitsByte(e, f, n + 8);
    FitsByte(f, g, n);
  }

  lemma SevenBits(d: Word)
    requires d == 0x7F || d == 0x80
    ensures Fits(d, 7) <==> d == 0x7F
  {
    var h := d >> 1 >> 1 >> 1 >> 1;
    assert Fits(h >> 1 >> 1, 1) <==> d == 0x7F;
    assert Fits(h, 3) <==> d == 0x7F;
    assert Fits(d >> 1 >> 1, 5) <==> d == 0x7F;
  }

  lemma TopBitDoesNotFit(d: Word, n: nat)
    requires Fits(d, n) && n <= 31
    ensures d <= 0x7FFF_FFFF
  {
    FitsMore(d, n, 31);
    if d > 0x7FFF_FFFF {
      FitsBelow(0x8000_0000, d, 31);
      FitsThreeBytes(0x8000_0000, 0x80_0000, 0x8000, 0x80, 7);
      SevenBits(0x80);
    }
  }

  lemma HalfFits(c: Word)
    ensures Fits(c >> 1, 31)
  {
    FitsThreeBytes(0x7FFF_FFFF, 0x7F_FFFF, 0x7FFF, 0x7F, 7);
    SevenBits(0x7F);
    FitsBelow(c >> 1, 0x7FFF_FFFF, 31);
  }

  // ---------------------------------------------------------------- bursts

  lemma RestDiffers(c: Word, d: Word)
    requires c != d && (c & 1 == 1) == (d & 1 == 1)
    ensures c >> 1 != d >> 1
  {
  }

  /** The register after a step that drops to `half`, with or without the divisor. */
  function Stepped(taken: bool, half: Word): Word {
    if taken then half ^ POLY else half
  }

  lemma FeedSteps(c: Word, bit: bool)
    ensures Feed(c, bit) == Stepped((c & 1 == 1) != bit, c >> 1) && c >> 1 <= 0x7FFF_FFFF
  {
  }

  lemma SteppedApart(taken: bool, a: Word, b: Word)
    requires a != b
    ensures Stepped(taken, a) != Stepped(taken, b)
  {
  }

  /** The divisor's lowest term sits in the bit that the shift has cleared. */
  lemma TopBitShows(taken: bool, a: Word, b: Word)
    requires a <= 0x7FFF_FFFF && b <= 0x7FFF_FFFF
    ensures Stepped(taken, a) != Stepped(!taken, b)
  {
  }

  lemma StepsDiffer(p: bool, q: bool, a: Word, b: Word)
    requires a <= 0x7FFF_FFFF && b <= 0x7FFF_FFFF && (p == q ==> a != b)
    ensures Stepped(p, a) != Stepped(q, b)
  {
    if p == q { SteppedApart(p, a, b); } else { TopBitShows(p, a, b); }
  }

  lemma FeedInjective(c: Word, d: Word, bit: bool)
    requires c != d
    ensures Feed(c, bit) != Feed(d, bit)
  {
    if (c & 1 == 1) == (d & 1 == 1) { RestDiffers(c, d); }
    FeedSteps(c, bit);
    FeedSteps(d, bit);
    StepsDiffer((c & 1 == 1) != bit, (d & 1 == 1) != bit, c >> 1, d >> 1);
  }

  lemma {:induction false} SerialInjective(c: Word, d: Word, bits: seq<bool>)
    requires c != d
    ensures Serial(c, bits) != Serial(d, bits)
    decreases |bits|
  {
    if bits == [] {
    } else {
      FeedInjective(c, d, bits[0]);
      SerialInjective(Feed(c, bits[0]), Feed(d, bits[0]), bits[1..]);
    }
  }

  lemma FeedApart(c: Word, d: Word, x: bool, y: bool)
    requires Feed(c, x) ^ Feed(d, y) <= 0x7FFF_FFFF
    ensures Feed(c, x) ^ Feed(d, y) == (c ^ d) >> 1
  {
    XorHalves(c, d);
  }

  lemma OneBitApart(c: Word, d: Word, x: bool, y: bool, n: nat)
    requires Fits(Xor(Feed(c, x), Feed(d, y)), n) && n <= 31
    ensures Fits(Xor(c, d), n + 1)
  {
    TopBitDoesNotFit(Xor(Feed(c, x), Feed(d, y)), n);
    FeedApart(c, d, x, y);
  }

  lemma XorSelf(c: Word)
    ensures Xor(c, c) == 0
  {
  }

  /** Two registers that end equal after n bits each were no further apart than n bits. */
  lemma {:induction false} MeetsWithin(c: Word, d: Word, u: seq<bool>, v: seq<bool>)
    requires |u| == |v| <= 32 && Serial(c, u) == Serial(d, v)
    ensures Fits(Xor(c, d), |u|)
    decreases |u|
  {
    if u == [] {
      XorSelf(c);
    } else {
      MeetsWithin(Feed(c, u[0]), Feed(d, v[0]), u[1..], v[1..]);
      OneBitApart(c, d, u[0], v[0], |u| - 1);
    }
  }

  lemma FirstDifference(c: Word, bit: bool)
    ensures Xor(Feed(c, bit), Feed(c, !bit)) == POLY
  {
  }

  /** From one register, different bits over a window of at most 32 end apart. */
  lemma {:induction false} WindowDetected(c: Word, u: seq<bool>, v: seq<bool>)
    requires |u| == |v| <= 32 && u != v
    ensures Serial(c, u) != Serial(c, v)
    decreases |u|
  {
    if u[0] == v[0] {
      assert u == [u[0]] + u[1..] && v == [v[0]] + v[1..];
      WindowDetected(Feed(c, u[0]), u[1..], v[1..]);
    } else if Serial(c, u) == Serial(c, v) {
      MeetsWithin(Feed(c, u[0]), Feed(c, v[0]), u[1..], v[1..]);
      FirstDifference(c, u[0]);
      TopBitDoesNotFit(POLY, |u| - 1);
    }
  }

  ghost predicate AgreeOutside(a: seq<bool>, b: seq<bool>, start: nat, end: nat) {
    |a| == |b| && forall i | 0 <= i < |a| && !(start <= i < end) :: a[i] == b[i]
  }

  lemma BurstOfBits(c: Word, a: seq<bool>, b: seq<bool>, start: nat)
    requires a != b && AgreeOutside(a, b, start, start + 32)
    ensures Serial(c, a) != Serial(c, b)
  {
    var i := if start <= |a| then start else |a|;
    var j := if start + 32 <= |a| then start + 32 else |a|;
    assert a == a[..i] + a[i..j] + a[j..] && b == b[..i] + b[i..j] + b[j..];
    assert a[..i] == b[..i] && a[j..] == b[j..];
    var r := Serial(c, a[..i]);
    WindowDetected(r, a[i..j], b[i..j]);
    SerialInjective(Serial(r, a[i..j]), Serial(r, b[i..j]), a[j..]);
    SerialOfThree(c, a[..i], a[i..j], a[j..]);
    SerialOfThree(c, b[..i], b[i..j], b[j..]);
  }

  lemma SerialOfThree(c: Word, p: seq<bool>, u: seq<bool>, s: seq<bool>)
    ensures Serial(c, p + u + s) == Serial(Serial(Serial(c, p), u), s)
  {
    SerialJoins(c, p + u, s);
    SerialJoins(c, p, u);
  }

  lemma {:induction false} BitsDiffer(c: Word, d: Word, n: nat)
    requires Fits(c, n) && Fits(d, n) && c != d
    ensures Bits(c, n) != Bits(d, n)
    decreases n
  {
    if (c & 1 == 1) != (d & 1 == 1) {
      assert Bits(c, n)[0] != Bits(d, n)[0];
    } else {
      RestDiffers(c, d);
      BitsDiffer(c >> 1, d >> 1, n - 1);
      assert Bits(c, n)[1..] == Bits(c >> 1, n - 1) && Bits(d, n)[1..] == Bits(d >> 1, n - 1);
    }
  }

  lemma ByteBitsInjective(x: Byte, y: Byte)
    requires ByteBits(x) == ByteBits(y)
    ensures x == y
  {
    ByteFits(x as Word);
    ByteFits(y as Word);
    if x as Word != y as Word { BitsDiffer(x as Word, y as Word, 8); }
  }

  lemma {:induction false} FlatInjective<T(!new)>(f: T -> seq<bool>, width: nat, a: seq<T>, b: seq<T>)
    requires forall x :: |f(x)| == width
    requires forall x, y :: f(x) == f(y) ==> x == y
    requires |a| == |b| && Flat(f, a) == Flat(f, b)
    ensures a == b
    decreases |a|
  {
    if a == [] {
    } else {
      assert Flat(f, a)[..width] == f(a[0]) && Flat(f, a)[width..] == Flat(f, a[1..]);
      assert Flat(f, b)[..width] == f(b[0]) && Flat(f, b)[width..] == Flat(f, b[1..]);
      FlatInjective(f, width, a[1..], b[1..]);
      assert a == [a[0]] + a[1..] && b == [b[0]] + b[1..];
    }
  }

  lemma BitsOfInjective(a: seq<Byte>, b: seq<Byte>)
    requires |a| == |b| && BitsOf(a) == BitsOf(b)
    ensures a == b
  {
    forall x: Byte, y: Byte | ByteBits(x) == ByteBits(y) ensures x == y {
      ByteBitsInjective(x, y);
    }
    FlatInjective(ByteBits, 8, a, b);
  }

  /** Two messages whose differences lie within 32 consecutive bits never share a checksum. */
  lemma BurstDetected(message: seq<Byte>, other: seq<Byte>, start: nat)
    requires |message| == |other| && message != other
    requires AgreeOutside(BitsOf(message), BitsOf(other), start, start + 32)
    ensures CrcOf(message) != CrcOf(other)
  {
    if BitsOf(message) == BitsOf(other) { BitsOfInjective(message, other); }
    BurstOfBits(ALL_ONES, BitsOf(message), BitsOf(other), start);
  }

  // ---------------------------------------------------------------- long division

  /** The divisor's 33 coefficients, the highest power first. */
  function Divisor(): (r: seq<bool>)
    ensures |r| == 33
  {
    [true] + Bits(POLY, 32)
  }

  /** The low and the high half of the polynomial's bits, low bit first. */
  const LOW_HALF: seq<bool> :=
    [false, false, false, false] + [false, true, false, false] +
    [true, true, false, false] + [false, false, false, true]

  const HIGH_HALF: seq<bool> :=
    [false, false, false, true] + [true, true, false, true] + [true, false, true, true] + [false, true, true, true]

  /** The powers with coefficient one. */
  const TERMS: set<int> := {32, 26, 23, 22, 16, 12, 11, 10, 8, 7, 5, 4, 2, 1, 0}

  lemma LowTerms(i: nat)
    requires i < 16
    ensures LOW_HALF[i] <==> 31 - i in TERMS
  {
  }

  lemma HighTerms(i: nat)
    requires i < 16
    ensures HIGH_HALF[i] <==> 15 - i in TERMS
  {
  }

  /** Coefficients added modulo two, from the front. */
  function Plus(a: seq<bool>, b: seq<bool>): (r: seq<bool>)
    requires |b| <= |a|
    ensures |r| == |a|
  {
    seq(|a|, i requires 0 <= i < |a| => if i < |b| then a[i] != b[i] else a[i])
  }

  /** Long division over coefficients modulo two: what is left when the dividend is shorter than the divisor. */
  function Remainder(dividend: seq<bool>): seq<bool>
    decreases |dividend|
  {
    if |dividend| <= 32 then dividend
    else Remainder((if dividend[0] then Plus(dividend, Divisor()) else dividend)[1..])
  }

  function Zeros(n: nat): (r: seq<bool>)
    ensures |r| == n
  {
    seq(n, _ => false)
  }

  /** The message times x to the 32nd, its first 32 coefficients complemented. */
  function Dividend(c: Word, bits: seq<bool>): (r: seq<bool>)
    ensures |r| == |bits| + 32
  {
    Plus(bits + Zeros(32), Bits(c, 32))
  }

  function Odd(c: Word): bool {
    c & 1 == 1
  }

  function Half(c: Word): Word {
    c >> 1
  }

  function Stream<G>(odd: G -> bool, half: G -> G, x: G, n: nat): (r: seq<bool>)
    ensures |r| == n
    decreases n
  {
    if n == 0 then [] else [odd(x)] + Stream(odd, half, half(x), n - 1)
  }

  lemma {:induction false} StreamOfSum<G(!new)>(odd: G -> bool, half: G -> G, op: (G, G) -> G,
                                            a: G, b: G, n: nat, i: nat)
    requires i < n
    requires forall x, y :: odd(op(x, y)) == (odd(x) != odd(y))
    requires forall x, y :: half(op(x, y)) == op(half(x), half(y))
    ensures Stream(odd, half, op(a, b), n)[i] == (Stream(odd, half, a, n)[i] != Stream(odd, half, b, n)[i])
    decreases n
  {
    if i > 0 { StreamOfSum(odd, half, op, half(a), half(b), n - 1, i - 1); }
  }

  lemma {:induction false} BitsAreStream(c: Word, n: nat)
    ensures Bits(c, n) == Stream(Odd, Half, c, n)
    decreases n
  {
    if n > 0 { BitsAreStream(c >> 1, n - 1); }
  }

  /** Four steps of reading off bits, from one state to the next. */
  lemma FourSteps<G>(odd: G -> bool, half: G -> G, x0: G, x1: G, x2: G, x3: G, x4: G, n: nat)
    requires n >= 4 && half(x0) == x1 && half(x1) == x2 && half(x2) == x3 && half(x3) == x4
    ensures Stream(odd, half, x0, n) == [odd(x0), odd(x1), odd(x2), odd(x3)] + Stream(odd, half, x4, n - 4)
  {
    assert Stream(odd, half, x0, n) == [odd(x0)] + Stream(odd, half, x1, n - 1);
    assert Stream(odd, half, x1, n - 1) == [odd(x1)] + Stream(odd, half, x2, n - 2);
    assert Stream(odd, half, x2, n - 2) == [odd(x2)] + Stream(odd, half, x3, n - 3);
    assert Stream(odd, half, x3, n - 3) == [odd(x3)] + Stream(odd, half, x4, n - 4);
  }

  /** The front has been read off, and the bits of the word are left. */
  ghost predicate Left(whole: seq<bool>, front: seq<bool>, c: Word, n: nat) {
    whole == front + Stream(Odd, Half, c, n)
  }

  lemma FourBits(x0: Word, x1: Word, x2: Word, x3: Word, x4: Word, n: nat, b: seq<bool>,
                 front: seq<bool>, longer: seq<bool>, whole: seq<bool>)
    requires n >= 4 && Half(x0) == x1 && Half(x1) == x2 && Half(x2) == x3 && Half(x3) == x4
    requires b == [Odd(x0), Odd(x1), Odd(x2), Odd(x3)] && longer == front + b && Left(whole, front, x0, n)
    ensures Left(whole, longer, x4, n - 4)
  {
    FourSteps(Odd, Half, x0, x1, x2, x3, x4, n);
  }

  lemma LowBits(n: nat, whole: seq<bool>)
    requires n >= 16 && Left(whole, [], POLY, n)
    ensures Left(whole, LOW_HALF, 0xEDB8, n - 16)
  {
    var f0: seq<bool>, f1, f2 := [], LOW_HALF[..4], LOW_HALF[..8];
    var f3, f4 := LOW_HALF[..12], LOW_HALF;
    FourBits(0xEDB88320, 0x76DC4190, 0x3B6E20C8, 0x1DB71064, 0xEDB8832, n, [false, false, false, false], f0, f1, whole);
    FourBits(0xEDB8832, 0x76DC419, 0x3B6E20C, 0x1DB7106, 0xEDB883, n - 4, [false, true, false, false], f1, f2, whole);
    FourBits(0xEDB883, 0x76DC41, 0x3B6E20, 0x1DB710, 0xEDB88, n - 8, [true, true, false, false], f2, f3, whole);
    FourBits(0xEDB88, 0x76DC4, 0x3B6E2, 0x1DB71, 0xEDB8, n - 12, [false, false, false, true], f3, f4, whole);
  }

  lemma HighBits(n: nat, whole: seq<bool>)
    requires n >= 16 && Left(whole, [], 0xEDB8, n)
    ensures Left(whole, HIGH_HALF, 0, n - 16)
  {
    var f0: seq<bool>, f1, f2 := [], HIGH_HALF[..4], HIGH_HALF[..8];
    var f3, f4 := HIGH_HALF[..12], HIGH_HALF;
    FourBits(0xEDB8, 0x76DC, 0x3B6E, 0x1DB7, 0xEDB, n, [false, false, false, true], f0, f1, whole);
    FourBits(0xEDB, 0x76D, 0x3B6, 0x1DB, 0xED, n - 4, [true, true, false, true], f1, f2, whole);
    FourBits(0xED, 0x76, 0x3B, 0x1D, 0xE, n - 8, [true, false, true, true], f2, f3, whole);
    FourBits(0xE, 0x7, 0x3, 0x1, 0x0, n - 12, [false, true, true, true], f3, f4, whole);
  }

  lemma DivisorHalves(n: nat, low: seq<bool>, high: seq<bool>)
    requires n == 32 && low == Stream(Odd, Half, POLY, n) && high == Stream(Odd, Half, 0xEDB8, n - 16)
    ensures low == LOW_HALF + HIGH_HALF
  {
    LowBits(n, low);
    HighBits(n - 16, high);
    assert Stream(Odd, Half, 0, n - 32) == [];
  }

  lemma DivisorIs(n: nat)
    requires n == 32
    ensures Divisor() == [true] + LOW_HALF + HIGH_HALF
  {
    BitsAreStream(POLY, n);
    DivisorHalves(n, Stream(Odd, Half, POLY, n), Stream(Odd, Half, 0xEDB8, n - 16));
  }

  /** The divisor is x^32 + x^26 + x^23 + x^22 + x^16 + x^12 + x^11 + x^10 + x^8 + x^7 + x^5 + x^4 + x^2 + x + 1. */
  lemma DivisorTerms(power: nat)
    requires power <= 32
    ensures Divisor()[32 - power] <==> power in TERMS
  {
    DivisorIs(32);
    if 16 <= power < 32 {
      LowTerms(31 - power);
    } else if power < 16 {
      HighTerms(15 - power);
    }
  }

  lemma OddSum(a: Word, b: Word)
    ensures Odd(a ^ b) == (Odd(a) != Odd(b))
  {
    LowBit(a);
    LowBit(b);
    XorHalves(a, b);
  }

  lemma HalfSum(a: Word, b: Word)
    ensures Half(a ^ b) == Half(a) ^ Half(b)
  {
    XorHalves(a, b);
  }

  lemma OddSums()
    ensures forall x, y :: Odd(Xor(x, y)) == (Odd(x) != Odd(y))
  {
    forall x, y ensures Odd(Xor(x, y)) == (Odd(x) != Odd(y)) { OddSum(x, y); }
  }

  lemma HalfSums()
    ensures forall x, y :: Half(Xor(x, y)) == Xor(Half(x), Half(y))
  {
    forall x, y ensures Half(Xor(x, y)) == Xor(Half(x), Half(y)) { HalfSum(x, y); }
  }

  lemma StreamOfXor(a: Word, b: Word, n: nat, i: nat)
    requires i < n
    ensures Stream(Odd, Half, Xor(a, b), n)[i] == (Stream(Odd, Half, a, n)[i] != Stream(Odd, Half, b, n)[i])
  {
    OddSums();
    HalfSums();
    StreamOfSum(Odd, Half, Xor, a, b, n, i);
  }

  lemma BitsOfSum(a: Word, b: Word, sum: Word, n: nat, i: nat)
    requires i < n && sum == a ^ b
    ensures Bits(sum, n)[i] == (Bits(a, n)[i] != Bits(b, n)[i])
  {
    BitsAreStream(a, n);
    BitsAreStream(b, n);
    BitsAreStream(sum, n);
    StreamOfXor(a, b, n, i);
  }

  lemma {:induction false} BitsLonger(c: Word, n: nat, m: nat, i: nat)
    requires i < n <= m
    ensures Bits(c, n)[i] == Bits(c, m)[i]
    decreases n
  {
    if i > 0 { BitsLonger(c >> 1, n - 1, m - 1, i - 1); }
  }

  lemma {:induction false} BitsBeyond(c: Word, n: nat, m: nat)
    requires Fits(c, n) && n < m
    ensures !Bits(c, m)[n]
    decreases n
  {
    if n > 0 { BitsBeyond(c >> 1, n - 1, m - 1); }
  }

  lemma HalvedAt(c: Word, i: nat)
    requires i < 32
    ensures Bits(c >> 1, 32)[i] == (if i < 31 then Bits(c, 32)[i + 1] else false)
  {
    if i < 31 {
      BitsLonger(c >> 1, 31, 32, i);
    } else {
      HalfFits(c);
      BitsBeyond(c >> 1, 31, 32);
    }
  }

  lemma DividendHead(c: Word, bits: seq<bool>)
    requires bits != []
    ensures Dividend(c, bits)[0] == (bits[0] != (c & 1 == 1))
  {
  }

  lemma KeepStep(c: Word, bits: seq<bool>)
    requires bits != []
    ensures Dividend(c, bits)[1..] == Dividend(c >> 1, bits[1..])
  {
    var a, b := Dividend(c, bits)[1..], Dividend(c >> 1, bits[1..]);
    forall i | 0 <= i < |b| ensures a[i] == b[i] {
      if i < 32 { HalvedAt(c, i); }
    }
  }

  lemma DividendAt(c: Word, bits: seq<bool>, i: nat)
    requires i < |bits| + 32
    ensures Dividend(c, bits)[i] == if i < 32 then (bits + Zeros(32))[i] != Bits(c, 32)[i] else (bits + Zeros(32))[i]
  {
  }

  lemma PlusAt(h: Word, p: Word, sum: Word, bits: seq<bool>, i: nat)
    requires i < |bits| + 32 && sum == h ^ p
    ensures Dividend(sum, bits)[i] == if i < 32 then Dividend(h, bits)[i] != Bits(p, 32)[i] else Dividend(h, bits)[i]
  {
    DividendAt(h, bits, i);
    DividendAt(sum, bits, i);
    if i < 32 { BitsOfSum(h, p, sum, 32, i); }
  }

  lemma TakeStepOf(h: Word, a: seq<bool>, bits: seq<bool>)
    requires |a| == |bits| + 33 && a[1..] == Dividend(h, bits)
    ensures Plus(a, Divisor())[1..] == Dividend(Xor(h, POLY), bits)
  {
    var l, r := Plus(a, Divisor())[1..], Dividend(Xor(h, POLY), bits);
    forall i | 0 <= i < |r| ensures l[i] == r[i] {
      assert a[1 + i] == a[1..][i];
      PlusAt(h, POLY, Xor(h, POLY), bits, i);
    }
  }

  lemma TakeStep(c: Word, bits: seq<bool>)
    requires bits != []
    ensures Plus(Dividend(c, bits), Divisor())[1..] == Dividend(Xor(c >> 1, POLY), bits[1..])
  {
    KeepStep(c, bits);
    TakeStepOf(c >> 1, Dividend(c, bits), bits[1..]);
  }

  lemma {:induction false} SerialIsRemainder(c: Word, bits: seq<bool>)
    ensures Remainder(Dividend(c, bits)) == Bits(Serial(c, bits), 32)
    decreases |bits|
  {
    if bits == [] {
      assert Dividend(c, bits) == Bits(c, 32);
    } else {
      DividendHead(c, bits);
      if bits[0] != (c & 1 == 1) { TakeStep(c, bits); } else { KeepStep(c, bits); }
      SerialIsRemainder(Feed(c, bits[0]), bits[1..]);
    }
  }

  /** The checksum is the remainder of the message by long division. */
  lemma ChecksumIsRemainder(message: seq<Byte>)
    ensures Bits(CrcOf(message), 32) == Remainder(Dividend(ALL_ONES, BitsOf(message)))
  {
    SerialIsRemainder(ALL_ONES, BitsOf(message));
  }
}
