/** The checksum of src/common/math/crc.cpp: the table-driven loop computes the bit-serial remainder. */
module Crc {
  import opened CrcDivision
  import opened CrcTable

  /** The remainder of the message, from a register of all ones. */
  function CrcOf(message: seq<Byte>): Word {
    Serial(ALL_ONES, BitsOf(message))
  }

  /** What a plain char becomes next to an unsigned int: sign-extended where plain char is signed. */
  function Promote(signed: bool, b: Byte): Word {
    if signed && b >= 0x80 then 0xFFFF_FF00 | (b as Word) else b as Word
  }

  /** The entry looked up: the low byte as an index. */
  function Slot(c: Word): (n: int)
    ensures 0 <= n < 256
  {
    (c & 0xFF) as int
  }

  lemma PromoteMasked(signed: bool, b: Byte, c: Word)
    ensures (c ^ Promote(signed, b)) & 0xFF == (c ^ (b as Word)) & 0xFF
  {
  }

  lemma SamePlace(signed: bool, b: Byte, c: Word)
    ensures Slot(Xor(c, Promote(signed, b))) == Slot(Xor(c, b as Word))
  {
    PromoteMasked(signed, b, c);
  }

  // ---------------------------------------------------------------- a byte at a time

  lemma EightHalves(h: Word)
    requires h & 0xFF == 0
    ensures ByteShift(h) == h >> 8
  {
    HighPasses(h, 8);
    assert Down(h, 8) == h >> 8;
  }

  /** The word's k low bits are all clear. */
  predicate LowClear(h: Word, k: nat)
    decreases k
  {
    k == 0 || (h & 1 == 0 && LowClear(h >> 1, k - 1))
  }

  function Down(h: Word, k: nat): Word
    decreases k
  {
    if k == 0 then h else Down(h >> 1, k - 1)
  }

  lemma {:induction false} HighPasses(h: Word, k: nat)
    requires LowClear(h, k)
    ensures Shifts(h, k) == Down(h, k)
    decreases k
  {
    if k > 0 { HighPasses(h >> 1, k - 1); }
  }

  lemma Halves(x: Word)
    ensures x == Xor(x & 0xFF, x & 0xFFFF_FF00) && (x & 0xFFFF_FF00) & 0xFF == 0 && (x & 0xFFFF_FF00) >> 8 == x >> 8
    ensures x & 0xFF <= 0xFF
  {
  }

  lemma ByteSplits(x: Word)
    ensures ByteShift(x) == Xor(ByteShift(x & 0xFF), x >> 8)
  {
    Halves(x);
    EightHalves(x & 0xFFFF_FF00);
    ShiftsLinear(x & 0xFF, x & 0xFFFF_FF00, 8);
  }

  lemma HighUnchanged(c: Word, b: Byte)
    ensures Xor(c, b as Word) >> 8 == c >> 8
  {
  }

  lemma SplitsWith(x: Word, high: Word)
    requires x >> 8 == high
    ensures ByteShift(x) == Xor(ByteShift(x & 0xFF), high)
  {
    ByteSplits(x);
  }

  lemma TableSum(x: Word, high: Word)
    requires x >> 8 == high
    ensures |CRC_TABLE| == 256 && Xor(CRC_TABLE[Slot(x)], high) == ByteShift(x)
  {
    Halves(x);
    TableIsShifts(x & 0xFF);
    SplitsWith(x, high);
  }

  /** One turn of the loop divides the register with the byte added for eight steps. */
  lemma TurnDivides(c: Word, b: Byte, signed: bool)
    ensures |CRC_TABLE| == 256
    ensures Xor(CRC_TABLE[Slot(Xor(c, Promote(signed, b)))], c >> 8) == ByteShift(Xor(c, b as Word))
  {
    SamePlace(signed, b, c);
    HighUnchanged(c, b);
    TableSum(Xor(c, b as Word), c >> 8);
  }

  lemma ByteIsEightBits(c: Word, b: Byte)
    ensures Serial(c, ByteBits(b)) == ByteShift(Xor(c, b as Word))
  {
    ByteFits(b as Word);
    SerialIsShifts(c, b as Word, 8);
  }

  lemma SerialFlat<T>(f: T -> seq<bool>, start: Word, c: Word, items: seq<T>, x: T)
    requires c == Serial(start, Flat(f, items))
    ensures Serial(start, Flat(f, items + [x])) == Serial(c, f(x))
  {
    FlatJoins(f, items, [x]);
    FlatOne(f, x);
    SerialJoins(start, Flat(f, items), f(x));
  }

  lemma OneMoreByte(c: Word, message: seq<Byte>, b: Byte, signed: bool)
    requires c == CrcOf(message)
    ensures |CRC_TABLE| == 256
    ensures Xor(CRC_TABLE[Slot(Xor(c, Promote(signed, b)))], c >> 8) == CrcOf(message + [b])
  {
    SerialFlat(ByteBits, ALL_ONES, c, message, b);
    ByteIsEightBits(c, b);
    TurnDivides(c, b, signed);
  }

  method Turn(crc: Word, b: Byte, signed: bool, ghost message: seq<Byte>) returns (next: Word)
    requires crc == CrcOf(message)
    ensures next == CrcOf(message + [b])
  {
    OneMoreByte(crc, message, b, signed);
    next := Xor(CRC_TABLE[Slot(Xor(crc, Promote(signed, b)))], crc >> 8);
  }

  /** The loop: for every buffer the result is the bit-serial remainder, whether plain char is signed or not. */
  method Crc32(buffer: seq<Byte>, size: nat, signed: bool) returns (crc: Word)
    requires size <= |buffer|
    ensures crc == CrcOf(buffer[..size])
  {
    crc := 0xFFFF_FFFF;
    for i := 0 to size
      invariant crc == CrcOf(buffer[..i])
    {
      crc := Turn(crc, buffer[i], signed, buffer[..i]);
      assert buffer[..i + 1] == buffer[..i] + [buffer[i]];
    }
  }

  // ---------------------------------------------------------------- section 8 of RFC 1952

  function Fold<T>(step: (Word, T) -> Word, c: Word, items: seq<T>): Word
    decreases |items|
  {
    if items == [] then c else Fold(step, step(c, items[0]), items[1..])
  }

  /** The update of RFC 1952 for one byte, the table entry computed instead of stored. */
  function GzipStep(c: Word, b: Byte): Word {
    Xor(ByteShift(Xor(c, b as Word) & 0xFF), c >> 8)
  }

  /** The CRC of RFC 1952: complemented before and after. */
  function GzipCrc(message: seq<Byte>): Word {
    Fold(GzipStep, 0 ^ ALL_ONES, message) ^ ALL_ONES
  }

  lemma GzipStepIsShift(c: Word, b: Byte)
    ensures GzipStep(c, b) == ByteShift(Xor(c, b as Word))
  {
    HighUnchanged(c, b);
    SplitsWith(Xor(c, b as Word), c >> 8);
  }

  lemma GzipStepIsSerial(c: Word, b: Byte)
    ensures GzipStep(c, b) == Serial(c, ByteBits(b))
  {
    GzipStepIsShift(c, b);
    ByteIsEightBits(c, b);
  }

  lemma {:induction false} FoldIsSerial<T(!new)>(step: (Word, T) -> Word, f: T -> seq<bool>, c: Word, items: seq<T>)
    requires forall r, x :: step(r, x) == Serial(r, f(x))
    ensures Fold(step, c, items) == Serial(c, Flat(f, items))
    decreases |items|
  {
    if items == [] {
    } else {
      SerialJoins(c, f(items[0]), Flat(f, items[1..]));
      FoldIsSerial(step, f, step(c, items[0]), items[1..]);
    }
  }

  /** Complementing the checksum gives the CRC of RFC 1952. */
  lemma ComplementIsGzip(message: seq<Byte>)
    ensures CrcOf(message) ^ ALL_ONES == GzipCrc(message)
  {
    forall r, x ensures GzipStep(r, x) == Serial(r, ByteBits(x)) {
      GzipStepIsSerial(r, x);
    }
    FoldIsSerial(GzipStep, ByteBits, ALL_ONES, message);
  }
}
