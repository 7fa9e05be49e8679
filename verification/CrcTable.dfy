/** The 256 entries of src/common/math/crc.cpp:15-270, each its own index divided for eight steps.

    Division is linear, so only sixteen low and sixteen high entries are compared with the definition; every
    other entry is the sum of one of each. */
module CrcTable {
  import opened Common
  import opened CrcDivision

  type Index = n: int | 0 <= n < 256

  type Nibble = k: int | 0 <= k < 16

  const ROW_0: seq<Word> := [
    0x00000000, 0x77073096, 0xEE0E612C, 0x990951BA,
    0x076DC419, 0x706AF48F, 0xE963A535, 0x9E6495A3,
    0x0EDB8832, 0x79DCB8A4, 0xE0D5E91E, 0x97D2D988,
    0x09B64C2B, 0x7EB17CBD, 0xE7B82D07, 0x90BF1D91]

  const ROW_1: seq<Word> := [
    0x1DB71064, 0x6AB020F2, 0xF3B97148, 0x84BE41DE,
    0x1ADAD47D, 0x6DDDE4EB, 0xF4D4B551, 0x83D385C7,
    0x136C9856, 0x646BA8C0, 0xFD62F97A, 0x8A65C9EC,
    0x14015C4F, 0x63066CD9, 0xFA0F3D63, 0x8D080DF5]

  const ROW_2: seq<Word> := [
    0x3B6E20C8, 0x4C69105E, 0xD56041E4, 0xA2677172,
    0x3C03E4D1, 0x4B04D447, 0xD20D85FD, 0xA50AB56B,
    0x35B5A8FA, 0x42B2986C, 0xDBBBC9D6, 0xACBCF940,
    0x32D86CE3, 0x45DF5C75, 0xDCD60DCF, 0xABD13D59]

  const ROW_3: seq<Word> := [
    0x26D930AC, 0x51DE003A, 0xC8D75180, 0xBFD06116,
    0x21B4F4B5, 0x56B3C423, 0xCFBA9599, 0xB8BDA50F,
    0x2802B89E, 0x5F058808, 0xC60CD9B2, 0xB10BE924,
    0x2F6F7C87, 0x58684C11, 0xC1611DAB, 0xB6662D3D]

  const ROW_4: seq<Word> := [
    0x76DC4190, 0x01DB7106, 0x98D220BC, 0xEFD5102A,
    0x71B18589, 0x06B6B51F, 0x9FBFE4A5, 0xE8B8D433,
    0x7807C9A2, 0x0F00F934, 0x9609A88E, 0xE10E9818,
    0x7F6A0DBB, 0x086D3D2D, 0x91646C97, 0xE6635C01]

  const ROW_5: seq<Word> := [
    0x6B6B51F4, 0x1C6C6162, 0x856530D8, 0xF262004E,
    0x6C0695ED, 0x1B01A57B, 0x8208F4C1, 0xF50FC457,
    0x65B0D9C6, 0x12B7E950, 0x8BBEB8EA, 0xFCB9887C,
    0x62DD1DDF, 0x15DA2D49, 0x8CD37CF3, 0xFBD44C65]

  const ROW_6: seq<Word> := [
    0x4DB26158, 0x3AB551CE, 0xA3BC0074, 0xD4BB30E2,
    0x4ADFA541, 0x3DD895D7, 0xA4D1C46D, 0xD3D6F4FB,
    0x4369E96A, 0x346ED9FC, 0xAD678846, 0xDA60B8D0,
    0x44042D73, 0x33031DE5, 0xAA0A4C5F, 0xDD0D7CC9]

  const ROW_7: seq<Word> := [
    0x5005713C, 0x270241AA, 0xBE0B1010, 0xC90C2086,
    0x5768B525, 0x206F85B3, 0xB966D409, 0xCE61E49F,
    0x5EDEF90E, 0x29D9C998, 0xB0D09822, 0xC7D7A8B4,
    0x59B33D17, 0x2EB40D81, 0xB7BD5C3B, 0xC0BA6CAD]

  const ROW_8: seq<Word> := [
    0xEDB88320, 0x9ABFB3B6, 0x03B6E20C, 0x74B1D29A,
    0xEAD54739, 0x9DD277AF, 0x04DB2615, 0x73DC1683,
    0xE3630B12, 0x94643B84, 0x0D6D6A3E, 0x7A6A5AA8,
    0xE40ECF0B, 0x9309FF9D, 0x0A00AE27, 0x7D079EB1]

  const ROW_9: seq<Word> := [
    0xF00F9344, 0x8708A3D2, 0x1E01F268, 0x6906C2FE,
    0xF762575D, 0x806567CB, 0x196C3671, 0x6E6B06E7,
    0xFED41B76, 0x89D32BE0, 0x10DA7A5A, 0x67DD4ACC,
    0xF9B9DF6F, 0x8EBEEFF9, 0x17B7BE43, 0x60B08ED5]

  const ROW_A: seq<Word> := [
    0xD6D6A3E8, 0xA1D1937E, 0x38D8C2C4, 0x4FDFF252,
    0xD1BB67F1, 0xA6BC5767, 0x3FB506DD, 0x48B2364B,
    0xD80D2BDA, 0xAF0A1B4C, 0x36034AF6, 0x41047A60,
    0xDF60EFC3, 0xA867DF55, 0x316E8EEF, 0x4669BE79]

  const ROW_B: seq<Word> := [
    0xCB61B38C, 0xBC66831A, 0x256FD2A0, 0x5268E236,
    0xCC0C7795, 0xBB0B4703, 0x220216B9, 0x5505262F,
    0xC5BA3BBE, 0xB2BD0B28, 0x2BB45A92, 0x5CB36A04,
    0xC2D7FFA7, 0xB5D0CF31, 0x2CD99E8B, 0x5BDEAE1D]

  const ROW_C: seq<Word> := [
    0x9B64C2B0, 0xEC63F226, 0x756AA39C, 0x026D930A,
    0x9C0906A9, 0xEB0E363F, 0x72076785, 0x05005713,
    0x95BF4A82, 0xE2B87A14, 0x7BB12BAE, 0x0CB61B38,
    0x92D28E9B, 0xE5D5BE0D, 0x7CDCEFB7, 0x0BDBDF21]

  const ROW_D: seq<Word> := [
    0x86D3D2D4, 0xF1D4E242, 0x68DDB3F8, 0x1FDA836E,
    0x81BE16CD, 0xF6B9265B, 0x6FB077E1, 0x18B74777,
    0x88085AE6, 0xFF0F6A70, 0x66063BCA, 0x11010B5C,
    0x8F659EFF, 0xF862AE69, 0x616BFFD3, 0x166CCF45]

  const ROW_E: seq<Word> := [
    0xA00AE278, 0xD70DD2EE, 0x4E048354, 0x3903B3C2,
    0xA7672661, 0xD06016F7, 0x4969474D, 0x3E6E77DB,
    0xAED16A4A, 0xD9D65ADC, 0x40DF0B66, 0x37D83BF0,
    0xA9BCAE53, 0xDEBB9EC5, 0x47B2CF7F, 0x30B5FFE9]

  const ROW_F: seq<Word> := [
    0xBDBDF21C, 0xCABAC28A, 0x53B39330, 0x24B4A3A6,
    0xBAD03605, 0xCDD70693, 0x54DE5729, 0x23D967BF,
    0xB3667A2E, 0xC4614AB8, 0x5D681B02, 0x2A6F2B94,
    0xB40BBE37, 0xC30C8EA1, 0x5A05DF1B, 0x2D02EF8D]

  const ROWS: seq<seq<Word>> :=
    [ROW_0, ROW_1, ROW_2, ROW_3, ROW_4, ROW_5, ROW_6, ROW_7,
     ROW_8, ROW_9, ROW_A, ROW_B, ROW_C, ROW_D, ROW_E, ROW_F]

  /** The first entry of each row. */
  const HEADS: seq<Word> := [
    0x00000000, 0x1DB71064, 0x3B6E20C8, 0x26D930AC,
    0x76DC4190, 0x6B6B51F4, 0x4DB26158, 0x5005713C,
    0xEDB88320, 0xF00F9344, 0xD6D6A3E8, 0xCB61B38C,
    0x9B64C2B0, 0x86D3D2D4, 0xA00AE278, 0xBDBDF21C]

  const CRC_TABLE: seq<Word> := Flatten(ROWS)

  function ByteShift(x: Word): Word {
    Shifts(x, 8)
  }

  /** The table that section 8 of RFC 1952 computes: entry n is n divided for eight steps. */
  function Entry(n: Index): Word {
    ByteShift(n as Word)
  }

  // ---------------------------------------------------------------- the low and the high entries

  predicate Ones(row: seq<Word>, f: Index -> Word) {
    row == [f(0), f(1), f(2), f(3), f(4), f(5), f(6), f(7), f(8), f(9), f(10), f(11), f(12), f(13), f(14), f(15)]
  }

  predicate Sixteens(row: seq<Word>, f: Index -> Word) {
    row == [f(0), f(16), f(32), f(48), f(64), f(80), f(96), f(112),
            f(128), f(144), f(160), f(176), f(192), f(208), f(224), f(240)]
  }

  lemma OnesAt(row: seq<Word>, f: Index -> Word, k: Nibble)
    requires Ones(row, f)
    ensures |row| == 16 && row[k] == f(k)
  {
  }

  lemma SixteensAt(row: seq<Word>, f: Index -> Word, r: Nibble)
    requires Sixteens(row, f)
    ensures |row| == 16 && row[r] == f(16 * r)
  {
  }

  lemma LowEntries()
    ensures Ones(ROW_0, Entry)
  {
  }

  lemma HighEntries()
    ensures Sixteens(HEADS, Entry)
  {
  }

  // ---------------------------------------------------------------- the others are sums

  /** Every entry of the row is its first entry plus an entry of the first row. */
  predicate IsSum(row: seq<Word>, op: (Word, Word) -> Word, h: Word, low: seq<Word>)
    requires |low| == 16
  {
    row == [op(h, low[0]), op(h, low[1]), op(h, low[2]), op(h, low[3]),
            op(h, low[4]), op(h, low[5]), op(h, low[6]), op(h, low[7]),
            op(h, low[8]), op(h, low[9]), op(h, low[10]), op(h, low[11]),
            op(h, low[12]), op(h, low[13]), op(h, low[14]), op(h, low[15])]
  }

  lemma SumAt(row: seq<Word>, op: (Word, Word) -> Word, h: Word, low: seq<Word>, k: Nibble)
    requires |low| == 16 && IsSum(row, op, h, low)
    ensures |row| == 16 && row[k] == op(h, low[k])
  {
  }

  lemma LowRows()
    ensures IsSum(ROW_0, Xor, HEADS[0], ROW_0)
    ensures IsSum(ROW_1, Xor, HEADS[1], ROW_0)
    ensures IsSum(ROW_2, Xor, HEADS[2], ROW_0)
    ensures IsSum(ROW_3, Xor, HEADS[3], ROW_0)
    ensures IsSum(ROW_4, Xor, HEADS[4], ROW_0)
    ensures IsSum(ROW_5, Xor, HEADS[5], ROW_0)
    ensures IsSum(ROW_6, Xor, HEADS[6], ROW_0)
    ensures IsSum(ROW_7, Xor, HEADS[7], ROW_0)
  {
  }

  lemma HighRows()
    ensures IsSum(ROW_8, Xor, HEADS[8], ROW_0)
    ensures IsSum(ROW_9, Xor, HEADS[9], ROW_0)
    ensures IsSum(ROW_A, Xor, HEADS[10], ROW_0)
    ensures IsSum(ROW_B, Xor, HEADS[11], ROW_0)
    ensures IsSum(ROW_C, Xor, HEADS[12], ROW_0)
    ensures IsSum(ROW_D, Xor, HEADS[13], ROW_0)
    ensures IsSum(ROW_E, Xor, HEADS[14], ROW_0)
    ensures IsSum(ROW_F, Xor, HEADS[15], ROW_0)
  {
  }

  lemma PickRow(op: (Word, Word) -> Word, r: Nibble)
    requires IsSum(ROW_0, op, HEADS[0], ROW_0)
    requires IsSum(ROW_1, op, HEADS[1], ROW_0)
    requires IsSum(ROW_2, op, HEADS[2], ROW_0)
    requires IsSum(ROW_3, op, HEADS[3], ROW_0)
    requires IsSum(ROW_4, op, HEADS[4], ROW_0)
    requires IsSum(ROW_5, op, HEADS[5], ROW_0)
    requires IsSum(ROW_6, op, HEADS[6], ROW_0)
    requires IsSum(ROW_7, op, HEADS[7], ROW_0)
    requires IsSum(ROW_8, op, HEADS[8], ROW_0)
    requires IsSum(ROW_9, op, HEADS[9], ROW_0)
    requires IsSum(ROW_A, op, HEADS[10], ROW_0)
    requires IsSum(ROW_B, op, HEADS[11], ROW_0)
    requires IsSum(ROW_C, op, HEADS[12], ROW_0)
    requires IsSum(ROW_D, op, HEADS[13], ROW_0)
    requires IsSum(ROW_E, op, HEADS[14], ROW_0)
    requires IsSum(ROW_F, op, HEADS[15], ROW_0)
    ensures IsSum(ROWS[r], op, HEADS[r], ROW_0)
  {
  }

  lemma RowIsSum(r: Nibble)
    ensures IsSum(ROWS[r], Xor, HEADS[r], ROW_0)
  {
    LowRows();
    HighRows();
    PickRow(Xor, r);
  }

  // ---------------------------------------------------------------- the whole table

  lemma {:induction false} FlattenAt(rows: seq<seq<Word>>, r: nat, k: Nibble)
    requires r < |rows| && forall i | 0 <= i < |rows| :: |rows[i]| == 16
    ensures |Flatten(rows)| == 16 * |rows| && Flatten(rows)[16 * r + k] == rows[r][k]
    decreases |rows|
  {
    var rest := rows[1..];
    if r > 0 {
      FlattenAt(rest, r - 1, k);
    } else if rest != [] {
      FlattenAt(rest, 0, k);
    } else {
      assert Flatten(rest) == [];
    }
  }

  lemma TableAt(r: Nibble, k: Nibble)
    ensures |CRC_TABLE| == 256 && |ROWS[r]| == 16 && CRC_TABLE[16 * r + k] == ROWS[r][k]
  {
    FlattenAt(ROWS, r, k);
  }

  lemma HighAt(r: Nibble)
    ensures HEADS[r] == Entry(16 * r)
  {
    HighEntries();
    SixteensAt(HEADS, Entry, r);
  }

  lemma LowAt(k: Nibble)
    ensures ROW_0[k] == Entry(k)
  {
    LowEntries();
    OnesAt(ROW_0, Entry, k);
  }

  lemma RowAt(n: Index, r: Nibble, k: Nibble)
    requires n == 16 * r + k
    ensures |CRC_TABLE| == 256 && CRC_TABLE[n] == Xor(HEADS[r], ROW_0[k])
  {
    TableAt(r, k);
    RowIsSum(r);
    SumAt(ROWS[r], Xor, HEADS[r], ROW_0, k);
  }

  lemma EntryAt(n: Index, r: Nibble, k: Nibble)
    requires n == 16 * r + k
    ensures |CRC_TABLE| == 256 && CRC_TABLE[n] == Xor(Entry(16 * r), Entry(k))
  {
    RowAt(n, r, k);
    HighAt(r);
    LowAt(k);
  }

  lemma ThereAndBack(x: Word)
    ensures (x as int) as Word == x
  {
  }

  lemma NibbleInts(x: Word)
    requires x <= 0xFF
    ensures (x & 0xF) as int == (x as int) % 16 && (x & 0xF0) as int == 16 * ((x as int) / 16)
  {
  }

  lemma NibbleSum(x: Word)
    requires x <= 0xFF
    ensures x == Xor(x & 0xF0, x & 0xF)
  {
  }

  /** The entry of a byte is the sum of those of its halves, and so is the division. */
  lemma HalvesAt(f: Word -> Word, x: Word, r: Nibble, k: Nibble)
    requires (16 * r) as Word == x & 0xF0 && k as Word == x & 0xF
    requires f(x) == Xor(f(x & 0xF0), f(x & 0xF))
    ensures f(x) == Xor(f((16 * r) as Word), f(k as Word))
  {
  }

  lemma LowNibble(x: Word) returns (k: Nibble)
    requires x <= 0xFF
    ensures k == (x & 0xF) as int && k as Word == x & 0xF
  {
    NibbleInts(x);
    k := (x & 0xF) as int;
    ThereAndBack(x & 0xF);
  }

  lemma HighNibble(x: Word) returns (r: Nibble)
    requires x <= 0xFF
    ensures 16 * r == (x & 0xF0) as int && (16 * r) as Word == x & 0xF0
  {
    NibbleInts(x);
    r := (x as int) / 16;
    ThereAndBack(x & 0xF0);
  }

  lemma Nibbles(x: Word) returns (r: Nibble, k: Nibble)
    requires x <= 0xFF
    ensures x as int == 16 * r + k && (16 * r) as Word == x & 0xF0 && k as Word == x & 0xF
  {
    r := HighNibble(x);
    k := LowNibble(x);
    NibbleInts(x);
  }

  lemma ByteShiftSum(x: Word)
    requires x <= 0xFF
    ensures ByteShift(x) == Xor(ByteShift(x & 0xF0), ByteShift(x & 0xF))
  {
    NibbleSum(x);
    ShiftsLinear(x & 0xF0, x & 0xF, 8);
  }

  lemma EntrySplits(x: Word, r: Nibble, k: Nibble)
    requires x <= 0xFF && (16 * r) as Word == x & 0xF0 && k as Word == x & 0xF
    ensures Xor(Entry(16 * r), Entry(k)) == ByteShift(x)
  {
    ByteShiftSum(x);
    HalvesAt(ByteShift, x, r, k);
  }

  /** Every entry of the table is its own index divided for eight steps. */
  lemma TableIsShifts(x: Word)
    requires x <= 0xFF
    ensures |CRC_TABLE| == 256 && CRC_TABLE[x as int] == ByteShift(x)
  {
    var r, k := Nibbles(x);
    EntryAt(x as int, r, k);
    EntrySplits(x, r, k);
  }
}
