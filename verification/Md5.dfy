/** The streaming MD5 context of RFC 1321: a partial block, a 64-bit count kept as two 32-bit words,
    and the padding. The compression function is a parameter: everything holds for any of them. */
module Md5 {
  import opened Common

  const TWO29: int := 0x2000_0000
  const TWO32: int := 0x1_0000_0000
  const TWO64: int := 0x1_0000_0000_0000_0000

  type Byte = x: int | 0 <= x < 256
  type Word = x: int | 0 <= x < TWO32

  datatype State = ABCD(a: Word, b: Word, c: Word, d: Word)

  const INITIAL := ABCD(0x67452301, 0xefcdab89, 0x98badcfe, 0x10325476)

  type Transform = (State, seq<Byte>) -> State

  // ---------------------------------------------------------------- the reference: pad, then fold

  function FoldBlocks(f: Transform, s: State, m: seq<Byte>): State
    requires |m| % 64 == 0
    decreases |m|
  {
    if m == [] then s else FoldBlocks(f, f(s, m[..64]), m[64..])
  }

  /** Section 3.1 of RFC 1321: at least one byte, up to 56 modulo 64. */
  function PadLength(n: nat): (k: nat)
    ensures 1 <= k <= 64 && (n + k) % 64 == 56 && (n + k + 8) % 64 == 0
  {
    1 + (119 - n % 64) % 64
  }

  lemma PadLengthBySpace(n: nat)
    ensures PadLength(n) == if n % 64 < 56 then 56 - n % 64 else 120 - n % 64
  {
  }

  function Zeros(n: nat): (z: seq<Byte>)
    ensures |z| == n && forall i | 0 <= i < n :: z[i] == 0
  {
    seq(n, _ => 0)
  }

  function Padding(k: nat): (p: seq<Byte>)
    requires k > 0
    ensures |p| == k
  {
    [0x80] + Zeros(k - 1)
  }

  /** The low-order byte first. */
  function LittleEndian(x: nat, bytes: nat): (r: seq<Byte>)
    ensures |r| == bytes
    decreases bytes, x
  {
    if bytes == 0 then [] else [x % 256] + LittleEndian(x / 256, bytes - 1)
  }

  /** Sections 3.1 and 3.2 of RFC 1321. */
  function Padded(m: seq<Byte>): (p: seq<Byte>)
    ensures |p| % 64 == 0
  {
    m + Padding(PadLength(|m|)) + LittleEndian(8 * |m| % TWO64, 8)
  }

  function EncodeState(s: State): seq<Byte> {
    LittleEndian(s.a, 4) + LittleEndian(s.b, 4) + LittleEndian(s.c, 4) + LittleEndian(s.d, 4)
  }

  function Digest(f: Transform, m: seq<Byte>): seq<Byte> {
    EncodeState(FoldBlocks(f, INITIAL, Padded(m)))
  }

  lemma {:induction false} FoldAppend(f: Transform, s: State, m: seq<Byte>, n: seq<Byte>)
    requires |m| % 64 == 0 && |n| % 64 == 0
    ensures |m + n| % 64 == 0
    ensures FoldBlocks(f, s, m + n) == FoldBlocks(f, FoldBlocks(f, s, m), n)
    decreases |m|
  {
    if m == [] {
      assert m + n == n;
    } else {
      assert (m + n)[..64] == m[..64] && (m + n)[64..] == m[64..] + n;
      FoldAppend(f, f(s, m[..64]), m[64..], n);
    }
  }

  lemma FoldOne(f: Transform, s: State, m: seq<Byte>, block: seq<Byte>)
    requires |m| % 64 == 0 && |block| == 64
    ensures |m + block| % 64 == 0
    ensures FoldBlocks(f, s, m + block) == f(FoldBlocks(f, s, m), block)
  {
    FoldAppend(f, s, m, block);
    assert block[..64] == block && block[64..] == [];
  }

  // ---------------------------------------------------------------- words and bytes

  function WordBytes(w: Word): (r: seq<Byte>)
    ensures |r| == 4
  {
    [w % 256, (w / 0x100) % 256, (w / 0x1_0000) % 256, (w / 0x100_0000) % 256]
  }

  function BytesWord(b: seq<Byte>): Word
    requires |b| == 4
  {
    var b0: int, b1: int, b2: int, b3: int := b[0], b[1], b[2], b[3];
    b0 + 0x100 * b1 + 0x1_0000 * b2 + 0x100_0000 * b3
  }

  lemma NestedQuotients(w: nat)
    ensures w / 0x100 / 0x100 == w / 0x1_0000 && w / 0x1_0000 / 0x100 == w / 0x100_0000
  {
  }

  lemma DigitsAddUp(w: int, q1: int, q2: int, q3: int, r0: int, r1: int, r2: int)
    requires w == 0x100 * q1 + r0 && q1 == 0x100 * q2 + r1 && q2 == 0x100 * q3 + r2
    ensures w == r0 + 0x100 * r1 + 0x1_0000 * r2 + 0x100_0000 * q3
  {
  }

  lemma TopDigit(w: Word)
    ensures (w / 0x100_0000) % 256 == w / 0x100_0000
  {
  }

  /** A word is the sum of its four bytes. */
  lemma SplitWord(w: Word)
    ensures w == w % 256 + 0x100 * ((w / 0x100) % 256) + 0x1_0000 * ((w / 0x1_0000) % 256)
            + 0x100_0000 * ((w / 0x100_0000) % 256)
  {
    var q1, q2, q3 := w / 0x100, w / 0x1_0000, w / 0x100_0000;
    NestedQuotients(w);
    TopDigit(w);
    DigitsAddUp(w, q1, q2, q3, w % 256, q1 % 256, q2 % 256);
  }

  lemma ByteDigits(w: int, b0: Byte, b1: Byte, b2: Byte, b3: Byte)
    requires w == b0 + 0x100 * b1 + 0x1_0000 * b2 + 0x100_0000 * b3
    ensures w % 256 == b0 && (w / 0x100) % 256 == b1 && (w / 0x1_0000) % 256 == b2 && (w / 0x100_0000) % 256 == b3
  {
    assert w / 0x100 == b1 + 0x100 * b2 + 0x1_0000 * b3;
    assert w / 0x1_0000 == b2 + 0x100 * b3;
    assert w / 0x100_0000 == b3;
  }

  lemma WordRoundTrip(w: Word)
    ensures BytesWord(WordBytes(w)) == w
  {
    SplitWord(w);
  }

  lemma BytesRoundTrip(b: seq<Byte>)
    requires |b| == 4
    ensures WordBytes(BytesWord(b)) == b
  {
    ByteDigits(BytesWord(b), b[0], b[1], b[2], b[3]);
  }

  function EncodeWords(input: seq<Word>): (r: seq<Byte>)
    ensures |r| == 4 * |input|
  {
    if input == [] then [] else EncodeWords(input[..|input| - 1]) + WordBytes(input[|input| - 1])
  }

  function DecodeWords(input: seq<Byte>): (r: seq<Word>)
    ensures 4 * |r| <= |input| < 4 * |r| + 4
  {
    if |input| < 4 then [] else DecodeWords(input[..|input| - 4]) + [BytesWord(input[|input| - 4..])]
  }

  lemma {:induction false} DecodeAfterEncode(words: seq<Word>)
    ensures DecodeWords(EncodeWords(words)) == words
  {
    if words == [] {
    } else {
      var init, w := words[..|words| - 1], words[|words| - 1];
      DecodeAfterEncode(init);
      WordRoundTrip(w);
      var e := EncodeWords(words);
      assert e[..|e| - 4] == EncodeWords(init) && e[|e| - 4..] == WordBytes(w);
    }
  }

  lemma EncodeLast(words: seq<Word>, w: Word)
    ensures EncodeWords(words + [w]) == EncodeWords(words) + WordBytes(w)
  {
    assert (words + [w])[..|words|] == words;
  }

  lemma {:induction false} EncodeAfterDecode(bytes: seq<Byte>)
    requires |bytes| % 4 == 0
    ensures EncodeWords(DecodeWords(bytes)) == bytes
  {
    if bytes == [] {
    } else {
      var n := |bytes| - 4;
      EncodeAfterDecode(bytes[..n]);
      assert WordBytes(BytesWord(bytes[n..])) == bytes[n..] by { BytesRoundTrip(bytes[n..]); }
      EncodeLast(DecodeWords(bytes[..n]), BytesWord(bytes[n..]));
      assert bytes == bytes[..n] + bytes[n..];
    }
  }

  method Encode(input: seq<Word>) returns (output: seq<Byte>)
    ensures output == EncodeWords(input)
  {
    output := [];
    for i := 0 to |input|
      invariant output == EncodeWords(input[..i])
    {
      var w := input[i];
      output := output + [w % 256, (w / 0x100) % 256, (w / 0x1_0000) % 256, (w / 0x100_0000) % 256];
      assert input[..i + 1][..i] == input[..i];
    }
    assert input[..|input|] == input;
  }

  lemma DecodeStep(input: seq<Byte>, j: nat)
    requires j + 4 <= |input|
    ensures DecodeWords(input[..j + 4]) == DecodeWords(input[..j]) + [BytesWord(input[j..j + 4])]
  {
    var t := input[..j + 4];
    assert t[..|t| - 4] == input[..j] && t[|t| - 4..] == input[j..j + 4];
  }

  method Decode(input: seq<Byte>) returns (output: seq<Word>)
    requires |input| % 4 == 0
    ensures output == DecodeWords(input)
  {
    output := [];
    var i, j := 0, 0;
    ghost var n := |input| / 4;
    assert |input| == 4 * n;
    while j < |input|
      invariant j == 4 * i && i <= n
      invariant output == DecodeWords(input[..j])
      decreases n - i
    {
      DecodeStep(input, j);
      output := output + [BytesWord(input[j..j + 4])];
      i, j := i + 1, j + 4;
    }
    assert input[..j] == input;
  }

  /** The two words of the count, low word first, are the eight bytes of the number. */
  lemma CountBytes(low: Word, high: Word)
    ensures EncodeWords([low, high]) == LittleEndian(high * TWO32 + low, 8)
  {
    PeelFour(high, low, 8);
    FourBytes(high);
    assert [low, high][..1] == [low];
    assert EncodeWords([low]) == WordBytes(low) by { assert [low][..0] == []; assert EncodeWords([]) == []; }
  }

  lemma PeelOne(x: nat, h: nat, l: Byte, bytes: nat)
    requires bytes >= 1 && x == h * 256 + l
    ensures LittleEndian(x, bytes) == [l] + LittleEndian(h, bytes - 1)
  {
    assert x % 256 == l && x / 256 == h;
  }

  lemma PeelTwo(x: nat, h1: nat, h2: nat, b0: Byte, b1: Byte, bytes: nat)
    requires bytes >= 2 && x == h1 * 256 + b0 && h1 == h2 * 256 + b1
    ensures LittleEndian(x, bytes) == [b0, b1] + LittleEndian(h2, bytes - 2)
  {
    PeelOne(x, h1, b0, bytes);
    PeelOne(h1, h2, b1, bytes - 1);
  }

  lemma PeelBytes(x: nat, h: nat, b0: Byte, b1: Byte, b2: Byte, b3: Byte, bytes: nat)
    requires bytes >= 4 && x == h * TWO32 + b0 + 0x100 * b1 + 0x1_0000 * b2 + 0x100_0000 * b3
    ensures LittleEndian(x, bytes) == [b0, b1, b2, b3] + LittleEndian(h, bytes - 4)
  {
    var h3 := h * 256 + b3;
    var h2 := h3 * 256 + b2;
    PeelTwo(x, h2 * 256 + b1, h2, b0, b1, bytes);
    PeelTwo(h2, h3, h, b2, b3, bytes - 2);
  }

  lemma PeelFour(h: nat, l: Word, bytes: nat)
    requires bytes >= 4
    ensures LittleEndian(h * TWO32 + l, bytes) == WordBytes(l) + LittleEndian(h, bytes - 4)
  {
    SplitWord(l);
    PeelBytes(h * TWO32 + l, h, l % 256, (l / 0x100) % 256, (l / 0x1_0000) % 256, (l / 0x100_0000) % 256, bytes);
  }

  lemma FourBytes(w: Word)
    ensures LittleEndian(w, 4) == WordBytes(w)
  {
    PeelFour(0, w, 4);
  }

  // ---------------------------------------------------------------- the count

  lemma ModTwo64(x: int, q: int, r: int)
    requires 0 <= r < TWO64 && x == q * TWO64 + r
    ensures x % TWO64 == r
  {
  }

  lemma Mod64(n: int, k: int, j: int)
    requires n == 64 * k + j
    ensures n % 64 == j % 64
  {
  }

  /** The low word after adding a byte length, and whether that carries, found by comparison. */
  function LowCount(c0: Word, len: Word): Word {
    (c0 + 8 * len % TWO32) % TWO32
  }

  predicate Carries(c0: Word, len: Word) {
    LowCount(c0, len) < 8 * len % TWO32
  }

  function HighCount(c0: Word, c1: Word, len: Word): Word {
    ((c1 + (if Carries(c0, len) then 1 else 0)) % TWO32 + len / TWO29) % TWO32
  }

  lemma LowSum(c0: Word, len: Word)
    ensures c0 + 8 * len == LowCount(c0, len) + ((if Carries(c0, len) then 1 else 0) + len / TWO29) * TWO32
  {
    var low, high := 8 * len % TWO32, len / TWO29;
    assert 8 * len == high * TWO32 + low;
  }

  lemma HighSum(c0: Word, c1: Word, len: Word) returns (k: int)
    ensures c1 + (if Carries(c0, len) then 1 else 0) + len / TWO29 == HighCount(c0, c1, len) + k * TWO32
  {
    var low := c1 + if Carries(c0, len) then 1 else 0;
    var high := low % TWO32 + len / TWO29;
    k := low / TWO32 + high / TWO32;
    assert low == low / TWO32 * TWO32 + low % TWO32 && high == high / TWO32 * TWO32 + high % TWO32;
  }

  /** The carry found by comparison is the true carry. */
  lemma CountStep(c0: Word, c1: Word, n: nat, len: Word)
    requires c1 * TWO32 + c0 == 8 * n % TWO64
    ensures HighCount(c0, c1, len) * TWO32 + LowCount(c0, len) == 8 * (n + len) % TWO64
  {
    LowSum(c0, len);
    var k := HighSum(c0, c1, len);
    var q := 8 * n / TWO64;
    CountAddsUp(n, len, c0, c1, LowCount(c0, len), HighCount(c0, c1, len),
                (if Carries(c0, len) then 1 else 0) + len / TWO29, k, q);
  }

  lemma CountAddsUp(n: nat, len: nat, c0: int, c1: int, low: Word, high: Word, up: int, k: int, q: int)
    requires 8 * n == q * TWO64 + c1 * TWO32 + c0
    requires c0 + 8 * len == low + up * TWO32 && c1 + up == high + k * TWO32
    ensures high * TWO32 + low == 8 * (n + len) % TWO64
  {
    ModTwo64(8 * (n + len), q + k, high * TWO32 + low);
  }

  /** The carry found by comparing the wrapped sum. */
  method AddLength(c0: Word, c1: Word, len: Word) returns (low: Word, high: Word)
    ensures low == LowCount(c0, len) && high == HighCount(c0, c1, len)
  {
    var added := 8 * len % TWO32;
    low, high := (c0 + added) % TWO32, c1;
    if low < added {
      high := (high + 1) % TWO32;
    }
    high := (high + len / TWO29) % TWO32;
  }

  lemma IndexOfCount(c0: Word, c1: Word, n: nat)
    requires c1 * TWO32 + c0 == 8 * n % TWO64
    ensures c0 / 8 % 64 == n % 64
  {
    var q := 8 * n / TWO64;
    assert 8 * n == q * TWO64 + c1 * TWO32 + c0;
    var j := n - q * 0x2000_0000_0000_0000 - c1 * TWO29;
    assert c0 == 8 * j;
    Mod64(n, q * 0x80_0000_0000_0000 + c1 * 0x80_0000, j);
  }

  // ---------------------------------------------------------------- the wrap-around of the block loop

  /** The value of the loop index after the last whole block. */
  function LastIndex(index: nat, len: nat): nat
    requires index < 64 && 64 - index <= len
  {
    len - (len - (64 - index)) % 64
  }

  /** The loop test i + 63 < len is computed in 32 bits; it is right as long as this holds. */
  predicate NoWrap(index: nat, len: nat)
    requires index < 64
  {
    len < 64 - index || LastIndex(index, len) + 63 < TWO32
  }

  lemma ShortIsSafe(index: nat, len: nat)
    requires index < 64 && len <= TWO32 - 64
    ensures NoWrap(index, len)
  {
  }

  /** Exactly then: after the last whole block the computed test fails, as it should, if and only if the
      condition holds; where it does not, the test lets one block too many through, past the end of the input. */
  lemma WrapExactly(index: nat, len: Word)
    requires index < 64 && 64 - index <= len
    ensures NoWrap(index, len) <==> (LastIndex(index, len) + 63) % TWO32 >= len
    ensures LastIndex(index, len) <= len < LastIndex(index, len) + 64
  {
    var i := LastIndex(index, len);
    assert len - 63 <= i <= len;
    if i + 63 >= TWO32 { assert (i + 63) % TWO32 == i + 63 - TWO32; }
  }

  /** There are such lengths: one byte buffered and the longest input there is. */
  lemma WrapExample()
    ensures !NoWrap(1, TWO32 - 1)
  {
  }

  // ---------------------------------------------------------------- absorbing a message

  function Whole(n: nat): nat {
    n - n % 64
  }

  /** The state has absorbed the whole blocks of the message and the buffer starts with the rest. */
  ghost predicate Absorbed(f: Transform, state: State, buffer: seq<Byte>, m: seq<Byte>) {
    && |buffer| == 64
    && state == FoldBlocks(f, INITIAL, m[..Whole(|m|)])
    && buffer[..|m| % 64] == m[Whole(|m|)..]
  }

  lemma Rejoin(before: seq<Byte>, input: seq<Byte>, i: nat)
    requires i <= |input|
    ensures before + input[..i] + input[i..] == before + input
  {
  }

  /** What is left of the input fits behind what the buffer holds. */
  lemma KeepRest(f: Transform, state: State, buffer: seq<Byte>, buffer': seq<Byte>, m: seq<Byte>, input: seq<Byte>)
    requires Absorbed(f, state, buffer, m) && |m| % 64 + |input| < 64
    requires |buffer'| == 64 && buffer'[..|m| % 64 + |input|] == buffer[..|m| % 64] + input
    ensures Absorbed(f, state, buffer', m + input)
  {
    var k, n := Whole(|m|), |m + input|;
    assert Whole(n) == k && n % 64 == |m| % 64 + |input|;
    assert (m + input)[..k] == m[..k];
    assert (m + input)[k..] == m[k..] + input;
  }

  /** The input completes the block in the buffer. */
  lemma FillBlock(f: Transform, state: State, buffer: seq<Byte>, buffer': seq<Byte>, m: seq<Byte>, input: seq<Byte>)
    requires Absorbed(f, state, buffer, m) && |m| % 64 + |input| == 64
    requires buffer' == buffer[..|m| % 64] + input
    ensures |m + input| % 64 == 0
    ensures Absorbed(f, f(state, buffer'), buffer', m + input)
  {
    var k, n := Whole(|m|), |m + input|;
    assert n == k + 64 && n % 64 == 0;
    FoldOne(f, INITIAL, m[..k], buffer');
    assert m[..k] + buffer' == m + input == (m + input)[..n];
  }

  /** A whole block straight from the input. */
  lemma TakeBlock(f: Transform, state: State, buffer: seq<Byte>, m: seq<Byte>, block: seq<Byte>)
    requires Absorbed(f, state, buffer, m) && |m| % 64 == 0 && |block| == 64
    ensures |m + block| % 64 == 0
    ensures Absorbed(f, f(state, block), buffer, m + block)
  {
    var n := |m + block|;
    FoldOne(f, INITIAL, m, block);
    assert m[..|m|] == m && (m + block)[..n] == m + block;
  }

  // ---------------------------------------------------------------- the context

  class Context {
    const transform: Transform
    var state: State
    var count0: Word
    var count1: Word
    const buffer: array<Byte>
    ghost var fed: seq<Byte>

    ghost predicate Counts()
      reads this
    {
      count1 * TWO32 + count0 == 8 * |fed| % TWO64
    }

    ghost predicate Valid()
      reads this, buffer
    {
      Counts() && Absorbed(transform, state, buffer[..], fed)
    }

    constructor (transform: Transform)
      ensures Valid() && fed == [] && this.transform == transform && fresh(buffer)
    {
      this.transform := transform;
      state, count0, count1 := INITIAL, 0, 0;
      buffer := new Byte[64];
      fed := [];
    }

    method CopyIn(at: nat, data: seq<Byte>)
      requires at + |data| <= buffer.Length
      modifies buffer
      ensures buffer[..at + |data|] == old(buffer[..at]) + data
    {
      for i := 0 to |data|
        invariant buffer[..at + i] == old(buffer[..at]) + data[..i]
      {
        buffer[at + i] := data[i];
      }
    }

    method AddCount(len: Word)
      requires Counts()
      modifies this`count0, this`count1
      ensures count1 * TWO32 + count0 == 8 * (|fed| + len) % TWO64
    {
      CountStep(count0, count1, |fed|, len);
      count0, count1 := AddLength(count0, count1, len);
    }

    /** The block loop, with its 32-bit test. */
    method TakeBlocks(input: seq<Byte>, start: nat) returns (i: nat)
      requires |input| < TWO32 && 1 <= start <= 64 && start <= |input| && NoWrap(64 - start, |input|)
      requires Absorbed(transform, state, buffer[..], fed) && |fed| % 64 == 0
      modifies this`state, this`fed
      ensures i == LastIndex(64 - start, |input|)
      ensures fed == old(fed) + input[start..i] && |fed| % 64 == 0
      ensures Absorbed(transform, state, buffer[..], fed)
    {
      i := start;
      ghost var blocks := BlocksLeft(64 - start, |input|);
      ghost var n := 0;
      while (i + 63) % TWO32 < |input|
        invariant n <= blocks && i == start + 64 * n <= |input|
        invariant fed == old(fed) + input[start..i] && |fed| % 64 == 0
        invariant Absorbed(transform, state, buffer[..], fed)
        decreases blocks - n
      {
        TestIsRight(start, |input|, blocks, n);
        TakeOne(input, start, i, old(fed));
        i := (i + 64) % TWO32;
        n := n + 1;
      }
      TestIsRight(start, |input|, blocks, n);
    }

    method TakeOne(input: seq<Byte>, ghost start: nat, i: nat, ghost before: seq<Byte>)
      requires start <= i && i + 64 <= |input| && fed == before + input[start..i]
      requires Absorbed(transform, state, buffer[..], fed) && |fed| % 64 == 0
      modifies this`state, this`fed
      ensures fed == before + input[start..i + 64] && |fed| % 64 == 0
      ensures Absorbed(transform, state, buffer[..], fed)
    {
      var block := input[i..i + 64];
      TakeBlock(transform, state, buffer[..], fed, block);
      assert input[start..i + 64] == input[start..i] + block;
      state := transform(state, block);
      fed := fed + block;
    }

    /** The part of an update that transforms: complete the buffered block, then take whole blocks. */
    method FillAndTake(input: seq<Byte>, index: nat) returns (i: nat)
      requires Absorbed(transform, state, buffer[..], fed) && index == |fed| % 64
      requires 64 - index <= |input| < TWO32 && NoWrap(index, |input|)
      modifies this`state, this`fed, buffer
      ensures i <= |input| < i + 64 && fed == old(fed) + input[..i] && |fed| % 64 == 0
      ensures Absorbed(transform, state, buffer[..], fed)
    {
      var partLen := 64 - index;
      ghost var before := buffer[..];
      CopyIn(index, input[..partLen]);
      assert buffer[..] == buffer[..64];
      FillBlock(transform, state, before, buffer[..], fed, input[..partLen]);
      state := transform(state, buffer[..]);
      fed := fed + input[..partLen];
      i := TakeBlocks(input, partLen);
      assert input[..partLen] + input[partLen..i] == input[..i];
    }

    method Append(rest: seq<Byte>, index: nat)
      requires Absorbed(transform, state, buffer[..], fed) && index == |fed| % 64 && index + |rest| < 64
      modifies this`fed, buffer
      ensures Absorbed(transform, state, buffer[..], fed) && fed == old(fed) + rest
    {
      ghost var before := buffer[..];
      CopyIn(index, rest);
      assert buffer[..][..index + |rest|] == buffer[..index + |rest|];
      KeepRest(transform, state, before, buffer[..], fed, rest);
      fed := fed + rest;
    }

    /** The part of an update behind the count. */
    method Absorb(input: seq<Byte>, index: nat)
      requires Absorbed(transform, state, buffer[..], fed) && index == |fed| % 64
      requires |input| < TWO32 && NoWrap(index, |input|)
      modifies this`state, this`fed, buffer
      ensures Absorbed(transform, state, buffer[..], fed) && fed == old(fed) + input
    {
      if |input| < 64 - index {
        Append(input, index);
      } else {
        ghost var before := fed;
        var i := FillAndTake(input, index);
        Rejoin(before, input, i);
        Append(input[i..], 0);
      }
    }

    /** Feeding bytes: the context stays the context of everything fed so far. */
    method Update(input: seq<Byte>)
      requires Valid() && |input| < TWO32 && NoWrap(|fed| % 64, |input|)
      modifies this, buffer
      ensures Valid() && fed == old(fed) + input
    {
      IndexOfCount(count0, count1, |fed|);
      var index := count0 / 8 % 64;
      AddCount(|input|);
      Absorb(input, index);
    }

    method PadTo56()
      requires Valid()
      modifies this, buffer
      ensures Valid() && fed == old(fed) + Padding(PadLength(|old(fed)|))
    {
      IndexOfCount(count0, count1, |fed|);
      var index := count0 / 8 % 64;
      PadLengthBySpace(|fed|);
      var padLen := if index < 56 then 56 - index else 120 - index;
      ShortIsSafe(|fed| % 64, padLen);
      Update(Padding(padLen));
    }

    method CountBits() returns (bits: seq<Byte>)
      requires Counts()
      ensures bits == LittleEndian(8 * |fed| % TWO64, 8)
    {
      CountBytes(count0, count1);
      bits := Encode([count0, count1]);
    }

    /** Padding and length. */
    method Finish()
      requires Valid()
      modifies this, buffer
      ensures state == FoldBlocks(transform, INITIAL, Padded(old(fed))) && buffer.Length == 64
    {
      var bits := CountBits();
      PadTo56();
      ShortIsSafe(|fed| % 64, |bits|);
      Update(bits);
      assert fed == Padded(old(fed));
      assert fed[..|fed|] == fed;
    }

    /** The digest, after which everything is zeroed. */
    method Final() returns (digest: seq<Byte>)
      requires Valid()
      modifies this, buffer
      ensures digest == Digest(transform, old(fed))
      ensures state == ABCD(0, 0, 0, 0) && count0 == count1 == 0 && buffer[..] == Zeros(64)
    {
      Finish();
      digest := Encode([state.a, state.b, state.c, state.d]);
      FourWords(state);
      state, count0, count1 := ABCD(0, 0, 0, 0), 0, 0;
      var zeros := Zeros(64);
      CopyIn(0, zeros);
      assert buffer[..] == buffer[..64] == zeros;
    }
  }

  lemma BlocksLeft(index: nat, len: nat) returns (blocks: nat)
    requires index < 64 && 64 - index <= len
    ensures LastIndex(index, len) == 64 - index + 64 * blocks && len < LastIndex(index, len) + 64
  {
    blocks := (len - (64 - index)) / 64;
  }

  /** Without wrap-around the loop test says whether a whole block is left. */
  lemma TestIsRight(start: nat, len: nat, blocks: nat, n: nat)
    requires 1 <= start <= 64 && start <= len < TWO32 && NoWrap(64 - start, len)
    requires LastIndex(64 - start, len) == start + 64 * blocks && len < start + 64 * blocks + 64 && n <= blocks
    ensures start + 64 * n + 63 < TWO32
    ensures (start + 64 * n + 63) % TWO32 < len <==> n < blocks
    ensures n < blocks ==> start + 64 * n + 64 <= len
  {
  }

  lemma FourWords(s: State)
    ensures EncodeWords([s.a, s.b, s.c, s.d]) == EncodeState(s)
  {
    FourBytes(s.a);
    FourBytes(s.b);
    FourBytes(s.c);
    FourBytes(s.d);
    assert [s.a, s.b, s.c, s.d][..3] == [s.a, s.b, s.c] && [s.a, s.b, s.c][..2] == [s.a, s.b];
    assert [s.a, s.b][..1] == [s.a] && [s.a][..0] == [];
    assert EncodeWords([]) == [];
    assert EncodeWords([s.a]) == WordBytes(s.a);
    assert EncodeWords([s.a, s.b]) == WordBytes(s.a) + WordBytes(s.b);
  }

  // ---------------------------------------------------------------- streaming

  lemma FlattenStep(before: seq<Byte>, chunks: seq<seq<Byte>>, k: nat)
    requires k < |chunks|
    ensures before + Flatten(chunks[..k]) + chunks[k] == before + Flatten(chunks[..k + 1])
  {
    assert chunks[..k + 1] == chunks[..k] + [chunks[k]];
    FlattenAppend(chunks[..k], chunks[k]);
    assert before + Flatten(chunks[..k]) + chunks[k] == before + (Flatten(chunks[..k]) + chunks[k]);
  }

  method FeedOne(context: Context, chunk: seq<Byte>)
    requires context.Valid() && |chunk| <= TWO32 - 64
    modifies context, context.buffer
    ensures context.Valid() && context.fed == old(context.fed) + chunk
  {
    ShortIsSafe(|context.fed| % 64, |chunk|);
    context.Update(chunk);
  }

  method FeedAll(context: Context, chunks: seq<seq<Byte>>)
    requires context.Valid() && forall c | c in chunks :: |c| <= TWO32 - 64
    modifies context, context.buffer
    ensures context.Valid() && context.fed == old(context.fed) + Flatten(chunks)
  {
    ghost var before := context.fed;
    for k := 0 to |chunks|
      invariant context.Valid() && context.fed == before + Flatten(chunks[..k])
    {
      FlattenStep(before, chunks, k);
      FeedOne(context, chunks[k]);
    }
    assert chunks[..|chunks|] == chunks;
  }

  /** However a message is cut into updates, the digest is that of the message. */
  method DigestChunks(transform: Transform, chunks: seq<seq<Byte>>) returns (digest: seq<Byte>)
    requires forall c | c in chunks :: |c| <= TWO32 - 64
    ensures digest == Digest(transform, Flatten(chunks))
  {
    var context := new Context(transform);
    FeedAll(context, chunks);
    assert context.fed == Flatten(chunks);
    digest := context.Final();
  }

  // ---------------------------------------------------------------- the words of RFC 1321

  /** The initial state, as section 3.3 writes its words: low-order bytes first. */
  lemma InitialBytes()
    ensures EncodeWords([INITIAL.a, INITIAL.b, INITIAL.c, INITIAL.d]) ==
            [0x01, 0x23, 0x45, 0x67] + [0x89, 0xab, 0xcd, 0xef] + [0xfe, 0xdc, 0xba, 0x98] + [0x76, 0x54, 0x32, 0x10]
  {
    EncodeFour(INITIAL.a, INITIAL.b, INITIAL.c, INITIAL.d);
    InitialWords();
  }

  /** A word is known by its bytes. */
  lemma BytesOfWord(w: Word, b0: Byte, b1: Byte, b2: Byte, b3: Byte)
    requires w == b0 + 0x100 * b1 + 0x1_0000 * b2 + 0x100_0000 * b3
    ensures WordBytes(w) == [b0, b1, b2, b3]
  {
    BytesRoundTrip([b0, b1, b2, b3]);
    assert BytesWord([b0, b1, b2, b3]) == w;
  }

  lemma InitialWords()
    ensures WordBytes(INITIAL.a) == [0x01, 0x23, 0x45, 0x67] && WordBytes(INITIAL.b) == [0x89, 0xab, 0xcd, 0xef]
    ensures WordBytes(INITIAL.c) == [0xfe, 0xdc, 0xba, 0x98] && WordBytes(INITIAL.d) == [0x76, 0x54, 0x32, 0x10]
  {
    BytesOfWord(INITIAL.a, 0x01, 0x23, 0x45, 0x67);
    BytesOfWord(INITIAL.b, 0x89, 0xab, 0xcd, 0xef);
    BytesOfWord(INITIAL.c, 0xfe, 0xdc, 0xba, 0x98);
    BytesOfWord(INITIAL.d, 0x76, 0x54, 0x32, 0x10);
  }

  lemma EncodeFour(a: Word, b: Word, c: Word, d: Word)
    ensures EncodeWords([a, b, c, d]) == WordBytes(a) + WordBytes(b) + WordBytes(c) + WordBytes(d)
  {
    EncodeLast([], a);
    EncodeLast([a], b);
    EncodeLast([a, b], c);
    EncodeLast([a, b, c], d);
    assert [] + [a] == [a] && [a] + [b] == [a, b] && [a, b] + [c] == [a, b, c] && [a, b, c] + [d] == [a, b, c, d];
  }

  function Pow256(n: nat): nat {
    if n == 0 then 1 else 256 * Pow256(n - 1)
  }

  /** The number whose low-order byte comes first. */
  function Value(bytes: seq<Byte>): nat {
    if bytes == [] then 0 else var low: int := bytes[0]; low + 256 * Value(bytes[1..])
  }

  lemma {:induction false} ValueOf(x: nat, n: nat)
    requires x < Pow256(n)
    ensures Value(LittleEndian(x, n)) == x
    decreases n
  {
    if n == 0 {
    } else {
      var r := LittleEndian(x, n);
      assert r[1..] == LittleEndian(x / 256, n - 1);
      ValueOf(x / 256, n - 1);
    }
  }

  /** The message, a one bit, zeros, and the length in bits modulo 2^64, in the fewest whole blocks. */
  lemma PaddedExactly(m: seq<Byte>)
    ensures var p, n := Padded(m), |Padded(m)|;
            && n % 64 == 0 && |m| + 9 <= n < |m| + 9 + 64
            && p[..|m|] == m && p[|m|] == 128
            && (forall k | |m| < k < n - 8 :: p[k] == 0)
            && Value(p[n - 8..]) == 8 * |m| % 0x1_0000_0000_0000_0000
  {
    var p, n := Padded(m), |Padded(m)|;
    var bits := 8 * |m| % TWO64;
    assert p[n - 8..] == LittleEndian(bits, 8);
    assert bits < Pow256(8) by { PowerEight(8); }
    ValueOf(bits, 8);
  }

  lemma PowerEight(n: nat)
    requires n == 8
    ensures Pow256(n) == TWO64
  {
    assert Pow256(n) == 256 * (256 * Pow256(n - 2));
    assert Pow256(n - 2) == 256 * (256 * Pow256(n - 4));
    assert Pow256(n - 4) == 256 * (256 * Pow256(n - 6));
    assert Pow256(n - 6) == 256 * (256 * Pow256(n - 8));
  }
}
