/** The ring buffer of the network layer: a fixed array, a write position and a fill count. */
module RingBuffer {
  import opened Common

  type Byte = x: int | 0 <= x < 256

  datatype RC = SUCCESS | INVALID_ARGUMENT | IOERR_WRITE

  // ---------------------------------------------------------------- positions

  ghost predicate InRing(capacity: int, size: int, writePos: int) {
    0 <= size <= capacity && (if capacity == 0 then writePos == 0 else 0 <= writePos < capacity)
  }

  /** Where reading starts, as the code computes it. */
  function ReadPos(capacity: int, size: int, writePos: int): int
    requires capacity > 0
  {
    (writePos - size + capacity) % capacity
  }

  /** Where the write position moves to, as the code computes it. */
  function Advance(capacity: int, writePos: int, n: int): int
    requires capacity > 0
  {
    (writePos + n) % capacity
  }

  /** The array index of the i-th oldest byte, without any remainder. */
  function Slot(capacity: int, size: int, writePos: int, i: int): int {
    var p := writePos - size + i;
    if p < 0 then p + capacity else p
  }

  lemma ModOnce(x: int, n: int)
    requires 0 <= x < 2 * n
    ensures x % n == if x < n then x else x - n
  {
    if x >= n { assert x == n * 1 + (x - n); }
  }

  /** The oldest byte is at the read position, and the stretch offered for reading holds the next ones. */
  lemma ReadPosIsOldest(capacity: int, size: int, writePos: int)
    requires InRing(capacity, size, writePos) && size > 0
    ensures var r := ReadPos(capacity, size, writePos);
            var n := if r < writePos then writePos - r else capacity - r;
            && 0 < n <= size && 0 <= r < r + n <= capacity
            && forall i {:trigger Slot(capacity, size, writePos, i)} | 0 <= i < n ::
                 Slot(capacity, size, writePos, i) == r + i
  {
    ModOnce(writePos - size + capacity, capacity);
  }

  /** The room behind the write position is free and contiguous. */
  lemma RoomIsFree(capacity: int, size: int, writePos: int)
    requires InRing(capacity, size, writePos) && size < capacity
    ensures var r := ReadPos(capacity, size, writePos);
            var room := if r <= writePos then capacity - writePos else r - writePos;
            0 < room <= capacity - size && writePos + room <= capacity
  {
    ModOnce(writePos - size + capacity, capacity);
  }

  /** Appending n bytes leaves the older bytes where they are and puts the new ones behind the old write
      position, none of them on top of an older one. */
  lemma AppendSlots(capacity: int, size: int, writePos: int, n: int)
    requires InRing(capacity, size, writePos) && 0 < n <= capacity - size && writePos + n <= capacity
    ensures var w := Advance(capacity, writePos, n);
            && InRing(capacity, size + n, w)
            && forall i {:trigger Slot(capacity, size + n, w, i)} | 0 <= i < size + n ::
                 if i < size then
                   && Slot(capacity, size + n, w, i) == Slot(capacity, size, writePos, i)
                   && !(writePos <= Slot(capacity, size, writePos, i) < writePos + n)
                 else Slot(capacity, size + n, w, i) == writePos + (i - size)
  {
    ModOnce(writePos + n, capacity);
  }

  /** Byte `i` sits at the end of the array. */
  predicate LastSlot(capacity: int, size: int, writePos: int, i: int) {
    Slot(capacity, size, writePos, i) == capacity - 1
  }

  class Ring {
    const buffer: array<Byte>
    var dataSize: int
    var writePos: int
    ghost var contents: seq<Byte>

    function Capacity(): int {
      buffer.Length
    }

    function Size(): int
      reads this
    {
      dataSize
    }

    function Remain(): int
      reads this
    {
      Capacity() - Size()
    }

    /** The contents are the bytes found slot by slot. */
    ghost predicate Valid()
      reads this, buffer
    {
      && InRing(Capacity(), dataSize, writePos)
      && |contents| == dataSize
      && forall i {:trigger contents[i]} | 0 <= i < dataSize ::
           buffer[Slot(Capacity(), dataSize, writePos, i)] == contents[i]
    }

    constructor (size: nat)
      ensures Valid() && contents == [] && fresh(buffer) && buffer.Length == size
    {
      buffer := new Byte[size];
      dataSize, writePos, contents := 0, 0, [];
    }

    /** The longest contiguous stretch of unread bytes, all of them or up to the last slot; nothing is consumed. */
    method Buffer() returns (chunk: seq<Byte>)
      requires Valid()
      ensures chunk <= contents
      ensures contents != [] ==> chunk != []
      ensures chunk == contents || LastSlot(Capacity(), dataSize, writePos, |chunk| - 1)
    {
      if Size() == 0 {
        return [];
      }
      ReadPosIsOldest(Capacity(), dataSize, writePos);
      var readPos := ReadPos(Capacity(), dataSize, writePos);
      var readSize := if readPos < writePos then writePos - readPos else Capacity() - readPos;
      chunk := buffer[readPos..readPos + readSize];
      assert forall i | 0 <= i < readSize :: chunk[i] == contents[i];
    }

    method Forward(size: int) returns (rc: RC)
      requires Valid()
      modifies this`dataSize, this`contents
      ensures Valid()
      ensures rc == if 0 < size <= |old(contents)| then SUCCESS else INVALID_ARGUMENT
      ensures contents == if rc == SUCCESS then old(contents)[size..] else old(contents)
    {
      if size <= 0 {
        return INVALID_ARGUMENT;
      }
      if size > Size() {
        return INVALID_ARGUMENT;
      }
      dataSize := dataSize - size;
      contents := contents[size..];
      return SUCCESS;
    }

    /** One turn of the reading loop: some of the oldest bytes, as many as lie in one stretch. */
    method ReadSome(size: int) returns (rc: RC, piece: seq<Byte>)
      requires Valid() && size > 0 && contents != []
      modifies this`dataSize, this`contents
      ensures Valid() && rc == SUCCESS && 0 < |piece| <= size && piece + contents == old(contents)
    {
      var chunk := Buffer();
      var copySize := Min(size, |chunk|);
      assert contents == chunk[..copySize] + contents[copySize..];
      rc := Forward(copySize);
      piece := chunk[..copySize];
    }

    /** Reads up to `size` bytes, oldest first, in as many contiguous stretches as it takes. */
    method Read(size: int) returns (rc: RC, out: seq<Byte>)
      requires Valid()
      modifies this`dataSize, this`contents
      ensures Valid()
      ensures rc == if size < 0 then INVALID_ARGUMENT else SUCCESS
      ensures |out| == if size < 0 then 0 else Min(size, |old(contents)|)
      ensures out + contents == old(contents)
    {
      out := [];
      if size < 0 {
        return INVALID_ARGUMENT, out;
      }
      rc := SUCCESS;
      while rc == SUCCESS && |out| < size && Size() > 0
        invariant Valid() && rc == SUCCESS && |out| <= size
        invariant out + contents == old(contents)
        decreases dataSize
      {
        var piece;
        rc, piece := ReadSome(size - |out|);
        out := out + piece;
      }
    }

    method CopyBytes(at: nat, data: seq<Byte>)
      requires at + |data| <= buffer.Length
      modifies buffer
      ensures forall j | 0 <= j < buffer.Length ::
                buffer[j] == if at <= j < at + |data| then data[j - at] else old(buffer[j])
    {
      for i := 0 to |data|
        invariant forall j | 0 <= j < buffer.Length ::
                    buffer[j] == if at <= j < at + i then data[j - at] else old(buffer[j])
      {
        buffer[at + i] := data[i];
      }
    }

    method Append(data: seq<Byte>)
      requires Valid() && 0 < |data| <= Remain() && writePos + |data| <= Capacity()
      modifies this, buffer
      ensures Valid() && contents == old(contents) + data
    {
      AppendSlots(Capacity(), dataSize, writePos, |data|);
      CopyBytes(writePos, data);
      writePos := Advance(Capacity(), writePos, |data|);
      dataSize := dataSize + |data|;
      contents := contents + data;
    }

    /** Accepts as many bytes as there is room for, and says how many. */
    method Write(data: seq<Byte>, size: int) returns (rc: RC, writeSize: int)
      requires Valid() && size <= |data|
      modifies this, buffer
      ensures Valid()
      ensures rc == if size < 0 then INVALID_ARGUMENT else SUCCESS
      ensures writeSize == if size < 0 then 0 else Min(size, Capacity() - |old(contents)|)
      ensures contents == old(contents) + data[..writeSize]
    {
      writeSize := 0;
      if size < 0 {
        return INVALID_ARGUMENT, 0;
      }
      rc := SUCCESS;
      while rc == SUCCESS && writeSize < size && Remain() > 0
        invariant Valid() && rc == SUCCESS && 0 <= writeSize <= size
        invariant contents == old(contents) + data[..writeSize]
        decreases size - writeSize
      {
        RoomIsFree(Capacity(), dataSize, writePos);
        var readPos := ReadPos(Capacity(), dataSize, writePos);
        var room := if readPos <= writePos then Capacity() - writePos else readPos - writePos;
        var copySize := Min(size - writeSize, room);
        var piece := data[writeSize..writeSize + copySize];
        assert data[..writeSize] + piece == data[..writeSize + copySize];
        Append(piece);
        writeSize := writeSize + copySize;
      }
    }
  }
}
