/** The buffered writer: a ring buffer in front of a descriptor that takes as few bytes at a time
    as it likes, asks for retries, or fails. */
module BufferedWriter {
  import opened Common
  import opened RingBuffer

  // ---------------------------------------------------------------- the operating system

  /** How one call of write(2) ends: some bytes taken (cut to what was offered), EAGAIN or EINTR,
      or another error. */
  datatype Outcome = Taken(n: nat) | Again | Broken

  predicate Decisive(o: Outcome) {
    o.Broken? || (o.Taken? && o.n > 0)
  }

  /** One of the calls from `a` up to `b` failed for good. */
  ghost predicate Broke(plan: nat -> Outcome, a: nat, b: nat) {
    exists k: nat :: a <= k < b && plan(k).Broken?
  }

  /** `plan` fixes how every future call ends. It is fair when retries never go on forever:
      `next(k)` is a call, from the k-th on, that is not a retry. */
  class Kernel {
    const plan: nat -> Outcome
    ghost const next: nat -> nat
    var calls: nat
    var sent: seq<Byte>
    ghost var marks: seq<nat>

    /** `marks[k]` is how much had been sent when call k was made. */
    ghost predicate Fair()
      reads this
    {
      |marks| == calls && forall k: nat :: next(k) >= k && Decisive(plan(next(k)))
    }

    constructor (plan: nat -> Outcome, ghost next: nat -> nat)
      ensures this.plan == plan && this.next == next && calls == 0 && sent == [] && marks == []
    {
      this.plan, this.next, calls, sent, marks := plan, next, 0, [], [];
    }

    /** Returns the number of bytes taken, or -1, and whether the caller should retry. */
    method SysWrite(buf: seq<Byte>) returns (n: int, retry: bool)
      modifies this
      ensures calls == old(calls) + 1 && marks == old(marks) + [|old(sent)|]
      ensures -1 <= n <= |buf| && (retry ==> n == -1)
      ensures sent == old(sent) + (if n > 0 then buf[..n] else [])
      ensures Decisive(plan(old(calls))) && buf != [] ==> n != 0 && !retry
      ensures n < 0 && !retry ==> plan(old(calls)).Broken?
    {
      var outcome := plan(calls);
      calls, marks := calls + 1, marks + [|sent|];
      match outcome
      case Taken(k) =>
        n, retry := Min(k, |buf|), false;
        sent := sent + buf[..n];
      case Again =>
        n, retry := -1, true;
      case Broken =>
        n, retry := -1, false;
    }
  }

  // ---------------------------------------------------------------- the writer

  class Writer {
    var fd: int
    const buffer: Ring
    const os: Kernel
    ghost var accepted: seq<Byte>

    /** Nothing is lost, doubled or reordered: what was sent and what is buffered make up what was accepted. */
    ghost predicate Valid()
      reads this, buffer, buffer.buffer, os
    {
      buffer.Valid() && os.Fair() && os.sent + buffer.contents == accepted
    }

    constructor (fd: int, size: nat, os: Kernel)
      requires os.Fair() && os.sent == []
      ensures Valid() && accepted == [] && this.fd == fd && this.os == os
      ensures fresh(buffer) && fresh(buffer.buffer) && buffer.Capacity() == size
    {
      this.fd, this.os := fd, os;
      buffer := new Ring(size);
      accepted := [];
    }

    /** The inner loop: call until the answer is neither zero nor a retry. */
    method WriteSome(buf: seq<Byte>) returns (n: int)
      requires os.Fair() && buf != []
      modifies os
      ensures n != 0 && n <= |buf| && os.Fair() && old(os.marks) <= os.marks
      ensures forall k | old(os.calls) <= k < os.calls :: os.marks[k] == |old(os.sent)|
      ensures os.sent == old(os.sent) + (if n > 0 then buf[..n] else [])
      ensures n < 0 ==> Broke(os.plan, old(os.calls), os.calls)
    {
      n := 0;
      ghost var last := os.next(os.calls);
      while n == 0
        invariant n <= |buf| && os.Fair() && old(os.marks) <= os.marks && 0 <= n
        invariant forall k | old(os.calls) <= k < os.calls :: os.marks[k] == |old(os.sent)|
        invariant n == 0 ==> os.calls <= last
        invariant os.sent == old(os.sent) + (if n > 0 then buf[..n] else [])
        decreases n == 0, last - os.calls
      {
        var retry;
        n, retry := os.SysWrite(buf);
        if n < 0 {
          if retry {
            n := 0;
            continue;
          }
          return;
        }
      }
    }

    /** One turn of the loop: sends a prefix of what is buffered and takes it off, or fails with nothing changed. */
    method SendSome() returns (n: int)
      requires Valid() && buffer.contents != []
      modifies buffer`dataSize, buffer`contents, os
      ensures Valid() && n != 0
      ensures n < 0 ==> buffer.contents == old(buffer.contents) && os.sent == old(os.sent)
      ensures n > 0 ==> n <= |old(buffer.contents)| && buffer.contents == old(buffer.contents)[n..]
      ensures old(os.sent) <= os.sent && old(os.marks) <= os.marks
      ensures n > 0 ==> |os.sent| == |old(os.sent)| + n
      ensures forall k | old(os.calls) <= k < os.calls :: os.marks[k] == |old(os.sent)|
      ensures n < 0 ==> Broke(os.plan, old(os.calls), os.calls)
    {
      var chunk := buffer.Buffer();
      n := WriteSome(chunk);
      if n > 0 {
        assert chunk[..n] + buffer.contents[n..] == buffer.contents;
        var _ := buffer.Forward(n);
      }
    }

    /** Sends at least `size` bytes, or all there are, or fails; it makes no call once that much has been sent. */
    method FlushInternal(size: int) returns (rc: RC)
      requires Valid()
      modifies buffer`dataSize, buffer`contents, os
      ensures Valid() && old(os.sent) <= os.sent
      ensures rc == SUCCESS ==> buffer.contents == [] || |buffer.contents| + size <= |old(buffer.contents)|
      ensures fd < 0 ==> rc == INVALID_ARGUMENT
      ensures fd < 0 || old(buffer.contents) == [] ==>
              os.sent == old(os.sent) && buffer.contents == old(buffer.contents)
      ensures fd >= 0 ==> rc == SUCCESS || rc == IOERR_WRITE
      ensures fd >= 0 && old(buffer.contents) == [] ==> rc == SUCCESS
      ensures old(os.calls) <= os.calls && (rc == IOERR_WRITE ==> Broke(os.plan, old(os.calls), os.calls))
      ensures fd < 0 || size <= 0 || old(buffer.contents) == [] ==> os.calls == old(os.calls)
      ensures old(os.marks) <= os.marks
      ensures forall k | old(os.calls) <= k < os.calls :: os.marks[k] < |old(os.sent)| + size
    {
      if fd < 0 {
        return INVALID_ARGUMENT;
      }
      rc := SUCCESS;
      var writeSize := 0;
      while rc == SUCCESS && buffer.Size() > 0 && size > writeSize
        invariant Valid() && rc == SUCCESS && old(os.sent) <= os.sent
        invariant |buffer.contents| + writeSize == |old(buffer.contents)| && writeSize >= 0
        invariant old(buffer.contents) == [] ==> os.sent == old(os.sent)
        invariant old(os.marks) <= os.marks && |os.sent| == |old(os.sent)| + writeSize
        invariant forall k | old(os.calls) <= k < os.calls :: os.marks[k] < |old(os.sent)| + size
        invariant size <= 0 || old(buffer.contents) == [] ==> os.calls == old(os.calls)
        decreases buffer.dataSize
      {
        var n := SendSome();
        if n < 0 {
          return IOERR_WRITE;
        }
        writeSize := writeSize + n;
      }
    }

    /** On success everything accepted has been sent. */
    method Flush() returns (rc: RC)
      requires Valid()
      modifies buffer`dataSize, buffer`contents, os
      ensures Valid()
      ensures rc == SUCCESS ==> buffer.contents == [] && os.sent == accepted
      ensures fd < 0 <==> rc == INVALID_ARGUMENT
      ensures fd < 0 ==> os.sent == old(os.sent) && buffer.contents == old(buffer.contents)
      ensures fd >= 0 && old(buffer.contents) == [] ==> rc == SUCCESS
      ensures fd >= 0 ==> rc == SUCCESS || rc == IOERR_WRITE
      ensures old(os.calls) <= os.calls && (rc == IOERR_WRITE ==> Broke(os.plan, old(os.calls), os.calls))
      ensures fd < 0 || old(buffer.contents) == [] ==> os.calls == old(os.calls)
    {
      if fd < 0 {
        return INVALID_ARGUMENT;
      }
      rc := SUCCESS;
      while rc == SUCCESS && buffer.Size() > 0
        invariant Valid() && (rc == SUCCESS || rc == IOERR_WRITE)
        invariant old(buffer.contents) == [] ==> rc == SUCCESS && buffer.contents == [] && os.calls == old(os.calls)
        invariant old(os.calls) <= os.calls && (rc == IOERR_WRITE ==> Broke(os.plan, old(os.calls), os.calls))
        decreases rc == SUCCESS, buffer.dataSize
      {
        rc := FlushInternal(buffer.Size());
      }
      if rc == SUCCESS { assert os.sent + buffer.contents == os.sent; }
    }

    /** Accepts some of the bytes, making room first if there is none; with any capacity at all a
        success accepts at least one byte. */
    method Write(data: seq<Byte>, size: int) returns (rc: RC, writeSize: int)
      requires Valid() && size <= |data|
      modifies this`accepted, buffer, buffer.buffer, os
      ensures Valid() && 0 <= writeSize && (size >= 0 ==> writeSize <= size)
      ensures size < 0 ==> writeSize == 0
      ensures accepted == old(accepted) + data[..writeSize]
      ensures rc != SUCCESS ==> writeSize == 0
      ensures fd >= 0 && size >= 0 ==> rc == SUCCESS || rc == IOERR_WRITE
      ensures fd < 0 ==> rc == INVALID_ARGUMENT && buffer.contents == old(buffer.contents)
      ensures size < 0 ==> rc != SUCCESS
      ensures rc == SUCCESS && size > 0 ==> (writeSize > 0 <==> buffer.Capacity() > 0)
      ensures fd >= 0 && size >= 0 && buffer.Capacity() == 0 ==> rc == SUCCESS && os.sent == old(os.sent)
      ensures old(os.calls) <= os.calls && (rc == IOERR_WRITE ==> Broke(os.plan, old(os.calls), os.calls))
      ensures old(os.marks) <= os.marks
      ensures forall k | old(os.calls) <= k < os.calls :: os.marks[k] < |old(os.sent)| + size
      ensures fd < 0 || old(buffer.Remain()) > 0 ==> os.calls == old(os.calls) && os.sent == old(os.sent)
      ensures fd >= 0 && size >= 0 && old(buffer.Remain()) > 0 ==>
                rc == SUCCESS && writeSize == Min(size, old(buffer.Remain()))
      ensures rc == SUCCESS ==> writeSize == Min(size, buffer.Capacity() - (|buffer.contents| - writeSize))
    {
      if fd < 0 {
        return INVALID_ARGUMENT, 0;
      }
      if buffer.Remain() == 0 {
        rc := FlushInternal(size);
        if rc != SUCCESS {
          return rc, 0;
        }
      }
      ghost var before := buffer.contents;
      rc, writeSize := buffer.Write(data, size);
      accepted := accepted + data[..writeSize];
      assert os.sent + (before + data[..writeSize]) == os.sent + before + data[..writeSize];
    }

    /** Accepts all the bytes or fails with the ones accepted so far in order. The loop ends because every
        success makes progress; with no capacity a success makes none, and the loop would never end. */
    method Writen(data: seq<Byte>, size: int) returns (rc: RC, ghost done: int)
      requires Valid() && size <= |data|
      requires fd < 0 || size <= 0 || buffer.Capacity() > 0
      modifies this`accepted, buffer, buffer.buffer, os
      ensures Valid() && 0 <= done <= |data|
      ensures accepted == old(accepted) + data[..done]
      ensures fd < 0 ==> rc == INVALID_ARGUMENT && done == 0 && buffer.contents == old(buffer.contents)
      ensures fd >= 0 ==> rc == SUCCESS || rc == IOERR_WRITE
      ensures rc == SUCCESS ==> done == if size < 0 then 0 else size
      ensures old(os.calls) <= os.calls && (rc == IOERR_WRITE ==> Broke(os.plan, old(os.calls), os.calls))
      ensures fd < 0 || size <= old(buffer.Remain()) ==> os.calls == old(os.calls) && os.sent == old(os.sent)
    {
      done := 0;
      if fd < 0 {
        return INVALID_ARGUMENT, done;
      }
      var writeSize := 0;
      while writeSize < size
        invariant Valid() && 0 <= writeSize && (size >= 0 ==> writeSize <= size) && (size < 0 ==> writeSize == 0)
        invariant done == writeSize && accepted == old(accepted) + data[..writeSize]
        invariant old(os.calls) <= os.calls
        invariant size <= old(buffer.Remain()) ==>
                    os.calls == old(os.calls) && os.sent == old(os.sent) && (writeSize == 0 || writeSize == size)
        invariant writeSize == 0 ==> buffer.contents == old(buffer.contents) || size > old(buffer.Remain())
        decreases size - writeSize
      {
        var n;
        rc, n := Write(data[writeSize..], size - writeSize);
        assert data[..writeSize] + data[writeSize..][..n] == data[..writeSize + n];
        if rc != SUCCESS {
          return rc, writeSize;
        }
        writeSize := writeSize + n;
        done := writeSize;
      }
      return SUCCESS, done;
    }

    /** Without capacity a turn of that loop succeeds and leaves everything as it was, so the loop goes on. */
    method StuckTurn(data: seq<Byte>, size: int) returns (rc: RC, writeSize: int)
      requires Valid() && 0 < size <= |data| && fd >= 0 && buffer.Capacity() == 0
      modifies this`accepted, buffer, buffer.buffer, os
      ensures Valid() && rc == SUCCESS && writeSize == 0
      ensures accepted == old(accepted) && buffer.contents == old(buffer.contents) && os.sent == old(os.sent)
    {
      rc, writeSize := Write(data, size);
    }

    /** A close that succeeds has sent everything; one that fails leaves the writer open. */
    method Close() returns (rc: RC)
      requires Valid()
      modifies this`fd, buffer`dataSize, buffer`contents, os
      ensures Valid()
      ensures old(fd) < 0 ==> rc == SUCCESS && fd == old(fd) && os.sent == old(os.sent)
                              && buffer.contents == old(buffer.contents)
      ensures old(buffer.contents) == [] ==> rc == SUCCESS
      ensures old(os.calls) <= os.calls && (rc == IOERR_WRITE ==> Broke(os.plan, old(os.calls), os.calls))
      ensures old(fd) >= 0 ==> if rc == SUCCESS then fd == -1 && os.sent == accepted && buffer.contents == []
                               else fd == old(fd) && rc == IOERR_WRITE
    {
      if fd < 0 {
        return SUCCESS;
      }
      rc := Flush();
      if rc != SUCCESS {
        return;
      }
      fd := -1;
    }
  }

  // ---------------------------------------------------------------- runs

  datatype Op = Put(data: seq<Byte>) | PutAll(data: seq<Byte>) | Flush | Close

  /** The descriptor after an operation. */
  function Descriptor(fd: int, op: Op, rc: RC): int {
    if op.Close? && rc == SUCCESS && fd >= 0 then -1 else fd
  }

  /** What an operation that ended with this code has accepted, on a writer with this descriptor and capacity; it fails
      on an open descriptor only if one of its calls did. */
  ghost predicate Served(fd: int, capacity: int, op: Op, rc: RC, taken: seq<Byte>, broke: bool) {
    && (rc == IOERR_WRITE ==> broke)
    && (rc == SUCCESS || rc == IOERR_WRITE || rc == INVALID_ARGUMENT) && (fd >= 0 ==> rc != INVALID_ARGUMENT)
    && (fd < 0 ==> taken == [] && rc == if op.Close? then SUCCESS else INVALID_ARGUMENT)
    && match op
      case Put(data) => taken <= data && (rc == SUCCESS && data != [] && capacity > 0 <==> taken != [])
      case PutAll(data) => taken <= data && (rc == SUCCESS ==> taken == data)
      case Flush => taken == []
      case Close => taken == []
  }

  /** The one operation that does not end: writing all of something into no capacity. */
  predicate Ends(fd: int, capacity: int, op: Op) {
    op.PutAll? && op.data != [] ==> fd < 0 || capacity > 0
  }

  /** No operation of the run is that one; without capacity nothing is ever buffered, so a close always succeeds. */
  predicate AllEnd(fd: int, capacity: int, ops: seq<Op>) {
    fd < 0 || capacity > 0 ||
    forall k | 0 <= k < |ops| && ops[k].PutAll? && ops[k].data != [] :: Close in ops[..k]
  }

  method Serve(writer: Writer, op: Op) returns (rc: RC, ghost taken: seq<Byte>)
    requires writer.Valid() && Ends(writer.fd, writer.buffer.Capacity(), op)
    modifies writer, writer.buffer, writer.buffer.buffer, writer.os
    ensures writer.Valid() && writer.accepted == old(writer.accepted) + taken
    ensures writer.fd == Descriptor(old(writer.fd), op, rc)
    ensures old(writer.os.calls) <= writer.os.calls
    ensures Served(old(writer.fd), writer.buffer.Capacity(), op, rc, taken,
                   Broke(writer.os.plan, old(writer.os.calls), writer.os.calls))
    ensures (op.Flush? || (op.Close? && old(writer.fd) >= 0)) && rc == SUCCESS ==> writer.buffer.contents == []
    ensures old(writer.fd) < 0 ==> writer.buffer.contents == old(writer.buffer.contents)
    ensures op.Close? && old(writer.buffer.contents) == [] ==> rc == SUCCESS
  {
    match op {
      case Put(data) =>
        var n;
        rc, n := writer.Write(data, |data|);
        taken := data[..n];
      case PutAll(data) =>
        ghost var done;
        rc, done := writer.Writen(data, |data|);
        taken := data[..done];
      case Flush =>
        rc := writer.Flush();
        taken := [];
      case Close =>
        rc := writer.Close();
        taken := [];
    }
  }

  /** What the operations of a run have done: their codes, what each accepted, and the descriptor and the number of
      calls made before each and at the end. */
  datatype Log = Log(codes: seq<RC>, taken: seq<seq<Byte>>, fds: seq<int>, marks: seq<nat>)

  ghost predicate Shaped(log: Log, n: nat) {
    |log.codes| == |log.taken| == n && |log.fds| == |log.marks| == n + 1
  }

  /** Operation k accepted taken[k] on the descriptor fds[k], which only a successful close changes. */
  ghost predicate Entry(log: Log, capacity: int, plan: nat -> Outcome, op: Op, k: nat)
    requires k < |log.codes| && Shaped(log, |log.codes|)
  {
    && log.marks[k] <= log.marks[k + 1] && log.fds[k + 1] == Descriptor(log.fds[k], op, log.codes[k])
    && Served(log.fds[k], capacity, op, log.codes[k], log.taken[k], Broke(plan, log.marks[k], log.marks[k + 1]))
  }

  ghost predicate Followed(log: Log, capacity: int, plan: nat -> Outcome, ops: seq<Op>) {
    var n := |log.codes|;
    Shaped(log, n) && n <= |ops| && forall k | 0 <= k < n :: Entry(log, capacity, plan, ops[k], k)
  }

  /** The run accounts for every byte: the bytes sent, then the bytes still buffered, are the accepted bytes in order;
      after a final successful flush, and wherever the writer has been closed, none is buffered. */
  ghost predicate Accounts(log: Log, capacity: int, plan: nat -> Outcome, ops: seq<Op>, sent: seq<Byte>,
                           buffered: seq<Byte>) {
    && Followed(log, capacity, plan, ops) && |log.codes| == |ops|
    && sent + buffered == Flatten(log.taken)
    && (ops != [] && ops[|ops| - 1].Flush? && log.codes[|ops| - 1] == SUCCESS ==> buffered == [])
    && (log.fds[|ops|] < 0 ==> buffered == [])
  }

  /** Where a run stands after its first operations. */
  ghost predicate Underway(log: Log, capacity: int, plan: nat -> Outcome, ops: seq<Op>, buffered: seq<Byte>) {
    var k := |log.codes|;
    && Followed(log, capacity, plan, ops)
    && (k > 0 && ops[k - 1].Flush? && log.codes[k - 1] == SUCCESS ==> buffered == [])
    && (log.fds[k] < 0 ==> buffered == [])
    && (log.fds[0] < 0 || Close in ops[..k] ==> log.fds[k] < 0 || capacity > 0)
  }

  function Logged(log: Log, rc: RC, piece: seq<Byte>, fd: int, calls: nat): Log {
    Log(log.codes + [rc], log.taken + [piece], log.fds + [fd], log.marks + [calls])
  }

  lemma SameEntry(log: Log, capacity: int, plan: nat -> Outcome, op: Op, k: nat,
                  rc: RC, piece: seq<Byte>, fd: int, calls: nat)
    requires Shaped(log, |log.codes|) && k < |log.codes| && Entry(log, capacity, plan, op, k)
    ensures Entry(Logged(log, rc, piece, fd, calls), capacity, plan, op, k)
  {
  }

  lemma FollowedOn(log: Log, capacity: int, plan: nat -> Outcome, ops: seq<Op>,
                   rc: RC, piece: seq<Byte>, fd: int, calls: nat)
    requires Followed(log, capacity, plan, ops) && |log.codes| < |ops|
    requires var k := |log.codes|;
             && Served(log.fds[k], capacity, ops[k], rc, piece, Broke(plan, log.marks[k], calls))
             && fd == Descriptor(log.fds[k], ops[k], rc) && log.marks[k] <= calls
    ensures Followed(Logged(log, rc, piece, fd, calls), capacity, plan, ops)
  {
    var log' := Logged(log, rc, piece, fd, calls);
    forall k | 0 <= k < |log'.codes| ensures Entry(log', capacity, plan, ops[k], k) {
      if k < |log.codes| { SameEntry(log, capacity, plan, ops[k], k, rc, piece, fd, calls); }
    }
  }

  lemma UnderwayOn(log: Log, capacity: int, plan: nat -> Outcome, ops: seq<Op>, buffered: seq<Byte>,
                   rc: RC, piece: seq<Byte>, fd: int, calls: nat, after: seq<Byte>)
    requires Underway(log, capacity, plan, ops, buffered) && |log.codes| < |ops| && capacity >= 0
    requires var k := |log.codes|;
             && Served(log.fds[k], capacity, ops[k], rc, piece, Broke(plan, log.marks[k], calls))
             && fd == Descriptor(log.fds[k], ops[k], rc) && log.marks[k] <= calls
    requires var op, now := ops[|log.codes|], log.fds[|log.codes|];
             && ((op.Flush? || (op.Close? && now >= 0)) && rc == SUCCESS ==> after == [])
             && (now < 0 ==> after == buffered)
             && (op.Close? && capacity == 0 ==> rc == SUCCESS)
    ensures Underway(Logged(log, rc, piece, fd, calls), capacity, plan, ops, after)
  {
    var k := |log.codes|;
    FollowedOn(log, capacity, plan, ops, rc, piece, fd, calls);
    assert ops[..k + 1] == ops[..k] + [ops[k]];
    var log' := Logged(log, rc, piece, fd, calls);
    assert log'.fds[k + 1] == fd && log'.codes[k] == rc && log'.fds[0] == log.fds[0];
  }

  method ServeAll(writer: Writer, ops: seq<Op>) returns (codes: seq<RC>, ghost log: Log)
    requires writer.Valid() && writer.accepted == []
    requires AllEnd(writer.fd, writer.buffer.Capacity(), ops)
    modifies writer, writer.buffer, writer.buffer.buffer, writer.os
    ensures writer.Valid() && log.codes == codes && |log.fds| > 0 && log.fds[0] == old(writer.fd)
    ensures Accounts(log, writer.buffer.Capacity(), writer.os.plan, ops, writer.os.sent, writer.buffer.contents)
  {
    codes, log := [], Log([], [], [writer.fd], [writer.os.calls]);
    ghost var capacity := writer.buffer.Capacity();
    for k := 0 to |ops|
      invariant writer.Valid() && log.codes == codes && |codes| == k && writer.accepted == Flatten(log.taken)
      invariant Underway(log, capacity, writer.os.plan, ops, writer.buffer.contents)
      invariant writer.fd == log.fds[k] && writer.os.calls == log.marks[k] && log.fds[0] == old(writer.fd)
    {
      ghost var buffered := writer.buffer.contents;
      ghost var piece;
      var rc;
      rc, piece := Serve(writer, ops[k]);
      UnderwayOn(log, capacity, writer.os.plan, ops, buffered, rc, piece, writer.fd, writer.os.calls,
                 writer.buffer.contents);
      FlattenAppend(log.taken, piece);
      codes, log := codes + [rc], Logged(log, rc, piece, writer.fd, writer.os.calls);
    }
  }

  lemma NeverFails(log: Log, capacity: int, plan: nat -> Outcome, ops: seq<Op>)
    requires Followed(log, capacity, plan, ops) && forall k: nat :: !plan(k).Broken?
    ensures IOERR_WRITE !in log.codes
  {
    forall k | 0 <= k < |log.codes| ensures log.codes[k] != IOERR_WRITE {
      assert Entry(log, capacity, plan, ops[k], k);
    }
  }

  /** Any run of writes, flushes and closes over any fair kernel, on an open descriptor or a closed one, conserves
      the bytes and their order. */
  method Drive(fd: int, size: nat, plan: nat -> Outcome, ghost next: nat -> nat, ops: seq<Op>)
      returns (sent: seq<Byte>, codes: seq<RC>)
    requires AllEnd(fd, size, ops)
    requires forall k: nat :: next(k) >= k && Decisive(plan(next(k)))
    ensures exists log, buffered ::
              && Accounts(log, size, plan, ops, sent, buffered)
              && log.codes == codes && log.fds[0] == fd && |buffered| <= size
    ensures (forall k: nat :: !plan(k).Broken?) ==> IOERR_WRITE !in codes
  {
    var os := new Kernel(plan, next);
    var writer := new Writer(fd, size, os);
    ghost var log;
    codes, log := ServeAll(writer, ops);
    sent := os.sent;
    assert Accounts(log, size, plan, ops, sent, writer.buffer.contents);
    if forall k: nat :: !plan(k).Broken? { NeverFails(log, size, plan, ops); }
  }
}
