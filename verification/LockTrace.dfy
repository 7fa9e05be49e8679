/** The lock tracer: who owns which mutex, who waits for which mutex, and a depth-bounded
    search for a deadlock each time a thread is about to wait.

    The tables are read as a wait-for graph: a thread that waits for a recorded mutex has one
    successor, the recorded owner. */
module LockTrace {
  import opened Common

  type Tid = int
  type Mutex = nat

  datatype LockID = LockID(file: string, threadId: Tid, line: int)

  const NO_LOCK_ID := LockID("", 0, 0)

  datatype Tables = Tables(
    locks: map<Mutex, LockID>,
    waitTimes: map<Mutex, int>,
    waitLocks: map<Tid, Mutex>,
    ownLocks: map<Tid, set<Mutex>>,
    recursives: set<Mutex>,
    maxBlockTids: int)

  function Empty(recursives: set<Mutex>, maxBlockTids: int): Tables {
    Tables(map[], map[], map[], map[], recursives, maxBlockTids)
  }

  function OwnedIn(ownLocks: map<Tid, set<Mutex>>, t: Tid): set<Mutex> {
    if t in ownLocks then ownLocks[t] else {}
  }

  function Owned(tb: Tables, t: Tid): set<Mutex> {
    OwnedIn(tb.ownLocks, t)
  }

  ghost predicate Inverse(locks: map<Mutex, LockID>, ownLocks: map<Tid, set<Mutex>>) {
    && (forall m | m in locks :: m in OwnedIn(ownLocks, locks[m].threadId))
    && (forall t, m | m in OwnedIn(ownLocks, t) :: m in locks && locks[m].threadId == t)
  }

  /** The owner map and the owned sets are inverse. */
  ghost predicate Consistent(tb: Tables) {
    Inverse(tb.locks, tb.ownLocks)
  }

  // ---------------------------------------------------------------- the search

  function Search(tb: Tables, own: set<Mutex>, other: Tid, depth: int): bool
    decreases tb.maxBlockTids - depth
  {
    if depth >= tb.maxBlockTids then false
    else if other !in tb.waitLocks then false
    else
      var waited := tb.waitLocks[other];
      if waited in own then true
      else if waited !in tb.locks then false
      else Search(tb, own, tb.locks[waited].threadId, depth + 1)
  }

  function RecordWait(tb: Tables, mutex: Mutex, t: Tid): Tables {
    tb.(waitLocks := tb.waitLocks[t := mutex])
  }

  /** The verdict, on tables in which the wait is already recorded. */
  predicate Verdict(tb: Tables, mutex: Mutex, t: Tid) {
    && mutex in tb.locks
    && if tb.locks[mutex].threadId == t then mutex !in tb.recursives
       else Owned(tb, t) != {} && Search(tb, Owned(tb, t), tb.locks[mutex].threadId, 1)
  }

  // ---------------------------------------------------------------- the wait-for graph

  function Blocker(tb: Tables, t: Tid): Option<Tid> {
    if t in tb.waitLocks && tb.waitLocks[t] in tb.locks then Some(tb.locks[tb.waitLocks[t]].threadId) else None
  }

  /** The thread reached by following `n` edges. */
  function Follow(tb: Tables, t: Tid, n: nat): Option<Tid>
    decreases n
  {
    if n == 0 then Some(t)
    else match Blocker(tb, t)
      case None => None
      case Some(u) => Follow(tb, u, n - 1)
  }

  ghost predicate CycleThrough(tb: Tables, t: Tid, n: nat) {
    n > 0 && Follow(tb, t, n) == Some(t)
  }

  lemma FollowOnce(tb: Tables, t: Tid, u: Tid)
    requires Blocker(tb, t) == Some(u)
    ensures forall n: nat | n > 0 :: Follow(tb, t, n) == Follow(tb, u, n - 1)
    ensures Follow(tb, t, 1) == Some(u)
  {
    assert Follow(tb, u, 0) == Some(u);
  }

  ghost predicate ReachesWithin(tb: Tables, s: Tid, t: Tid, k: int) {
    exists n: nat :: 0 < n <= k && Follow(tb, s, n) == Some(t)
  }

  lemma ReachesStep(tb: Tables, s: Tid, u: Tid, t: Tid, k: int)
    requires Blocker(tb, s) == Some(u)
    ensures ReachesWithin(tb, s, t, k) <==> k > 0 && (u == t || ReachesWithin(tb, u, t, k - 1))
  {
    FollowOnce(tb, s, u);
    if ReachesWithin(tb, s, t, k) {
      var n: nat :| 0 < n <= k && Follow(tb, s, n) == Some(t);
      assert Follow(tb, u, n - 1) == Some(t);
      if n == 1 { assert u == t; }
    }
    if k > 0 && ReachesWithin(tb, u, t, k - 1) {
      var n: nat :| 0 < n <= k - 1 && Follow(tb, u, n) == Some(t);
      assert Follow(tb, s, n + 1) == Some(t);
    }
  }

  lemma {:induction false} SearchFollows(tb: Tables, t: Tid, other: Tid, depth: int)
    requires Consistent(tb)
    ensures Search(tb, Owned(tb, t), other, depth) <==> ReachesWithin(tb, other, t, tb.maxBlockTids - depth)
    decreases tb.maxBlockTids - depth
  {
    match Blocker(tb, other)
    case None =>
    case Some(u) =>
      ReachesStep(tb, other, u, t, tb.maxBlockTids - depth);
      if depth < tb.maxBlockTids && u != t { SearchFollows(tb, t, u, depth + 1); }
  }

  /** A deadlock is reported exactly when the recorded waits form a cycle through the requester that
      is no longer than the bound; a thread that waits for itself is one only if the mutex is not
      recursive. */
  lemma VerdictIsCycle(tb: Tables, mutex: Mutex, t: Tid)
    requires Consistent(tb) && t in tb.waitLocks && tb.waitLocks[t] == mutex
    ensures Verdict(tb, mutex, t) <==>
            if CycleThrough(tb, t, 1) then mutex !in tb.recursives
            else exists n: nat :: 2 <= n <= tb.maxBlockTids && CycleThrough(tb, t, n)
  {
    if mutex in tb.locks {
      var other := tb.locks[mutex].threadId;
      FollowOnce(tb, t, other);
      if other != t {
        SearchFollows(tb, t, other, 1);
        if ReachesWithin(tb, other, t, tb.maxBlockTids - 1) {
          var n: nat :| 0 < n <= tb.maxBlockTids - 1 && Follow(tb, other, n) == Some(t);
          assert CycleThrough(tb, t, n + 1);
          ReachedOwns(tb, other, t, n);
        }
        if n: nat :| 2 <= n <= tb.maxBlockTids && CycleThrough(tb, t, n) {
          assert Follow(tb, other, n - 1) == Some(t);
          ReachedOwns(tb, other, t, n - 1);
        }
      }
    }
  }

  /** A thread that others wait for owns something. */
  lemma {:induction false} ReachedOwns(tb: Tables, s: Tid, t: Tid, n: nat)
    requires Consistent(tb) && n > 0 && Follow(tb, s, n) == Some(t)
    ensures Owned(tb, t) != {}
    decreases n
  {
    var u := Blocker(tb, s).value;
    if n == 1 {
      assert Follow(tb, u, 0) == Some(u);
      assert tb.waitLocks[s] in Owned(tb, t);
    } else {
      ReachedOwns(tb, u, t, n - 1);
    }
  }

  // ---------------------------------------------------------------- the events that change the tables

  datatype Event =
    | Check(mutex: Mutex, t: Tid)
    | Acquire(mutex: Mutex, id: LockID)
    | TryAcquire(mutex: Mutex, id: LockID)
    | Release(mutex: Mutex, t: Tid)

  /** Too many waiters: the warning reads the owner through operator[], which creates one. */
  predicate Overfull(tb: Tables, mutex: Mutex) {
    mutex in tb.waitTimes && tb.waitTimes[mutex] >= tb.maxBlockTids
  }

  function CountWait(tb: Tables, mutex: Mutex): Tables {
    if mutex !in tb.waitTimes then tb.(waitTimes := tb.waitTimes[mutex := 1])
    else
      tb.(waitTimes := tb.waitTimes[mutex := tb.waitTimes[mutex] + 1],
          locks := if Overfull(tb, mutex) && mutex !in tb.locks then tb.locks[mutex := NO_LOCK_ID] else tb.locks)
  }

  /** Inserting into the owner map never overwrites an entry. */
  function InsertLock(tb: Tables, mutex: Mutex, id: LockID): Tables {
    tb.(locks := if mutex in tb.locks then tb.locks else tb.locks[mutex := id],
        waitLocks := tb.waitLocks - {id.threadId},
        ownLocks := tb.ownLocks[id.threadId := Owned(tb, id.threadId) + {mutex}],
        waitTimes := if mutex in tb.waitTimes then tb.waitTimes[mutex := tb.waitTimes[mutex] - 1] else tb.waitTimes)
  }

  function RemoveLock(tb: Tables, mutex: Mutex, t: Tid): Tables {
    tb.(locks := tb.locks - {mutex}, ownLocks := tb.ownLocks[t := Owned(tb, t) - {mutex}])
  }

  function Apply(tb: Tables, ev: Event): Tables {
    match ev
    case Check(mutex, t) => CountWait(RecordWait(tb, mutex, t), mutex)
    case Acquire(mutex, id) => InsertLock(tb, mutex, id)
    case TryAcquire(mutex, id) => if mutex in tb.locks then tb else InsertLock(tb, mutex, id)
    case Release(mutex, t) => RemoveLock(tb, mutex, t)
  }

  /** What a caller has to watch: an acquire or a release of a mutex finds no other owner recorded, and
      a check that overruns the waiter bound finds an owner. */
  predicate Fits(tb: Tables, ev: Event) {
    match ev
    case Check(mutex, t) => mutex in tb.locks || !Overfull(tb, mutex)
    case Acquire(mutex, id) => mutex in tb.locks ==> tb.locks[mutex].threadId == id.threadId
    case TryAcquire(mutex, id) => true
    case Release(mutex, t) => mutex in tb.locks ==> tb.locks[mutex].threadId == t
  }

  lemma InsertKeptExactly(tb: Tables, mutex: Mutex, id: LockID)
    requires Consistent(tb)
    ensures Consistent(InsertLock(tb, mutex, id)) <==> Fits(tb, Acquire(mutex, id))
  {
    var after := InsertLock(tb, mutex, id);
    assert mutex in Owned(after, id.threadId);
    assert forall t :: OwnedIn(after.ownLocks, t) ==
                       if t == id.threadId then Owned(tb, t) + {mutex} else OwnedIn(tb.ownLocks, t);
  }

  /** An event keeps the tables inverse exactly when it fits. */
  lemma KeptExactly(tb: Tables, ev: Event)
    requires Consistent(tb)
    ensures Consistent(Apply(tb, ev)) <==> Fits(tb, ev)
  {
    var after := Apply(tb, ev);
    match ev
    case Check(mutex, t) =>
      if !Fits(tb, ev) { assert mutex in after.locks && mutex !in Owned(after, 0); }
    case Acquire(mutex, id) =>
      InsertKeptExactly(tb, mutex, id);
    case TryAcquire(mutex, id) =>
      InsertKeptExactly(tb, mutex, id);
    case Release(mutex, t) =>
      if !Fits(tb, ev) {
        assert mutex in OwnedIn(tb.ownLocks, tb.locks[mutex].threadId);
        assert mutex in OwnedIn(after.ownLocks, tb.locks[mutex].threadId);
      } else {
        assert forall u :: OwnedIn(after.ownLocks, u) ==
                              if u == t then Owned(tb, u) - {mutex} else OwnedIn(tb.ownLocks, u);
      }
  }

  predicate AllFit(tb: Tables, events: seq<Event>)
    decreases |events|
  {
    events == [] || (Fits(tb, events[0]) && AllFit(Apply(tb, events[0]), events[1..]))
  }

  function Run(tb: Tables, events: seq<Event>): Tables
    decreases |events|
  {
    if events == [] then tb else Run(Apply(tb, events[0]), events[1..])
  }

  lemma {:induction false} RunConsistent(tb: Tables, events: seq<Event>)
    requires Consistent(tb) && AllFit(tb, events)
    ensures Consistent(Run(tb, events))
    decreases |events|
  {
    if events == [] {
    } else {
      KeptExactly(tb, events[0]);
      RunConsistent(Apply(tb, events[0]), events[1..]);
    }
  }

  /** After any run that records each release before the next acquire, and in which no announcement overruns the
      waiter bound of a free mutex, the verdict on a further wait is right about the recorded waits. */
  lemma EveryCheckIsRight(recursives: set<Mutex>, maxBlockTids: int, events: seq<Event>, mutex: Mutex, t: Tid)
    requires AllFit(Empty(recursives, maxBlockTids), events)
    ensures var tb := RecordWait(Run(Empty(recursives, maxBlockTids), events), mutex, t);
            Verdict(tb, mutex, t) <==>
            if CycleThrough(tb, t, 1) then mutex !in tb.recursives
            else exists n: nat :: 2 <= n <= tb.maxBlockTids && CycleThrough(tb, t, n)
  {
    RunConsistent(Empty(recursives, maxBlockTids), events);
    VerdictIsCycle(RecordWait(Run(Empty(recursives, maxBlockTids), events), mutex, t), mutex, t);
  }

  // ---------------------------------------------------------------- the owner that stays

  /** Two threads that record the same mutex, the second without a release in between: the first stays its owner,
      and both own it. */
  lemma FirstOwnerStays(recursives: set<Mutex>, maxBlockTids: int, mutex: Mutex, first: LockID, second: LockID)
    requires first.threadId != second.threadId
    ensures var tb := Run(Empty(recursives, maxBlockTids), [Acquire(mutex, first), Acquire(mutex, second)]);
            && mutex in tb.locks && tb.locks[mutex] == first
            && mutex in Owned(tb, first.threadId) && mutex in Owned(tb, second.threadId)
            && !Consistent(tb)
  {
    var tb0 := Empty(recursives, maxBlockTids);
    var tb1 := Apply(tb0, Acquire(mutex, first));
    assert [Acquire(mutex, first), Acquire(mutex, second)] == [Acquire(mutex, first)] + [Acquire(mutex, second)];
    RunAppend(tb0, [Acquire(mutex, first)], Acquire(mutex, second));
    RunAppend(tb0, [], Acquire(mutex, first));
    assert [] + [Acquire(mutex, first)] == [Acquire(mutex, first)];
    KeptExactly(tb0, Acquire(mutex, first));
    KeptExactly(tb1, Acquire(mutex, second));
  }

  // ---------------------------------------------------------------- the phantom owner

  /** `n` threads announce that they are about to lock `mutex`. */
  function Checks(mutex: Mutex, n: nat): seq<Event> {
    seq(n, k requires 0 <= k < n => Check(mutex, k + 1))
  }

  lemma {:induction false} ChecksCount(tb: Tables, mutex: Mutex, events: seq<Event>)
    requires forall ev | ev in events :: ev.Check? && ev.mutex == mutex
    requires mutex !in tb.locks
    requires (if mutex in tb.waitTimes then tb.waitTimes[mutex] else 0) + |events| <= tb.maxBlockTids
    ensures Run(tb, events).locks == tb.locks && Run(tb, events).ownLocks == tb.ownLocks
    ensures Run(tb, events).maxBlockTids == tb.maxBlockTids
    ensures events != [] ==> mutex in Run(tb, events).waitTimes
    ensures mutex in Run(tb, events).waitTimes ==>
              Run(tb, events).waitTimes[mutex] == (if mutex in tb.waitTimes then tb.waitTimes[mutex] else 0) + |events|
    decreases |events|
  {
    if events == [] {
    } else {
      ChecksCount(Apply(tb, events[0]), mutex, events[1..]);
    }
  }

  lemma {:induction false} RunAppend(tb: Tables, events: seq<Event>, ev: Event)
    ensures Run(tb, events + [ev]) == Apply(Run(tb, events), ev)
    decreases |events|
  {
    if events == [] {
    } else {
      assert (events + [ev])[1..] == events[1..] + [ev];
      RunAppend(Apply(tb, events[0]), events[1..], ev);
    }
  }

  /** With the bound of 8, nine threads that announce themselves on a free mutex before any of them
      records its lock leave the mutex owned by thread 0, which owns nothing. */
  lemma PhantomOwner(mutex: Mutex)
    ensures var tb := Run(Empty({}, 8), Checks(mutex, 9));
            mutex in tb.locks && tb.locks[mutex] == NO_LOCK_ID && !Consistent(tb)
  {
    var before := Checks(mutex, 8);
    ChecksCount(Empty({}, 8), mutex, before);
    assert Checks(mutex, 9) == before + [Check(mutex, 9)];
    RunAppend(Empty({}, 8), before, Check(mutex, 9));
    var tb := Run(Empty({}, 8), Checks(mutex, 9));
    assert mutex !in Owned(tb, 0);
  }

  // ---------------------------------------------------------------- the tracer object

  class Tracer {
    var locks: map<Mutex, LockID>
    var waitTimes: map<Mutex, int>
    var waitLocks: map<Tid, Mutex>
    var ownLocks: map<Tid, set<Mutex>>
    var recursives: set<Mutex>
    var maxBlockTids: int

    ghost function View(): Tables
      reads this
    {
      Tables(locks, waitTimes, waitLocks, ownLocks, recursives, maxBlockTids)
    }

    /** The recursive half of the search. */
    method SearchFrom(own: set<Mutex>, other: Tid, depth: int) returns (found: bool)
      ensures found == Search(View(), own, other, depth)
      decreases maxBlockTids - depth
    {
      if depth >= maxBlockTids {
        return false;
      }
      if other !in waitLocks {
        return false;
      }
      var waited := waitLocks[other];
      if waited in own {
        return true;
      }
      if waited !in locks {
        return false;
      }
      found := SearchFrom(own, locks[waited].threadId, depth + 1);
    }

    method DeadlockCheck(mutex: Mutex, t: Tid) returns (found: bool)
      modifies this`waitLocks
      ensures View() == old(RecordWait(View(), mutex, t))
      ensures found == Verdict(View(), mutex, t)
      ensures Consistent(View()) ==>
                (found <==> if CycleThrough(View(), t, 1) then mutex !in recursives
                            else exists n: nat :: 2 <= n <= maxBlockTids && CycleThrough(View(), t, n))
    {
      waitLocks := waitLocks[t := mutex];
      if Consistent(View()) { VerdictIsCycle(View(), mutex, t); }
      if mutex !in locks {
        return false;
      }
      var other := locks[mutex];
      if other.threadId == t {
        return mutex !in recursives;
      }
      if t !in ownLocks {
        return false;
      }
      var own := ownLocks[t];
      if own == {} {
        return false;
      }
      found := SearchFrom(own, other.threadId, 1);
    }

    method CheckLockTimes(mutex: Mutex) returns (overfull: bool)
      modifies this`waitTimes, this`locks
      ensures View() == old(CountWait(View(), mutex))
      ensures overfull == old(Overfull(View(), mutex))
    {
      if mutex !in waitTimes {
        waitTimes := waitTimes[mutex := 1];
        return false;
      }
      var lockTimes := waitTimes[mutex];
      waitTimes := waitTimes[mutex := lockTimes + 1];
      if lockTimes >= maxBlockTids {
        if mutex !in locks {
          locks := locks[mutex := NO_LOCK_ID];
        }
        return true;
      }
      return false;
    }

    method AddOwn(mutex: Mutex, t: Tid)
      modifies this`ownLocks
      ensures ownLocks == old(ownLocks)[t := OwnedIn(old(ownLocks), t) + {mutex}]
    {
      if t !in ownLocks {
        ownLocks := ownLocks[t := {}];
      }
      ownLocks := ownLocks[t := ownLocks[t] + {mutex}];
    }

    method Lock(mutex: Mutex, id: LockID)
      modifies this
      ensures View() == old(Apply(View(), Acquire(mutex, id)))
    {
      if mutex !in locks {
        locks := locks[mutex := id];
      }
      waitLocks := waitLocks - {id.threadId};
      AddOwn(mutex, id.threadId);
      if mutex in waitTimes {
        waitTimes := waitTimes[mutex := waitTimes[mutex] - 1];
      }
    }

    method TryLock(mutex: Mutex, id: LockID)
      modifies this
      ensures View() == old(Apply(View(), TryAcquire(mutex, id)))
    {
      if mutex in locks {
        return;
      }
      Lock(mutex, id);
    }

    method Unlock(mutex: Mutex, t: Tid)
      modifies this`locks, this`ownLocks
      ensures View() == old(Apply(View(), Release(mutex, t)))
    {
      locks := locks - {mutex};
      if t !in ownLocks {
        ownLocks := ownLocks[t := {}];
      }
      ownLocks := ownLocks[t := ownLocks[t] - {mutex}];
    }
  }
}
