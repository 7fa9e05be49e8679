/** The reader/writer lock with a re-entrant writer side and two condition variables.

    Each critical section under `mutex_` is one atomic step: a call up to its return or its wait,
    and a woken waiter's next turn of the wait loop. Spurious wake-ups are steps too. The readers
    and writers fields are history: one entry for every call that has not been released. */
module RecursiveSharedMutex {
  import opened Common

  type Tid = nat

  datatype State = State(
    shared: int,
    exclusive: int,
    owner: Option<Tid>,
    recursive: int,
    blockedR: set<Tid>, wokenR: set<Tid>,
    blockedW: set<Tid>, wokenW: set<Tid>,
    readers: multiset<Tid>, writers: multiset<Tid>)
  {
    function Waiting(): set<Tid> {
      blockedR + wokenR + blockedW + wokenW
    }
  }

  const INIT := State(0, 0, None, 0, {}, {}, {}, {}, multiset{}, multiset{})

  /** `pick` is the writer that notify_one wakes; it means nothing when no writer is blocked. */
  datatype Step =
    | LockShared(t: Tid) | ResumeShared(t: Tid) | TryLockShared(t: Tid) | UnlockShared(t: Tid, pick: Tid)
    | Lock(t: Tid) | ResumeLock(t: Tid) | Unlock(t: Tid, pick: Tid)
    | Spurious(t: Tid)

  // ---------------------------------------------------------------- one step

  /** Only threads that are not waiting make calls, only woken threads resume, only holders release. */
  predicate Enabled(s: State, step: Step) {
    match step
    case LockShared(t) => t !in s.Waiting()
    case ResumeShared(t) => t in s.wokenR
    case TryLockShared(t) => t !in s.Waiting()
    case UnlockShared(t, pick) => t !in s.Waiting() && t in s.readers && (s.blockedW == {} || pick in s.blockedW)
    case Lock(t) => t !in s.Waiting()
    case ResumeLock(t) => t in s.wokenW
    case Unlock(t, pick) => t !in s.Waiting() && t in s.writers && (s.blockedW == {} || pick in s.blockedW)
    case Spurious(t) => t in s.blockedR || t in s.blockedW
  }

  function NotifyOneWriter(s: State, pick: Tid): State {
    if pick in s.blockedW then s.(blockedW := s.blockedW - {pick}, wokenW := s.wokenW + {pick}) else s
  }

  function NotifyAllReaders(s: State): State {
    s.(blockedR := {}, wokenR := s.wokenR + s.blockedR)
  }

  function AcquireShared(s: State, t: Tid): State {
    if s.exclusive > 0 then s.(blockedR := s.blockedR + {t}, wokenR := s.wokenR - {t})
    else s.(shared := s.shared + 1, wokenR := s.wokenR - {t}, readers := s.readers + multiset{t})
  }

  function AcquireExclusive(s: State, t: Tid): State {
    if s.shared > 0 || s.exclusive > 0 then
      if s.owner == Some(t) then
        s.(recursive := s.recursive + 1, wokenW := s.wokenW - {t}, writers := s.writers + multiset{t})
      else s.(blockedW := s.blockedW + {t}, wokenW := s.wokenW - {t})
    else
      s.(owner := Some(t), recursive := 1, exclusive := s.exclusive + 1,
         wokenW := s.wokenW - {t}, writers := s.writers + multiset{t})
  }

  function ReleaseShared(s: State, t: Tid, pick: Tid): State {
    var s1 := s.(shared := s.shared - 1, readers := s.readers - multiset{t});
    if s1.shared == 0 then NotifyOneWriter(s1, pick) else s1
  }

  function FreeExclusive(s: State, pick: Tid): State {
    var s1 := s.(owner := None, recursive := 0, exclusive := s.exclusive - 1);
    if s1.exclusive == 0 then NotifyOneWriter(NotifyAllReaders(s1), pick) else s1
  }

  function ReleaseExclusive(s: State, t: Tid, pick: Tid): State {
    var s1 := s.(writers := s.writers - multiset{t});
    if s.owner == Some(t) && s.recursive > 1 then s1.(recursive := s.recursive - 1) else FreeExclusive(s1, pick)
  }

  function Apply(s: State, step: Step): State {
    match step
    case LockShared(t) => AcquireShared(s, t)
    case ResumeShared(t) => AcquireShared(s, t)
    case TryLockShared(t) => if s.exclusive == 0 then AcquireShared(s, t) else s
    case UnlockShared(t, pick) => ReleaseShared(s, t, pick)
    case Lock(t) => AcquireExclusive(s, t)
    case ResumeLock(t) => AcquireExclusive(s, t)
    case Unlock(t, pick) => ReleaseExclusive(s, t, pick)
    case Spurious(t) =>
      if t in s.blockedR then s.(blockedR := s.blockedR - {t}, wokenR := s.wokenR + {t})
      else s.(blockedW := s.blockedW - {t}, wokenW := s.wokenW + {t})
  }

  // ---------------------------------------------------------------- runs

  predicate Legal(s: State, steps: seq<Step>)
    decreases |steps|
  {
    steps == [] || (Enabled(s, steps[0]) && Legal(Apply(s, steps[0]), steps[1..]))
  }

  function Run(s: State, steps: seq<Step>): State
    decreases |steps|
  {
    if steps == [] then s else Run(Apply(s, steps[0]), steps[1..])
  }

  // ---------------------------------------------------------------- what every step keeps

  /** Readers and a writer never hold together, one thread at most holds the write side,
      and the counters count the outstanding calls. */
  ghost predicate Exclusion(s: State) {
    && (s.readers == multiset{} || s.writers == multiset{})
    && s.shared == |s.readers|
    && s.recursive == |s.writers|
    && s.exclusive == (if s.writers == multiset{} then 0 else 1)
    && (s.owner.Some? <==> s.writers != multiset{})
    && (forall t | t in s.writers :: s.owner == Some(t))
  }

  /** Nobody sleeps through a free lock. */
  ghost predicate NoLostWakeup(s: State) {
    && (s.exclusive == 0 ==> s.blockedR == {})
    && (s.exclusive == 0 && s.shared == 0 && s.blockedW != {} ==> s.wokenW != {})
  }

  /** A thread waits in one place, and never for a side it already holds. */
  ghost predicate WaitsOnce(s: State) {
    && s.blockedR !! s.wokenR !! s.blockedW !! s.wokenW
    && (forall t | t in s.blockedR + s.wokenR :: t !in s.readers)
    && (forall t | t in s.blockedW + s.wokenW :: t !in s.writers)
  }

  ghost predicate Inv(s: State) {
    Exclusion(s) && NoLostWakeup(s) && WaitsOnce(s)
  }

  lemma AcquireSharedKeeps(s: State, t: Tid)
    requires Inv(s) && (t !in s.Waiting() || t in s.wokenR)
    ensures Inv(AcquireShared(s, t))
  {
  }

  lemma AcquireExclusiveKeeps(s: State, t: Tid)
    requires Inv(s) && (t !in s.Waiting() || t in s.wokenW)
    ensures Inv(AcquireExclusive(s, t))
  {
    var s' := AcquireExclusive(s, t);
    if s.owner == Some(t) {
      var u :| u in s.writers;
      assert t in s.writers;
    }
    if s.shared == 0 && s.exclusive == 0 {
      assert s'.writers == multiset{t};
    }
  }

  lemma ReleaseSharedKeeps(s: State, t: Tid, pick: Tid)
    requires Inv(s) && Enabled(s, UnlockShared(t, pick))
    ensures Inv(ReleaseShared(s, t, pick))
  {
  }

  lemma ReleaseExclusiveKeeps(s: State, t: Tid, pick: Tid)
    requires Inv(s) && Enabled(s, Unlock(t, pick))
    ensures Inv(ReleaseExclusive(s, t, pick))
  {
    var s' := ReleaseExclusive(s, t, pick);
    if s.recursive == 1 {
      assert s.writers == multiset{t} + (s.writers - multiset{t});
      assert s'.writers == multiset{};
    }
  }

  lemma StepKeeps(s: State, step: Step)
    requires Inv(s) && Enabled(s, step)
    ensures Inv(Apply(s, step))
  {
    match step
    case LockShared(t) => AcquireSharedKeeps(s, t);
    case ResumeShared(t) => AcquireSharedKeeps(s, t);
    case TryLockShared(t) => AcquireSharedKeeps(s, t);
    case UnlockShared(t, pick) => ReleaseSharedKeeps(s, t, pick);
    case Lock(t) => AcquireExclusiveKeeps(s, t);
    case ResumeLock(t) => AcquireExclusiveKeeps(s, t);
    case Unlock(t, pick) => ReleaseExclusiveKeeps(s, t, pick);
    case Spurious(t) =>
  }

  lemma {:induction false} RunKeeps(s: State, steps: seq<Step>)
    requires Inv(s) && Legal(s, steps)
    ensures Inv(Run(s, steps))
    decreases |steps|
  {
    if steps == [] {
    } else {
      StepKeeps(s, steps[0]);
      RunKeeps(Apply(s, steps[0]), steps[1..]);
    }
  }

  /** Mutual exclusion and no lost wake-up, in every state of every run. */
  lemma EveryRunIsSafe(steps: seq<Step>)
    requires Legal(INIT, steps)
    ensures Exclusion(Run(INIT, steps)) && NoLostWakeup(Run(INIT, steps)) && WaitsOnce(Run(INIT, steps))
  {
    RunKeeps(INIT, steps);
  }

  // ---------------------------------------------------------------- progress, and how to lose it

  ghost predicate Holds(s: State, t: Tid) {
    t in s.readers || t in s.writers
  }

  /** The thread holds one side and waits for the other. */
  ghost predicate SelfBlocked(s: State, t: Tid) {
    || (t in s.writers && t in s.blockedR + s.wokenR)
    || (t in s.readers && t in s.blockedW + s.wokenW)
  }

  /** A woken thread whose next turn takes the lock. */
  ghost predicate Grants(s: State, t: Tid) {
    || (t in s.wokenR && t in Apply(s, ResumeShared(t)).readers)
    || (t in s.wokenW && t in Apply(s, ResumeLock(t)).writers)
  }

  /** As long as no thread has blocked itself, a waiting thread means that either some holder is
      still running, and can release, or some woken thread gets the lock at its next turn. */
  lemma SomeoneMoves(steps: seq<Step>)
    requires Legal(INIT, steps)
    requires Run(INIT, steps).Waiting() != {}
    requires forall t :: !SelfBlocked(Run(INIT, steps), t)
    ensures var s := Run(INIT, steps);
            || (exists t :: Holds(s, t) && t !in s.Waiting())
            || (exists t :: Grants(s, t))
  {
    var s := Run(INIT, steps);
    RunKeeps(INIT, steps);
    if s.readers != multiset{} {
      var t :| t in s.readers;
      assert Holds(s, t) && !SelfBlocked(s, t);
    } else if s.writers != multiset{} {
      var t :| t in s.writers;
      assert Holds(s, t) && !SelfBlocked(s, t);
    } else if s.wokenR != {} {
      var t :| t in s.wokenR;
      assert Grants(s, t);
    } else {
      assert s.wokenW != {};
      var t :| t in s.wokenW;
      assert Grants(s, t);
    }
  }

  /** A try takes the read side exactly when nobody holds the write side, and changes nothing otherwise. */
  lemma TryExactly(s: State, t: Tid)
    requires Inv(s) && t !in s.Waiting()
    ensures var s' := Apply(s, TryLockShared(t));
            if s.writers != multiset{} then s' == s
            else s'.readers == s.readers + multiset{t} && s' == s.(shared := s.shared + 1, readers := s'.readers)
  {
  }

  ghost predicate Free(s: State) {
    s.readers == multiset{} && s.writers == multiset{}
  }

  ghost predicate WakesWriter(s: State, s': State, t: Tid) {
    t in s.blockedW && t in s'.wokenW
  }

  ghost predicate WakesReader(s: State, s': State, t: Tid) {
    t in s.blockedR && t in s'.wokenR
  }

  /** The last reader to leave wakes the one sleeping writer it picks, and nobody else. */
  lemma ReleaseSharedWakes(s: State, r: Tid, pick: Tid, t: Tid)
    requires Inv(s) && Enabled(s, UnlockShared(r, pick))
    ensures var s' := ReleaseShared(s, r, pick);
            && (WakesWriter(s, s', t) <==> t in s.blockedW && Free(s') && pick == t)
            && !WakesReader(s, s', t)
  {
  }

  /** A writer that gives up its last level wakes all sleeping readers and the one sleeping writer it picks. */
  lemma ReleaseExclusiveWakes(s: State, w: Tid, pick: Tid, t: Tid)
    requires Inv(s) && Enabled(s, Unlock(w, pick))
    ensures var s' := ReleaseExclusive(s, w, pick);
            && (WakesWriter(s, s', t) <==> t in s.blockedW && Free(s') && pick == t)
            && (WakesReader(s, s', t) <==> t in s.blockedR && Free(s'))
  {
    ReleaseExclusiveKeeps(s, w, pick);
  }

  /** No other step wakes anybody but a thread that wakes by itself. */
  lemma OthersWakeNobody(s: State, step: Step, t: Tid)
    requires Inv(s) && Enabled(s, step) && !step.UnlockShared? && !step.Unlock?
    ensures var s' := Apply(s, step);
            && (WakesWriter(s, s', t) <==> t in s.blockedW && step == Spurious(t))
            && (WakesReader(s, s', t) <==> t in s.blockedR && step == Spurious(t))
  {
  }

  /** A call blocks its own thread exactly when the thread holds the other side. */
  lemma SelfBlockExactly(s: State, t: Tid)
    requires Inv(s) && t !in s.Waiting()
    ensures SelfBlocked(Apply(s, LockShared(t)), t) <==> t in s.writers
    ensures SelfBlocked(Apply(s, Lock(t)), t) <==> t in s.readers
  {
    if t in s.readers { assert s.shared > 0 && s.writers == multiset{}; }
  }

  lemma SelfBlockStays(s: State, t: Tid, step: Step)
    requires Inv(s) && Enabled(s, step) && SelfBlocked(s, t)
    ensures SelfBlocked(Apply(s, step), t)
  {
    if t in s.writers {
      assert s.exclusive == 1;
    } else {
      assert s.shared > 0 && s.owner == None;
    }
  }

  /** Once a thread has blocked itself no run of the other threads ever frees it: upgrading a read lock,
      or taking a read lock under one's own write lock, waits forever. */
  lemma {:induction false} SelfBlockIsForever(s: State, t: Tid, steps: seq<Step>)
    requires Inv(s) && SelfBlocked(s, t) && Legal(s, steps)
    ensures SelfBlocked(Run(s, steps), t)
    decreases |steps|
  {
    if steps == [] {
    } else {
      SelfBlockStays(s, t, steps[0]);
      StepKeeps(s, steps[0]);
      SelfBlockIsForever(Apply(s, steps[0]), t, steps[1..]);
    }
  }

  // ---------------------------------------------------------------- the lock object

  /** The lock with its counters, its owner and, for each condition variable, the threads asleep on it
      and the threads woken but not yet back in. */
  class SharedLock {
    var sharedCount: int
    var exclusiveCount: int
    var recursiveOwner: Option<Tid>
    var recursiveCount: int
    var blockedR: set<Tid>
    var wokenR: set<Tid>
    var blockedW: set<Tid>
    var wokenW: set<Tid>
    ghost var readers: multiset<Tid>
    ghost var writers: multiset<Tid>

    ghost function View(): State
      reads this
    {
      State(sharedCount, exclusiveCount, recursiveOwner, recursiveCount,
            blockedR, wokenR, blockedW, wokenW, readers, writers)
    }

    constructor ()
      ensures View() == INIT
    {
      sharedCount, exclusiveCount, recursiveOwner, recursiveCount := 0, 0, None, 0;
      blockedR, wokenR, blockedW, wokenW := {}, {}, {}, {};
      readers, writers := multiset{}, multiset{};
    }

    /** One turn of the loop in lock_shared: a call, or a woken thread coming back. */
    method LockSharedTurn(t: Tid) returns (acquired: bool)
      requires t !in blockedR
      modifies this
      ensures View() == old(AcquireShared(View(), t))
      ensures acquired <==> t !in blockedR
    {
      wokenR := wokenR - {t};
      if exclusiveCount > 0 {
        blockedR := blockedR + {t};
        return false;
      }
      sharedCount := sharedCount + 1;
      readers := readers + multiset{t};
      return true;
    }

    method TryLockShared(t: Tid) returns (acquired: bool)
      requires t !in wokenR
      modifies this
      ensures View() == old(Apply(View(), Step.TryLockShared(t)))
      ensures acquired <==> readers != old(readers)
    {
      if exclusiveCount == 0 {
        sharedCount := sharedCount + 1;
        readers := readers + multiset{t};
        assert readers[t] == old(readers[t]) + 1;
        return true;
      }
      return false;
    }

    method NotifyOne() returns (ghost pick: Tid)
      modifies this`blockedW, this`wokenW
      ensures old(blockedW) == {} || pick in old(blockedW)
      ensures View() == old(NotifyOneWriter(View(), pick))
    {
      pick := 0;
      if blockedW != {} {
        var w :| w in blockedW;
        blockedW, wokenW := blockedW - {w}, wokenW + {w};
        pick := w;
      }
    }

    method NotifyAll()
      modifies this`blockedR, this`wokenR
      ensures View() == old(NotifyAllReaders(View()))
    {
      wokenR, blockedR := wokenR + blockedR, {};
    }

    method UnlockShared(t: Tid) returns (ghost pick: Tid)
      modifies this
      ensures View() == old(ReleaseShared(View(), t, pick))
      ensures old(blockedW) == {} || pick in old(blockedW)
    {
      pick := if blockedW == {} then 0 else (var w :| w in blockedW; w);
      sharedCount := sharedCount - 1;
      readers := readers - multiset{t};
      if sharedCount == 0 {
        pick := NotifyOne();
      }
    }

    /** One turn of the loop in lock. */
    method LockTurn(t: Tid) returns (acquired: bool)
      requires t !in blockedW
      modifies this`wokenW, this`blockedW, this`recursiveOwner, this`recursiveCount, this`exclusiveCount, this`writers
      ensures View() == old(AcquireExclusive(View(), t))
      ensures acquired <==> t !in blockedW
    {
      wokenW := wokenW - {t};
      if sharedCount > 0 || exclusiveCount > 0 {
        if recursiveOwner == Some(t) {
          recursiveCount, writers := recursiveCount + 1, writers + multiset{t};
          return true;
        }
        blockedW := blockedW + {t};
        return false;
      }
      recursiveOwner, recursiveCount, exclusiveCount, writers :=
        Some(t), 1, exclusiveCount + 1, writers + multiset{t};
      return true;
    }

    /** The end of unlock at the last level. */
    method FreeLock() returns (ghost pick: Tid)
      modifies this`recursiveOwner, this`recursiveCount, this`exclusiveCount,
               this`blockedR, this`wokenR, this`blockedW, this`wokenW
      ensures View() == old(FreeExclusive(View(), pick))
      ensures old(blockedW) == {} || pick in old(blockedW)
    {
      pick := if blockedW == {} then 0 else (var w :| w in blockedW; w);
      recursiveOwner, recursiveCount, exclusiveCount := None, 0, exclusiveCount - 1;
      if exclusiveCount == 0 {
        NotifyAll();
        pick := NotifyOne();
      }
    }

    method Unlock(t: Tid) returns (ghost pick: Tid)
      modifies this
      ensures View() == old(ReleaseExclusive(View(), t, pick))
      ensures old(blockedW) == {} || pick in old(blockedW)
    {
      pick := if blockedW == {} then 0 else (var w :| w in blockedW; w);
      ghost var s := View();
      writers := writers - multiset{t};
      assert View() == s.(writers := s.writers - multiset{t});
      if recursiveOwner == Some(t) && recursiveCount > 1 {
        recursiveCount := recursiveCount - 1;
      } else {
        pick := FreeLock();
      }
    }
  }
}
