/** What the lock tracer's tables hold after any run, told from the events alone: who is on record as the owner of a
    mutex, who owns what, who waits for what, and how many wait. */
module LockHistory {
  import opened Common
  import opened LockTrace

  type History = seq<Event>

  // ---------------------------------------------------------------- the last time

  /** `p` held at some place below `n` and `q` at none after it. */
  ghost predicate Since(n: nat, p: nat -> bool, q: nat -> bool) {
    exists i: nat :: i < n && p(i) && forall j: nat | i < j < n :: !q(j)
  }

  ghost predicate Agree(n: nat, p: nat -> bool, p': nat -> bool) {
    forall i: nat | i < n :: p(i) == p'(i)
  }

  lemma SinceOneMore(n: nat, p: nat -> bool, q: nat -> bool, p': nat -> bool, q': nat -> bool)
    requires Agree(n, p, p') && Agree(n, q, q')
    ensures Since(n + 1, p', q') <==> p'(n) || (Since(n, p, q) && !q'(n))
  {
    if Since(n + 1, p', q') {
      var i: nat :| i < n + 1 && p'(i) && forall j: nat | i < j < n + 1 :: !q'(j);
      if i < n { assert p(i) && !q'(n); }
    }
    if Since(n, p, q) && !q'(n) {
      var i: nat :| i < n && p(i) && forall j: nat | i < j < n :: !q(j);
      assert p'(i);
    }
  }

  /** How often `p` held below `n`. */
  ghost function Count(n: nat, p: nat -> bool): nat {
    |set i: nat | i < n && p(i)|
  }

  lemma CountOneMore(n: nat, p: nat -> bool, p': nat -> bool)
    requires Agree(n, p, p')
    ensures Count(n + 1, p') == Count(n, p) + (if p'(n) then 1 else 0)
  {
    var below := set i: nat | i < n && p(i);
    assert (set i: nat | i < n + 1 && p'(i)) == below + (if p'(n) then {n} else {});
  }

  lemma CountNone(n: nat, p: nat -> bool)
    requires forall i: nat | i < n :: !p(i)
    ensures Count(n, p) == 0
  {
    assert (set i: nat | i < n && p(i)) == {};
  }

  // ---------------------------------------------------------------- the history

  /** Somebody has announced themselves for the mutex. */
  ghost predicate Announced(events: History, m: Mutex) {
    exists ev :: ev in events && ev.Check? && ev.mutex == m
  }

  /** The event takes its mutex: a lock does, and a try that finds no owner on record. */
  ghost predicate Takes(bound: int, before: History, ev: Event)
    decreases |before|, 2
  {
    ev.Acquire? || (ev.TryAcquire? && !Recorded(bound, before, ev.mutex))
  }

  function AnnouncesAt(events: History, m: Mutex): nat -> bool {
    (i: nat) => i < |events| && events[i].Check? && events[i].mutex == m
  }

  ghost function TakesSinceAt(bound: int, events: History, m: Mutex): nat -> bool
    decreases |events|, 0
  {
    (i: nat) => && i < |events| && events[i].mutex == m && Announced(events[..i], m)
                && Takes(bound, events[..i], events[i])
  }

  /** The announcements for the mutex, less the times it was taken since the first of them. */
  ghost function Waiters(bound: int, events: History, m: Mutex): int
    decreases |events|, 1
  {
    Count(|events|, AnnouncesAt(events, m)) - Count(|events|, TakesSinceAt(bound, events, m))
  }

  /** The owner that the event puts on record for the mutex, if there is none: the thread that locks it, or nobody in
      particular when an announcement overruns the bound. */
  ghost function Recorder(bound: int, before: History, ev: Event, m: Mutex): Option<LockID>
    decreases |before|, 2
  {
    if ev.mutex != m then None
    else match ev
      case Check(_, _) => if Announced(before, m) && Waiters(bound, before, m) >= bound then Some(NO_LOCK_ID) else None
      case Acquire(_, id) => Some(id)
      case TryAcquire(_, id) => Some(id)
      case Release(_, _) => None
  }

  ghost function RecordsAt(bound: int, events: History, m: Mutex): nat -> bool
    decreases |events|, 0
  {
    (i: nat) => i < |events| && Recorder(bound, events[..i], events[i], m).Some?
  }

  function ReleasesAt(events: History, m: Mutex): nat -> bool {
    (i: nat) => i < |events| && events[i].Release? && events[i].mutex == m
  }

  /** Some owner has been put on record since the last release. */
  ghost predicate Recorded(bound: int, events: History, m: Mutex)
    decreases |events|, 1
  {
    Since(|events|, RecordsAt(bound, events, m), ReleasesAt(events, m))
  }

  ghost function FirstRecordsAt(bound: int, events: History, m: Mutex, id: LockID): nat -> bool {
    (i: nat) => && i < |events| && Recorder(bound, events[..i], events[i], m) == Some(id)
                && !Recorded(bound, events[..i], m)
  }

  /** The owner on record is the first since the last release. */
  ghost predicate OwnerIs(bound: int, events: History, m: Mutex, id: LockID) {
    Since(|events|, FirstRecordsAt(bound, events, m, id), ReleasesAt(events, m))
  }

  ghost predicate TakenBy(bound: int, before: History, ev: Event, t: Tid) {
    Takes(bound, before, ev) && ev.id.threadId == t
  }

  ghost function TakesAt(bound: int, events: History, t: Tid, m: Mutex): nat -> bool {
    (i: nat) => i < |events| && events[i].mutex == m && TakenBy(bound, events[..i], events[i], t)
  }

  function LetsGoAt(events: History, t: Tid, m: Mutex): nat -> bool {
    (i: nat) => i < |events| && events[i] == Release(m, t)
  }

  /** The thread has taken the mutex and not released it since. */
  ghost predicate Owns(bound: int, events: History, t: Tid, m: Mutex) {
    Since(|events|, TakesAt(bound, events, t, m), LetsGoAt(events, t, m))
  }

  function ChecksAt(events: History, t: Tid, m: Mutex): nat -> bool {
    (i: nat) => i < |events| && events[i] == Check(m, t)
  }

  ghost function MovesOnAt(bound: int, events: History, t: Tid): nat -> bool {
    (i: nat) => i < |events| && ((events[i].Check? && events[i].t == t) || TakenBy(bound, events[..i], events[i], t))
  }

  /** The thread's last announcement was for the mutex, and it has taken none since. */
  ghost predicate WaitsFor(bound: int, events: History, t: Tid, m: Mutex) {
    Since(|events|, ChecksAt(events, t, m), MovesOnAt(bound, events, t))
  }

  // ---------------------------------------------------------------- one more event

  lemma Prefixes(events: History, ev: Event, i: nat)
    requires i < |events|
    ensures (events + [ev])[..i] == events[..i] && (events + [ev])[i] == events[i]
  {
  }

  lemma Whole(events: History, ev: Event)
    ensures (events + [ev])[..|events|] == events && (events + [ev])[|events|] == ev
  {
  }

  lemma AnnouncedOn(events: History, ev: Event, m: Mutex)
    ensures Announced(events + [ev], m) <==> Announced(events, m) || (ev.Check? && ev.mutex == m)
  {
    if x :| x in events && x.Check? && x.mutex == m { assert x in events + [ev]; }
    assert ev in events + [ev];
  }

  lemma RecordedOn(bound: int, events: History, ev: Event, m: Mutex)
    ensures Recorded(bound, events + [ev], m) <==>
            || Recorder(bound, events, ev, m).Some?
            || (Recorded(bound, events, m) && !(ev.Release? && ev.mutex == m))
  {
    var later := events + [ev];
    var p, q := RecordsAt(bound, events, m), ReleasesAt(events, m);
    var p', q' := RecordsAt(bound, later, m), ReleasesAt(later, m);
    forall i: nat | i < |events| ensures p(i) == p'(i) && q(i) == q'(i) { Prefixes(events, ev, i); }
    Whole(events, ev);
    SinceOneMore(|events|, p, q, p', q');
  }

  lemma OwnerOn(bound: int, events: History, ev: Event, m: Mutex, id: LockID)
    ensures OwnerIs(bound, events + [ev], m, id) <==>
            || (Recorder(bound, events, ev, m) == Some(id) && !Recorded(bound, events, m))
            || (OwnerIs(bound, events, m, id) && !(ev.Release? && ev.mutex == m))
  {
    var later := events + [ev];
    var p, q := FirstRecordsAt(bound, events, m, id), ReleasesAt(events, m);
    var p', q' := FirstRecordsAt(bound, later, m, id), ReleasesAt(later, m);
    forall i: nat | i < |events| ensures p(i) == p'(i) && q(i) == q'(i) { Prefixes(events, ev, i); }
    Whole(events, ev);
    SinceOneMore(|events|, p, q, p', q');
  }

  lemma OwnsOn(bound: int, events: History, ev: Event, t: Tid, m: Mutex)
    ensures Owns(bound, events + [ev], t, m) <==>
            || (ev.mutex == m && TakenBy(bound, events, ev, t))
            || (Owns(bound, events, t, m) && ev != Release(m, t))
  {
    var later := events + [ev];
    var p, q := TakesAt(bound, events, t, m), LetsGoAt(events, t, m);
    var p', q' := TakesAt(bound, later, t, m), LetsGoAt(later, t, m);
    forall i: nat | i < |events| ensures p(i) == p'(i) && q(i) == q'(i) { Prefixes(events, ev, i); }
    Whole(events, ev);
    SinceOneMore(|events|, p, q, p', q');
  }

  lemma WaitsOn(bound: int, events: History, ev: Event, t: Tid, m: Mutex)
    ensures WaitsFor(bound, events + [ev], t, m) <==>
            || ev == Check(m, t)
            || (WaitsFor(bound, events, t, m) && !(ev.Check? && ev.t == t) && !TakenBy(bound, events, ev, t))
  {
    var later := events + [ev];
    var p, q := ChecksAt(events, t, m), MovesOnAt(bound, events, t);
    var p', q' := ChecksAt(later, t, m), MovesOnAt(bound, later, t);
    forall i: nat | i < |events| ensures p(i) == p'(i) && q(i) == q'(i) { Prefixes(events, ev, i); }
    Whole(events, ev);
    SinceOneMore(|events|, p, q, p', q');
  }

  lemma AnnouncementsOn(events: History, ev: Event, m: Mutex)
    ensures Count(|events| + 1, AnnouncesAt(events + [ev], m)) ==
            Count(|events|, AnnouncesAt(events, m)) + (if ev.Check? && ev.mutex == m then 1 else 0)
  {
    var p, p' := AnnouncesAt(events, m), AnnouncesAt(events + [ev], m);
    forall i: nat | i < |events| ensures p(i) == p'(i) { Prefixes(events, ev, i); }
    Whole(events, ev);
    CountOneMore(|events|, p, p');
  }

  lemma TakesSinceSame(bound: int, events: History, ev: Event, m: Mutex, i: nat)
    requires i < |events|
    ensures TakesSinceAt(bound, events, m)(i) == TakesSinceAt(bound, events + [ev], m)(i)
  {
    Prefixes(events, ev, i);
  }

  lemma TakesSinceNow(bound: int, events: History, ev: Event, m: Mutex)
    ensures TakesSinceAt(bound, events + [ev], m)(|events|) ==
            (ev.mutex == m && Announced(events, m) && Takes(bound, events, ev))
  {
    Whole(events, ev);
  }

  lemma TakesSinceAgree(bound: int, events: History, ev: Event, m: Mutex)
    ensures Agree(|events|, TakesSinceAt(bound, events, m), TakesSinceAt(bound, events + [ev], m))
  {
    forall i: nat | i < |events|
      ensures TakesSinceAt(bound, events, m)(i) == TakesSinceAt(bound, events + [ev], m)(i)
    {
      TakesSinceSame(bound, events, ev, m, i);
    }
  }

  lemma TakingsOn(bound: int, events: History, ev: Event, m: Mutex, taken: bool)
    requires taken == (ev.mutex == m && Announced(events, m) && Takes(bound, events, ev))
    ensures Count(|events| + 1, TakesSinceAt(bound, events + [ev], m)) ==
            Count(|events|, TakesSinceAt(bound, events, m)) + (if taken then 1 else 0)
  {
    TakesSinceNow(bound, events, ev, m);
    TakesSinceAgree(bound, events, ev, m);
    CountOneMore(|events|, TakesSinceAt(bound, events, m), TakesSinceAt(bound, events + [ev], m));
  }

  lemma WaitersOn(bound: int, events: History, ev: Event, m: Mutex)
    ensures Waiters(bound, events + [ev], m) ==
            if ev.mutex != m then Waiters(bound, events, m)
            else if ev.Check? then Waiters(bound, events, m) + 1
            else if Announced(events, m) && Takes(bound, events, ev) then Waiters(bound, events, m) - 1
            else Waiters(bound, events, m)
  {
    AnnouncementsOn(events, ev, m);
    TakingsOn(bound, events, ev, m, ev.mutex == m && Announced(events, m) && Takes(bound, events, ev));
  }

  // ---------------------------------------------------------------- the tables

  /** The owner of the mutex is the one on record. */
  ghost predicate KeepsOwner(bound: int, events: History, tb: Tables, m: Mutex) {
    && (m in tb.locks <==> Recorded(bound, events, m))
    && (forall id :: OwnerIs(bound, events, m, id) <==> m in tb.locks && tb.locks[m] == id)
  }

  ghost predicate KeepsOwned(bound: int, events: History, tb: Tables, t: Tid, m: Mutex) {
    m in Owned(tb, t) <==> Owns(bound, events, t, m)
  }

  ghost predicate KeepsWait(bound: int, events: History, tb: Tables, t: Tid, m: Mutex) {
    (t in tb.waitLocks && tb.waitLocks[t] == m) <==> WaitsFor(bound, events, t, m)
  }

  ghost predicate KeepsCount(bound: int, events: History, tb: Tables, m: Mutex) {
    && (m in tb.waitTimes <==> Announced(events, m))
    && (m in tb.waitTimes ==> tb.waitTimes[m] == Waiters(bound, events, m))
  }

  ghost predicate Remembers(bound: int, events: History, tb: Tables) {
    && tb.maxBlockTids == bound
    && (forall m :: KeepsOwner(bound, events, tb, m))
    && (forall m :: KeepsCount(bound, events, tb, m))
    && (forall t, m :: KeepsOwned(bound, events, tb, t, m))
    && (forall t, m :: KeepsWait(bound, events, tb, t, m))
  }

  /** What the event puts on record, by the tables. */
  function RecordsNow(tb: Tables, ev: Event, m: Mutex): Option<LockID> {
    if ev.mutex != m then None
    else match ev
      case Check(_, _) => if Overfull(tb, m) then Some(NO_LOCK_ID) else None
      case Acquire(_, id) => Some(id)
      case TryAcquire(_, id) => Some(id)
      case Release(_, _) => None
  }

  lemma RecorderIs(bound: int, events: History, tb: Tables, ev: Event, m: Mutex)
    requires KeepsCount(bound, events, tb, m) && tb.maxBlockTids == bound
    ensures Recorder(bound, events, ev, m) == RecordsNow(tb, ev, m)
  {
  }

  lemma LocksAfter(tb: Tables, ev: Event, m: Mutex)
    ensures var after, now := Apply(tb, ev), RecordsNow(tb, ev, m);
            && (m in after.locks <==> now.Some? || (m in tb.locks && !(ev.Release? && ev.mutex == m)))
            && (m in after.locks ==> after.locks[m] == if m in tb.locks then tb.locks[m] else now.value)
  {
  }

  lemma KeepOwner(bound: int, events: History, tb: Tables, ev: Event, m: Mutex)
    requires KeepsOwner(bound, events, tb, m) && KeepsCount(bound, events, tb, m) && tb.maxBlockTids == bound
    ensures KeepsOwner(bound, events + [ev], Apply(tb, ev), m)
  {
    var after := Apply(tb, ev);
    RecorderIs(bound, events, tb, ev, m);
    LocksAfter(tb, ev, m);
    RecordedOn(bound, events, ev, m);
    forall id ensures OwnerIs(bound, events + [ev], m, id) <==> m in after.locks && after.locks[m] == id {
      OwnerOn(bound, events, ev, m, id);
    }
  }

  /** The event takes its mutex, by the tables. */
  predicate TakesNow(tb: Tables, ev: Event) {
    ev.Acquire? || (ev.TryAcquire? && ev.mutex !in tb.locks)
  }

  lemma TakesIs(bound: int, events: History, tb: Tables, ev: Event)
    requires KeepsOwner(bound, events, tb, ev.mutex)
    ensures Takes(bound, events, ev) <==> TakesNow(tb, ev)
  {
  }

  lemma OwnedAfter(tb: Tables, ev: Event, t: Tid, m: Mutex)
    ensures m in Owned(Apply(tb, ev), t) <==>
            || (ev.mutex == m && TakesNow(tb, ev) && ev.id.threadId == t)
            || (m in Owned(tb, t) && ev != Release(m, t))
  {
  }

  lemma KeepOwned(bound: int, events: History, tb: Tables, ev: Event, t: Tid, m: Mutex)
    requires KeepsOwned(bound, events, tb, t, m) && KeepsOwner(bound, events, tb, ev.mutex)
    ensures KeepsOwned(bound, events + [ev], Apply(tb, ev), t, m)
  {
    TakesIs(bound, events, tb, ev);
    OwnedAfter(tb, ev, t, m);
    OwnsOn(bound, events, ev, t, m);
  }

  lemma WaitAfter(tb: Tables, ev: Event, t: Tid, m: Mutex)
    ensures var after := Apply(tb, ev);
            (t in after.waitLocks && after.waitLocks[t] == m) <==>
            || ev == Check(m, t)
            || (t in tb.waitLocks && tb.waitLocks[t] == m && !(ev.Check? && ev.t == t)
                && !(TakesNow(tb, ev) && ev.id.threadId == t))
  {
  }

  lemma KeepWait(bound: int, events: History, tb: Tables, ev: Event, t: Tid, m: Mutex)
    requires KeepsWait(bound, events, tb, t, m) && KeepsOwner(bound, events, tb, ev.mutex)
    ensures KeepsWait(bound, events + [ev], Apply(tb, ev), t, m)
  {
    TakesIs(bound, events, tb, ev);
    WaitAfter(tb, ev, t, m);
    WaitsOn(bound, events, ev, t, m);
  }

  lemma CountAfter(tb: Tables, ev: Event, m: Mutex)
    ensures var after := Apply(tb, ev);
            && (m in after.waitTimes <==> m in tb.waitTimes || (ev.Check? && ev.mutex == m))
            && (m in after.waitTimes ==>
                  after.waitTimes[m] == (if m in tb.waitTimes then tb.waitTimes[m] else 0) +
                                        (if ev.mutex != m then 0 else if ev.Check? then 1
                                         else if TakesNow(tb, ev) then -1 else 0))
  {
  }

  lemma KeepCount(bound: int, events: History, tb: Tables, ev: Event, m: Mutex)
    requires KeepsCount(bound, events, tb, m) && KeepsOwner(bound, events, tb, ev.mutex)
    ensures KeepsCount(bound, events + [ev], Apply(tb, ev), m)
  {
    TakesIs(bound, events, tb, ev);
    CountAfter(tb, ev, m);
    AnnouncedOn(events, ev, m);
    WaitersOn(bound, events, ev, m);
    if !Announced(events, m) { NoneYet(bound, events, m); }
  }

  lemma NoneYet(bound: int, events: History, m: Mutex)
    requires !Announced(events, m)
    ensures Waiters(bound, events, m) == 0
  {
    var p, q := AnnouncesAt(events, m), TakesSinceAt(bound, events, m);
    forall i: nat | i < |events| ensures !p(i) {
      assert events[i] in events;
    }
    forall i: nat | i < |events| ensures !Announced(events[..i], m) {
      forall ev | ev in events[..i] ensures ev in events {}
    }
    CountNone(|events|, p);
    CountNone(|events|, q);
  }

  lemma StepRemembers(bound: int, events: History, tb: Tables, ev: Event)
    requires Remembers(bound, events, tb)
    ensures Remembers(bound, events + [ev], Apply(tb, ev))
  {
    forall m ensures KeepsOwner(bound, events + [ev], Apply(tb, ev), m) { KeepOwner(bound, events, tb, ev, m); }
    forall m ensures KeepsCount(bound, events + [ev], Apply(tb, ev), m) { KeepCount(bound, events, tb, ev, m); }
    forall t, m ensures KeepsOwned(bound, events + [ev], Apply(tb, ev), t, m) {
      KeepOwned(bound, events, tb, ev, t, m);
    }
    forall t, m ensures KeepsWait(bound, events + [ev], Apply(tb, ev), t, m) { KeepWait(bound, events, tb, ev, t, m); }
  }

  lemma NothingYet(recursives: set<Mutex>, bound: int)
    ensures Remembers(bound, [], Empty(recursives, bound))
  {
    forall m ensures KeepsOwner(bound, [], Empty(recursives, bound), m) {}
    forall m ensures KeepsCount(bound, [], Empty(recursives, bound), m) {}
  }

  /** After any run of events, fitting or not, all four tables hold exactly what the history says. */
  lemma {:induction false} TablesRemember(recursives: set<Mutex>, bound: int, events: History)
    ensures Remembers(bound, events, Run(Empty(recursives, bound), events))
    decreases |events|
  {
    if events == [] {
      NothingYet(recursives, bound);
    } else {
      var before, ev := events[..|events| - 1], events[|events| - 1];
      TablesRemember(recursives, bound, before);
      assert events == before + [ev];
      RunAppend(Empty(recursives, bound), before, ev);
      StepRemembers(bound, before, Run(Empty(recursives, bound), before), ev);
    }
  }

  // ---------------------------------------------------------------- the verdict

  /** With `t` about to wait for `mutex`: `s` waits for something that `u` is on record as owning. */
  ghost predicate WaitsOnThread(bound: int, events: History, mutex: Mutex, t: Tid, s: Tid, u: Tid) {
    exists m, id :: OwnerIs(bound, events, m, id) && id.threadId == u
                    && (if s == t then m == mutex else WaitsFor(bound, events, s, m))
  }

  ghost predicate Chain(bound: int, events: History, mutex: Mutex, t: Tid, s: Tid, n: nat)
    decreases n
  {
    if n == 0 then s == t
    else exists u :: WaitsOnThread(bound, events, mutex, t, s, u) && Chain(bound, events, mutex, t, u, n - 1)
  }

  lemma EdgeIsBlocker(bound: int, events: History, tb: Tables, mutex: Mutex, t: Tid, s: Tid, u: Tid)
    requires Remembers(bound, events, tb)
    ensures WaitsOnThread(bound, events, mutex, t, s, u) <==> Blocker(RecordWait(tb, mutex, t), s) == Some(u)
  {
    if WaitsOnThread(bound, events, mutex, t, s, u) {
      var m, id :| OwnerIs(bound, events, m, id) && id.threadId == u
                   && (if s == t then m == mutex else WaitsFor(bound, events, s, m));
      assert KeepsOwner(bound, events, tb, m) && KeepsWait(bound, events, tb, s, m);
    }
    if Blocker(RecordWait(tb, mutex, t), s) == Some(u) {
      var m := if s == t then mutex else tb.waitLocks[s];
      assert KeepsOwner(bound, events, tb, m) && KeepsWait(bound, events, tb, s, m);
      assert OwnerIs(bound, events, m, tb.locks[m]);
    }
  }

  lemma ChainFollows(bound: int, events: History, tb: Tables, mutex: Mutex, t: Tid, s: Tid, u: Tid, n: nat)
    requires n > 0 && Blocker(RecordWait(tb, mutex, t), s) == Some(u)
    requires forall v :: WaitsOnThread(bound, events, mutex, t, s, v) <==> v == u
    requires Chain(bound, events, mutex, t, u, n - 1) <==> Follow(RecordWait(tb, mutex, t), u, n - 1) == Some(t)
    ensures Chain(bound, events, mutex, t, s, n) <==> Follow(RecordWait(tb, mutex, t), s, n) == Some(t)
  {
    FollowOnce(RecordWait(tb, mutex, t), s, u);
    assert WaitsOnThread(bound, events, mutex, t, s, u);
  }

  lemma ChainEnds(bound: int, events: History, tb: Tables, mutex: Mutex, t: Tid, s: Tid, n: nat)
    requires n > 0 && Blocker(RecordWait(tb, mutex, t), s) == None
    requires forall v :: !WaitsOnThread(bound, events, mutex, t, s, v)
    ensures !Chain(bound, events, mutex, t, s, n) && Follow(RecordWait(tb, mutex, t), s, n) == None
  {
  }

  lemma {:induction false} ChainIsFollow(bound: int, events: History, tb: Tables, mutex: Mutex, t: Tid, s: Tid, n: nat)
    requires Remembers(bound, events, tb)
    ensures Chain(bound, events, mutex, t, s, n) <==> Follow(RecordWait(tb, mutex, t), s, n) == Some(t)
    decreases n
  {
    if n == 0 {
    } else {
      var blocker := Blocker(RecordWait(tb, mutex, t), s);
      forall v ensures WaitsOnThread(bound, events, mutex, t, s, v) <==> blocker == Some(v) {
        EdgeIsBlocker(bound, events, tb, mutex, t, s, v);
      }
      match blocker
      case None => ChainEnds(bound, events, tb, mutex, t, s, n);
      case Some(u) =>
        ChainIsFollow(bound, events, tb, mutex, t, u, n - 1);
        ChainFollows(bound, events, tb, mutex, t, s, u, n);
    }
  }

  lemma {:induction false} RecursivesStay(tb: Tables, events: History)
    ensures Run(tb, events).recursives == tb.recursives
    decreases |events|
  {
    if events == [] {
    } else {
      RecursivesStay(Apply(tb, events[0]), events[1..]);
    }
  }

  /** After every fitting run a deadlock is reported exactly when, by the history, the threads that wait now form a
      chain from the requester back to itself that is no longer than the bound. */
  lemma VerdictIsHistory(recursives: set<Mutex>, bound: int, events: History, mutex: Mutex, t: Tid)
    requires AllFit(Empty(recursives, bound), events)
    ensures Verdict(RecordWait(Run(Empty(recursives, bound), events), mutex, t), mutex, t) <==>
            if Chain(bound, events, mutex, t, t, 1) then mutex !in recursives
            else exists n: nat :: 2 <= n <= bound && Chain(bound, events, mutex, t, t, n)
  {
    var tb := Run(Empty(recursives, bound), events);
    var now := RecordWait(tb, mutex, t);
    TablesRemember(recursives, bound, events);
    RecursivesStay(Empty(recursives, bound), events);
    EveryCheckIsRight(recursives, bound, events, mutex, t);
    forall n: nat | n > 0 ensures Chain(bound, events, mutex, t, t, n) <==> CycleThrough(now, t, n) {
      ChainIsFollow(bound, events, tb, mutex, t, t, n);
    }
    if n: nat :| 2 <= n <= bound && CycleThrough(now, t, n) { assert Chain(bound, events, mutex, t, t, n); }
    if n: nat :| 2 <= n <= bound && Chain(bound, events, mutex, t, t, n) { assert CycleThrough(now, t, n); }
  }
}
