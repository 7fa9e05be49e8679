/** Who can still get the lock: exactly which waiting threads some continuation of a run serves, and how
    writers are overtaken. */
module LockProgress {
  import opened Common
  import opened RecursiveSharedMutex

  lemma {:induction false} RunJoins(s: State, a: seq<Step>, b: seq<Step>)
    requires Legal(s, a) && Legal(Run(s, a), b)
    ensures Legal(s, a + b) && Run(s, a + b) == Run(Run(s, a), b)
    decreases |a|
  {
    if a == [] {
      assert a + b == b;
    } else {
      assert (a + b)[1..] == a[1..] + b;
      RunJoins(Apply(s, a[0]), a[1..], b);
    }
  }

  lemma RunOne(s: State, step: Step)
    requires Enabled(s, step)
    ensures Legal(s, [step]) && Run(s, [step]) == Apply(s, step)
  {
    assert Legal(Apply(s, step), []);
  }

  // ---------------------------------------------------------------- when a wait can end

  predicate WaitsToRead(s: State, t: Tid) {
    t in s.blockedR || t in s.wokenR
  }

  predicate WaitsToWrite(s: State, t: Tid) {
    t in s.blockedW || t in s.wokenW
  }

  /** A thread that holds one side and waits for the other stands in the way: of everybody if it holds the
      write side, of the writers if it holds the read side. */
  ghost predicate Obstructs(s: State, u: Tid, t: Tid) {
    || (u in s.writers && WaitsToRead(s, u))
    || (u in s.readers && WaitsToWrite(s, u) && WaitsToWrite(s, t))
  }

  ghost predicate Obstructed(s: State, t: Tid) {
    exists u :: Obstructs(s, u, t)
  }

  /** Steps that only finish what is under way: releases and turns of woken threads. */
  predicate Finishes(step: Step) {
    step.ResumeShared? || step.ResumeLock? || step.UnlockShared? || step.Unlock?
  }

  ghost predicate Serves(s: State, t: Tid, rest: seq<Step>) {
    && Legal(s, rest) && (forall step | step in rest :: Finishes(step))
    && t !in Run(s, rest).Waiting() && Holds(Run(s, rest), t)
  }

  /** What stands in the way stays there, and the thread stays waiting. */
  lemma ObstructionStays(s: State, u: Tid, t: Tid, step: Step)
    requires Inv(s) && Enabled(s, step) && t in s.Waiting() && Obstructs(s, u, t)
    ensures var s' := Apply(s, step); t in s'.Waiting() && Obstructs(s', u, t)
  {
    if u in s.writers {
      assert s.exclusive == 1 && s.owner == Some(u);
    } else {
      assert s.shared > 0 && s.owner == None;
    }
  }

  lemma {:induction false} ObstructedForever(s: State, u: Tid, t: Tid, steps: seq<Step>)
    requires Inv(s) && Legal(s, steps) && t in s.Waiting() && Obstructs(s, u, t)
    ensures t in Run(s, steps).Waiting()
    decreases |steps|
  {
    if steps == [] {
    } else {
      ObstructionStays(s, u, t, steps[0]);
      StepKeeps(s, steps[0]);
      ObstructedForever(Apply(s, steps[0]), u, t, steps[1..]);
    }
  }

  // ---------------------------------------------------------------- letting go

  /** The writer to wake: the one that is to be served if it sleeps, else any. */
  lemma Favour(s: State, t: Tid) returns (pick: Tid)
    ensures s.blockedW == {} || pick in s.blockedW
    ensures t in s.blockedW ==> pick == t
  {
    pick := t;
    if t !in s.blockedW && s.blockedW != {} { pick :| pick in s.blockedW; }
  }

  /** The holder of the write side, unless it stands in the way, lets go level by level. */
  lemma {:induction false} DrainWriters(s: State, t: Tid) returns (steps: seq<Step>)
    requires Inv(s) && t in s.Waiting() && !Obstructed(s, t)
    ensures Legal(s, steps) && (forall step | step in steps :: Finishes(step))
    ensures var s' := Run(s, steps);
            && Inv(s') && s'.writers == multiset{} && s'.readers == s.readers && !Obstructed(s', t)
            && (WaitsToRead(s, t) ==> WaitsToRead(s', t)) && (WaitsToWrite(s, t) ==> WaitsToWrite(s', t))
    decreases |s.writers|
  {
    if s.writers == multiset{} {
      steps := [];
    } else {
      var w :| w in s.writers;
      assert !Obstructs(s, w, t);
      var pick := Favour(s, t);
      var step := Unlock(w, pick);
      RunOne(s, step);
      StepKeeps(s, step);
      var s1 := Apply(s, step);
      WriterLeaves(s, w, pick, t);
      var rest := DrainWriters(s1, t);
      RunJoins(s, [step], rest);
      steps := [step] + rest;
    }
  }

  lemma WriterLeaves(s: State, w: Tid, pick: Tid, t: Tid)
    requires Inv(s) && t in s.Waiting() && !Obstructed(s, t) && Enabled(s, Unlock(w, pick))
    ensures var s' := Apply(s, Unlock(w, pick));
            && |s'.writers| < |s.writers| && s'.readers == s.readers && t in s'.Waiting() && !Obstructed(s', t)
            && (WaitsToRead(s, t) ==> WaitsToRead(s', t)) && (WaitsToWrite(s, t) ==> WaitsToWrite(s', t))
  {
    var s' := Apply(s, Unlock(w, pick));
    forall u ensures !Obstructs(s', u, t) {
      assert !Obstructs(s, u, t);
    }
  }

  lemma ReaderLeaves(s: State, r: Tid, pick: Tid, t: Tid)
    requires Inv(s) && WaitsToWrite(s, t) && !Obstructed(s, t) && Enabled(s, UnlockShared(r, pick))
    ensures var s' := Apply(s, UnlockShared(r, pick));
            |s'.readers| < |s.readers| && s'.writers == s.writers && WaitsToWrite(s', t) && !Obstructed(s', t)
  {
    var s' := Apply(s, UnlockShared(r, pick));
    forall u ensures !Obstructs(s', u, t) {
      assert !Obstructs(s, u, t);
    }
  }

  lemma {:induction false} DrainReaders(s: State, t: Tid) returns (steps: seq<Step>)
    requires Inv(s) && WaitsToWrite(s, t) && !Obstructed(s, t) && s.writers == multiset{}
    ensures Legal(s, steps) && (forall step | step in steps :: Finishes(step))
    ensures var s' := Run(s, steps);
            Inv(s') && s'.writers == multiset{} && s'.readers == multiset{} && WaitsToWrite(s', t)
    decreases |s.readers|
  {
    if s.readers == multiset{} {
      steps := [];
    } else {
      var r :| r in s.readers;
      assert !Obstructs(s, r, t);
      var pick := Favour(s, t);
      var step := UnlockShared(r, pick);
      RunOne(s, step);
      StepKeeps(s, step);
      ReaderLeaves(s, r, pick, t);
      var rest := DrainReaders(Apply(s, step), t);
      RunJoins(s, [step], rest);
      steps := [step] + rest;
    }
  }

  // ---------------------------------------------------------------- being served

  lemma ServeReader(s: State, t: Tid) returns (rest: seq<Step>)
    requires Inv(s) && WaitsToRead(s, t) && !Obstructed(s, t)
    ensures Serves(s, t, rest)
  {
    var drain := DrainWriters(s, t);
    var s1 := Run(s, drain);
    RunOne(s1, ResumeShared(t));
    RunJoins(s, drain, [ResumeShared(t)]);
    rest := drain + [ResumeShared(t)];
  }

  lemma TakeFreeLock(s: State, t: Tid)
    requires Inv(s) && s.writers == multiset{} && s.readers == multiset{} && t in s.wokenW
    ensures Serves(s, t, [ResumeLock(t)])
    ensures var s' := Apply(s, ResumeLock(t));
            s'.writers == multiset{t} && s'.blockedW == s.blockedW
            && Inv(s') && s'.recursive == 1 && s'.owner == Some(t)
  {
    RunOne(s, ResumeLock(t));
    StepKeeps(s, ResumeLock(t));
  }

  /** On a free lock some other writer is awake if this one is not; it goes first and wakes this one. */
  lemma ServeSleeper(s: State, t: Tid) returns (rest: seq<Step>)
    requires Inv(s) && s.writers == multiset{} && s.readers == multiset{} && t in s.blockedW
    ensures Serves(s, t, rest)
  {
    var u :| u in s.wokenW;
    TakeFreeLock(s, u);
    var s1 := Apply(s, ResumeLock(u));
    var unlock := Unlock(u, t);
    RunOne(s1, unlock);
    StepKeeps(s1, unlock);
    var s2 := Apply(s1, unlock);
    assert s2.writers == multiset{};
    TakeFreeLock(s2, t);
    RunJoins(s, [ResumeLock(u)], [unlock]);
    RunJoins(s, [ResumeLock(u)] + [unlock], [ResumeLock(t)]);
    rest := [ResumeLock(u)] + [unlock] + [ResumeLock(t)];
  }

  lemma ServeWriter(s: State, t: Tid) returns (rest: seq<Step>)
    requires Inv(s) && WaitsToWrite(s, t) && !Obstructed(s, t)
    ensures Serves(s, t, rest)
  {
    var drainW := DrainWriters(s, t);
    var s1 := Run(s, drainW);
    var drainR := DrainReaders(s1, t);
    RunJoins(s, drainW, drainR);
    var s2 := Run(s1, drainR);
    var last;
    if t in s2.wokenW {
      TakeFreeLock(s2, t);
      last := [ResumeLock(t)];
    } else {
      last := ServeSleeper(s2, t);
    }
    RunJoins(s, drainW + drainR, last);
    rest := drainW + drainR + last;
  }

  /** In every reachable state a waiting thread can be served, by releases and turns of woken threads alone and
      without any spurious wake-up, if and only if nobody stands in its way; and if somebody does it waits in
      every run that may follow. */
  lemma ServedExactly(steps: seq<Step>, t: Tid)
    requires Legal(INIT, steps) && t in Run(INIT, steps).Waiting()
    ensures var s := Run(INIT, steps);
            && ((exists rest :: Serves(s, t, rest)) <==> !Obstructed(s, t))
            && (Obstructed(s, t) ==> forall rest | Legal(s, rest) :: t in Run(s, rest).Waiting())
  {
    var s := Run(INIT, steps);
    RunKeeps(INIT, steps);
    if u :| Obstructs(s, u, t) {
      forall rest | Legal(s, rest) ensures t in Run(s, rest).Waiting() {
        ObstructedForever(s, u, t, rest);
      }
    } else if WaitsToRead(s, t) {
      var rest := ServeReader(s, t);
    } else {
      var rest := ServeWriter(s, t);
    }
  }

  // ---------------------------------------------------------------- no fairness towards writers

  /** A reader that comes and goes `n` times. */
  function Rounds(r: Tid, pick: Tid, n: nat): seq<Step> {
    if n == 0 then [] else [LockShared(r)] + [UnlockShared(r, pick)] + Rounds(r, pick, n - 1)
  }

  lemma OneRound(s: State, r: Tid, pick: Tid)
    requires Inv(s) && s.shared > 0 && r !in s.Waiting() && pick in s.blockedW
    ensures Legal(s, [LockShared(r)] + [UnlockShared(r, pick)])
            && Run(s, [LockShared(r)] + [UnlockShared(r, pick)]) == s
    ensures r in Apply(s, LockShared(r)).readers
  {
    RunOne(s, LockShared(r));
    var s1 := Apply(s, LockShared(r));
    RunOne(s1, UnlockShared(r, pick));
    RunJoins(s, [LockShared(r)], [UnlockShared(r, pick)]);
    assert s.wokenR - {r} == s.wokenR;
    assert s.readers + multiset{r} - multiset{r} == s.readers;
  }

  /** While a reader holds the lock, other readers overtake a sleeping writer any number of times and leave
      everything as it was. */
  lemma {:induction false} OvertakenWithoutBound(s: State, r: Tid, writer: Tid, n: nat)
    requires Inv(s) && s.shared > 0 && r !in s.Waiting() && writer in s.blockedW
    ensures Legal(s, Rounds(r, writer, n)) && Run(s, Rounds(r, writer, n)) == s
  {
    if n == 0 {
    } else {
      OneRound(s, r, writer);
      OvertakenWithoutBound(s, r, writer, n - 1);
      RunJoins(s, [LockShared(r)] + [UnlockShared(r, writer)], Rounds(r, writer, n - 1));
    }
  }

  /** The step gives the lock to a thread other than `t` that did not hold it. */
  ghost predicate Overtakes(s: State, step: Step, t: Tid) {
    step.t != t && !Holds(s, step.t) && Holds(Apply(s, step), step.t)
  }

  ghost function Overtakings(s: State, steps: seq<Step>, t: Tid): nat
    decreases |steps|
  {
    if steps == [] then 0
    else (if Overtakes(s, steps[0], t) then 1 else 0) + Overtakings(Apply(s, steps[0]), steps[1..], t)
  }

  /** A run of the other threads alone, through which `t` keeps waiting and is overtaken `n` times. */
  ghost predicate Passes(s: State, rest: seq<Step>, t: Tid, n: nat) {
    && Legal(s, rest) && (forall step | step in rest :: step.t != t)
    && WaitsToWrite(Run(s, rest), t) && Overtakings(s, rest, t) == n
  }

  ghost predicate CanPass(s: State, t: Tid, n: nat) {
    exists rest :: Passes(s, rest, t, n)
  }

  /** The holder of the write side waits to read. */
  ghost predicate Jammed(s: State) {
    exists u :: u in s.writers && WaitsToRead(s, u)
  }

  lemma {:induction false} PassesJoin(s: State, a: seq<Step>, b: seq<Step>, t: Tid, n: nat, m: nat)
    requires Passes(s, a, t, n) && Passes(Run(s, a), b, t, m)
    ensures Passes(s, a + b, t, n + m)
  {
    RunJoins(s, a, b);
    CountJoins(s, a, b, t);
  }

  lemma {:induction false} CountJoins(s: State, a: seq<Step>, b: seq<Step>, t: Tid)
    ensures Overtakings(s, a + b, t) == Overtakings(s, a, t) + Overtakings(Run(s, a), b, t)
    decreases |a|
  {
    if a == [] {
      assert a + b == b;
    } else {
      assert (a + b)[1..] == a[1..] + b;
      CountJoins(Apply(s, a[0]), a[1..], b, t);
    }
  }

  lemma StaysWaiting(s: State, step: Step, t: Tid)
    requires WaitsToWrite(s, t) && Enabled(s, step) && step.t != t
    ensures WaitsToWrite(Apply(s, step), t)
  {
  }

  lemma CountOne(s: State, step: Step, t: Tid)
    ensures Overtakings(s, [step], t) == if Overtakes(s, step, t) then 1 else 0
  {
    assert [step][1..] == [];
  }

  lemma PassesOne(s: State, step: Step, t: Tid, n: nat)
    requires WaitsToWrite(s, t) && Enabled(s, step) && step.t != t
    requires n == if Overtakes(s, step, t) then 1 else 0
    ensures Passes(s, [step], t, n)
  {
    RunOne(s, step);
    StaysWaiting(s, step, t);
    CountOne(s, step, t);
  }

  lemma PassesNone(s: State, t: Tid)
    requires WaitsToWrite(s, t)
    ensures Passes(s, [], t, 0)
  {
  }

  lemma UnlockUnjams(s: State, w: Tid, pick: Tid)
    requires Inv(s) && !Jammed(s) && Enabled(s, Unlock(w, pick))
    ensures var s' := Apply(s, Unlock(w, pick));
            Inv(s') && !Jammed(s') && |s'.writers| < |s.writers|
    ensures Holds(s, w)
  {
    var s' := Apply(s, Unlock(w, pick));
    ReleaseExclusiveKeeps(s, w, pick);
    forall u | u in s'.writers ensures !WaitsToRead(s', u) {
      assert u in s.writers && s.owner == Some(u) && s.owner == Some(w);
    }
  }

  /** A writer that is not jammed lets go, and nobody is overtaken by that. */
  lemma {:induction false} WritersLetGo(s: State, t: Tid) returns (steps: seq<Step>)
    requires Inv(s) && WaitsToWrite(s, t) && !Jammed(s)
    ensures Passes(s, steps, t, 0) && Inv(Run(s, steps)) && Run(s, steps).writers == multiset{}
    decreases |s.writers|
  {
    if s.writers == multiset{} {
      steps := [];
      PassesNone(s, t);
    } else {
      var w :| w in s.writers;
      var pick := Favour(s, t);
      var step := Unlock(w, pick);
      UnlockUnjams(s, w, pick);
      PassesOne(s, step, t, 0);
      StaysWaiting(s, step, t);
      RunOne(s, step);
      var rest := WritersLetGo(Apply(s, step), t);
      RunJoins(s, [step], rest);
      PassesJoin(s, [step], rest, t, 0, 0);
      steps := [step] + rest;
    }
  }

  /** A thread that has nothing to do with the lock. */
  ghost predicate Outside(s: State, r: Tid) {
    r !in s.Waiting() && !Holds(s, r)
  }

  lemma ComesIn(s: State, t: Tid, r: Tid)
    requires Inv(s) && s.writers == multiset{} && r != t && Outside(s, r)
    ensures Overtakes(s, LockShared(r), t)
    ensures var s' := Apply(s, LockShared(r));
            Inv(s') && s'.writers == multiset{} && s'.readers == s.readers + multiset{r} && r !in s'.Waiting()
  {
    AcquireSharedKeeps(s, r);
  }

  lemma GoesOut(s: State, r: Tid, pick: Tid)
    requires Inv(s) && s.writers == multiset{} && s.readers[r] == 1 && Enabled(s, UnlockShared(r, pick))
    ensures var s' := Apply(s, UnlockShared(r, pick)); Inv(s') && s'.writers == multiset{} && Outside(s', r)
  {
    ReleaseSharedKeeps(s, r, pick);
  }

  /** One reader comes and goes. */
  lemma PassOnce(s: State, t: Tid, r: Tid) returns (round: seq<Step>)
    requires Inv(s) && WaitsToWrite(s, t) && s.writers == multiset{} && r != t && Outside(s, r)
    ensures Passes(s, round, t, 1)
    ensures var s' := Run(s, round); Inv(s') && s'.writers == multiset{} && Outside(s', r)
  {
    var enter := LockShared(r);
    ComesIn(s, t, r);
    PassesOne(s, enter, t, 1);
    RunOne(s, enter);
    StaysWaiting(s, enter, t);
    var s1 := Apply(s, enter);
    var pick := Favour(s1, t);
    var exit := UnlockShared(r, pick);
    GoesOut(s1, r, pick);
    PassesOne(s1, exit, t, 0);
    RunOne(s1, exit);
    PassesJoin(s, [enter], [exit], t, 1, 0);
    RunJoins(s, [enter], [exit]);
    round := [enter] + [exit];
  }

  lemma {:induction false} PassOften(s: State, t: Tid, r: Tid, n: nat) returns (rounds: seq<Step>)
    requires Inv(s) && WaitsToWrite(s, t) && s.writers == multiset{} && r != t && Outside(s, r)
    ensures Passes(s, rounds, t, n)
    decreases n
  {
    if n == 0 {
      rounds := [];
      PassesNone(s, t);
    } else {
      var round := PassOnce(s, t, r);
      var rest := PassOften(Run(s, round), t, r, n - 1);
      PassesJoin(s, round, rest, t, 1, n - 1);
      rounds := round + rest;
    }
  }

  lemma JamStays(s: State, step: Step, t: Tid)
    requires Inv(s) && Enabled(s, step) && Jammed(s)
    ensures Jammed(Apply(s, step)) && !Overtakes(s, step, t)
  {
    var u :| u in s.writers && WaitsToRead(s, u);
    assert s.exclusive == 1 && s.owner == Some(u);
    SelfBlockStays(s, u, step);
    assert u in Apply(s, step).writers;
  }

  /** Behind a jammed writer nobody gets the lock any more. */
  lemma {:induction false} JammedForever(s: State, steps: seq<Step>, t: Tid)
    requires Inv(s) && Legal(s, steps) && Jammed(s)
    ensures Overtakings(s, steps, t) == 0
    decreases |steps|
  {
    if steps == [] {
    } else {
      StepKeeps(s, steps[0]);
      JamStays(s, steps[0], t);
      JammedForever(Apply(s, steps[0]), steps[1..], t);
    }
  }

  lemma PassAnyNumber(s: State, t: Tid, n: nat)
    requires Inv(s) && WaitsToWrite(s, t) && !Jammed(s)
    ensures CanPass(s, t, n)
  {
    var begin := WritersLetGo(s, t);
    var s1 := Run(s, begin);
    var taken := s1.Waiting() + set u | u in s1.readers;
    var r := Above(taken);
    assert t in taken && r !in taken;
    var rounds := PassOften(s1, t, r, n);
    PassesJoin(s, begin, rounds, t, 0, n);
  }

  /** In every reachable state a waiting writer can be overtaken any number of times if and only if the write side is
      not held by a thread that waits to read; and behind such a thread it is not overtaken even once. */
  lemma OvertakenExactly(steps: seq<Step>, t: Tid)
    requires Legal(INIT, steps) && WaitsToWrite(Run(INIT, steps), t)
    ensures var s := Run(INIT, steps);
            && ((forall n: nat :: CanPass(s, t, n)) <==> !Jammed(s))
            && (Jammed(s) ==> forall rest | Legal(s, rest) :: Overtakings(s, rest, t) == 0)
  {
    var s := Run(INIT, steps);
    RunKeeps(INIT, steps);
    if Jammed(s) {
      forall rest | Legal(s, rest) ensures Overtakings(s, rest, t) == 0 {
        JammedForever(s, rest, t);
      }
      assert !CanPass(s, t, 1);
    } else {
      forall n: nat ensures CanPass(s, t, n) {
        PassAnyNumber(s, t, n);
      }
    }
  }

  /** Such a state is two calls away, and a thread that blocks itself is too. */
  lemma TwoCalls(r: Tid, w: Tid)
    ensures var steps := [LockShared(r)] + [Lock(w)];
            && (w != r ==> Legal(INIT, steps) && Run(INIT, steps).shared > 0 && w in Run(INIT, steps).blockedW)
            && (w == r ==> Legal(INIT, steps) && SelfBlocked(Run(INIT, steps), w))
  {
    RunOne(INIT, LockShared(r));
    var s1 := Apply(INIT, LockShared(r));
    RunOne(s1, Lock(w));
    RunJoins(INIT, [LockShared(r)], [Lock(w)]);
  }
}
