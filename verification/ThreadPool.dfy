/** The thread pool as a step model: clients submit tasks, workers take them from the queue, the pool
    grows on demand and shuts down.

    A worker's turn of its loop is cut where other threads can see the difference. Submitting is three
    steps, as in the code: the state check, the push, and the decision whether to add a worker. */
module ThreadPool {
  import opened Common

  type Task = nat
  type Tid = nat

  datatype PoolState = New | Running | Terminating

  /** Where a worker is: at the loop test, about to take a task, with a task it has taken but not yet counted
      as active, running it, back with the counters half updated, about to read the pool's state, about to look at
      the queue after reading a state other than RUNNING, or out of the loop but still listed. */
  datatype Phase =
    | AtTop | ToPop | Holding(task: Task) | Executing(task: Task)
    | Counting | ToCheck | ToLook(saw: PoolState) | Leaving

  datatype Worker = Worker(core: bool, phase: Phase)

  /** `staffed` says that the loop which creates the core workers is over. `checked` are submissions between the
      state check and the push, `pushed` those between the push and the decision to add a worker. The last four fields
      are history: tasks accepted, finished, and pushed after the shutdown; and whether the pool, when it started
      running, had a core worker that stays: one in its loop that is not about to act on having read NEW. */
  datatype State = State(
    pool: PoolState,
    staffed: bool,
    coreSize: nat,
    maxSize: nat,
    queue: seq<Task>,
    workers: map<Tid, Worker>,
    active: int,
    taskCount: int,
    largest: int,
    checked: set<Task>,
    pushed: set<Task>,
    accepted: set<Task>,
    finished: set<Task>,
    late: set<Task>,
    anchored: bool)

  function Init(coreSize: nat, maxSize: nat): State {
    State(New, false, coreSize, maxSize, [], map[], 0, 0, 0, {}, {}, {}, {}, {}, false)
  }

  datatype Step =
    | CreateCore(w: Tid) | Staff | Start | Shutdown
    | CheckState(task: Task) | Push(task: Task) | Extend(task: Task, w: Tid) | Skip(task: Task)
    | Turn(w: Tid) | Expire(w: Tid) | Erase(w: Tid)

  predicate At(s: State, w: Tid, phase: Phase) {
    w in s.workers && s.workers[w].phase == phase
  }

  /** Only a worker that is not a core worker is let go at the loop test; the clock is a choice. So is whether
      to add a worker: the tests in front of it read the queue size, the pool size and the active count at
      different moments. Only the bound on the pool size is tested under the lock. */
  predicate Enabled(s: State, step: Step) {
    match step
    case CreateCore(w) => s.pool == New && !s.staffed && |s.workers| < s.coreSize && w !in s.workers
    case Staff => s.pool == New && |s.workers| >= s.coreSize
    case Start => s.pool == New && s.staffed
    case Shutdown => s.pool == Running
    case CheckState(task) => s.pool == Running && task !in s.checked && task !in s.accepted
    case Push(task) => task in s.checked
    case Extend(task, w) => task in s.pushed && |s.workers| < s.maxSize && w !in s.workers
    case Skip(task) => task in s.pushed
    case Turn(w) => w in s.workers && s.workers[w].phase != Leaving
    case Expire(w) => At(s, w, AtTop) && !s.workers[w].core
    case Erase(w) => At(s, w, Leaving)
  }

  type Workers = map<Tid, Worker>

  /** A core worker in its loop that is not about to leave on account of having read NEW. */
  predicate Stays(worker: Worker) {
    worker.core && !worker.phase.Leaving? && worker.phase != ToLook(New)
  }

  function CoreAlive(ws: Workers): set<Tid> {
    set w | w in ws && Stays(ws[w])
  }

  function SetPhase(ws: Workers, w: Tid, phase: Phase): Workers
    requires w in ws
  {
    ws[w := ws[w].(phase := phase)]
  }

  function Add(s: State, w: Tid, core: bool): State {
    var workers := s.workers[w := Worker(core, AtTop)];
    s.(workers := workers, largest := if |workers| > s.largest then |workers| else s.largest)
  }

  /** Where a worker goes from a phase of its loop. */
  function NextPhase(s: State, phase: Phase): Phase
    requires phase != Leaving
  {
    match phase
    case AtTop => ToPop
    case ToPop => if s.queue == [] then ToCheck else Holding(s.queue[0])
    case Holding(task) => Executing(task)
    case Executing(task) => Counting
    case Counting => ToCheck
    case ToCheck => if s.pool != Running then ToLook(s.pool) else AtTop
    case ToLook(_) => if s.queue == [] then Leaving else AtTop
  }

  function TakeTurn(s: State, w: Tid): State
    requires w in s.workers && s.workers[w].phase != Leaving
  {
    var phase := s.workers[w].phase;
    var next := NextPhase(s, phase);
    s.(workers := SetPhase(s.workers, w, next),
       queue := if next.Holding? then s.queue[1..] else s.queue,
       active := s.active + (if phase.Holding? then 1 else if phase.Executing? then -1 else 0),
       finished := if phase.Executing? then s.finished + {phase.task} else s.finished,
       taskCount := s.taskCount + (if phase.Counting? then 1 else 0))
  }

  function Apply(s: State, step: Step): State
    requires Enabled(s, step)
  {
    match step
    case CreateCore(w) => Add(s, w, true)
    case Staff => s.(staffed := true)
    case Start => s.(pool := Running, anchored := CoreAlive(s.workers) != {})
    case Shutdown => s.(pool := Terminating)
    case CheckState(task) => s.(checked := s.checked + {task})
    case Push(task) =>
      s.(checked := s.checked - {task}, pushed := s.pushed + {task},
         queue := s.queue + [task], accepted := s.accepted + {task},
         late := if s.pool == Running then s.late else s.late + {task})
    case Extend(task, w) => Add(s, w, false).(pushed := s.pushed - {task})
    case Skip(task) => s.(pushed := s.pushed - {task})
    case Turn(w) => TakeTurn(s, w)
    case Expire(w) => s.(workers := SetPhase(s.workers, w, Leaving))
    case Erase(w) => s.(workers := s.workers - {w})
  }

  predicate Legal(s: State, steps: seq<Step>)
    decreases |steps|
  {
    steps == [] || (Enabled(s, steps[0]) && Legal(Apply(s, steps[0]), steps[1..]))
  }

  function Run(s: State, steps: seq<Step>): State
    requires Legal(s, steps)
    decreases |steps|
  {
    if steps == [] then s else Run(Apply(s, steps[0]), steps[1..])
  }

  // ---------------------------------------------------------------- where accepted tasks are

  predicate HasTask(w: Worker) {
    w.phase.Holding? || w.phase.Executing?
  }

  function Taken(ws: Workers): set<Task> {
    set w | w in ws && HasTask(ws[w]) :: ws[w].phase.task
  }

  function Queued(queue: seq<Task>): set<Task> {
    set t | t in queue
  }

  ghost predicate OneEach(ws: Workers) {
    forall v, w | v in ws && w in ws && v != w && HasTask(ws[v]) && HasTask(ws[w]) ::
      ws[v].phase.task != ws[w].phase.task
  }

  /** Every accepted task is in exactly one place: in the queue, with one worker, or finished. */
  ghost predicate TasksSplit(s: State) {
    && s.accepted == Queued(s.queue) + Taken(s.workers) + s.finished
    && Queued(s.queue) !! Taken(s.workers) !! s.finished
    && (forall i, j | 0 <= i < j < |s.queue| :: s.queue[i] != s.queue[j])
    && OneEach(s.workers)
    && s.checked !! s.accepted
  }

  function TaskOf(phase: Phase): set<Task> {
    if phase.Holding? || phase.Executing? then {phase.task} else {}
  }

  lemma TakenAfter(ws: Workers, w: Tid, phase: Phase)
    requires OneEach(ws) && w in ws
    ensures Taken(SetPhase(ws, w, phase)) == Taken(ws) - TaskOf(ws[w].phase) + TaskOf(phase)
    ensures TaskOf(ws[w].phase) <= Taken(ws)
    ensures TaskOf(phase) * (Taken(ws) - TaskOf(ws[w].phase)) == {} ==> OneEach(SetPhase(ws, w, phase))
  {
    var ws' := SetPhase(ws, w, phase);
    forall t | t in Taken(ws) - TaskOf(ws[w].phase) ensures t in Taken(ws') {
      var v :| v in ws && HasTask(ws[v]) && ws[v].phase.task == t;
      assert v in ws' && ws'[v] == ws[v];
    }
    if HasTask(ws'[w]) { assert ws'[w].phase.task in Taken(ws'); }
    if HasTask(ws[w]) { assert ws[w].phase.task in Taken(ws); }
    forall v | v in ws && v != w && HasTask(ws[v]) ensures ws[v].phase.task in Taken(ws) - TaskOf(ws[w].phase) {
      assert ws[v].phase.task in Taken(ws);
    }
  }

  lemma QueuedRest(queue: seq<Task>)
    requires queue != []
    ensures Queued(queue) == Queued(queue[1..]) + {queue[0]}
  {
    assert queue == [queue[0]] + queue[1..];
  }

  lemma PopSplits(s: State, w: Tid)
    requires TasksSplit(s) && At(s, w, ToPop) && s.queue != []
    ensures TasksSplit(TakeTurn(s, w))
  {
    TakenAfter(s.workers, w, Holding(s.queue[0]));
    QueuedRest(s.queue);
  }

  lemma TurnSplits(s: State, w: Tid)
    requires TasksSplit(s) && Enabled(s, Turn(w))
    ensures TasksSplit(TakeTurn(s, w))
  {
    if At(s, w, ToPop) && s.queue != [] {
      PopSplits(s, w);
    } else {
      TakenAfter(s.workers, w, NextPhase(s, s.workers[w].phase));
    }
  }

  lemma PushSplits(s: State, task: Task)
    requires TasksSplit(s) && Enabled(s, Push(task))
    ensures TasksSplit(Apply(s, Push(task)))
  {
    assert Queued(s.queue + [task]) == Queued(s.queue) + {task};
    assert forall k | 0 <= k < |s.queue| :: s.queue[k] in Queued(s.queue);
  }

  lemma StepSplits(s: State, step: Step)
    requires TasksSplit(s) && Enabled(s, step)
    ensures TasksSplit(Apply(s, step))
  {
    match step
    case Turn(w) => TurnSplits(s, w);
    case Push(task) => PushSplits(s, task);
    case Expire(w) => TakenAfter(s.workers, w, Leaving);
    case Erase(w) => assert Taken(s.workers - {w}) == Taken(s.workers) by { TakenErased(s.workers, w); }
    case CreateCore(w) => TakenAdded(s.workers, w, true);
    case Extend(_, w) => TakenAdded(s.workers, w, false);
    case _ =>
  }

  lemma TakenErased(ws: Workers, w: Tid)
    requires w in ws && !HasTask(ws[w])
    ensures Taken(ws - {w}) == Taken(ws)
  {
    forall t | t in Taken(ws) ensures t in Taken(ws - {w}) {
      var v :| v in ws && HasTask(ws[v]) && ws[v].phase.task == t;
      assert v in ws - {w};
    }
  }

  lemma TakenAdded(ws: Workers, w: Tid, core: bool)
    requires w !in ws && OneEach(ws)
    ensures Taken(ws[w := Worker(core, AtTop)]) == Taken(ws) && OneEach(ws[w := Worker(core, AtTop)])
  {
    var ws' := ws[w := Worker(core, AtTop)];
    forall t | t in Taken(ws) ensures t in Taken(ws') {
      var v :| v in ws && HasTask(ws[v]) && ws[v].phase.task == t;
      assert v in ws' && ws'[v] == ws[v];
    }
  }

  // ---------------------------------------------------------------- the counters

  function Busy(ws: Workers): set<Tid> {
    set w | w in ws && ws[w].phase.Executing?
  }

  function Uncounted(ws: Workers): set<Tid> {
    set w | w in ws && ws[w].phase.Counting?
  }

  lemma Moved(ws: Workers, w: Tid, phase: Phase)
    requires w in ws
    ensures var ws' := SetPhase(ws, w, phase);
            && ws'.Keys == ws.Keys
            && Busy(ws') == Busy(ws) - {w} + (if phase.Executing? then {w} else {})
            && Uncounted(ws') == Uncounted(ws) - {w} + (if phase.Counting? then {w} else {})
            && CoreAlive(ws') == CoreAlive(ws) - {w} + (if Stays(ws[w].(phase := phase)) then {w} else {})
  {
  }

  lemma Joined(ws: Workers, w: Tid, core: bool)
    requires w !in ws
    ensures var ws' := ws[w := Worker(core, AtTop)];
            && ws'.Keys == ws.Keys + {w} && Busy(ws') == Busy(ws) && Uncounted(ws') == Uncounted(ws)
            && CoreAlive(ws') == CoreAlive(ws) + (if core then {w} else {})
  {
  }

  lemma Left(ws: Workers, w: Tid)
    requires w in ws && ws[w].phase == Leaving
    ensures var ws' := ws - {w};
            && ws'.Keys == ws.Keys - {w} && Busy(ws') == Busy(ws) && Uncounted(ws') == Uncounted(ws)
            && CoreAlive(ws') == CoreAlive(ws)
  {
  }

  /** The active count is the number of workers running a task; taskCount is the number of finished
      tasks but for those just being counted. */
  ghost predicate Counts(s: State) {
    s.active == |Busy(s.workers)| && s.taskCount + |Uncounted(s.workers)| == |s.finished|
  }

  lemma CardinalMove(a: set<Tid>, w: Tid, was: bool, is_: bool)
    requires w in a <==> was
    ensures |a - {w} + (if is_ then {w} else {})| == |a| - (if was then 1 else 0) + (if is_ then 1 else 0)
  {
    if is_ { assert (a - {w}) + {w} == a + {w}; } else { assert (a - {w}) + {} == a - {w}; }
  }

  function One(b: bool): int {
    if b then 1 else 0
  }

  lemma MovedCounts(ws: Workers, w: Tid, phase: Phase)
    requires w in ws
    ensures var ws', was := SetPhase(ws, w, phase), ws[w].phase;
            && |ws'| == |ws|
            && |Busy(ws')| == |Busy(ws)| - One(was.Executing?) + One(phase.Executing?)
            && |Uncounted(ws')| == |Uncounted(ws)| - One(was.Counting?) + One(phase.Counting?)
  {
    var ws', was := SetPhase(ws, w, phase), ws[w].phase;
    Moved(ws, w, phase);
    assert |ws| == |ws.Keys| && |ws'| == |ws'.Keys|;
    CardinalMove(Busy(ws), w, was.Executing?, phase.Executing?);
    CardinalMove(Uncounted(ws), w, was.Counting?, phase.Counting?);
  }

  lemma TurnCounts(s: State, w: Tid)
    requires Counts(s) && Enabled(s, Turn(w))
    requires s.workers[w].phase.Executing? ==> s.workers[w].phase.task !in s.finished
    ensures Counts(TakeTurn(s, w))
  {
    MovedCounts(s.workers, w, NextPhase(s, s.workers[w].phase));
  }

  lemma StepCounts(s: State, step: Step)
    requires TasksSplit(s) && Counts(s) && Enabled(s, step)
    ensures Counts(Apply(s, step))
  {
    match step
    case Turn(w) =>
      TakenAfter(s.workers, w, AtTop);
      TurnCounts(s, w);
    case Expire(w) =>
      MovedCounts(s.workers, w, Leaving);
    case CreateCore(w) => Joined(s.workers, w, true);
    case Extend(_, w) => Joined(s.workers, w, false);
    case Erase(w) => Left(s.workers, w);
    case _ =>
  }

  ghost predicate Sized(s: State) {
    |s.workers| <= s.largest <= s.maxSize && s.coreSize <= s.maxSize
  }

  lemma StepSized(s: State, step: Step)
    requires Sized(s) && Enabled(s, step)
    ensures Sized(Apply(s, step))
  {
    var ws, ws' := s.workers, Apply(s, step).workers;
    assert |ws| == |ws.Keys| && |ws'| == |ws'.Keys|;
    match step
    case Turn(w) => MovedCounts(ws, w, NextPhase(s, ws[w].phase));
    case Expire(w) => MovedCounts(ws, w, Leaving);
    case CreateCore(w) => Joined(ws, w, true);
    case Extend(_, w) => Joined(ws, w, false);
    case Erase(w) => Left(ws, w);
    case _ =>
  }

  // ---------------------------------------------------------------- the core workers

  /** Shut down, and nothing left to do but what was pushed too late. */
  ghost predicate Drained(s: State) {
    s.pool == Terminating && forall t | t in s.queue :: t in s.late
  }

  /** What a worker has read before it looks at the queue: NEW, or a shutdown that is past. */
  ghost predicate ReadsTrue(s: State) {
    forall w | w in s.workers && s.workers[w].phase.ToLook? ::
      s.workers[w].phase.saw == New || (s.workers[w].phase.saw == Terminating && s.pool == Terminating)
  }

  /** A core worker that stayed when the pool started is there until the pool is drained. */
  ghost predicate CoreStays(s: State) {
    && ReadsTrue(s)
    && if s.pool == New then s.queue == [] && s.checked == {} && s.pushed == {} && s.accepted == {} && s.late == {}
       else s.anchored ==> CoreAlive(s.workers) != {} || Drained(s)
  }

  lemma StillAlive(ws: Workers, ws': Workers, w: Tid)
    requires forall v | v in CoreAlive(ws) && v != w :: v in ws' && ws'[v] == ws[v]
    requires w in CoreAlive(ws) ==> w in CoreAlive(ws')
    ensures CoreAlive(ws) != {} ==> CoreAlive(ws') != {}
  {
    if v :| v in CoreAlive(ws) { assert v in CoreAlive(ws'); }
  }

  lemma TurnReads(s: State, w: Tid)
    requires ReadsTrue(s) && Enabled(s, Turn(w))
    ensures ReadsTrue(TakeTurn(s, w))
  {
  }

  /** A turn that ends the stay of a core worker is one that finds the queue empty after the shutdown. */
  lemma StayEnds(s: State, w: Tid)
    requires ReadsTrue(s) && Enabled(s, Turn(w)) && s.pool != New && Stays(s.workers[w])
    requires !Stays(s.workers[w].(phase := NextPhase(s, s.workers[w].phase)))
    ensures Drained(TakeTurn(s, w))
  {
  }

  lemma TurnDrained(s: State, w: Tid)
    requires Drained(s) && Enabled(s, Turn(w))
    ensures Drained(TakeTurn(s, w))
  {
    if NextPhase(s, s.workers[w].phase).Holding? { assert forall t | t in s.queue[1..] :: t in s.queue; }
  }

  lemma TurnCoreStays(s: State, w: Tid)
    requires CoreStays(s) && Enabled(s, Turn(w))
    ensures CoreStays(TakeTurn(s, w))
  {
    TurnReads(s, w);
    var next := NextPhase(s, s.workers[w].phase);
    if s.pool != New && s.anchored {
      if Drained(s) {
        TurnDrained(s, w);
      } else if Stays(s.workers[w]) && !Stays(s.workers[w].(phase := next)) {
        StayEnds(s, w);
      } else {
        StillAlive(s.workers, SetPhase(s.workers, w, next), w);
      }
    }
  }

  lemma StepCoreStays(s: State, step: Step)
    requires CoreStays(s) && Enabled(s, step)
    ensures CoreStays(Apply(s, step))
  {
    match step
    case Turn(w) => TurnCoreStays(s, w);
    case Expire(w) => ExpireCoreStays(s, w);
    case Extend(task, w) => ExtendCoreStays(s, task, w);
    case Erase(w) => EraseCoreStays(s, w);
    case _ =>
  }

  lemma ExpireCoreStays(s: State, w: Tid)
    requires CoreStays(s) && Enabled(s, Expire(w))
    ensures CoreStays(Apply(s, Expire(w)))
  {
    StillAlive(s.workers, SetPhase(s.workers, w, Leaving), w);
  }

  lemma ExtendCoreStays(s: State, task: Task, w: Tid)
    requires CoreStays(s) && Enabled(s, Extend(task, w))
    ensures CoreStays(Apply(s, Extend(task, w)))
  {
    StillAlive(s.workers, s.workers[w := Worker(false, AtTop)], w);
  }

  lemma EraseCoreStays(s: State, w: Tid)
    requires CoreStays(s) && Enabled(s, Erase(w))
    ensures CoreStays(Apply(s, Erase(w)))
  {
    StillAlive(s.workers, s.workers - {w}, w);
  }

  // ---------------------------------------------------------------- every run

  ghost predicate Inv(s: State) {
    TasksSplit(s) && Counts(s) && Sized(s) && CoreStays(s)
  }

  lemma {:induction false} RunKeeps(s: State, steps: seq<Step>)
    requires Inv(s) && Legal(s, steps)
    ensures Inv(Run(s, steps))
    decreases |steps|
  {
    if steps == [] {
    } else {
      StepSplits(s, steps[0]);
      StepCounts(s, steps[0]);
      StepSized(s, steps[0]);
      StepCoreStays(s, steps[0]);
      RunKeeps(Apply(s, steps[0]), steps[1..]);
    }
  }

  lemma InitInv(coreSize: nat, maxSize: nat)
    requires coreSize <= maxSize
    ensures Inv(Init(coreSize, maxSize))
  {
    var s := Init(coreSize, maxSize);
    assert Taken(s.workers) == {} && Queued(s.queue) == {};
    assert Busy(s.workers) == {} && Uncounted(s.workers) == {} && CoreAlive(s.workers) == {};
  }

  lemma {:induction false} SizesStay(s: State, steps: seq<Step>)
    requires Legal(s, steps)
    ensures Run(s, steps).coreSize == s.coreSize && Run(s, steps).maxSize == s.maxSize
    decreases |steps|
  {
    if steps != [] { SizesStay(Apply(s, steps[0]), steps[1..]); }
  }

  /** In every state of every run: accepted tasks are queued, with a worker, or finished, each in one place;
      the active count is right; and the pool is within its bound. */
  lemma EveryRun(coreSize: nat, maxSize: nat, steps: seq<Step>)
    requires coreSize <= maxSize && Legal(Init(coreSize, maxSize), steps)
    ensures var s := Run(Init(coreSize, maxSize), steps);
            TasksSplit(s) && Counts(s) && |s.workers| <= maxSize
  {
    InitInv(coreSize, maxSize);
    RunKeeps(Init(coreSize, maxSize), steps);
    SizesStay(Init(coreSize, maxSize), steps);
  }

  /** Shut down with no worker left, the pool has finished every task but those pushed after the shutdown,
      as long as a core worker stayed when the pool started. */
  lemma NothingLeftBehind(coreSize: nat, maxSize: nat, steps: seq<Step>)
    requires coreSize <= maxSize && Legal(Init(coreSize, maxSize), steps)
    requires var s := Run(Init(coreSize, maxSize), steps);
             s.pool == Terminating && s.workers == map[] && s.anchored
    ensures var s := Run(Init(coreSize, maxSize), steps);
            s.accepted - s.late <= s.finished && s.taskCount == |s.finished|
  {
    InitInv(coreSize, maxSize);
    RunKeeps(Init(coreSize, maxSize), steps);
    var s := Run(Init(coreSize, maxSize), steps);
    assert CoreAlive(s.workers) == {} && Taken(s.workers) == {} && Uncounted(s.workers) == {};
  }

  // ---------------------------------------------------------------- runs put together

  /** The steps lead from one state to the other. */
  ghost predicate Leads(s: State, steps: seq<Step>, end: State) {
    Legal(s, steps) && Run(s, steps) == end
  }

  lemma LeadsCons(s: State, step: Step, mid: State, rest: seq<Step>, end: State)
    requires Enabled(s, step) && Apply(s, step) == mid && Leads(mid, rest, end)
    ensures Leads(s, [step] + rest, end)
  {
    assert ([step] + rest)[1..] == rest;
  }

  lemma LeadsSplit(s: State, steps: seq<Step>, end: State)
    requires steps != [] && Leads(s, steps, end)
    ensures Enabled(s, steps[0]) && Leads(Apply(s, steps[0]), steps[1..], end)
  {
  }

  lemma {:induction false} LeadsOn(s: State, a: seq<Step>, mid: State, b: seq<Step>, end: State)
    requires Leads(s, a, mid) && Leads(mid, b, end)
    ensures Leads(s, a + b, end)
    decreases |a|
  {
    if a == [] {
      assert a + b == b;
    } else {
      LeadsSplit(s, a, mid);
      var s1 := Apply(s, a[0]);
      LeadsOn(s1, a[1..], mid, b, end);
      LeadsCons(s, a[0], s1, a[1..] + b, end);
      assert a + b == [a[0]] + (a[1..] + b);
    }
  }

  lemma LeadsOne(s: State, step: Step, end: State)
    requires Enabled(s, step) && Apply(s, step) == end
    ensures Leads(s, [step], end)
  {
    assert Leads(end, [], end);
    LeadsCons(s, step, end, [], end);
    assert [step] + [] == [step];
  }

  lemma LeadsThen(s: State, a: seq<Step>, mid: State, step: Step, end: State)
    requires Leads(s, a, mid) && Enabled(mid, step) && Apply(mid, step) == end
    ensures Leads(s, a + [step], end)
  {
    LeadsOne(mid, step, end);
    LeadsOn(s, a, mid, [step], end);
  }

  function ThreeOf(w: Tid): seq<Step> {
    [Turn(w)] + [Turn(w)] + [Turn(w)]
  }

  /** The turns from the loop test to a phase at the exit. */
  function TurnsTo(w: Tid, phase: Phase): seq<Step> {
    if phase == Leaving then ThreeOf(w) + [Turn(w)] else ThreeOf(w)
  }

  /** Outside of RUNNING and with nothing to take, a worker's next three turns bring it to its look at the queue. */
  lemma ThreeTurns(s: State, w: Tid)
    requires At(s, w, AtTop) && s.queue == [] && s.pool != Running
    ensures Leads(s, ThreeOf(w), s.(workers := SetPhase(s.workers, w, ToLook(s.pool))))
  {
    var s1 := s.(workers := SetPhase(s.workers, w, ToPop));
    var s2 := s.(workers := SetPhase(s.workers, w, ToCheck));
    var s3 := s.(workers := SetPhase(s.workers, w, ToLook(s.pool)));
    LeadsOne(s, Turn(w), s1);
    PhaseAgain(s.workers, w, ToPop, ToCheck);
    LeadsThen(s, [Turn(w)], s1, Turn(w), s2);
    PhaseAgain(s.workers, w, ToCheck, ToLook(s.pool));
    LeadsThen(s, [Turn(w)] + [Turn(w)], s2, Turn(w), s3);
  }

  /** A fourth takes it out of its loop. */
  lemma TurnsOut(s: State, w: Tid, phase: Phase)
    requires At(s, w, AtTop) && s.queue == [] && s.pool != Running && (phase == Leaving || phase == ToLook(s.pool))
    ensures Leads(s, TurnsTo(w, phase), s.(workers := SetPhase(s.workers, w, phase)))
  {
    ThreeTurns(s, w);
    if phase == Leaving {
      var s3 := s.(workers := SetPhase(s.workers, w, ToLook(s.pool)));
      PhaseAgain(s.workers, w, ToLook(s.pool), Leaving);
      LeadsThen(s, ThreeOf(w), s3, Turn(w), s.(workers := SetPhase(s.workers, w, Leaving)));
    }
  }

  lemma PhaseAgain(ws: Workers, w: Tid, p: Phase, q: Phase)
    requires w in ws
    ensures SetPhase(SetPhase(ws, w, p), w, q) == SetPhase(ws, w, q)
  {
  }

  lemma ErasedSize(ws: Workers, w: Tid)
    requires w in ws
    ensures |ws - {w}| < |ws|
  {
    assert (ws - {w}).Keys == ws.Keys - {w};
    assert |ws - {w}| == |(ws - {w}).Keys| && |ws| == |ws.Keys|;
  }

  /** With nothing in the queue, a worker at the exit is gone after its last turn. */
  lemma EraseOne(s: State, w: Tid) returns (steps: seq<Step>)
    requires s.queue == [] && w in s.workers && (s.workers[w].phase.Leaving? || s.workers[w].phase.ToLook?)
    ensures Leads(s, steps, s.(workers := s.workers - {w}))
  {
    var end := s.(workers := s.workers - {w});
    if s.workers[w].phase.Leaving? {
      steps := [Erase(w)];
      LeadsOne(s, Erase(w), end);
    } else {
      var s1 := s.(workers := SetPhase(s.workers, w, Leaving));
      assert s1.workers - {w} == s.workers - {w};
      LeadsOne(s, Turn(w), s1);
      LeadsThen(s, [Turn(w)], s1, Erase(w), end);
      steps := [Turn(w)] + [Erase(w)];
    }
  }

  lemma {:induction false} EraseAll(s: State) returns (steps: seq<Step>)
    requires s.queue == [] && forall w | w in s.workers :: s.workers[w].phase.Leaving? || s.workers[w].phase.ToLook?
    ensures Leads(s, steps, s.(workers := map[]))
    decreases |s.workers|
  {
    if s.workers == map[] {
      steps := [];
    } else {
      var w :| w in s.workers;
      var s' := s.(workers := s.workers - {w});
      var first := EraseOne(s, w);
      ErasedSize(s.workers, w);
      var rest := EraseAll(s');
      LeadsOn(s, first, s', rest, s.(workers := map[]));
      steps := first + rest;
    }
  }

  lemma LeaveOne(s: State, w: Tid)
    requires s.pool == Terminating && s.queue == [] && At(s, w, AtTop)
    ensures Leads(s, TurnsTo(w, Leaving) + [Erase(w)], s.(workers := s.workers - {w}))
  {
    TurnsOut(s, w, Leaving);
    assert SetPhase(s.workers, w, Leaving) - {w} == s.workers - {w};
    LeadsThen(s, TurnsTo(w, Leaving), s.(workers := SetPhase(s.workers, w, Leaving)), Erase(w),
              s.(workers := s.workers - {w}));
  }

  /** Shut down with nothing to take, any number of workers leave one after the other. */
  lemma {:induction false} LeaveAll(s: State) returns (steps: seq<Step>)
    requires s.pool == Terminating && s.queue == [] && forall w | w in s.workers :: s.workers[w].phase == AtTop
    ensures Leads(s, steps, s.(workers := map[]))
    decreases |s.workers|
  {
    if s.workers == map[] {
      steps := [];
    } else {
      var w :| w in s.workers;
      var s' := s.(workers := s.workers - {w});
      LeaveOne(s, w);
      ErasedSize(s.workers, w);
      var rest := LeaveAll(s');
      LeadsOn(s, TurnsTo(w, Leaving) + [Erase(w)], s', rest, s.(workers := map[]));
      steps := TurnsTo(w, Leaving) + [Erase(w)] + rest;
    }
  }

  // ---------------------------------------------------------------- stranded tasks

  /** Shut down, with no worker and no submission under way. */
  ghost predicate Over(s: State) {
    s.pool == Terminating && s.workers == map[] && s.checked == {} && s.pushed == {}
  }

  /** Then nothing happens any more: what is in the queue stays there. */
  lemma OverIsForGood(s: State, steps: seq<Step>)
    requires Over(s) && Legal(s, steps)
    ensures steps == []
  {
  }

  /** A task is accepted, the worker added for it expires before taking it, and no worker is left. */
  function Untaken(s: State, task: Task): State {
    s.(checked := s.checked - {task}, queue := s.queue + [task], accepted := s.accepted + {task},
       late := (if s.pool == Running then s.late else s.late + {task}),
       largest := if s.largest < 1 then 1 else s.largest)
  }

  function PushingUntaken(w: Tid, task: Task): seq<Step> {
    [Push(task)] + [Extend(task, w)] + [Expire(w)] + [Erase(w)]
  }

  lemma PushAndExtend(s: State, w: Tid, task: Task)
    requires s.workers == map[] && s.pushed == {} && task in s.checked && s.maxSize >= 1
    ensures Leads(s, [Push(task)] + [Extend(task, w)], Untaken(s, task).(workers := map[w := Worker(false, AtTop)]))
  {
    var r := Untaken(s, task);
    var s1 := r.(pushed := {task}, largest := s.largest);
    var s2 := r.(workers := map[w := Worker(false, AtTop)]);
    LeadsOne(s, Push(task), s1);
    assert |s2.workers| == 1 && s1.pushed - {task} == {};
    LeadsThen(s, [Push(task)], s1, Extend(task, w), s2);
  }

  lemma ExpireOnly(s: State, w: Tid, r: State)
    requires s.workers == map[w := Worker(false, AtTop)] && r == s.(workers := map[w := Worker(false, Leaving)])
    ensures Enabled(s, Expire(w)) && Apply(s, Expire(w)) == r
  {
  }

  lemma PushUntaken(s: State, w: Tid, task: Task)
    requires s.workers == map[] && s.pushed == {} && task in s.checked && s.maxSize >= 1
    ensures Leads(s, PushingUntaken(w, task), Untaken(s, task))
  {
    var r := Untaken(s, task);
    var s2, s3 := r.(workers := map[w := Worker(false, AtTop)]), r.(workers := map[w := Worker(false, Leaving)]);
    PushAndExtend(s, w, task);
    ExpireOnly(s2, w, s3);
    LeadsThen(s, [Push(task)] + [Extend(task, w)], s2, Expire(w), s3);
    assert s3.workers - {w} == map[];
    LeadsThen(s, [Push(task)] + [Extend(task, w)] + [Expire(w)], s3, Erase(w), r);
  }

  /** It is over and a task that was pushed before the shutdown has not finished. */
  ghost predicate StrandsInTime(s: State) {
    Over(s) && !(s.accepted - s.late <= s.finished)
  }

  /** From a started pool whose workers are all on their way out, a run strands a task that came in time. */
  lemma StrandFrom(s: State) returns (steps: seq<Step>)
    requires s.pool == Running && s.queue == [] && s.checked == {} && s.pushed == {} && s.accepted == {}
    requires s.late == {} && s.finished == {} && s.maxSize >= 1
    requires forall w | w in s.workers :: s.workers[w].phase.Leaving? || s.workers[w].phase.ToLook?
    ensures Legal(s, steps) && StrandsInTime(Run(s, steps))
  {
    var task: Task := 7;
    var erase := EraseAll(s);
    var s1 := s.(workers := map[]);
    var s2 := s1.(checked := {task});
    LeadsThen(s, erase, s1, CheckState(task), s2);
    var s3 := Untaken(s2, task);
    PushUntaken(s2, 0, task);
    LeadsOn(s, erase + [CheckState(task)], s2, PushingUntaken(0, task), s3);
    var r := s3.(pool := Terminating);
    LeadsThen(s, erase + [CheckState(task)] + PushingUntaken(0, task), s3, Shutdown, r);
    steps := erase + [CheckState(task)] + PushingUntaken(0, task) + [Shutdown];
    assert task in r.accepted - r.late && task !in r.finished;
    assert r.checked == {};
  }

  ghost predicate CanStrand(s: State) {
    exists rest :: Legal(s, rest) && StrandsInTime(Run(s, rest))
  }

  /** A pool that starts can strand a task that comes in time if and only if at the start no core worker is in its
      loop but those that have already read NEW. */
  lemma StrandsExactly(coreSize: nat, maxSize: nat, steps: seq<Step>)
    requires coreSize <= maxSize && 1 <= maxSize && Legal(Init(coreSize, maxSize), steps)
    requires Enabled(Run(Init(coreSize, maxSize), steps), Start)
    ensures var s := Run(Init(coreSize, maxSize), steps);
            CanStrand(Apply(s, Start)) <==> CoreAlive(s.workers) == {}
  {
    var s0 := Init(coreSize, maxSize);
    var s := Run(s0, steps);
    InitInv(coreSize, maxSize);
    RunKeeps(s0, steps);
    SizesStay(s0, steps);
    var s1 := Apply(s, Start);
    if CoreAlive(s.workers) == {} {
      NewCrewIsCore(s0, steps);
      forall w | w in s.workers ensures s.workers[w].phase.Leaving? || s.workers[w].phase.ToLook? {
        assert s.workers[w].core && w !in CoreAlive(s.workers);
      }
      var rest := StrandFrom(s1);
      assert Legal(s1, rest) && StrandsInTime(Run(s1, rest));
    } else {
      forall rest | Legal(s1, rest) ensures !StrandsInTime(Run(s1, rest)) {
        AnchoredDoesNotStrand(coreSize, maxSize, steps, rest);
      }
    }
  }

  lemma AnchoredDoesNotStrand(coreSize: nat, maxSize: nat, steps: seq<Step>, rest: seq<Step>)
    requires coreSize <= maxSize && Legal(Init(coreSize, maxSize), steps)
    requires var s := Run(Init(coreSize, maxSize), steps);
             Enabled(s, Start) && CoreAlive(s.workers) != {} && Legal(Apply(s, Start), rest)
    ensures !StrandsInTime(Run(Apply(Run(Init(coreSize, maxSize), steps), Start), rest))
  {
    var s0 := Init(coreSize, maxSize);
    var s := Run(s0, steps);
    var s1 := Apply(s, Start);
    var r := Run(s1, rest);
    LeadsThen(s0, steps, s, Start, s1);
    LeadsOn(s0, steps + [Start], s1, rest, r);
    AnchorKept(s1, rest);
    if StrandsInTime(r) { NothingLeftBehind(coreSize, maxSize, steps + [Start] + rest); }
  }

  lemma {:induction false} AnchorKept(s: State, steps: seq<Step>)
    requires s.pool != New && Legal(s, steps)
    ensures Run(s, steps).anchored == s.anchored
    decreases |steps|
  {
    if steps != [] { AnchorKept(Apply(s, steps[0]), steps[1..]); }
  }

  ghost predicate NewIsCore(s: State) {
    && (s.pool == New ==> s.pushed == {} && s.checked == {})
    && (s.pool == New ==> forall w | w in s.workers :: s.workers[w].core)
  }

  lemma {:induction false} NewCrewIsCore(s: State, steps: seq<Step>)
    requires NewIsCore(s) && Legal(s, steps)
    ensures NewIsCore(Run(s, steps))
    decreases |steps|
  {
    if steps == [] {
    } else {
      assert NewIsCore(Apply(s, steps[0]));
      NewCrewIsCore(Apply(s, steps[0]), steps[1..]);
    }
  }

  // ---------------------------------------------------------------- for every size

  function Crew(n: nat, phase: Phase): Workers {
    if n == 0 then map[] else Crew(n - 1, phase)[n - 1 := Worker(true, phase)]
  }

  lemma {:induction false} CrewHas(n: nat, phase: Phase)
    ensures forall w: Tid :: w in Crew(n, phase) <==> w < n
    ensures forall w: Tid | w < n :: Crew(n, phase)[w] == Worker(true, phase)
  {
    if n > 0 { CrewHas(n - 1, phase); }
  }

  lemma {:induction false} CrewSize(n: nat, phase: Phase)
    ensures |Crew(n, phase)| == n
  {
    if n == 0 {
    } else {
      CrewSize(n - 1, phase);
      CrewHas(n - 1, phase);
      AddedSize(Crew(n - 1, phase), n - 1, Worker(true, phase));
    }
  }

  lemma AddedSize(ws: Workers, w: Tid, worker: Worker)
    requires w !in ws
    ensures |ws[w := worker]| == |ws| + 1
  {
    assert ws[w := worker].Keys == ws.Keys + {w};
    assert |ws| == |ws.Keys| && |ws[w := worker]| == |ws[w := worker].Keys|;
  }

  lemma CrewOf(n: nat, phase: Phase)
    ensures |Crew(n, phase)| == n
    ensures forall w: Tid :: w in Crew(n, phase) <==> w < n
    ensures forall w: Tid | w < n :: Crew(n, phase)[w] == Worker(true, phase)
  {
    CrewHas(n, phase);
    CrewSize(n, phase);
  }

  /** The pool while it is being set up, with these workers. */
  function Hired(coreSize: nat, maxSize: nat, ws: Workers): State {
    Init(coreSize, maxSize).(workers := ws, largest := |ws|)
  }

  lemma HireOne(coreSize: nat, maxSize: nat, ws: Workers, w: Tid)
    requires |ws| < coreSize && w !in ws
    ensures Enabled(Hired(coreSize, maxSize, ws), CreateCore(w))
    ensures Apply(Hired(coreSize, maxSize, ws), CreateCore(w)) == Hired(coreSize, maxSize, ws[w := Worker(true, AtTop)])
  {
    AddedSize(ws, w, Worker(true, AtTop));
  }

  lemma HireNone(coreSize: nat, maxSize: nat, phase: Phase)
    ensures Leads(Init(coreSize, maxSize), [], Hired(coreSize, maxSize, Crew(0, phase)))
  {
  }

  /** `n` core workers in their loops. */
  lemma {:induction false} HireAll(coreSize: nat, maxSize: nat, n: nat) returns (steps: seq<Step>)
    requires n <= coreSize
    ensures Leads(Init(coreSize, maxSize), steps, Hired(coreSize, maxSize, Crew(n, AtTop)))
  {
    if n == 0 {
      steps := [];
      HireNone(coreSize, maxSize, AtTop);
    } else {
      var ws := Crew(n - 1, AtTop);
      var hired := HireAll(coreSize, maxSize, n - 1);
      CrewOf(n - 1, AtTop);
      HireOne(coreSize, maxSize, ws, n - 1);
      LeadsThen(Init(coreSize, maxSize), hired, Hired(coreSize, maxSize, ws), CreateCore(n - 1),
                Hired(coreSize, maxSize, Crew(n, AtTop)));
      steps := hired + [CreateCore(n - 1)];
    }
  }

  /** A worker is hired and reads the state before it is RUNNING. */
  lemma HireOneEarly(coreSize: nat, maxSize: nat, ws: Workers, w: Tid, phase: Phase)
    requires |ws| < coreSize && w !in ws && (phase == Leaving || phase == ToLook(New))
    ensures Leads(Hired(coreSize, maxSize, ws), [CreateCore(w)] + TurnsTo(w, phase),
                  Hired(coreSize, maxSize, ws[w := Worker(true, phase)]))
  {
    var ws1 := ws[w := Worker(true, AtTop)];
    var s, s1 := Hired(coreSize, maxSize, ws), Hired(coreSize, maxSize, ws1);
    HireOne(coreSize, maxSize, ws, w);
    TurnsOut(s1, w, phase);
    AddedSize(ws, w, Worker(true, AtTop));
    AddedSize(ws, w, Worker(true, phase));
    assert SetPhase(ws1, w, phase) == ws[w := Worker(true, phase)];
    LeadsCons(s, CreateCore(w), s1, TurnsTo(w, phase), Hired(coreSize, maxSize, ws[w := Worker(true, phase)]));
  }

  /** `n` core workers that have all read NEW, and are on their way out or about to look at the queue. */
  lemma {:induction false} HireEarly(coreSize: nat, maxSize: nat, n: nat, phase: Phase) returns (steps: seq<Step>)
    requires n <= coreSize && (phase == Leaving || phase == ToLook(New))
    ensures Leads(Init(coreSize, maxSize), steps, Hired(coreSize, maxSize, Crew(n, phase)))
  {
    if n == 0 {
      steps := [];
      HireNone(coreSize, maxSize, phase);
    } else {
      var ws, w := Crew(n - 1, phase), n - 1;
      var hired := HireEarly(coreSize, maxSize, n - 1, phase);
      CrewOf(n - 1, phase);
      HireOneEarly(coreSize, maxSize, ws, w, phase);
      assert Crew(n, phase) == ws[w := Worker(true, phase)];
      LeadsOn(Init(coreSize, maxSize), hired, Hired(coreSize, maxSize, ws), [CreateCore(w)] + TurnsTo(w, phase),
              Hired(coreSize, maxSize, Crew(n, phase)));
      steps := hired + ([CreateCore(w)] + TurnsTo(w, phase));
    }
  }

  /** The pool with its whole crew in one phase, staffed and started. */
  lemma StartWith(coreSize: nat, maxSize: nat, hired: seq<Step>, phase: Phase) returns (s: State)
    requires Leads(Init(coreSize, maxSize), hired, Hired(coreSize, maxSize, Crew(coreSize, phase)))
    ensures Leads(Init(coreSize, maxSize), hired + [Staff] + [Start], s)
    ensures s == Hired(coreSize, maxSize, Crew(coreSize, phase)).(
                   pool := Running, staffed := true, anchored := s.anchored)
    ensures s.anchored == (CoreAlive(Crew(coreSize, phase)) != {})
  {
    CrewOf(coreSize, phase);
    var s1 := Hired(coreSize, maxSize, Crew(coreSize, phase));
    var s2 := s1.(staffed := true);
    LeadsThen(Init(coreSize, maxSize), hired, s1, Staff, s2);
    s := Apply(s2, Start);
    LeadsThen(Init(coreSize, maxSize), hired + [Staff], s2, Start, s);
  }

  /** Without a core worker, and for every size with core workers that read the state too early, some run strands a
      task that came in time; and it does so even if every core worker is still in its loop at the start. */
  lemma EarlyReadStrands(coreSize: nat, maxSize: nat, phase: Phase) returns (start: seq<Step>, rest: seq<Step>)
    requires coreSize <= maxSize && 1 <= maxSize && (phase == Leaving || phase == ToLook(New))
    ensures Legal(Init(coreSize, maxSize), start)
    ensures var s := Run(Init(coreSize, maxSize), start);
            && s.pool == Running && s.workers == Crew(coreSize, phase) && !s.anchored
            && Legal(s, rest) && StrandsInTime(Run(s, rest))
  {
    var hired := HireEarly(coreSize, maxSize, coreSize, phase);
    CrewOf(coreSize, phase);
    var s := StartWith(coreSize, maxSize, hired, phase);
    assert CoreAlive(s.workers) == {};
    start := hired + [Staff] + [Start];
    rest := StrandFrom(s);
  }

  lemma EarlyExitStrands(coreSize: nat, maxSize: nat) returns (steps: seq<Step>)
    requires coreSize <= maxSize && 1 <= maxSize
    ensures Legal(Init(coreSize, maxSize), steps) && StrandsInTime(Run(Init(coreSize, maxSize), steps))
    ensures !Run(Init(coreSize, maxSize), steps).anchored
  {
    var start, rest := EarlyReadStrands(coreSize, maxSize, Leaving);
    var s := Run(Init(coreSize, maxSize), start);
    LeadsOn(Init(coreSize, maxSize), start, s, rest, Run(s, rest));
    AnchorKept(s, rest);
    steps := start + rest;
  }

  /** The whole crew in its place, a submission past its state check, and the pool shut down. */
  lemma ShutWithSubmission(coreSize: nat, maxSize: nat, task: Task) returns (steps: seq<Step>, s: State)
    requires coreSize <= maxSize
    ensures Leads(Init(coreSize, maxSize), steps, s)
    ensures s == Hired(coreSize, maxSize, Crew(coreSize, AtTop)).(
                   pool := Terminating, staffed := true, checked := {task}, anchored := s.anchored)
    ensures coreSize >= 1 ==> s.anchored
  {
    var s0 := Init(coreSize, maxSize);
    var hired := HireAll(coreSize, maxSize, coreSize);
    CrewOf(coreSize, AtTop);
    var start := hired + [Staff] + [Start];
    var s2 := StartWith(coreSize, maxSize, hired, AtTop);
    if coreSize >= 1 { assert 0 in CoreAlive(Crew(coreSize, AtTop)); }
    var s3 := s2.(checked := {task});
    LeadsThen(s0, start, s2, CheckState(task), s3);
    s := s3.(pool := Terminating);
    LeadsThen(s0, start + [CheckState(task)], s3, Shutdown, s);
    steps := start + [CheckState(task)] + [Shutdown];
  }

  /** For every size, with every core worker in its place: a submission that passes the state check before the
      shutdown is pushed after the last worker left, and the worker added for it expires before taking it. */
  lemma LatePushStrands(coreSize: nat, maxSize: nat, task: Task) returns (steps: seq<Step>)
    requires coreSize <= maxSize && 1 <= maxSize
    ensures Legal(Init(coreSize, maxSize), steps)
    ensures var s := Run(Init(coreSize, maxSize), steps);
            Over(s) && s.accepted == s.late == {task} && s.finished == {} && (coreSize >= 1 ==> s.anchored)
  {
    var s0 := Init(coreSize, maxSize);
    var begin, s := ShutWithSubmission(coreSize, maxSize, task);
    CrewOf(coreSize, AtTop);
    var leave := LeaveAll(s);
    var s1 := s.(workers := map[]);
    LeadsOn(s0, begin, s, leave, s1);
    PushUntaken(s1, 0, task);
    LeadsOn(s0, begin + leave, s1, PushingUntaken(0, task), Untaken(s1, task));
    steps := begin + leave + PushingUntaken(0, task);
    assert Untaken(s1, task).checked == {};
  }

  // ---------------------------------------------------------------- which shutdowns strand a task

  /** It is over and some accepted task has not finished. */
  ghost predicate Strands(s: State) {
    Over(s) && !(s.accepted <= s.finished)
  }

  ghost predicate CanStrandAny(s: State) {
    exists rest :: Legal(s, rest) && Strands(Run(s, rest))
  }

  /** Nothing is late before the shutdown. */
  ghost predicate InTime(s: State) {
    (s.pool != Terminating ==> s.late == {}) && (s.pool == New ==> s.checked == {})
  }

  lemma {:induction false} RunInTime(s: State, steps: seq<Step>)
    requires InTime(s) && Legal(s, steps)
    ensures InTime(Run(s, steps))
    decreases |steps|
  {
    if steps == [] {
    } else {
      assert InTime(Apply(s, steps[0]));
      RunInTime(Apply(s, steps[0]), steps[1..]);
    }
  }

  /** Shut down with no submission past its state check. */
  ghost predicate Closed(s: State) {
    s.pool == Terminating && s.checked == {} && s.late == {}
  }

  lemma {:induction false} StaysClosed(s: State, steps: seq<Step>)
    requires Closed(s) && Legal(s, steps)
    ensures Closed(Run(s, steps))
    decreases |steps|
  {
    if steps == [] {
    } else {
      assert Closed(Apply(s, steps[0]));
      StaysClosed(Apply(s, steps[0]), steps[1..]);
    }
  }

  /** A pool that is shut down while no submission is between its state check and its push finishes everything. */
  lemma QuietShutdown(coreSize: nat, maxSize: nat, steps: seq<Step>, rest: seq<Step>)
    requires coreSize <= maxSize && Legal(Init(coreSize, maxSize), steps)
    requires var s := Run(Init(coreSize, maxSize), steps);
             s.pool == Running && s.anchored && s.checked == {} && Legal(Apply(s, Shutdown), rest)
    ensures var r := Run(Apply(Run(Init(coreSize, maxSize), steps), Shutdown), rest);
            r.workers == map[] ==> r.accepted == r.finished && r.taskCount == |r.finished|
  {
    var s0 := Init(coreSize, maxSize);
    var s := Run(s0, steps);
    var s1 := Apply(s, Shutdown);
    var r := Run(s1, rest);
    RunInTime(s0, steps);
    StaysClosed(s1, rest);
    AnchorKept(s1, rest);
    LeadsThen(s0, steps, s, Shutdown, s1);
    LeadsOn(s0, steps + [Shutdown], s1, rest, r);
    if r.workers == map[] {
      NothingLeftBehind(coreSize, maxSize, steps + [Shutdown] + rest);
      EveryRun(coreSize, maxSize, steps + [Shutdown] + rest);
    }
  }

  // ---------------------------------------------------------------- working off what is there

  /** How far a worker is from its next pop, or from leaving when there is nothing to pop. */
  function Distance(phase: Phase, empty: bool): nat {
    match phase
    case Holding(_) => 7
    case Executing(_) => 6
    case Counting => 5
    case ToCheck => if empty then 2 else 4
    case ToLook(_) => if empty then 1 else 3
    case AtTop => if empty then 4 else 2
    case ToPop => if empty then 3 else 1
    case Leaving => 0
  }

  /** Only what a worker's turns change: the queue, the workers and the counters. */
  ghost predicate WorkedOn(s: State, r: State) {
    r == s.(queue := r.queue, workers := r.workers, active := r.active,
            taskCount := r.taskCount, finished := r.finished)
  }

  /** Shut down, a worker left to itself takes everything there is and leaves. */
  lemma {:induction false} DriveOut(s: State, w: Tid) returns (steps: seq<Step>, r: State)
    requires s.pool == Terminating && w in s.workers && s.workers[w].phase != Leaving
    ensures Leads(s, steps, r) && WorkedOn(s, r) && r.queue == []
    ensures r.workers == SetPhase(s.workers, w, Leaving)
    decreases |s.queue|, Distance(s.workers[w].phase, s.queue == [])
  {
    var s1 := Apply(s, Turn(w));
    if s1.workers[w].phase == Leaving {
      steps, r := [Turn(w)], s1;
      LeadsOne(s, Turn(w), s1);
    } else {
      var rest;
      rest, r := DriveOut(s1, w);
      PhaseAgain(s.workers, w, s1.workers[w].phase, Leaving);
      LeadsCons(s, Turn(w), s1, rest, r);
      steps := [Turn(w)] + rest;
    }
  }

  lemma DriveAndErase(s: State, w: Tid) returns (steps: seq<Step>, r: State)
    requires s.pool == Terminating && s.queue == [] && w in s.workers
    ensures Leads(s, steps, r) && WorkedOn(s, r) && r.queue == [] && r.workers == s.workers - {w}
  {
    var out, s1 := [], s;
    if s.workers[w].phase != Leaving {
      out, s1 := DriveOut(s, w);
    }
    r := s1.(workers := s1.workers - {w});
    assert r.workers == s.workers - {w};
    LeadsThen(s, out, s1, Erase(w), r);
    steps := out + [Erase(w)];
  }

  lemma {:induction false} EmptyOut(s: State) returns (steps: seq<Step>, r: State)
    requires s.pool == Terminating && s.queue == []
    ensures Leads(s, steps, r) && WorkedOn(s, r) && r.queue == [] && r.workers == map[]
    decreases |s.workers|
  {
    if s.workers == map[] {
      steps, r := [], s;
    } else {
      var w :| w in s.workers;
      var first, s1 := DriveAndErase(s, w);
      ErasedSize(s.workers, w);
      var rest;
      rest, r := EmptyOut(s1);
      LeadsOn(s, first, s1, rest, r);
      steps := first + rest;
    }
  }

  /** With a worker still in its loop, everything is worked off and everybody leaves. */
  lemma WorkOff(s: State, w: Tid) returns (steps: seq<Step>, r: State)
    requires s.pool == Terminating && w in s.workers && s.workers[w].phase != Leaving
    ensures Leads(s, steps, r) && WorkedOn(s, r) && r.queue == [] && r.workers == map[]
  {
    var first, s1 := DriveOut(s, w);
    var rest;
    rest, r := EmptyOut(s1);
    LeadsOn(s, first, s1, rest, r);
    steps := first + rest;
  }

  // ---------------------------------------------------------------- finishing the other submissions

  /** The later state has every worker of the earlier one, where it was, and only new ones at their loop tests
      besides. */
  ghost predicate Beyond(s: State, r: State) {
    && r.pool == s.pool && r.maxSize == s.maxSize
    && (forall w | w in s.workers :: w in r.workers && r.workers[w] == s.workers[w])
    && (forall w | w in r.workers && w !in s.workers :: r.workers[w] == Worker(false, AtTop))
  }

  /** The decision after a push, as the tests of that moment make it. */
  lemma Decide(s: State, task: Task) returns (step: Step)
    requires task in s.pushed
    ensures Enabled(s, step) && Beyond(s, Apply(s, step))
    ensures Apply(s, step).pushed == s.pushed - {task} && Apply(s, step).checked == s.checked
    ensures Apply(s, step).queue == s.queue
  {
    if |s.queue| > |s.workers| - s.active && |s.workers| < s.maxSize {
      var w := Above(s.workers.Keys);
      assert w !in s.workers.Keys;
      step := Extend(task, w);
    } else {
      step := Skip(task);
    }
  }

  lemma {:induction false} DecideAll(s: State) returns (steps: seq<Step>, r: State)
    ensures Leads(s, steps, r) && Beyond(s, r) && r.pushed == {} && r.checked == s.checked && r.queue == s.queue
    decreases s.pushed
  {
    if s.pushed == {} {
      steps, r := [], s;
    } else {
      var task :| task in s.pushed;
      var step := Decide(s, task);
      var s1 := Apply(s, step);
      var rest;
      rest, r := DecideAll(s1);
      LeadsCons(s, step, s1, rest, r);
      steps := [step] + rest;
    }
  }

  lemma {:induction false} PushAllBut(s: State, task: Task) returns (steps: seq<Step>, r: State)
    requires task in s.checked
    ensures Leads(s, steps, r) && Beyond(s, r) && r.checked == {task}
    decreases s.checked
  {
    if s.checked == {task} {
      steps, r := [], s;
    } else {
      var other :| other in s.checked && other != task;
      var s1 := Apply(s, Push(other));
      var rest;
      rest, r := PushAllBut(s1, task);
      LeadsCons(s, Push(other), s1, rest, r);
      steps := [Push(other)] + rest;
    }
  }

  // ---------------------------------------------------------------- leaving the queue as it is

  /** The workers about to take a task. */
  function AtPop(ws: Workers): set<Tid> {
    set w | w in ws && ws[w].phase.ToPop?
  }

  /** No core worker is in its loop. */
  ghost predicate NoCore(ws: Workers) {
    forall w | w in ws && ws[w].core :: ws[w].phase == Leaving
  }

  function Rank(phase: Phase): nat {
    match phase
    case Leaving => 0
    case AtTop => 1
    case ToLook(_) => 2
    case ToCheck => 3
    case Counting => 4
    case Executing(_) => 5
    case Holding(_) => 6
    case ToPop => 7
  }

  function QueueAfter(queue: seq<Task>, phase: Phase): seq<Task> {
    if phase.ToPop? && queue != [] then queue[1..] else queue
  }

  /** A worker that is no core worker goes to its next loop test and expires there; it takes a task only if it
      was about to. */
  lemma {:induction false} ExpireOut(s: State, w: Tid) returns (steps: seq<Step>, r: State)
    requires s.pool == Terminating && w in s.workers && !s.workers[w].core
    ensures Leads(s, steps, r) && WorkedOn(s, r) && r.workers == SetPhase(s.workers, w, Leaving)
    ensures r.queue == QueueAfter(s.queue, s.workers[w].phase)
    decreases Rank(s.workers[w].phase)
  {
    var phase := s.workers[w].phase;
    if phase == Leaving {
      steps, r := [], s;
      assert SetPhase(s.workers, w, Leaving) == s.workers;
    } else if phase == AtTop {
      steps, r := [Expire(w)], s.(workers := SetPhase(s.workers, w, Leaving));
      LeadsOne(s, Expire(w), r);
    } else {
      var s1 := Apply(s, Turn(w));
      var rest;
      rest, r := ExpireOut(s1, w);
      PhaseAgain(s.workers, w, s1.workers[w].phase, Leaving);
      LeadsCons(s, Turn(w), s1, rest, r);
      steps := [Turn(w)] + rest;
    }
  }

  lemma ExpireAndErase(s: State, w: Tid) returns (steps: seq<Step>, r: State)
    requires s.pool == Terminating && w in s.workers && NoCore(s.workers)
    ensures Leads(s, steps, r) && WorkedOn(s, r) && r.workers == s.workers - {w}
    ensures r.queue == QueueAfter(s.queue, s.workers[w].phase)
  {
    var out, s1 := [], s;
    if !s.workers[w].core {
      out, s1 := ExpireOut(s, w);
    }
    r := s1.(workers := s1.workers - {w});
    assert r.workers == s.workers - {w};
    LeadsThen(s, out, s1, Erase(w), r);
    steps := out + [Erase(w)];
  }

  lemma AtPopErased(ws: Workers, w: Tid)
    requires w in ws
    ensures |AtPop(ws - {w})| == |AtPop(ws)| - One(ws[w].phase.ToPop?)
  {
    assert AtPop(ws - {w}) == AtPop(ws) - {w};
  }

  /** Without a core worker everybody can leave, taking no more tasks than there were workers about to take one. */
  lemma {:induction false} ExpireAll(s: State) returns (steps: seq<Step>, r: State)
    requires s.pool == Terminating && NoCore(s.workers)
    ensures Leads(s, steps, r) && WorkedOn(s, r) && r.workers == map[]
    ensures |r.queue| + |AtPop(s.workers)| >= |s.queue|
    decreases |s.workers|
  {
    if s.workers == map[] {
      steps, r := [], s;
    } else {
      var w :| w in s.workers;
      var first, s1 := ExpireAndErase(s, w);
      ErasedSize(s.workers, w);
      AtPopErased(s.workers, w);
      var rest;
      rest, r := ExpireAll(s1);
      LeadsOn(s, first, s1, rest, r);
      steps := first + rest;
    }
  }

  // ---------------------------------------------------------------- every shutdown

  /** Everybody leaves, with whatever that leaves in the queue. */
  lemma GoHome(s: State) returns (steps: seq<Step>, r: State)
    requires s.pool == Terminating
    ensures Leads(s, steps, r) && WorkedOn(s, r) && r.workers == map[]
  {
    if NoCore(s.workers) {
      steps, r := ExpireAll(s);
    } else {
      var w :| w in s.workers && s.workers[w].phase != Leaving;
      steps, r := WorkOff(s, w);
    }
  }

  /** All submissions but one go through, and all workers leave. */
  lemma AllButOne(s: State, task: Task) returns (steps: seq<Step>, r: State)
    requires s.pool == Terminating && task in s.checked
    ensures Leads(s, steps, r) && r.pool == Terminating && r.maxSize == s.maxSize
    ensures r.workers == map[] && r.checked == {task} && r.pushed == {}
  {
    var push, s1 := PushAllBut(s, task);
    var decide, s2 := DecideAll(s1);
    LeadsOn(s, push, s1, decide, s2);
    var work;
    work, r := GoHome(s2);
    LeadsOn(s, push + decide, s2, work, r);
    steps := push + decide + work;
  }

  /** Once the pool is shut down, a submission still to be pushed can be stranded. */
  lemma StrandLate(s: State, task: Task) returns (steps: seq<Step>)
    requires Inv(s) && s.pool == Terminating && task in s.checked && s.maxSize >= 1
    ensures Legal(s, steps) && Strands(Run(s, steps))
  {
    var begin, s1 := AllButOne(s, task);
    RunKeeps(s, begin);
    assert task !in s1.finished;
    var r := Untaken(s1, task);
    PushUntaken(s1, 0, task);
    LeadsOn(s, begin, s1, PushingUntaken(0, task), r);
    assert r.checked == {} && task in r.accepted && task !in r.finished;
    steps := begin + PushingUntaken(0, task);
  }

  lemma BeyondPop(s: State, r: State)
    requires Beyond(s, r)
    ensures AtPop(r.workers) == AtPop(s.workers) && (NoCore(s.workers) ==> NoCore(r.workers))
  {
  }

  lemma QueuedStrands(s: State)
    requires TasksSplit(s) && Over(s) && s.queue != []
    ensures Strands(s)
  {
    assert s.queue[0] in Queued(s.queue);
  }

  /** Without a core worker, more tasks in the queue than workers about to take one are not all taken. */
  lemma StrandQueued(s: State) returns (steps: seq<Step>)
    requires Inv(s) && s.pool == Terminating && s.checked == {} && NoCore(s.workers) && |s.queue| > |AtPop(s.workers)|
    ensures Legal(s, steps) && Strands(Run(s, steps))
  {
    var decide, s1 := DecideAll(s);
    BeyondPop(s, s1);
    var leave, r := ExpireAll(s1);
    LeadsOn(s, decide, s1, leave, r);
    steps := decide + leave;
    RunKeeps(s, steps);
    QueuedStrands(r);
  }

  /** Shut down with no submission under way, and everything in the queue will be taken: a core worker is in its loop,
      or there are enough workers about to take it. */
  ghost predicate Manned(s: State) {
    && s.pool == Terminating && s.checked == {}
    && (s.queue == [] || !NoCore(s.workers) || |s.queue| <= |AtPop(s.workers)|)
  }

  lemma CoreTurn(s: State, w: Tid, v: Tid)
    requires s.queue != [] && Enabled(s, Turn(w))
    requires v in s.workers && s.workers[v].core && s.workers[v].phase != Leaving
    ensures !NoCore(TakeTurn(s, w).workers)
  {
    var ws' := TakeTurn(s, w).workers;
    assert v in ws' && ws'[v].core && ws'[v].phase != Leaving;
  }

  lemma AtPopSet(ws: Workers, w: Tid, phase: Phase)
    requires w in ws
    ensures AtPop(SetPhase(ws, w, phase)) == AtPop(ws) - {w} + (if phase.ToPop? then {w} else {})
  {
    var ws' := SetPhase(ws, w, phase);
    forall v | v in ws && v != w ensures v in AtPop(ws') <==> v in AtPop(ws) {
      assert ws'[v] == ws[v];
    }
  }

  lemma AtPopMoved(ws: Workers, w: Tid, phase: Phase)
    requires w in ws
    ensures |AtPop(SetPhase(ws, w, phase))| == |AtPop(ws)| - One(ws[w].phase.ToPop?) + One(phase.ToPop?)
  {
    AtPopSet(ws, w, phase);
    CardinalMove(AtPop(ws), w, ws[w].phase.ToPop?, phase.ToPop?);
  }

  lemma PopTurn(s: State, w: Tid)
    requires s.queue != [] && Enabled(s, Turn(w)) && |s.queue| <= |AtPop(s.workers)|
    ensures |TakeTurn(s, w).queue| <= |AtPop(TakeTurn(s, w).workers)|
  {
    AtPopMoved(s.workers, w, NextPhase(s, s.workers[w].phase));
  }

  lemma TurnManned(s: State, w: Tid)
    requires Manned(s) && Enabled(s, Turn(w))
    ensures Manned(TakeTurn(s, w))
  {
    if s.queue == [] {
    } else if NoCore(s.workers) {
      PopTurn(s, w);
    } else {
      var v :| v in s.workers && s.workers[v].core && s.workers[v].phase != Leaving;
      CoreTurn(s, w, v);
    }
  }

  lemma ManyManned(s: State, r: State)
    requires Manned(s) && r.pool == Terminating && r.checked == {} && r.queue == s.queue
    requires AtPop(r.workers) == AtPop(s.workers)
    requires forall w | w in s.workers && s.workers[w].core && s.workers[w].phase != Leaving ::
               w in r.workers && r.workers[w] == s.workers[w]
    ensures Manned(r)
  {
    if v :| v in s.workers && s.workers[v].core && s.workers[v].phase != Leaving {
      assert v in r.workers && r.workers[v].core && r.workers[v].phase != Leaving;
    }
  }

  lemma StepManned(s: State, step: Step)
    requires Manned(s) && Enabled(s, step)
    ensures Manned(Apply(s, step))
  {
    if step.Turn? {
      TurnManned(s, step.w);
    } else {
      ManyManned(s, Apply(s, step));
    }
  }

  lemma {:induction false} RunManned(s: State, steps: seq<Step>)
    requires Manned(s) && Legal(s, steps)
    ensures Manned(Run(s, steps))
    decreases |steps|
  {
    if steps == [] {
    } else {
      StepManned(s, steps[0]);
      RunManned(Apply(s, steps[0]), steps[1..]);
    }
  }

  lemma MannedFinishes(s: State, steps: seq<Step>)
    requires Inv(s) && Manned(s) && Legal(s, steps)
    ensures !Strands(Run(s, steps))
  {
    RunManned(s, steps);
    RunKeeps(s, steps);
    var r := Run(s, steps);
    if Over(r) {
      assert AtPop(r.workers) == {} && Taken(r.workers) == {};
      assert NoCore(r.workers) && r.queue == [];
    }
  }

  /** Of every pool that runs, anchored or not, and every state it can reach: shut down now it can strand a task if and
      only if some submission is between its state check and its push, or no core worker is in its loop and the queue
      holds more tasks than there are workers about to take one. */
  lemma EveryShutdownExactly(coreSize: nat, maxSize: nat, steps: seq<Step>)
    requires coreSize <= maxSize && 1 <= maxSize && Legal(Init(coreSize, maxSize), steps)
    requires Run(Init(coreSize, maxSize), steps).pool == Running
    ensures var s := Run(Init(coreSize, maxSize), steps);
            CanStrandAny(Apply(s, Shutdown)) <==>
            s.checked != {} || (NoCore(s.workers) && |s.queue| > |AtPop(s.workers)|)
  {
    var s0 := Init(coreSize, maxSize);
    var s := Run(s0, steps);
    var s1 := Apply(s, Shutdown);
    InitInv(coreSize, maxSize);
    SizesStay(s0, steps);
    LeadsThen(s0, steps, s, Shutdown, s1);
    RunKeeps(s0, steps + [Shutdown]);
    if s.checked != {} {
      var task :| task in s.checked;
      var rest := StrandLate(s1, task);
      assert Legal(s1, rest) && Strands(Run(s1, rest));
    } else if NoCore(s.workers) && |s.queue| > |AtPop(s.workers)| {
      var rest := StrandQueued(s1);
      assert Legal(s1, rest) && Strands(Run(s1, rest));
    } else {
      forall rest | Legal(s1, rest) ensures !Strands(Run(s1, rest)) {
        MannedFinishes(s1, rest);
      }
    }
  }

  /** An anchored pool strands something exactly when a submission is there. */
  lemma ShutdownStrandsExactly(coreSize: nat, maxSize: nat, steps: seq<Step>)
    requires coreSize <= maxSize && Legal(Init(coreSize, maxSize), steps)
    requires var s := Run(Init(coreSize, maxSize), steps); s.pool == Running && s.anchored
    ensures var s := Run(Init(coreSize, maxSize), steps);
            CanStrandAny(Apply(s, Shutdown)) <==> s.checked != {}
  {
    var s := Run(Init(coreSize, maxSize), steps);
    InitInv(coreSize, maxSize);
    RunKeeps(Init(coreSize, maxSize), steps);
    SizesStay(Init(coreSize, maxSize), steps);
    var w :| w in CoreAlive(s.workers);
    assert s.workers[w].core && s.workers[w].phase != Leaving;
    assert |s.workers| >= 1 by { ErasedSize(s.workers, w); }
    EveryShutdownExactly(coreSize, maxSize, steps);
  }

  // ---------------------------------------------------------------- first come, first served

  /** The tasks in the order in which they are pushed. */
  function Pushes(steps: seq<Step>): seq<Task> {
    if steps == [] then [] else (if steps[0].Push? then [steps[0].task] else []) + Pushes(steps[1..])
  }

  /** The task that a worker takes by this step. */
  function Pop(s: State, step: Step): seq<Task>
    requires Enabled(s, step)
  {
    if step.Turn? && !s.workers[step.w].phase.Holding? && Apply(s, step).workers[step.w].phase.Holding?
    then [Apply(s, step).workers[step.w].phase.task] else []
  }

  /** The tasks in the order in which workers take them. */
  function Pops(s: State, steps: seq<Step>): seq<Task>
    requires Legal(s, steps)
    decreases |steps|
  {
    if steps == [] then [] else Pop(s, steps[0]) + Pops(Apply(s, steps[0]), steps[1..])
  }

  lemma PopsFirst(s: State, step: Step)
    requires Enabled(s, step)
    ensures s.queue + (if step.Push? then [step.task] else []) == Pop(s, step) + Apply(s, step).queue
  {
  }

  lemma Weave(q: seq<Task>, pushed: seq<Task>, later: seq<Task>, popped: seq<Task>, q1: seq<Task>,
              rest: seq<Task>, end: seq<Task>)
    requires q + pushed == popped + q1 && q1 + later == rest + end
    ensures q + (pushed + later) == (popped + rest) + end
  {
    assert q + (pushed + later) == (q + pushed) + later == popped + (q1 + later);
  }

  /** Workers take the tasks in the order in which they were pushed; the rest is in the queue. */
  lemma {:induction false} FirstComeFirstServed(s: State, steps: seq<Step>)
    requires Legal(s, steps)
    ensures s.queue + Pushes(steps) == Pops(s, steps) + Run(s, steps).queue
    decreases |steps|
  {
    if steps == [] {
    } else {
      var s1, rest := Apply(s, steps[0]), steps[1..];
      PopsFirst(s, steps[0]);
      FirstComeFirstServed(s1, rest);
      var pushed := if steps[0].Push? then [steps[0].task] else [];
      Weave(s.queue, pushed, Pushes(rest), Pop(s, steps[0]), s1.queue, Pops(s1, rest), Run(s1, rest).queue);
    }
  }

  // ---------------------------------------------------------------- the high-water mark

  /** The largest pool met on the way. */
  function Peak(s: State, steps: seq<Step>): nat
    requires Legal(s, steps)
    decreases |steps|
  {
    if steps == [] then |s.workers|
    else var rest := Peak(Apply(s, steps[0]), steps[1..]); if rest < |s.workers| then |s.workers| else rest
  }

  lemma StepMark(s: State, step: Step)
    requires |s.workers| <= s.largest && Enabled(s, step)
    ensures var s' := Apply(s, step);
            s'.largest == if |s'.workers| > s.largest then |s'.workers| else s.largest
  {
    var ws, ws' := s.workers, Apply(s, step).workers;
    assert |ws| == |ws.Keys| && |ws'| == |ws'.Keys|;
    match step
    case Turn(w) => MovedCounts(ws, w, NextPhase(s, ws[w].phase));
    case Expire(w) => MovedCounts(ws, w, Leaving);
    case CreateCore(w) => Joined(ws, w, true);
    case Extend(_, w) => Joined(ws, w, false);
    case Erase(w) => Left(ws, w);
    case _ =>
  }

  lemma {:induction false} MarkIsPeak(s: State, steps: seq<Step>)
    requires |s.workers| <= s.largest && Legal(s, steps)
    ensures Run(s, steps).largest == if Peak(s, steps) > s.largest then Peak(s, steps) else s.largest
    decreases |steps|
  {
    if steps == [] {
    } else {
      StepMark(s, steps[0]);
      MarkIsPeak(Apply(s, steps[0]), steps[1..]);
    }
  }

  /** In every run the recorded size is the largest the pool has had. */
  lemma LargestIsPeak(coreSize: nat, maxSize: nat, steps: seq<Step>)
    requires Legal(Init(coreSize, maxSize), steps)
    ensures Run(Init(coreSize, maxSize), steps).largest == Peak(Init(coreSize, maxSize), steps)
  {
    MarkIsPeak(Init(coreSize, maxSize), steps);
  }
}
