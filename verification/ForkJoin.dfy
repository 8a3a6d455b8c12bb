/** The fork/join pool of the runtime (`src/runtime/threads.c`).

    `TaskRing` is the ring buffer itself, updated in place.  The rest of the module is a step system
    in which every mutex-protected section of the C code is one atomic step, taken by any thread at
    any time.  Each thread owns a stack of frames, because a joiner runs other tasks on top of the
    frame that waits. */
module ForkJoin {
  import opened Wrappers

  // ----- The ring buffer -----

  /** `pool->queue` with its `head`, `tail` and `count`; the capacity is `llm_queue_size`. */
  class TaskRing {
    var queue: array<nat>
    var head: nat
    var tail: nat
    var count: nat

    ghost predicate Valid()
      reads this
    {
      && count <= queue.Length
      && (queue.Length == 0 ==> head == tail == 0)
      && (queue.Length > 0 ==> head < queue.Length && tail == Slot(head, count, queue.Length))
    }

    /** The queued tasks, oldest first. */
    ghost function Pending(): (p: seq<nat>)
      reads this, queue
      requires Valid()
    {
      Window(queue[..], head, count)
    }

    constructor (size: nat)
      ensures Valid() && fresh(queue) && queue.Length == size && Pending() == []
    {
      queue := new nat[size];
      head, tail, count := 0, 0, 0;
    }

    /** The queueing section of `llm_fork`: a full queue is left alone, and the caller then runs the
        task itself. */
    method TryEnqueue(task: nat) returns (queued: bool)
      requires Valid()
      modifies this, queue
      ensures Valid() && queue == old(queue)
      ensures queued <==> |old(Pending())| < queue.Length
      ensures Pending() == if queued then old(Pending()) + [task] else old(Pending())
    {
      queued := count < queue.Length;
      if queued {
        ghost var was := Pending();
        Successor(tail, queue.Length);
        queue[tail] := task;
        tail := (tail + 1) % queue.Length;
        count := count + 1;
        assert Pending()[..|was|] == was;
      }
    }

    /** The dequeueing section of `llm_do_work`. */
    method TryDequeue() returns (task: Option<nat>)
      requires Valid()
      modifies this
      ensures Valid() && queue == old(queue)
      ensures task.None? <==> old(Pending()) == []
      ensures task.None? ==> Pending() == []
      ensures task.Some? ==> old(Pending()) == [task.value] + Pending()
    {
      if count == 0 {
        return None;
      }
      task := Some(queue[head]);
      WindowTail(queue[..], head, count);
      Successor(head, queue.Length);
      head := (head + 1) % queue.Length;
      count := count - 1;
    }
  }

  /** The index of the `i`-th slot after `head`. */
  function Slot(head: nat, i: nat, size: nat): (r: nat)
    requires head < size && i <= size
  {
    if head + i < size then head + i else head + i - size
  }

  ghost function Window(slots: seq<nat>, head: nat, count: nat): (p: seq<nat>)
    requires count <= |slots| && (|slots| > 0 ==> head < |slots|)
  {
    seq(count, i requires 0 <= i < count => slots[Slot(head, i, |slots|)])
  }

  lemma Successor(i: nat, size: nat)
    requires i < size
    ensures (i + 1) % size == Slot(i, 1, size)
  {
    if i + 1 < size {
    } else {
      assert (i + 1) % size == 0;
    }
  }

  lemma WindowTail(slots: seq<nat>, head: nat, count: nat)
    requires 0 < count <= |slots| && head < |slots|
    ensures Window(slots, head, count) == [slots[head]] + Window(slots, Slot(head, 1, |slots|), count - 1)
  {
  }

  // ----- The step system -----

  type Value = int

  /** What the frame of a task is doing: running the task's code, or at one of the three points of the
      loop of `llm_join`. */
  datatype Phase = Running | Checking(handle: nat) | Helping(handle: nat) | Waiting(handle: nat)

  datatype Place = Place(thread: nat, level: nat)

  /** A task is queued, has a frame on the stack of some thread, or returned; `start` is its rank in
      the order in which tasks began to run. */
  datatype Life =
    | Queued
    | Active(start: nat, at: Place, phase: Phase)
    | Returned(start: nat, value: Value)

  /** The `llm_task_handle_t` of a task; a freed one remembers what `llm_join` returned. */
  datatype Handle = Allocated(result: Value, done: bool) | Freed(joined: Option<Value>)

  datatype Task = Task(parent: nat, life: Life, handle: Handle)

  /** Tasks are numbered in the order of their `llm_fork`; task 0 is the main program, on thread 0, and
      has no handle.  `stacks` holds the tasks whose frames are on each thread, the running one last,
      and `started` every task that began to run, in order. */
  datatype State = State(tasks: seq<Task>, pending: seq<nat>, stacks: seq<seq<nat>>, started: seq<nat>)

  datatype Step =
    | Fork(thread: nat)
    | BeginJoin(thread: nat, handle: nat)
    | Check(thread: nat)
    | Help(thread: nat)
    | Recheck(thread: nat)
    | TakeWork(thread: nat)
    | Return(thread: nat, value: Value)

  /** `Fault` is an access to a handle that is not allocated. */
  datatype Outcome = Blocked | Fault | To(next: State)

  const MAIN: nat := 0

  function Init(workers: nat): State {
    State([Task(MAIN, Active(0, Place(0, 0), Running), Freed(None))], [],
          seq(workers + 1, t => if t == 0 then [MAIN] else []), [MAIN])
  }

  predicate IsActive(s: State, c: nat) {
    c < |s.tasks| && s.tasks[c].life.Active?
  }

  /** The task whose frame is on top of the stack of thread `t`. */
  function Top(s: State, t: nat): Option<nat> {
    if t < |s.stacks| && s.stacks[t] != [] && IsActive(s, s.stacks[t][|s.stacks[t]| - 1])
    then Some(s.stacks[t][|s.stacks[t]| - 1]) else None
  }

  predicate Unjoined(s: State, task: nat, child: nat) {
    child < |s.tasks| && s.tasks[child].handle.Allocated? && s.tasks[child].parent == task
  }

  function SetLife(s: State, c: nat, life: Life): State
    requires c < |s.tasks|
  {
    s.(tasks := s.tasks[c := s.tasks[c].(life := life)])
  }

  function SetPhase(s: State, c: nat, phase: Phase): State
    requires IsActive(s, c)
  {
    SetLife(s, c, s.tasks[c].life.(phase := phase))
  }

  /** Thread `t` begins to run task `c` on top of whatever it is doing. */
  function Begin(s: State, t: nat, c: nat): State
    requires t < |s.stacks| && c < |s.tasks|
  {
    SetLife(s, c, Active(|s.started|, Place(t, |s.stacks[t]|), Running)).(
      stacks := s.stacks[t := s.stacks[t] + [c]],
      started := s.started + [c])
  }

  function BeginOldest(s: State, t: nat): Outcome
    requires t < |s.stacks| && s.pending != []
  {
    if s.pending[0] < |s.tasks| then To(Begin(s.(pending := s.pending[1..]), t, s.pending[0])) else Fault
  }

  function ForkOf(s: State, size: nat, t: nat, c: nat): State
    requires t < |s.stacks|
  {
    var child := |s.tasks|;
    var s1 := s.(tasks := s.tasks + [Task(c, Queued, Allocated(0, false))]);
    if |s.pending| < size then s1.(pending := s.pending + [child]) else Begin(s1, t, child)
  }

  function JoinOf(s: State, c: nat, h: nat): State
    requires IsActive(s, c) && h < |s.tasks| && s.tasks[h].handle.Allocated?
  {
    var s1 := SetPhase(s, c, Running);
    s1.(tasks := s1.tasks[h := s1.tasks[h].(handle := Freed(Some(s.tasks[h].handle.result)))])
  }

  function ReturnOf(s: State, t: nat, c: nat, v: Value): State
    requires Top(s, t) == Some(c)
  {
    var handle := if c == MAIN then s.tasks[c].handle else Allocated(v, true);
    s.(tasks := s.tasks[c := s.tasks[c].(life := Returned(s.tasks[c].life.start, v), handle := handle)],
       stacks := s.stacks[t := s.stacks[t][..|s.stacks[t]| - 1]])
  }

  /** One atomic section, executed by one thread, for a queue of `size` slots. */
  function Next(s: State, size: nat, step: Step): Outcome {
    if step.TakeWork? then
      if 0 < step.thread < |s.stacks| && s.stacks[step.thread] == [] && s.pending != []
      then BeginOldest(s, step.thread) else Blocked
    else match Top(s, step.thread)
    case None => Blocked
    case Some(c) => NextOf(s, size, step, c)
  }

  /** The same, for a thread that runs task `c`. */
  function NextOf(s: State, size: nat, step: Step, c: nat): Outcome
    requires Top(s, step.thread) == Some(c)
  {
    var phase := s.tasks[c].life.phase;
    match step
    case Fork(t) =>
      if !phase.Running? then Blocked else To(ForkOf(s, size, t, c))
    case BeginJoin(t, h) =>
      if !phase.Running? || !Unjoined(s, c, h) then Blocked else To(SetPhase(s, c, Checking(h)))
    case Check(t) =>
      if !phase.Checking? then Blocked
      else if phase.handle >= |s.tasks| || s.tasks[phase.handle].handle.Freed? then Fault
      else if s.tasks[phase.handle].handle.done then To(JoinOf(s, c, phase.handle))
      else To(SetPhase(s, c, Helping(phase.handle)))
    case Help(t) =>
      if !phase.Helping? then Blocked else
      var s1 := SetPhase(s, c, Waiting(phase.handle));
      if s.pending == [] then To(s1) else BeginOldest(s1, t)
    case Recheck(t) =>
      if !phase.Waiting? then Blocked
      else if phase.handle >= |s.tasks| || s.tasks[phase.handle].handle.Freed? then Fault
      else To(SetPhase(s, c, Checking(phase.handle)))
    case Return(t, v) =>
      // The generated code joins every handle it forked before its expression has a value.
      if !phase.Running? || exists child | 0 <= child < |s.tasks| :: Unjoined(s, c, child) then Blocked
      else if c != MAIN && s.tasks[c].handle.Freed? then Fault
      else To(ReturnOf(s, t, c, v))
    case TakeWork(_) => Blocked
  }

  /** The outcome of a whole interleaving. */
  function Run(s: State, size: nat, steps: seq<Step>): Outcome
    decreases |steps|
  {
    if steps == [] then To(s) else
    match Next(s, size, steps[0])
    case To(s1) => Run(s1, size, steps[1..])
    case other => other
  }

  // ----- The invariant -----

  /** Task `c` is in exactly one place, counting `limbo` as one: there a task has left the queue and is
      about to run.  Its handle is allocated until it is joined, done exactly when
      the task returned, and owned by a task that is still running and began first. */
  ghost predicate TaskOk(s: State, limbo: set<nat>, c: nat)
    requires c < |s.tasks|
  {
    var task := s.tasks[c];
    && (match task.life
        case Queued => c != MAIN && (c in s.pending <==> c !in limbo)
        case Active(start, at, phase) =>
          && start < |s.started| && s.started[start] == c
          && at.thread < |s.stacks| && at.level < |s.stacks[at.thread]| && s.stacks[at.thread][at.level] == c
          && (!phase.Running? ==> Unjoined(s, c, phase.handle))
        case Returned(start, _) => start < |s.started| && s.started[start] == c)
    && (match task.handle
        case Allocated(result, done) =>
          && c != MAIN && IsActive(s, task.parent)
          && (done <==> task.life.Returned?)
          && (task.life.Returned? ==> result == task.life.value)
          && (!task.life.Queued? ==> s.tasks[task.parent].life.start < task.life.start)
        case Freed(joined) =>
          && c != MAIN ==> task.life.Returned? && joined == Some(task.life.value))
  }

  /** Frame `i` of thread `t` is the frame of an active task, which began after the one below it. */
  ghost predicate FrameOk(s: State, t: nat, i: nat)
    requires t < |s.stacks| && i < |s.stacks[t]|
  {
    var c := s.stacks[t][i];
    && IsActive(s, c) && s.tasks[c].life.at == Place(t, i)
    && (i > 0 ==> IsActive(s, s.stacks[t][i - 1]) && s.tasks[s.stacks[t][i - 1]].life.start < s.tasks[c].life.start)
  }

  ghost predicate StartOk(s: State, k: nat)
    requires k < |s.started|
  {
    var c := s.started[k];
    c < |s.tasks| && !s.tasks[c].life.Queued? && s.tasks[c].life.start == k
  }

  /** The queue holds queued tasks only, in the order of their forks. */
  ghost predicate PendingOk(s: State) {
    && (forall c | c in s.pending :: c < |s.tasks| && s.tasks[c].life.Queued?)
    && (forall i, j | 0 <= i < j < |s.pending| :: s.pending[i] < s.pending[j])
  }

  ghost predicate InvBut(s: State, limbo: set<nat>) {
    && |s.tasks| > 0 && |s.stacks| > 0
    && PendingOk(s)
    && (forall c | 0 <= c < |s.tasks| :: TaskOk(s, limbo, c))
    && (forall t, i | 0 <= t < |s.stacks| && 0 <= i < |s.stacks[t]| :: FrameOk(s, t, i))
    && (forall k | 0 <= k < |s.started| :: StartOk(s, k))
  }

  ghost predicate Inv(s: State) {
    InvBut(s, {})
  }

  lemma InitInv(workers: nat)
    ensures Inv(Init(workers))
  {
  }

  lemma SetPhaseKeepsInv(s: State, c: nat, phase: Phase)
    requires Inv(s) && IsActive(s, c)
    requires phase.Running? || Unjoined(s, c, phase.handle)
    ensures Inv(SetPhase(s, c, phase))
  {
    var s1 := SetPhase(s, c, phase);
    forall d | 0 <= d < |s1.tasks| ensures TaskOk(s1, {}, d) { assert TaskOk(s, {}, d); }
    forall t, i | 0 <= t < |s1.stacks| && 0 <= i < |s1.stacks[t]| ensures FrameOk(s1, t, i) { assert FrameOk(s, t, i); }
    forall k | 0 <= k < |s1.started| ensures StartOk(s1, k) { assert StartOk(s, k); }
  }

  lemma BeginKeepsInv(s: State, t: nat, c: nat)
    requires InvBut(s, {c}) && t < |s.stacks| && c < |s.tasks| && s.tasks[c].life.Queued?
    ensures Inv(Begin(s, t, c))
  {
    var s1 := Begin(s, t, c);
    assert TaskOk(s, {c}, c) && TaskOk(s, {c}, s.tasks[c].parent);
    forall d | 0 <= d < |s1.tasks| ensures TaskOk(s1, {}, d) {
      assert TaskOk(s, {c}, d);
    }
    forall u, i | 0 <= u < |s1.stacks| && 0 <= i < |s1.stacks[u]| ensures FrameOk(s1, u, i) {
      if i < |s.stacks[u]| {
        assert FrameOk(s, u, i);
      } else if i > 0 {
        assert FrameOk(s, u, i - 1);
        assert TaskOk(s, {c}, s.stacks[u][i - 1]);
      }
    }
    forall k | 0 <= k < |s1.started| ensures StartOk(s1, k) {
      if k < |s.started| { assert StartOk(s, k); }
    }
  }

  /** Taking the oldest task off the queue leaves it in limbo until it begins. */
  lemma BeginOldestKeepsInv(s: State, t: nat)
    requires Inv(s) && t < |s.stacks| && s.pending != []
    ensures BeginOldest(s, t).To? && Inv(BeginOldest(s, t).next)
  {
    var c := s.pending[0];
    var s1 := s.(pending := s.pending[1..]);
    assert c in s.pending && s.pending == [c] + s1.pending;
    forall d | 0 <= d < |s1.tasks| ensures TaskOk(s1, {c}, d) { assert TaskOk(s, {}, d); }
    forall u, i | 0 <= u < |s1.stacks| && 0 <= i < |s1.stacks[u]| ensures FrameOk(s1, u, i) { assert FrameOk(s, u, i); }
    forall k | 0 <= k < |s1.started| ensures StartOk(s1, k) { assert StartOk(s, k); }
    assert PendingOk(s1) by {
      assert forall i | 0 <= i < |s1.pending| :: s1.pending[i] == s.pending[i + 1];
      forall d | d in s1.pending ensures d < |s1.tasks| && s1.tasks[d].life.Queued? { assert d in s.pending; }
    }
    BeginKeepsInv(s1, t, c);
  }

  lemma ForkKeepsInv(s: State, size: nat, t: nat, c: nat)
    requires Inv(s) && Top(s, t) == Some(c)
    ensures Inv(ForkOf(s, size, t, c))
  {
    var child := |s.tasks|;
    var queued := |s.pending| < size;
    var s1 := s.(tasks := s.tasks + [Task(c, Queued, Allocated(0, false))],
                 pending := if queued then s.pending + [child] else s.pending);
    var limbo := if queued then {} else {child};
    forall d | 0 <= d < |s1.tasks| ensures TaskOk(s1, limbo, d) {
      if d < child { assert TaskOk(s, {}, d); }
    }
    forall u, i | 0 <= u < |s1.stacks| && 0 <= i < |s1.stacks[u]| ensures FrameOk(s1, u, i) { assert FrameOk(s, u, i); }
    forall k | 0 <= k < |s1.started| ensures StartOk(s1, k) { assert StartOk(s, k); }
    assert forall i | 0 <= i < |s.pending| :: s.pending[i] in s.pending;
    if !queued {
      BeginKeepsInv(s1, t, child);
    }
  }

  lemma JoinKeepsInv(s: State, c: nat, h: nat)
    requires Inv(s) && IsActive(s, c) && Unjoined(s, c, h) && s.tasks[h].handle.done
    requires !s.tasks[c].life.phase.Running? && s.tasks[c].life.phase.handle == h
    ensures Inv(JoinOf(s, c, h))
  {
    var s1 := JoinOf(s, c, h);
    assert TaskOk(s, {}, h);
    forall d | 0 <= d < |s1.tasks| ensures TaskOk(s1, {}, d) { assert TaskOk(s, {}, d); }
    forall t, i | 0 <= t < |s1.stacks| && 0 <= i < |s1.stacks[t]| ensures FrameOk(s1, t, i) { assert FrameOk(s, t, i); }
    forall k | 0 <= k < |s1.started| ensures StartOk(s1, k) { assert StartOk(s, k); }
  }

  lemma ReturnKeepsInv(s: State, t: nat, c: nat, v: Value)
    requires Inv(s) && Top(s, t) == Some(c)
    requires s.tasks[c].life.phase.Running?
    requires forall child | 0 <= child < |s.tasks| :: !Unjoined(s, c, child)
    ensures Inv(ReturnOf(s, t, c, v))
  {
    var s1 := ReturnOf(s, t, c, v);
    assert FrameOk(s, t, |s.stacks[t]| - 1);
    forall d | 0 <= d < |s1.tasks| ensures TaskOk(s1, {}, d) {
      assert TaskOk(s, {}, d);
      assert !Unjoined(s, c, d);
    }
    forall u, i | 0 <= u < |s1.stacks| && 0 <= i < |s1.stacks[u]| ensures FrameOk(s1, u, i) {
      assert FrameOk(s, u, i);
      if i > 0 { assert FrameOk(s, u, i - 1); }
    }
    forall k | 0 <= k < |s1.started| ensures StartOk(s1, k) { assert StartOk(s, k); }
  }

  /** No step of any thread touches a handle that is not allocated, and every step keeps the
      invariant. */
  lemma NextKeepsInv(s: State, size: nat, step: Step)
    requires Inv(s)
    ensures !Next(s, size, step).Fault?
    ensures Next(s, size, step).To? ==> Inv(Next(s, size, step).next)
  {
    var t := step.thread;
    if step.TakeWork? {
      if t < |s.stacks| && s.pending != [] { BeginOldestKeepsInv(s, t); }
    } else if Top(s, t).Some? {
      var c := Top(s, t).value;
      assert TaskOk(s, {}, c);
      var phase := s.tasks[c].life.phase;
      match step
      case Fork(_) => ForkKeepsInv(s, size, t, c);
      case BeginJoin(_, h) => if Unjoined(s, c, h) { SetPhaseKeepsInv(s, c, Checking(h)); }
      case Check(_) =>
        if phase.Checking? {
          if s.tasks[phase.handle].handle.done { JoinKeepsInv(s, c, phase.handle); }
          SetPhaseKeepsInv(s, c, Helping(phase.handle));
        }
      case Help(_) =>
        if phase.Helping? {
          SetPhaseKeepsInv(s, c, Waiting(phase.handle));
          if s.pending != [] { BeginOldestKeepsInv(SetPhase(s, c, Waiting(phase.handle)), t); }
        }
      case Recheck(_) => if phase.Waiting? { SetPhaseKeepsInv(s, c, Checking(phase.handle)); }
      case Return(_, v) =>
        if phase.Running? && forall child | 0 <= child < |s.tasks| :: !Unjoined(s, c, child) {
          ReturnKeepsInv(s, t, c, v);
        }
    }
  }

  /** Safety of every interleaving, for any number of workers and any queue size. */
  lemma RunKeepsInv(s: State, size: nat, steps: seq<Step>)
    requires Inv(s)
    ensures !Run(s, size, steps).Fault?
    ensures Run(s, size, steps).To? ==> Inv(Run(s, size, steps).next)
    decreases |steps|
  {
    if steps != [] {
      NextKeepsInv(s, size, steps[0]);
      if Next(s, size, steps[0]).To? { RunKeepsInv(Next(s, size, steps[0]).next, size, steps[1..]); }
    }
  }

  // ----- Exactly once -----

  predicate Quiet(s: State) {
    s.pending == [] && forall t | 0 <= t < |s.stacks| :: s.stacks[t] == []
  }

  lemma NoFramesNoActive(s: State)
    requires Inv(s) && forall t | 0 <= t < |s.stacks| :: s.stacks[t] == []
    ensures forall c: nat :: !IsActive(s, c)
  {
    forall c: nat ensures !IsActive(s, c) {
      if c < |s.tasks| { assert TaskOk(s, {}, c); }
    }
  }

  /** At every moment of every interleaving no task has begun twice, every `llm_join` that returned
      has returned what the one run of its task did, and nothing was accessed after it was freed.  When
      the pool comes to rest, every task that was ever forked has begun exactly once, has returned and
      has been joined, so no handle is left allocated. */
  lemma ExactlyOnce(workers: nat, size: nat, steps: seq<Step>)
    ensures var r := Run(Init(workers), size, steps);
      && !r.Fault?
      && (r.To? ==>
        && (forall i, j | 0 <= i < j < |r.next.started| :: r.next.started[i] != r.next.started[j])
        && (forall c | 0 < c < |r.next.tasks| && r.next.tasks[c].handle.Freed? ::
              r.next.tasks[c].life.Returned? && r.next.tasks[c].handle.joined == Some(r.next.tasks[c].life.value))
        && (Quiet(r.next) ==> forall c | 0 <= c < |r.next.tasks| ::
              c in r.next.started && r.next.tasks[c].life.Returned? && r.next.tasks[c].handle.Freed?))
  {
    InitInv(workers);
    RunKeepsInv(Init(workers), size, steps);
    if Run(Init(workers), size, steps).To? {
      var s := Run(Init(workers), size, steps).next;
      forall i, j | 0 <= i < j < |s.started| ensures s.started[i] != s.started[j] {
        assert StartOk(s, i) && StartOk(s, j);
      }
      forall c | 0 < c < |s.tasks| && s.tasks[c].handle.Freed?
        ensures s.tasks[c].life.Returned? && s.tasks[c].handle.joined == Some(s.tasks[c].life.value)
      {
        assert TaskOk(s, {}, c);
      }
      if Quiet(s) {
        forall c | 0 <= c < |s.tasks|
          ensures c in s.started && s.tasks[c].life.Returned? && s.tasks[c].handle.Freed?
        {
          NoFramesNoActive(s);
          assert TaskOk(s, {}, c);
        }
      }
    }
  }

  // ----- Progress -----

  /** The steps of the loop of `llm_join` that change nothing but the point it is at. */
  predicate Polls(s: State, step: Step) {
    || step.Recheck?
    || (step.Help? && s.pending == [])
    || (step.Check? && Top(s, step.thread).Some? && !JoinReady(s, Top(s, step.thread).value))
  }

  predicate JoinReady(s: State, c: nat)
    requires IsActive(s, c)
  {
    var phase := s.tasks[c].life.phase;
    !phase.Running? && phase.handle < |s.tasks| && s.tasks[phase.handle].life.Returned?
  }

  /** Thread `t`, scheduled alone, takes a step that is not polling after at most `polls` steps that
      are: it forks, begins or ends a join, starts a task or ends one. */
  ghost predicate CanAdvance(s: State, size: nat, t: nat, polls: nat)
    decreases polls
  {
    exists step: Step | step.thread == t && Next(s, size, step).To? ::
      !Polls(s, step) || (polls > 0 && CanAdvance(Next(s, size, step).next, size, t, polls - 1))
  }

  lemma Advances(s: State, size: nat, step: Step, polls: nat)
    requires Next(s, size, step).To?
    requires !Polls(s, step) || (polls > 0 && CanAdvance(Next(s, size, step).next, size, step.thread, polls - 1))
    ensures CanAdvance(s, size, step.thread, polls)
  {
  }

  /** A joiner whose child returned, or who can help, gets on within two trips around its loop. */
  lemma JoinerAdvances(s: State, size: nat, t: nat, c: nat, polls: nat)
    requires Inv(s) && Top(s, t) == Some(c) && !s.tasks[c].life.phase.Running?
    requires JoinReady(s, c) || s.pending != []
    requires polls >= match s.tasks[c].life.phase
                      case Checking(_) => if JoinReady(s, c) then 0 else 1
                      case Helping(_) => if s.pending != [] then 0 else 2
                      case _ => 2
    ensures CanAdvance(s, size, t, polls)
    decreases polls
  {
    assert TaskOk(s, {}, c);
    var h := s.tasks[c].life.phase.handle;
    assert TaskOk(s, {}, h);
    match s.tasks[c].life.phase
    case Checking(_) =>
      if !JoinReady(s, c) {
        SetPhaseKeepsInv(s, c, Helping(h));
        JoinerAdvances(SetPhase(s, c, Helping(h)), size, t, c, polls - 1);
      }
      Advances(s, size, Check(t), polls);
    case Helping(_) =>
      if s.pending == [] {
        SetPhaseKeepsInv(s, c, Waiting(h));
        var s1 := SetPhase(s, c, Waiting(h));
        SetPhaseKeepsInv(s1, c, Checking(h));
        JoinerAdvances(SetPhase(s1, c, Checking(h)), size, t, c, polls - 2);
        Advances(s1, size, Recheck(t), polls - 1);
      } else {
        BeginOldestKeepsInv(s, t);
      }
      Advances(s, size, Help(t), polls);
    case Waiting(_) =>
      SetPhaseKeepsInv(s, c, Checking(h));
      JoinerAdvances(SetPhase(s, c, Checking(h)), size, t, c, polls - 1);
      Advances(s, size, Recheck(t), polls);
  }

  /** The pool never holds up running code, whatever it does next: it may fork, join any handle of its
      own, and return once it has joined them all. */
  lemma RunningNeverBlocked(s: State, size: nat, t: nat, c: nat)
    requires Inv(s) && Top(s, t) == Some(c) && s.tasks[c].life.phase.Running?
    ensures Next(s, size, Fork(t)).To?
    ensures forall h: nat | Unjoined(s, c, h) :: Next(s, size, BeginJoin(t, h)).To?
    ensures (forall h: nat :: !Unjoined(s, c, h)) ==> forall v: Value :: Next(s, size, Return(t, v)).To?
  {
    assert TaskOk(s, {}, c);
  }

  /** Thread `t` has taken the task that was forked first of all that were pending, and begins to run it. */
  predicate TookOldest(s: State, next: State, t: nat)
    requires s.pending != [] && t < |s.stacks|
  {
    var c := s.pending[0];
    && (forall d | d in s.pending :: c <= d)
    && c < |s.tasks| == |next.tasks| && next.tasks[c].life == Active(|s.started|, Place(t, |s.stacks[t]|), Running)
    && next.stacks == s.stacks[t := s.stacks[t] + [c]] && next.started == s.started + [c]
    && |next.pending| == |s.pending| - 1 && (forall d | d in s.pending :: d == c || d in next.pending)
  }

  /** While a task is pending every idle worker gets one: the oldest.  Nothing else keeps a worker from it. */
  lemma IdleWorkerWorks(s: State, size: nat, t: nat)
    requires Inv(s) && 0 < t < |s.stacks| && s.stacks[t] == []
    ensures Next(s, size, TakeWork(t)).To? <==> s.pending != []
    ensures s.pending != [] ==> TookOldest(s, Next(s, size, TakeWork(t)).next, t)
  {
    if s.pending != [] { OldestTaken(s, t); }
  }

  /** So does a joiner that helps. */
  lemma HelperWorks(s: State, size: nat, t: nat, c: nat)
    requires Inv(s) && Top(s, t) == Some(c) && s.tasks[c].life.phase.Helping? && s.pending != []
    ensures var waiting := SetPhase(s, c, Waiting(s.tasks[c].life.phase.handle));
      Next(s, size, Help(t)).To? && TookOldest(waiting, Next(s, size, Help(t)).next, t)
  {
    assert TaskOk(s, {}, c);
    var waiting := SetPhase(s, c, Waiting(s.tasks[c].life.phase.handle));
    SetPhaseKeepsInv(s, c, Waiting(s.tasks[c].life.phase.handle));
    OldestTaken(waiting, t);
  }

  lemma OldestTaken(s: State, t: nat)
    requires Inv(s) && t < |s.stacks| && s.pending != []
    ensures BeginOldest(s, t).To? && TookOldest(s, BeginOldest(s, t).next, t)
  {
    var c := s.pending[0];
    assert c in s.pending;
    forall d | d in s.pending ensures c <= d && (d == c || d in s.pending[1..]) {
      var i :| 0 <= i < |s.pending| && s.pending[i] == d;
      if i > 0 { assert s.pending[1..][i - 1] == d; }
    }
  }

  /** The task that began last among those still running, looking at the first `k` starts. */
  lemma Newest(s: State, k: nat) returns (c: nat)
    requires Inv(s) && k <= |s.started| && exists j | 0 <= j < k :: IsActive(s, s.started[j])
    ensures IsActive(s, c)
    ensures forall d: nat | IsActive(s, d) && s.tasks[d].life.start < k :: s.tasks[d].life.start <= s.tasks[c].life.start
  {
    c := s.started[k - 1];
    if IsActive(s, c) {
      assert StartOk(s, k - 1);
    } else {
      c := Newest(s, k - 1);
      forall d: nat | IsActive(s, d) && s.tasks[d].life.start < k ensures s.tasks[d].life.start <= s.tasks[c].life.start {
        assert TaskOk(s, {}, d);
      }
    }
  }

  /** No deadlock: while some task is queued or running, some thread can advance on its own.  It is the
      thread of the newest running task: that task has the top frame, and a child it waits for began
      later or not at all, so the child has returned or is still queued. */
  lemma NoDeadlock(s: State, size: nat)
    requires Inv(s) && !Quiet(s)
    ensures exists t: nat :: CanAdvance(s, size, t, 2)
  {
    SomeActive(s);
    var c := Newest(s, |s.started|);
    assert TaskOk(s, {}, c);
    var t, level := s.tasks[c].life.at.thread, s.tasks[c].life.at.level;
    forall d: nat | IsActive(s, d) ensures s.tasks[d].life.start <= s.tasks[c].life.start {
      assert TaskOk(s, {}, d);
    }
    assert level + 1 < |s.stacks[t]| ==> FrameOk(s, t, level + 1);
    assert Top(s, t) == Some(c);
    if s.tasks[c].life.phase.Running? {
      RunningNeverBlocked(s, size, t, c);
      Advances(s, size, Fork(t), 2);
    } else {
      var h := s.tasks[c].life.phase.handle;
      assert TaskOk(s, {}, h);
      JoinerAdvances(s, size, t, c, 2);
    }
  }

  lemma SomeActive(s: State)
    requires Inv(s) && !Quiet(s)
    ensures exists j | 0 <= j < |s.started| :: IsActive(s, s.started[j])
  {
    if s.pending != [] {
      assert s.pending[0] in s.pending;
      assert TaskOk(s, {}, s.pending[0]);
      var p := s.tasks[s.pending[0]].parent;
      assert TaskOk(s, {}, p);
      assert IsActive(s, s.started[s.tasks[p].life.start]);
    } else {
      var t :| 0 <= t < |s.stacks| && s.stacks[t] != [];
      assert FrameOk(s, t, 0);
      assert TaskOk(s, {}, s.stacks[t][0]);
      assert IsActive(s, s.started[s.tasks[s.stacks[t][0]].life.start]);
    }
  }

  /** Deadlock freedom of every reachable state, for any number of workers, even none. */
  lemma ReachableNeverStuck(workers: nat, size: nat, steps: seq<Step>)
    requires Run(Init(workers), size, steps).To? && !Quiet(Run(Init(workers), size, steps).next)
    ensures exists t: nat :: CanAdvance(Run(Init(workers), size, steps).next, size, t, 2)
  {
    InitInv(workers);
    RunKeepsInv(Init(workers), size, steps);
    NoDeadlock(Run(Init(workers), size, steps).next, size);
  }
}
