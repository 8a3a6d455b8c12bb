/** Reference counting of runtime objects (`src/runtime/memory.c`), for one object shared by any number
    of threads.  `llm_dup` and `llm_drop` are several accesses to the object's header; each access is
    one atomic step, and steps of different threads interleave freely. */
module RefCount {
  import opened Wrappers

  /** Where a thread is inside `llm_dup` or `llm_drop`: it read a good magic number and is about to add
      or subtract, it released the last reference and is about to destroy, or to free. */
  datatype Pc = Idle | Duping | Dropping | Destroying | Freeing

  /** The header, whether its memory was freed, how often the type's destructor ran and which thread ran it,
      which thread's drop released the last reference, and for each thread the references it holds and
      where it is. */
  datatype State = State(
    magic: bool,
    count: int,
    freed: bool,
    destructions: nat,
    destroyer: Option<nat>,
    lastDropper: Option<nat>,
    held: seq<nat>,
    pcs: seq<Pc>)

  datatype Step =
    | StartDup(thread: nat)
    | Add(thread: nat)
    | StartDrop(thread: nat)
    | Subtract(thread: nat)
    | Destroy(thread: nat)
    | Free(thread: nat)
    | Give(thread: nat, receiver: nat)

  /** `Fault` is an access to the header after it was freed. */
  datatype Outcome = Blocked | Fault | To(next: State)

  /** `llm_rt_alloc`: one reference, held by the thread that allocated. */
  function Init(threads: nat): State
    requires threads > 0
  {
    State(true, 1, false, 0, None, None, seq(threads, t => if t == 0 then 1 else 0), seq(threads, _ => Idle))
  }

  function At(s: State, t: nat, pc: Pc): State
    requires t < |s.pcs|
  {
    s.(pcs := s.pcs[t := pc])
  }

  /** A thread dups or drops only while it holds a reference, and may give one away. */
  function Next(s: State, step: Step): Outcome {
    var t := step.thread;
    if t >= |s.held| || |s.held| != |s.pcs| then Blocked else
    match step
    case StartDup(_) =>
      if s.pcs[t] != Idle || s.held[t] == 0 then Blocked
      else if s.freed then Fault
      else To(if s.magic then At(s, t, Duping) else s)
    case Add(_) =>
      if s.pcs[t] != Duping then Blocked
      else if s.freed then Fault
      else To(At(s, t, Idle).(count := s.count + 1, held := s.held[t := s.held[t] + 1]))
    case StartDrop(_) =>
      if s.pcs[t] != Idle || s.held[t] == 0 then Blocked
      else if s.freed then Fault
      else To(if s.magic then At(s, t, Dropping) else s)
    case Subtract(_) =>
      if s.pcs[t] != Dropping || s.held[t] == 0 then Blocked
      else if s.freed then Fault
      else To(At(s, t, if s.count == 1 then Destroying else Idle).(
                count := s.count - 1, held := s.held[t := s.held[t] - 1],
                lastDropper := if s.count == 1 then Some(t) else s.lastDropper))
    case Destroy(_) =>
      if s.pcs[t] != Destroying then Blocked
      else if s.freed then Fault
      else To(At(s, t, Freeing).(magic := false, destructions := s.destructions + 1, destroyer := Some(t)))
    case Free(_) =>
      if s.pcs[t] != Freeing then Blocked
      else if s.freed then Fault
      else To(At(s, t, Idle).(freed := true))
    case Give(_, u) =>
      if u >= |s.held| || u == t || s.pcs[t] != Idle || s.held[t] == 0 then Blocked
      else To(s.(held := s.held[t := s.held[t] - 1][u := s.held[u] + 1]))
  }

  function Run(s: State, steps: seq<Step>): Outcome
    decreases |steps|
  {
    if steps == [] then To(s) else
    match Next(s, steps[0])
    case To(s1) => Run(s1, steps[1..])
    case other => other
  }

  function Sum(held: seq<nat>): nat {
    if held == [] then 0 else held[0] + Sum(held[1..])
  }

  lemma {:induction false} SumUpdate(held: seq<nat>, t: nat, n: nat)
    requires t < |held|
    ensures Sum(held[t := n]) == Sum(held) - held[t] + n
  {
    if t > 0 {
      SumUpdate(held[1..], t - 1, n);
      assert held[t := n][1..] == held[1..][t - 1 := n];
    }
  }

  predicate Ending(pc: Pc) { pc.Destroying? || pc.Freeing? }

  ghost predicate ThreadOk(s: State, t: nat)
    requires t < |s.held| == |s.pcs|
  {
    && (s.pcs[t].Duping? || s.pcs[t].Dropping? ==> s.held[t] > 0)
    && (Ending(s.pcs[t]) ==> !s.freed && s.count == 0 && s.magic == s.pcs[t].Destroying? && s.lastDropper == Some(t))
  }

  /** The count is the number of outstanding references; once it is zero exactly one thread is between
      its last subtraction and the free, or the object is freed. */
  ghost predicate Inv(s: State) {
    && |s.held| == |s.pcs|
    && s.count == Sum(s.held)
    && (forall t | 0 <= t < |s.held| :: ThreadOk(s, t))
    && (forall t, u | 0 <= t < |s.pcs| && 0 <= u < |s.pcs| && Ending(s.pcs[t]) && Ending(s.pcs[u]) :: t == u)
    && (s.count > 0 ==> s.magic && !s.freed)
    && (s.count == 0 && !s.freed ==> exists t | 0 <= t < |s.pcs| :: Ending(s.pcs[t]))
    && s.destructions == (if s.magic then 0 else 1)
    && (s.destructions == 1 ==> s.count == 0 && s.destroyer.Some? && s.destroyer == s.lastDropper)
    && (s.freed ==> !s.magic)
  }

  lemma HeldAtMost(held: seq<nat>, t: nat)
    requires t < |held|
    ensures held[t] <= Sum(held)
  {
    SumUpdate(held, t, 0);
  }

  /** Adding and subtracting keep the count and the references together. */
  lemma SumAfter(s: State, step: Step)
    requires Inv(s) && Next(s, step).To?
    ensures var s1 := Next(s, step).next; s1.count == Sum(s1.held)
  {
    hide Sum;
    var t := step.thread;
    match step {
    case Add(_) => SumUpdate(s.held, t, s.held[t] + 1);
    case Subtract(_) => SumUpdate(s.held, t, s.held[t] - 1);
    case Give(_, u) =>
      SumUpdate(s.held, t, s.held[t] - 1);
      SumUpdate(s.held[t := s.held[t] - 1], u, s.held[u] + 1);
    case _ =>
    }
  }

  /** Whoever is destroying or freeing finds the count at zero. */
  lemma EndingCount(s: State, u: nat)
    requires Inv(s) && u < |s.pcs| && Ending(s.pcs[u])
    ensures s.count == 0 && !s.freed && s.magic == s.pcs[u].Destroying? && s.lastDropper == Some(u)
  {
    assert ThreadOk(s, u);
  }

  lemma NextThreadOk(s: State, step: Step, u: nat)
    requires Inv(s) && Next(s, step).To? && u < |s.held|
    ensures ThreadOk(Next(s, step).next, u)
  {
    hide Sum;
    var t := step.thread;
    var s1 := Next(s, step).next;
    HeldAtMost(s.held, t);
    SumAfter(s, step);
    HeldAtMost(s1.held, u);
    assert ThreadOk(s, t) && ThreadOk(s, u);
  }

  /** At most one thread is ending the object, and at zero there is one until it is freed. */
  lemma NextEnding(s: State, step: Step)
    requires Inv(s) && Next(s, step).To?
    ensures var s1 := Next(s, step).next;
      forall t, u | 0 <= t < |s1.pcs| && 0 <= u < |s1.pcs| && Ending(s1.pcs[t]) && Ending(s1.pcs[u]) :: t == u
    ensures var s1 := Next(s, step).next; s1.count == 0 && !s1.freed ==> exists t | 0 <= t < |s1.pcs| :: Ending(s1.pcs[t])
  {
    hide Sum, ThreadOk;
    var t := step.thread;
    HeldAtMost(s.held, t);
    forall u | 0 <= u < |s.pcs| && Ending(s.pcs[u]) ensures s.count == 0 { EndingCount(s, u); }
    var s1 := Next(s, step).next;
    if s1.count == 0 && !s1.freed {
      var w :| 0 <= w < |s1.pcs| && Ending(if s.count == 0 then s.pcs[w] else s1.pcs[w]);
      assert Ending(s1.pcs[w]);
    }
  }

  lemma NextKeepsInv(s: State, step: Step)
    requires Inv(s)
    ensures !Next(s, step).Fault?
    ensures Next(s, step).To? ==> Inv(Next(s, step).next)
  {
    hide Sum;
    var t := step.thread;
    if t < |s.held| {
      HeldAtMost(s.held, t);
      assert ThreadOk(s, t);
      if Next(s, step).To? {
        SumAfter(s, step);
        NextEnding(s, step);
        forall u | 0 <= u < |s.held| ensures ThreadOk(Next(s, step).next, u) { NextThreadOk(s, step, u); }
      }
    }
  }

  lemma RunKeepsInv(s: State, steps: seq<Step>)
    requires Inv(s)
    ensures !Run(s, steps).Fault?
    ensures Run(s, steps).To? ==> Inv(Run(s, steps).next)
    decreases |steps|
  {
    if steps != [] {
      NextKeepsInv(s, steps[0]);
      if Next(s, steps[0]).To? { RunKeepsInv(Next(s, steps[0]).next, steps[1..]); }
    }
  }

  lemma InitInv(threads: nat)
    requires threads > 0
    ensures Inv(Init(threads))
  {
    var zeros := seq(threads, _ => 0);
    Zeros(zeros);
    SumUpdate(zeros, 0, 1);
    assert Init(threads).held == zeros[0 := 1];
  }

  lemma Zeros(held: seq<nat>)
    requires forall t | 0 <= t < |held| :: held[t] == 0
    ensures Sum(held) == 0
  {
  }

  /** Under every interleaving: the header is never touched after it was freed, a live object's count
      is the number of references held, the destructor has run at most once, by the thread whose drop
      released the last reference, and once no reference is left and no thread is inside a call, the object
      has been destroyed once and freed. */
  lemma Conserved(threads: nat, steps: seq<Step>)
    requires threads > 0
    ensures var r := Run(Init(threads), steps);
      && !r.Fault?
      && (r.To? ==>
        && r.next.count == Sum(r.next.held)
        && (Sum(r.next.held) > 0 ==> !r.next.freed && r.next.destructions == 0)
        && r.next.destructions <= 1
        && (r.next.destructions == 1 ==> r.next.destroyer.Some? && r.next.destroyer == r.next.lastDropper)
        && (Sum(r.next.held) == 0 && (forall t | 0 <= t < |r.next.pcs| :: r.next.pcs[t].Idle?) ==>
              r.next.freed && r.next.destructions == 1))
  {
    InitInv(threads);
    RunKeepsInv(Init(threads), steps);
  }
}
