/**
 The work pipeline as a state machine: one producer executing a program of Preparer.dfy, any
 number of workers in the polling loop of src/MySQLDriver.cpp, the queue of TsQueue.dfy between
 them, and the main thread setting `processingComplete` once the producer has returned.

 One action is one critical section or one read or write of the flag.
 */
module Protocol {
  import opened Messages
  import opened Preparer
  import opened TsQueue
  import opened Backpressure

  /** Where a worker is in `while (!complete || !empty()) { if (!empty()) { wait_and_pop(m); ... } }`.
      A worker in wait_and_pop is asleep, woken, or about to take the mutex for the first time;
      the wait sets of the monitor tell which. */
  datatype Phase =
    | LoopFlag           // about to read processingComplete
    | LoopEmpty          // it was set; about to test the queue
    | InnerEmpty         // in the body, about to test the queue
    | Popping            // in wait_and_pop
    | Holding(m: Message)
    | Exited

  datatype State = State(
    prog: seq<Op>,
    pc: nat,
    progress: nat,
    complete: bool,
    q: Monitor<Message>,
    workers: seq<Phase>,
    pushed: seq<Message>,     // history: everything pushed, popped and completed so far, in order
    popped: seq<Message>,
    completed: seq<Message>)

  datatype Action =
    | Produce(chosen: Tid)    // the producer's next operation; `chosen` is the popper a push wakes
    | Finish                  // the main thread sets processingComplete
    | Work(t: Tid)
    | SpuriousWorker(t: Tid)
    | SpuriousProducer

  function Init(prog: seq<Op>, n: nat): State {
    State(prog, 0, 0, false, NewMonitor(), seq(n, i => LoopFlag), [], [], [])
  }

  predicate Waits(op: Op) {
    op.WaitSize? || op.WaitEmpty?
  }

  function Limit(op: Op): nat
    requires Waits(op)
  {
    if op.WaitEmpty? then EMPTY_WAIT_LIMIT else op.limit
  }

  ghost predicate Enabled(s: State, a: Action) {
    match a
    case Produce(chosen) =>
      s.pc < |s.prog| && !s.q.emptyWait.Sleeping? && (s.prog[s.pc].Push? ==> CanNotify(s.q, chosen))
    case Finish => s.pc == |s.prog| && !s.complete
    case Work(t) => t < |s.workers| && !s.workers[t].Exited? && t !in s.q.asleep
    case SpuriousWorker(t) => t in s.q.asleep
    case SpuriousProducer => s.q.emptyWait.Sleeping?
  }

  function Apply(s: State, a: Action): State
    requires Enabled(s, a)
  {
    match a
    case Produce(chosen) => ProducerStep(s, chosen)
    case Finish => s.(complete := true)
    case Work(t) => WorkerStep(s, t)
    case SpuriousWorker(t) => s.(q := SpuriousPopper(s.q, t))
    case SpuriousProducer => s.(q := SpuriousWaiter(s.q))
  }

  function ProducerStep(s: State, chosen: Tid): (r: State)
    requires Enabled(s, Produce(chosen))
    ensures r.prog == s.prog && r.complete == s.complete
    ensures r.workers == s.workers && r.popped == s.popped && r.completed == s.completed
  {
    match s.prog[s.pc]
    case Push(m) => s.(pc := s.pc + 1, q := PushSection(s.q, m, chosen), pushed := s.pushed + [m])
    case AddProgress(n) => s.(pc := s.pc + 1, progress := s.progress + n)
    case SetProgress(v) => s.(pc := s.pc + 1, progress := v)
    case _ =>
      var (q, done) := WaitSection(s.q, Limit(s.prog[s.pc]));
      s.(pc := if done then s.pc + 1 else s.pc, q := q)
  }

  function Goto(s: State, t: Tid, p: Phase): State
    requires t < |s.workers|
  {
    s.(workers := s.workers[t := p])
  }

  /** The outcome of the three loop tests. */
  function Tested(s: State, p: Phase): Phase
    requires p.LoopFlag? || p.LoopEmpty? || p.InnerEmpty?
  {
    match p
    case LoopFlag => if s.complete then LoopEmpty else InnerEmpty
    case LoopEmpty => if s.q.items == [] then Exited else InnerEmpty
    case InnerEmpty => if s.q.items == [] then LoopFlag else Popping
  }

  function WorkerStep(s: State, t: Tid): State
    requires Enabled(s, Work(t))
  {
    var w := s.workers[t];
    if w.Popping? then
      var (q, front) := PopSection(s.q, t);
      match front
      case None => s.(q := q)
      case Some(m) => Goto(s, t, Holding(m)).(q := q, popped := s.popped + [m])
    else if w.Holding? then
      Goto(s, t, LoopFlag).(completed := s.completed + [w.m])
    else
      Goto(s, t, Tested(s, w))
  }

  /** The state after a sequence of actions; None if one of them is not enabled in turn. */
  ghost function Exec(s: State, acts: seq<Action>): Option<State> {
    if acts == [] then Some(s) else
    match Exec(s, acts[..|acts| - 1])
    case None => None
    case Some(s1) =>
      var a := acts[|acts| - 1];
      if Enabled(s1, a) then Some(Apply(s1, a)) else None
  }

  ghost predicate Reaches(prog: seq<Op>, n: nat, acts: seq<Action>, s: State) {
    Exec(Init(prog, n), acts) == Some(s)
  }

  // ---------------------------------------------------------------- the invariant

  function HeldBy(w: Phase): multiset<Message> {
    if w.Holding? then multiset{w.m} else multiset{}
  }

  /** Messages the first `k` workers are processing. */
  function HeldUpTo(workers: seq<Phase>, k: nat): multiset<Message>
    requires k <= |workers|
  {
    if k == 0 then multiset{} else HeldUpTo(workers, k - 1) + HeldBy(workers[k - 1])
  }

  function Held(workers: seq<Phase>): multiset<Message> {
    HeldUpTo(workers, |workers|)
  }

  /** The producer has executed exactly the first `pc` operations, and waited where they say so. */
  ghost predicate Issued(s: State) {
    && s.pc <= |s.prog|
    && s.pushed == Pushes(s.prog[..s.pc])
    && s.progress == Progress(s.prog[..s.pc])
    && |s.q.items| <= Bound(s.prog[..s.pc])
  }

  /** First in, first out. */
  ghost predicate Fifo(s: State) {
    s.popped + s.q.items == s.pushed
  }

  /** Nothing is lost, duplicated or invented between a pop and its completion. */
  ghost predicate Balanced(s: State) {
    multiset(s.popped) == multiset(s.completed) + Held(s.workers)
  }

  ghost predicate Waiters(s: State) {
    && NoLostWakeup(s.q)
    && (forall t :: t in s.q.asleep || t in s.q.woken ==> t < |s.workers| && s.workers[t].Popping?)
    && (!s.q.emptyWait.NotWaiting? ==>
          s.pc < |s.prog| && Waits(s.prog[s.pc]) && s.q.emptyWait.limit == Limit(s.prog[s.pc]))
  }

  ghost predicate Shutdown(s: State) {
    && (s.complete ==> s.pc == |s.prog|)
    && (forall t :: 0 <= t < |s.workers| && (s.workers[t].LoopEmpty? || s.workers[t].Exited?) ==> s.complete)
    && (forall t :: 0 <= t < |s.workers| && s.workers[t].Exited? ==> s.q.items == [])
  }

  /** An empty queue has been emptied by a worker that is not back in the pop since. */
  ghost predicate SomeoneOutside(s: State) {
    s.workers != [] && s.q.items == [] ==> exists t: nat :: t < |s.workers| && !s.workers[t].Popping?
  }

  ghost predicate Inv(s: State) {
    Issued(s) && Fifo(s) && Balanced(s) && Waiters(s) && Shutdown(s) && SomeoneOutside(s)
  }

  lemma {:induction false} HeldSame(workers: seq<Phase>, t: nat, p: Phase, k: nat)
    requires k <= t < |workers|
    ensures HeldUpTo(workers[t := p], k) == HeldUpTo(workers, k)
  {
    if k > 0 {
      HeldSame(workers, t, p, k - 1);
    }
  }

  lemma Balance(a: multiset<Message>, x: multiset<Message>, b: multiset<Message>, y: multiset<Message>,
                w: multiset<Message>)
    requires a + x == b + y
    ensures (a + w) + x == (b + w) + y
  {
    assert (a + w) + x == (a + x) + w;
    assert (b + w) + y == (b + y) + w;
  }

  lemma {:induction false} HeldUpdate(workers: seq<Phase>, t: nat, p: Phase, k: nat)
    requires t < k <= |workers|
    ensures HeldUpTo(workers[t := p], k) + HeldBy(workers[t]) == HeldUpTo(workers, k) + HeldBy(p)
  {
    if t == k - 1 {
      HeldSame(workers, t, p, t);
    } else {
      HeldUpdate(workers, t, p, k - 1);
      Balance(HeldUpTo(workers[t := p], k - 1), HeldBy(workers[t]), HeldUpTo(workers, k - 1), HeldBy(p),
              HeldBy(workers[k - 1]));
    }
  }

  lemma HeldChange(workers: seq<Phase>, t: nat, p: Phase)
    requires t < |workers|
    ensures !p.Holding? && !workers[t].Holding? ==> Held(workers[t := p]) == Held(workers)
    ensures p.Holding? && !workers[t].Holding? ==> Held(workers[t := p]) == Held(workers) + multiset{p.m}
    ensures !p.Holding? && workers[t].Holding? ==> Held(workers) == Held(workers[t := p]) + multiset{workers[t].m}
  {
    HeldUpdate(workers, t, p, |workers|);
    var before, after := Held(workers), Held(workers[t := p]);
    assert before + multiset{} == before && after + multiset{} == after;
  }

  lemma {:induction false} HeldNone(workers: seq<Phase>, k: nat)
    requires k <= |workers| && forall t :: 0 <= t < k ==> !workers[t].Holding?
    ensures HeldUpTo(workers, k) == multiset{}
  {
    if k > 0 {
      HeldNone(workers, k - 1);
    }
  }

  lemma {:induction false} HeldSize(workers: seq<Phase>, k: nat)
    requires k <= |workers|
    ensures |HeldUpTo(workers, k)| <= k
  {
    if k > 0 {
      HeldSize(workers, k - 1);
    }
  }

  lemma InvInit(prog: seq<Op>, n: nat)
    ensures Inv(Init(prog, n))
  {
    HeldNone(Init(prog, n).workers, n);
    assert prog[..0] == [];
  }

  lemma ProgramNext(prog: seq<Op>, pc: nat)
    requires pc < |prog|
    ensures Pushes(prog[..pc + 1]) == Pushes(prog[..pc]) + if prog[pc].Push? then [prog[pc].m] else []
    ensures Bound(prog[..pc + 1]) == NextBound(Bound(prog[..pc]), prog[pc])
    ensures Progress(prog[..pc + 1]) == NextProgress(Progress(prog[..pc]), prog[pc])
  {
    assert prog[..pc + 1][..pc] == prog[..pc];
    assert prog[..pc + 1][pc] == prog[pc];
  }

  lemma IssuedProduce(s: State, chosen: Tid)
    requires Issued(s) && Enabled(s, Produce(chosen))
    ensures Issued(ProducerStep(s, chosen))
  {
    ProgramNext(s.prog, s.pc);
  }

  lemma FifoStep(s: State, a: Action)
    requires Fifo(s) && Enabled(s, a)
    ensures Fifo(Apply(s, a))
  {
    if a.Produce? && s.prog[s.pc].Push? {
      assert s.popped + (s.q.items + [s.prog[s.pc].m]) == s.popped + s.q.items + [s.prog[s.pc].m];
    } else if a.Work? && s.workers[a.t].Popping? && s.q.items != [] {
      assert s.popped + [s.q.items[0]] + s.q.items[1..] == s.popped + s.q.items;
    }
  }

  /** The three ways the workers' side of the balance moves. */
  lemma BalancePop(popped: seq<Message>, completed: seq<Message>, workers: seq<Phase>, t: nat, m: Message)
    requires multiset(popped) == multiset(completed) + Held(workers)
    requires t < |workers| && !workers[t].Holding?
    ensures multiset(popped + [m]) == multiset(completed) + Held(workers[t := Holding(m)])
  {
    HeldChange(workers, t, Holding(m));
  }

  lemma BalanceComplete(popped: seq<Message>, completed: seq<Message>, workers: seq<Phase>, t: nat, m: Message)
    requires multiset(popped) == multiset(completed) + Held(workers)
    requires t < |workers| && workers[t] == Holding(m)
    ensures multiset(popped) == multiset(completed + [m]) + Held(workers[t := LoopFlag])
  {
    HeldChange(workers, t, LoopFlag);
    assert multiset(completed + [m]) == multiset(completed) + multiset{m};
  }

  lemma BalancedGoto(s: State, t: Tid, p: Phase)
    requires Balanced(s) && t < |s.workers| && !s.workers[t].Holding? && !p.Holding?
    ensures Balanced(Goto(s, t, p))
  {
    HeldChange(s.workers, t, p);
  }

  lemma BalancedPop(s: State, t: Tid)
    requires Balanced(s) && Enabled(s, Work(t)) && s.workers[t].Popping?
    ensures Balanced(WorkerStep(s, t))
  {
    if s.q.items != [] {
      BalancePop(s.popped, s.completed, s.workers, t, s.q.items[0]);
    }
  }

  lemma BalancedComplete(s: State, t: Tid)
    requires Balanced(s) && Enabled(s, Work(t)) && s.workers[t].Holding?
    ensures Balanced(WorkerStep(s, t))
  {
    BalanceComplete(s.popped, s.completed, s.workers, t, s.workers[t].m);
  }

  lemma BalancedWork(s: State, t: Tid)
    requires Balanced(s) && Enabled(s, Work(t))
    ensures Balanced(WorkerStep(s, t))
  {
    if s.workers[t].Popping? {
      BalancedPop(s, t);
    } else if s.workers[t].Holding? {
      BalancedComplete(s, t);
    } else {
      BalancedGoto(s, t, Tested(s, s.workers[t]));
    }
  }

  lemma BalancedStep(s: State, a: Action)
    requires Balanced(s) && Enabled(s, a)
    ensures Balanced(Apply(s, a))
  {
    if a.Work? {
      BalancedWork(s, a.t);
    }
  }

  lemma WaitersProduce(s: State, chosen: Tid)
    requires Waiters(s) && Enabled(s, Produce(chosen))
    ensures Waiters(ProducerStep(s, chosen))
  {
    match s.prog[s.pc]
    case Push(m) => NoLostWakeupStep(s.q, DoPush(m, chosen));
    case WaitSize(limit) => NoLostWakeupStep(s.q, DoWait(limit));
    case WaitEmpty => NoLostWakeupStep(s.q, DoWait(EMPTY_WAIT_LIMIT));
    case _ =>
  }

  lemma WaitersGoto(s: State, t: Tid, p: Phase)
    requires Waiters(s) && t < |s.workers| && !s.workers[t].Popping?
    ensures Waiters(Goto(s, t, p))
  {
  }

  lemma WaitersPop(s: State, t: Tid)
    requires Waiters(s) && Enabled(s, Work(t)) && s.workers[t].Popping?
    ensures Waiters(WorkerStep(s, t))
  {
    NoLostWakeupStep(s.q, DoPop(t));
  }

  lemma WaitersWork(s: State, t: Tid)
    requires Waiters(s) && Enabled(s, Work(t))
    ensures Waiters(WorkerStep(s, t))
  {
    if s.workers[t].Popping? {
      WaitersPop(s, t);
    } else {
      WaitersGoto(s, t, if s.workers[t].Holding? then LoopFlag else Tested(s, s.workers[t]));
    }
  }

  lemma ShutdownProduce(s: State, chosen: Tid)
    requires Shutdown(s) && Enabled(s, Produce(chosen))
    ensures Shutdown(ProducerStep(s, chosen))
  {
    assert !s.complete;
    assert forall t :: 0 <= t < |s.workers| ==> !s.workers[t].Exited?;
  }

  lemma ShutdownWork(s: State, t: Tid)
    requires Shutdown(s) && Waiters(s) && Enabled(s, Work(t))
    ensures Shutdown(WorkerStep(s, t))
  {
    if s.workers[t].Popping? && s.q.items != [] {
      assert forall u :: 0 <= u < |s.workers| ==> !s.workers[u].Exited?;
    }
  }

  lemma WaitersStep(s: State, a: Action)
    requires Waiters(s) && Enabled(s, a)
    ensures Waiters(Apply(s, a))
  {
    match a
    case Produce(chosen) => WaitersProduce(s, chosen);
    case Work(t) => WaitersWork(s, t);
    case SpuriousWorker(t) => NoLostWakeupStep(s.q, WakePopper(t));
    case SpuriousProducer => NoLostWakeupStep(s.q, WakeWaiter);
    case Finish =>
  }

  lemma ShutdownStep(s: State, a: Action)
    requires Shutdown(s) && Waiters(s) && Enabled(s, a)
    ensures Shutdown(Apply(s, a))
  {
    match a
    case Produce(chosen) => ShutdownProduce(s, chosen);
    case Work(t) => ShutdownWork(s, t);
    case _ =>
  }

  lemma IssuedStep(s: State, a: Action)
    requires Issued(s) && Enabled(s, a)
    ensures Issued(Apply(s, a))
  {
    if a.Produce? {
      IssuedProduce(s, a.chosen);
    }
  }

  lemma SomeoneOutsideStep(s: State, a: Action)
    requires SomeoneOutside(s) && Enabled(s, a)
    ensures SomeoneOutside(Apply(s, a))
  {
    var s1 := Apply(s, a);
    if a.Work? && s1.q.items == [] && !s1.workers[a.t].Popping? {
      assert a.t < |s1.workers|;
    }
  }

  lemma InvStep(s: State, a: Action)
    requires Inv(s) && Enabled(s, a)
    ensures Inv(Apply(s, a))
  {
    IssuedStep(s, a);
    FifoStep(s, a);
    BalancedStep(s, a);
    WaitersStep(s, a);
    ShutdownStep(s, a);
    SomeoneOutsideStep(s, a);
  }

  lemma {:induction false} InvReached(prog: seq<Op>, n: nat, acts: seq<Action>, s: State)
    requires Reaches(prog, n, acts, s)
    ensures Inv(s) && s.prog == prog && |s.workers| == n
  {
    if acts == [] {
      InvInit(prog, n);
    } else {
      var before := Exec(Init(prog, n), acts[..|acts| - 1]).value;
      var a := acts[|acts| - 1];
      InvReached(prog, n, acts[..|acts| - 1], before);
      InvStep(before, a);
    }
  }

  // ---------------------------------------------------------------- the loop, phase by phase

  /** Worker t is in this phase only after the step. */
  ghost predicate Arrives(s: State, s1: State, t: Tid, p: Phase)
    requires t < |s.workers| == |s1.workers|
  {
    s.workers[t] != p && s1.workers[t] == p
  }

  lemma WorkersStay(s: State, a: Action, t: Tid)
    requires Enabled(s, a) && t < |s.workers| && a != Work(t)
    ensures |Apply(s, a).workers| == |s.workers| && Apply(s, a).workers[t] == s.workers[t]
  {
  }

  /** Which step of which thread takes a worker where, by the tests of the source alone: the loop test
      reads the flag and then the queue, the test in the body the queue again, and only a worker that
      has just found items there goes on to the pop. */
  lemma PhaseChanges(s: State, a: Action, t: Tid)
    requires Enabled(s, a) && t < |s.workers|
    ensures |Apply(s, a).workers| == |s.workers|
    ensures var s1, w, mine, queued := Apply(s, a), s.workers[t], a == Work(t), s.q.items != [];
      && (Arrives(s, s1, t, LoopEmpty) <==> mine && w.LoopFlag? && s.complete)
      && (Arrives(s, s1, t, InnerEmpty) <==>
            mine && ((w.LoopFlag? && !s.complete) || (w.LoopEmpty? && queued)))
      && (Arrives(s, s1, t, Exited) <==> mine && w.LoopEmpty? && !queued)
      && (Arrives(s, s1, t, Popping) <==> mine && w.InnerEmpty? && queued)
      && (Arrives(s, s1, t, LoopFlag) <==> mine && (w.Holding? || (w.InnerEmpty? && !queued)))
    ensures forall m :: Arrives(s, Apply(s, a), t, Holding(m)) <==>
      a == Work(t) && s.workers[t].Popping? && s.q.items != [] && m == s.q.items[0]
  {
    if a != Work(t) {
      WorkersStay(s, a, t);
    }
  }

  /** What a worker's step does to the messages: the front is popped by a worker in the pop, a message
      held is completed, and every other step leaves them alone. */
  lemma MessageChanges(s: State, a: Action)
    requires Enabled(s, a) && a.Work?
    ensures var s1, w := Apply(s, a), s.workers[a.t];
      && (if w.Popping? && s.q.items != [] then s1.popped == s.popped + [s.q.items[0]] && s1.q.items == s.q.items[1..]
          else s1.popped == s.popped && s1.q.items == s.q.items)
      && s1.completed == s.completed + (if w.Holding? then [w.m] else [])
      && s1.pushed == s.pushed && s1.pc == s.pc && s1.progress == s.progress && s1.complete == s.complete
  {
  }
}
