/**
 How the pipeline ends: draining terminates, a quiescent pipeline has done all its work, work can
 always be finished, and exactly when `JoinThreads` is certain to return.
 */
module Join {
  import opened Messages
  import opened Preparer
  import opened TsQueue
  import opened Protocol
  import opened Pipeline

  /** Not a spurious wake-up. */
  ghost predicate Quiet(a: Action) {
    !a.SpuriousWorker? && !a.SpuriousProducer?
  }

  ghost predicate AllQuiet(acts: seq<Action>) {
    forall i :: 0 <= i < |acts| ==> Quiet(acts[i])
  }

  /** No thread can take a step unless a condition variable wakes it for nothing. */
  ghost predicate Quiescent(s: State) {
    forall a :: Quiet(a) ==> !Enabled(s, a)
  }

  /** The producer has returned and processingComplete is set. */
  ghost predicate Draining(s: State) {
    s.pc == |s.prog| && s.complete
  }

  // ---------------------------------------------------------------- the measure

  /** Steps a worker has left before it pops, sleeps or exits. The loop runs towards the pop while
      there are items, and towards the exit when there are none. */
  function Rank(s: State, t: Tid): nat
    requires t < |s.workers|
    ensures Rank(s, t) <= 5
  {
    var idle := s.q.items == [];
    if t in s.q.asleep then 0 else
    match s.workers[t]
    case Exited => 0
    case Popping => 1
    case InnerEmpty => if idle then 4 else 2
    case LoopEmpty => if idle then 2 else 3
    case LoopFlag => if idle then 3 else 4
    case Holding(_) => if idle then 4 else 5
  }

  function RankUpTo(s: State, k: nat): nat
    requires k <= |s.workers|
    ensures RankUpTo(s, k) <= 5 * k
  {
    if k == 0 then 0 else RankUpTo(s, k - 1) + Rank(s, k - 1)
  }

  function Measure(s: State): nat {
    |s.q.items| * (5 * |s.workers| + 1) + RankUpTo(s, |s.workers|)
  }

  lemma {:induction false} RankChange(s: State, s1: State, t: Tid, k: nat)
    requires k <= |s.workers| == |s1.workers| && t < |s.workers|
    requires forall u: nat :: u < |s.workers| && u != t ==> Rank(s, u) == Rank(s1, u)
    ensures RankUpTo(s1, k) + (if t < k then Rank(s, t) else 0)
         == RankUpTo(s, k) + (if t < k then Rank(s1, t) else 0)
  {
    if k > 0 {
      RankChange(s, s1, t, k - 1);
    }
  }

  lemma PopDecreases(s: State, t: Tid)
    requires Enabled(s, Work(t)) && s.workers[t].Popping? && s.q.items != []
    ensures Measure(WorkerStep(s, t)) < Measure(s)
  {
    var n, k := |s.workers|, |s.q.items|;
    assert k * (5 * n + 1) == (k - 1) * (5 * n + 1) + (5 * n + 1);
  }

  /** Without a pop the queue stays as it is. */
  lemma OthersDecrease(s: State, t: Tid)
    requires Enabled(s, Work(t)) && (s.q.items != [] || s.complete)
    requires !(s.workers[t].Popping? && s.q.items != [])
    ensures Measure(WorkerStep(s, t)) < Measure(s)
  {
    var s1 := WorkerStep(s, t);
    assert s1.q.items == s.q.items && Rank(s1, t) < Rank(s, t);
    RankChange(s, s1, t, |s.workers|);
  }

  lemma WorkDecreases(s: State, t: Tid)
    requires Enabled(s, Work(t)) && (s.q.items != [] || s.complete)
    ensures Measure(WorkerStep(s, t)) < Measure(s)
  {
    if s.workers[t].Popping? && s.q.items != [] {
      PopDecreases(s, t);
    } else {
      OthersDecrease(s, t);
    }
  }

  // ---------------------------------------------------------------- termination

  lemma DrainStep(s: State, a: Action)
    requires Draining(s) && Quiet(a) && Enabled(s, a)
    ensures Draining(Apply(s, a)) && Measure(Apply(s, a)) < Measure(s)
    ensures s.q.asleep <= Apply(s, a).q.asleep
    ensures AllOutside(s) ==> AllOutside(Apply(s, a))
  {
    WorkDecreases(s, a.t);
  }

  /** Nothing is queued and nobody is in the pop. */
  ghost predicate AllOutside(s: State) {
    s.q.items == [] && forall t: nat :: t < |s.workers| ==> !s.workers[t].Popping?
  }

  lemma {:induction false} DrainFalls(s: State, acts: seq<Action>, s1: State)
    requires Draining(s) && AllQuiet(acts) && Exec(s, acts) == Some(s1)
    ensures Draining(s1) && |acts| + Measure(s1) <= Measure(s)
  {
    if acts != [] {
      var k := |acts| - 1;
      var before := Exec(s, acts[..k]).value;
      DrainFalls(s, acts[..k], before);
      DrainStep(before, acts[k]);
    }
  }

  /** Every run from a draining state without spurious wake-ups is finite: its length is bounded
      by the items left and the number of workers. */
  lemma DrainTerminates(s: State, acts: seq<Action>, s1: State)
    requires Draining(s) && AllQuiet(acts) && Exec(s, acts) == Some(s1)
    ensures Draining(s1) && |acts| + Measure(s1) <= Measure(s)
    ensures |acts| <= |s.q.items| * (5 * |s.workers| + 1) + 5 * |s.workers|
  {
    DrainFalls(s, acts, s1);
  }

  // ---------------------------------------------------------------- quiescence

  lemma RestMeansIssued(prog: seq<Op>, n: nat, acts: seq<Action>, s: State)
    requires Reaches(prog, n, acts, s) && n >= 1 && Quiescent(s)
    ensures s.pc == |prog|
  {
    InvReached(prog, n, acts, s);
    if s.q.emptyWait.Sleeping? {
      ProducerNeverWaitsAlone(prog, n, acts, s);
    } else if s.pc < |prog| {
      var chosen: Tid :| s.q.asleep == {} || chosen in s.q.asleep;
      assert Enabled(s, Produce(chosen));
    }
  }

  lemma WorkerAtRest(s: State, t: Tid)
    requires Quiescent(s) && t < |s.workers|
    ensures s.workers[t].Exited? || t in s.q.asleep
  {
    assert !Enabled(s, Work(t));
  }

  lemma NothingQueued(s: State)
    requires Inv(s) && Quiescent(s) && s.workers != []
    ensures s.q.items == []
  {
    if s.q.items != [] {
      var t := SomeWorkerAwake(s);
      WorkerAtRest(s, t);
    }
  }

  lemma WorkersAtRest(s: State)
    requires Inv(s) && Quiescent(s) && s.workers != []
    ensures s.q.items == []
    ensures forall t: nat :: t < |s.workers| ==> s.workers[t].Exited? || t in s.q.asleep
    ensures forall t: nat :: t < |s.workers| ==> !s.workers[t].Holding?
    ensures exists t: nat :: t < |s.workers| && s.workers[t].Exited?
  {
    NothingQueued(s);
    forall t: nat | t < |s.workers| ensures s.workers[t].Exited? || t in s.q.asleep {
      WorkerAtRest(s, t);
    }
  }

  lemma FlagAtRest(s: State)
    requires Quiescent(s) && s.pc == |s.prog|
    ensures s.complete
  {
    assert !Enabled(s, Finish);
  }

  /** A pipeline that has come to rest has issued and processed everything exactly once; its workers
      have exited or sleep in the pop, and at least one of them has exited. */
  lemma QuiescentMeansDone(prog: seq<Op>, n: nat, acts: seq<Action>, s: State)
    requires Reaches(prog, n, acts, s) && n >= 1 && Quiescent(s)
    ensures s.pc == |prog| && s.complete && s.q.items == [] && |s.workers| == n
    ensures forall t: nat :: t < n ==> s.workers[t].Exited? || t in s.q.asleep
    ensures exists t: nat :: t < n && s.workers[t].Exited?
    ensures multiset(s.completed) == multiset(Pushes(prog))
    ensures n == 1 ==> AllExited(s)
  {
    RestMeansIssued(prog, n, acts, s);
    InvReached(prog, n, acts, s);
    FlagAtRest(s);
    WorkersAtRest(s);
    NothingLeft(s);
    if n == 1 {
      OnlyOneExited(s);
    }
  }

  lemma OnlyOneExited(s: State)
    requires |s.workers| == 1 && exists t: nat :: t < |s.workers| && s.workers[t].Exited?
    ensures AllExited(s)
  {
  }

  // ---------------------------------------------------------------- work can always be finished

  lemma Extend(prog: seq<Op>, n: nat, acts: seq<Action>, s: State, a: Action)
    requires Reaches(prog, n, acts, s) && Enabled(s, a)
    ensures Reaches(prog, n, acts + [a], Apply(s, a))
  {
    assert (acts + [a])[..|acts|] == acts;
  }

  lemma Prepend(acts: seq<Action>, a: Action, rest: seq<Action>)
    requires Quiet(a) && AllQuiet(rest)
    ensures AllQuiet([a] + rest) && acts + [a] + rest == acts + ([a] + rest)
  {
  }

  lemma {:induction false} Drain(prog: seq<Op>, n: nat, acts: seq<Action>, s: State)
      returns (more: seq<Action>, end: State)
    requires Reaches(prog, n, acts, s) && Draining(s)
    ensures Reaches(prog, n, acts + more, end) && AllQuiet(more)
    ensures Draining(end) && Quiescent(end) && s.q.asleep <= end.q.asleep
    ensures AllOutside(s) ==> AllOutside(end)
    decreases Measure(s)
  {
    if Quiescent(s) {
      more, end := [], s;
      assert acts + more == acts;
    } else {
      var a :| Quiet(a) && Enabled(s, a);
      DrainStep(s, a);
      Extend(prog, n, acts, s, a);
      var rest;
      rest, end := Drain(prog, n, acts + [a], Apply(s, a));
      Prepend(acts, a, rest);
      more := [a] + rest;
    }
  }

  /** The step that brings the pipeline closer to its end. */
  ghost predicate Helps(s: State, s1: State) {
    || s1.pc == s.pc + 1
    || (s1.pc == s.pc && s1.complete && !s.complete)
    || (s1.pc == s.pc && s1.complete == s.complete && Measure(s1) < Measure(s))
  }

  lemma ProducerHelps(s: State, chosen: Tid)
    requires Enabled(s, Produce(chosen))
    requires Waits(s.prog[s.pc]) ==> |s.q.items| <= Limit(s.prog[s.pc])
    ensures Apply(s, Produce(chosen)).pc == s.pc + 1
  {
  }

  lemma WorkHelps(s: State, t: Tid)
    requires Enabled(s, Work(t)) && s.q.items != []
    ensures Helps(s, Apply(s, Work(t)))
  {
    WorkDecreases(s, t);
  }

  lemma HelpfulStep(s: State) returns (a: Action)
    requires Inv(s) && |s.workers| >= 1 && !Draining(s)
    ensures Quiet(a) && Enabled(s, a) && Helps(s, Apply(s, a))
  {
    if s.pc == |s.prog| {
      a := Finish;
    } else if Waits(s.prog[s.pc]) && |s.q.items| > Limit(s.prog[s.pc]) {
      var t := SomeWorkerAwake(s);
      a := Work(t);
      WorkHelps(s, t);
    } else {
      var chosen: Tid :| s.q.asleep == {} || chosen in s.q.asleep;
      a := Produce(chosen);
      ProducerHelps(s, chosen);
    }
  }

  lemma IssuedSoFar(prog: seq<Op>, n: nat, acts: seq<Action>, s: State)
    requires Reaches(prog, n, acts, s)
    ensures s.pc <= |prog|
  {
    InvReached(prog, n, acts, s);
  }

  lemma StepToRest(prog: seq<Op>, n: nat, acts: seq<Action>, s: State) returns (a: Action)
    requires Reaches(prog, n, acts, s) && n >= 1 && !Draining(s)
    ensures Quiet(a) && Enabled(s, a) && Helps(s, Apply(s, a))
    ensures Reaches(prog, n, acts + [a], Apply(s, a)) && s.pc <= |prog| && Apply(s, a).pc <= |prog|
  {
    InvReached(prog, n, acts, s);
    a := HelpfulStep(s);
    Extend(prog, n, acts, s, a);
    IssuedSoFar(prog, n, acts + [a], Apply(s, a));
  }

  lemma {:induction false} ComeToRest(prog: seq<Op>, n: nat, acts: seq<Action>, s: State)
      returns (more: seq<Action>, end: State)
    requires Reaches(prog, n, acts, s) && n >= 1
    ensures Reaches(prog, n, acts + more, end) && AllQuiet(more)
    ensures Draining(end) && Quiescent(end)
    decreases |prog| - s.pc, if s.complete then 0 else 1, Measure(s)
  {
    if Draining(s) {
      more, end := Drain(prog, n, acts, s);
    } else {
      var a := StepToRest(prog, n, acts, s);
      var rest;
      rest, end := ComeToRest(prog, n, acts + [a], Apply(s, a));
      Prepend(acts, a, rest);
      more := [a] + rest;
    }
  }

  /** From every reachable state, however the threads got there, some continuation completes
      everything the producer will ever push. */
  lemma CanAlwaysFinish(prog: seq<Op>, n: nat, acts: seq<Action>, s: State)
      returns (more: seq<Action>, end: State)
    requires Reaches(prog, n, acts, s) && n >= 1
    ensures Reaches(prog, n, acts + more, end) && AllQuiet(more)
    ensures Draining(end) && Quiescent(end)
    ensures multiset(end.completed) == multiset(Pushes(prog))
  {
    more, end := ComeToRest(prog, n, acts, s);
    InvReached(prog, n, acts + more, end);
    QuiescentMeansDone(prog, n, acts + more, end);
  }

  // ---------------------------------------------------------------- who exits

  /** Worker t has not gone past its own test before the pop, or has come back since. */
  ghost predicate Outside(s: State, t: Tid) {
    t < |s.workers| && !s.workers[t].Popping?
  }

  lemma OutsideStep(s: State, a: Action, t: Tid)
    requires Enabled(s, a) && Draining(s) && s.q.items == [] && t < |s.workers|
    ensures var s1 := Apply(s, a);
      Draining(s1) && s1.q.items == [] && |s1.workers| == |s.workers| && (Outside(s1, t) <==> Outside(s, t))
  {
    PhaseChanges(s, a, t);
    if a.Work? {
      MessageChanges(s, a);
    }
  }

  lemma {:induction false} OutsideRemains(s: State, acts: seq<Action>, s1: State, t: Tid)
    requires Draining(s) && s.q.items == [] && t < |s.workers| && Exec(s, acts) == Some(s1)
    ensures Draining(s1) && s1.q.items == [] && |s1.workers| == |s.workers|
    ensures Outside(s1, t) <==> Outside(s, t)
  {
    if acts != [] {
      var k := |acts| - 1;
      var before := Exec(s, acts[..k]).value;
      OutsideRemains(s, acts[..k], before, t);
      OutsideStep(before, acts[k], t);
    }
  }

  lemma ExecInv(s: State, acts: seq<Action>, s1: State)
    requires Inv(s) && Exec(s, acts) == Some(s1)
    ensures Inv(s1)
  {
    if acts != [] {
      var k := |acts| - 1;
      var before := Exec(s, acts[..k]).value;
      ExecInv(s, acts[..k], before);
      InvStep(before, acts[k]);
    }
  }

  /** Once a draining queue is empty it is settled who exits, whatever happens from then on, spurious
      wake-ups included: a worker outside the pop never sleeps again and has exited when the pipeline
      rests; a worker in the pop never leaves it, and sleeps there at rest. */
  lemma ExitSettled(s: State, acts: seq<Action>, s1: State, t: Tid)
    requires Inv(s) && Draining(s) && s.q.items == [] && t < |s.workers| && Exec(s, acts) == Some(s1)
    ensures |s1.workers| == |s.workers|
    ensures Outside(s, t) ==> t !in s1.q.asleep && (Quiescent(s1) ==> s1.workers[t].Exited?)
    ensures !Outside(s, t) ==> s1.workers[t].Popping? && (Quiescent(s1) ==> t in s1.q.asleep)
  {
    OutsideRemains(s, acts, s1, t);
    ExecInv(s, acts, s1);
    if Quiescent(s1) {
      WorkerAtRest(s1, t);
    }
  }

  // ---------------------------------------------------------------- runs to quote

  /** The first `k` operations issued, the first workers in phases `w`, the others at the top of
      their loop. */
  ghost function At(prog: seq<Op>, n: nat, k: nat, w: seq<Phase>, q: Monitor<Message>,
                    popped: seq<Message>, completed: seq<Message>): State
    requires k <= |prog| && |w| <= n
  {
    State(prog, k, Progress(prog[..k]), false, q, w + seq(n - |w|, i => LoopFlag),
          Pushes(prog[..k]), popped, completed)
  }

  /** Everything pushed by the first `k` operations is completed, and nobody waits. */
  ghost function Served(prog: seq<Op>, n: nat, k: nat): State
    requires k <= |prog| && n >= 1
  {
    At(prog, n, k, [LoopFlag], NewMonitor(), Pushes(prog[..k]), Pushes(prog[..k]))
  }

  /** Worker 0 in phase `p`, the next `j` workers in the pop. */
  ghost function Poppers(p: Phase, j: nat): (w: seq<Phase>)
    ensures |w| == j + 1
  {
    [p] + seq(j, i => Popping)
  }

  /** Workers 1 to j. */
  ghost function Sleepers(j: nat): set<Tid> {
    if j == 0 then {} else Sleepers(j - 1) + {j}
  }

  lemma {:induction false} InSleepers(j: nat, t: Tid)
    ensures t in Sleepers(j) <==> 1 <= t <= j
  {
    if j > 0 {
      InSleepers(j - 1, t);
    }
  }

  /** As Served, but all workers except worker 0 found the queue empty only after they had entered
      the pop. */
  ghost function Stranded(prog: seq<Op>, n: nat, k: nat): State
    requires k <= |prog| && n >= 1
  {
    At(prog, n, k, Poppers(LoopFlag, n - 1), NewMonitor().(asleep := Sleepers(n - 1)),
       Pushes(prog[..k]), Pushes(prog[..k]))
  }

  // Single steps of worker t before processingComplete is set.

  lemma UpdatePhase(w: seq<Phase>, n: nat, t: Tid, p: Phase)
    requires t < |w| <= n
    ensures (w + seq(n - |w|, i => LoopFlag))[t := p] == w[t := p] + seq(n - |w|, i => LoopFlag)
  {
  }

  lemma LookInside(prog: seq<Op>, n: nat, k: nat, w: seq<Phase>, q: Monitor<Message>,
                   popped: seq<Message>, completed: seq<Message>, acts: seq<Action>, t: Tid)
    requires k <= |prog| && t < |w| <= n && t !in q.asleep && w[t].LoopFlag?
    requires Reaches(prog, n, acts, At(prog, n, k, w, q, popped, completed))
    ensures Reaches(prog, n, acts + [Work(t)], At(prog, n, k, w[t := InnerEmpty], q, popped, completed))
  {
    UpdatePhase(w, n, t, InnerEmpty);
    Extend(prog, n, acts, At(prog, n, k, w, q, popped, completed), Work(t));
  }

  lemma EnterWait(prog: seq<Op>, n: nat, k: nat, w: seq<Phase>, q: Monitor<Message>,
                  popped: seq<Message>, completed: seq<Message>, acts: seq<Action>, t: Tid)
    requires k <= |prog| && t < |w| <= n && t !in q.asleep && w[t].InnerEmpty? && q.items != []
    requires Reaches(prog, n, acts, At(prog, n, k, w, q, popped, completed))
    ensures Reaches(prog, n, acts + [Work(t)], At(prog, n, k, w[t := Popping], q, popped, completed))
  {
    UpdatePhase(w, n, t, Popping);
    Extend(prog, n, acts, At(prog, n, k, w, q, popped, completed), Work(t));
  }

  lemma TakeFront(prog: seq<Op>, n: nat, k: nat, w: seq<Phase>, q: Monitor<Message>,
                  popped: seq<Message>, completed: seq<Message>, acts: seq<Action>, t: Tid)
    requires k <= |prog| && t < |w| <= n && t !in q.asleep && w[t].Popping? && q.items != []
    requires Reaches(prog, n, acts, At(prog, n, k, w, q, popped, completed))
    ensures var m := q.items[0];
      Reaches(prog, n, acts + [Work(t)],
              At(prog, n, k, w[t := Holding(m)], PopSection(q, t).0, popped + [m], completed))
  {
    UpdatePhase(w, n, t, Holding(q.items[0]));
    Extend(prog, n, acts, At(prog, n, k, w, q, popped, completed), Work(t));
  }

  lemma FallAsleep(prog: seq<Op>, n: nat, k: nat, w: seq<Phase>, q: Monitor<Message>,
                   popped: seq<Message>, completed: seq<Message>, acts: seq<Action>, t: Tid)
    requires k <= |prog| && t < |w| <= n && t !in q.asleep && w[t].Popping? && q.items == []
    requires Reaches(prog, n, acts, At(prog, n, k, w, q, popped, completed))
    ensures Reaches(prog, n, acts + [Work(t)], At(prog, n, k, w, PopSection(q, t).0, popped, completed))
  {
    Extend(prog, n, acts, At(prog, n, k, w, q, popped, completed), Work(t));
  }

  lemma Complete(prog: seq<Op>, n: nat, k: nat, w: seq<Phase>, q: Monitor<Message>,
                 popped: seq<Message>, completed: seq<Message>, acts: seq<Action>, t: Tid)
    requires k <= |prog| && t < |w| <= n && t !in q.asleep && w[t].Holding?
    requires Reaches(prog, n, acts, At(prog, n, k, w, q, popped, completed))
    ensures Reaches(prog, n, acts + [Work(t)], At(prog, n, k, w[t := LoopFlag], q, popped, completed + [w[t].m]))
  {
    UpdatePhase(w, n, t, LoopFlag);
    Extend(prog, n, acts, At(prog, n, k, w, q, popped, completed), Work(t));
  }

  /** One operation of the producer that neither wakes nor waits. */
  lemma Issue(prog: seq<Op>, n: nat, k: nat, w: seq<Phase>, q: Monitor<Message>,
              popped: seq<Message>, completed: seq<Message>, acts: seq<Action>)
    requires k < |prog| && |w| <= n
    requires Reaches(prog, n, acts, At(prog, n, k, w, q, popped, completed))
    requires q.emptyWait.NotWaiting? && (prog[k].Push? ==> q.asleep == {})
    requires Waits(prog[k]) ==> |q.items| <= Limit(prog[k])
    ensures var q1 := if prog[k].Push? then q.(items := q.items + [prog[k].m]) else q;
      Reaches(prog, n, acts + [Produce(0)], At(prog, n, k + 1, w, q1, popped, completed))
  {
    ProgramNext(prog, k);
    assert !prog[k].Push? ==> Pushes(prog[..k + 1]) == Pushes(prog[..k]);
    Extend(prog, n, acts, At(prog, n, k, w, q, popped, completed), Produce(0));
  }

  /** A worker goes from the top of its loop into the pop. */
  lemma GoPop(prog: seq<Op>, n: nat, k: nat, w: seq<Phase>, q: Monitor<Message>, popped: seq<Message>,
              completed: seq<Message>, acts: seq<Action>, t: Tid) returns (acts1: seq<Action>)
    requires k <= |prog| && t < |w| <= n && t !in q.asleep && w[t].LoopFlag? && q.items != []
    requires Reaches(prog, n, acts, At(prog, n, k, w, q, popped, completed))
    ensures Reaches(prog, n, acts1, At(prog, n, k, w[t := Popping], q, popped, completed))
  {
    LookInside(prog, n, k, w, q, popped, completed, acts, t);
    EnterWait(prog, n, k, w[t := InnerEmpty], q, popped, completed, acts + [Work(t)], t);
    acts1 := acts + [Work(t)] + [Work(t)];
    assert w[t := InnerEmpty][t := Popping] == w[t := Popping];
  }

  lemma PopOne(prog: seq<Op>, n: nat, k: nat, w: seq<Phase>, q: Monitor<Message>, popped: seq<Message>,
               completed: seq<Message>, acts: seq<Action>, m: Message) returns (acts1: seq<Action>)
    requires k <= |prog| && 1 <= |w| <= n && w[0].LoopFlag?
    requires q == NewMonitor().(items := [m])
    requires Reaches(prog, n, acts, At(prog, n, k, w, q, popped, completed))
    ensures Reaches(prog, n, acts1, At(prog, n, k, w[0 := Holding(m)], NewMonitor(), popped + [m], completed))
  {
    acts1 := GoPop(prog, n, k, w, q, popped, completed, acts, 0);
    TakeFront(prog, n, k, w[0 := Popping], q, popped, completed, acts1, 0);
    acts1 := acts1 + [Work(0)];
    assert w[0 := Popping][0 := Holding(m)] == w[0 := Holding(m)];
    assert PopSection(q, 0).0 == NewMonitor();
  }

  /** Worker 0 alone serves the message just pushed. */
  lemma ServeOne(prog: seq<Op>, n: nat, k: nat, m: Message, ms: seq<Message>, acts: seq<Action>)
      returns (acts1: seq<Action>)
    requires k <= |prog| && n >= 1
    requires Reaches(prog, n, acts, At(prog, n, k, [LoopFlag], NewMonitor().(items := [m]), ms, ms))
    ensures Reaches(prog, n, acts1, At(prog, n, k, [LoopFlag], NewMonitor(), ms + [m], ms + [m]))
  {
    acts1 := PopOne(prog, n, k, [LoopFlag], NewMonitor().(items := [m]), ms, ms, acts, m);
    assert [LoopFlag][0 := Holding(m)] == [Holding(m)];
    Complete(prog, n, k, [Holding(m)], NewMonitor(), ms + [m], ms, acts1, 0);
    acts1 := acts1 + [Work(0)];
    assert [Holding(m)][0 := LoopFlag] == [LoopFlag];
  }

  lemma ServeNext(prog: seq<Op>, n: nat, k: nat, acts: seq<Action>) returns (acts1: seq<Action>)
    requires n >= 1 && k < |prog| && Reaches(prog, n, acts, Served(prog, n, k))
    ensures Reaches(prog, n, acts1, Served(prog, n, k + 1))
  {
    var ms, q := Pushes(prog[..k]), NewMonitor();
    ProgramNext(prog, k);
    Issue(prog, n, k, [LoopFlag], q, ms, ms, acts);
    acts1 := acts + [Produce(0)];
    if prog[k].Push? {
      assert [] + [prog[k].m] == [prog[k].m];
      acts1 := ServeOne(prog, n, k + 1, prog[k].m, ms, acts1);
    }
  }

  lemma {:induction false} ServeAll(prog: seq<Op>, n: nat, k: nat) returns (acts: seq<Action>)
    requires n >= 1 && k <= |prog|
    ensures Reaches(prog, n, acts, Served(prog, n, k))
  {
    if k == 0 {
      acts := [];
      assert prog[..0] == [];
      assert Init(prog, n) == Served(prog, n, k);
    } else {
      acts := ServeAll(prog, n, k - 1);
      acts := ServeNext(prog, n, k - 1, acts);
    }
  }

  // ---------------------------------------------------------------- every worker may be joined

  /** Setting processingComplete and running on until nothing moves. */
  lemma FinishAndDrain(prog: seq<Op>, n: nat, acts: seq<Action>, s: State) returns (acts1: seq<Action>, end: State)
    requires Reaches(prog, n, acts, s) && s.prog == prog && s.pc == |prog| && !s.complete
    ensures Reaches(prog, n, acts1, end) && Quiescent(end) && end.pc == |end.prog|
    ensures s.q.asleep <= end.q.asleep && (AllOutside(s) ==> AllOutside(end))
  {
    Extend(prog, n, acts, s, Finish);
    var more;
    more, end := Drain(prog, n, acts + [Finish], Apply(s, Finish));
    acts1 := acts + [Finish] + more;
  }

  /** Any number of workers can serve any program and then all exit. */
  lemma JoinMayReturn(prog: seq<Op>, n: nat) returns (acts: seq<Action>, s: State)
    requires n >= 1
    ensures Reaches(prog, n, acts, s) && s.pc == |prog| && Quiescent(s) && AllExited(s)
  {
    acts := ServeAll(prog, n, |prog|);
    acts, s := FinishAndDrain(prog, n, acts, Served(prog, n, |prog|));
    QuiescentMeansDone(prog, n, acts, s);
    InvReached(prog, n, acts, s);
  }

  // ---------------------------------------------------------------- all workers but one may be lost

  lemma OneMorePopper(n: nat, j: nat)
    requires j + 1 < n
    ensures var w := Poppers(LoopFlag, j) + [LoopFlag];
      && w + seq(n - |w|, i => LoopFlag) == Poppers(LoopFlag, j) + seq(n - j - 1, i => LoopFlag)
      && |w| == j + 2 && w[j + 1] == LoopFlag && w[j + 1 := Popping] == Poppers(LoopFlag, j + 1)
  {
  }

  /** Message m is queued, and workers 1 to j are about to pop it. */
  ghost function Contended(prog: seq<Op>, n: nat, k: nat, j: nat, m: Message, ms: seq<Message>): State
    requires k <= |prog| && j < n
  {
    At(prog, n, k, Poppers(LoopFlag, j), NewMonitor().(items := [m]), ms, ms)
  }

  /** One more worker sees the queued message and enters the pop. */
  lemma EnterPop(prog: seq<Op>, n: nat, k: nat, j: nat, m: Message, ms: seq<Message>, acts: seq<Action>)
      returns (acts1: seq<Action>)
    requires k <= |prog| && j + 1 < n
    requires Reaches(prog, n, acts, Contended(prog, n, k, j, m, ms))
    ensures Reaches(prog, n, acts1, Contended(prog, n, k, j + 1, m, ms))
  {
    OneMorePopper(n, j);
    acts1 := GoPop(prog, n, k, Poppers(LoopFlag, j) + [LoopFlag], NewMonitor().(items := [m]), ms, ms, acts, j + 1);
  }

  lemma {:induction false} EnterAll(prog: seq<Op>, n: nat, k: nat, j: nat, m: Message, ms: seq<Message>,
                                    acts: seq<Action>) returns (acts1: seq<Action>)
    requires k <= |prog| && j < n
    requires Reaches(prog, n, acts, Contended(prog, n, k, 0, m, ms))
    ensures Reaches(prog, n, acts1, Contended(prog, n, k, j, m, ms))
  {
    if j == 0 {
      acts1 := acts;
    } else {
      var acts0 := EnterAll(prog, n, k, j - 1, m, ms, acts);
      acts1 := EnterPop(prog, n, k, j - 1, m, ms, acts0);
    }
  }

  /** While worker 0 holds the message, workers 1 to j find the queue empty. */
  lemma {:induction false} SleepAll(prog: seq<Op>, n: nat, k: nat, j: nat, m: Message, ms: seq<Message>,
                                    acts: seq<Action>) returns (acts1: seq<Action>)
    requires k <= |prog| && j < n
    requires Reaches(prog, n, acts, At(prog, n, k, Poppers(Holding(m), n - 1), NewMonitor(), ms + [m], ms))
    ensures Reaches(prog, n, acts1,
                    At(prog, n, k, Poppers(Holding(m), n - 1), NewMonitor().(asleep := Sleepers(j)), ms + [m], ms))
  {
    if j == 0 {
      acts1 := acts;
    } else {
      var q := NewMonitor<Message>().(asleep := Sleepers(j - 1));
      acts1 := SleepAll(prog, n, k, j - 1, m, ms, acts);
      InSleepers(j - 1, j);
      FallAsleep(prog, n, k, Poppers(Holding(m), n - 1), q, ms + [m], ms, acts1, j);
      acts1 := acts1 + [Work(j)];
      assert PopSection(q, j).0 == q.(asleep := Sleepers(j));
    }
  }

  /** All workers see the one queued message, and worker 0 pops it. */
  lemma TakeAway(prog: seq<Op>, n: nat, k: nat, m: Message, ms: seq<Message>, acts: seq<Action>)
      returns (acts1: seq<Action>)
    requires k <= |prog| && n >= 1
    requires Reaches(prog, n, acts, At(prog, n, k, [LoopFlag], NewMonitor().(items := [m]), ms, ms))
    ensures Reaches(prog, n, acts1, At(prog, n, k, Poppers(Holding(m), n - 1), NewMonitor(), ms + [m], ms))
  {
    assert Poppers(LoopFlag, 0) == [LoopFlag];
    acts1 := EnterAll(prog, n, k, n - 1, m, ms, acts);
    acts1 := PopOne(prog, n, k, Poppers(LoopFlag, n - 1), NewMonitor().(items := [m]), ms, ms, acts1, m);
    assert Poppers(LoopFlag, n - 1)[0 := Holding(m)] == Poppers(Holding(m), n - 1);
  }

  /** One more push, and everybody but worker 0 is stranded. */
  lemma Strand(prog: seq<Op>, n: nat, k: nat, acts: seq<Action>) returns (acts1: seq<Action>)
    requires n >= 1 && k < |prog| && prog[k].Push?
    requires Reaches(prog, n, acts, Served(prog, n, k))
    ensures Reaches(prog, n, acts1, Stranded(prog, n, k + 1))
  {
    var ms, m := Pushes(prog[..k]), prog[k].m;
    ProgramNext(prog, k);
    assert [] + [m] == [m];
    Issue(prog, n, k, [LoopFlag], NewMonitor(), ms, ms, acts);
    acts1 := TakeAway(prog, n, k + 1, m, ms, acts + [Produce(0)]);
    acts1 := LeaveThem(prog, n, k + 1, m, ms, acts1);
  }

  /** The others go to sleep, and worker 0 completes the message. */
  lemma LeaveThem(prog: seq<Op>, n: nat, k: nat, m: Message, ms: seq<Message>, acts: seq<Action>)
      returns (acts1: seq<Action>)
    requires k <= |prog| && n >= 1 && Pushes(prog[..k]) == ms + [m]
    requires Reaches(prog, n, acts, At(prog, n, k, Poppers(Holding(m), n - 1), NewMonitor(), ms + [m], ms))
    ensures Reaches(prog, n, acts1, Stranded(prog, n, k))
  {
    acts1 := SleepAll(prog, n, k, n - 1, m, ms, acts);
    var q := NewMonitor<Message>().(asleep := Sleepers(n - 1));
    InSleepers(n - 1, 0);
    Complete(prog, n, k, Poppers(Holding(m), n - 1), q, ms + [m], ms, acts1, 0);
    acts1 := acts1 + [Work(0)];
    assert Poppers(Holding(m), n - 1)[0 := LoopFlag] == Poppers(LoopFlag, n - 1);
  }

  /** With no further pushes, nobody ever wakes them. */
  lemma {:induction false} StaysStranded(prog: seq<Op>, n: nat, j: nat, k: nat, acts: seq<Action>)
      returns (acts1: seq<Action>)
    requires n >= 1 && j <= k <= |prog| && (forall i :: j <= i < k ==> !prog[i].Push?)
    requires Reaches(prog, n, acts, Stranded(prog, n, j))
    ensures Reaches(prog, n, acts1, Stranded(prog, n, k))
  {
    if j == k {
      acts1 := acts;
    } else {
      acts1 := StaysStranded(prog, n, j, k - 1, acts);
      StrandedNext(prog, n, k - 1, acts1);
      acts1 := acts1 + [Produce(0)];
    }
  }

  lemma StrandedNext(prog: seq<Op>, n: nat, k: nat, acts: seq<Action>)
    requires n >= 1 && k < |prog| && !prog[k].Push?
    requires Reaches(prog, n, acts, Stranded(prog, n, k))
    ensures Reaches(prog, n, acts + [Produce(0)], Stranded(prog, n, k + 1))
  {
    ProgramNext(prog, k);
    var ms, q := Pushes(prog[..k]), NewMonitor<Message>().(asleep := Sleepers(n - 1));
    Issue(prog, n, k, Poppers(LoopFlag, n - 1), q, ms, ms, acts);
  }

  lemma {:induction false} LastPush(prog: seq<Op>) returns (k: nat)
    requires Pushes(prog) != []
    ensures k < |prog| && prog[k].Push? && forall i :: k < i < |prog| ==> !prog[i].Push?
  {
    k := |prog| - 1;
    if !prog[k].Push? {
      k := LastPush(prog[..k]);
    }
  }

  lemma StrandAll(prog: seq<Op>, n: nat) returns (acts: seq<Action>)
    requires n >= 1 && Pushes(prog) != []
    ensures Reaches(prog, n, acts, Stranded(prog, n, |prog|))
  {
    var k := LastPush(prog);
    acts := ServeAll(prog, n, k);
    acts := Strand(prog, n, k, acts);
    acts := StaysStranded(prog, n, k + 1, |prog|, acts);
  }

  /** As soon as there is any work, all workers but one can be lost for good. One always exits
      (QuiescentMeansDone), so there is no worse run. */
  lemma JoinMayHang(prog: seq<Op>, n: nat) returns (acts: seq<Action>, s: State)
    requires n >= 1 && Pushes(prog) != []
    ensures Reaches(prog, n, acts, s) && s.pc == |prog| && Quiescent(s) && |s.workers| == n
    ensures forall t: nat :: 1 <= t < n ==> t in s.q.asleep && !s.workers[t].Exited?
  {
    acts := StrandAll(prog, n);
    acts, s := FinishAndDrain(prog, n, acts, Stranded(prog, n, |prog|));
    InvReached(prog, n, acts, s);
    forall t: nat | 1 <= t < n ensures t in s.q.asleep {
      InSleepers(n - 1, t);
    }
  }

  // ---------------------------------------------------------------- without workers

  /** A wait that only a worker could end. */
  ghost predicate Blocks(prog: seq<Op>, k: nat) {
    k < |prog| && Waits(prog[k]) && |Pushes(prog[..k])| > Limit(prog[k])
  }

  ghost function Alone(prog: seq<Op>, k: nat): State
    requires k <= |prog|
  {
    At(prog, 0, k, [], NewMonitor().(items := Pushes(prog[..k])), [], [])
  }

  lemma {:induction false} ProduceAlone(prog: seq<Op>, k: nat) returns (acts: seq<Action>)
    requires k <= |prog| && forall i: nat :: i < k ==> !Blocks(prog, i)
    ensures Reaches(prog, 0, acts, Alone(prog, k))
  {
    if k == 0 {
      acts := [];
      assert prog[..0] == [];
      assert Init(prog, 0) == Alone(prog, 0);
    } else {
      acts := ProduceAlone(prog, k - 1);
      AloneNext(prog, k - 1, acts);
      acts := acts + [Produce(0)];
    }
  }

  lemma AloneNext(prog: seq<Op>, k: nat, acts: seq<Action>)
    requires k < |prog| && !Blocks(prog, k) && Reaches(prog, 0, acts, Alone(prog, k))
    ensures Reaches(prog, 0, acts + [Produce(0)], Alone(prog, k + 1))
  {
    ProgramNext(prog, k);
    Issue(prog, 0, k, [], NewMonitor().(items := Pushes(prog[..k])), [], [], acts);
    assert !prog[k].Push? ==> Pushes(prog[..k + 1]) == Pushes(prog[..k]);
  }

  lemma {:induction false} FirstBlock(prog: seq<Op>, k: nat) returns (j: nat)
    requires Blocks(prog, k)
    ensures Blocks(prog, j) && forall i: nat :: i < j ==> !Blocks(prog, i)
  {
    if i: nat :| i < k && Blocks(prog, i) {
      j := FirstBlock(prog, i);
    } else {
      j := k;
    }
  }

  lemma HangsAlone(prog: seq<Op>, k: nat) returns (acts: seq<Action>, s: State)
    requires Blocks(prog, k)
    ensures Reaches(prog, 0, acts, s) && Quiescent(s) && s.pc < |prog|
  {
    var j := FirstBlock(prog, k);
    acts := ProduceAlone(prog, j);
    Extend(prog, 0, acts, Alone(prog, j), Produce(0));
    acts, s := acts + [Produce(0)], Apply(Alone(prog, j), Produce(0));
  }

  lemma {:induction false} NobodyWorks(prog: seq<Op>, acts: seq<Action>, s: State)
    requires Reaches(prog, 0, acts, s)
    ensures s.popped == []
  {
    InvReached(prog, 0, acts, s);
    if acts != [] {
      var before := Exec(Init(prog, 0), acts[..|acts| - 1]).value;
      InvReached(prog, 0, acts[..|acts| - 1], before);
      NobodyWorks(prog, acts[..|acts| - 1], before);
    }
  }

  lemma ProducerMoves(s: State)
    requires Inv(s) && s.workers == [] && s.popped == [] && s.pc < |s.prog| && !Blocks(s.prog, s.pc)
    ensures Enabled(s, Produce(0))
  {
    assert s.q.items == s.pushed;
  }

  lemma RestAlone(prog: seq<Op>, acts: seq<Action>, s: State)
    requires Reaches(prog, 0, acts, s) && Quiescent(s) && (forall k: nat :: !Blocks(prog, k))
    ensures s.pc == |prog| && AllExited(s)
  {
    InvReached(prog, 0, acts, s);
    NobodyWorks(prog, acts, s);
    if s.pc < |prog| {
      ProducerMoves(s);
    }
  }

  // ---------------------------------------------------------------- when join returns

  /** Whenever the pipeline comes to rest, the producer has returned and every worker is joined.
      That it does come to rest under a fair scheduler is shown in Liveness.dfy. */
  ghost predicate JoinReturns(prog: seq<Op>, n: nat) {
    forall acts, s :: Reaches(prog, n, acts, s) && Quiescent(s) ==> s.pc == |prog| && AllExited(s)
  }

  lemma {:induction false} NobodyPops(prog: seq<Op>, n: nat, acts: seq<Action>, s: State)
    requires Reaches(prog, n, acts, s) && Pushes(prog) == []
    ensures forall t: nat :: t < |s.workers| ==> !s.workers[t].Popping?
    ensures s.q.items == []
  {
    FifoReached(prog, n, acts, s);
    if acts != [] {
      var k := |acts| - 1;
      var before := Exec(Init(prog, n), acts[..k]).value;
      NobodyPops(prog, n, acts[..k], before);
    }
  }

  lemma NothingBlocks(prog: seq<Op>, k: nat)
    requires Pushes(prog) == []
    ensures !Blocks(prog, k)
  {
    if k < |prog| {
      PushesPrefix(prog, k);
    }
  }

  lemma ReturnsAlone(prog: seq<Op>)
    ensures JoinReturns(prog, 0) <==> forall k: nat :: !Blocks(prog, k)
  {
    if k: nat :| Blocks(prog, k) {
      var acts, s := HangsAlone(prog, k);
    } else {
      forall acts, s | Reaches(prog, 0, acts, s) && Quiescent(s) ensures s.pc == |prog| && AllExited(s) {
        RestAlone(prog, acts, s);
      }
    }
  }

  lemma ReturnsWithWorkers(prog: seq<Op>, n: nat)
    requires n >= 1
    ensures JoinReturns(prog, n) <==> n == 1 || Pushes(prog) == []
  {
    if n >= 2 && Pushes(prog) != [] {
      var acts, s := JoinMayHang(prog, n);
      assert !s.workers[1].Exited?;
    } else {
      forall acts, s | Reaches(prog, n, acts, s) && Quiescent(s) ensures s.pc == |prog| && AllExited(s) {
        InvReached(prog, n, acts, s);
        QuiescentMeansDone(prog, n, acts, s);
        if Pushes(prog) == [] {
          NobodyPops(prog, n, acts, s);
        }
      }
    }
  }

  /** Shutdown is safe exactly with one worker, with nothing to do, or without workers when the
      producer never has to wait for one. */
  lemma JoinReturnsExactly(prog: seq<Op>, n: nat)
    ensures JoinReturns(prog, n) <==>
      n == 1 || Pushes(prog) == [] || (n == 0 && forall k: nat :: !Blocks(prog, k))
  {
    if n == 0 {
      ReturnsAlone(prog);
      if Pushes(prog) == [] {
        forall k: nat ensures !Blocks(prog, k) {
          NothingBlocks(prog, k);
        }
      }
    } else {
      ReturnsWithWorkers(prog, n);
    }
  }

  /** Without workers a phase waits for the queue to drain after its last push. */
  lemma PhaseBlocks(cfg: Config, mode: Mode, start: nat, counts: seq<nat>) returns (k: nat)
    requires cfg.threads == 0 && counts != [] && Pushes(Program(cfg, mode, start, counts)) != []
    ensures Blocks(Program(cfg, mode, start, counts), k)
  {
    var tail := MinuteTail(cfg, mode, start + 60 * (|counts| - 1));
    var before := ProgramBeforeTail(cfg, mode, start, counts);
    k := |before|;
    MinuteTailPushes(cfg, mode, start + 60 * (|counts| - 1));
    TailBlocks(before, tail);
  }

  lemma ProgramBeforeTail(cfg: Config, mode: Mode, start: nat, counts: seq<nat>) returns (before: seq<Op>)
    requires counts != []
    ensures Program(cfg, mode, start, counts) == before + MinuteTail(cfg, mode, start + 60 * (|counts| - 1))
  {
    var k := |counts| - 1;
    var first := [SetProgress(if mode.Prepare? then 0 else start)];
    var early, ops := Minutes(cfg, mode, start, counts[..k]), DeviceOps(cfg, mode, start + 60 * k, counts[k]);
    before := first + (early + ops);
    Reassociate(first, early, ops, MinuteTail(cfg, mode, start + 60 * k));
  }

  lemma Reassociate(a: seq<Op>, b: seq<Op>, c: seq<Op>, d: seq<Op>)
    ensures a + (b + (c + d)) == (a + (b + c)) + d
  {
  }

  lemma TailBlocks(before: seq<Op>, tail: seq<Op>)
    requires tail != [] && Waits(tail[0]) && Limit(tail[0]) == 0 && Pushes(tail) == []
    requires Pushes(before + tail) != []
    ensures Blocks(before + tail, |before|)
  {
    PushesConcat(before, tail);
    assert (before + tail)[..|before|] == before;
  }

  /** For the program's own phases: exactly with one worker, or with nothing to push. */
  lemma PhaseJoinReturnsExactly(cfg: Config, mode: Mode, start: nat, counts: seq<nat>)
    requires Fits(start, |counts|)
    ensures JoinReturns(Program(cfg, mode, start, counts), cfg.threads) <==>
      cfg.threads == 1 || Sum(counts) * cfg.tables == 0
  {
    var prog := Program(cfg, mode, start, counts);
    JoinReturnsExactly(prog, cfg.threads);
    PhaseMessages(cfg, mode, start, counts);
    if cfg.threads == 0 && Pushes(prog) != [] {
      var k := PhaseBlocks(cfg, mode, start, counts);
    }
  }
}
