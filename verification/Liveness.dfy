/**
 What the pipeline achieves under a fair scheduler, from the first step on.  A worker may poll an
 empty queue any number of times; everything else it does, and everything the other threads do, is
 bounded linearly, so no fair run goes on forever: it comes to rest, with all work done.
 */
module Liveness {
  import opened Messages
  import opened Preparer
  import opened TsQueue
  import opened Protocol
  import opened Pipeline
  import opened Join

  /** A worker going round its loop because there is nothing to do yet. */
  ghost predicate IdlePoll(s: State, a: Action) {
    && a.Work? && a.t < |s.workers|
    && ((s.workers[a.t].LoopFlag? && !s.complete) || (s.workers[a.t].InnerEmpty? && s.q.items == []))
  }

  // ---------------------------------------------------------------- the potential

  /** Before completion; while the rest is processed; when nothing is queued any more. */
  datatype Stage = Open | Emptying | Empty

  function StageOf(s: State): Stage {
    if !s.complete then Open else if s.q.items != [] then Emptying else Empty
  }

  /** What a worker can still do without taking an item, polling aside. */
  function Effort(st: Stage, p: Phase, asleep: bool): nat {
    if asleep then 0 else
    match p
    case Exited => 0
    case Popping => 1
    case InnerEmpty => 2
    case LoopEmpty => if st.Emptying? then 3 else 1
    case LoopFlag => if st.Emptying? then 4 else 2
    case Holding(_) => if st.Emptying? then 5 else 3
  }

  function EffortUpTo(st: Stage, workers: seq<Phase>, asleep: set<Tid>, k: nat): nat
    requires k <= |workers|
  {
    if k == 0 then 0 else EffortUpTo(st, workers, asleep, k - 1) + Effort(st, workers[k - 1], k - 1 in asleep)
  }

  function Efforts(s: State): nat {
    EffortUpTo(StageOf(s), s.workers, s.q.asleep, |s.workers|)
  }

  function WaitEffort(w: EmptyWait): nat {
    if w.Sleeping? then 0 else 1
  }

  /** Pays for the efforts that grow when a stage begins. */
  function Reserve(st: Stage, n: nat): nat {
    match st
    case Open => 10 * n + 1
    case Emptying => 5 * n
    case Empty => 0
  }

  function Potential(s: State): nat {
    8 * Unissued(s) + 6 * |s.q.items| + WaitEffort(s.q.emptyWait)
    + Reserve(StageOf(s), |s.workers|) + Efforts(s)
  }

  function Unissued(s: State): nat {
    if s.pc <= |s.prog| then |s.prog| - s.pc else 0
  }

  lemma {:induction false} EffortBound(st: Stage, workers: seq<Phase>, asleep: set<Tid>, k: nat)
    requires k <= |workers|
    ensures EffortUpTo(st, workers, asleep, k) <= if st.Emptying? then 5 * k else 3 * k
  {
    if k > 0 {
      EffortBound(st, workers, asleep, k - 1);
    }
  }

  /** Only worker t changes. */
  lemma {:induction false} EffortChange(st: Stage, w: seq<Phase>, a: set<Tid>, w1: seq<Phase>, a1: set<Tid>,
                                        t: Tid, k: nat)
    requires k <= |w| == |w1| && t < |w|
    requires forall u: nat :: u < |w| && u != t ==> w[u] == w1[u] && (u in a <==> u in a1)
    ensures EffortUpTo(st, w1, a1, k) + (if t < k then Effort(st, w[t], t in a) else 0)
         == EffortUpTo(st, w, a, k) + (if t < k then Effort(st, w1[t], t in a1) else 0)
  {
    if k > 0 {
      EffortChange(st, w, a, w1, a1, t, k - 1);
    }
  }

  // ---------------------------------------------------------------- every step pays

  lemma PushPays(s: State, chosen: Tid)
    requires Inv(s) && Enabled(s, Produce(chosen)) && s.prog[s.pc].Push?
    ensures Potential(ProducerStep(s, chosen)) < Potential(s)
  {
    var s1 := ProducerStep(s, chosen);
    if s.q.asleep != {} {
      EffortChange(Open, s.workers, s.q.asleep, s1.workers, s1.q.asleep, chosen, |s.workers|);
    }
  }

  lemma WaitPays(s: State, chosen: Tid)
    requires Inv(s) && Enabled(s, Produce(chosen)) && Waits(s.prog[s.pc])
    ensures Potential(ProducerStep(s, chosen)) < Potential(s)
  {
    assert Efforts(ProducerStep(s, chosen)) == Efforts(s);
  }

  lemma CountPays(s: State, chosen: Tid)
    requires Enabled(s, Produce(chosen)) && !s.prog[s.pc].Push? && !Waits(s.prog[s.pc])
    ensures Potential(ProducerStep(s, chosen)) < Potential(s)
  {
    assert Efforts(ProducerStep(s, chosen)) == Efforts(s);
  }

  lemma ProducePays(s: State, chosen: Tid)
    requires Inv(s) && Enabled(s, Produce(chosen))
    ensures Potential(ProducerStep(s, chosen)) < Potential(s)
  {
    if s.prog[s.pc].Push? {
      PushPays(s, chosen);
    } else if Waits(s.prog[s.pc]) {
      WaitPays(s, chosen);
    } else {
      CountPays(s, chosen);
    }
  }

  lemma FinishPays(s: State)
    requires Inv(s) && Enabled(s, Finish)
    ensures Potential(Apply(s, Finish)) < Potential(s)
  {
    var s1 := Apply(s, Finish);
    EffortBound(StageOf(s1), s1.workers, s1.q.asleep, |s1.workers|);
  }

  lemma TakePays(s: State, t: Tid)
    requires Inv(s) && Enabled(s, Work(t)) && s.workers[t].Popping? && s.q.items != []
    ensures Potential(WorkerStep(s, t)) < Potential(s)
  {
    var s1 := WorkerStep(s, t);
    if StageOf(s1) == StageOf(s) {
      EffortChange(StageOf(s), s.workers, s.q.asleep, s1.workers, s1.q.asleep, t, |s.workers|);
    } else {
      EffortBound(StageOf(s1), s1.workers, s1.q.asleep, |s1.workers|);
    }
  }

  /** Only worker t changes, and nothing else that counts. */
  lemma OneWorker(s: State, s1: State, t: Tid)
    requires s.pc == s1.pc && s1.prog == s.prog && t < |s.workers| == |s1.workers|
    requires s1.q.items == s.q.items && s1.q.emptyWait == s.q.emptyWait && s1.complete == s.complete
    requires forall u: nat :: u < |s.workers| && u != t ==>
      s.workers[u] == s1.workers[u] && (u in s.q.asleep <==> u in s1.q.asleep)
    ensures Potential(s1) + Effort(StageOf(s), s.workers[t], t in s.q.asleep)
         == Potential(s) + Effort(StageOf(s), s1.workers[t], t in s1.q.asleep)
  {
    EffortChange(StageOf(s), s.workers, s.q.asleep, s1.workers, s1.q.asleep, t, |s.workers|);
  }

  lemma SleepPays(s: State, t: Tid)
    requires Inv(s) && Enabled(s, Work(t)) && s.workers[t].Popping? && s.q.items == []
    ensures Potential(WorkerStep(s, t)) < Potential(s)
  {
    OneWorker(s, WorkerStep(s, t), t);
  }

  /** Idle polls are free. */
  lemma OtherWorkPays(s: State, t: Tid)
    requires Inv(s) && Enabled(s, Work(t)) && !s.workers[t].Popping?
    ensures Potential(WorkerStep(s, t)) + (if IdlePoll(s, Work(t)) then 0 else 1) <= Potential(s)
  {
    var p := if s.workers[t].Holding? then LoopFlag else Tested(s, s.workers[t]);
    var s1 := WorkerStep(s, t);
    assert s1.workers == s.workers[t := p] && s1.q == s.q;
    OneWorker(s, s1, t);
    TestedEffort(s, t, p);
  }

  lemma TestedEffort(s: State, t: Tid, p: Phase)
    requires Shutdown(s) && Enabled(s, Work(t)) && !s.workers[t].Popping?
    requires p == if s.workers[t].Holding? then LoopFlag else Tested(s, s.workers[t])
    ensures Effort(StageOf(s), p, false) + (if IdlePoll(s, Work(t)) then 0 else 1)
         <= Effort(StageOf(s), s.workers[t], false)
  {
  }

  lemma StepPays(s: State, a: Action)
    requires Inv(s) && Quiet(a) && Enabled(s, a)
    ensures Potential(Apply(s, a)) + (if IdlePoll(s, a) then 0 else 1) <= Potential(s)
  {
    match a
    case Produce(chosen) => ProducePays(s, chosen);
    case Finish => FinishPays(s);
    case Work(t) =>
      if s.workers[t].Popping? && s.q.items != [] {
        TakePays(s, t);
      } else if s.workers[t].Popping? {
        SleepPays(s, t);
      } else {
        OtherWorkPays(s, t);
      }
  }

  // ---------------------------------------------------------------- finite runs

  /** The steps of a run that are not idle polls. */
  ghost function UsefulSteps(s: State, acts: seq<Action>): nat {
    if acts == [] then 0 else
    var before, a := acts[..|acts| - 1], acts[|acts| - 1];
    UsefulSteps(s, before) + if Exec(s, before).Some? && IdlePoll(Exec(s, before).value, a) then 0 else 1
  }

  lemma {:induction false} UsefulFrom(s: State, acts: seq<Action>, s1: State)
    requires Inv(s) && AllQuiet(acts) && Exec(s, acts) == Some(s1)
    ensures Inv(s1) && UsefulSteps(s, acts) + Potential(s1) <= Potential(s)
  {
    if acts != [] {
      var k := |acts| - 1;
      var before := Exec(s, acts[..k]).value;
      UsefulFrom(s, acts[..k], before);
      InvStep(before, acts[k]);
      StepPays(before, acts[k]);
    }
  }

  /** In any run without spurious wake-ups, all threads together take a number of steps that is linear
      in the program and the number of workers, idle polls aside. */
  lemma UsefulStepsBounded(prog: seq<Op>, n: nat, acts: seq<Action>, s: State)
    requires Reaches(prog, n, acts, s) && AllQuiet(acts)
    ensures UsefulSteps(Init(prog, n), acts) <= 8 * |prog| + 13 * n + 2
  {
    var start := Init(prog, n);
    InvInit(prog, n);
    UsefulFrom(start, acts, s);
    EffortBound(Open, start.workers, start.q.asleep, n);
  }

  // ---------------------------------------------------------------- fair runs

  datatype Thread = Producer | Main | Worker(t: Tid)

  predicate IsStepOf(a: Action, th: Thread) {
    match th
    case Producer => a.Produce?
    case Main => a.Finish?
    case Worker(t) => a == Work(t)
  }

  ghost predicate CanStep(s: State, th: Thread) {
    exists a :: IsStepOf(a, th) && Enabled(s, a)
  }

  ghost predicate Follows(run: nat -> Action, states: nat -> State, i: nat) {
    && Quiet(run(i)) && Enabled(states(i), run(i))
    && states(i + 1) == Apply(states(i), run(i))
  }

  /** A run that never ends, from any state that keeps the invariant, without spurious wake-ups. */
  ghost predicate Endless(run: nat -> Action, states: nat -> State) {
    Inv(states(0)) && forall i: nat :: Follows(run, states, i)
  }

  ghost predicate AlwaysCan(states: nat -> State, i: nat, th: Thread) {
    forall j: nat :: i <= j ==> CanStep(states(j), th)
  }

  ghost predicate EverSteps(run: nat -> Action, i: nat, th: Thread) {
    exists j: nat :: i <= j && IsStepOf(run(j), th)
  }

  /** A thread that can step from some moment on does step. */
  ghost predicate Fair(run: nat -> Action, states: nat -> State) {
    forall i: nat, th :: AlwaysCan(states, i, th) ==> EverSteps(run, i, th)
  }

  ghost predicate IdleFrom(run: nat -> Action, states: nat -> State, i: nat) {
    forall j: nat :: i <= j ==> IdlePoll(states(j), run(j))
  }

  lemma {:induction false} InvAlong(run: nat -> Action, states: nat -> State, i: nat)
    requires Endless(run, states)
    ensures Inv(states(i))
  {
    if i > 0 {
      InvAlong(run, states, i - 1);
      assert Follows(run, states, i - 1);
      InvStep(states(i - 1), run(i - 1));
    }
  }

  lemma FallsOnce(run: nat -> Action, states: nat -> State, i: nat)
    requires Endless(run, states) && Inv(states(i)) && Inv(states(i + 1))
    ensures Potential(states(i + 1)) + (if IdlePoll(states(i), run(i)) then 0 else 1) <= Potential(states(i))
  {
    assert Follows(run, states, i);
    StepPays(states(i), run(i));
  }

  lemma {:induction false} PotentialFalls(run: nat -> Action, states: nat -> State, i: nat, j: nat)
    requires Endless(run, states) && i <= j
    ensures Potential(states(j)) <= Potential(states(i))
  {
    if i < j {
      PotentialFalls(run, states, i, j - 1);
      InvAlong(run, states, j - 1);
      InvAlong(run, states, j);
      FallsOnce(run, states, j - 1);
    }
  }

  lemma UsefulStepFalls(run: nat -> Action, states: nat -> State, i: nat, j: nat)
    requires Endless(run, states) && i <= j && !IdlePoll(states(j), run(j))
    ensures Potential(states(j + 1)) < Potential(states(i))
  {
    PotentialFalls(run, states, i, j);
    InvAlong(run, states, j);
    InvAlong(run, states, j + 1);
    FallsOnce(run, states, j);
  }

  /** From some moment on an endless run only polls. */
  lemma {:induction false} Settles(run: nat -> Action, states: nat -> State, i: nat) returns (k: nat)
    requires Endless(run, states)
    ensures IdleFrom(run, states, k)
    decreases Potential(states(i))
  {
    if j: nat :| i <= j && !IdlePoll(states(j), run(j)) {
      UsefulStepFalls(run, states, i, j);
      k := Settles(run, states, j + 1);
    } else {
      k := i;
    }
  }

  /** Polling changes nothing but the phases of those who poll. */
  ghost predicate SameWork(s: State, s1: State) {
    && s1.prog == s.prog && s1.pc == s.pc && s1.complete == s.complete && s1.q == s.q
    && |s1.workers| == |s.workers|
    && forall t: nat :: t < |s.workers| ==> (s1.workers[t].Exited? <==> s.workers[t].Exited?)
  }

  lemma PollKeeps(s: State, a: Action)
    requires Enabled(s, a) && IdlePoll(s, a)
    ensures SameWork(s, Apply(s, a))
    ensures forall t: nat :: t < |s.workers| && t != a.t ==> Apply(s, a).workers[t] == s.workers[t]
  {
  }

  lemma {:induction false} PollsKeep(run: nat -> Action, states: nat -> State, i: nat, j: nat)
    requires Endless(run, states) && IdleFrom(run, states, i) && i <= j
    ensures SameWork(states(i), states(j))
  {
    if i < j {
      PollsKeep(run, states, i, j - 1);
      assert Follows(run, states, j - 1);
      PollKeeps(states(j - 1), run(j - 1));
    }
  }

  /** A worker whose next step is no idle poll does not get to take it. */
  lemma {:induction false} NotItsTurn(run: nat -> Action, states: nat -> State, i: nat, j: nat, t: Tid)
    requires Endless(run, states) && IdleFrom(run, states, i) && i <= j
    requires Enabled(states(i), Work(t)) && !IdlePoll(states(i), Work(t))
    ensures SameWork(states(i), states(j)) && states(j).workers[t] == states(i).workers[t]
    ensures run(j) != Work(t)
  {
    PollsKeep(run, states, i, j);
    if i < j {
      NotItsTurn(run, states, i, j - 1, t);
      assert Follows(run, states, j - 1);
      PollKeeps(states(j - 1), run(j - 1));
    }
    assert IdlePoll(states(j), run(j));
  }

  lemma Unfair(run: nat -> Action, states: nat -> State, i: nat, th: Thread)
    requires AlwaysCan(states, i, th) && !EverSteps(run, i, th)
    ensures !Fair(run, states)
  {
  }

  lemma WorkerStarves(run: nat -> Action, states: nat -> State, i: nat, t: Tid)
    requires Endless(run, states) && IdleFrom(run, states, i)
    requires Enabled(states(i), Work(t)) && !IdlePoll(states(i), Work(t))
    ensures !Fair(run, states)
  {
    forall j: nat | i <= j ensures CanStep(states(j), Worker(t)) && !IsStepOf(run(j), Worker(t)) {
      NotItsTurn(run, states, i, j, t);
      assert IsStepOf(Work(t), Worker(t)) && Enabled(states(j), Work(t));
    }
    Unfair(run, states, i, Worker(t));
  }

  /** With items queued, a worker that is awake is due to pop. */
  lemma PopperStarves(run: nat -> Action, states: nat -> State, i: nat, t: Tid)
    requires Endless(run, states) && IdleFrom(run, states, i)
    requires states(i).q.items != [] && Enabled(states(i), Work(t))
    ensures !Fair(run, states)
  {
    if j: nat :| i <= j && run(j) == Work(t) {
      PollsKeep(run, states, i, j);
      PollsKeep(run, states, i, j + 1);
      assert Follows(run, states, j) && IdlePoll(states(j), run(j));
      WorkerStarves(run, states, j + 1, t);
    } else {
      forall j: nat | i <= j ensures CanStep(states(j), Worker(t)) && !IsStepOf(run(j), Worker(t)) {
        PollsKeep(run, states, i, j);
        assert IsStepOf(Work(t), Worker(t)) && Enabled(states(j), Work(t));
      }
      Unfair(run, states, i, Worker(t));
    }
  }

  /** The producer, or the main thread after it. */
  lemma OwnerStarves(run: nat -> Action, states: nat -> State, i: nat, th: Thread, a: Action)
    requires Endless(run, states) && IdleFrom(run, states, i)
    requires !a.Work? && Quiet(a) && IsStepOf(a, th) && Enabled(states(i), a)
    ensures !Fair(run, states)
  {
    forall j: nat | i <= j ensures CanStep(states(j), th) && !IsStepOf(run(j), th) {
      PollsKeep(run, states, i, j);
      assert Enabled(states(j), a);
      assert IdlePoll(states(j), run(j));
    }
    Unfair(run, states, i, th);
  }

  /** With nothing queued and completion set, whoever polls is due to leave its loop. */
  lemma LeaverStarves(run: nat -> Action, states: nat -> State, i: nat)
    requires Endless(run, states) && IdleFrom(run, states, i) && states(i).complete
    ensures !Fair(run, states)
  {
    assert IdlePoll(states(i), run(i)) && Follows(run, states, i);
    WorkerStarves(run, states, i + 1, run(i).t);
  }

  /** No fair run goes on forever: the pipeline comes to rest, whatever the number of workers. */
  lemma FairRunsEnd(run: nat -> Action, states: nat -> State)
    requires Endless(run, states)
    ensures !Fair(run, states)
  {
    var i := Settles(run, states, 0);
    InvAlong(run, states, i);
    var s := states(i);
    assert IdlePoll(s, run(i));
    if s.q.items != [] {
      var t := SomeWorkerAwake(s);
      PopperStarves(run, states, i, t);
    } else if s.pc < |s.prog| {
      var chosen: Tid :| s.q.asleep == {} || chosen in s.q.asleep;
      OwnerStarves(run, states, i, Producer, Produce(chosen));
    } else if !s.complete {
      OwnerStarves(run, states, i, Main, Finish);
    } else {
      LeaverStarves(run, states, i);
    }
  }
}
