/**
 What holds in every state of every run of the work pipeline, for any interleaving of the
 producer, the workers, the main thread and spurious wake-ups.
 */
module Pipeline {
  import opened Messages
  import opened Preparer
  import opened TsQueue
  import opened Backpressure
  import opened Protocol

  ghost predicate AllExited(s: State) {
    forall t :: 0 <= t < |s.workers| ==> s.workers[t].Exited?
  }

  /** Pushed but not yet completed. */
  ghost function Unfinished(s: State): multiset<Message> {
    multiset(s.pushed) - multiset(s.completed)
  }

  // ---------------------------------------------------------------- wake-ups

  lemma WakeUpsReached(prog: seq<Op>, n: nat, acts: seq<Action>, s: State)
    requires Reaches(prog, n, acts, s)
    ensures s.q.asleep != {} ==> |s.q.items| <= |s.q.woken|
    ensures s.q.emptyWait.Sleeping? ==>
      s.pc < |prog| && Waits(prog[s.pc]) && |s.q.items| > Limit(prog[s.pc])
  {
    InvReached(prog, n, acts, s);
  }

  /** Waiting items are never left to sleepers only. */
  lemma SomeWorkerAwake(s: State) returns (t: Tid)
    requires Inv(s) && |s.workers| >= 1 && s.q.items != []
    ensures Enabled(s, Work(t))
  {
    // A woken worker is not asleep; without one, the waiting items mean nobody sleeps.
    t :| t in s.q.woken || (s.q.woken == {} && t == 0);
  }

  /** Backpressure cannot deadlock: while the producer sleeps, some worker is awake and inside
      its loop. */
  lemma ProducerNeverWaitsAlone(prog: seq<Op>, n: nat, acts: seq<Action>, s: State)
    requires Reaches(prog, n, acts, s) && n >= 1
    requires s.q.emptyWait.Sleeping?
    ensures exists t: nat :: t < n && Enabled(s, Work(t))
  {
    InvReached(prog, n, acts, s);
    var t := SomeWorkerAwake(s);
  }

  // ---------------------------------------------------------------- messages

  lemma UnfinishedParts(s: State)
    requires Inv(s)
    ensures Unfinished(s) == multiset(s.q.items) + Held(s.workers)
  {
    assert multiset(s.pushed) == multiset(s.popped) + multiset(s.q.items);
  }

  /** In any run, what was popped and what is queued make up what was pushed, in order, and that
      is a prefix of what the producer pushes in all. */
  lemma FifoReached(prog: seq<Op>, n: nat, acts: seq<Action>, s: State)
    requires Reaches(prog, n, acts, s)
    ensures s.popped + s.q.items == s.pushed <= Pushes(prog)
    ensures multiset(s.completed) <= multiset(s.pushed)
  {
    InvReached(prog, n, acts, s);
    PushesPrefix(prog, s.pc);
    assert multiset(s.pushed) == multiset(s.popped) + multiset(s.q.items);
  }

  lemma NothingLeft(s: State)
    requires Inv(s) && s.pc == |s.prog| && s.q.items == []
    requires forall t :: 0 <= t < |s.workers| ==> !s.workers[t].Holding?
    ensures multiset(s.completed) == multiset(Pushes(s.prog)) && s.progress == Progress(s.prog)
  {
    HeldNone(s.workers, |s.workers|);
    assert s.prog[..s.pc] == s.prog;
    assert s.popped + [] == s.popped;
  }

  /** Once every worker has left its loop, everything has been pushed and completed exactly once. */
  lemma JoinedMeansDone(prog: seq<Op>, n: nat, acts: seq<Action>, s: State)
    requires Reaches(prog, n, acts, s) && n >= 1
    requires AllExited(s)
    ensures s.pc == |prog| && s.q.items == []
    ensures multiset(s.completed) == multiset(Pushes(prog))
    ensures s.progress == Progress(prog)
  {
    InvReached(prog, n, acts, s);
    assert s.workers[0].Exited?;
    NothingLeft(s);
  }

  // ---------------------------------------------------------------- prepare

  /** A prepare loads every (minute, device, table) of its window exactly once, and the progress
      counter ends at the number of messages. */
  lemma PrepareLoadsAll(cfg: Config, start: nat, acts: seq<Action>, s: State)
    requires Fits(start, cfg.mins) && cfg.threads >= 1
    requires Reaches(Program(cfg, Prepare, start, AllDevices(cfg)), cfg.threads, acts, s)
    requires AllExited(s)
    ensures |s.completed| == cfg.mins * cfg.devices * cfg.tables == s.progress
    ensures forall m :: multiset(s.completed)[m] == if InPhase(cfg, start, AllDevices(cfg), m) then 1 else 0
  {
    var prog := Program(cfg, Prepare, start, AllDevices(cfg));
    var ms := Pushes(prog);
    JoinedMeansDone(prog, cfg.threads, acts, s);
    PhaseMessages(cfg, Prepare, start, AllDevices(cfg));
    SumConstant(AllDevices(cfg), cfg.devices);
    PrepareAudit(cfg, start);
    AuditMeaning(prog);
    assert |s.completed| == |multiset(s.completed)| == |ms|;
    forall m ensures multiset(ms)[m] == if m in ms then 1 else 0 {
      NoDuplicates(ms, m);
    }
  }

  lemma {:induction false} NoDuplicates(ms: seq<Message>, m: Message)
    requires Increasing(ms)
    ensures multiset(ms)[m] == if m in ms then 1 else 0
  {
    if ms != [] {
      var k := |ms| - 1;
      NoDuplicates(ms[..k], m);
      assert ms == ms[..k] + [ms[k]];
      assert forall i :: 0 <= i < k ==> LexLess(ms[i], ms[k]);
    }
  }

  /** The timestamp of the minute the producer is in. */
  function Newest(s: State): nat {
    if s.pushed == [] then 0 else s.pushed[|s.pushed| - 1].ts
  }

  ghost predicate AllOlder(ms: multiset<Message>, ts: nat) {
    forall m :: m in ms ==> m.ts != ts
  }

  /** Backpressure and the minute barrier of a prepare, at every moment: at most two items per
      worker plus one device's tables are queued, all with the newest timestamp, and of the older
      timestamps at most one message per worker is unfinished. */
  lemma PrepareBarrier(cfg: Config, start: nat, acts: seq<Action>, s: State)
    requires Reaches(Program(cfg, Prepare, start, AllDevices(cfg)), cfg.threads, acts, s)
    ensures |s.q.items| <= 2 * cfg.threads + cfg.tables
    ensures forall m :: m in s.q.items ==> m.ts == Newest(s)
    ensures forall early: multiset<Message> ::
      early <= Unfinished(s) && AllOlder(early, Newest(s)) ==> |early| <= cfg.threads
  {
    var prog := Program(cfg, Prepare, start, AllDevices(cfg));
    InvReached(prog, cfg.threads, acts, s);
    PrepareAudit(cfg, start);
    AuditPrefix(prog, s.pc);
    AuditMeaning(prog[..s.pc]);
    QueuedAreNewest(s);
    forall early: multiset<Message> | early <= Unfinished(s) && AllOlder(early, Newest(s))
      ensures |early| <= cfg.threads
    {
      FewOlder(s, early);
    }
  }

  lemma QueuedAreNewest(s: State)
    requires Inv(s) && SameMinute(s.prog[..s.pc])
    ensures forall m :: m in s.q.items ==> m.ts == Newest(s)
  {
    forall m | m in s.q.items ensures m.ts == Newest(s) {
      var i :| 0 <= i < |s.q.items| && s.q.items[i] == m;
      assert s.pushed[|s.popped| + i] == m;
    }
  }

  lemma FewOlder(s: State, early: multiset<Message>)
    requires Inv(s) && (forall m :: m in s.q.items ==> m.ts == Newest(s))
    requires early <= Unfinished(s) && AllOlder(early, Newest(s))
    ensures |early| <= |s.workers|
  {
    UnfinishedParts(s);
    HeldSize(s.workers, |s.workers|);
    Fewer(early, Held(s.workers), multiset(s.q.items));
  }

  lemma Fewer(a: multiset<Message>, held: multiset<Message>, queued: multiset<Message>)
    requires a <= queued + held && (forall m :: m in a ==> m !in queued)
    ensures |a| <= |held|
  {
    assert a <= held;
    assert held == a + (held - a);
  }

  /** The queue of a benchmark run. */
  lemma RunQueueBound(cfg: Config, start: nat, counts: seq<nat>, acts: seq<Action>, s: State)
    requires ValidCounts(cfg, Mode.Run, counts)
    requires Reaches(Program(cfg, Mode.Run, start, counts), cfg.threads, acts, s)
    ensures |s.q.items| <= 100000 * cfg.threads + cfg.devices * cfg.tables
  {
    var prog := Program(cfg, Mode.Run, start, counts);
    InvReached(prog, cfg.threads, acts, s);
    RunAudit(cfg, start, counts);
    AuditPrefix(prog, s.pc);
  }
}
