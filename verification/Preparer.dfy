/**
 The producer of src/Preparer.cpp.

 `Prep` and `Run` are nested loops whose only effects on shared state are queue operations and
 updates of the progress counter.  The list of these operations, in order, is the producer's
 program; the methods of class `Preparer` are proved to issue exactly the program that
 `Program` describes, and the protocol of Protocol.dfy executes it one operation at a time.
 */
module Preparer {
  import opened Messages

  datatype Op =
    | Push(m: Message)
    | WaitSize(limit: nat)
    | WaitEmpty
    | AddProgress(n: nat)
    | SetProgress(value: nat)

  datatype Config = Config(mins: nat, devices: nat, tables: nat, threads: nat)

  datatype Mode = Prepare | Run

  const START_TIMESTAMP: nat := 946684800

  // ---------------------------------------------------------------- the program

  function TablePushes(ts: nat, device: nat, n: nat): seq<Op> {
    if n == 0 then [] else TablePushes(ts, device, n - 1) + [Push(NewMessage(ts, device, n))]
  }

  function DeviceTail(cfg: Config, mode: Mode): seq<Op> {
    if mode.Prepare? then [AddProgress(cfg.tables), WaitSize(cfg.threads * 2)] else []
  }

  function MinuteTail(cfg: Config, mode: Mode, ts: nat): seq<Op> {
    if mode.Prepare? then [WaitEmpty] else [WaitSize(cfg.threads * 100000), SetProgress(ts)]
  }

  function DeviceOps(cfg: Config, mode: Mode, ts: nat, n: nat): seq<Op> {
    if n == 0 then [] else
    DeviceOps(cfg, mode, ts, n - 1) + (TablePushes(ts, n, cfg.tables) + DeviceTail(cfg, mode))
  }

  function MinuteOps(cfg: Config, mode: Mode, ts: nat, count: nat): seq<Op> {
    DeviceOps(cfg, mode, ts, count) + MinuteTail(cfg, mode, ts)
  }

  /** `counts[k]` is the number of devices that report in minute `k`. */
  function Minutes(cfg: Config, mode: Mode, start: nat, counts: seq<nat>): seq<Op> {
    if counts == [] then [] else
    var k := |counts| - 1;
    Minutes(cfg, mode, start, counts[..k]) + MinuteOps(cfg, mode, start + 60 * k, counts[k])
  }

  function Program(cfg: Config, mode: Mode, start: nat, counts: seq<nat>): seq<Op> {
    [SetProgress(if mode.Prepare? then 0 else start)] + Minutes(cfg, mode, start, counts)
  }

  function AllDevices(cfg: Config): seq<nat> {
    seq(cfg.mins, i => cfg.devices)
  }

  /** The device counts a run may draw: GetNext(MaxDevices, 0) lies in [1, MaxDevices] (Pareto.dfy). */
  ghost predicate ValidCounts(cfg: Config, mode: Mode, counts: seq<nat>) {
    && |counts| == cfg.mins
    && (mode.Prepare? ==> counts == AllDevices(cfg))
    && (mode.Run? ==> forall k :: 0 <= k < |counts| ==> 1 <= counts[k] <= cfg.devices)
  }

  /** `Prep` starts a minute after the newest row, and not before StartTimestamp. */
  function PrepStart(maxTs: nat): nat {
    if maxTs + 60 > START_TIMESTAMP then maxTs + 60 else START_TIMESTAMP
  }

  lemma PrepStartIsLater(maxTs: nat)
    ensures PrepStart(maxTs) >= maxTs + 60 && PrepStart(maxTs) >= START_TIMESTAMP
    ensures PrepStart(maxTs) == maxTs + 60 || PrepStart(maxTs) == START_TIMESTAMP
    ensures maxTs >= START_TIMESTAMP ==> PrepStart(maxTs) == RunStart(maxTs)
  {
  }

  function RunStart(maxTs: nat): nat {
    maxTs + 60
  }

  // ---------------------------------------------------------------- the loops

  class Preparer {
    var issued: seq<Op>

    constructor ()
      ensures issued == []
    {
      issued := [];
    }

    method Issue(op: Op)
      modifies this
      ensures issued == old(issued) + [op]
    {
      issued := issued + [op];
    }

    /** The innermost loop, the same in both phases. */
    method PushTables(cfg: Config, ts: nat, dc: nat)
      modifies this
      ensures issued == old(issued) + TablePushes(ts, dc, cfg.tables)
    {
      var tableId := 1;
      while tableId <= cfg.tables
        invariant 1 <= tableId <= cfg.tables + 1
        invariant issued == old(issued) + TablePushes(ts, dc, tableId - 1)
      {
        Issue(Push(NewMessage(ts, dc, tableId)));
        tableId := tableId + 1;
      }
    }

    method PrepMinute(cfg: Config, ts: nat)
      modifies this
      ensures issued == old(issued) + MinuteOps(cfg, Prepare, ts, cfg.devices)
    {
      var dc := 1;
      while dc <= cfg.devices
        invariant 1 <= dc <= cfg.devices + 1
        invariant issued == old(issued) + DeviceOps(cfg, Prepare, ts, dc - 1)
      {
        PushTables(cfg, ts, dc);
        Issue(AddProgress(cfg.tables));
        Issue(WaitSize(cfg.threads * 2));
        dc := dc + 1;
      }
      Issue(WaitEmpty);
    }

    method RunMinute(cfg: Config, ts: nat, devicesCnt: nat)
      modifies this
      ensures issued == old(issued) + MinuteOps(cfg, Mode.Run, ts, devicesCnt)
    {
      var dc := 1;
      while dc <= devicesCnt
        invariant 1 <= dc <= devicesCnt + 1
        invariant issued == old(issued) + DeviceOps(cfg, Mode.Run, ts, dc - 1)
      {
        PushTables(cfg, ts, dc);
        dc := dc + 1;
      }
      Issue(WaitSize(cfg.threads * 100000));
      Issue(SetProgress(ts));
    }

    method Prep(cfg: Config, maxTs: nat)
      modifies this
      ensures issued == old(issued) + Program(cfg, Prepare, PrepStart(maxTs), AllDevices(cfg))
    {
      Issue(SetProgress(0));
      var startTimestamp := PrepStart(maxTs);
      ghost var before, counts := issued, AllDevices(cfg);
      ProgramDone(old(issued), SetProgress(0), cfg, Prepare, startTimestamp, counts);
      ghost var k := 0;
      var ts := startTimestamp;
      while ts < startTimestamp + cfg.mins * 60
        invariant 0 <= k <= cfg.mins && ts == startTimestamp + 60 * k
        invariant issued == AfterMinutes(before, cfg, Prepare, startTimestamp, counts, k)
        decreases cfg.mins - k
      {
        PrepMinute(cfg, ts);
        assert counts[k] == cfg.devices;
        MinutesNext(before, cfg, Prepare, startTimestamp, counts, k);
        ts, k := ts + 60, k + 1;
      }
    }

    /** `draws[k]` is what GetNext(MaxDevices, 0) returns in minute `k`; the result is the trailing
        delete timestamp, which the source advances but no longer uses. */
    method Run(cfg: Config, minTs: nat, maxTs: nat, draws: seq<nat>) returns (deleteTimestamp: nat)
      requires |draws| == cfg.mins
      modifies this
      ensures issued == old(issued) + Program(cfg, Mode.Run, RunStart(maxTs), draws)
      ensures deleteTimestamp == minTs + 60 * cfg.mins
    {
      var startTimestamp, endTimestamp := RunStart(maxTs), maxTs + cfg.mins * 60;
      Issue(SetProgress(startTimestamp));
      deleteTimestamp := minTs;
      ghost var before := issued;
      ProgramDone(old(issued), SetProgress(startTimestamp), cfg, Mode.Run, startTimestamp, draws);
      var k := 0;
      var ts := startTimestamp;
      while ts <= endTimestamp
        invariant 0 <= k <= cfg.mins && ts == startTimestamp + 60 * k
        invariant deleteTimestamp == minTs + 60 * k
        invariant issued == AfterMinutes(before, cfg, Mode.Run, startTimestamp, draws, k)
        decreases cfg.mins - k
      {
        var devicesCnt := draws[k];
        RunMinute(cfg, ts, devicesCnt);
        deleteTimestamp := deleteTimestamp + 60;
        MinutesNext(before, cfg, Mode.Run, startTimestamp, draws, k);
        ts, k := ts + 60, k + 1;
      }
    }
  }

  /** What has been issued after k minutes. */
  ghost function AfterMinutes(before: seq<Op>, cfg: Config, mode: Mode, start: nat, counts: seq<nat>, k: nat): seq<Op>
    requires k <= |counts|
  {
    before + Minutes(cfg, mode, start, counts[..k])
  }

  lemma MinutesNext(before: seq<Op>, cfg: Config, mode: Mode, start: nat, counts: seq<nat>, k: nat)
    requires k < |counts|
    ensures AfterMinutes(before, cfg, mode, start, counts, k + 1)
         == AfterMinutes(before, cfg, mode, start, counts, k) + MinuteOps(cfg, mode, start + 60 * k, counts[k])
  {
    assert counts[..k + 1][..k] == counts[..k];
  }

  lemma ProgramDone(before: seq<Op>, first: Op, cfg: Config, mode: Mode, start: nat, counts: seq<nat>)
    requires first == SetProgress(if mode.Prepare? then 0 else start)
    ensures AfterMinutes(before + [first], cfg, mode, start, counts, 0) == before + [first]
    ensures AfterMinutes(before + [first], cfg, mode, start, counts, |counts|)
         == before + Program(cfg, mode, start, counts)
  {
    assert counts[..|counts|] == counts && counts[..0] == [];
  }

  // ---------------------------------------------------------------- what a program does

  /** The messages a list of operations pushes. */
  function Pushes(ops: seq<Op>): seq<Message> {
    if ops == [] then [] else
    var k := |ops| - 1;
    Pushes(ops[..k]) + if ops[k].Push? then [ops[k].m] else []
  }

  function NextProgress(p: nat, op: Op): nat {
    match op
    case AddProgress(n) => p + n
    case SetProgress(v) => v
    case _ => p
  }

  /** The progress counter after the operations, starting at 0. */
  function Progress(ops: seq<Op>): nat {
    if ops == [] then 0 else NextProgress(Progress(ops[..|ops| - 1]), ops[|ops| - 1])
  }

  /** A push adds one item, a wait does not return before the queue is short enough, consumers
      only remove items. */
  function NextBound(b: nat, op: Op): nat {
    match op
    case Push(_) => b + 1
    case WaitSize(limit) => if b <= limit then b else limit
    case WaitEmpty => 0
    case _ => b
  }

  /** An upper bound of the queue length right after the operations. */
  function Bound(ops: seq<Op>): nat {
    if ops == [] then 0 else NextBound(Bound(ops[..|ops| - 1]), ops[|ops| - 1])
  }

  lemma Last(ops: seq<Op>, op: Op)
    ensures (ops + [op])[..|ops|] == ops
  {
  }

  lemma {:induction false} PushesConcat(a: seq<Op>, b: seq<Op>)
    ensures Pushes(a + b) == Pushes(a) + Pushes(b)
  {
    if b == [] {
      assert a + b == a;
    } else {
      var k := |b| - 1;
      assert (a + b)[..|a + b| - 1] == a + b[..k];
      PushesConcat(a, b[..k]);
    }
  }

  /** Pushing is cumulative: what has been pushed is a prefix of what will be. */
  lemma PushesPrefix(ops: seq<Op>, k: nat)
    requires k <= |ops|
    ensures Pushes(ops[..k]) <= Pushes(ops)
  {
    assert ops == ops[..k] + ops[k..];
    PushesConcat(ops[..k], ops[k..]);
  }

  // ---------------------------------------------------------------- the enumeration

  ghost predicate LexLess(a: Message, b: Message) {
    || a.ts < b.ts
    || (a.ts == b.ts && a.device < b.device)
    || (a.ts == b.ts && a.device == b.device && a.table < b.table)
  }

  ghost predicate Increasing(ms: seq<Message>) {
    forall i, j :: 0 <= i < j < |ms| ==> LexLess(ms[i], ms[j])
  }

  /** The (minute, device, table) triples of a phase. */
  ghost predicate InPhase(cfg: Config, start: nat, counts: seq<nat>, m: Message) {
    && m.op == Insert
    && m.ts >= start && (m.ts - start) % 60 == 0 && (m.ts - start) / 60 < |counts|
    && 1 <= m.device <= counts[(m.ts - start) / 60]
    && 1 <= m.table <= cfg.tables
  }

  /** The last minute's timestamp fits the 32-bit field of `Message`. */
  ghost predicate Fits(start: nat, minutes: nat) {
    minutes == 0 || start + 60 * (minutes - 1) < TWO_TO_THE_32
  }

  lemma IncreasingConcat(a: seq<Message>, b: seq<Message>)
    requires Increasing(a) && Increasing(b)
    requires forall x, y :: x in a && y in b ==> LexLess(x, y)
    ensures Increasing(a + b)
  {
  }

  /** The messages of one device in one minute, and of the first `n` devices. */
  ghost predicate TableList(ms: seq<Message>, ts: nat, d: nat, n: nat) {
    && |ms| == n
    && Increasing(ms)
    && forall m :: m in ms <==> m.op == Insert && m.ts == ts && m.device == d && 1 <= m.table <= n
  }

  ghost predicate DeviceList(ms: seq<Message>, ts: nat, n: nat, tables: nat) {
    && |ms| == n * tables
    && Increasing(ms)
    && forall m :: m in ms <==> m.op == Insert && m.ts == ts && 1 <= m.device <= n && 1 <= m.table <= tables
  }

  ghost predicate PhaseList(ms: seq<Message>, cfg: Config, start: nat, counts: seq<nat>) {
    && |ms| == Sum(counts) * cfg.tables
    && Increasing(ms)
    && forall m :: m in ms <==> InPhase(cfg, start, counts, m)
  }

  lemma {:induction false} TableMessages(ts: nat, d: nat, n: nat)
    requires ts < TWO_TO_THE_32
    ensures TableList(Pushes(TablePushes(ts, d, n)), ts, d, n)
  {
    if n > 0 {
      TableMessages(ts, d, n - 1);
      Last(TablePushes(ts, d, n - 1), Push(NewMessage(ts, d, n)));
      var x := NewMessage(ts, d, n);
      assert x == Message(Insert, ts, d, n);
      IncreasingConcat(Pushes(TablePushes(ts, d, n - 1)), [x]);
    }
  }

  lemma DeviceTailPushes(cfg: Config, mode: Mode)
    ensures Pushes(DeviceTail(cfg, mode)) == []
  {
    var add, wait := AddProgress(cfg.tables), WaitSize(cfg.threads * 2);
    PushesConcat([add], [wait]);
    assert [add] + [wait] == [add, wait];
  }

  lemma MinuteTailPushes(cfg: Config, mode: Mode, ts: nat)
    ensures Pushes(MinuteTail(cfg, mode, ts)) == []
  {
    PushesConcat([WaitSize(cfg.threads * 100000)], [SetProgress(ts)]);
    assert [WaitSize(cfg.threads * 100000)] + [SetProgress(ts)] == [WaitSize(cfg.threads * 100000), SetProgress(ts)];
  }

  lemma DeviceJoin(a: seq<Message>, b: seq<Message>, ts: nat, n: nat, tables: nat)
    requires n > 0 && DeviceList(a, ts, n - 1, tables) && TableList(b, ts, n, tables)
    ensures DeviceList(a + b, ts, n, tables)
  {
    IncreasingConcat(a, b);
    assert n * tables == (n - 1) * tables + tables;
  }

  lemma DevicePushes(cfg: Config, mode: Mode, ts: nat, n: nat)
    requires n > 0
    ensures Pushes(DeviceOps(cfg, mode, ts, n))
         == Pushes(DeviceOps(cfg, mode, ts, n - 1)) + Pushes(TablePushes(ts, n, cfg.tables))
  {
    var before, row, tail := DeviceOps(cfg, mode, ts, n - 1), TablePushes(ts, n, cfg.tables), DeviceTail(cfg, mode);
    DeviceTailPushes(cfg, mode);
    PushesConcat(row, tail);
    PushesConcat(before, row + tail);
    assert Pushes(row) + [] == Pushes(row);
  }

  lemma {:induction false} DeviceMessages(cfg: Config, mode: Mode, ts: nat, n: nat)
    requires ts < TWO_TO_THE_32
    ensures DeviceList(Pushes(DeviceOps(cfg, mode, ts, n)), ts, n, cfg.tables)
  {
    if n > 0 {
      DeviceMessages(cfg, mode, ts, n - 1);
      TableMessages(ts, n, cfg.tables);
      DevicePushes(cfg, mode, ts, n);
      DeviceJoin(Pushes(DeviceOps(cfg, mode, ts, n - 1)), Pushes(TablePushes(ts, n, cfg.tables)), ts, n, cfg.tables);
    }
  }

  function Sum(counts: seq<nat>): nat {
    if counts == [] then 0 else Sum(counts[..|counts| - 1]) + counts[|counts| - 1]
  }

  lemma MinuteJoin(a: seq<Message>, b: seq<Message>, cfg: Config, start: nat, counts: seq<nat>, k: nat)
    requires |counts| == k + 1
    requires PhaseList(a, cfg, start, counts[..k]) && DeviceList(b, start + 60 * k, counts[k], cfg.tables)
    ensures PhaseList(a + b, cfg, start, counts)
  {
    var ts := start + 60 * k;
    forall m ensures m in a + b <==> InPhase(cfg, start, counts, m) {
      if m.ts >= start && (m.ts - start) % 60 == 0 {
        LastMinute(start, m.ts, k);
      }
    }
    forall x, y | x in a && y in b ensures LexLess(x, y) {
      LastMinute(start, x.ts, k);
    }
    IncreasingConcat(a, b);
    assert Sum(counts) * cfg.tables == Sum(counts[..k]) * cfg.tables + counts[k] * cfg.tables;
  }

  lemma MinuteMessages(cfg: Config, mode: Mode, ts: nat, n: nat)
    requires ts < TWO_TO_THE_32
    ensures DeviceList(Pushes(MinuteOps(cfg, mode, ts, n)), ts, n, cfg.tables)
  {
    DeviceMessages(cfg, mode, ts, n);
    MinuteTailPushes(cfg, mode, ts);
    PushesConcat(DeviceOps(cfg, mode, ts, n), MinuteTail(cfg, mode, ts));
    assert Pushes(DeviceOps(cfg, mode, ts, n)) + [] == Pushes(DeviceOps(cfg, mode, ts, n));
  }

  lemma MinutesPushes(cfg: Config, mode: Mode, start: nat, counts: seq<nat>, k: nat)
    requires |counts| == k + 1
    ensures Pushes(Minutes(cfg, mode, start, counts))
         == Pushes(Minutes(cfg, mode, start, counts[..k])) + Pushes(MinuteOps(cfg, mode, start + 60 * k, counts[k]))
  {
    var early, late := Minutes(cfg, mode, start, counts[..k]), MinuteOps(cfg, mode, start + 60 * k, counts[k]);
    assert Minutes(cfg, mode, start, counts) == early + late;
    PushesConcat(early, late);
  }

  lemma NoMinutes(cfg: Config, start: nat)
    ensures PhaseList([], cfg, start, [])
  {
    assert Sum([]) * cfg.tables == 0;
  }

  lemma LastMinuteMessages(cfg: Config, mode: Mode, start: nat, counts: seq<nat>, k: nat)
    requires |counts| == k + 1 && Fits(start, |counts|)
    requires PhaseList(Pushes(Minutes(cfg, mode, start, counts[..k])), cfg, start, counts[..k])
    ensures PhaseList(Pushes(Minutes(cfg, mode, start, counts)), cfg, start, counts)
  {
    var early := Pushes(Minutes(cfg, mode, start, counts[..k]));
    var late := Pushes(MinuteOps(cfg, mode, start + 60 * k, counts[k]));
    MinutesPushes(cfg, mode, start, counts, k);
    MinuteMessages(cfg, mode, start + 60 * k, counts[k]);
    MinuteAppended(Pushes(Minutes(cfg, mode, start, counts)), early, late, cfg, start, counts, k);
  }

  lemma MinuteAppended(ms: seq<Message>, early: seq<Message>, late: seq<Message>,
                       cfg: Config, start: nat, counts: seq<nat>, k: nat)
    requires |counts| == k + 1 && ms == early + late
    requires PhaseList(early, cfg, start, counts[..k]) && DeviceList(late, start + 60 * k, counts[k], cfg.tables)
    ensures PhaseList(ms, cfg, start, counts)
  {
    MinuteJoin(early, late, cfg, start, counts, k);
  }

  lemma {:induction false} MinutesMessages(cfg: Config, mode: Mode, start: nat, counts: seq<nat>)
    requires Fits(start, |counts|)
    ensures PhaseList(Pushes(Minutes(cfg, mode, start, counts)), cfg, start, counts)
  {
    if counts == [] {
      NoMinutes(cfg, start);
    } else {
      MinutesMessages(cfg, mode, start, counts[..|counts| - 1]);
      LastMinuteMessages(cfg, mode, start, counts, |counts| - 1);
    }
  }

  lemma {:induction false} SumConstant(counts: seq<nat>, n: nat)
    requires forall k :: 0 <= k < |counts| ==> counts[k] == n
    ensures Sum(counts) == |counts| * n
  {
    if counts != [] {
      SumConstant(counts[..|counts| - 1], n);
      assert |counts| * n == (|counts| - 1) * n + n;
    }
  }

  lemma LastMinute(start: nat, ts: nat, k: nat)
    requires ts >= start && (ts - start) % 60 == 0
    ensures (ts - start) / 60 == k <==> ts == start + 60 * k
    ensures (ts - start) / 60 < k <==> ts < start + 60 * k
  {
  }

  /** The pushes of a phase are its (minute, device, table) triples, each once, in
      lexicographic order. */
  lemma PhaseMessages(cfg: Config, mode: Mode, start: nat, counts: seq<nat>)
    requires Fits(start, |counts|)
    ensures PhaseList(Pushes(Program(cfg, mode, start, counts)), cfg, start, counts)
  {
    var first := [SetProgress(if mode.Prepare? then 0 else start)];
    MinutesMessages(cfg, mode, start, counts);
    PushesConcat(first, Minutes(cfg, mode, start, counts));
    assert [] + Pushes(Minutes(cfg, mode, start, counts)) == Pushes(Minutes(cfg, mode, start, counts));
  }
}
