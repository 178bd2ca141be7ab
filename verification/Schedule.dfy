/**
 When the producer waits and what its progress counter shows, relative to the messages it pushes.

 `Gap` picks the operations other than pushes that a program issues after pushing one message and
 before pushing the next.  Together with the messages it determines a program, so the closed forms
 proved here and the enumeration in Preparer.dfy say everything about the two phases.
 */
module Schedule {
  import opened Messages
  import opened Preparer
  import opened Protocol
  import opened Pipeline

  /** The message pushed last, `from` being the one pushed before. */
  function LastFrom(from: Option<Message>, ops: seq<Op>): Option<Message> {
    if ops == [] then from
    else if ops[|ops| - 1].Push? then Some(ops[|ops| - 1].m)
    else LastFrom(from, ops[..|ops| - 1])
  }

  /** The operations issued when `w` was pushed last. */
  function GapFrom(from: Option<Message>, ops: seq<Op>, w: Option<Message>): seq<Op> {
    if ops == [] then [] else
    var before, op := ops[..|ops| - 1], ops[|ops| - 1];
    GapFrom(from, before, w) + if !op.Push? && LastFrom(from, before) == w then [op] else []
  }

  function Gap(ops: seq<Op>, w: Option<Message>): seq<Op> {
    GapFrom(None, ops, w)
  }

  lemma Reassociated(a: seq<Op>, b: seq<Op>, c: seq<Op>)
    ensures (a + b) + c == a + (b + c)
  {
  }

  lemma {:induction false} LastConcat(from: Option<Message>, a: seq<Op>, b: seq<Op>)
    ensures LastFrom(from, a + b) == LastFrom(LastFrom(from, a), b)
  {
    if b == [] {
      assert a + b == a;
    } else {
      assert (a + b)[..|a + b| - 1] == a + b[..|b| - 1];
      LastConcat(from, a, b[..|b| - 1]);
    }
  }

  lemma {:induction false} GapConcat(from: Option<Message>, a: seq<Op>, b: seq<Op>, w: Option<Message>)
    ensures GapFrom(from, a + b, w) == GapFrom(from, a, w) + GapFrom(LastFrom(from, a), b, w)
  {
    if b == [] {
      assert a + b == a;
    } else {
      var init, op := b[..|b| - 1], b[|b| - 1];
      assert (a + b)[..|a + b| - 1] == a + init;
      GapConcat(from, a, init, w);
      LastConcat(from, a, init);
      var more := if !op.Push? && LastFrom(from, a + init) == w then [op] else [];
      Reassociated(GapFrom(from, a, w), GapFrom(LastFrom(from, a), init, w), more);
    }
  }

  // ---------------------------------------------------------------- messages and gaps are everything

  lemma {:induction false} LastIsPushed(ops: seq<Op>)
    ensures LastFrom(None, ops) == if Pushes(ops) == [] then None else Some(Pushes(ops)[|Pushes(ops)| - 1])
  {
    if ops != [] {
      LastIsPushed(ops[..|ops| - 1]);
    }
  }

  ghost predicate Unique(ms: seq<Message>) {
    forall i, j :: 0 <= i < j < |ms| ==> ms[i] != ms[j]
  }

  /** A message not pushed yet has no gap. */
  lemma {:induction false} GapOfOther(ops: seq<Op>, m: Message)
    requires m !in Pushes(ops)
    ensures Gap(ops, Some(m)) == []
  {
    if ops != [] {
      GapOfOther(ops[..|ops| - 1], m);
      LastIsPushed(ops[..|ops| - 1]);
    }
  }

  lemma UniqueEnd(ms: seq<Message>, m: Message)
    requires Unique(ms + [m])
    ensures Unique(ms) && m !in ms
  {
    var all := ms + [m];
    forall i | 0 <= i < |ms| ensures ms[i] != m {
      assert all[i] == ms[i] && all[|ms|] == m;
    }
    forall i, j | 0 <= i < j < |ms| ensures ms[i] != ms[j] {
      assert all[i] == ms[i] && all[j] == ms[j];
    }
  }

  lemma UniqueInit(ops: seq<Op>)
    requires ops != [] && Unique(Pushes(ops))
    ensures Unique(Pushes(ops[..|ops| - 1]))
    ensures ops[|ops| - 1].Push? ==> ops[|ops| - 1].m !in Pushes(ops[..|ops| - 1])
  {
    var before := Pushes(ops[..|ops| - 1]);
    if ops[|ops| - 1].Push? {
      UniqueEnd(before, ops[|ops| - 1].m);
    } else {
      assert before + [] == before;
    }
  }

  lemma LastPushUnique(ops: seq<Op>)
    requires ops != [] && ops[|ops| - 1].Push? && Unique(Pushes(ops))
    ensures Gap(ops, Some(ops[|ops| - 1].m)) == [] && LastFrom(None, ops) == Some(ops[|ops| - 1].m)
  {
    UniqueInit(ops);
    GapOfOther(ops[..|ops| - 1], ops[|ops| - 1].m);
  }

  lemma GapEnd(ops: seq<Op>)
    requires ops != [] && Unique(Pushes(ops))
    ensures var gap := Gap(ops, LastFrom(None, ops));
      if ops[|ops| - 1].Push? then gap == [] else gap != [] && gap[|gap| - 1] == ops[|ops| - 1]
  {
    if ops[|ops| - 1].Push? {
      LastPushUnique(ops);
    }
  }

  /** The last operation, from the messages and the gaps alone. */
  lemma LastOperation(a: seq<Op>, b: seq<Op>)
    requires Pushes(a) == Pushes(b) && Unique(Pushes(a)) && (forall w :: Gap(a, w) == Gap(b, w))
    requires a != []
    ensures b != [] && a[|a| - 1] == b[|b| - 1]
  {
    LastIsPushed(a);
    LastIsPushed(b);
    assert Gap(a, LastFrom(None, a)) == Gap(b, LastFrom(None, a));
    GapEnd(a);
    if b != [] {
      GapEnd(b);
    }
  }

  /** Two programs with the same messages and the same gaps are the same. */
  lemma {:induction false} GapsDetermine(a: seq<Op>, b: seq<Op>)
    requires Pushes(a) == Pushes(b) && Unique(Pushes(a)) && (forall w :: Gap(a, w) == Gap(b, w))
    ensures a == b
    decreases |a| + |b|
  {
    if a == [] {
      if b != [] {
        LastOperation(b, a);
      }
    } else {
      LastOperation(a, b);
      var x, a1, b1 := a[|a| - 1], a[..|a| - 1], b[..|b| - 1];
      UniqueInit(a);
      assert a == a1 + [x] && b == b1 + [x];
      SameInits(a1, b1, x);
      GapsDetermine(a1, b1);
    }
  }

  lemma Appended(ops: seq<Op>, x: Op, w: Option<Message>)
    ensures Pushes(ops + [x]) == Pushes(ops) + if x.Push? then [x.m] else []
    ensures Gap(ops + [x], w) == Gap(ops, w) + if !x.Push? && LastFrom(None, ops) == w then [x] else []
  {
    assert (ops + [x])[..|ops|] == ops;
  }

  lemma SameInits(a: seq<Op>, b: seq<Op>, x: Op)
    requires Pushes(a + [x]) == Pushes(b + [x]) && (forall w :: Gap(a + [x], w) == Gap(b + [x], w))
    ensures Pushes(a) == Pushes(b) && forall w :: Gap(a, w) == Gap(b, w)
  {
    Appended(a, x, None);
    Appended(b, x, None);
    CutEnd(Pushes(a), Pushes(b), if x.Push? then [x.m] else []);
    LastIsPushed(a);
    LastIsPushed(b);
    forall w ensures Gap(a, w) == Gap(b, w) {
      Appended(a, x, w);
      Appended(b, x, w);
      assert Gap(a + [x], w) == Gap(b + [x], w);
      CutEnd(Gap(a, w), Gap(b, w), if !x.Push? && LastFrom(None, a) == w then [x] else []);
    }
  }

  lemma CutEnd<T>(a: seq<T>, b: seq<T>, c: seq<T>)
    requires a + c == b + c
    ensures a == b
  {
    assert (a + c)[..|a|] == a && (b + c)[..|b|] == b;
  }

  // ---------------------------------------------------------------- one minute

  lemma {:induction false} TablesGap(from: Option<Message>, ts: nat, d: nat, n: nat, w: Option<Message>)
    ensures GapFrom(from, TablePushes(ts, d, n), w) == []
    ensures n > 0 ==> LastFrom(from, TablePushes(ts, d, n)) == Some(NewMessage(ts, d, n))
  {
    if n > 0 {
      TablesGap(from, ts, d, n - 1, w);
      Last(TablePushes(ts, d, n - 1), Push(NewMessage(ts, d, n)));
    }
  }

  lemma OneGap(from: Option<Message>, x: Op, w: Option<Message>)
    requires !x.Push?
    ensures GapFrom(from, [x], w) == (if w == from then [x] else []) && LastFrom(from, [x]) == from
  {
    assert [x][..0] == [];
  }

  lemma TailGap(from: Option<Message>, x: Op, y: Op, w: Option<Message>)
    requires !x.Push? && !y.Push?
    ensures GapFrom(from, [x, y], w) == (if w == from then [x, y] else []) && LastFrom(from, [x, y]) == from
  {
    assert [x, y][..1] == [x];
    OneGap(from, x, w);
  }

  function AfterDevice(cfg: Config): seq<Op> {
    [AddProgress(cfg.tables), WaitSize(2 * cfg.threads)]
  }

  lemma DeviceTailGap(last: Option<Message>, cfg: Config, mode: Mode, w: Option<Message>)
    ensures LastFrom(last, DeviceTail(cfg, mode)) == last
    ensures GapFrom(last, DeviceTail(cfg, mode), w) == if mode.Prepare? && w == last then AfterDevice(cfg) else []
  {
    TailGap(last, AddProgress(cfg.tables), WaitSize(cfg.threads * 2), w);
  }

  lemma RowGap(from: Option<Message>, cfg: Config, mode: Mode, ts: nat, d: nat, w: Option<Message>)
    requires cfg.tables > 0
    ensures var row := TablePushes(ts, d, cfg.tables) + DeviceTail(cfg, mode);
      && LastFrom(from, row) == Some(NewMessage(ts, d, cfg.tables))
      && GapFrom(from, row, w) ==
           if mode.Prepare? && w == Some(NewMessage(ts, d, cfg.tables)) then AfterDevice(cfg) else []
  {
    var pushes, last := TablePushes(ts, d, cfg.tables), Some(NewMessage(ts, d, cfg.tables));
    TablesGap(from, ts, d, cfg.tables, w);
    GapConcat(from, pushes, DeviceTail(cfg, mode), w);
    LastConcat(from, pushes, DeviceTail(cfg, mode));
    DeviceTailGap(last, cfg, mode, w);
  }

  /** The last message of a device below n. */
  ghost predicate EndsDevice(cfg: Config, ts: nat, n: nat, w: Option<Message>) {
    w.Some? && 1 <= w.value.device <= n && w.value == NewMessage(ts, w.value.device, cfg.tables)
  }

  lemma NextEndsDevice(cfg: Config, ts: nat, n: nat, w: Option<Message>)
    requires n > 0
    ensures EndsDevice(cfg, ts, n, w) <==> EndsDevice(cfg, ts, n - 1, w) || w == Some(NewMessage(ts, n, cfg.tables))
    ensures w == Some(NewMessage(ts, n, cfg.tables)) ==> !EndsDevice(cfg, ts, n - 1, w)
  {
  }

  lemma NextDeviceGap(from: Option<Message>, cfg: Config, mode: Mode, ts: nat, n: nat, w: Option<Message>)
    requires cfg.tables > 0 && n > 0
    ensures LastFrom(from, DeviceOps(cfg, mode, ts, n)) == Some(NewMessage(ts, n, cfg.tables))
    ensures GapFrom(from, DeviceOps(cfg, mode, ts, n), w) == GapFrom(from, DeviceOps(cfg, mode, ts, n - 1), w)
      + if mode.Prepare? && w == Some(NewMessage(ts, n, cfg.tables)) then AfterDevice(cfg) else []
  {
    var before, row := DeviceOps(cfg, mode, ts, n - 1), TablePushes(ts, n, cfg.tables) + DeviceTail(cfg, mode);
    assert DeviceOps(cfg, mode, ts, n) == before + row;
    GapConcat(from, before, row, w);
    LastConcat(from, before, row);
    RowGap(LastFrom(from, before), cfg, mode, ts, n, w);
  }

  lemma {:induction false} DevicesGap(from: Option<Message>, cfg: Config, mode: Mode, ts: nat, n: nat,
                                      w: Option<Message>)
    requires cfg.tables > 0
    ensures n > 0 ==> LastFrom(from, DeviceOps(cfg, mode, ts, n)) == Some(NewMessage(ts, n, cfg.tables))
    ensures GapFrom(from, DeviceOps(cfg, mode, ts, n), w) ==
      if mode.Prepare? && EndsDevice(cfg, ts, n, w) then AfterDevice(cfg) else []
  {
    if n > 0 {
      DevicesGap(from, cfg, mode, ts, n - 1, w);
      NextDeviceGap(from, cfg, mode, ts, n, w);
      NextEndsDevice(cfg, ts, n, w);
    }
  }

  /** The gaps of one minute. */
  ghost function MinuteGap(cfg: Config, mode: Mode, ts: nat, n: nat, w: Option<Message>): seq<Op> {
    var ends := w == Some(NewMessage(ts, n, cfg.tables));
    if mode.Run? then
      if ends then [WaitSize(100000 * cfg.threads), SetProgress(ts)] else []
    else
      if ends then AfterDevice(cfg) + [WaitEmpty]
      else if EndsDevice(cfg, ts, n, w) then AfterDevice(cfg)
      else []
  }

  lemma MinuteTailGap(cfg: Config, mode: Mode, ts: nat, last: Option<Message>, w: Option<Message>)
    ensures LastFrom(last, MinuteTail(cfg, mode, ts)) == last
    ensures GapFrom(last, MinuteTail(cfg, mode, ts), w) ==
      if w != last then [] else if mode.Run? then [WaitSize(100000 * cfg.threads), SetProgress(ts)] else [WaitEmpty]
  {
    if mode.Run? {
      TailGap(last, WaitSize(cfg.threads * 100000), SetProgress(ts), w);
    } else {
      OneGap(last, WaitEmpty, w);
    }
  }

  lemma MinuteGaps(from: Option<Message>, cfg: Config, mode: Mode, ts: nat, n: nat, w: Option<Message>)
    requires cfg.tables > 0 && n > 0
    ensures GapFrom(from, MinuteOps(cfg, mode, ts, n), w) == MinuteGap(cfg, mode, ts, n, w)
    ensures LastFrom(from, MinuteOps(cfg, mode, ts, n)) == Some(NewMessage(ts, n, cfg.tables))
  {
    var devices, last := DeviceOps(cfg, mode, ts, n), Some(NewMessage(ts, n, cfg.tables));
    DevicesGap(from, cfg, mode, ts, n, w);
    GapConcat(from, devices, MinuteTail(cfg, mode, ts), w);
    LastConcat(from, devices, MinuteTail(cfg, mode, ts));
    MinuteTailGap(cfg, mode, ts, last, w);
    NextEndsDevice(cfg, ts, n, w);
  }

  // ---------------------------------------------------------------- all minutes

  ghost predicate InMinute(start: nat, j: nat, w: Option<Message>) {
    w.Some? && w.value.ts == start + 60 * j
  }

  lemma OtherMinute(cfg: Config, mode: Mode, start: nat, j: nat, n: nat, w: Option<Message>)
    requires start + 60 * j < TWO_TO_THE_32 && !InMinute(start, j, w)
    ensures MinuteGap(cfg, mode, start + 60 * j, n, w) == []
  {
  }

  function MinutesGapFrom(cfg: Config, mode: Mode, start: nat, counts: seq<nat>, w: Option<Message>): seq<Op> {
    GapFrom(None, Minutes(cfg, mode, start, counts), w)
  }

  lemma MinutesSplit(cfg: Config, mode: Mode, start: nat, counts: seq<nat>, k: nat)
    requires |counts| == k + 1
    ensures Minutes(cfg, mode, start, counts)
         == Minutes(cfg, mode, start, counts[..k]) + MinuteOps(cfg, mode, start + 60 * k, counts[k])
  {
  }

  lemma LastMinuteGap(cfg: Config, mode: Mode, start: nat, counts: seq<nat>, k: nat, w: Option<Message>)
    requires cfg.tables > 0 && |counts| == k + 1 && counts[k] > 0
    ensures MinutesGapFrom(cfg, mode, start, counts, w)
         == MinutesGapFrom(cfg, mode, start, counts[..k], w) + MinuteGap(cfg, mode, start + 60 * k, counts[k], w)
  {
    var early, late := Minutes(cfg, mode, start, counts[..k]), MinuteOps(cfg, mode, start + 60 * k, counts[k]);
    MinutesSplit(cfg, mode, start, counts, k);
    GapConcat(None, early, late, w);
    MinuteGaps(LastFrom(None, early), cfg, mode, start + 60 * k, counts[k], w);
  }

  /** The last minute is not the one of w. */
  lemma OtherLastMinute(cfg: Config, mode: Mode, start: nat, counts: seq<nat>, k: nat, w: Option<Message>)
    requires cfg.tables > 0 && |counts| == k + 1 && counts[k] > 0
    requires start + 60 * k < TWO_TO_THE_32 && !InMinute(start, k, w)
    ensures MinutesGapFrom(cfg, mode, start, counts, w) == MinutesGapFrom(cfg, mode, start, counts[..k], w)
  {
    LastMinuteGap(cfg, mode, start, counts, k, w);
    OtherMinute(cfg, mode, start, k, counts[k], w);
  }

  ghost predicate InNoMinute(start: nat, k: nat, w: Option<Message>) {
    forall j: nat :: j < k ==> !InMinute(start, j, w)
  }

  ghost predicate AllReport(counts: seq<nat>) {
    forall k :: 0 <= k < |counts| ==> counts[k] > 0
  }

  lemma {:induction false} SilentMinutes(cfg: Config, mode: Mode, start: nat, counts: seq<nat>, w: Option<Message>)
    requires cfg.tables > 0 && Fits(start, |counts|) && AllReport(counts)
    requires InNoMinute(start, |counts|, w)
    ensures MinutesGapFrom(cfg, mode, start, counts, w) == []
  {
    if counts != [] {
      var k := |counts| - 1;
      SilentMinutes(cfg, mode, start, counts[..k], w);
      OtherLastMinute(cfg, mode, start, counts, k, w);
    }
  }

  lemma OwnMinute(cfg: Config, mode: Mode, start: nat, counts: seq<nat>, k: nat, w: Option<Message>)
    requires cfg.tables > 0 && |counts| == k + 1 && Fits(start, k + 1) && AllReport(counts) && InMinute(start, k, w)
    ensures MinutesGapFrom(cfg, mode, start, counts, w) == MinuteGap(cfg, mode, start + 60 * k, counts[k], w)
  {
    EarlierSilent(start, k, w);
    SilentMinutes(cfg, mode, start, counts[..k], w);
    LastMinuteGap(cfg, mode, start, counts, k, w);
  }

  lemma {:induction false} MinutesGap(cfg: Config, mode: Mode, start: nat, counts: seq<nat>, j: nat, w: Option<Message>)
    requires cfg.tables > 0 && Fits(start, |counts|) && AllReport(counts)
    requires j < |counts| && InMinute(start, j, w)
    ensures MinutesGapFrom(cfg, mode, start, counts, w) == MinuteGap(cfg, mode, start + 60 * j, counts[j], w)
  {
    if j == |counts| - 1 {
      OwnMinute(cfg, mode, start, counts, j, w);
    } else {
      var early := counts[..|counts| - 1];
      assert early[j] == counts[j];
      MinutesGap(cfg, mode, start, early, j, w);
      OtherLastMinute(cfg, mode, start, counts, |counts| - 1, w);
    }
  }

  lemma EarlierSilent(start: nat, j: nat, w: Option<Message>)
    requires InMinute(start, j, w)
    ensures InNoMinute(start, j, w)
  {
  }

  lemma ProgramGap(cfg: Config, mode: Mode, start: nat, counts: seq<nat>, w: Option<Message>)
    ensures var first := SetProgress(if mode.Prepare? then 0 else start);
      Gap(Program(cfg, mode, start, counts), w)
        == (if w == None then [first] else []) + MinutesGapFrom(cfg, mode, start, counts, w)
  {
    var first := SetProgress(if mode.Prepare? then 0 else start);
    GapConcat(None, [first], Minutes(cfg, mode, start, counts), w);
    OneGap(None, first, w);
  }

  /** Before the first message a phase only sets its counter. */
  lemma PhaseStarts(cfg: Config, mode: Mode, start: nat, counts: seq<nat>)
    requires cfg.tables > 0 && Fits(start, |counts|) && AllReport(counts)
    ensures Gap(Program(cfg, mode, start, counts), None) == [SetProgress(if mode.Prepare? then 0 else start)]
  {
    ProgramGap(cfg, mode, start, counts, None);
    SilentMinutes(cfg, mode, start, counts, None);
  }

  lemma PhaseGap(cfg: Config, mode: Mode, start: nat, counts: seq<nat>, m: Message)
    requires Fits(start, |counts|) && AllReport(counts)
    requires InPhase(cfg, start, counts, m)
    ensures Gap(Program(cfg, mode, start, counts), Some(m))
         == MinuteGap(cfg, mode, m.ts, counts[(m.ts - start) / 60], Some(m))
  {
    var j := (m.ts - start) / 60;
    LastMinute(start, m.ts, j);
    ProgramGap(cfg, mode, start, counts, Some(m));
    MinutesGap(cfg, mode, start, counts, j, Some(m));
  }

  /** Prepare: nothing between the tables of a device; then it counts them and throttles; after the last
      device it also waits for the queue to drain. */
  lemma PrepareScheduled(cfg: Config, start: nat, m: Message)
    requires Fits(start, cfg.mins) && InPhase(cfg, start, AllDevices(cfg), m)
    ensures Gap(Program(cfg, Prepare, start, AllDevices(cfg)), Some(m)) ==
      if m.table < cfg.tables then []
      else if m.device < cfg.devices then [AddProgress(cfg.tables), WaitSize(2 * cfg.threads)]
      else [AddProgress(cfg.tables), WaitSize(2 * cfg.threads), WaitEmpty]
  {
    PhaseGap(cfg, Prepare, start, AllDevices(cfg), m);
    PrepareMinuteGap(cfg, m);
  }

  lemma PrepareMinuteGap(cfg: Config, m: Message)
    requires m.op == Insert && m.ts < TWO_TO_THE_32 && 1 <= m.device <= cfg.devices && m.table <= cfg.tables
    ensures MinuteGap(cfg, Prepare, m.ts, cfg.devices, Some(m)) ==
      if m.table < cfg.tables then []
      else if m.device < cfg.devices then [AddProgress(cfg.tables), WaitSize(2 * cfg.threads)]
      else [AddProgress(cfg.tables), WaitSize(2 * cfg.threads), WaitEmpty]
  {
  }

  /** Run: nothing but after the last message of a minute, when it throttles and then shows the minute. */
  lemma RunScheduled(cfg: Config, start: nat, counts: seq<nat>, m: Message)
    requires Fits(start, |counts|) && ValidCounts(cfg, Mode.Run, counts) && InPhase(cfg, start, counts, m)
    ensures Gap(Program(cfg, Mode.Run, start, counts), Some(m)) ==
      if m.table == cfg.tables && m.device == counts[(m.ts - start) / 60]
      then [WaitSize(100000 * cfg.threads), SetProgress(m.ts)]
      else []
  {
    PhaseGap(cfg, Mode.Run, start, counts, m);
  }

  // ---------------------------------------------------------------- the counter of a run

  /** The counter after j finished minutes. */
  function Shown(start: nat, j: nat): nat {
    if j == 0 then start else start + 60 * (j - 1)
  }

  /** The number of operations that finish j minutes. */
  function Milestone(cfg: Config, start: nat, counts: seq<nat>, j: nat): nat
    requires j <= |counts|
  {
    1 + |Minutes(cfg, Mode.Run, start, counts[..j])|
  }

  ghost predicate NoCounting(ops: seq<Op>) {
    forall k :: 0 <= k < |ops| ==> !ops[k].AddProgress? && !ops[k].SetProgress?
  }

  lemma {:induction false} ProgressKeeps(a: seq<Op>, b: seq<Op>)
    requires NoCounting(b)
    ensures Progress(a + b) == Progress(a)
  {
    if b == [] {
      assert a + b == a;
    } else {
      assert (a + b)[..|a + b| - 1] == a + b[..|b| - 1];
      ProgressKeeps(a, b[..|b| - 1]);
    }
  }

  lemma {:induction false} TablesNoCounting(ts: nat, d: nat, n: nat)
    ensures NoCounting(TablePushes(ts, d, n))
  {
    if n > 0 {
      TablesNoCounting(ts, d, n - 1);
    }
  }

  lemma {:induction false} DevicesNoCounting(cfg: Config, ts: nat, n: nat)
    ensures NoCounting(DeviceOps(cfg, Mode.Run, ts, n))
  {
    if n > 0 {
      DevicesNoCounting(cfg, ts, n - 1);
      TablesNoCounting(ts, n, cfg.tables);
    }
  }

  lemma UnfinishedNoCounting(cfg: Config, ts: nat, n: nat, r: nat)
    requires r < |MinuteOps(cfg, Mode.Run, ts, n)|
    ensures NoCounting(MinuteOps(cfg, Mode.Run, ts, n)[..r])
  {
    DevicesNoCounting(cfg, ts, n);
  }

  lemma FinishedProgress(before: seq<Op>, cfg: Config, ts: nat, n: nat)
    ensures Progress(before + MinuteOps(cfg, Mode.Run, ts, n)) == ts
  {
    var ops := before + MinuteOps(cfg, Mode.Run, ts, n);
    assert ops[|ops| - 1] == SetProgress(ts);
  }

  lemma {:induction false} AfterWholeMinutes(cfg: Config, start: nat, counts: seq<nat>)
    ensures Progress([SetProgress(start)] + Minutes(cfg, Mode.Run, start, counts)) == Shown(start, |counts|)
  {
    var first := [SetProgress(start)];
    if counts == [] {
      assert first + [] == first && first[..0] == [];
    } else {
      var k := |counts| - 1;
      var early := Minutes(cfg, Mode.Run, start, counts[..k]);
      var late := MinuteOps(cfg, Mode.Run, start + 60 * k, counts[k]);
      Reassociated(first, early, late);
      FinishedProgress(first + early, cfg, start + 60 * k, counts[k]);
    }
  }

  lemma Milestones(cfg: Config, start: nat, counts: seq<nat>, j: nat)
    requires j < |counts|
    ensures Minutes(cfg, Mode.Run, start, counts[..j + 1])
         == Minutes(cfg, Mode.Run, start, counts[..j]) + MinuteOps(cfg, Mode.Run, start + 60 * j, counts[j])
    ensures Milestone(cfg, start, counts, j + 1)
         == Milestone(cfg, start, counts, j) + |MinuteOps(cfg, Mode.Run, start + 60 * j, counts[j])|
  {
    assert counts[..j + 1][..j] == counts[..j];
  }

  /** The minutes a program starts with. */
  lemma {:induction false} MinutesPrefix(cfg: Config, start: nat, counts: seq<nat>, j: nat)
    requires j <= |counts|
    ensures Minutes(cfg, Mode.Run, start, counts[..j]) <= Minutes(cfg, Mode.Run, start, counts)
    decreases |counts| - j
  {
    if j < |counts| {
      Milestones(cfg, start, counts, j);
      MinutesPrefix(cfg, start, counts, j + 1);
    } else {
      assert counts[..j] == counts;
    }
  }

  /** Where in the program k operations lead. */
  lemma {:induction false} FindMinute(cfg: Config, start: nat, counts: seq<nat>, k: nat, m: nat) returns (j: nat)
    requires m <= |counts| && 1 <= k <= Milestone(cfg, start, counts, m)
    ensures j <= m && Milestone(cfg, start, counts, j) <= k
    ensures j < m ==> k < Milestone(cfg, start, counts, j + 1)
  {
    if m == 0 || k == Milestone(cfg, start, counts, m) {
      j := m;
    } else if k >= Milestone(cfg, start, counts, m - 1) {
      j := m - 1;
    } else {
      j := FindMinute(cfg, start, counts, k, m - 1);
    }
  }

  /** The first k operations, within minute j. */
  lemma PrefixParts(cfg: Config, start: nat, counts: seq<nat>, k: nat, j: nat)
    requires j <= |counts| && Milestone(cfg, start, counts, j) <= k
    requires if j < |counts| then k < Milestone(cfg, start, counts, j + 1) else k == Milestone(cfg, start, counts, j)
    ensures k <= |Program(cfg, Mode.Run, start, counts)|
    ensures var done, r := [SetProgress(start)] + Minutes(cfg, Mode.Run, start, counts[..j]),
                           k - Milestone(cfg, start, counts, j);
      if j < |counts| then
        r < |MinuteOps(cfg, Mode.Run, start + 60 * j, counts[j])| &&
        Program(cfg, Mode.Run, start, counts)[..k] == done + MinuteOps(cfg, Mode.Run, start + 60 * j, counts[j])[..r]
      else Program(cfg, Mode.Run, start, counts)[..k] == done
  {
    var prog := Program(cfg, Mode.Run, start, counts);
    var done := [SetProgress(start)] + Minutes(cfg, Mode.Run, start, counts[..j]);
    if j < |counts| {
      var ops := MinuteOps(cfg, Mode.Run, start + 60 * j, counts[j]);
      Milestones(cfg, start, counts, j);
      MinutesPrefix(cfg, start, counts, j + 1);
      Reassociated([SetProgress(start)], Minutes(cfg, Mode.Run, start, counts[..j]), ops);
      Cut(prog, done, ops, k);
    } else {
      assert counts[..j] == counts && prog[..k] == prog;
    }
  }

  lemma Cut(prog: seq<Op>, done: seq<Op>, ops: seq<Op>, k: nat)
    requires done + ops <= prog && |done| <= k < |done| + |ops|
    ensures prog[..k] == done + ops[..k - |done|]
  {
    assert prog[..|done| + |ops|] == done + ops;
    assert prog[..k] == (done + ops)[..k];
  }

  lemma PrefixProgress(cfg: Config, start: nat, counts: seq<nat>, k: nat, j: nat)
    requires j <= |counts| && Milestone(cfg, start, counts, j) <= k
    requires if j < |counts| then k < Milestone(cfg, start, counts, j + 1) else k == Milestone(cfg, start, counts, j)
    ensures k <= |Program(cfg, Mode.Run, start, counts)|
    ensures Progress(Program(cfg, Mode.Run, start, counts)[..k]) == Shown(start, j)
  {
    var done := [SetProgress(start)] + Minutes(cfg, Mode.Run, start, counts[..j]);
    PrefixParts(cfg, start, counts, k, j);
    AfterWholeMinutes(cfg, start, counts[..j]);
    if j < |counts| {
      var ops, r := MinuteOps(cfg, Mode.Run, start + 60 * j, counts[j]), k - Milestone(cfg, start, counts, j);
      UnfinishedNoCounting(cfg, start + 60 * j, counts[j], r);
      ProgressKeeps(done, ops[..r]);
    }
  }

  lemma FirstPushes(first: Op, ops: seq<Op>)
    requires !first.Push?
    ensures Pushes([first] + ops) == Pushes(ops)
  {
    PushesConcat([first], ops);
    assert Pushes([first]) == [] && [] + Pushes(ops) == Pushes(ops);
  }

  lemma PrefixPushes(cfg: Config, start: nat, counts: seq<nat>, k: nat, j: nat)
    requires j <= |counts| && Milestone(cfg, start, counts, j) <= k
    requires if j < |counts| then k < Milestone(cfg, start, counts, j + 1) else k == Milestone(cfg, start, counts, j)
    ensures k <= |Program(cfg, Mode.Run, start, counts)|
    ensures var ms := Pushes(Program(cfg, Mode.Run, start, counts)[..k]);
      && Pushes(Minutes(cfg, Mode.Run, start, counts[..j])) <= ms
      && (j < |counts| ==> ms <= Pushes(Minutes(cfg, Mode.Run, start, counts[..j + 1])))
  {
    var first, early := SetProgress(start), Minutes(cfg, Mode.Run, start, counts[..j]);
    PrefixParts(cfg, start, counts, k, j);
    FirstPushes(first, early);
    if j < |counts| {
      var ops, r := MinuteOps(cfg, Mode.Run, start + 60 * j, counts[j]), k - Milestone(cfg, start, counts, j);
      PushesConcat([first] + early, ops[..r]);
      PushesPrefix(ops, r);
      Milestones(cfg, start, counts, j);
      PushesConcat(early, ops);
    }
  }

  /** In every state of a run, after its first operation: the counter shows the last finished minute, or
      the start; every message of the finished minutes has been pushed, and none of a minute after the
      next. */
  lemma RunProgress(cfg: Config, start: nat, counts: seq<nat>, n: nat, acts: seq<Action>, s: State) returns (j: nat)
    requires Fits(start, |counts|)
    requires Reaches(Program(cfg, Mode.Run, start, counts), n, acts, s) && s.pc >= 1
    ensures j <= |counts| && Milestone(cfg, start, counts, j) <= s.pc
    ensures j < |counts| ==> s.pc < Milestone(cfg, start, counts, j + 1)
    ensures s.progress == if j == 0 then start else start + 60 * (j - 1)
    ensures forall m :: InPhase(cfg, start, counts[..j], m) ==> m in s.pushed
    ensures j < |counts| ==> forall m :: m in s.pushed ==> InPhase(cfg, start, counts[..j + 1], m)
  {
    InvReached(Program(cfg, Mode.Run, start, counts), n, acts, s);
    assert counts[..|counts|] == counts;
    j := FindMinute(cfg, start, counts, s.pc, |counts|);
    PrefixProgress(cfg, start, counts, s.pc, j);
    PrefixPushes(cfg, start, counts, s.pc, j);
    MinutesMessages(cfg, Mode.Run, start, counts[..j]);
    if j < |counts| {
      MinutesMessages(cfg, Mode.Run, start, counts[..j + 1]);
    }
  }

  /** After a joined run the counter shows its last minute. */
  lemma JoinedRunProgress(cfg: Config, start: nat, counts: seq<nat>, n: nat, acts: seq<Action>, s: State)
    requires Reaches(Program(cfg, Mode.Run, start, counts), n, acts, s) && n >= 1 && AllExited(s)
    ensures s.progress == if counts == [] then start else start + 60 * (|counts| - 1)
  {
    JoinedMeansDone(Program(cfg, Mode.Run, start, counts), n, acts, s);
    AfterWholeMinutes(cfg, start, counts);
  }
}
