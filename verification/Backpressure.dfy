/**
 What the waits in the producer's loops achieve, as facts about its program alone: how long the
 queue can get, and that it never mixes two minutes of a prepare.
 Protocol.dfy carries them over to every interleaving with the workers.
 */
module Backpressure {
  import opened Messages
  import opened Preparer

  /** A walk over a program: the current and the largest queue bound, the progress counter, the
      timestamp pushed last, and whether a push may have mixed two timestamps in the queue. */
  datatype Audit = Audit(bound: nat, peak: nat, progress: nat, last: nat, mixed: bool)

  const START := Audit(0, 0, 0, 0, false)

  function AuditOp(a: Audit, op: Op): Audit {
    var b := NextBound(a.bound, op);
    Audit(b,
          if a.peak < b then b else a.peak,
          NextProgress(a.progress, op),
          if op.Push? then op.m.ts else a.last,
          a.mixed || (op.Push? && a.bound > 0 && a.last != op.m.ts))
  }

  function AuditOps(a: Audit, ops: seq<Op>): Audit {
    if ops == [] then a else AuditOp(AuditOps(a, ops[..|ops| - 1]), ops[|ops| - 1])
  }

  lemma {:induction false} AuditConcat(a: Audit, x: seq<Op>, y: seq<Op>)
    ensures AuditOps(a, x + y) == AuditOps(AuditOps(a, x), y)
  {
    if y == [] {
      assert x + y == x;
    } else {
      assert (x + y)[..|x + y| - 1] == x + y[..|y| - 1];
      AuditConcat(a, x, y[..|y| - 1]);
    }
  }

  lemma AuditSingle(a: Audit, x: Op)
    ensures AuditOps(a, [x]) == AuditOp(a, x)
  {
    assert [x][..0] == [];
  }

  lemma AuditPair(a: Audit, x: Op, y: Op)
    ensures AuditOps(a, [x, y]) == AuditOp(AuditOp(a, x), y)
  {
    assert [x, y] == [x] + [y];
    AuditConcat(a, [x], [y]);
    AuditSingle(a, x);
    AuditSingle(AuditOp(a, x), y);
  }

  // ---------------------------------------------------------------- what an audit means

  /** Everything that may still be queued carries the timestamp pushed last. */
  ghost predicate SameMinute(ops: seq<Op>) {
    var ms := Pushes(ops);
    forall i :: 0 <= i < |ms| && |ms| - Bound(ops) <= i ==> ms[i].ts == ms[|ms| - 1].ts
  }

  lemma {:induction false} AuditMeaning(ops: seq<Op>)
    ensures var a := AuditOps(START, ops);
      && a.bound == Bound(ops) <= |Pushes(ops)| && a.bound <= a.peak && a.progress == Progress(ops)
      && (Pushes(ops) != [] ==> a.last == Pushes(ops)[|Pushes(ops)| - 1].ts)
      && (!a.mixed ==> SameMinute(ops))
  {
    if ops != [] {
      AuditMeaning(ops[..|ops| - 1]);
    }
  }

  /** The peak bounds, and a clean audit covers, every intermediate point of the program. */
  lemma AuditPrefix(ops: seq<Op>, k: nat)
    requires k <= |ops|
    ensures Bound(ops[..k]) <= AuditOps(START, ops).peak
    ensures !AuditOps(START, ops).mixed ==> SameMinute(ops[..k])
  {
    assert ops == ops[..k] + ops[k..];
    AuditConcat(START, ops[..k], ops[k..]);
    AuditGrows(AuditOps(START, ops[..k]), ops[k..]);
    AuditMeaning(ops[..k]);
  }

  lemma {:induction false} AuditGrows(a: Audit, ops: seq<Op>)
    ensures a.peak <= AuditOps(a, ops).peak && (a.mixed ==> AuditOps(a, ops).mixed)
  {
    if ops != [] {
      AuditGrows(a, ops[..|ops| - 1]);
    }
  }

  lemma AuditLastMinute(a: Audit, cfg: Config, mode: Mode, start: nat, counts: seq<nat>, k: nat)
    requires |counts| == k + 1
    ensures AuditOps(a, Minutes(cfg, mode, start, counts))
         == AuditOps(AuditOps(a, Minutes(cfg, mode, start, counts[..k])),
                     MinuteOps(cfg, mode, start + 60 * k, counts[k]))
  {
    AuditConcat(a, Minutes(cfg, mode, start, counts[..k]), MinuteOps(cfg, mode, start + 60 * k, counts[k]));
  }

  // ---------------------------------------------------------------- prepare

  /** Nothing mixed so far, the cap kept so far, and `ts` may be pushed. */
  ghost predicate Sound(a: Audit, cap: nat, ts: nat) {
    !a.mixed && a.peak <= cap && (a.bound == 0 || a.last == ts % TWO_TO_THE_32)
  }

  lemma {:induction false} AuditTables(a: Audit, cap: nat, ts: nat, d: nat, n: nat)
    requires a.bound + n <= cap && a.peak <= cap
    ensures var b := AuditOps(a, TablePushes(ts, d, n));
      && b.bound == a.bound + n && b.peak <= cap && b.progress == a.progress
      && (Sound(a, cap, ts) ==> Sound(b, cap, ts))
  {
    if n > 0 {
      AuditTables(a, cap, ts, d, n - 1);
      Last(TablePushes(ts, d, n - 1), Push(NewMessage(ts, d, n)));
    }
  }

  lemma AuditDevice(cfg: Config, a: Audit, ts: nat, d: nat)
    requires Sound(a, 2 * cfg.threads + cfg.tables, ts) && a.bound <= 2 * cfg.threads
    ensures var b := AuditOps(a, TablePushes(ts, d, cfg.tables) + DeviceTail(cfg, Prepare));
      && Sound(b, 2 * cfg.threads + cfg.tables, ts) && b.bound <= 2 * cfg.threads
      && b.progress == a.progress + cfg.tables
  {
    AuditConcat(a, TablePushes(ts, d, cfg.tables), DeviceTail(cfg, Prepare));
    AuditTables(a, 2 * cfg.threads + cfg.tables, ts, d, cfg.tables);
    AuditPair(AuditOps(a, TablePushes(ts, d, cfg.tables)), AddProgress(cfg.tables), WaitSize(cfg.threads * 2));
  }

  lemma {:induction false} AuditDevices(cfg: Config, a: Audit, ts: nat, n: nat)
    requires Sound(a, 2 * cfg.threads + cfg.tables, ts) && a.bound <= 2 * cfg.threads
    ensures var b := AuditOps(a, DeviceOps(cfg, Prepare, ts, n));
      && Sound(b, 2 * cfg.threads + cfg.tables, ts) && b.bound <= 2 * cfg.threads
      && b.progress == a.progress + n * cfg.tables
  {
    if n > 0 {
      var before, row := DeviceOps(cfg, Prepare, ts, n - 1), TablePushes(ts, n, cfg.tables) + DeviceTail(cfg, Prepare);
      AuditDevices(cfg, a, ts, n - 1);
      AuditConcat(a, before, row);
      AuditDevice(cfg, AuditOps(a, before), ts, n);
      assert n * cfg.tables == (n - 1) * cfg.tables + cfg.tables;
    }
  }

  /** Between two minutes. */
  ghost predicate Cleared(cfg: Config, a: Audit) {
    !a.mixed && a.peak <= 2 * cfg.threads + cfg.tables && a.bound == 0
  }

  /** Cleared again, with `load` more messages counted. */
  ghost predicate Loaded(cfg: Config, a: Audit, b: Audit, load: nat) {
    Cleared(cfg, b) && b.progress == a.progress + load
  }

  lemma AuditMinute(cfg: Config, a: Audit, ts: nat, n: nat)
    requires Cleared(cfg, a)
    ensures Loaded(cfg, a, AuditOps(a, MinuteOps(cfg, Prepare, ts, n)), n * cfg.tables)
  {
    AuditDevices(cfg, a, ts, n);
    AuditConcat(a, DeviceOps(cfg, Prepare, ts, n), [WaitEmpty]);
    AuditSingle(AuditOps(a, DeviceOps(cfg, Prepare, ts, n)), WaitEmpty);
  }

  lemma Distribute(a: nat, b: nat, c: nat)
    ensures (a + b) * c == a * c + b * c
  {
  }

  lemma LoadedTwice(cfg: Config, a: Audit, b: Audit, c: Audit, load1: nat, load2: nat)
    requires Loaded(cfg, a, b, load1) && Loaded(cfg, b, c, load2)
    ensures Loaded(cfg, a, c, load1 + load2)
  {
  }

  lemma SumTimes(counts: seq<nat>, k: nat, tables: nat)
    requires |counts| == k + 1
    ensures Sum(counts) * tables == Sum(counts[..k]) * tables + counts[k] * tables
  {
    Distribute(Sum(counts[..k]), counts[k], tables);
  }

  lemma AuditNextMinute(cfg: Config, a: Audit, start: nat, counts: seq<nat>, k: nat, load: nat, more: nat)
    requires |counts| == k + 1 && more == counts[k] * cfg.tables
    requires Loaded(cfg, a, AuditOps(a, Minutes(cfg, Prepare, start, counts[..k])), load)
    ensures Loaded(cfg, a, AuditOps(a, Minutes(cfg, Prepare, start, counts)), load + more)
  {
    var mid := AuditOps(a, Minutes(cfg, Prepare, start, counts[..k]));
    AuditLastMinute(a, cfg, Prepare, start, counts, k);
    AuditMinute(cfg, mid, start + 60 * k, counts[k]);
    LoadedTwice(cfg, a, mid, AuditOps(a, Minutes(cfg, Prepare, start, counts)), load, more);
  }

  lemma {:induction false} AuditMinutes(cfg: Config, a: Audit, start: nat, counts: seq<nat>)
    requires Cleared(cfg, a)
    ensures Loaded(cfg, a, AuditOps(a, Minutes(cfg, Prepare, start, counts)), Sum(counts) * cfg.tables)
  {
    if counts != [] {
      var k := |counts| - 1;
      AuditMinutes(cfg, a, start, counts[..k]);
      AuditNextMinute(cfg, a, start, counts, k, Sum(counts[..k]) * cfg.tables, counts[k] * cfg.tables);
      SumTimes(counts, k, cfg.tables);
    }
  }

  /** Prepare: never more than two items per worker plus one device's tables, never two minutes
      in the queue, and the counter ends at the size of the load. */
  lemma PrepareAudit(cfg: Config, start: nat)
    ensures var a := AuditOps(START, Program(cfg, Prepare, start, AllDevices(cfg)));
      && !a.mixed && a.peak <= 2 * cfg.threads + cfg.tables
      && a.progress == Sum(AllDevices(cfg)) * cfg.tables
  {
    AuditConcat(START, [SetProgress(0)], Minutes(cfg, Prepare, start, AllDevices(cfg)));
    AuditMinutes(cfg, AuditOps(START, [SetProgress(0)]), start, AllDevices(cfg));
  }

  // ---------------------------------------------------------------- run

  lemma {:induction false} AuditRunDevices(cfg: Config, a: Audit, cap: nat, ts: nat, n: nat)
    requires a.peak <= cap && a.bound + n * cfg.tables <= cap
    ensures var b := AuditOps(a, DeviceOps(cfg, Mode.Run, ts, n));
      b.peak <= cap && b.bound == a.bound + n * cfg.tables
  {
    if n > 0 {
      var before, row := DeviceOps(cfg, Mode.Run, ts, n - 1), TablePushes(ts, n, cfg.tables);
      assert n * cfg.tables == (n - 1) * cfg.tables + cfg.tables;
      AuditRunDevices(cfg, a, cap, ts, n - 1);
      AuditConcat(a, before, row);
      AuditTables(AuditOps(a, before), cap, ts, n, cfg.tables);
      assert row + DeviceTail(cfg, Mode.Run) == row;
    }
  }

  function RunCap(cfg: Config): nat {
    100000 * cfg.threads + cfg.devices * cfg.tables
  }

  /** Between two minutes. */
  ghost predicate Throttled(cfg: Config, a: Audit) {
    a.peak <= RunCap(cfg) && a.bound <= 100000 * cfg.threads
  }

  lemma AuditRunTail(a: Audit, cap: nat, limit: nat, ts: nat)
    requires a.peak <= cap && limit <= cap
    ensures var b := AuditOps(a, [WaitSize(limit), SetProgress(ts)]); b.peak <= cap && b.bound <= limit
  {
    AuditPair(a, WaitSize(limit), SetProgress(ts));
  }

  lemma FewerDevices(n: nat, devices: nat, tables: nat)
    requires n <= devices
    ensures n * tables <= devices * tables
  {
  }

  lemma AuditRunMinute(cfg: Config, a: Audit, ts: nat, n: nat)
    requires n <= cfg.devices && Throttled(cfg, a)
    ensures Throttled(cfg, AuditOps(a, MinuteOps(cfg, Mode.Run, ts, n)))
  {
    FewerDevices(n, cfg.devices, cfg.tables);
    AuditRunDevices(cfg, a, RunCap(cfg), ts, n);
    AuditConcat(a, DeviceOps(cfg, Mode.Run, ts, n), MinuteTail(cfg, Mode.Run, ts));
    AuditRunTail(AuditOps(a, DeviceOps(cfg, Mode.Run, ts, n)), RunCap(cfg), cfg.threads * 100000, ts);
  }

  lemma {:induction false} AuditRunMinutes(cfg: Config, a: Audit, start: nat, counts: seq<nat>)
    requires Throttled(cfg, a) && forall k :: 0 <= k < |counts| ==> counts[k] <= cfg.devices
    ensures Throttled(cfg, AuditOps(a, Minutes(cfg, Mode.Run, start, counts)))
  {
    if counts != [] {
      var k := |counts| - 1;
      var mid := AuditOps(a, Minutes(cfg, Mode.Run, start, counts[..k]));
      AuditRunMinutes(cfg, a, start, counts[..k]);
      AuditRunMinute(cfg, mid, start + 60 * k, counts[k]);
      AuditLastMinute(a, cfg, Mode.Run, start, counts, k);
    }
  }

  /** Run: a hundred thousand items per worker plus one minute's work. */
  lemma RunAudit(cfg: Config, start: nat, counts: seq<nat>)
    requires ValidCounts(cfg, Mode.Run, counts)
    ensures AuditOps(START, Program(cfg, Mode.Run, start, counts)).peak
         <= 100000 * cfg.threads + cfg.devices * cfg.tables
  {
    AuditConcat(START, [SetProgress(start)], Minutes(cfg, Mode.Run, start, counts));
    AuditRunMinutes(cfg, AuditOps(START, [SetProgress(start)]), start, counts);
  }
}
