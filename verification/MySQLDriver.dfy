/**
 The parts of src/MySQLDriver.cpp the pipeline depends on: the worker loop, the choice of the
 metrics of one message, the insertion of its rows, and the timestamp range of the tables.
 A database is the set of its primary keys.
 */
module MySQLDriver {
  import opened Messages
  import opened TsQueue
  import opened Preparer

  /** Primary key of table `metrics<table>`: (device_id, metric_id, ts). */
  datatype Row = Row(table: nat, device: nat, metric: nat, ts: nat)

  const MAX_METRICS: int := 1000

  // ---------------------------------------------------------------- the worker loop

  /** One worker by itself, after shutdown has been requested: the loop empties the queue in order
      and never blocks. `done` are the messages processed. Protocol.dfy has the same loop among
      other threads. */
  method InsertData(q: SharedQueue<Message>, t: Tid, processingComplete: bool) returns (done: seq<Message>)
    requires processingComplete && q.asleep == {}
    modifies q
    ensures q.items == [] && q.asleep == {}
    ensures done == old(q.items)
  {
    done := [];
    var empty := q.Empty();
    while !processingComplete || !empty
      invariant q.asleep == {} && (empty <==> q.items == [])
      invariant done + q.items == old(q.items)
      decreases |q.items|
    {
      var innerEmpty := q.Empty();
      if !innerEmpty {
        ghost var before, queued := done, q.items;
        var front := q.WaitAndPop(t);
        MoveFront(before, queued);
        done := done + [front.value];
      }
      empty := q.Empty();
    }
  }

  lemma MoveFront(done: seq<Message>, queued: seq<Message>)
    requires queued != []
    ensures (done + [queued[0]]) + queued[1..] == done + queued
  {
  }

  // ---------------------------------------------------------------- the metrics of a message

  ghost predicate InRange(mc: int) {
    1 <= mc <= MAX_METRICS
  }

  ghost function Usable(draws: seq<int>): set<nat> {
    set mc: nat | mc in draws && InRange(mc)
  }

  /** The usable draws in order, each at its first occurrence. */
  ghost function Firsts(draws: seq<int>): seq<int> {
    if draws == [] then [] else
    var before, mc := draws[..|draws| - 1], draws[|draws| - 1];
    Firsts(before) + if InRange(mc) && mc !in Usable(before) then [mc] else []
  }

  lemma {:induction false} FirstsAreDistinct(draws: seq<int>)
    ensures forall mc :: mc in Firsts(draws) <==> mc in Usable(draws)
    ensures forall i, j :: 0 <= i < j < |Firsts(draws)| ==> Firsts(draws)[i] != Firsts(draws)[j]
  {
    if draws != [] {
      var k := |draws| - 1;
      FirstsAreDistinct(draws[..k]);
      assert draws == draws[..k] + [draws[k]];
    }
  }

  lemma FirstsNext(draws: seq<int>, i: nat)
    requires i < |draws|
    ensures Usable(draws[..i + 1]) == Usable(draws[..i]) + if InRange(draws[i]) then {draws[i]} else {}
    ensures Firsts(draws[..i + 1])
         == Firsts(draws[..i]) + if InRange(draws[i]) && draws[i] !in Usable(draws[..i]) then [draws[i]] else []
  {
    assert draws[..i + 1][..i] == draws[..i];
    assert draws[..i + 1] == draws[..i] + [draws[i]];
  }

  /** The metrics loop of InsertQuery over a stream of normal draws long enough for it to end:
      `values` are the metric ids of the VALUES list, in order. */
  method DistinctMetrics(draws: seq<int>, metricsCnt: nat) returns (values: seq<int>, s: set<nat>, ghost used: nat)
    requires metricsCnt <= |Usable(draws)|
    ensures |values| == |s| == metricsCnt
    ensures used <= |draws| && values == Firsts(draws[..used]) && s == Usable(draws[..used])
    ensures forall mc :: mc in values ==> InRange(mc)
    ensures forall i, j :: 0 <= i < j < |values| ==> values[i] != values[j]
  {
    values, s := [], {};
    assert draws[..|draws|] == draws;
    var i := 0;
    while |s| < metricsCnt
      invariant i <= |draws| && |values| == |s| <= metricsCnt
      invariant values == Firsts(draws[..i]) && s == Usable(draws[..i])
      decreases |draws| - i
    {
      FirstsNext(draws, i);
      AddedSize(s, draws[i]);
      var sizeBefore, mc := |s|, draws[i];
      i := i + 1;
      if mc < 1 || mc > MAX_METRICS {
        continue;
      }
      s := s + {mc};
      if sizeBefore == |s| {
        continue;
      }
      values := values + [mc];
    }
    used := i;
    FirstsAreDistinct(draws[..i]);
  }

  lemma AddedSize(s: set<nat>, x: int)
    ensures |s + {x}| == |s| + if x in s then 0 else 1
  {
    if x in s {
      assert s + {x} == s;
    }
  }

  // ---------------------------------------------------------------- inserting

  function RowsOf(m: Message, metrics: set<nat>): set<Row> {
    set mc | mc in metrics :: Row(m.table, m.device, mc, m.ts)
  }

  /** None: a duplicate key, which the driver turns into a runtime_error. */
  function InsertQuery(db: set<Row>, m: Message, metrics: set<nat>): Option<set<Row>> {
    if RowsOf(m, metrics) !! db then Some(db + RowsOf(m, metrics)) else None
  }

  /** Messages inserted one after the other; `picks[i]` are the metrics chosen for `ms[i]`. */
  function InsertAll(db: set<Row>, ms: seq<Message>, picks: seq<set<nat>>): Option<set<Row>>
    requires |ms| == |picks|
  {
    if ms == [] then Some(db) else
    var k := |ms| - 1;
    match InsertAll(db, ms[..k], picks[..k])
    case None => None
    case Some(db1) => InsertQuery(db1, ms[k], picks[k])
  }

  /** Row r is one that message m inserts with metrics s: the message's table, device and timestamp, and
      one of the metrics. */
  ghost predicate Carries(m: Message, s: set<nat>, r: Row) {
    r.table == m.table && r.device == m.device && r.ts == m.ts && r.metric in s
  }

  lemma RowsExactly(m: Message, s: set<nat>)
    ensures forall r :: r in RowsOf(m, s) <==> Carries(m, s, r)
    ensures |RowsOf(m, s)| == |s|
  {
    forall r ensures r in RowsOf(m, s) <==> Carries(m, s, r) {
      if Carries(m, s, r) {
        assert r == Row(m.table, m.device, r.metric, m.ts);
      }
    }
    RowCount(m, s);
  }

  lemma {:induction false} RowCount(m: Message, s: set<nat>)
    ensures |RowsOf(m, s)| == |s|
  {
    if s == {} {
      assert RowsOf(m, s) == {};
    } else {
      var mc := SomeMember(s);
      var row := Row(m.table, m.device, mc, m.ts);
      RowCount(m, s - {mc});
      assert RowsOf(m, s) == RowsOf(m, s - {mc}) + {row};
      assert row !in RowsOf(m, s - {mc});
    }
  }

  lemma SomeMember(s: set<nat>) returns (x: nat)
    requires s != {}
    ensures x in s
  {
    x :| x in s;
  }

  ghost predicate SomeoneCarries(ms: seq<Message>, picks: seq<set<nat>>, r: Row)
    requires |ms| == |picks|
  {
    exists i :: 0 <= i < |ms| && Carries(ms[i], picks[i], r)
  }

  function TotalSize(picks: seq<set<nat>>): nat {
    if picks == [] then 0 else TotalSize(picks[..|picks| - 1]) + |picks[|picks| - 1]|
  }

  /** A statement goes through exactly when none of its rows is there, and then adds them all. */
  lemma InsertOne(db: set<Row>, m: Message, s: set<nat>)
    ensures InsertQuery(db, m, s).Some? <==> forall r :: Carries(m, s, r) ==> r !in db
    ensures InsertQuery(db, m, s).Some? ==> var db1 := InsertQuery(db, m, s).value;
      |db1| == |db| + |s| && forall r :: r in db1 <==> r in db || Carries(m, s, r)
  {
    RowsExactly(m, s);
    if InsertQuery(db, m, s).Some? {
      assert |db + RowsOf(m, s)| == |db| + |RowsOf(m, s)|;
    }
  }

  /** Whatever goes through without a duplicate key has added, to what was there, each message's rows, one
      for each of its metrics. */
  lemma {:induction false} InsertsExactly(db: set<Row>, ms: seq<Message>, picks: seq<set<nat>>)
    requires |ms| == |picks| && InsertAll(db, ms, picks).Some?
    ensures forall r :: r in InsertAll(db, ms, picks).value <==> r in db || SomeoneCarries(ms, picks, r)
    ensures |InsertAll(db, ms, picks).value| == |db| + TotalSize(picks)
  {
    if ms != [] {
      var k := |ms| - 1;
      var db1 := InsertAll(db, ms[..k], picks[..k]).value;
      InsertsExactly(db, ms[..k], picks[..k]);
      InsertOne(db1, ms[k], picks[k]);
      forall r ensures SomeoneCarries(ms, picks, r) <==>
        SomeoneCarries(ms[..k], picks[..k], r) || Carries(ms[k], picks[k], r)
      {
        LastCarries(ms, picks, k, r);
      }
    }
  }

  lemma LastCarries(ms: seq<Message>, picks: seq<set<nat>>, k: nat, r: Row)
    requires |ms| == |picks| == k + 1
    ensures SomeoneCarries(ms, picks, r) <==>
      SomeoneCarries(ms[..k], picks[..k], r) || Carries(ms[k], picks[k], r)
  {
    if SomeoneCarries(ms[..k], picks[..k], r) {
      var i :| 0 <= i < k && Carries(ms[..k][i], picks[..k][i], r);
      assert Carries(ms[i], picks[i], r);
    }
    if i :| 0 <= i < |ms| && Carries(ms[i], picks[i], r) && i < k {
      assert Carries(ms[..k][i], picks[..k][i], r);
    }
  }

  /** Two messages, or a message and what was there, claim the same key. */
  ghost predicate Collides(db: set<Row>, ms: seq<Message>, picks: seq<set<nat>>, i: nat)
    requires i < |ms| == |picks|
  {
    exists r :: Carries(ms[i], picks[i], r) && (r in db || SomeoneCarries(ms[..i], picks[..i], r))
  }

  /** Inserting fails exactly when some key is claimed twice. */
  lemma {:induction false} FailsExactly(db: set<Row>, ms: seq<Message>, picks: seq<set<nat>>)
    requires |ms| == |picks|
    ensures InsertAll(db, ms, picks).None? <==> exists i: nat :: i < |ms| && Collides(db, ms, picks, i)
  {
    if ms != [] {
      var k := |ms| - 1;
      FailsExactly(db, ms[..k], picks[..k]);
      forall i: nat | i < k ensures Collides(db, ms, picks, i) <==> Collides(db, ms[..k], picks[..k], i) {
        assert ms[..k][..i] == ms[..i] && picks[..k][..i] == picks[..i];
      }
      if InsertAll(db, ms[..k], picks[..k]).Some? {
        LastFails(db, ms, picks, k);
      }
    }
  }

  lemma LastFails(db: set<Row>, ms: seq<Message>, picks: seq<set<nat>>, k: nat)
    requires |ms| == |picks| == k + 1 && InsertAll(db, ms[..k], picks[..k]).Some?
    ensures Collides(db, ms, picks, k) <==> InsertAll(db, ms, picks).None?
  {
    InsertsExactly(db, ms[..k], picks[..k]);
    InsertOne(InsertAll(db, ms[..k], picks[..k]).value, ms[k], picks[k]);
  }

  ghost predicate Distinct(ms: seq<Message>) {
    forall i, j :: 0 <= i < j < |ms| ==> ms[i] != ms[j]
  }

  /** Different messages at new timestamps never collide, in whatever order they are inserted. */
  lemma NoCollision(db: set<Row>, ms: seq<Message>, picks: seq<set<nat>>)
    requires |ms| == |picks| && Distinct(ms)
    requires forall m :: m in ms ==> m.op == Insert && forall r :: r in db ==> r.ts != m.ts
    ensures InsertAll(db, ms, picks).Some?
    ensures forall r :: r in InsertAll(db, ms, picks).value <==> r in db || SomeoneCarries(ms, picks, r)
    ensures |InsertAll(db, ms, picks).value| == |db| + TotalSize(picks)
  {
    FailsExactly(db, ms, picks);
    forall i: nat | i < |ms| ensures !Collides(db, ms, picks, i) {
      NoneCollides(db, ms, picks, i);
    }
    InsertsExactly(db, ms, picks);
  }

  lemma NoneCollides(db: set<Row>, ms: seq<Message>, picks: seq<set<nat>>, i: nat)
    requires i < |ms| == |picks| && Distinct(ms)
    requires forall m :: m in ms ==> m.op == Insert && forall r :: r in db ==> r.ts != m.ts
    ensures !Collides(db, ms, picks, i)
  {
    forall r | Carries(ms[i], picks[i], r) ensures r !in db && !SomeoneCarries(ms[..i], picks[..i], r) {
      assert ms[i] in ms;
      forall j | 0 <= j < i ensures !Carries(ms[..i][j], picks[..i][j], r) {
        assert ms[j] != ms[i] && ms[j] in ms;
      }
    }
  }

  /** One message as the driver handles it: it picks the metrics and inserts that many rows. */
  method InsertPicked(db: set<Row>, m: Message, draws: seq<int>, metricsCnt: nat) returns (result: Option<set<Row>>)
    requires metricsCnt <= |Usable(draws)|
    ensures result.Some? ==> |result.value| == |db| + metricsCnt && db <= result.value
    ensures result.Some? ==> forall r :: r in result.value && r !in db ==>
      r.table == m.table && r.device == m.device && r.ts == m.ts && InRange(r.metric) && r.metric in draws
    ensures result.None? ==> exists r :: r in db && r.table == m.table && r.device == m.device && r.ts == m.ts
  {
    var values, s, used := DistinctMetrics(draws, metricsCnt);
    InsertOne(db, m, s);
    result := InsertQuery(db, m, s);
  }

  // ---------------------------------------------------------------- the timestamp range

  datatype TsRange = TsRange(min: nat, max: nat)

  const NOT_SET: nat := 0xFFFF_FFFF_FFFF_FFFF

  /** What `select min(ts), max(ts)` yields for one table: NULLs, read as 0, when it is empty. */
  ghost predicate IsTableRange(db: set<Row>, table: nat, range: TsRange) {
    if !HasRows(db, table) then
      range == TsRange(0, 0)
    else
      && (forall r :: r in db && r.table == table ==> range.min <= r.ts <= range.max)
      && (exists r :: r in db && r.table == table && r.ts == range.min)
      && (exists r :: r in db && r.table == table && r.ts == range.max)
  }

  ghost predicate HasRows(db: set<Row>, table: nat) {
    exists r :: r in db && r.table == table
  }

  /** `max` is the newest timestamp of the tables first .. last, or StartTimestamp. */
  ghost predicate IsMaxTs(db: set<Row>, first: nat, last: nat, max: nat) {
    && max >= START_TIMESTAMP
    && (forall r :: r in db && first <= r.table <= last ==> r.ts <= max)
    && (max == START_TIMESTAMP || exists r :: r in db && first <= r.table <= last && r.ts == max)
  }

  ghost predicate AllHaveRows(db: set<Row>, first: nat, last: nat) {
    forall t: nat :: first <= t <= last ==> HasRows(db, t)
  }

  ghost predicate NoneOlder(db: set<Row>, first: nat, last: nat, min: nat) {
    forall r :: r in db && first <= r.table <= last ==> min <= r.ts
  }

  /** `min` is the oldest timestamp of the tables first .. last, or StartTimestamp if that is older;
      0 as soon as one of them is empty. */
  ghost predicate IsMinTs(db: set<Row>, first: nat, last: nat, min: nat) {
    if AllHaveRows(db, first, last) then
      && min <= START_TIMESTAMP && NoneOlder(db, first, last, min)
      && (min == START_TIMESTAMP || exists r :: r in db && first <= r.table <= last && r.ts == min)
    else
      min == 0
  }

  /** The minimum after one more table. */
  lemma NextMinTs(db: set<Row>, first: nat, table: nat, min: nat, range: TsRange)
    requires 1 <= first <= table && IsTableRange(db, table, range)
    requires IsMinTs(db, first, table - 1, min)
    ensures IsMinTs(db, first, table, if range.min < min then range.min else min)
  {
    var all := AllHaveRows(db, first, table);
    assert all <==> AllHaveRows(db, first, table - 1) && HasRows(db, table);
  }

  /** `results[i]` is the query result for table i + 1. The source means to restrict a call with a
      table id to that table, but the assignment to `start_table` declares a new variable: it scans
      the tables 1 .. tableId. */
  method GetTimestampRange(ghost db: set<Row>, results: seq<TsRange>, tableId: nat) returns (ret: TsRange)
    requires tableId <= |results|
    requires forall i :: 0 <= i < |results| ==> IsTableRange(db, i + 1, results[i])
    ensures var last := if tableId == 0 then |results| else tableId;
      IsMaxTs(db, 1, last, ret.max) && IsMinTs(db, 1, last, ret.min)
  {
    ret := TsRange(START_TIMESTAMP, START_TIMESTAMP);
    var startTable, endTable := 1, |results|;
    if tableId != 0 {
      endTable := tableId;
    }
    var table := startTable;
    while table <= endTable
      invariant 1 <= table <= endTable + 1 && ret.min <= START_TIMESTAMP
      invariant IsMaxTs(db, 1, table - 1, ret.max) && IsMinTs(db, 1, table - 1, ret.min)
    {
      var res := results[table - 1];
      NextMinTs(db, 1, table, ret.min, res);
      ret := TsRange(if res.min < ret.min then res.min else ret.min, if res.max > ret.max then res.max else ret.max);
      assert ret.min != NOT_SET;  // so the branch for an unset minimum is dead
      table := table + 1;
    }
  }

  /** When the scan of the tables 1 .. t gives the range of table t alone: no earlier table may hold a
      newer row; and unless the minimum is 0 anyway, each must hold rows, none of them older. */
  lemma SingleTableExactly(db: set<Row>, t: nat, scan: TsRange, own: TsRange)
    requires t >= 1
    requires IsMaxTs(db, 1, t, scan.max) && IsMinTs(db, 1, t, scan.min)
    requires IsMaxTs(db, t, t, own.max) && IsMinTs(db, t, t, own.min)
    ensures scan.max == own.max <==> forall r :: r in db && 1 <= r.table < t ==> r.ts <= own.max
    ensures scan.min == own.min <==>
      own.min == 0 || (AllHaveRows(db, 1, t - 1) && NoneOlder(db, 1, t - 1, own.min))
  {
    assert AllHaveRows(db, 1, t) <==> AllHaveRows(db, 1, t - 1) && HasRows(db, t);
    assert AllHaveRows(db, t, t) <==> HasRows(db, t);
  }
}
