/**
 A campaign: one prepare, which starts from freshly created tables, followed by any number of
 benchmark runs, each joined before the next one reads the timestamp range.
 */
module Campaign {
  import opened Messages
  import opened Preparer
  import opened Protocol
  import opened Pipeline
  import opened Join
  import opened MySQLDriver

  /** One invocation of the program: its configuration and device counts, the newest timestamp it
      found, the interleaving it went through, its last state, and the metrics its workers chose
      for the messages, in the order of completion. */
  datatype Invocation = Invocation(
    cfg: Config, counts: seq<nat>, maxTs: nat, acts: seq<Action>, end: State, picks: seq<set<nat>>)

  function ModeOf(first: bool): Mode {
    if first then Prepare else Mode.Run
  }

  function StartOf(first: bool, maxTs: nat): nat {
    if first then PrepStart(maxTs) else RunStart(maxTs)
  }

  ghost predicate Joined(v: Invocation, first: bool, tables: nat) {
    && v.cfg.threads >= 1 && v.cfg.devices >= 1 && v.cfg.tables == tables
    && ValidCounts(v.cfg, ModeOf(first), v.counts)
    && Reaches(Program(v.cfg, ModeOf(first), StartOf(first, v.maxTs), v.counts), v.cfg.threads, v.acts, v.end)
    && AllExited(v.end)
    && Picked(v)
  }

  /** Each inserted message carries at least one metric. */
  ghost predicate Picked(v: Invocation) {
    && |v.picks| == |v.end.completed|
    && forall i :: 0 <= i < |v.picks| ==> SomeMetric(v.picks[i])
  }

  ghost predicate SomeMetric(s: set<nat>) {
    exists mc :: mc in s && InRange(mc)
  }

  /** The database after the invocations; None if some insert hit a duplicate key. */
  ghost function After(vs: seq<Invocation>): Option<set<Row>> {
    if vs == [] then Some({}) else
    var v := vs[|vs| - 1];
    match After(vs[..|vs| - 1])
    case None => None
    case Some(db) => if |v.picks| == |v.end.completed| then InsertAll(db, v.end.completed, v.picks) else None
  }

  ghost predicate IsCampaign(vs: seq<Invocation>, tables: nat) {
    vs == [] || (
      var k := |vs| - 1;
      && IsCampaign(vs[..k], tables)
      && Joined(vs[k], k == 0, tables)
      && (After(vs[..k]).Some? ==> IsMaxTs(After(vs[..k]).value, 1, tables, vs[k].maxTs)))
  }

  function TotalMins(vs: seq<Invocation>): nat {
    if vs == [] then 0 else TotalMins(vs[..|vs| - 1]) + vs[|vs| - 1].cfg.mins
  }

  /** Minute j of a table, counted from StartTimestamp. */
  ghost predicate HasMinute(db: set<Row>, table: nat, j: nat) {
    exists r :: r in db && r.table == table && r.ts == START_TIMESTAMP + 60 * j
  }

  ghost predicate OnGrid(r: Row, tables: nat, n: nat) {
    && 1 <= r.table <= tables
    && START_TIMESTAMP < r.ts <= START_TIMESTAMP + 60 * n && (r.ts - START_TIMESTAMP) % 60 == 0
  }

  /** Rows exist at exactly the timestamps StartTimestamp + 60 j, 1 <= j <= n, and every table has
      some at each of them. */
  ghost predicate Tiled(db: set<Row>, tables: nat, n: nat) {
    && (forall r :: r in db ==> OnGrid(r, tables, n))
    && (forall j: nat, t: nat :: 1 <= j <= n && 1 <= t <= tables ==> HasMinute(db, t, j))
  }

  lemma NewestOfTiled(db: set<Row>, tables: nat, n: nat, max: nat)
    requires Tiled(db, tables, n) && tables >= 1 && IsMaxTs(db, 1, tables, max)
    ensures max == START_TIMESTAMP + 60 * n
  {
    if n > 0 {
      assert HasMinute(db, 1, n);
    }
  }

  lemma CompletedMessages(v: Invocation, first: bool, tables: nat)
    requires Joined(v, first, tables) && Fits(StartOf(first, v.maxTs), v.cfg.mins)
    ensures Distinct(v.end.completed)
    ensures forall m :: m in v.end.completed <==> InPhase(v.cfg, StartOf(first, v.maxTs), v.counts, m)
  {
    var prog := Program(v.cfg, ModeOf(first), StartOf(first, v.maxTs), v.counts);
    var ms, done := Pushes(prog), v.end.completed;
    PhaseMessages(v.cfg, ModeOf(first), StartOf(first, v.maxTs), v.counts);
    JoinedMeansDone(prog, v.cfg.threads, v.acts, v.end);
    forall m ensures m in done <==> m in ms {
      assert m in done <==> m in multiset(done);
      assert m in ms <==> m in multiset(ms);
    }
    forall i, j | 0 <= i < j < |done| ensures done[i] != done[j] {
      NoDuplicates(ms, done[j]);
      AtMostOnce(done, i, j);
    }
  }

  lemma AtMostOnce(ms: seq<Message>, i: nat, j: nat)
    requires i < j < |ms| && multiset(ms)[ms[j]] <= 1
    ensures ms[i] != ms[j]
  {
    assert ms == ms[..j] + ms[j..];
    assert ms[j] in ms[j..];
    assert ms[i] in ms[..j];
  }

  lemma NewRowsOnGrid(v: Invocation, n: nat, start: nat, tables: nat, r: Row)
    requires start == START_TIMESTAMP + 60 * (n + 1)
    requires Picked(v) && v.cfg.tables == tables && |v.counts| == v.cfg.mins
    requires forall m :: m in v.end.completed ==> InPhase(v.cfg, start, v.counts, m)
    requires SomeoneCarries(v.end.completed, v.picks, r)
    ensures OnGrid(r, tables, n + v.cfg.mins) && r.ts > START_TIMESTAMP + 60 * n
  {
    var i :| 0 <= i < |v.end.completed| && Carries(v.end.completed[i], v.picks[i], r);
    assert InPhase(v.cfg, start, v.counts, v.end.completed[i]);
  }

  lemma NewMinute(v: Invocation, n: nat, start: nat, k: nat, t: nat) returns (r: Row)
    requires start == START_TIMESTAMP + 60 * (n + 1)
    requires k < |v.counts| && v.counts[k] >= 1 && 1 <= t <= v.cfg.tables
    requires Picked(v)
    requires forall m :: InPhase(v.cfg, start, v.counts, m) ==> m in v.end.completed
    ensures SomeoneCarries(v.end.completed, v.picks, r) && r.table == t && r.ts == START_TIMESTAMP + 60 * (n + 1 + k)
  {
    var m := Message(Insert, start + 60 * k, 1, t);
    LastMinute(start, m.ts, k);
    assert InPhase(v.cfg, start, v.counts, m);
    var i :| 0 <= i < |v.end.completed| && v.end.completed[i] == m;
    assert SomeMetric(v.picks[i]);
    var mc :| mc in v.picks[i] && InRange(mc);
    r := Row(t, 1, mc, m.ts);
    assert Carries(v.end.completed[i], v.picks[i], r);
  }

  lemma TilingGrows(db: set<Row>, db1: set<Row>, n: nat, v: Invocation, start: nat, tables: nat)
    requires Tiled(db, tables, n) && start == START_TIMESTAMP + 60 * (n + 1)
    requires |v.counts| == v.cfg.mins && (forall k :: 0 <= k < |v.counts| ==> v.counts[k] >= 1)
    requires v.cfg.tables == tables && Picked(v)
    requires forall m :: m in v.end.completed <==> InPhase(v.cfg, start, v.counts, m)
    requires forall r :: r in db1 <==> r in db || SomeoneCarries(v.end.completed, v.picks, r)
    ensures Tiled(db1, tables, n + v.cfg.mins)
  {
    forall r | r in db1 ensures OnGrid(r, tables, n + v.cfg.mins) {
      if r in db {
        assert OnGrid(r, tables, n);
      } else {
        NewRowsOnGrid(v, n, start, tables, r);
      }
    }
    forall j: nat, t: nat | 1 <= j <= n + v.cfg.mins && 1 <= t <= tables ensures HasMinute(db1, t, j) {
      if j <= n {
        assert HasMinute(db, t, j);
      } else {
        var r := NewMinute(v, n, start, j - n - 1, t);
      }
    }
  }

  lemma NewTimestamps(db: set<Row>, n: nat, v: Invocation, start: nat, tables: nat)
    requires Tiled(db, tables, n) && start == START_TIMESTAMP + 60 * (n + 1)
    requires forall m :: m in v.end.completed ==> InPhase(v.cfg, start, v.counts, m)
    ensures forall m :: m in v.end.completed ==> m.op == Insert && forall r :: r in db ==> r.ts != m.ts
  {
    forall m, r | m in v.end.completed && r in db ensures r.ts != m.ts {
      assert InPhase(v.cfg, start, v.counts, m) && OnGrid(r, tables, n);
    }
  }

  /** The rows one invocation adds continue the tiling where it stopped. */
  lemma InvocationTiles(db: set<Row>, n: nat, v: Invocation, first: bool, tables: nat)
    requires Tiled(db, tables, n) && tables >= 1 && IsMaxTs(db, 1, tables, v.maxTs)
    requires Joined(v, first, tables)
    requires START_TIMESTAMP + 60 * (n + v.cfg.mins) < TWO_TO_THE_32
    ensures InsertAll(db, v.end.completed, v.picks).Some?
    ensures Tiled(InsertAll(db, v.end.completed, v.picks).value, tables, n + v.cfg.mins)
  {
    NewestOfTiled(db, tables, n, v.maxTs);
    var start := StartOf(first, v.maxTs);
    CompletedMessages(v, first, tables);
    NewTimestamps(db, n, v, start, tables);
    NoCollision(db, v.end.completed, v.picks);
    TilingGrows(db, InsertAll(db, v.end.completed, v.picks).value, n, v, start, tables);
  }

  /** No insert of a campaign ever meets a duplicate primary key, and its timestamps tile time from
      StartTimestamp on, in every table, without a gap. */
  lemma {:induction false} CampaignTiles(vs: seq<Invocation>, tables: nat)
    requires IsCampaign(vs, tables) && tables >= 1
    requires START_TIMESTAMP + 60 * TotalMins(vs) < TWO_TO_THE_32
    ensures After(vs).Some?
    ensures Tiled(After(vs).value, tables, TotalMins(vs))
  {
    if vs != [] {
      var k := |vs| - 1;
      CampaignTiles(vs[..k], tables);
      InvocationTiles(After(vs[..k]).value, TotalMins(vs[..k]), vs[k], k == 0, tables);
    }
  }

  ghost predicate InvocationCarries(v: Invocation, r: Row) {
    |v.picks| == |v.end.completed| && SomeoneCarries(v.end.completed, v.picks, r)
  }

  /** Some message of the campaign, with the metrics chosen for it, inserted row r. */
  ghost predicate CampaignCarries(vs: seq<Invocation>, r: Row) {
    exists k :: 0 <= k < |vs| && InvocationCarries(vs[k], r)
  }

  function CampaignSize(vs: seq<Invocation>): nat {
    if vs == [] then 0 else CampaignSize(vs[..|vs| - 1]) + TotalSize(vs[|vs| - 1].picks)
  }

  lemma LastInvocationCarries(vs: seq<Invocation>, k: nat, r: Row)
    requires |vs| == k + 1
    ensures CampaignCarries(vs, r) <==> CampaignCarries(vs[..k], r) || InvocationCarries(vs[k], r)
  {
    if CampaignCarries(vs[..k], r) {
      var i :| 0 <= i < k && InvocationCarries(vs[..k][i], r);
      assert InvocationCarries(vs[i], r);
    }
    if i :| 0 <= i < |vs| && InvocationCarries(vs[i], r) && i < k {
      assert InvocationCarries(vs[..k][i], r);
    }
  }

  /** The rows after a campaign are those its messages carry, one for each metric of each message. */
  lemma {:induction false} CampaignRows(vs: seq<Invocation>)
    requires After(vs).Some?
    ensures forall r :: r in After(vs).value <==> CampaignCarries(vs, r)
    ensures |After(vs).value| == CampaignSize(vs)
  {
    if vs != [] {
      var k := |vs| - 1;
      var v, db := vs[k], After(vs[..k]).value;
      CampaignRows(vs[..k]);
      InsertsExactly(db, v.end.completed, v.picks);
      forall r ensures r in After(vs).value <==> CampaignCarries(vs, r) {
        LastInvocationCarries(vs, k, r);
      }
    }
  }

  /** No campaign is stuck: any next invocation has an interleaving that joins all its workers. */
  lemma CampaignExtends(vs: seq<Invocation>, tables: nat, cfg: Config, counts: seq<nat>) returns (v: Invocation)
    requires IsCampaign(vs, tables) && tables >= 1 && START_TIMESTAMP + 60 * TotalMins(vs) < TWO_TO_THE_32
    requires cfg.threads >= 1 && cfg.devices >= 1 && cfg.tables == tables
    requires ValidCounts(cfg, ModeOf(vs == []), counts)
    ensures v.cfg == cfg && v.counts == counts
    ensures IsCampaign(vs + [v], tables)
  {
    CampaignTiles(vs, tables);
    var maxTs := START_TIMESTAMP + 60 * TotalMins(vs);
    TiledMaxTs(After(vs).value, tables, TotalMins(vs));
    v := NextInvocation(vs == [], maxTs, cfg, counts);
    assert (vs + [v])[..|vs|] == vs;
  }

  lemma NextInvocation(first: bool, maxTs: nat, cfg: Config, counts: seq<nat>) returns (v: Invocation)
    requires cfg.threads >= 1 && cfg.devices >= 1 && ValidCounts(cfg, ModeOf(first), counts)
    ensures v.cfg == cfg && v.counts == counts && v.maxTs == maxTs && Joined(v, first, cfg.tables)
  {
    var prog := Program(cfg, ModeOf(first), StartOf(first, maxTs), counts);
    var acts, end := JoinMayReturn(prog, cfg.threads);
    v := Invocation(cfg, counts, maxTs, acts, end, seq(|end.completed|, i => {1}));
    assert SomeMetric({1}) by {
      assert 1 in {1} && InRange(1);
    }
  }

  lemma TiledMaxTs(db: set<Row>, tables: nat, n: nat)
    requires Tiled(db, tables, n) && tables >= 1
    ensures IsMaxTs(db, 1, tables, START_TIMESTAMP + 60 * n)
  {
    forall r | r in db ensures r.ts <= START_TIMESTAMP + 60 * n {
      assert OnGrid(r, tables, n);
    }
    if n > 0 {
      assert HasMinute(db, 1, n);
    }
  }
}
