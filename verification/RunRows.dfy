/** The run rows of one client: client processes under the per-client lock, the handlers of
    the control channel, and the server's sweeps, in every interleaving, with crashes, lost
    replies and failing statements. A request is handled while the client waits for it. */
module RunRows {
  import opened Timestamps
  import opened OffsiteModel

  datatype Status = Ok | Failed | Overlap | Running

  /** A row of the runs table; 0 stands for Go's zero time. */
  datatype Run = Run(started: nat, finished: nat, status: Status, bytes: nat, files: nat, snapshot: string)

  // ---------- the client's request ----------

  datatype BackupResult = BackupResult(snapshot: string, bytes: nat, files: nat, started: nat, finished: nat)

  datatype Request = Request(runId: nat, run: Run)

  /** buildStatus: the report of a finished backup. */
  function BuildStatus(res: BackupResult, failed: bool, now: nat): (run: Run) {
    var status := if failed then Failed else Ok;
    if res.finished == 0 then Run(if res.started == 0 then now else res.started, now, status, res.bytes, res.files, res.snapshot)
    else Run(res.started, res.finished, status, res.bytes, res.files, res.snapshot)
  }

  // ---------- the store and its handlers ----------

  datatype Table = Table(rows: map<nat, Run>, next: nat)

  function RecordRun(t: Table, run: Run): (t': Table) {
    Table(t.rows[t.next := run], t.next + 1)
  }

  /** UpdateRun keeps started_at; it finds no row if a sweep has deleted it. */
  function UpdateRun(t: Table, id: nat, run: Run): (t': Table) {
    if id in t.rows then t.(rows := t.rows[id := run.(started := t.rows[id].started)]) else t
  }

  function MarkFailed(run: Run, now: nat): (run': Run) { run.(status := Failed, finished := now) }

  /** UPDATE runs SET status='failed' WHERE status='running' AND ... */
  function SweepRows(rows: map<nat, Run>, hit: nat -> bool, now: nat): (rows': map<nat, Run>) {
    map id | id in rows :: if rows[id].status.Running? && hit(rows[id].started) then MarkFailed(rows[id], now) else rows[id]
  }

  function MarkClientRunningRunFailed(t: Table, now: nat): (t': Table) {
    t.(rows := SweepRows(t.rows, (started: nat) => true, now))
  }

  function MarkStaleRunsFailed(t: Table, cutoff: nat, now: nat): (t': Table) {
    t.(rows := SweepRows(t.rows, (started: nat) => SortsBefore(started, cutoff), now))
  }

  function PruneRuns(t: Table, cutoff: nat): (t': Table) {
    t.(rows := map id | id in t.rows && !SortsBefore(t.rows[id].started, cutoff) :: t.rows[id])
  }

  function OrNow(t: nat, now: nat): (t': nat) { if t == 0 then now else t }

  /** postStatus: a final status with a run id updates that row, anything else is inserted. */
  function PostStatus(t: Table, req: Request, now: nat): (t': Table) {
    var r := req.run;
    if req.runId > 0 && !r.status.Running? then UpdateRun(t, req.runId, r.(finished := OrNow(r.finished, now)))
    else RecordRun(t, r.(started := OrNow(r.started, now), finished := if r.status.Running? then r.finished else OrNow(r.finished, now)))
  }

  // ---------- the protocol ----------

  /** One invocation of the client. */
  datatype Process = Skipping | Locked | Configured | Backing(runId: nat) | Done

  datatype World = World(
    t: Table,
    locking: bool,              // the lock file is respected
    holder: set<nat>,           // processes that hold the lock
    procs: map<nat, Process>,
    failedClears: nat,          // clears of running rows that failed since the last that did not
    reported: map<nat, Run>)    // final reports the server has applied to a row

  datatype Action =
    | Acquire(p: nat)
    | PostOverlap(p: nat, reached: bool, now: nat)
    | GetConfig(p: nat, reached: bool, cleared: bool, replied: bool, now: nat)
    | PostRunning(p: nat, reached: bool, replied: bool, now: nat)
    | PostFinal(p: nat, res: BackupResult, failed: bool, reached: bool, now: nat)
    | Crash(p: nat)
    | Sweep(cutoff: nat, now: nat)
    | Prune(cutoff: nat)

  function At(w: World, p: nat): (s: Process) { if p in w.procs then w.procs[p] else Done }

  predicate Enabled(w: World, a: Action) {
    match a
    case Acquire(p) => p !in w.procs
    case PostOverlap(p, _, _) => At(w, p).Skipping?
    case GetConfig(p, reached, _, replied, _) => At(w, p).Locked? && (replied ==> reached)
    case PostRunning(p, reached, replied, _) => At(w, p).Configured? && (replied ==> reached)
    case PostFinal(p, _, _, _, _) => At(w, p).Backing?
    case Crash(p) => p in w.procs
    case Sweep(_, _) => true
    case Prune(_) => true
  }

  function Step(w: World, p: nat, s: Process): (w': World) { w.(procs := w.procs[p := s]) }

  /** The process ends; the system drops its lock. */
  function End(w: World, p: nat): (w': World) { w.(procs := w.procs[p := Done], holder := w.holder - {p}) }

  function Apply(w: World, a: Action): (w': World)
    requires Enabled(w, a)
  {
    match a
    case Acquire(p) =>
      if w.locking && w.holder != {} then Step(w, p, Skipping) else Step(w, p, Locked).(holder := w.holder + {p})
    case PostOverlap(p, reached, now) =>
      var w1 := if reached then w.(t := PostStatus(w.t, Request(0, Run(now, now, Overlap, 0, 0, "")), now)) else w;
      End(w1, p)
    case GetConfig(p, reached, cleared, replied, now) =>
      var w1 :=
        if reached && cleared then w.(t := MarkClientRunningRunFailed(w.t, now), failedClears := 0)
        else if reached then w.(failedClears := w.failedClears + 1)
        else w;
      if replied then Step(w1, p, Configured) else End(w1, p)
    case PostRunning(p, reached, replied, now) =>
      var w1 := if reached then w.(t := PostStatus(w.t, Request(0, Run(now, 0, Running, 0, 0, "")), now)) else w;
      Step(w1, p, Backing(if replied then w.t.next else 0))
    case PostFinal(p, res, failed, reached, now) =>
      var id := w.procs[p].runId;
      var run := BuildStatus(res, failed, now);
      var w1 := if reached then w.(t := PostStatus(w.t, Request(id, run), now)) else w;
      var w2 := if reached && id > 0 && id in w.t.rows then w1.(reported := w.reported[id := run]) else w1;
      End(w2, p)
    case Crash(p) => End(w, p)
    case Sweep(cutoff, now) => w.(t := MarkStaleRunsFailed(w.t, cutoff, now))
    case Prune(cutoff) => w.(t := PruneRuns(w.t, cutoff))
  }

  predicate Init(w: World) {
    w.t == Table(map[], 1) && w.holder == {} && w.procs == map[] && w.failedClears == 0 && w.reported == map[]
  }

  predicate CanRun(w: World, run: seq<Action>)
    decreases |run|
  {
    run == [] || (Enabled(w, run[0]) && CanRun(Apply(w, run[0]), run[1..]))
  }

  function After(w: World, run: seq<Action>): (w': World)
    requires CanRun(w, run)
    decreases |run|
  {
    if run == [] then w else After(Apply(w, run[0]), run[1..])
  }

  ghost predicate Reachable(w: World) {
    exists w0, run :: Init(w0) && CanRun(w0, run) && After(w0, run) == w
  }

  // ---------- at most one running row ----------

  function RunningIds(rows: map<nat, Run>): (ids: set<nat>) {
    set id | id in rows && rows[id].status.Running?
  }

  predicate Holds(s: Process) { s.Locked? || s.Configured? || s.Backing? }

  ghost predicate SomeConfigured(w: World) {
    exists p :: p in w.procs && w.procs[p].Configured?
  }

  ghost predicate LockInv(w: World) {
    && (forall p :: p in w.procs && Holds(w.procs[p]) ==> p in w.holder)
    && (forall p, q :: p in w.holder && q in w.holder ==> p == q)
    && |RunningIds(w.t.rows)| <= w.failedClears + (if SomeConfigured(w) then 0 else 1)
  }

  lemma {:induction false} SubsetSize(a: set<nat>, b: set<nat>)
    requires a <= b
    ensures |a| <= |b|
  {
    if a != {} {
      var x :| x in a;
      SubsetSize(a - {x}, b - {x});
    }
  }

  /** Every statement but the insertion of a running row leaves no new running row. */
  lemma {:induction false} FewerRunning(t: Table, t': Table)
    requires RunningIds(t'.rows) <= RunningIds(t.rows)
    ensures |RunningIds(t'.rows)| <= |RunningIds(t.rows)|
  {
    SubsetSize(RunningIds(t'.rows), RunningIds(t.rows));
  }

  lemma {:induction false} ConfiguredKept(w: World, w': World, p: nat)
    requires p in w'.procs && w'.procs == w.procs[p := w'.procs[p]] && !w'.procs[p].Configured?
    requires !At(w, p).Configured?
    ensures SomeConfigured(w') <==> SomeConfigured(w)
  {
    if SomeConfigured(w) {
      var q :| q in w.procs && w.procs[q].Configured?;
      assert q in w'.procs && w'.procs[q].Configured?;
    }
  }

  lemma {:induction false} ConfigStep(w: World, a: Action)
    requires w.locking && LockInv(w) && Enabled(w, a) && a.GetConfig?
    ensures LockInv(Apply(w, a))
  {
    var w' := Apply(w, a);
    // the holder is Locked, so nobody is Configured
    assert !SomeConfigured(w);
    if a.reached && a.cleared {
      assert RunningIds(w'.t.rows) == {};
    } else {
      assert w'.t == w.t;
    }
    if a.replied {
      assert w'.procs[a.p].Configured?;
    }
  }

  lemma {:induction false} RunningStep(w: World, a: Action)
    requires w.locking && LockInv(w) && Enabled(w, a) && a.PostRunning?
    ensures LockInv(Apply(w, a))
  {
    var w' := Apply(w, a);
    assert w.procs[a.p].Configured? && SomeConfigured(w);
    assert forall q :: q in w.procs && w.procs[q].Configured? ==> q in w.holder && q == a.p;
    assert !SomeConfigured(w');
    if a.reached {
      SubsetSize(RunningIds(w'.t.rows), RunningIds(w.t.rows) + {w.t.next});
    }
  }

  lemma {:induction false} LockStep(w: World, a: Action)
    requires w.locking && LockInv(w) && Enabled(w, a)
    ensures LockInv(Apply(w, a))
  {
    var w' := Apply(w, a);
    match a {
      case GetConfig(_, _, _, _, _) => ConfigStep(w, a);
      case PostRunning(_, _, _, _) => RunningStep(w, a);
      case Crash(p) => { if SomeConfigured(w') { assert SomeConfigured(w); } }
      case Sweep(_, _) => { FewerRunning(w.t, w'.t); assert w'.procs == w.procs; }
      case Prune(_) => { FewerRunning(w.t, w'.t); assert w'.procs == w.procs; }
      case Acquire(p) => ConfiguredKept(w, w', p);
      case PostOverlap(p, _, _) => { ConfiguredKept(w, w', p); FewerRunning(w.t, w'.t); }
      case PostFinal(p, _, _, _, _) => { ConfiguredKept(w, w', p); FewerRunning(w.t, w'.t); }
    }
  }

  lemma {:induction false} LockRun(w: World, run: seq<Action>)
    requires w.locking && LockInv(w) && CanRun(w, run)
    ensures LockInv(After(w, run))
    decreases |run|
  {
    if run != [] {
      LockStep(w, run[0]);
      LockRun(Apply(w, run[0]), run[1..]);
    }
  }

  lemma {:induction false} LockingKept(w: World, run: seq<Action>)
    requires CanRun(w, run)
    ensures After(w, run).locking == w.locking
    decreases |run|
  {
    if run != [] { LockingKept(Apply(w, run[0]), run[1..]); }
  }

  /** For every crash, lost reply, overlap, sweep and deletion: with the lock respected there
      is at most one running row more than clears have failed since the last that succeeded. */
  lemma {:induction false} RunningRowsBounded(w: World)
    requires Reachable(w) && w.locking
    ensures |RunningIds(w.t.rows)| <= 1 + w.failedClears
  {
    var w0, run :| Init(w0) && CanRun(w0, run) && After(w0, run) == w;
    LockingKept(w0, run);
    assert RunningIds(w0.t.rows) == {};
    LockRun(w0, run);
  }

  /** Hence at most one running row, if no clear has failed since the last success. */
  lemma {:induction false} AtMostOneRunning(w: World, a: nat, b: nat)
    requires Reachable(w) && w.locking && w.failedClears == 0
    requires a in w.t.rows && w.t.rows[a].status.Running? && b in w.t.rows && w.t.rows[b].status.Running?
    ensures a == b
  {
    RunningRowsBounded(w);
    if a != b { SubsetSize({a, b}, RunningIds(w.t.rows)); }
  }

  /** The row of a new session is the only running one exactly if the clear before it worked or
      had nothing to clear. */
  lemma {:induction false} ExactlyOneRunning(w: World, p: nat, cleared: bool, replied: bool, asked: nat, now: nat)
    requires Reachable(w) && At(w, p).Locked?
    ensures var w1 := Apply(w, GetConfig(p, true, cleared, true, asked));
            && Enabled(w1, PostRunning(p, true, replied, now))
            && (|RunningIds(Apply(w1, PostRunning(p, true, replied, now)).t.rows)| <= 1 <==> cleared || RunningIds(w.t.rows) == {})
  {
    var w1 := Apply(w, GetConfig(p, true, cleared, true, asked));
    var w2 := Apply(w1, PostRunning(p, true, replied, now));
    IdsBelowNext(w);
    NewRunning(w1.t, w2.t, Run(now, 0, Running, 0, 0, ""), now);
    var before := RunningIds(w1.t.rows);
    assert if cleared then before == {} else before == RunningIds(w.t.rows);
    if before != {} { var id :| id in before; SubsetSize({id, w.t.next}, RunningIds(w2.t.rows)); }
  }

  lemma {:induction false} NewRunning(t: Table, t': Table, run: Run, now: nat)
    requires t.next !in t.rows && run.status.Running? && t' == PostStatus(t, Request(0, run), now)
    ensures RunningIds(t'.rows) == RunningIds(t.rows) + {t.next} && t.next !in RunningIds(t.rows)
    ensures |RunningIds(t'.rows)| == |RunningIds(t.rows)| + 1
  {
    assert RunningIds(t'.rows) == RunningIds(t.rows) + {t.next};
  }

  lemma {:induction false} IdsBelowNext(w: World)
    requires Reachable(w)
    ensures forall id :: id in w.t.rows ==> id < w.t.next
  {
    var w0, run :| Init(w0) && CanRun(w0, run) && After(w0, run) == w;
    ReportRun(w0, run);
  }

  lemma {:induction false} ReachStep(w: World, a: Action)
    requires Reachable(w) && Enabled(w, a)
    ensures Reachable(Apply(w, a))
  {
    var w0, run :| Init(w0) && CanRun(w0, run) && After(w0, run) == w;
    var w' := Apply(w, a);
    assert [a][1..] == [] && CanRun(w', []) && After(w', []) == w';
    assert CanRun(w, [a]) && After(w, [a]) == w';
    Concat(w0, run, [a]);
  }

  lemma {:induction false} Do(w: World, a: Action) returns (w': World)
    requires Reachable(w) && Enabled(w, a)
    ensures Reachable(w') && w' == Apply(w, a)
  {
    ReachStep(w, a);
    w' := Apply(w, a);
  }

  /** A client takes the lock and fetches its configuration; the clear fails unless `cleared`. */
  lemma {:induction false} Configure(w: World, p: nat, cleared: bool) returns (w': World)
    requires Reachable(w) && w.locking && w.holder == {} && p !in w.procs && (cleared ==> RunningIds(w.t.rows) == {})
    ensures Reachable(w') && w'.locking && w'.holder == {p} && w'.procs == w.procs[p := Configured]
    ensures RunningIds(w'.t.rows) == RunningIds(w.t.rows)
    ensures w'.failedClears == if cleared then 0 else w.failedClears + 1
  {
    w' := Do(w, Acquire(p));
    w' := Do(w', GetConfig(p, true, cleared, true, 1));
    assert w'.procs == w.procs[p := Configured];
  }

  /** It reports a running row and crashes. */
  lemma {:induction false} RunAndCrash(w: World, p: nat) returns (w': World)
    requires Reachable(w) && w.holder == {p} && At(w, p).Configured?
    ensures Reachable(w') && w'.locking == w.locking && w'.holder == {} && w'.procs == w.procs[p := Done]
    ensures |RunningIds(w'.t.rows)| == |RunningIds(w.t.rows)| + 1 && w'.failedClears == w.failedClears
  {
    IdsBelowNext(w);
    w' := Do(w, PostRunning(p, true, true, 1));
    NewRunning(w.t, w'.t, Run(1, 0, Running, 0, 0, ""), 1);
    w' := Do(w', Crash(p));
    assert w'.procs == w.procs[p := Done];
  }

  lemma {:induction false} Session(w: World, p: nat, cleared: bool) returns (w': World)
    requires Reachable(w) && w.locking && w.holder == {} && p !in w.procs && (cleared ==> RunningIds(w.t.rows) == {})
    ensures Reachable(w') && w'.locking && w'.holder == {} && w'.procs.Keys == w.procs.Keys + {p}
    ensures |RunningIds(w'.t.rows)| == |RunningIds(w.t.rows)| + 1
    ensures w'.failedClears == if cleared then 0 else w.failedClears + 1
  {
    w' := Configure(w, p, cleared);
    w' := RunAndCrash(w', p);
  }

  /** The bound is tight: k failed clears allow k + 1 running rows. */
  lemma {:induction false} ManyRunning(k: nat) returns (w: World)
    ensures Reachable(w) && w.locking && w.failedClears == k && |RunningIds(w.t.rows)| == k + 1
    ensures w.holder == {} && forall p :: p in w.procs ==> p <= k
  {
    if k == 0 {
      var w0 := World(Table(map[], 1), true, {}, map[], 0, map[]);
      assert Init(w0) && CanRun(w0, []) && After(w0, []) == w0;
      assert RunningIds(w0.t.rows) == {};
      w := Session(w0, 0, true);
    } else {
      var v := ManyRunning(k - 1);
      w := Session(v, k, false);
    }
  }

  lemma {:induction false} Concat(w: World, r: seq<Action>, s: seq<Action>)
    requires CanRun(w, r) && CanRun(After(w, r), s)
    ensures CanRun(w, r + s) && After(w, r + s) == After(After(w, r), s)
    decreases |r|
  {
    if r == [] {
      assert r + s == s;
    } else {
      assert (r + s)[0] == r[0] && (r + s)[1..] == r[1..] + s;
      Concat(Apply(w, r[0]), r[1..], s);
    }
  }

  // ---------- the final report wins ----------

  /** The row carries the client's report; only started_at is the row's own, and finished_at if
      the report has none. */
  predicate Carries(row: Run, report: Run) {
    && row.status == report.status && row.bytes == report.bytes && row.files == report.files && row.snapshot == report.snapshot
    && (report.finished != 0 ==> row.finished == report.finished)
  }

  ghost predicate TableOk(t: Table, reported: map<nat, Run>) {
    && t.next > 0
    && (forall id :: id in t.rows || id in reported ==> 0 < id < t.next)
    && (forall id :: id in reported ==> !reported[id].status.Running?)
    && (forall id :: id in reported && id in t.rows ==> Carries(t.rows[id], reported[id]))
  }

  /** Run ids are handed to one process each, which has not yet reported. */
  ghost predicate ProcsOk(next: nat, procs: map<nat, Process>, reported: map<nat, Run>) {
    && (forall p :: p in procs && procs[p].Backing? ==> procs[p].runId < next && procs[p].runId !in reported)
    && (forall p, q :: p in procs && q in procs && p != q && procs[p].Backing? && procs[q].Backing? && procs[p].runId > 0 ==>
          procs[p].runId != procs[q].runId)
  }

  ghost predicate ReportInv(w: World) {
    TableOk(w.t, w.reported) && ProcsOk(w.t.next, w.procs, w.reported)
  }

  lemma {:induction false} InsertKeeps(t: Table, req: Request, now: nat, reported: map<nat, Run>)
    requires TableOk(t, reported) && (req.runId == 0 || req.run.status.Running?)
    ensures TableOk(PostStatus(t, req, now), reported) && PostStatus(t, req, now).next == t.next + 1
  {}

  /** Sweeps touch running rows only, and a reported row is not running. */
  lemma {:induction false} SweepKeeps(t: Table, hit: nat -> bool, now: nat, reported: map<nat, Run>)
    requires TableOk(t, reported)
    ensures TableOk(t.(rows := SweepRows(t.rows, hit, now)), reported)
  {}

  lemma {:induction false} FinalKeeps(t: Table, id: nat, run: Run, now: nat, reported: map<nat, Run>)
    requires TableOk(t, reported) && 0 < id && id !in reported && !run.status.Running?
    ensures TableOk(PostStatus(t, Request(id, run), now), if id in t.rows then reported[id := run] else reported)
    ensures PostStatus(t, Request(id, run), now).next == t.next
  {}

  lemma {:induction false} FinalStep(w: World, a: Action)
    requires ReportInv(w) && Enabled(w, a) && a.PostFinal?
    ensures ReportInv(Apply(w, a))
  {
    var id := w.procs[a.p].runId;
    var run := BuildStatus(a.res, a.failed, a.now);
    if id > 0 { FinalKeeps(w.t, id, run, a.now, w.reported); } else { InsertKeeps(w.t, Request(0, run), a.now, w.reported); }
  }

  lemma {:induction false} ReportStep(w: World, a: Action)
    requires ReportInv(w) && Enabled(w, a)
    ensures ReportInv(Apply(w, a))
  {
    match a {
      case PostFinal(_, _, _, _, _) => FinalStep(w, a);
      case PostOverlap(_, _, now) => InsertKeeps(w.t, Request(0, Run(now, now, Overlap, 0, 0, "")), now, w.reported);
      case PostRunning(_, _, _, now) => InsertKeeps(w.t, Request(0, Run(now, 0, Running, 0, 0, "")), now, w.reported);
      case GetConfig(_, _, _, _, now) => SweepKeeps(w.t, (started: nat) => true, now, w.reported);
      case Sweep(cutoff, now) => SweepKeeps(w.t, (started: nat) => SortsBefore(started, cutoff), now, w.reported);
      case Acquire(_) =>
      case Crash(_) =>
      case Prune(_) =>
    }
  }

  lemma {:induction false} ReportRun(w: World, run: seq<Action>)
    requires ReportInv(w) && CanRun(w, run)
    ensures ReportInv(After(w, run))
    decreases |run|
  {
    if run != [] {
      ReportStep(w, run[0]);
      ReportRun(Apply(w, run[0]), run[1..]);
    }
  }

  /** With or without the lock, whatever clears, sweeps and deletions come before or after: a
      row that received its client's final report and still exists carries that report. */
  lemma {:induction false} FinalReportWins(w: World, id: nat)
    requires Reachable(w) && id in w.reported && id in w.t.rows
    ensures Carries(w.t.rows[id], w.reported[id]) && !w.t.rows[id].status.Running?
  {
    var w0, run :| Init(w0) && CanRun(w0, run) && After(w0, run) == w;
    ReportRun(w0, run);
  }

  /** The update itself: if the row exists, it receives exactly what the client built. */
  lemma {:induction false} FinalReportLands(w: World, p: nat, res: BackupResult, failed: bool, now: nat)
    requires Reachable(w) && At(w, p).Backing? && w.procs[p].runId in w.t.rows
    ensures var w' := Apply(w, PostFinal(p, res, failed, true, now));
            var id := w.procs[p].runId;
            && id in w'.reported && w'.reported[id] == BuildStatus(res, failed, now)
            && Carries(w'.t.rows[id], w'.reported[id])
            && w'.t.rows[id].snapshot == res.snapshot && w'.t.rows[id].bytes == res.bytes
            && w'.t.rows[id].status == (if failed then Failed else Ok)
            && w'.t.rows[id].files == res.files && w'.t.rows[id].started == w.t.rows[id].started
            && w'.t.rows[id].finished == (if res.finished != 0 then res.finished else now)
            && (forall k :: k in w.t.rows && k != id ==> k in w'.t.rows && w'.t.rows[k] == w.t.rows[k]) && w'.t.rows.Keys == w.t.rows.Keys
  {
    var w0, run :| Init(w0) && CanRun(w0, run) && After(w0, run) == w;
    ReportRun(w0, run);
  }

  // ---------- what each statement does to the table ----------

  /** The other rows are what they were. */
  ghost predicate Others(t: Table, t': Table, id: nat) {
    forall k :: k != id ==> (k in t'.rows <==> k in t.rows) && (k in t.rows ==> t'.rows[k] == t.rows[k])
  }

  /** Reports that become a row of their own: the running row of a session, the row of a run that
      found the lock taken, and the final row of a session that never got a run id. */
  lemma {:induction false} ReportsInserted(w: World, a: Action)
    requires Reachable(w) && Enabled(w, a)
    ensures a.PostRunning? && a.reached ==>
              var t' := Apply(w, a).t;
              w.t.next !in w.t.rows && Others(w.t, t', w.t.next) && w.t.next in t'.rows && t'.rows[w.t.next] == Run(a.now, 0, Running, 0, 0, "")
    ensures a.PostRunning? && a.replied ==> At(Apply(w, a), a.p) == Backing(w.t.next)
    ensures a.PostOverlap? && a.reached ==>
              var t' := Apply(w, a).t;
              w.t.next !in w.t.rows && Others(w.t, t', w.t.next) && w.t.next in t'.rows && t'.rows[w.t.next] == Run(a.now, a.now, Overlap, 0, 0, "")
    ensures a.PostFinal? && a.reached && w.procs[a.p].runId == 0 ==>
              var t' := Apply(w, a).t;
              && w.t.next !in w.t.rows && Others(w.t, t', w.t.next) && w.t.next in t'.rows
              && var row := t'.rows[w.t.next];
                 && row.status == (if a.failed then Failed else Ok) && row.bytes == a.res.bytes && row.files == a.res.files && row.snapshot == a.res.snapshot
                 && row.started == (if a.res.started != 0 then a.res.started else a.now)
                 && row.finished == (if a.res.finished != 0 then a.res.finished else a.now)
  {
    IdsBelowNext(w);
  }

  /** A request that does not reach the server changes no row, and neither does a final report
      whose row is gone. */
  lemma {:induction false} LostRequests(w: World, a: Action)
    requires Enabled(w, a)
    ensures (a.PostOverlap? || a.PostRunning? || a.PostFinal? || a.GetConfig?) && !a.reached ==> Apply(w, a).t == w.t
    ensures a.PostFinal? && w.procs[a.p].runId > 0 && w.procs[a.p].runId !in w.t.rows ==> Apply(w, a).t == w.t
    ensures a.GetConfig? && !a.cleared ==> Apply(w, a).t == w.t
    ensures a.Acquire? || a.Crash? ==> Apply(w, a).t == w.t
  {}

  /** A clear that works fails every running row and no other. */
  lemma {:induction false} ClearExact(w: World, p: nat, replied: bool, now: nat)
    requires At(w, p).Locked?
    ensures var t' := Apply(w, GetConfig(p, true, true, replied, now)).t;
            && t'.rows.Keys == w.t.rows.Keys
            && forall id :: id in w.t.rows ==>
                 if w.t.rows[id].status.Running? then t'.rows[id] == w.t.rows[id].(status := Failed, finished := now)
                 else t'.rows[id] == w.t.rows[id]
  {}

  /** The stale sweep fails the running rows that started a second or more before the cutoff,
      spares those that started a second or more after it, and leaves all rows that do not run. */
  lemma {:induction false} SweepExact(w: World, cutoff: nat, now: nat)
    requires InRange(cutoff)
    ensures var t' := Apply(w, Sweep(cutoff, now)).t;
            && t'.rows.Keys == w.t.rows.Keys
            && forall id :: id in w.t.rows && InRange(w.t.rows[id].started) ==>
                 && (w.t.rows[id].status.Running? && w.t.rows[id].started + NANOS_PER_SECOND <= cutoff ==>
                       t'.rows[id] == w.t.rows[id].(status := Failed, finished := now))
                 && (!w.t.rows[id].status.Running? || w.t.rows[id].started >= cutoff + NANOS_PER_SECOND ==> t'.rows[id] == w.t.rows[id])
  {
    hide TextBefore;
    forall id | id in w.t.rows && InRange(w.t.rows[id].started)
      ensures w.t.rows[id].started + NANOS_PER_SECOND <= cutoff ==> SortsBefore(w.t.rows[id].started, cutoff)
      ensures w.t.rows[id].started >= cutoff + NANOS_PER_SECOND ==> !SortsBefore(w.t.rows[id].started, cutoff)
    {
      SweepWithinASecond(w.t.rows[id].started, cutoff);
    }
  }

  /** The deletion of old rows takes those that started a second or more before the cutoff, and
      leaves those that started a second or more after it, and every row it keeps, as they were. */
  lemma {:induction false} PruneExact(w: World, cutoff: nat)
    requires InRange(cutoff)
    ensures var t' := Apply(w, Prune(cutoff)).t;
            && (forall id :: id in t'.rows ==> id in w.t.rows && t'.rows[id] == w.t.rows[id])
            && forall id :: id in w.t.rows && InRange(w.t.rows[id].started) ==>
                 && (w.t.rows[id].started + NANOS_PER_SECOND <= cutoff ==> id !in t'.rows)
                 && (w.t.rows[id].started >= cutoff + NANOS_PER_SECOND ==> id in t'.rows)
  {
    hide TextBefore;
    forall id | id in w.t.rows && InRange(w.t.rows[id].started)
      ensures w.t.rows[id].started + NANOS_PER_SECOND <= cutoff ==> SortsBefore(w.t.rows[id].started, cutoff)
      ensures w.t.rows[id].started >= cutoff + NANOS_PER_SECOND ==> !SortsBefore(w.t.rows[id].started, cutoff)
    {
      SweepWithinASecond(w.t.rows[id].started, cutoff);
    }
  }
}
