/** The offsite protocol of one client. Upload passes (scheduled and adhoc), the pruning pass
    and the backup client interleave over three stores: the hot directory, the
    offsite_objects table and the remote. Every store statement, remote call and file
    deletion is one action; between its actions a worker keeps the local copies the code
    keeps. A worker may fail or crash between any two actions. */
module OffsiteProtocol {
  import opened Options
  import opened Timestamps
  import opened OffsiteModel

  /** Where an upload pass stands inside its loop body. */
  datatype Stage = AtHead | Prepared(obj: Content) | Fresh(obj: Content) | Uploaded(obj: Content)

  datatype Uploader =
    | UIdle
    | UAsked(last: Option<nat>)
    | UDue(pass: nat, check: nat)
    | UListed(pass: nat, check: nat, snaps: seq<Listed>)
    | UBusy(pass: nat, check: nat, snaps: seq<Listed>, start: nat, offsited: set<Id>, i: nat, count: nat, stage: Stage)

  datatype Pruner =
    | PIdle
    | PListed(snaps: seq<Listed>)
    | PRead(snaps: seq<Listed>, offsited: set<Id>)
    | PObjs(snaps: seq<Listed>, offsited: set<Id>, objs: seq<Obj>)
    | PCold(snaps: seq<Listed>, offsited: set<Id>, objs: seq<Obj>, i: nat, cutoff: int, purging: bool)
    | PHot(snaps: seq<Listed>, offsited: set<Id>, i: nat, cutoff: int)

  /** A row written by a pass of worker `u` that found itself due at `check`. */
  datatype Upload = Upload(obj: Obj, u: nat, pass: nat, check: nat)

  /** A remote deletion issued by pruneOffsite for a row it had listed; `current` is the row
      that the table held at that moment. */
  datatype Purge = Purge(obj: Obj, at: nat, current: Option<Row>)

  datatype World = World(
    now: nat,
    hot: map<Id, Snapshot>,
    rows: map<Id, Row>,
    remote: map<string, Content>,
    ups: map<nat, Uploader>,
    pruner: Pruner,
    // what happened so far
    passes: nat,
    met: set<nat>,  // passes that ran beside another one
    ingested: map<Id, Snapshot>,
    uploads: set<Upload>,
    purged: set<Purge>,
    dropped: set<Id>,
    forgetFailed: set<Id>)

  datatype Action =
    | Tick(delta: nat)
    | Ingest(id: Id, snap: Snapshot)
    | UAsk(u: nat, last: Option<nat>)
    | UCheck(u: nat)
    | UList(u: nat, snaps: seq<Listed>)
    | URead(u: nat)
    | USkip(u: nat)
    | UPrepare(u: nat, obj: Content)
    | ULookup(u: nat)
    | UUpload(u: nat)
    | URecord(u: nat)
    | UStop(u: nat)
    | PList(snaps: seq<Listed>)
    | PReadSet
    | PQuery(objs: seq<Obj>)
    | PCutoff
    | PKeep
    | PPurge
    | PForget
    | PHotStart
    | PHotKeep
    | PHotDelete
    | PStop

  function Up(w: World, u: nat): (up: Uploader) {
    if u in w.ups then w.ups[u] else UIdle
  }

  predicate Busy(w: World, u: nat) { u in w.ups && w.ups[u].UBusy? }

  /** The snapshot a busy pass is working on. */
  function Current(up: Uploader): (id: Id)
    requires up.UBusy? && up.i < |up.snaps|
  {
    up.snaps[up.i].id
  }

  predicate AtWork(up: Uploader) { up.UBusy? && up.i < |up.snaps| }

  /** The row the cold loop is at is past the horizon and not the protected first one. */
  predicate AtDueRow(p: Pruner) {
    p.PCold? && 0 < p.i < |p.objs| && p.objs[p.i].row.uploadedAt < p.cutoff
  }

  /** The pruner has deleted the object of `id` and not yet its row. */
  predicate Forgetting(p: Pruner, id: Id) {
    AtDueRow(p) && p.purging && p.objs[p.i].id == id
  }

  predicate AtDueSnapshot(c: Config, p: Pruner) {
    && p.PHot? && 0 < p.i < |p.snaps| && p.snaps[p.i].created < p.cutoff
    && (c.offsiteOn ==> p.snaps[p.i].id in p.offsited)
  }

  /** offsiteDue, given the latest upload: the first tick after it has passed. */
  ghost predicate CronDue(c: Config, last: Option<nat>, now: nat) {
    last.None? || exists tick: nat :: last.value < tick <= now && c.ticks(tick)
  }

  /** Up to `t` no overlapping pass gets older than the overlap limit. */
  ghost predicate MayWait(c: Config, w: World, t: int) {
    InRange(t) &&
    (c.overlap.Bounded? ==> forall u :: Busy(w, u) && w.ups[u].pass in w.met ==> t <= w.ups[u].start + c.overlap.limit)
  }

  /** A pass that starts now beside others respects the overlap limit. */
  ghost predicate MayMeet(c: Config, w: World, u: nat) {
    c.overlap.Bounded? ==> forall v :: v != u && Busy(w, v) ==> 0 <= c.overlap.limit && w.now <= w.ups[v].start + c.overlap.limit
  }

  /** The passes of the other workers that are under way. */
  ghost function Others(w: World, u: nat): (passes: set<nat>) {
    set v | v in w.ups && v != u && w.ups[v].UBusy? :: w.ups[v].pass
  }

  ghost predicate Enabled(c: Config, w: World, a: Action) {
    match a
    case Tick(delta) => MayWait(c, w, w.now + delta)
    case Ingest(id, snap) => id !in w.ingested
    case UAsk(u, last) => c.offsiteOn && u in c.uploaders && Up(w, u).UIdle? && Gated(c, u) && LatestIs(w.rows, last)
    case UCheck(u) =>
      c.offsiteOn && u in c.uploaders &&
      if Gated(c, u) then Up(w, u).UAsked? && CronDue(c, Up(w, u).last, w.now) else Up(w, u).UIdle?
    case UList(u, snaps) => Up(w, u).UDue? && NewestFirst(snaps, w.hot)
    case URead(u) => Up(w, u).UListed? && MayMeet(c, w, u)
    case USkip(u) => AtWork(Up(w, u)) && Up(w, u).stage.AtHead? && Current(Up(w, u)) in Up(w, u).offsited
    case UPrepare(u, obj) =>
      var up := Up(w, u);
      AtWork(up) && up.stage.AtHead? && Current(up) !in up.offsited && !(c.latestOnly && up.count > 0) &&
      (c.mode.TarGz? ==> Current(up) in w.hot && obj == w.hot[Current(up)].content)
    case ULookup(u) => AtWork(Up(w, u)) && Up(w, u).stage.Prepared?
    case UUpload(u) =>
      AtWork(Up(w, u)) && Up(w, u).stage.Fresh? && (c.mode.TarGz? ==> Current(Up(w, u)) in w.hot)
    case URecord(u) => AtWork(Up(w, u)) && Up(w, u).stage.Uploaded?
    case UStop(u) => !Up(w, u).UIdle?
    case PList(snaps) => w.pruner.PIdle? && NewestFirst(snaps, w.hot)
    case PReadSet => w.pruner.PListed?
    case PQuery(objs) => w.pruner.PRead? && ColdPruningOn(c) && RowsNewestFirst(objs, w.rows)
    case PCutoff => w.pruner.PObjs?
    case PKeep => w.pruner.PCold? && w.pruner.i < |w.pruner.objs| && !AtDueRow(w.pruner)
    case PPurge => AtDueRow(w.pruner) && !w.pruner.purging
    case PForget => AtDueRow(w.pruner) && w.pruner.purging
    case PHotStart =>
      (w.pruner.PRead? && !ColdPruningOn(c)) || (w.pruner.PCold? && w.pruner.i == |w.pruner.objs|)
    case PHotKeep => w.pruner.PHot? && w.pruner.i < |w.pruner.snaps|
    case PHotDelete => AtDueSnapshot(c, w.pruner)
    case PStop => !w.pruner.PIdle?
  }

  function SetUp(w: World, u: nat, up: Uploader): (w': World) { w.(ups := w.ups[u := up]) }

  /** The action's effect. UStop and PStop end a pass that is done, fails or crashes; PHotKeep
      covers a protected, young or un-offsited snapshot and a deletion that fails. */
  ghost function Apply(c: Config, w: World, a: Action): (w': World)
    requires Enabled(c, w, a)
  {
    match a
    case Tick(delta) => w.(now := w.now + delta)
    case Ingest(id, snap) => w.(hot := w.hot[id := snap], ingested := w.ingested[id := snap])
    case UAsk(u, last) => SetUp(w, u, UAsked(last))
    case UCheck(u) => SetUp(w, u, UDue(w.passes, w.now)).(passes := w.passes + 1)
    case UList(u, snaps) => SetUp(w, u, UListed(w.ups[u].pass, w.ups[u].check, snaps))
    case URead(u) =>
      var up := w.ups[u];
      SetUp(w, u, UBusy(up.pass, up.check, up.snaps, w.now, w.rows.Keys, 0, 0, AtHead)).(
        met := if Others(w, u) == {} then w.met else w.met + Others(w, u) + {up.pass})
    case USkip(u) => SetUp(w, u, w.ups[u].(i := w.ups[u].i + 1))
    case UPrepare(u, obj) => SetUp(w, u, w.ups[u].(stage := Prepared(obj)))
    case ULookup(u) =>
      var up := w.ups[u];
      if ChecksumExists(w.rows, c.checksum(up.stage.obj)) then SetUp(w, u, up.(i := up.i + 1, stage := AtHead))
      else SetUp(w, u, up.(stage := Fresh(up.stage.obj)))
    case UUpload(u) =>
      var up := w.ups[u];
      SetUp(w, u, up.(stage := Uploaded(up.stage.obj))).(remote := w.remote[ObjectPath(c, Current(up)) := up.stage.obj])
    case URecord(u) =>
      var up := w.ups[u];
      var id := Current(up);
      var row := Row(w.now, |up.stage.obj|, c.checksum(up.stage.obj));
      SetUp(w, u, up.(offsited := up.offsited + {id}, i := up.i + 1, count := up.count + 1, stage := AtHead)).(
        rows := w.rows[id := row],
        uploads := w.uploads + {Upload(Obj(id, row), u, up.pass, up.check)},
        forgetFailed := w.forgetFailed - {id})
    case UStop(u) => SetUp(w, u, UIdle)
    case PList(snaps) => w.(pruner := PListed(snaps))
    case PReadSet => w.(pruner := PRead(w.pruner.snaps, w.rows.Keys))
    case PQuery(objs) => w.(pruner := PObjs(w.pruner.snaps, w.pruner.offsited, objs))
    case PCutoff =>
      w.(pruner := PCold(w.pruner.snaps, w.pruner.offsited, w.pruner.objs, 0, w.now - ColdHorizon(c), false))
    case PKeep =>
      var p := w.pruner;
      w.(pruner := PCold(p.snaps, p.offsited, p.objs, p.i + 1, p.cutoff, p.purging))
    case PPurge =>
      var p := w.pruner;
      var o := p.objs[p.i];
      w.(pruner := PCold(p.snaps, p.offsited, p.objs, p.i, p.cutoff, true),
         remote := w.remote - {ObjectPath(c, o.id)},
         purged := w.purged + {Purge(o, w.now, if o.id in w.rows then Some(w.rows[o.id]) else None)})
    case PForget =>
      var p := w.pruner;
      var id := p.objs[p.i].id;
      w.(pruner := PCold(p.snaps, p.offsited, p.objs, p.i + 1, p.cutoff, false),
         rows := w.rows - {id},
         forgetFailed := w.forgetFailed - {id})
    case PHotStart =>
      w.(pruner := if c.retentionDays <= 0 || |w.pruner.snaps| <= 1 then PIdle
                   else PHot(w.pruner.snaps, w.pruner.offsited, 0, w.now - HotHorizon(c)))
    case PHotKeep => w.(pruner := PHot(w.pruner.snaps, w.pruner.offsited, w.pruner.i + 1, w.pruner.cutoff))
    case PHotDelete =>
      var id := w.pruner.snaps[w.pruner.i].id;
      w.(pruner := PHot(w.pruner.snaps, w.pruner.offsited, w.pruner.i + 1, w.pruner.cutoff),
         hot := w.hot - {id}, dropped := w.dropped + {id})
    case PStop =>
      w.(pruner := PIdle,
         forgetFailed := if AtDueRow(w.pruner) && w.pruner.purging
                         then w.forgetFailed + {w.pruner.objs[w.pruner.i].id} else w.forgetFailed)
  }

  ghost predicate Init(w: World) {
    && InRange(w.now)
    && w.hot == map[] && w.rows == map[] && w.remote == map[] && w.ups == map[] && w.pruner == PIdle
    && w.ingested == map[] && w.uploads == {} && w.purged == {} && w.dropped == {} && w.forgetFailed == {}
    && w.passes == 0 && w.met == {}
  }

  /** `run` can be executed from `w`, action by action. */
  ghost predicate CanRun(c: Config, w: World, run: seq<Action>)
    decreases |run|
  {
    run == [] || (Enabled(c, w, run[0]) && CanRun(c, Apply(c, w, run[0]), run[1..]))
  }

  ghost function After(c: Config, w: World, run: seq<Action>): (w': World)
    requires CanRun(c, w, run)
    decreases |run|
  {
    if run == [] then w else After(c, Apply(c, w, run[0]), run[1..])
  }

  ghost predicate Reachable(c: Config, w: World) {
    exists w0: World, run: seq<Action> :: Init(w0) && CanRun(c, w0, run) && After(c, w0, run) == w
  }

  /** Two runs in sequence are one run. */
  lemma {:induction false} RunConcat(c: Config, w: World, r: seq<Action>, s: seq<Action>)
    requires CanRun(c, w, r) && CanRun(c, After(c, w, r), s)
    ensures CanRun(c, w, r + s) && After(c, w, r + s) == After(c, After(c, w, r), s)
    decreases |r|
  {
    if r == [] {
      assert r + s == s;
    } else {
      assert (r + s)[0] == r[0] && (r + s)[1..] == r[1..] + s;
      RunConcat(c, Apply(c, w, r[0]), r[1..], s);
    }
  }

  /** A reachable state steps to a reachable state. */
  lemma {:induction false} ReachStep(c: Config, w: World, a: Action)
    requires Reachable(c, w) && Enabled(c, w, a)
    ensures Reachable(c, Apply(c, w, a))
  {
    var w0: World, run: seq<Action> :| Init(w0) && CanRun(c, w0, run) && After(c, w0, run) == w;
    var w' := Apply(c, w, a);
    assert [a][1..] == [] && CanRun(c, w', []) && After(c, w', []) == w';
    assert CanRun(c, w, [a]) && After(c, w, [a]) == w';
    RunConcat(c, w0, run, [a]);
  }

  /** A set of worlds closed under the protocol's actions; Reachable is the smallest one that
      holds the initial worlds. Runs are built against an arbitrary closed set. */
  ghost predicate Closed(c: Config, R: World -> bool) {
    forall w, a :: R(w) && Enabled(c, w, a) ==> R(Apply(c, w, a))
  }

  lemma {:induction false} Do(c: Config, R: World -> bool, w: World, a: Action) returns (w': World)
    requires Closed(c, R) && R(w) && Enabled(c, w, a)
    ensures R(w') && w' == Apply(c, w, a)
  {
    w' := Apply(c, w, a);
  }

  lemma {:induction false} ReachableClosed(c: Config)
    ensures Closed(c, w => Reachable(c, w))
    ensures forall w0 :: Init(w0) ==> Reachable(c, w0)
  {
    forall w, a | Reachable(c, w) && Enabled(c, w, a) ensures Reachable(c, Apply(c, w, a)) { ReachStep(c, w, a); }
    forall w0 | Init(w0) ensures Reachable(c, w0) { assert CanRun(c, w0, []) && After(c, w0, []) == w0; }
  }
}
