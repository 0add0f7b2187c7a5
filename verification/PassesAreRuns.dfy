/** The workers' loops are runs of the protocol: a pass that no other step interrupts, however
    long it takes and with whatever failures, leads from any reachable world to a reachable
    world, with the rows, the remote and the hot directory that the pass functions compute. So
    what holds of every reachable world holds after every pass of the workers. */
module PassesAreRuns {
  import opened OffsiteModel
  import opened OffsiteProtocol
  import opened PassKnowledge
  import U = UploadPass
  import P = ColdPrune
  import W = LifecycleWorker

  // ---------- time ----------

  /** Rows are written in listing order, between `now` and `end`. */
  ghost predicate Paced(env: U.Env, snaps: seq<Listed>, i: nat, now: nat, end: nat) {
    && now <= end
    && (forall k :: i <= k < |snaps| ==> now <= env.at(snaps[k].id) <= end)
    && (forall j, k :: i <= j < k < |snaps| ==> env.at(snaps[j].id) <= env.at(snaps[k].id))
  }

  /** A pass that starts now and lasts to `end` keeps the overlap limit. */
  ghost predicate Room(c: Config, w: World, u: nat, end: nat) {
    && MayWait(c, w, end)
    && (c.overlap.Bounded? ==> forall v :: v != u && Busy(w, v) ==>
          0 <= c.overlap.limit && end <= w.now + c.overlap.limit && end <= w.ups[v].start + c.overlap.limit)
  }

  lemma {:induction false} WaitUntil(c: Config, R: World -> bool, w: World, until: nat, end: nat) returns (w': World)
    requires Closed(c, R) && R(w) && MayWait(c, w, end) && w.now <= until <= end
    ensures R(w') && w' == w.(now := until) && MayWait(c, w', end)
  {
    w' := Do(c, R, w, Tick(until - w.now));
    assert forall u :: Busy(w', u) ==> Busy(w, u);
  }

  // ---------- the upload pass ----------

  /** Only worker `u`, the stores, the clock and the history differ. */
  ghost predicate OnlyWorker(w: World, u: nat, w': World) {
    && w'.hot == w.hot && w'.pruner == w.pruner && w'.met == w.met && w'.ups.Keys == w.ups.Keys
    && (forall v :: v in w.ups && v != u ==> w'.ups[v] == w.ups[v])
    && (Busy(w', u) ==> Busy(w, u) && w'.ups[u].pass == w.ups[u].pass && w'.ups[u].start == w.ups[u].start)
  }

  lemma {:induction false} StillMayWait(c: Config, w: World, u: nat, w': World, end: nat)
    requires MayWait(c, w, end) && OnlyWorker(w, u, w')
    ensures MayWait(c, w', end)
  {
    forall v | Busy(w', v) ensures Busy(w, v) && w'.ups[v].pass == w.ups[v].pass && w'.ups[v].start == w.ups[v].start {}
  }

  function LoopFrom(c: Config, env: U.Env, w: World, up: Uploader, bytes: nat): (p: U.Pass)
    requires up.UBusy? && up.i <= |up.snaps|
  {
    U.UploadLoop(c, env, w.hot, up.snaps, up.i, up.offsited, w.rows, w.remote, up.count, bytes)
  }

  /** The worker's pass is over at `end`, with the stores as the loop from its index on leaves
      them. */
  ghost predicate PassDone(c: Config, env: U.Env, w: World, u: nat, bytes: nat, end: nat, w': World)
    requires Busy(w, u) && w.ups[u].i <= |w.ups[u].snaps|
  {
    var p := LoopFrom(c, env, w, w.ups[u], bytes);
    w'.hot == w.hot && w'.pruner == w.pruner && w'.now == end && w'.rows == p.rows && w'.remote == p.remote && Up(w', u).UIdle?
  }

  /** At the head of the loop, with time to go on. */
  ghost predicate AtLoop(c: Config, R: World -> bool, w: World, u: nat, env: U.Env, end: nat) {
    && Closed(c, R) && R(w) && Busy(w, u) && w.ups[u].stage.AtHead? && w.ups[u].i <= |w.ups[u].snaps|
    && Paced(env, w.ups[u].snaps, w.ups[u].i, w.now, end) && MayWait(c, w, end)
  }

  lemma {:induction false} Upload(c: Config, R: World -> bool, w: World, u: nat) returns (w': World)
    requires Closed(c, R) && R(w) && AtWork(Up(w, u)) && Up(w, u).stage.Fresh? && Current(w.ups[u]) in w.hot
    ensures var up := w.ups[u];
            && R(w') && OnlyWorker(w, u, w') && w'.now == w.now && w'.rows == w.rows
            && w'.remote == w.remote[ObjectPath(c, Current(up)) := up.stage.obj]
            && Up(w', u) == up.(stage := Uploaded(up.stage.obj))
  {
    w' := Do(c, R, w, UUpload(u));
  }

  /** A busy worker stores its snapshot: upload, some time, then row. */
  lemma {:induction false} StoreOne(c: Config, R: World -> bool, w: World, u: nat, at: nat, end: nat) returns (w': World)
    requires Closed(c, R) && R(w) && AtWork(Up(w, u)) && Up(w, u).stage.Fresh? && Current(w.ups[u]) in w.hot
    requires MayWait(c, w, end) && w.now <= at <= end
    ensures var up := w.ups[u]; var id := Current(up); var obj := up.stage.obj;
            && R(w') && OnlyWorker(w, u, w') && w'.now == at
            && w'.rows == w.rows[id := U.NewRow(c, obj, at)] && w'.remote == w.remote[ObjectPath(c, id) := obj]
            && Up(w', u) == up.(offsited := up.offsited + {id}, i := up.i + 1, count := up.count + 1, stage := AtHead)
  {
    var v := Upload(c, R, w, u);
    StillMayWait(c, w, u, v, end);
    v := WaitUntil(c, R, v, at, end);
    w' := Do(c, R, v, URecord(u));
  }

  /** The digest lookup either moves the loop on or clears the upload. */
  lemma {:induction false} LookUp(c: Config, R: World -> bool, w: World, u: nat) returns (w': World)
    requires Closed(c, R) && R(w) && AtWork(Up(w, u)) && w.ups[u].stage.AtHead?
    requires var up := w.ups[u]; Current(up) !in up.offsited && !(c.latestOnly && up.count > 0) && Current(up) in w.hot
    ensures var up := w.ups[u]; var obj := w.hot[Current(up)].content;
            && R(w') && OnlyWorker(w, u, w') && w'.now == w.now && w'.rows == w.rows && w'.remote == w.remote
            && Up(w', u) == if ChecksumExists(w.rows, c.checksum(obj)) then up.(i := up.i + 1) else up.(stage := Fresh(obj))
  {
    w' := Do(c, R, w, UPrepare(u, w.hot[Current(w.ups[u])].content));
    w' := Do(c, R, w', ULookup(u));
  }

  /** A pass ends at `end`, done or failed. */
  lemma {:induction false} Finish(c: Config, R: World -> bool, w: World, u: nat, end: nat) returns (w': World)
    requires Closed(c, R) && R(w) && Busy(w, u) && MayWait(c, w, end) && w.now <= end
    ensures R(w') && w'.hot == w.hot && w'.pruner == w.pruner && w'.now == end && w'.rows == w.rows && w'.remote == w.remote && Up(w', u).UIdle?
  {
    w' := WaitUntil(c, R, w, end, end);
    w' := Do(c, R, w', UStop(u));
  }

  /** A pass that fails before its upload, or after it and before its row. */
  lemma {:induction false} FailOne(c: Config, R: World -> bool, w: World, u: nat, upload: bool, end: nat) returns (w': World)
    requires Closed(c, R) && R(w) && Busy(w, u) && MayWait(c, w, end) && w.now <= end
    requires upload ==> AtWork(w.ups[u]) && w.ups[u].stage.Fresh? && Current(w.ups[u]) in w.hot
    ensures R(w') && w'.hot == w.hot && w'.pruner == w.pruner && w'.now == end && w'.rows == w.rows && Up(w', u).UIdle?
    ensures w'.remote == if upload then w.remote[ObjectPath(c, Current(w.ups[u])) := w.ups[u].stage.obj] else w.remote
  {
    var v := w;
    if upload {
      v := Upload(c, R, w, u);
      StillMayWait(c, w, u, v, end);
    }
    w' := Finish(c, R, v, u, end);
  }

  lemma {:induction false} UploadLoopRuns(c: Config, R: World -> bool, w: World, u: nat, env: U.Env, bytes: nat, end: nat) returns (w': World)
    requires AtLoop(c, R, w, u, env, end)
    ensures R(w') && PassDone(c, env, w, u, bytes, end, w')
    decreases |w.ups[u].snaps| - w.ups[u].i, 2
  {
    var up := w.ups[u];
    if up.i < |up.snaps| && Current(up) in up.offsited {
      w' := SkipOneRuns(c, R, w, u, env, bytes, end);
    } else if up.i == |up.snaps| || (c.latestOnly && up.count > 0) || env.fault(Current(up)).PrepareFails? || Current(up) !in w.hot {
      w' := FailOne(c, R, w, u, false, end);
    } else {
      w' := UploadOneRuns(c, R, w, u, env, bytes, end);
    }
  }

  lemma {:induction false} SkipOneRuns(c: Config, R: World -> bool, w: World, u: nat, env: U.Env, bytes: nat, end: nat) returns (w': World)
    requires AtLoop(c, R, w, u, env, end) && w.ups[u].i < |w.ups[u].snaps| && Current(w.ups[u]) in w.ups[u].offsited
    ensures R(w') && PassDone(c, env, w, u, bytes, end, w')
    decreases |w.ups[u].snaps| - w.ups[u].i, 0
  {
    var v := Do(c, R, w, USkip(u));
    StillMayWait(c, w, u, v, end);
    w' := UploadLoopRuns(c, R, v, u, env, bytes, end);
  }

  /** At the head of the loop, with a snapshot to work on. */
  ghost predicate AtNew(c: Config, R: World -> bool, w: World, u: nat, env: U.Env, end: nat) {
    && AtLoop(c, R, w, u, env, end) && w.ups[u].i < |w.ups[u].snaps|
    && var up := w.ups[u];
       Current(up) !in up.offsited && !(c.latestOnly && up.count > 0) && !env.fault(Current(up)).PrepareFails? && Current(up) in w.hot
  }

  lemma {:induction false} UploadOneRuns(c: Config, R: World -> bool, w: World, u: nat, env: U.Env, bytes: nat, end: nat) returns (w': World)
    requires AtNew(c, R, w, u, env, end)
    ensures R(w') && PassDone(c, env, w, u, bytes, end, w')
    decreases |w.ups[u].snaps| - w.ups[u].i, 1
  {
    var id := Current(w.ups[u]);
    if env.fault(id).LookupFails? {
      w' := FailOne(c, R, w, u, false, end);
    } else if ChecksumExists(w.rows, c.checksum(w.hot[id].content)) {
      var v := LookUp(c, R, w, u);
      StillMayWait(c, w, u, v, end);
      w' := UploadLoopRuns(c, R, v, u, env, bytes, end);
    } else if !env.fault(id).NoFault? {
      var v := LookUp(c, R, w, u);
      StillMayWait(c, w, u, v, end);
      w' := FailOne(c, R, v, u, env.fault(id).RecordFails?, end);
    } else {
      w' := StoreOneRuns(c, R, w, u, env, bytes, end);
    }
  }

  lemma {:induction false} StoreOneRuns(c: Config, R: World -> bool, w: World, u: nat, env: U.Env, bytes: nat, end: nat) returns (w': World)
    requires AtNew(c, R, w, u, env, end) && env.fault(Current(w.ups[u])).NoFault?
    requires !ChecksumExists(w.rows, c.checksum(w.hot[Current(w.ups[u])].content))
    ensures R(w') && PassDone(c, env, w, u, bytes, end, w')
    decreases |w.ups[u].snaps| - w.ups[u].i, 0
  {
    var id := Current(w.ups[u]);
    var v := LookUp(c, R, w, u);
    StillMayWait(c, w, u, v, end);
    var x := StoreOne(c, R, v, u, env.at(id), end);
    StillMayWait(c, v, u, x, end);
    w' := UploadLoopRuns(c, R, x, u, env, bytes + |w.hot[id].content|, end);
  }

  /** The worker may start: its client's schedule, if it has one, is due. */
  ghost predicate Due(c: Config, w: World, u: nat) {
    c.offsiteOn && u in c.uploaders && Up(w, u).UIdle? &&
    (Gated(c, u) ==> exists last :: LatestIs(w.rows, last) && CronDue(c, last, w.now))
  }

  /** An upload pass from an idle worker, lasting to `end`. */
  lemma {:induction false} UploadPassRuns(c: Config, w: World, u: nat, snaps: seq<Listed>, env: U.Env, end: nat) returns (w': World)
    requires Reachable(c, w) && Due(c, w, u) && NewestFirst(snaps, w.hot) && Paced(env, snaps, 0, w.now, end) && Room(c, w, u, end)
    ensures var p := U.UploadAll(c, env, w.hot, snaps, w.rows, w.remote);
            Reachable(c, w') && w'.rows == p.rows && w'.remote == p.remote && w'.hot == w.hot && w'.now == end
  {
    ReachableClosed(c);
    NextPassIsNew(c, w);
    w' := UploadPassRunsIn(c, v => Reachable(c, v), w, u, snaps, env, end);
  }

  lemma {:induction false} DueRuns(c: Config, R: World -> bool, w: World, u: nat) returns (w': World)
    requires Closed(c, R) && R(w) && Due(c, w, u)
    ensures R(w') && w' == w.(ups := w.ups[u := UDue(w.passes, w.now)], passes := w.passes + 1)
  {
    w' := w;
    if Gated(c, u) {
      var last :| LatestIs(w.rows, last) && CronDue(c, last, w.now);
      w' := Do(c, R, w, UAsk(u, last));
    }
    w' := Do(c, R, w', UCheck(u));
    assert w'.ups == w.ups[u := UDue(w.passes, w.now)];
  }

  lemma {:induction false} OthersSame(w: World, u: nat, w': World)
    requires w'.ups.Keys == w.ups.Keys + {u} && forall v :: v in w.ups && v != u ==> w'.ups[v] == w.ups[v]
    ensures Others(w', u) == Others(w, u)
  {
    forall n ensures n in Others(w', u) <==> n in Others(w, u) {
      if n in Others(w', u) { var v :| v in w'.ups && v != u && w'.ups[v].UBusy? && w'.ups[v].pass == n; assert v in w.ups; }
      if n in Others(w, u) { var v :| v in w.ups && v != u && w.ups[v].UBusy? && w.ups[v].pass == n; assert v in w'.ups; }
    }
  }

  lemma {:induction false} ReadRuns(c: Config, R: World -> bool, w: World, u: nat, pass: nat, snaps: seq<Listed>, end: nat) returns (w': World)
    requires Closed(c, R) && R(w) && NewestFirst(snaps, w.hot) && Up(w, u) == UDue(pass, w.now) && Room(c, w, u, end) && w.now <= end
    ensures R(w') && w' == w.(ups := w.ups[u := UBusy(pass, w.now, snaps, w.now, w.rows.Keys, 0, 0, AtHead)], met := w'.met)
    ensures c.overlap.Bounded? && Others(w, u) != {} ==> end <= w.now + c.overlap.limit
    ensures Others(w, u) == {} ==> w'.met == w.met
  {
    w' := Do(c, R, w, UList(u, snaps));
    assert forall v :: v != u && Busy(w', v) ==> Busy(w, v);
    OthersSame(w, u, w');
    if Others(w, u) != {} {
      var n :| n in Others(w, u);
      var v :| v in w.ups && v != u && w.ups[v].UBusy? && w.ups[v].pass == n;
      assert Busy(w, v);
    }
    w' := Do(c, R, w', URead(u));
    assert w'.ups == w.ups[u := UBusy(pass, w.now, snaps, w.now, w.rows.Keys, 0, 0, AtHead)];
  }

  lemma {:induction false} UploadPassRunsIn(c: Config, R: World -> bool, w: World, u: nat, snaps: seq<Listed>, env: U.Env, end: nat) returns (w': World)
    requires Closed(c, R) && R(w) && Due(c, w, u) && NewestFirst(snaps, w.hot) && Paced(env, snaps, 0, w.now, end) && Room(c, w, u, end)
    requires c.overlap.Bounded? && Others(w, u) == {} ==> w.passes !in w.met
    ensures var p := U.UploadAll(c, env, w.hot, snaps, w.rows, w.remote);
            R(w') && w'.rows == p.rows && w'.remote == p.remote && w'.hot == w.hot && w'.now == end
  {
    var v := DueRuns(c, R, w, u);
    assert forall x :: Busy(v, x) ==> Busy(w, x) && x != u;
    v := ReadRuns(c, R, v, u, w.passes, snaps, end);
    assert MayWait(c, v, end);
    w' := UploadLoopRuns(c, R, v, u, env, 0, end);
  }

  // ---------- the pruning pass ----------

  lemma {:induction false} RemoveRow(c: Config, R: World -> bool, w: World, rowToo: bool) returns (w': World)
    requires Closed(c, R) && R(w) && AtDueRow(w.pruner) && !w.pruner.purging
    ensures var p := w.pruner; var id := p.objs[p.i].id;
            && R(w') && w'.hot == w.hot && w'.now == w.now && w'.ups == w.ups && w'.met == w.met && w'.remote == w.remote - {ObjectPath(c, id)}
            && w'.rows == (if rowToo then w.rows - {id} else w.rows)
            && w'.pruner == if rowToo then PCold(p.snaps, p.offsited, p.objs, p.i + 1, p.cutoff, false) else PIdle
  {
    w' := Do(c, R, w, PPurge);
    w' := Do(c, R, w', if rowToo then PForget else PStop);
  }

  /** What the cold loop from the pruner's index on leaves behind. */
  ghost predicate ColdDone(c: Config, w: World, env: P.Env, w': World)
    requires w.pruner.PCold? && w.pruner.i <= |w.pruner.objs|
  {
    var p := w.pruner;
    var r := P.ColdLoop(c, env, p.objs, p.i, p.cutoff, w.rows, w.remote);
    && w'.rows == r.rows && w'.remote == r.remote && w'.hot == w.hot && w'.now == w.now && w'.ups == w.ups && w'.met == w.met
    && w'.pruner == if r.ok then PCold(p.snaps, p.offsited, p.objs, |p.objs|, p.cutoff, false) else PIdle
  }

  lemma {:induction false} ColdLoopRuns(c: Config, R: World -> bool, w: World, env: P.Env) returns (w': World)
    requires Closed(c, R) && R(w) && w.pruner.PCold? && !w.pruner.purging && w.pruner.i <= |w.pruner.objs|
    ensures R(w') && ColdDone(c, w, env, w')
    decreases |w.pruner.objs| - w.pruner.i, 1
  {
    var p := w.pruner;
    if p.i == |p.objs| {
      w' := w;
    } else if !P.Due(p.objs, p.cutoff, p.i) {
      var v := Do(c, R, w, PKeep);
      w' := ColdLoopRuns(c, R, v, env);
    } else {
      w' := ColdDueRuns(c, R, w, env);
    }
  }

  /** The cold loop at a due row. */
  lemma {:induction false} ColdDueRuns(c: Config, R: World -> bool, w: World, env: P.Env) returns (w': World)
    requires Closed(c, R) && R(w) && AtDueRow(w.pruner) && !w.pruner.purging
    ensures R(w') && ColdDone(c, w, env, w')
    decreases |w.pruner.objs| - w.pruner.i, 0
  {
    var id := w.pruner.objs[w.pruner.i].id;
    if env.deleteFails(id) {
      w' := Do(c, R, w, PStop);
    } else {
      w' := RemoveRow(c, R, w, !env.forgetFails(id));
      if !env.forgetFails(id) { w' := ColdLoopRuns(c, R, w', env); }
    }
  }

  /** The victims of the hot loop from index `i` on. */
  ghost function VictimsFrom(c: Config, snaps: seq<Listed>, offsited: set<Id>, cutoff: int, latest: Id, fails: Id -> bool, i: nat): (ids: set<Id>) {
    set k | 0 < k && i <= k < |snaps| && W.Victim(c, snaps[k], offsited, cutoff, latest, fails) :: snaps[k].id
  }

  lemma {:induction false} VictimsStep(c: Config, snaps: seq<Listed>, offsited: set<Id>, cutoff: int, latest: Id, fails: Id -> bool, i: nat)
    requires i < |snaps|
    ensures VictimsFrom(c, snaps, offsited, cutoff, latest, fails, i) ==
            (if 0 < i && W.Victim(c, snaps[i], offsited, cutoff, latest, fails) then {snaps[i].id} else {}) +
            VictimsFrom(c, snaps, offsited, cutoff, latest, fails, i + 1)
  {}

  lemma {:induction false} HotLoopRuns(c: Config, R: World -> bool, w: World, latest: Id, fails: Id -> bool) returns (w': World)
    requires Closed(c, R) && R(w) && w.pruner.PHot? && w.pruner.i <= |w.pruner.snaps|
    ensures var p := w.pruner;
            && R(w') && w'.hot == w.hot - VictimsFrom(c, p.snaps, p.offsited, p.cutoff, latest, fails, p.i)
            && w'.rows == w.rows && w'.remote == w.remote && w'.now == w.now && w'.pruner == PIdle
    decreases |w.pruner.snaps| - w.pruner.i
  {
    var p := w.pruner;
    if p.i == |p.snaps| {
      assert VictimsFrom(c, p.snaps, p.offsited, p.cutoff, latest, fails, p.i) == {};
      w' := Do(c, R, w, PStop);
    } else {
      VictimsStep(c, p.snaps, p.offsited, p.cutoff, latest, fails, p.i);
      var rest := VictimsFrom(c, p.snaps, p.offsited, p.cutoff, latest, fails, p.i + 1);
      var id := p.snaps[p.i].id;
      var v := HotOneRuns(c, R, w, AtDueSnapshot(c, p) && !(c.mode.Rsync? && id == latest) && !fails(id));
      P.RemoveTwice(w.hot, id, rest);
      w' := HotLoopRuns(c, R, v, latest, fails);
    }
  }

  lemma {:induction false} HotOneRuns(c: Config, R: World -> bool, w: World, remove: bool) returns (w': World)
    requires Closed(c, R) && R(w) && w.pruner.PHot? && w.pruner.i < |w.pruner.snaps| && (remove ==> AtDueSnapshot(c, w.pruner))
    ensures var p := w.pruner;
            && R(w') && w'.pruner == PHot(p.snaps, p.offsited, p.i + 1, p.cutoff)
            && w'.hot == (if remove then w.hot - {p.snaps[p.i].id} else w.hot)
            && w'.rows == w.rows && w'.remote == w.remote && w'.now == w.now
  {
    w' := Do(c, R, w, if remove then PHotDelete else PHotKeep);
  }

  /** The listing, the row set and, if offsite pruning is on, the rows are read at `w.now`; the
      offsite cutoff is taken at `coldNow`. */
  lemma {:induction false} ReadsRun(c: Config, R: World -> bool, w: World, snaps: seq<Listed>, end: nat) returns (w': World)
    requires Closed(c, R) && R(w) && w.pruner.PIdle? && NewestFirst(snaps, w.hot) && MayWait(c, w, end)
    ensures R(w') && w' == w.(pruner := PRead(snaps, w.rows.Keys)) && MayWait(c, w', end)
  {
    w' := Do(c, R, w, PList(snaps));
    w' := Do(c, R, w', PReadSet);
    assert forall u :: Busy(w', u) ==> Busy(w, u);
  }

  lemma {:induction false} CutoffRuns(c: Config, R: World -> bool, w: World, objs: seq<Obj>, coldNow: nat, end: nat) returns (w': World)
    requires Closed(c, R) && R(w) && w.pruner.PRead? && ColdPruningOn(c) && RowsNewestFirst(objs, w.rows)
    requires MayWait(c, w, end) && w.now <= coldNow <= end
    ensures R(w') && MayWait(c, w', end)
    ensures w' == w.(now := coldNow, pruner := PCold(w.pruner.snaps, w.pruner.offsited, objs, 0, coldNow - ColdHorizon(c), false))
  {
    var v := Do(c, R, w, PQuery(objs));
    assert forall u :: Busy(v, u) ==> Busy(w, u);
    v := WaitUntil(c, R, v, coldNow, end);
    w' := Do(c, R, v, PCutoff);
    assert forall u :: Busy(w', u) ==> Busy(v, u);
  }

  /** The pruner is done with the rows, with these reads. */
  predicate ColdIsDone(c: Config, p: Pruner, snaps: seq<Listed>, offsited: set<Id>) {
    && ((p.PRead? && !ColdPruningOn(c)) || (p.PCold? && p.i == |p.objs|))
    && p.snaps == snaps && p.offsited == offsited
  }

  /** From the reads to the end of the cold loop, at `coldNow`. */
  lemma {:induction false} ColdPhaseRuns(c: Config, R: World -> bool, w: World, objs: seq<Obj>, coldNow: nat, end: nat, env: P.Env) returns (w': World)
    requires Closed(c, R) && R(w) && w.pruner.PRead? && RowsNewestFirst(objs, w.rows)
    requires MayWait(c, w, end) && w.now <= coldNow <= end
    ensures var r := P.PruneResult(c, env, objs, coldNow, w.rows, w.remote);
            && R(w') && w'.rows == r.rows && w'.remote == r.remote && w'.hot == w.hot && w'.now == coldNow && MayWait(c, w', end)
            && (if r.ok then ColdIsDone(c, w'.pruner, w.pruner.snaps, w.pruner.offsited) else w'.pruner == PIdle)
  {
    if ColdPruningOn(c) {
      var v := CutoffRuns(c, R, w, objs, coldNow, end);
      w' := ColdLoopRuns(c, R, v, env);
      assert forall u :: Busy(w', u) ==> Busy(v, u);
    } else {
      w' := WaitUntil(c, R, w, coldNow, end);
    }
  }

  lemma {:induction false} HotPhaseRuns(c: Config, R: World -> bool, w: World, snaps: seq<Listed>, offsited: set<Id>, latest: Id, fails: Id -> bool)
    returns (w': World)
    requires Closed(c, R) && R(w) && ColdIsDone(c, w.pruner, snaps, offsited)
    ensures R(w') && w'.rows == w.rows && w'.remote == w.remote && w'.now == w.now && w'.pruner == PIdle
    ensures w'.hot == if c.retentionDays > 0
                      then w.hot - W.HotVictims(c, snaps, offsited, w.now - HotHorizon(c), latest, fails, |snaps|)
                      else w.hot
  {
    var cutoff := w.now - HotHorizon(c);
    w' := Do(c, R, w, PHotStart);
    assert VictimsFrom(c, snaps, offsited, cutoff, latest, fails, 0) == W.HotVictims(c, snaps, offsited, cutoff, latest, fails, |snaps|);
    if w'.pruner.PHot? {
      w' := HotLoopRuns(c, R, w', latest, fails);
    } else if c.retentionDays > 0 {
      assert W.HotVictims(c, snaps, offsited, cutoff, latest, fails, |snaps|) == {};
    }
  }

  /** The effect of processClient, as LifecycleWorker.Site.ProcessClient states it. */
  ghost predicate AfterPrune(c: Config, w: World, snaps: seq<Listed>, objs: seq<Obj>, coldNow: nat, hotNow: nat, env: P.Env, latest: Id, fails: Id -> bool, w': World) {
    var r := P.PruneResult(c, env, objs, coldNow, w.rows, w.remote);
    && w'.rows == r.rows && w'.remote == r.remote && w'.pruner == PIdle && w'.now == hotNow
    && w'.hot == if r.ok && c.retentionDays > 0
                 then w.hot - W.HotVictims(c, snaps, w.rows.Keys, hotNow - HotHorizon(c), latest, fails, |snaps|)
                 else w.hot
  }

  lemma {:induction false} PrunePassRunsIn(c: Config, R: World -> bool, w: World, snaps: seq<Listed>, objs: seq<Obj>, coldNow: nat, hotNow: nat,
                                           env: P.Env, latest: Id, fails: Id -> bool)
    returns (w': World)
    requires Closed(c, R) && R(w) && w.pruner.PIdle? && NewestFirst(snaps, w.hot) && RowsNewestFirst(objs, w.rows)
    requires w.now <= coldNow <= hotNow && MayWait(c, w, hotNow)
    ensures R(w') && AfterPrune(c, w, snaps, objs, coldNow, hotNow, env, latest, fails, w')
  {
    var v := ReadsRun(c, R, w, snaps, hotNow);
    var x := ColdPhaseRuns(c, R, v, objs, coldNow, hotNow, env);
    w' := WaitUntil(c, R, x, hotNow, hotNow);
    if P.PruneResult(c, env, objs, coldNow, w.rows, w.remote).ok { w' := HotPhaseRuns(c, R, w', snaps, w.rows.Keys, latest, fails); }
  }

  /** A pruning pass from an idle pruner, with a time for each of its cutoffs. */
  lemma {:induction false} PrunePassRuns(c: Config, w: World, snaps: seq<Listed>, objs: seq<Obj>, coldNow: nat, hotNow: nat,
                                         env: P.Env, latest: Id, fails: Id -> bool)
    returns (w': World)
    requires Reachable(c, w) && w.pruner.PIdle? && NewestFirst(snaps, w.hot) && RowsNewestFirst(objs, w.rows)
    requires w.now <= coldNow <= hotNow && MayWait(c, w, hotNow)
    ensures Reachable(c, w') && AfterPrune(c, w, snaps, objs, coldNow, hotNow, env, latest, fails, w')
  {
    ReachableClosed(c);
    w' := PrunePassRunsIn(c, v => Reachable(c, v), w, snaps, objs, coldNow, hotNow, env, latest, fails);
  }
}
