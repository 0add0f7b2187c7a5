/** What upload passes know, in every run and under no hypothesis at all: a pass has read every
    row that is older than itself, and a row that it does not know of was written beside it, by
    an overlapping pass. So the rows that the pruner listed can only drift by what the overlap
    limit allows. The invariants of the other modules build on this one. */
module PassKnowledge {
  import opened OffsiteModel
  import opened OffsiteProtocol

  ghost predicate SingleUploader(c: Config) {
    forall u, v :: u in c.uploaders && v in c.uploaders ==> u == v
  }

  /** The pass read `id` when it started, or the row was written later beside it. */
  predicate Known(met: set<nat>, up: Uploader, id: Id, uploadedAt: nat)
    requires up.UBusy?
  {
    id in up.offsited || (up.pass in met && up.start <= uploadedAt)
  }

  ghost predicate KnownToAll(w: World, id: Id, uploadedAt: nat) {
    forall u :: Busy(w, u) ==> Known(w.met, w.ups[u], id, uploadedAt)
  }

  predicate Listing(p: Pruner) { p.PObjs? || p.PCold? }

  /** Row `k` of the pruner's listing is still ahead of it, or is the protected first one. */
  predicate Live(p: Pruner, k: int) {
    (p.PObjs? && 0 <= k < |p.objs|) || (p.PCold? && (p.i <= k < |p.objs| || k == 0 < |p.objs|))
  }

  /** A row listed with upload time `listed` has upload time `t` by now. */
  predicate Drift(c: Config, met: set<nat>, listed: nat, t: nat) {
    t == listed || (listed < t && met != {} && MayOverlapBy(c, t - listed))
  }

  ghost predicate WorkerOk(c: Config, now: nat, met: set<nat>, u: nat, up: Uploader) {
    && u in c.uploaders
    && (up.UBusy? ==>
      && up.start <= now
      && (c.overlap.Bounded? && up.pass in met ==> now <= up.start + c.overlap.limit)
      && (!up.stage.AtHead? ==> up.i < |up.snaps| && Current(up) !in up.offsited))
  }

  predicate HasPass(up: Uploader) { up.UDue? || up.UListed? || up.UBusy? }

  /** Passes have numbers of their own; only a pass under way meets others. */
  ghost predicate NumbersOk(passes: nat, met: set<nat>, ups: map<nat, Uploader>) {
    && (forall n :: n in met ==> n < passes)
    && (forall u :: u in ups && HasPass(ups[u]) ==> ups[u].pass < passes && (ups[u].pass in met ==> ups[u].UBusy?))
    && (forall u, v :: u in ups && v in ups && u != v && HasPass(ups[u]) && HasPass(ups[v]) ==> ups[u].pass != ups[v].pass)
  }

  ghost predicate WorkersOk(c: Config, w: World) {
    && NumbersOk(w.passes, w.met, w.ups)
    && (forall u :: u in w.ups ==> WorkerOk(c, w.now, w.met, u, w.ups[u]))
    && (forall u, v :: Busy(w, u) && Busy(w, v) && u != v ==> w.ups[u].pass in w.met)
    && (SingleUploader(c) ==> w.met == {})
  }

  ghost predicate RowsOk(w: World) {
    && (forall id :: id in w.rows ==> w.rows[id].uploadedAt <= w.now)
    && (forall id :: id in w.rows ==> KnownToAll(w, id, w.rows[id].uploadedAt))
  }

  ghost predicate ListedRowOk(c: Config, w: World, o: Obj) {
    o.id in w.rows && Drift(c, w.met, o.row.uploadedAt, w.rows[o.id].uploadedAt) && KnownToAll(w, o.id, o.row.uploadedAt)
  }

  predicate PrunerOk(c: Config, now: nat, p: Pruner) {
    && (Listing(p) ==> ColdPruningOn(c))
    && (Listing(p) ==> forall j, k :: 0 <= j < k < |p.objs| ==> p.objs[j].id != p.objs[k].id)
    && (p.PCold? ==> p.cutoff <= now - ColdHorizon(c))
    && (p.PCold? && p.purging ==> AtDueRow(p))
  }

  ghost predicate ListingOk(c: Config, w: World) {
    forall k :: Live(w.pruner, k) ==> ListedRowOk(c, w, w.pruner.objs[k])
  }

  ghost predicate PurgeOk(c: Config, met: set<nat>, p: Purge) {
    && p.current.Some? && Drift(c, met, p.obj.row.uploadedAt, p.current.value.uploadedAt)
    && p.obj.row.uploadedAt < p.at - ColdHorizon(c)
  }

  ghost predicate Inv(c: Config, w: World) {
    && WorkersOk(c, w) && RowsOk(w) && PrunerOk(c, w.now, w.pruner) && ListingOk(c, w)
    && (forall p :: p in w.purged ==> PurgeOk(c, w.met, p))
  }

  // ---------- steps ----------

  /** Worker `u` alone moves, possibly reading the rows. */
  ghost predicate Local(w: World, u: nat, w': World) {
    && w'.ups.Keys == w.ups.Keys + {u} && (forall v :: v in w.ups && v != u ==> w'.ups[v] == w.ups[v])
    && w'.now == w.now && w'.rows == w.rows && w'.pruner == w.pruner && w'.purged == w.purged && w.met <= w'.met
    && (Busy(w', u) ==> (w'.ups[u].offsited == w.rows.Keys ||
                         (Busy(w, u) && w'.ups[u].(i := 0, stage := AtHead) == w.ups[u].(i := 0, stage := AtHead))))
  }

  predicate QuietUpload(a: Action) {
    a.UAsk? || a.UCheck? || a.UList? || a.USkip? || a.UPrepare? || a.ULookup? || a.UUpload? || a.UStop?
  }

  lemma {:induction false} QuietFrame(c: Config, w: World, a: Action)
    requires QuietUpload(a) && Enabled(c, w, a)
    ensures Local(w, a.u, Apply(c, w, a)) && Apply(c, w, a).met == w.met
    ensures Busy(Apply(c, w, a), a.u) ==> Busy(w, a.u)
  {}

  lemma {:induction false} QuietWorker(c: Config, w: World, a: Action)
    requires QuietUpload(a) && Enabled(c, w, a) && (a.u in w.ups ==> WorkerOk(c, w.now, w.met, a.u, w.ups[a.u]))
    ensures var w' := Apply(c, w, a); a.u in w'.ups && WorkerOk(c, w.now, w.met, a.u, w'.ups[a.u])
  {}

  lemma {:induction false} QuietNumbers(c: Config, w: World, a: Action)
    requires QuietUpload(a) && Enabled(c, w, a) && NumbersOk(w.passes, w.met, w.ups)
    ensures var w' := Apply(c, w, a); NumbersOk(w'.passes, w'.met, w'.ups)
  {
    var w' := Apply(c, w, a);
    NumberFrame(c, w, a);
    forall u, v | u in w'.ups && v in w'.ups && u != v && HasPass(w'.ups[u]) && HasPass(w'.ups[v]) ensures w'.ups[u].pass != w'.ups[v].pass {
      if u != a.u { assert w'.ups[u] == w.ups[u]; }
      if v != a.u { assert w'.ups[v] == w.ups[v]; }
    }
  }

  /** A worker gets a new pass number when it finds itself due. */
  lemma {:induction false} NumberFrame(c: Config, w: World, a: Action)
    requires QuietUpload(a) && Enabled(c, w, a)
    ensures var w' := Apply(c, w, a);
            && w'.met == w.met && a.u in w'.ups && w'.ups == w.ups[a.u := w'.ups[a.u]]
            && w'.passes == (if a.UCheck? then w.passes + 1 else w.passes)
            && (HasPass(w'.ups[a.u]) ==> if a.UCheck? then w'.ups[a.u].pass == w.passes && !w'.ups[a.u].UBusy?
                                         else HasPass(Up(w, a.u)) && w'.ups[a.u].pass == w.ups[a.u].pass && w'.ups[a.u].UBusy? == w.ups[a.u].UBusy?)
  {}

  lemma {:induction false} LocalKnown(w: World, u: nat, w': World, id: Id, t: nat)
    requires Local(w, u, w') && id in w.rows && KnownToAll(w, id, t)
    ensures KnownToAll(w', id, t)
  {
    forall v | Busy(w', v) ensures Known(w'.met, w'.ups[v], id, t) {
      if v != u || !(w'.ups[u].offsited == w.rows.Keys) { assert Busy(w, v) && Known(w.met, w.ups[v], id, t); }
    }
  }

  lemma {:induction false} LocalStep(c: Config, w: World, u: nat, w': World)
    requires Inv(c, w) && Local(w, u, w') && WorkersOk(c, w')
    ensures Inv(c, w')
  {
    forall id | id in w'.rows ensures KnownToAll(w', id, w'.rows[id].uploadedAt) { LocalKnown(w, u, w', id, w.rows[id].uploadedAt); }
    forall k | Live(w'.pruner, k) ensures ListedRowOk(c, w', w'.pruner.objs[k]) {
      assert Live(w.pruner, k) && ListedRowOk(c, w, w.pruner.objs[k]);
      LocalKnown(w, u, w', w.pruner.objs[k].id, w.pruner.objs[k].row.uploadedAt);
    }
    forall p | p in w'.purged ensures PurgeOk(c, w'.met, p) { assert PurgeOk(c, w.met, p); }
  }

  lemma {:induction false} QuietStep(c: Config, w: World, a: Action)
    requires Inv(c, w) && QuietUpload(a) && Enabled(c, w, a)
    ensures Inv(c, Apply(c, w, a))
  {
    var w' := Apply(c, w, a);
    QuietFrame(c, w, a);
    QuietWorker(c, w, a);
    forall v | v in w'.ups ensures WorkerOk(c, w'.now, w'.met, v, w'.ups[v]) { if v != a.u { assert w'.ups[v] == w.ups[v]; } }
    forall x, y | Busy(w', x) && Busy(w', y) && x != y ensures w'.ups[x].pass in w'.met { assert Busy(w, x) && Busy(w, y); }
    QuietNumbers(c, w, a);
    LocalStep(c, w, a.u, w');
  }

  lemma {:induction false} ReadStep(c: Config, w: World, u: nat)
    requires Inv(c, w) && Enabled(c, w, URead(u))
    ensures Inv(c, Apply(c, w, URead(u)))
  {
    var w' := Apply(c, w, URead(u));
    assert Local(w, u, w');
    forall v | v in w'.ups ensures WorkerOk(c, w'.now, w'.met, v, w'.ups[v]) {
      assert WorkerOk(c, w.now, w.met, v, w.ups[v]);
      if v == u && Others(w, u) != {} {
        var q :| q in Others(w, u);
        var x :| x in w.ups && x != u && w.ups[x].UBusy? && w.ups[x].pass == q;
        assert Busy(w, x);
      }
      if v != u && Busy(w, v) && w.ups[v].pass in w'.met && c.overlap.Bounded? && w.ups[v].pass !in w.met {
        assert w.now <= w.ups[v].start + c.overlap.limit;
      }
      assert v != u && w.ups[v].UBusy? ==> Busy(w, v);
    }
    forall x, y | Busy(w', x) && Busy(w', y) && x != y ensures w'.ups[x].pass in w'.met {
      if x != u && y != u { assert Busy(w, x) && Busy(w, y); }
      else if x != u { assert w.ups[x].pass in Others(w, u); }
      else { assert w.ups[y].pass in Others(w, u); }
    }
    ReadNumbers(c, w, u);
    LocalStep(c, w, u, w');
  }

  lemma {:induction false} ReadNumbers(c: Config, w: World, u: nat)
    requires Enabled(c, w, URead(u)) && NumbersOk(w.passes, w.met, w.ups)
    ensures var w' := Apply(c, w, URead(u)); NumbersOk(w'.passes, w'.met, w'.ups)
  {
    var w' := Apply(c, w, URead(u));
    forall v | v in w'.ups && HasPass(w'.ups[v]) ensures w'.ups[v].pass in w'.met ==> w'.ups[v].UBusy? {
      if v != u { assert w'.ups[v] == w.ups[v]; }
    }
  }

  /** A listed row that a pass is about to write again drifts by the age of that pass. */
  lemma {:induction false} DriftAtRecord(c: Config, w: World, u: nat, o: Obj)
    requires Inv(c, w) && Enabled(c, w, URecord(u)) && o.id == Current(w.ups[u]) && ListedRowOk(c, w, o)
    ensures Drift(c, w.met, o.row.uploadedAt, w.now)
  {
    assert Busy(w, u) && Known(w.met, w.ups[u], o.id, o.row.uploadedAt);
    assert WorkerOk(c, w.now, w.met, u, w.ups[u]);
    assert w.rows[o.id].uploadedAt <= w.now;
  }

  lemma {:induction false} RecordKnown(c: Config, w: World, u: nat)
    requires Inv(c, w) && Enabled(c, w, URecord(u))
    ensures var w' := Apply(c, w, URecord(u));
            && (forall s, t :: KnownToAll(w, s, t) ==> KnownToAll(w', s, t))
            && KnownToAll(w', Current(w.ups[u]), w.now)
  {
    var w' := Apply(c, w, URecord(u));
    forall s, t | KnownToAll(w, s, t) ensures KnownToAll(w', s, t) {
      forall v | Busy(w', v) ensures Known(w'.met, w'.ups[v], s, t) { assert Busy(w, v) && Known(w.met, w.ups[v], s, t); }
    }
    forall v | Busy(w', v) ensures Known(w'.met, w'.ups[v], Current(w.ups[u]), w.now) {
      assert Busy(w, v) && Busy(w, u) && WorkerOk(c, w.now, w.met, v, w.ups[v]);
    }
  }

  lemma {:induction false} RecordStep(c: Config, w: World, u: nat)
    requires Inv(c, w) && Enabled(c, w, URecord(u))
    ensures Inv(c, Apply(c, w, URecord(u)))
  {
    var w' := Apply(c, w, URecord(u));
    assert w'.pruner == w.pruner && w'.met == w.met && w'.now == w.now && w'.purged == w.purged;
    forall v | v in w'.ups ensures WorkerOk(c, w'.now, w'.met, v, w'.ups[v]) { assert WorkerOk(c, w.now, w.met, v, w.ups[v]); }
    forall x, y | Busy(w', x) && Busy(w', y) && x != y ensures w'.ups[x].pass in w'.met { assert Busy(w, x) && Busy(w, y); }
    RecordKnown(c, w, u);
    forall k | Live(w'.pruner, k) ensures ListedRowOk(c, w', w'.pruner.objs[k]) {
      var o := w.pruner.objs[k];
      assert Live(w.pruner, k) && ListedRowOk(c, w, o);
      if o.id == Current(w.ups[u]) { DriftAtRecord(c, w, u, o); }
    }
  }

  // ---------- the pruner, the clock and the client ----------

  /** What the other steps leave alone. */
  ghost predicate SameTable(w: World, w': World) {
    w'.rows == w.rows && w'.ups == w.ups && w'.met == w.met && w'.passes == w.passes && w'.now == w.now
  }

  lemma {:induction false} SameKnown(w: World, w': World)
    requires w'.ups == w.ups && w'.met == w.met
    ensures forall id, t :: KnownToAll(w, id, t) ==> KnownToAll(w', id, t)
  {
    forall id, t | KnownToAll(w, id, t) ensures KnownToAll(w', id, t) {
      forall v | Busy(w', v) ensures Known(w'.met, w'.ups[v], id, t) { assert Busy(w, v); }
    }
  }

  lemma {:induction false} SameTableStep(c: Config, w: World, w': World)
    requires Inv(c, w) && SameTable(w, w') && w'.purged == w.purged
    requires PrunerOk(c, w'.now, w'.pruner)
    requires forall k :: Live(w'.pruner, k) ==> Live(w.pruner, k) && w'.pruner.objs[k] == w.pruner.objs[k]
    ensures Inv(c, w')
  {
    SameKnown(w, w');
    forall x, y | Busy(w', x) && Busy(w', y) && x != y ensures w'.ups[x].pass in w'.met { assert Busy(w, x) && Busy(w, y); }
    forall k | Live(w'.pruner, k) ensures ListedRowOk(c, w', w'.pruner.objs[k]) { assert ListedRowOk(c, w, w.pruner.objs[k]); }
  }

  predicate QuietPrune(a: Action) {
    a.PList? || a.PReadSet? || a.PCutoff? || a.PKeep? || a.PHotStart? || a.PHotKeep? || a.PHotDelete? || a.PStop? || a.Ingest?
  }

  lemma {:induction false} QuietPruneFrame(c: Config, w: World, a: Action)
    requires QuietPrune(a) && Enabled(c, w, a) && PrunerOk(c, w.now, w.pruner)
    ensures var w' := Apply(c, w, a); SameTable(w, w') && w'.purged == w.purged && PrunerOk(c, w'.now, w'.pruner)
    ensures var w' := Apply(c, w, a);
            forall k :: Live(w'.pruner, k) ==> Live(w.pruner, k) && w'.pruner.objs[k] == w.pruner.objs[k]
  {}

  lemma {:induction false} QueryStep(c: Config, w: World, objs: seq<Obj>)
    requires Inv(c, w) && Enabled(c, w, PQuery(objs))
    ensures Inv(c, Apply(c, w, PQuery(objs)))
  {
    var w' := Apply(c, w, PQuery(objs));
    SameKnown(w, w');
    forall x, y | Busy(w', x) && Busy(w', y) && x != y ensures w'.ups[x].pass in w'.met { assert Busy(w, x) && Busy(w, y); }
    forall k | Live(w'.pruner, k) ensures ListedRowOk(c, w', objs[k]) { assert objs[k].id in w.rows; }
  }

  lemma {:induction false} PurgeStep(c: Config, w: World)
    requires Inv(c, w) && Enabled(c, w, PPurge)
    ensures Inv(c, Apply(c, w, PPurge))
  {
    var w' := Apply(c, w, PPurge);
    var o := w.pruner.objs[w.pruner.i];
    assert Live(w.pruner, w.pruner.i) && ListedRowOk(c, w, o);
    var mid := w'.(purged := w.purged);
    SameTableStep(c, w, mid);
    SameKnown(mid, w');
    forall x, y | Busy(w', x) && Busy(w', y) && x != y ensures w'.ups[x].pass in w'.met { assert Busy(w, x) && Busy(w, y); }
    forall k | Live(w'.pruner, k) ensures ListedRowOk(c, w', w'.pruner.objs[k]) { assert ListedRowOk(c, mid, mid.pruner.objs[k]); }
  }

  lemma {:induction false} ForgetStep(c: Config, w: World)
    requires Inv(c, w) && Enabled(c, w, PForget)
    ensures Inv(c, Apply(c, w, PForget))
  {
    var w' := Apply(c, w, PForget);
    SameKnown(w, w');
    forall x, y | Busy(w', x) && Busy(w', y) && x != y ensures w'.ups[x].pass in w'.met { assert Busy(w, x) && Busy(w, y); }
    forall k | Live(w'.pruner, k) ensures ListedRowOk(c, w', w'.pruner.objs[k]) {
      assert Live(w.pruner, k) && ListedRowOk(c, w, w.pruner.objs[k]);
    }
  }

  lemma {:induction false} TickStep(c: Config, w: World, delta: nat)
    requires Inv(c, w) && Enabled(c, w, Tick(delta))
    ensures Inv(c, Apply(c, w, Tick(delta)))
  {
    var w' := Apply(c, w, Tick(delta));
    SameKnown(w, w');
    forall v | v in w'.ups ensures WorkerOk(c, w'.now, w'.met, v, w'.ups[v]) {
      assert WorkerOk(c, w.now, w.met, v, w.ups[v]);
      assert w.ups[v].UBusy? ==> Busy(w, v);
    }
    forall x, y | Busy(w', x) && Busy(w', y) && x != y ensures w'.ups[x].pass in w'.met { assert Busy(w, x) && Busy(w, y); }
    forall k | Live(w'.pruner, k) ensures ListedRowOk(c, w', w'.pruner.objs[k]) { assert ListedRowOk(c, w, w.pruner.objs[k]); }
  }

  lemma {:induction false} Step(c: Config, w: World, a: Action)
    requires Inv(c, w) && Enabled(c, w, a)
    ensures Inv(c, Apply(c, w, a))
  {
    if a.Tick? { TickStep(c, w, a.delta); }
    else if a.URead? { ReadStep(c, w, a.u); }
    else if a.URecord? { RecordStep(c, w, a.u); }
    else if QuietUpload(a) { QuietStep(c, w, a); }
    else if a.PQuery? { QueryStep(c, w, a.objs); }
    else if a.PPurge? { PurgeStep(c, w); }
    else if a.PForget? { ForgetStep(c, w); }
    else {
      QuietPruneFrame(c, w, a);
      SameTableStep(c, w, Apply(c, w, a));
    }
  }

  lemma {:induction false} RunKeeps(c: Config, w: World, run: seq<Action>)
    requires Inv(c, w) && CanRun(c, w, run)
    ensures Inv(c, After(c, w, run))
    decreases |run|
  {
    if run != [] {
      Step(c, w, run[0]);
      RunKeeps(c, Apply(c, w, run[0]), run[1..]);
    }
  }

  lemma {:induction false} ReachableInv(c: Config, w: World)
    requires Reachable(c, w)
    ensures Inv(c, w)
  {
    var w0: World, run: seq<Action> :| Init(w0) && CanRun(c, w0, run) && After(c, w0, run) == w;
    RunKeeps(c, w0, run);
  }

  /** The number of the next pass is not taken. */
  lemma {:induction false} NextPassIsNew(c: Config, w: World)
    requires Reachable(c, w)
    ensures w.passes !in w.met
  {
    ReachableInv(c, w);
  }

  /** In every reachable state a pass has read each row, or the row was written during that pass
      by an overlapping one. */
  lemma {:induction false} ReadOrBeside(c: Config, w: World, u: nat, id: Id)
    requires Reachable(c, w) && Busy(w, u) && id in w.rows
    ensures id in w.ups[u].offsited || (w.ups[u].start <= w.rows[id].uploadedAt && w.ups[u].pass in w.met && !SingleUploader(c))
  {
    ReachableInv(c, w);
    assert KnownToAll(w, id, w.rows[id].uploadedAt) && Known(w.met, w.ups[u], id, w.rows[id].uploadedAt);
  }

  /** In every reachable state a listed row that the pruner has not passed is still in the table,
      younger than listed by no more than the overlap limit. */
  lemma {:induction false} ListingsDrift(c: Config, w: World, k: nat)
    requires Reachable(c, w) && Live(w.pruner, k)
    ensures var o := w.pruner.objs[k];
            && o.id in w.rows && o.row.uploadedAt <= w.rows[o.id].uploadedAt
            && (o.row.uploadedAt != w.rows[o.id].uploadedAt ==>
                  !SingleUploader(c) && MayOverlapBy(c, w.rows[o.id].uploadedAt - o.row.uploadedAt))
  {
    ReachableInv(c, w);
    assert ListedRowOk(c, w, w.pruner.objs[k]);
  }
}
