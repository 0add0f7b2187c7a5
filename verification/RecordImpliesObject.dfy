/** A row in offsite_objects means that the object is on the remote. This holds in every
    interleaving if there is one upload worker, if upload passes never overlap, or if no
    overlapping pass outlasts the offsite horizon; otherwise it fails (DanglingRecord). */
module RecordImpliesObject {
  import opened OffsiteModel
  import opened OffsiteProtocol
  import opened PassKnowledge

  function Max(a: int, b: int): (m: int) { if a < b then b else a }

  /** How old a row is when it can be due for the first time. */
  function DueAge(c: Config): (age: nat) { Max(ColdHorizon(c) + 1, 0) }

  /** No pass gets old enough beside another one for a row of its own time to be due. */
  ghost predicate SafeUploads(c: Config) {
    SingleUploader(c) || !MayOverlapBy(c, DueAge(c))
  }

  /** Passes that never overlap are safe whatever the horizon, and overlapping ones up to the
      configured horizon, if it fits a time.Duration. */
  lemma {:induction false} SafeUpToHorizon(c: Config)
    requires c.overlap.Bounded? && (c.overlap.limit < 0 || (0 < c.offsiteDays <= MAX_DAYS && c.overlap.limit <= Days(c.offsiteDays)))
    ensures SafeUploads(c)
  {
    if c.overlap.limit >= 0 { HorizonIsExact(c.offsiteDays); }
  }

  /** An uploaded object stays until its row is written. */
  predicate UploadOk(c: Config, remote: map<string, Content>, up: Uploader) {
    up.UBusy? && up.stage.Uploaded? ==> up.i < |up.snaps| && ObjectPath(c, Current(up)) in remote
  }

  /** The object of a recorded snapshot is on the remote, up to a row the pruner is removing
      or failed to remove after deleting the object. */
  ghost predicate RowHasObject(c: Config, w: World, id: Id) {
    ObjectPath(c, id) in w.remote || Forgetting(w.pruner, id) || id in w.forgetFailed
  }

  ghost predicate ObjectsOk(c: Config, w: World) {
    && (forall u :: u in w.ups ==> UploadOk(c, w.remote, w.ups[u]))
    && (forall id :: id in w.rows ==> RowHasObject(c, w, id))
  }

  /** The heart of the argument: no pass is about to upload a snapshot whose row is due. */
  lemma {:induction false} DueIsKnown(c: Config, w: World, u: nat)
    requires SafeUploads(c) && Inv(c, w) && AtDueRow(w.pruner) && Busy(w, u)
    ensures w.pruner.objs[w.pruner.i].id in w.ups[u].offsited
  {
    var o := w.pruner.objs[w.pruner.i];
    assert Live(w.pruner, w.pruner.i) && ListedRowOk(c, w, o);
    assert Known(w.met, w.ups[u], o.id, o.row.uploadedAt);
    assert WorkerOk(c, w.now, w.met, u, w.ups[u]);
  }

  /** The steps that neither upload, record, delete an object nor forget a row. */
  predicate Quiet(a: Action) {
    !a.UUpload? && !a.URecord? && !a.PPurge? && !a.PForget? && !a.PStop?
  }

  lemma {:induction false} QuietFrame(c: Config, w: World, a: Action)
    requires Quiet(a) && Enabled(c, w, a)
    ensures var w' := Apply(c, w, a);
            && w'.rows == w.rows && w'.remote == w.remote && w'.forgetFailed == w.forgetFailed
            && (forall id :: Forgetting(w.pruner, id) ==> Forgetting(w'.pruner, id))
  {
    hide NewestFirst, RowsNewestFirst, LatestIs, CronDue, MayWait, MayMeet, ChecksumExists;
  }

  lemma {:induction false} QuietUploads(c: Config, w: World, a: Action, u: nat)
    requires Quiet(a) && Enabled(c, w, a) && u in Apply(c, w, a).ups && (u in w.ups ==> UploadOk(c, w.remote, w.ups[u]))
    ensures UploadOk(c, w.remote, Apply(c, w, a).ups[u])
  {
    hide NewestFirst, RowsNewestFirst, LatestIs, CronDue, MayWait, MayMeet, ChecksumExists;
  }

  lemma {:induction false} UploadStep(c: Config, w: World, u: nat)
    requires ObjectsOk(c, w) && Enabled(c, w, UUpload(u))
    ensures ObjectsOk(c, Apply(c, w, UUpload(u)))
  {
    var w' := Apply(c, w, UUpload(u));
    forall id | id in w'.rows ensures RowHasObject(c, w', id) { assert RowHasObject(c, w, id); }
  }

  lemma {:induction false} RecordStep(c: Config, w: World, u: nat)
    requires ObjectsOk(c, w) && Enabled(c, w, URecord(u))
    ensures ObjectsOk(c, Apply(c, w, URecord(u)))
  {
    var w' := Apply(c, w, URecord(u));
    assert UploadOk(c, w.remote, w.ups[u]);
    forall id | id in w'.rows ensures RowHasObject(c, w', id) {
      if id != Current(w.ups[u]) { assert RowHasObject(c, w, id); }
    }
  }

  lemma {:induction false} PurgeStep(c: Config, w: World)
    requires SafeUploads(c) && Inv(c, w) && ObjectsOk(c, w) && Enabled(c, w, PPurge)
    ensures ObjectsOk(c, Apply(c, w, PPurge))
  {
    var w' := Apply(c, w, PPurge);
    var gone := w.pruner.objs[w.pruner.i].id;
    forall v | v in w'.ups ensures UploadOk(c, w'.remote, w'.ups[v]) {
      assert UploadOk(c, w.remote, w.ups[v]) && WorkerOk(c, w.now, w.met, v, w.ups[v]);
      if Busy(w, v) && w.ups[v].stage.Uploaded? && ObjectPath(c, Current(w.ups[v])) == ObjectPath(c, gone) {
        DueIsKnown(c, w, v);
        ObjectPathInjective(c, Current(w.ups[v]), gone);
      }
    }
    forall id | id in w'.rows ensures RowHasObject(c, w', id) {
      assert RowHasObject(c, w, id);
      if ObjectPath(c, id) == ObjectPath(c, gone) { ObjectPathInjective(c, id, gone); }
    }
  }

  lemma {:induction false} ForgetStep(c: Config, w: World, a: Action)
    requires ObjectsOk(c, w) && Enabled(c, w, a) && (a.PForget? || a.PStop?)
    ensures ObjectsOk(c, Apply(c, w, a))
  {
    var w' := Apply(c, w, a);
    forall id | id in w'.rows ensures RowHasObject(c, w', id) { assert RowHasObject(c, w, id); }
  }

  lemma {:induction false} ObjectsStep(c: Config, w: World, a: Action)
    requires SafeUploads(c) && Inv(c, w) && ObjectsOk(c, w) && Enabled(c, w, a)
    ensures ObjectsOk(c, Apply(c, w, a))
  {
    if a.UUpload? { UploadStep(c, w, a.u); }
    else if a.URecord? { RecordStep(c, w, a.u); }
    else if a.PPurge? { PurgeStep(c, w); }
    else if a.PForget? || a.PStop? { ForgetStep(c, w, a); }
    else {
      var w' := Apply(c, w, a);
      QuietFrame(c, w, a);
      forall u | u in w'.ups ensures UploadOk(c, w'.remote, w'.ups[u]) { QuietUploads(c, w, a, u); }
      forall id | id in w'.rows ensures RowHasObject(c, w', id) { assert RowHasObject(c, w, id); }
    }
  }

  // ---------- the rows without objects ----------

  /** The pruner has deleted the object of `id` and the row is still there: it is about to be
      deleted, or its deletion failed. */
  predicate Orphaned(w: World, id: Id) { Forgetting(w.pruner, id) || id in w.forgetFailed }

  /** An orphaned row is recorded, its object is gone, and every pass under way knows of it. */
  ghost predicate OrphanOk(c: Config, w: World, id: Id) {
    id in w.rows && ObjectPath(c, id) !in w.remote && forall u :: Busy(w, u) ==> id in w.ups[u].offsited
  }

  ghost predicate OrphansOk(c: Config, w: World) {
    forall id :: Orphaned(w, id) ==> OrphanOk(c, w, id)
  }

  predicate Remote(a: Action) { a.URead? || a.UUpload? || a.URecord? || a.PPurge? || a.PForget? || a.PStop? }

  lemma {:induction false} OrphanFrame(c: Config, w: World, a: Action)
    requires !Remote(a) && Enabled(c, w, a)
    ensures var w' := Apply(c, w, a);
            && w'.rows == w.rows && w'.remote == w.remote && w'.forgetFailed == w.forgetFailed
            && (forall u :: Busy(w', u) ==> Busy(w, u) && w'.ups[u].offsited == w.ups[u].offsited)
  {
    hide NewestFirst, RowsNewestFirst, LatestIs, CronDue, MayWait, MayMeet, ChecksumExists;
  }

  lemma {:induction false} ForgettingFrame(c: Config, w: World, a: Action, id: Id)
    requires !Remote(a) && Enabled(c, w, a) && PrunerOk(c, w.now, w.pruner) && Forgetting(Apply(c, w, a).pruner, id)
    ensures Forgetting(w.pruner, id)
  {
    hide NewestFirst, RowsNewestFirst, LatestIs, CronDue, MayWait, MayMeet, ChecksumExists;
  }

  lemma {:induction false} OrphanUpload(c: Config, w: World, a: Action)
    requires Inv(c, w) && OrphansOk(c, w) && Enabled(c, w, a) && (a.URead? || a.UUpload? || a.URecord?)
    ensures OrphansOk(c, Apply(c, w, a))
  {
    var w' := Apply(c, w, a);
    assert w'.pruner == w.pruner;
    forall id | Orphaned(w', id) ensures OrphanOk(c, w', id) {
      assert Orphaned(w, id) && OrphanOk(c, w, id);
      if !a.URead? {
        assert Busy(w, a.u) && WorkerOk(c, w.now, w.met, a.u, w.ups[a.u]);
        if ObjectPath(c, id) == ObjectPath(c, Current(w.ups[a.u])) { ObjectPathInjective(c, id, Current(w.ups[a.u])); }
      }
      forall u | Busy(w', u) ensures id in w'.ups[u].offsited { assert u != a.u || !a.URead? ==> Busy(w, u); }
    }
  }

  lemma {:induction false} OrphanPurge(c: Config, w: World)
    requires SafeUploads(c) && Inv(c, w) && OrphansOk(c, w) && Enabled(c, w, PPurge)
    ensures OrphansOk(c, Apply(c, w, PPurge))
  {
    var w' := Apply(c, w, PPurge);
    var o := w.pruner.objs[w.pruner.i];
    assert Live(w.pruner, w.pruner.i) && ListedRowOk(c, w, o);
    forall id | Orphaned(w', id) ensures OrphanOk(c, w', id) {
      assert id == o.id || (Orphaned(w, id) && OrphanOk(c, w, id));
      forall u | Busy(w', u) ensures id in w'.ups[u].offsited {
        assert Busy(w, u);
        DueIsKnown(c, w, u);
      }
    }
  }

  lemma {:induction false} OrphanForget(c: Config, w: World, a: Action)
    requires Inv(c, w) && OrphansOk(c, w) && Enabled(c, w, a) && (a.PForget? || a.PStop?)
    ensures OrphansOk(c, Apply(c, w, a))
  {
    var w' := Apply(c, w, a);
    forall id | Orphaned(w', id) ensures OrphanOk(c, w', id) {
      assert Orphaned(w, id) && OrphanOk(c, w, id);
      forall u | Busy(w', u) ensures id in w'.ups[u].offsited { assert Busy(w, u); }
    }
  }

  lemma {:induction false} OrphansStep(c: Config, w: World, a: Action)
    requires SafeUploads(c) && Inv(c, w) && OrphansOk(c, w) && Enabled(c, w, a)
    ensures OrphansOk(c, Apply(c, w, a))
  {
    if a.URead? || a.UUpload? || a.URecord? { OrphanUpload(c, w, a); }
    else if a.PPurge? { OrphanPurge(c, w); }
    else if a.PForget? || a.PStop? { OrphanForget(c, w, a); }
    else {
      var w' := Apply(c, w, a);
      OrphanFrame(c, w, a);
      forall id | Orphaned(w', id) ensures OrphanOk(c, w', id) {
        if Forgetting(w'.pruner, id) { ForgettingFrame(c, w, a, id); }
        assert Orphaned(w, id) && OrphanOk(c, w, id);
      }
    }
  }

  lemma {:induction false} ObjectsKept(c: Config, w: World, run: seq<Action>)
    requires SafeUploads(c) && Inv(c, w) && ObjectsOk(c, w) && OrphansOk(c, w) && CanRun(c, w, run)
    ensures Inv(c, After(c, w, run)) && ObjectsOk(c, After(c, w, run)) && OrphansOk(c, After(c, w, run))
    decreases |run|
  {
    if run != [] {
      PassKnowledge.Step(c, w, run[0]);
      ObjectsStep(c, w, run[0]);
      OrphansStep(c, w, run[0]);
      ObjectsKept(c, Apply(c, w, run[0]), run[1..]);
    }
  }

  lemma {:induction false} ReachableObjects(c: Config, w: World)
    requires SafeUploads(c) && Reachable(c, w)
    ensures Inv(c, w) && ObjectsOk(c, w) && OrphansOk(c, w)
  {
    var w0: World, run: seq<Action> :| Init(w0) && CanRun(c, w0, run) && After(c, w0, run) == w;
    ObjectsKept(c, w0, run);
  }

  /** With one upload worker, with any number of upload workers whose passes never overlap, or
      with overlapping passes that finish within the offsite horizon: in every reachable state a
      row is without its object exactly if the pruner is between the two deletions for it, or
      has been and the deletion of the row failed. */
  lemma {:induction false} RowsHaveObjects(c: Config, w: World, id: Id)
    requires SafeUploads(c) && Reachable(c, w)
    ensures id in w.rows && ObjectPath(c, id) !in w.remote <==> Forgetting(w.pruner, id) || id in w.forgetFailed
  {
    ReachableObjects(c, w);
    assert id in w.rows ==> RowHasObject(c, w, id);
    assert Orphaned(w, id) ==> OrphanOk(c, w, id);
  }

  /** While no row removal has failed, at most one row is without its object. */
  lemma {:induction false} AtMostOneDangling(c: Config, w: World, a: Id, b: Id)
    requires SafeUploads(c) && Reachable(c, w) && w.forgetFailed == {}
    requires a in w.rows && ObjectPath(c, a) !in w.remote
    requires b in w.rows && ObjectPath(c, b) !in w.remote
    ensures a == b
  {
    RowsHaveObjects(c, w, a);
    RowsHaveObjects(c, w, b);
  }

  /** A row the pruner may remove is known to every pass under way, so none is about to upload
      it again. */
  lemma {:induction false} DueIsOffsited(c: Config, w: World, u: nat)
    requires SafeUploads(c) && Reachable(c, w) && AtDueRow(w.pruner) && Busy(w, u)
    ensures w.pruner.objs[w.pruner.i].id in w.ups[u].offsited
    ensures AtWork(w.ups[u]) && !w.ups[u].stage.AtHead? ==> Current(w.ups[u]) != w.pruner.objs[w.pruner.i].id
  {
    ReachableInv(c, w);
    DueIsKnown(c, w, u);
    assert WorkerOk(c, w.now, w.met, u, w.ups[u]);
  }
}
