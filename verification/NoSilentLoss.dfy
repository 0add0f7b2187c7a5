/** No silent loss for clients with offsite on, for any number of upload workers, any
    interleaving and any failures: a snapshot once ingested is still hot, or its object is on
    the remote (for a tar.gz client with its content), or pruneOffsite deleted that object at a
    time when the upload that the table had on record was past the offsite horizon. For
    overlapping uploads the pruner's listing may be stale; then the row that it had listed was
    past the horizon, and the row on record is younger by no more than the overlap limit. */
module NoSilentLoss {
  import opened OffsiteModel
  import opened OffsiteProtocol
  import K = PassKnowledge

  /** What the argument is about: the remote, and the history. */
  datatype Facts = Facts(
    ingested: map<Id, Snapshot>, remote: map<string, Content>, uploads: set<Upload>, purged: set<Purge>)

  function FactsOf(w: World): (f: Facts) { Facts(w.ingested, w.remote, w.uploads, w.purged) }

  /** Some upload pass wrote this row. */
  ghost predicate Recorded(f: Facts, o: Obj) {
    exists up :: up in f.uploads && up.obj == o
  }

  ghost predicate EverRecorded(f: Facts, id: Id) {
    exists up :: up in f.uploads && up.obj.id == id
  }

  /** A tar.gz snapshot is its own object; the object of an rsync snapshot is packed from its
      directory, and only its presence is stated. */
  predicate ObjectIntact(c: Config, f: Facts, id: Id) {
    && id in f.ingested && ObjectPath(c, id) in f.remote
    && (c.mode.TarGz? ==> f.remote[ObjectPath(c, id)] == f.ingested[id].content)
  }

  ghost predicate Purged(f: Facts, id: Id) {
    exists p :: p in f.purged && p.obj.id == id
  }

  ghost predicate Offsited(c: Config, f: Facts, id: Id) { ObjectIntact(c, f, id) || Purged(f, id) }

  ghost predicate Safe(c: Config, f: Facts, id: Id) { EverRecorded(f, id) && Offsited(c, f, id) }

  /** A deletion was issued past the horizon of a row that some upload wrote, and so was the
      row on record. */
  ghost predicate PurgeOk(c: Config, f: Facts, p: Purge) {
    && Recorded(f, p.obj) && p.obj.row.uploadedAt < p.at - ColdHorizon(c)
    && (p.current.Some? ==> Recorded(f, Obj(p.obj.id, p.current.value)))
  }

  ghost predicate FactsOk(c: Config, f: Facts) {
    && (forall id :: ObjectPath(c, id) in f.remote ==> ObjectIntact(c, f, id))
    && (forall p :: p in f.purged ==> PurgeOk(c, f, p))
    && (!ColdPruningOn(c) ==> f.purged == {})
  }

  ghost predicate UploaderOk(c: Config, f: Facts, up: Uploader) {
    && (up.UListed? || up.UBusy? ==> forall k :: 0 <= k < |up.snaps| ==> up.snaps[k].id in f.ingested)
    && (up.UBusy? && !up.stage.AtHead? ==> up.i < |up.snaps| && (c.mode.TarGz? ==> up.stage.obj == f.ingested[Current(up)].content))
    && (up.UBusy? && up.stage.Uploaded? ==> Offsited(c, f, Current(up)))
  }

  ghost predicate PrunerOk(c: Config, f: Facts, now: nat, p: Pruner) {
    && (!p.PIdle? && !p.PListed? ==> forall id :: id in p.offsited ==> Safe(c, f, id))
    && (p.PObjs? || p.PCold? ==> ColdPruningOn(c) && forall k :: 0 <= k < |p.objs| ==> Recorded(f, p.objs[k]))
    && (p.PCold? ==> p.cutoff <= now - ColdHorizon(c))
  }

  ghost predicate HotOk(c: Config, f: Facts, hot: map<Id, Snapshot>, dropped: set<Id>) {
    && (forall id :: id in hot ==> id in f.ingested && hot[id] == f.ingested[id])
    && (forall id :: id in f.ingested ==> id in hot || id in dropped)
    && (forall id :: id in dropped ==> Safe(c, f, id))
  }

  ghost predicate RowsOk(c: Config, f: Facts, rows: map<Id, Row>) {
    forall id :: id in rows ==> Safe(c, f, id) && Recorded(f, Obj(id, rows[id]))
  }

  ghost predicate UploadersOk(c: Config, f: Facts, ups: map<nat, Uploader>) {
    forall u :: u in ups ==> UploaderOk(c, f, ups[u])
  }

  ghost predicate Inv(c: Config, w: World) {
    var f := FactsOf(w);
    FactsOk(c, f) && HotOk(c, f, w.hot, w.dropped) && RowsOk(c, f, w.rows) && UploadersOk(c, f, w.ups) &&
    PrunerOk(c, f, w.now, w.pruner)
  }

  /** `f'` knows everything `f` knew, and what was offsited stays offsited. */
  ghost predicate Extends(c: Config, f: Facts, f': Facts) {
    && f.uploads <= f'.uploads && f.purged <= f'.purged
    && (forall id :: id in f.ingested ==> id in f'.ingested && f'.ingested[id] == f.ingested[id])
    && (forall id :: Offsited(c, f, id) ==> Offsited(c, f', id))
  }

  lemma {:induction false} Carry(c: Config, w: World, f': Facts)
    requires Inv(c, w) && Extends(c, FactsOf(w), f')
    ensures RowsOk(c, f', w.rows) && UploadersOk(c, f', w.ups) && PrunerOk(c, f', w.now, w.pruner)
    ensures f'.ingested == w.ingested ==> HotOk(c, f', w.hot, w.dropped)
    ensures forall id :: id in w.dropped ==> Safe(c, f', id)
    ensures forall p :: p in w.purged ==> PurgeOk(c, f', p)
  {
    var f := FactsOf(w);
    forall o | Recorded(f, o) ensures Recorded(f', o) {}
    forall id | Safe(c, f, id) ensures Safe(c, f', id) {}
    forall p | p in w.purged ensures PurgeOk(c, f', p) { assert PurgeOk(c, f, p); }
    forall u | u in w.ups ensures UploaderOk(c, f', w.ups[u]) { assert UploaderOk(c, f, w.ups[u]); }
  }

  lemma {:induction false} UploaderStep(c: Config, w: World, a: Action)
    requires Inv(c, w) && Enabled(c, w, a)
    requires a.UAsk? || a.UCheck? || a.UList? || a.URead? || a.USkip? || a.UPrepare? || a.ULookup? || a.UStop?
    ensures Inv(c, Apply(c, w, a))
  {
    var w' := Apply(c, w, a);
    var f := FactsOf(w);
    assert FactsOf(w') == f;
    if a.u in w.ups { assert UploaderOk(c, f, w.ups[a.u]); }
    assert UploaderOk(c, f, w'.ups[a.u]);
    forall v | v in w'.ups ensures UploaderOk(c, f, w'.ups[v]) {
      if v != a.u { assert w'.ups[v] == w.ups[v]; }
    }
  }

  lemma {:induction false} UploadStep(c: Config, w: World, u: nat)
    requires Inv(c, w) && Enabled(c, w, UUpload(u))
    ensures Inv(c, Apply(c, w, UUpload(u)))
  {
    var w' := Apply(c, w, UUpload(u));
    var f, f' := FactsOf(w), FactsOf(w');
    assert UploaderOk(c, f, w.ups[u]);
    var id := Current(w.ups[u]);
    assert ObjectIntact(c, f', id);
    forall s | ObjectPath(c, s) in f'.remote ensures ObjectIntact(c, f', s) {
      if ObjectPath(c, s) == ObjectPath(c, id) { ObjectPathInjective(c, s, id); }
    }
    forall s | Offsited(c, f, s) ensures Offsited(c, f', s) {
      if Purged(f, s) { var p :| p in f.purged && p.obj.id == s; assert p in f'.purged; }
    }
    Carry(c, w, f');
  }

  lemma {:induction false} RecordStep(c: Config, w: World, u: nat)
    requires Inv(c, w) && Enabled(c, w, URecord(u))
    ensures Inv(c, Apply(c, w, URecord(u)))
  {
    var w' := Apply(c, w, URecord(u));
    var f, f' := FactsOf(w), FactsOf(w');
    var up := w.ups[u];
    assert UploaderOk(c, f, up);
    var id := Current(up);
    var o := Obj(id, w'.rows[id]);
    assert Upload(o, u, up.pass, up.check) in f'.uploads;
    assert Recorded(f', o) && EverRecorded(f', id);
    forall s | Offsited(c, f, s) ensures Offsited(c, f', s) {
      if Purged(f, s) { var p :| p in f.purged && p.obj.id == s; assert p in f'.purged; }
    }
    Carry(c, w, f');
    assert UploaderOk(c, f', w'.ups[u]);
  }

  lemma {:induction false} PurgeStep(c: Config, w: World)
    requires Inv(c, w) && Enabled(c, w, PPurge)
    ensures Inv(c, Apply(c, w, PPurge))
  {
    var w' := Apply(c, w, PPurge);
    var f, f' := FactsOf(w), FactsOf(w');
    var o := w.pruner.objs[w.pruner.i];
    assert Recorded(f, o);
    var purge :| purge in f'.purged && purge.obj == o && f'.purged == f.purged + {purge} && purge.at == w.now;
    forall s | Offsited(c, f, s) ensures Offsited(c, f', s) {
      if Purged(f, s) {
        var p :| p in f.purged && p.obj.id == s;
        assert p in f'.purged;
      } else if ObjectPath(c, s) == ObjectPath(c, o.id) {
        ObjectPathInjective(c, s, o.id);
      }
    }
    Carry(c, w, f');
    assert o.id in w.rows ==> Recorded(f, Obj(o.id, w.rows[o.id]));
    assert PurgeOk(c, f', purge);
  }

  lemma {:induction false} PrunerStep(c: Config, w: World, a: Action)
    requires Inv(c, w) && Enabled(c, w, a)
    requires a.PList? || a.PReadSet? || a.PQuery? || a.PCutoff? || a.PKeep? || a.PHotStart? || a.PHotKeep? || a.PStop? || a.PForget?
    ensures Inv(c, Apply(c, w, a))
  {
    assert FactsOf(Apply(c, w, a)) == FactsOf(w);
  }

  lemma {:induction false} DropStep(c: Config, w: World)
    requires c.offsiteOn && Inv(c, w) && Enabled(c, w, PHotDelete)
    ensures Inv(c, Apply(c, w, PHotDelete))
  {
    assert FactsOf(Apply(c, w, PHotDelete)) == FactsOf(w);
    assert Safe(c, FactsOf(w), w.pruner.snaps[w.pruner.i].id);
  }

  lemma {:induction false} OtherStep(c: Config, w: World, a: Action)
    requires Inv(c, w) && Enabled(c, w, a) && (a.Tick? || a.Ingest?)
    ensures Inv(c, Apply(c, w, a))
  {
    var w' := Apply(c, w, a);
    var f, f' := FactsOf(w), FactsOf(w');
    if a.Ingest? {
      forall s | Offsited(c, f, s) ensures Offsited(c, f', s) {
        if Purged(f, s) { var p :| p in f.purged && p.obj.id == s; assert p in f'.purged; }
      }
      Carry(c, w, f');
    }
  }

  lemma {:induction false} Step(c: Config, w: World, a: Action)
    requires c.offsiteOn && Inv(c, w) && Enabled(c, w, a)
    ensures Inv(c, Apply(c, w, a))
  {
    if a.Tick? || a.Ingest? { OtherStep(c, w, a); }
    else if a.UUpload? { UploadStep(c, w, a.u); }
    else if a.URecord? { RecordStep(c, w, a.u); }
    else if a.PPurge? { PurgeStep(c, w); }
    else if a.PHotDelete? { DropStep(c, w); }
    else if a.UAsk? || a.UCheck? || a.UList? || a.URead? || a.USkip? || a.UPrepare? || a.ULookup? || a.UStop? { UploaderStep(c, w, a); }
    else { PrunerStep(c, w, a); }
  }

  lemma {:induction false} RunKeeps(c: Config, w: World, run: seq<Action>)
    requires c.offsiteOn && Inv(c, w) && CanRun(c, w, run)
    ensures Inv(c, After(c, w, run))
    decreases |run|
  {
    if run != [] {
      Step(c, w, run[0]);
      RunKeeps(c, Apply(c, w, run[0]), run[1..]);
    }
  }

  /** The pruner's listing cannot be stale: passes do not overlap, or not for any time. */
  ghost predicate FreshListings(c: Config) { K.SingleUploader(c) || !MayOverlapBy(c, 1) }

  /** The row on record is the listed one, or was written again within the overlap limit. */
  ghost predicate OnRecord(c: Config, listed: Row, current: Row) {
    && listed.uploadedAt <= current.uploadedAt
    && (current.uploadedAt != listed.uploadedAt ==> !FreshListings(c) && MayOverlapBy(c, current.uploadedAt - listed.uploadedAt))
  }

  /** pruneOffsite deleted the object of `id`, and whenever it did, the table held a row
      `current` for it; the upload time that the pruner had listed was past the offsite horizon
      at that moment, and so is that of `current`, up to a stale listing. */
  ghost predicate PurgedPastHorizon(c: Config, w: World, id: Id) {
    && Purged(FactsOf(w), id)
    && forall p :: p in w.purged && p.obj.id == id ==>
         && p.current.Some? && Recorded(FactsOf(w), Obj(id, p.current.value))
         && p.obj.row.uploadedAt < p.at - ColdHorizon(c) && OnRecord(c, p.obj.row, p.current.value)
  }

  lemma {:induction false} ReachableInv(c: Config, w: World)
    requires c.offsiteOn && Reachable(c, w)
    ensures Inv(c, w)
  {
    var w0: World, run: seq<Action> :| Init(w0) && CanRun(c, w0, run) && After(c, w0, run) == w;
    RunKeeps(c, w0, run);
  }

  lemma {:induction false} Accounted(c: Config, w: World, id: Id)
    requires c.offsiteOn && Reachable(c, w) && id in w.ingested
    ensures (id in w.hot && w.hot[id] == w.ingested[id]) || ObjectIntact(c, FactsOf(w), id) || PurgedPastHorizon(c, w, id)
  {
    ReachableInv(c, w);
    if id !in w.hot {
      assert Safe(c, FactsOf(w), id);
      if Purged(FactsOf(w), id) {
        K.ReachableInv(c, w);
        forall p | p in w.purged && p.obj.id == id ensures p.current.Some? && OnRecord(c, p.obj.row, p.current.value) {
          assert K.PurgeOk(c, w.met, p);
        }
      }
    }
  }

  /** Without stale listings: a snapshot that is neither hot nor on the remote was deleted, and
      whenever it was, the upload on record was past the horizon. */
  lemma {:induction false} AccountedOnRecord(c: Config, w: World, id: Id)
    requires c.offsiteOn && Reachable(c, w) && FreshListings(c)
    requires id in w.ingested && id !in w.hot && !ObjectIntact(c, FactsOf(w), id)
    ensures exists p :: p in w.purged && p.obj.id == id
    ensures forall p :: p in w.purged && p.obj.id == id ==> p.current.Some? && p.current.value.uploadedAt < p.at - ColdHorizon(c)
  {
    Accounted(c, w, id);
  }

  /** Offsite-first over whole runs: a snapshot that no upload pass ever recorded is never
      removed from the hot directory. A snapshot skipped as a duplicate is such a one. */
  lemma {:induction false} UnrecordedStaysHot(c: Config, w: World, id: Id)
    requires c.offsiteOn && Reachable(c, w) && id in w.ingested
    requires forall up :: up in w.uploads ==> up.obj.id != id
    ensures id in w.hot && w.hot[id] == w.ingested[id]
  {
    ReachableInv(c, w);
    assert id in w.dropped ==> Safe(c, FactsOf(w), id);
  }

  /** With offsite pruning disabled every snapshot that left the hot directory is on the remote,
      for ever. */
  lemma {:induction false} KeptForever(c: Config, w: World, id: Id)
    requires c.offsiteOn && Reachable(c, w) && id in w.ingested && (c.disableOffsitePruning || c.offsiteDays <= 0)
    ensures id in w.hot || ObjectIntact(c, FactsOf(w), id)
  {
    ReachableInv(c, w);
    Accounted(c, w, id);
  }
}
