/** Hot pruning over whole runs, in both modes, with offsite on or off: only snapshots past the
    hot horizon are removed, and the newest snapshot ever ingested is always still hot, so a
    hot directory that held a snapshot never becomes empty. The horizon is the configured one
    exactly up to 106751 days. */
module HotRetention {
  import opened Timestamps
  import opened OffsiteModel
  import opened OffsiteProtocol
  import opened RunPieces

  /** Some hot snapshot is at least as new. */
  ghost predicate Covered(hot: map<Id, Snapshot>, created: int) {
    exists id :: id in hot && hot[id].created >= created
  }

  ghost predicate ListingOk(w: World, snaps: seq<Listed>) {
    && (forall k :: 0 <= k < |snaps| ==> snaps[k].id in w.ingested && snaps[k].created == w.ingested[snaps[k].id].created)
    && (forall k :: 0 < k < |snaps| ==> snaps[k].id != snaps[0].id && snaps[k].created <= snaps[0].created)
    && (|snaps| > 0 ==> snaps[0].id in w.hot)
  }

  ghost predicate Inv(c: Config, w: World) {
    && (forall id :: id in w.hot ==> id in w.ingested && w.hot[id] == w.ingested[id])
    && (forall id :: id in w.ingested ==> id in w.hot || id in w.dropped)
    && (!w.pruner.PIdle? ==> ListingOk(w, w.pruner.snaps))
    && (w.pruner.PHot? ==> c.retentionDays > 0 && w.pruner.cutoff <= w.now - HotHorizon(c))
    && (forall id :: id in w.dropped ==> id in w.ingested && w.ingested[id].created < w.now - HotHorizon(c))
    && (forall id :: id in w.dropped ==> Covered(w.hot, w.ingested[id].created))
    && (w.dropped != {} ==> c.retentionDays > 0)
  }

  lemma {:induction false} DropStep(c: Config, w: World)
    requires Inv(c, w) && Enabled(c, w, PHotDelete)
    ensures Inv(c, Apply(c, w, PHotDelete))
  {
    var w' := Apply(c, w, PHotDelete);
    var first := w.pruner.snaps[0];
    var gone := w.pruner.snaps[w.pruner.i];
    assert first.id in w'.hot && w'.hot[first.id].created == first.created;
    forall id | id in w'.dropped ensures Covered(w'.hot, w'.ingested[id].created) {
      if id == gone.id {
        assert w'.hot[first.id].created >= gone.created;
      } else {
        var k :| k in w.hot && w.hot[k].created >= w.ingested[id].created;
        if k == gone.id { assert w'.hot[first.id].created >= w.ingested[id].created; } else { assert k in w'.hot; }
      }
    }
  }

  lemma {:induction false} IngestStep(c: Config, w: World, a: Action)
    requires Inv(c, w) && Enabled(c, w, a) && a.Ingest?
    ensures Inv(c, Apply(c, w, a))
  {
    var w' := Apply(c, w, a);
    forall id | id in w'.dropped ensures Covered(w'.hot, w'.ingested[id].created) {
      var k :| k in w.hot && w.hot[k].created >= w.ingested[id].created;
      assert k in w'.hot && w'.hot[k] == w.hot[k];
    }
  }

  predicate UploaderAction(a: Action) {
    a.UAsk? || a.UCheck? || a.UList? || a.URead? || a.USkip? || a.UPrepare? || a.ULookup? || a.UUpload? || a.URecord? || a.UStop?
  }

  ghost predicate SameHot(w: World, w': World) {
    w'.hot == w.hot && w'.ingested == w.ingested && w'.dropped == w.dropped && w'.pruner == w.pruner && w.now <= w'.now
  }

  /** Upload workers and the clock leave the hot directory and the pruner alone. */
  lemma {:induction false} ElsewhereFrame(c: Config, w: World, a: Action)
    requires Enabled(c, w, a) && (a.Tick? || UploaderAction(a))
    ensures SameHot(w, Apply(c, w, a))
  {}

  lemma {:induction false} SameHotKeeps(c: Config, w: World, w': World)
    requires Inv(c, w) && SameHot(w, w')
    ensures Inv(c, w')
  {}

  lemma {:induction false} PrunerStep(c: Config, w: World, a: Action)
    requires Inv(c, w) && Enabled(c, w, a) && !a.Tick? && !a.Ingest? && !UploaderAction(a) && !a.PHotDelete?
    ensures Inv(c, Apply(c, w, a))
  {
    var w' := Apply(c, w, a);
    assert w'.hot == w.hot && w'.ingested == w.ingested && w'.dropped == w.dropped && w'.now == w.now;
    if !w'.pruner.PIdle? && !a.PList? { assert w'.pruner.snaps == w.pruner.snaps; }
  }

  lemma {:induction false} Step(c: Config, w: World, a: Action)
    requires Inv(c, w) && Enabled(c, w, a)
    ensures Inv(c, Apply(c, w, a))
  {
    if a.PHotDelete? { DropStep(c, w); }
    else if a.Ingest? { IngestStep(c, w, a); }
    else if a.Tick? || UploaderAction(a) { ElsewhereFrame(c, w, a); SameHotKeeps(c, w, Apply(c, w, a)); }
    else { PrunerStep(c, w, a); }
  }

  lemma {:induction false} RunKeeps(c: Config, w: World, run: seq<Action>)
    requires Inv(c, w) && CanRun(c, w, run)
    ensures Inv(c, After(c, w, run))
    decreases |run|
  {
    if run != [] {
      Step(c, w, run[0]);
      RunKeeps(c, Apply(c, w, run[0]), run[1..]);
    }
  }

  lemma {:induction false} ReachableInv(c: Config, w: World)
    requires Reachable(c, w)
    ensures Inv(c, w)
  {
    var w0: World, run: seq<Action> :| Init(w0) && CanRun(c, w0, run) && After(c, w0, run) == w;
    RunKeeps(c, w0, run);
  }

  /** However many passes ran, a snapshot at least as new as any ever ingested is hot. */
  lemma {:induction false} NewestIsHot(c: Config, w: World, id: Id)
    requires Reachable(c, w) && id in w.ingested
    ensures exists k :: k in w.hot && w.hot[k].created >= w.ingested[id].created
  {
    ReachableInv(c, w);
    if id !in w.hot { assert Covered(w.hot, w.ingested[id].created); }
  }

  /** A snapshot within the hot horizon is hot, and so is every snapshot if retention is off. */
  lemma {:induction false} WithinHorizonIsHot(c: Config, w: World, id: Id)
    requires Reachable(c, w) && id in w.ingested
    requires c.retentionDays <= 0 || w.ingested[id].created >= w.now - HotHorizon(c)
    ensures id in w.hot && w.hot[id] == w.ingested[id]
  {
    ReachableInv(c, w);
  }

  // ---------- the configured retention ----------

  /** No snapshot leaves the hot directory before the configured days are over. */
  ghost predicate AlwaysRetained(c: Config) {
    forall w, id :: Reachable(c, w) && id in w.ingested && w.ingested[id].created >= w.now - Days(c.retentionDays) ==> id in w.hot
  }

  /** A snapshot can come to be removable: offsite is off, or something uploads. */
  ghost predicate CanPrune(c: Config) { c.offsiteOn ==> c.uploaders != {} }

  const OLD := Listed("s", 0)

  const NEW := Listed("t", 1)

  const HOT := map["s" := Snapshot(0, "")]

  /** One snapshot, and its row if offsite is on. */
  lemma {:induction false} OneOffsited(c: Config, R: World -> bool, now: nat) returns (w: World)
    requires Closed(c, R) && CanPrune(c) && InRange(now) && (forall w0 :: Init(w0) ==> R(w0))
    ensures R(w) && w.now == now && w.hot == HOT && w.ingested == HOT && w.pruner == PIdle
    ensures w.rows.Keys == if c.offsiteOn then {"s"} else {}
  {
    w := World(now, map[], map[], map[], map[], PIdle, 0, {}, map[], {}, {}, {}, {});
    w := Do(c, R, w, Ingest("s", Snapshot(0, "")));
    assert w.hot == HOT && w.ingested == HOT;
    if c.offsiteOn {
      var u :| u in c.uploaders;
      var snaps := [OLD];
      assert snaps[0].id == "s";
      w := StartPass(c, R, w, u, snaps);
      w := FindFresh(c, R, w, u);
      w := StoreAndStop(c, R, w, u);
    }
  }

  /** A newer snapshot arrives, and the pruner reads the listing and the row set. */
  lemma {:induction false} BothListed(c: Config, R: World -> bool, now: nat) returns (w: World)
    requires Closed(c, R) && CanPrune(c) && InRange(now) && (forall w0 :: Init(w0) ==> R(w0))
    ensures R(w) && w.now == now && "s" in w.hot && "s" in w.ingested && w.ingested["s"].created == 0
    ensures w.pruner.PRead? && w.pruner.snaps == [NEW, OLD] && w.pruner.offsited == w.rows.Keys
    ensures w.rows.Keys == if c.offsiteOn then {"s"} else {}
  {
    w := OneOffsited(c, R, now);
    assert "t"[0] != "s"[0];
    w := Do(c, R, w, Ingest("t", Snapshot(1, "")));
    var snaps := [NEW, OLD];
    assert snaps[0].id == "t" && snaps[1].id == "s";
    w := Do(c, R, w, PList(snaps));
    w := Do(c, R, w, PReadSet);
  }

  lemma {:induction false} OneRow(objs: seq<Obj>, rows: map<Id, Row>, id: Id)
    requires rows.Keys == {id} && objs == [Obj(id, rows[id])]
    ensures RowsNewestFirst(objs, rows)
  {
    assert objs[0].id == id;
  }

  /** The cold pass keeps the only row. */
  lemma {:induction false} KeepOnly(c: Config, R: World -> bool, w: World, objs: seq<Obj>) returns (w': World)
    requires Closed(c, R) && R(w) && w.pruner.PRead? && ColdPruningOn(c) && RowsNewestFirst(objs, w.rows) && |objs| == 1
    ensures R(w') && Enabled(c, w', PHotStart) && w' == w.(pruner := w'.pruner)
    ensures w'.pruner.snaps == w.pruner.snaps && w'.pruner.offsited == w.pruner.offsited
  {
    var v := Do(c, R, w, PQuery(objs));
    w' := KeepFirst(c, R, v);
  }

  lemma {:induction false} KeepFirst(c: Config, R: World -> bool, w: World) returns (w': World)
    requires Closed(c, R) && R(w) && w.pruner.PObjs? && |w.pruner.objs| == 1
    ensures R(w') && Enabled(c, w', PHotStart) && w' == w.(pruner := w'.pruner)
    ensures w'.pruner.snaps == w.pruner.snaps && w'.pruner.offsited == w.pruner.offsited
  {
    var v := Do(c, R, w, PCutoff);
    w' := Do(c, R, v, PKeep);
  }

  lemma {:induction false} ColdIsDone(c: Config, R: World -> bool, w: World) returns (w': World)
    requires Closed(c, R) && R(w) && w.pruner.PRead? && (ColdPruningOn(c) ==> w.rows.Keys == {"s"})
    ensures R(w') && Enabled(c, w', PHotStart) && w' == w.(pruner := w'.pruner)
    ensures w'.pruner.snaps == w.pruner.snaps && w'.pruner.offsited == w.pruner.offsited
  {
    w' := w;
    if ColdPruningOn(c) {
      assert "s" in w.rows.Keys;
      OneRow([Obj("s", w.rows["s"])], w.rows, "s");
      w' := KeepOnly(c, R, w, [Obj("s", w.rows["s"])]);
    }
  }

  /** A snapshot can be gone once it is past the effective horizon. */
  lemma {:induction false} Dropped(c: Config, R: World -> bool, now: nat) returns (w: World)
    requires Closed(c, R) && CanPrune(c) && c.retentionDays > 0 && InRange(now) && now > HotHorizon(c) && (forall w0 :: Init(w0) ==> R(w0))
    ensures R(w) && w.now == now && "s" in w.ingested && w.ingested["s"].created == 0 && "s" !in w.hot
  {
    w := BothListed(c, R, now);
    w := ColdIsDone(c, R, w);
    w := Do(c, R, w, PHotStart);
    w := Do(c, R, w, PHotKeep);
    w := Do(c, R, w, PHotDelete);
  }

  /** Retention "for ever", 999999 days: a snapshot can be gone at the instant at which it was
      created. */
  lemma {:induction false} ForeverDropsFresh(c: Config) returns (w: World)
    requires CanPrune(c) && c.retentionDays == 999_999
    ensures Reachable(c, w) && "s" in w.ingested && w.ingested["s"].created == w.now && "s" !in w.hot
  {
    ForeverIsInTheFuture();
    ReachableClosed(c);
    w := Dropped(c, v => Reachable(c, v), 0);
  }

  /** The configured retention is kept exactly up to 106751 days. */
  lemma {:induction false} ExactlyRetained(c: Config)
    requires CanPrune(c)
    ensures AlwaysRetained(c) <==> c.retentionDays <= MAX_DAYS
  {
    if c.retentionDays > MAX_DAYS {
      HorizonIsExact(c.retentionDays);
      ReachableClosed(c);
      var now := if HotHorizon(c) < 0 then 0 else HotHorizon(c) + 1;
      var w := Dropped(c, v => Reachable(c, v), now);
      assert Reachable(c, w) && now <= Days(c.retentionDays);
    } else {
      forall w, id | Reachable(c, w) && id in w.ingested && w.ingested[id].created >= w.now - Days(c.retentionDays) ensures id in w.hot {
        if c.retentionDays > 0 { HorizonIsExact(c.retentionDays); }
        WithinHorizonIsHot(c, w, id);
      }
    }
  }

  /** If nothing can become removable, nothing is removed, whatever the days. */
  lemma {:induction false} NeverPruned(c: Config, w: World, id: Id)
    requires Reachable(c, w) && !CanPrune(c) && id in w.ingested
    ensures id in w.hot
  {
    var w0: World, run: seq<Action> :| Init(w0) && CanRun(c, w0, run) && After(c, w0, run) == w;
    IdleKeeps(c, w0, run);
    ReachableInv(c, w);
  }

  ghost predicate NothingUploads(w: World) {
    w.ups == map[] && w.rows == map[] && w.dropped == {} && (!w.pruner.PIdle? && !w.pruner.PListed? ==> w.pruner.offsited == {})
  }

  lemma {:induction false} IdleKeeps(c: Config, w: World, run: seq<Action>)
    requires !CanPrune(c) && NothingUploads(w) && CanRun(c, w, run)
    ensures NothingUploads(After(c, w, run))
    decreases |run|
  {
    if run != [] {
      IdleStep(c, w, run[0]);
      IdleKeeps(c, Apply(c, w, run[0]), run[1..]);
    }
  }

  lemma {:induction false} IdleStep(c: Config, w: World, a: Action)
    requires !CanPrune(c) && NothingUploads(w) && Enabled(c, w, a)
    ensures NothingUploads(Apply(c, w, a))
  {}
}
