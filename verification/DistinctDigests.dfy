/** When the recorded digests are distinct in every run: exactly if no two upload passes can be
    under way at once, whatever the pruner and the client do beside them. */
module DistinctDigests {
  import opened OffsiteModel
  import opened OffsiteProtocol
  import K = PassKnowledge
  import opened UploadPass
  import opened RunPieces

  ghost predicate AlwaysDistinct(c: Config) {
    forall w :: Reachable(c, w) ==> DistinctChecksums(w.rows)
  }

  /** A pass that looked its digest up and has not recorded it holds an unused digest. */
  ghost predicate Unused(c: Config, rows: map<Id, Row>, up: Uploader) {
    up.UBusy? && (up.stage.Fresh? || up.stage.Uploaded?) ==> !ChecksumExists(rows, c.checksum(up.stage.obj))
  }

  ghost predicate Inv(c: Config, w: World) {
    DistinctChecksums(w.rows) && forall u :: u in w.ups ==> Unused(c, w.rows, w.ups[u])
  }

  /** One worker, or no overlap at all. */
  ghost predicate OneAtATime(c: Config) { K.SingleUploader(c) || !MayOverlapBy(c, 0) }

  lemma {:induction false} NoTwoBusy(c: Config, w: World, u: nat, v: nat)
    requires OneAtATime(c) && K.Inv(c, w) && Busy(w, u) && Busy(w, v)
    ensures u == v
  {
    assert K.WorkerOk(c, w.now, w.met, u, w.ups[u]) && K.WorkerOk(c, w.now, w.met, v, w.ups[v]);
  }

  lemma {:induction false} RowsFrame(c: Config, w: World, a: Action)
    requires Enabled(c, w, a) && !a.URecord?
    ensures Apply(c, w, a).rows == if a.PForget? then w.rows - {w.pruner.objs[w.pruner.i].id} else w.rows
  {
    hide ChecksumExists;
  }

  /** Only a lookup finds a digest unused. */
  lemma {:induction false} PassFrame(c: Config, w: World, a: Action, u: nat)
    requires Enabled(c, w, a) && !a.URecord? && (u in w.ups ==> Unused(c, w.rows, w.ups[u]))
    ensures var w' := Apply(c, w, a); u in w'.ups ==> Unused(c, w.rows, w'.ups[u])
  {
    hide ChecksumExists, NewestFirst, RowsNewestFirst, LatestIs, CronDue, MayWait, MayMeet, AtDueRow;
  }

  lemma {:induction false} RecordStep(c: Config, w: World, u: nat)
    requires OneAtATime(c) && K.Inv(c, w) && Inv(c, w) && Enabled(c, w, URecord(u))
    ensures Inv(c, Apply(c, w, URecord(u)))
  {
    var w' := Apply(c, w, URecord(u));
    var up := w.ups[u];
    DistinctAfterRecord(w.rows, Current(up), w'.rows[Current(up)]);
    assert Unused(c, w.rows, up);
    forall v | v in w'.ups ensures Unused(c, w'.rows, w'.ups[v]) {
      if v != u && Busy(w, v) { NoTwoBusy(c, w, u, v); }
    }
  }

  lemma {:induction false} Step(c: Config, w: World, a: Action)
    requires OneAtATime(c) && K.Inv(c, w) && Inv(c, w) && Enabled(c, w, a)
    ensures Inv(c, Apply(c, w, a))
  {
    if a.URecord? {
      RecordStep(c, w, a.u);
    } else {
      var w' := Apply(c, w, a);
      RowsFrame(c, w, a);
      forall u | u in w'.ups ensures Unused(c, w'.rows, w'.ups[u]) { PassFrame(c, w, a, u); }
    }
  }

  lemma {:induction false} RunKeeps(c: Config, w: World, run: seq<Action>)
    requires OneAtATime(c) && K.Inv(c, w) && Inv(c, w) && CanRun(c, w, run)
    ensures Inv(c, After(c, w, run))
    decreases |run|
  {
    if run != [] {
      K.Step(c, w, run[0]);
      Step(c, w, run[0]);
      RunKeeps(c, Apply(c, w, run[0]), run[1..]);
    }
  }

  // ---------- two passes at once ----------

  const OLD := Listed("t", 0)

  const NEW := Listed("s", 1)

  /** `v` has found "t" new when a second snapshot with the same content arrives. */
  lemma {:induction false} FirstLooksUp(c: Config, R: World -> bool, v: nat, a: Content) returns (w: World)
    requires Closed(c, R) && c.offsiteOn && v in c.uploaders && (forall w0 :: Init(w0) ==> R(w0))
    ensures R(w) && w.now == 0 && w.rows == map[] && w.hot == map["t" := Snapshot(0, a), "s" := Snapshot(1, a)]
    ensures w.ups == map[v := UBusy(0, 0, [OLD], 0, {}, 0, 0, Fresh(a))]
  {
    w := World(0, map[], map[], map[], map[], PIdle, 0, {}, map[], {}, {}, {}, {});
    w := Do(c, R, w, Ingest("t", Snapshot(0, a)));
    var snaps := [OLD];
    assert snaps[0].id == "t";
    w := StartPass(c, R, w, v, snaps);
    assert w.hot == map["t" := Snapshot(0, a)] && w.rows.Keys == {};
    w := FindFresh(c, R, w, v);
    assert w.ups == map[v := UBusy(0, 0, [OLD], 0, {}, 0, 0, Fresh(a))];
    assert "t"[0] != "s"[0];
    w := Do(c, R, w, Ingest("s", Snapshot(1, a)));
  }

  /** `u` records "s", and then `v` records "t". */
  lemma {:induction false} Twice(c: Config, R: World -> bool, u: nat, v: nat, a: Content) returns (w: World)
    requires Closed(c, R) && c.offsiteOn && u in c.uploaders && v in c.uploaders && u != v && MayOverlapBy(c, 0) && (forall w0 :: Init(w0) ==> R(w0))
    ensures R(w) && "s" in w.rows && "t" in w.rows && w.rows["s"].checksum == w.rows["t"].checksum == c.checksum(a)
  {
    w := FirstLooksUp(c, R, v, a);
    var snaps := [NEW, OLD];
    assert snaps[0].id == "s" && snaps[1].id == "t" && "s"[0] != "t"[0];
    w := StartPass(c, R, w, u, snaps);
    w := FindFresh(c, R, w, u);
    w := StoreAndStop(c, R, w, u);
    w := StoreAndStop(c, R, w, v);
  }

  /** OffsiteChecksumExists and RecordOffsiteObject are two statements, so the digests on record
      stay distinct in all runs exactly if passes cannot overlap, even for an instant. */
  lemma {:induction false} ExactlyDistinct(c: Config, a: Content)
    requires c.offsiteOn && c.checksum(a) != ""
    ensures AlwaysDistinct(c) <==> K.SingleUploader(c) || !MayOverlapBy(c, 0)
  {
    if OneAtATime(c) {
      forall w | Reachable(c, w) ensures DistinctChecksums(w.rows) {
        var w0: World, run: seq<Action> :| Init(w0) && CanRun(c, w0, run) && After(c, w0, run) == w;
        RunKeeps(c, w0, run);
      }
    } else {
      var u, v :| u in c.uploaders && v in c.uploaders && u != v;
      ReachableClosed(c);
      var w := Twice(c, w => Reachable(c, w), u, v, a);
      assert "s"[0] != "t"[0] && !DistinctChecksums(w.rows);
    }
  }
}
