/** How hand-started passes make retention disturb the schedule. A scheduled pass runs beside a
    hand-started one and, at a tick, writes a row again that the pruner has already listed; the
    pruner forgets the row by its stale listing; LatestOffsite falls behind the tick, and the
    next scheduled pass is due on that tick once more. Schedule excludes exactly this. */
module SpentTick {
  import opened Options
  import opened Timestamps
  import opened OffsiteModel
  import opened OffsiteProtocol
  import opened PassKnowledge
  import opened RunPieces
  import opened OverlapScene
  import opened Schedule

  /** The tick `x` is spent by an overlapping pass that started at `x.at`. */
  ghost predicate Spends(c: Config, scene: Scene, x: nat) {
    && Fits(c, scene) && Gated(c, scene.v) && c.ticks(x) && scene.at < x && MayOverlapBy(c, x - scene.at)
    && InRange(ForgottenBy(c, x, scene.at)) && !TickBetween(c, x, ForgottenBy(c, x, scene.at))
  }

  function Again(c: Config, scene: Scene, at: nat): (row: Row) { Row(at, |scene.a|, c.checksum(scene.a)) }

  function First(c: Config, scene: Scene, x: nat): (e: Upload) { Upload(Obj(scene.s, Again(c, scene, x)), scene.v, 0, scene.at) }

  function Second(c: Config, scene: Scene, x: nat): (f: Upload) {
    Upload(Obj(scene.s, Again(c, scene, ForgottenBy(c, x, scene.at))), scene.v, 3, ForgottenBy(c, x, scene.at))
  }

  /** The scheduled pass records `s` at the tick, after the pruner has listed an older row. */
  lemma {:induction false} RecordAtTick(c: Config, R: World -> bool, scene: Scene, x: nat) returns (w: World)
    requires Closed(c, R) && Spends(c, scene, x) && (forall w0 :: Init(w0) ==> R(w0))
    ensures R(w) && w.now == x && w.hot == Hot(scene) && w.passes == 3 && First(c, scene, x) in w.uploads
    ensures w.ups == map[scene.v := UIdle, scene.u := UIdle]
    ensures w.pruner == PObjs(Snaps(scene), {scene.s, scene.t}, Objs(c, scene))
    ensures w.rows == map[scene.s := Again(c, scene, x), scene.t := RowT(c, scene)]
  {
    w := Ready(c, R, scene);
    w := Wait(c, R, w, scene.v, x);
    w := StoreAndStop(c, R, w, scene.v);
    assert w.ups == map[scene.v := UIdle, scene.u := UIdle];
    assert w.rows == map[scene.s := Again(c, scene, x), scene.t := RowT(c, scene)];
  }

  /** The pruner removes the row it is at. */
  lemma {:induction false} Forget(c: Config, R: World -> bool, w: World) returns (w': World)
    requires Closed(c, R) && R(w) && AtDueRow(w.pruner) && !w.pruner.purging
    ensures R(w') && w'.rows == w.rows - {w.pruner.objs[w.pruner.i].id}
    ensures w'.now == w.now && w'.hot == w.hot && w'.passes == w.passes && w'.uploads == w.uploads && w'.ups == w.ups
  {
    w' := Do(c, R, w, PPurge);
    w' := Do(c, R, w', PForget);
  }

  lemma {:induction false} Forgotten(c: Config, R: World -> bool, scene: Scene, x: nat) returns (w: World)
    requires Closed(c, R) && Spends(c, scene, x) && (forall w0 :: Init(w0) ==> R(w0))
    ensures R(w) && w.now == ForgottenBy(c, x, scene.at) && w.hot == Hot(scene) && w.passes == 3 && First(c, scene, x) in w.uploads
    ensures w.ups == map[scene.v := UIdle, scene.u := UIdle] && w.rows == map[scene.t := RowT(c, scene)]
  {
    w := RecordAtTick(c, R, scene, x);
    w := Wait(c, R, w, scene.v, ForgottenBy(c, x, scene.at));
    w := ReachSecond(c, R, w);
    assert w.pruner.objs[1].id == scene.s;
    w := Forget(c, R, w);
    assert w.rows == map[scene.t := RowT(c, scene)];
  }

  /** The scheduled worker finds itself due on the tick it has spent. */
  lemma {:induction false} DueAgain(c: Config, R: World -> bool, scene: Scene, x: nat) returns (w: World)
    requires Closed(c, R) && Spends(c, scene, x) && (forall w0 :: Init(w0) ==> R(w0))
    ensures R(w) && w.now == ForgottenBy(c, x, scene.at) && w.hot == Hot(scene) && First(c, scene, x) in w.uploads
    ensures w.ups == map[scene.v := UDue(3, w.now), scene.u := UIdle] && w.rows == map[scene.t := RowT(c, scene)]
  {
    w := Forgotten(c, R, scene, x);
    OnlyRowIsLatest(w.rows, scene.t);
    w := Do(c, R, w, UAsk(scene.v, Some(scene.at)));
    assert scene.at < x <= w.now && c.ticks(x);
    w := Do(c, R, w, UCheck(scene.v));
    assert w.ups == map[scene.v := UDue(3, w.now), scene.u := UIdle];
  }

  lemma {:induction false} SpentTwice(c: Config, R: World -> bool, scene: Scene, x: nat) returns (w: World)
    requires Closed(c, R) && Spends(c, scene, x) && (forall w0 :: Init(w0) ==> R(w0))
    ensures R(w) && First(c, scene, x) in w.uploads && Second(c, scene, x) in w.uploads
  {
    w := DueAgain(c, R, scene, x);
    SnapsListing(scene);
    w := ListAndRead(c, R, w, scene.v, 3, Snaps(scene));
    assert Hot(scene)[scene.s].content == scene.a;
    w := FindFresh(c, R, w, scene.v);
    w := StoreAndStop(c, R, w, scene.v);
  }

  ghost predicate AlwaysTickBetween(c: Config) {
    forall w, e, f :: Reachable(c, w) && e in w.uploads && f in w.uploads && Gated(c, e.u) && Gated(c, f.u) && e.pass < f.pass ==>
      TickBetween(c, e.obj.row.uploadedAt, f.check)
  }

  /** With one scheduled worker beside hand-started ones, any two scheduled passes that upload
      have a tick between them exactly if there is no hand-started worker, or no row is ever
      deleted, or no tick can be spent twice. */
  lemma {:induction false} ExactlyScheduled(c: Config, v: nat, a: Content, b: Content)
    requires OneSchedule(c) && WholeTicks(c) && v in c.uploaders && Gated(c, v) && c.checksum(a) != c.checksum(b)
    ensures AlwaysTickBetween(c) <==> SingleUploader(c) || !ColdPruningOn(c) || !Spendable(c)
  {
    if ScheduleSafe(c) {
      forall w, e, f | Reachable(c, w) && e in w.uploads && f in w.uploads && Gated(c, e.u) && Gated(c, f.u) && e.pass < f.pass
        ensures TickBetween(c, e.obj.row.uploadedAt, f.check)
      {
        TickBetweenUploadingPasses(c, w, e, f);
      }
    } else {
      var u :| u in c.uploaders && u != v;
      var x: nat, p: nat :| c.ticks(x) && p < x && MayOverlapBy(c, x - p) && InRange(ForgottenBy(c, x, p)) && !TickBetween(c, x, ForgottenBy(c, x, p));
      var scene := SceneFor(c, u, v, a, b, p);
      ReachableClosed(c);
      var w := SpentTwice(c, w => Reachable(c, w), scene, x);
      var e, f := First(c, scene, x), Second(c, scene, x);
      assert Reachable(c, w) && e.pass < f.pass && !TickBetween(c, e.obj.row.uploadedAt, f.check);
    }
  }
}
