/** Why RecordImpliesObject needs its hypothesis: if an upload pass may get older than the
    offsite horizon beside another one, a run ends with a row whose object is gone. */
module DanglingRecord {
  import opened OffsiteModel
  import opened OffsiteProtocol
  import opened PassKnowledge
  import opened RecordImpliesObject
  import opened OverlapScene
  import opened RunPieces

  /** The pruner takes the row of `s` for due while `v` is still about to upload `s`. */
  lemma {:induction false} LateUpload(c: Config, R: World -> bool, x: Scene) returns (w: World)
    requires Closed(c, R) && Fits(c, x) && x.at == 0 && MayOverlapBy(c, DueAge(c)) && (forall w0 :: Init(w0) ==> R(w0))
    ensures R(w) && w.hot == Hot(x) && Up(w, x.v) == Pass(x, 0, 0, {}, Fresh(x.a)) && w.forgetFailed == {}
    ensures w.pruner.PCold? && w.pruner.objs == Objs(c, x) && AtDueRow(w.pruner) && !w.pruner.purging && w.pruner.i == 1
  {
    w := Ready(c, R, x);
    w := Wait(c, R, w, x.v, DueAge(c));
    w := ReachSecond(c, R, w);
  }

  /** `v` uploads `s`, and the pruner deletes the object. */
  lemma {:induction false} LostUpload(c: Config, R: World -> bool, x: Scene) returns (w: World)
    requires Closed(c, R) && Fits(c, x) && x.at == 0 && MayOverlapBy(c, DueAge(c)) && (forall w0 :: Init(w0) ==> R(w0))
    ensures R(w) && Up(w, x.v) == Pass(x, 0, 0, {}, Uploaded(x.a)) && ObjectPath(c, x.s) !in w.remote && w.forgetFailed == {}
    ensures AtDueRow(w.pruner) && w.pruner.purging && w.pruner.objs[w.pruner.i].id == x.s
  {
    w := LateUpload(c, R, x);
    w := Do(c, R, w, UUpload(x.v));
    w := Do(c, R, w, PPurge);
  }

  /** `v` records `s` after the pruner has forgotten it. */
  lemma {:induction false} Dangle(c: Config, R: World -> bool, x: Scene) returns (w: World)
    requires Closed(c, R) && Fits(c, x) && x.at == 0 && MayOverlapBy(c, DueAge(c)) && (forall w0 :: Init(w0) ==> R(w0))
    ensures R(w) && x.s in w.rows && ObjectPath(c, x.s) !in w.remote
    ensures w.pruner == PIdle && w.forgetFailed == {}
  {
    w := LostUpload(c, R, x);
    w := Do(c, R, w, PForget);
    w := Do(c, R, w, PStop);
    w := Do(c, R, w, URecord(x.v));
  }

  lemma {:induction false} ReachableDangling(c: Config, x: Scene) returns (w: World)
    requires Fits(c, x) && x.at == 0 && MayOverlapBy(c, DueAge(c))
    ensures Reachable(c, w) && x.s in w.rows && !RowHasObject(c, w, x.s)
  {
    var R := w => Reachable(c, w);
    ReachableClosed(c);
    w := Dangle(c, R, x);
  }

  /** "Every row has its object, up to pending removals" in every reachable state. */
  ghost predicate AlwaysRecordImpliesObject(c: Config) {
    forall w, id :: Reachable(c, w) && id in w.rows ==> RowHasObject(c, w, id)
  }

  /** The guarantee holds exactly if there is one upload worker, or passes never overlap, or no
      overlapping pass gets older than the offsite horizon. */
  lemma {:induction false} ExactlySafeUploads(c: Config, a: Content, b: Content)
    requires ColdPruningOn(c) && OneSchedule(c) && c.checksum(a) != c.checksum(b)
    ensures AlwaysRecordImpliesObject(c) <==>
            SingleUploader(c) || (c.overlap.Bounded? && (c.overlap.limit < 0 || c.overlap.limit <= ColdHorizon(c)))
  {
    if SafeUploads(c) {
      forall w, id | Reachable(c, w) && id in w.rows ensures RowHasObject(c, w, id) { RowsHaveObjects(c, w, id); }
    } else {
      var u, v :| u in c.uploaders && v in c.uploaders && u != v;
      if Gated(c, u) { u, v := v, u; }
      var x := SceneFor(c, u, v, a, b, 0);
      var w := ReachableDangling(c, x);
      assert !RowHasObject(c, w, x.s);
    }
  }
}
