/** When the table can ever hold two rows, so that offsite pruning has a row to delete: not if
    the one worker is gated by a cron expression that never ticks and uploads the newest
    snapshot only. */
module TwoRows {
  import opened Options
  import opened Timestamps
  import opened OffsiteModel
  import opened OffsiteProtocol
  import K = PassKnowledge
  import opened RunPieces
  import opened OverlapScene

  /** Some tick after the first instant. */
  ghost predicate Ticks(c: Config) { exists x: nat :: 0 < x && InRange(x) && c.ticks(x) }

  ghost predicate ManyRows(c: Config) {
    (exists u :: u in c.uploaders && !Gated(c, u)) || (c.uploaders != {} && (!c.latestOnly || Ticks(c)))
  }

  // ---------- otherwise there is one row at most ----------

  /** As long as a pass can record, nothing is recorded. */
  predicate FirstPass(rows: map<Id, Row>, up: Uploader) {
    match up
    case UIdle => true
    case UAsked(last) => last.None? ==> rows == map[]
    case UDue(_, _) => rows == map[]
    case UListed(_, _, _) => rows == map[]
    case UBusy(_, _, _, _, _, _, count, stage) => if count == 0 then rows == map[] else stage.AtHead?
  }

  ghost predicate OneRow(rows: map<Id, Row>) { forall a, b :: a in rows && b in rows ==> a == b }

  ghost predicate OneListed(objs: seq<Obj>) {
    forall k :: 0 <= k < |objs| ==> objs[k].id == objs[0].id
  }

  ghost predicate Inv(c: Config, w: World) {
    && InRange(w.now) && OneRow(w.rows) && (forall u :: u in w.ups ==> FirstPass(w.rows, w.ups[u]))
    && (K.Listing(w.pruner) ==> OneListed(w.pruner.objs))
  }

  lemma {:induction false} UploaderStep(c: Config, w: World, a: Action)
    requires OneSchedule(c) && !ManyRows(c) && K.Inv(c, w) && Inv(c, w) && Enabled(c, w, a)
    requires K.QuietUpload(a) || a.URead? || a.URecord?
    ensures Inv(c, Apply(c, w, a))
  {
    var w' := Apply(c, w, a);
    assert a.u in c.uploaders by { if a.u in w.ups { assert K.WorkerOk(c, w.now, w.met, a.u, w.ups[a.u]); } }
    assert Gated(c, a.u) && c.latestOnly;
    forall v | v in w'.ups ensures FirstPass(w'.rows, w'.ups[v]) {
      if v in w.ups { assert K.WorkerOk(c, w.now, w.met, v, w.ups[v]) && FirstPass(w.rows, w.ups[v]); }
    }
  }

  lemma {:induction false} OtherStep(c: Config, w: World, a: Action)
    requires Inv(c, w) && Enabled(c, w, a) && !K.QuietUpload(a) && !a.URead? && !a.URecord?
    ensures Inv(c, Apply(c, w, a))
  {}

  lemma {:induction false} RunKeeps(c: Config, w: World, run: seq<Action>)
    requires OneSchedule(c) && !ManyRows(c) && K.Inv(c, w) && Inv(c, w) && CanRun(c, w, run)
    ensures K.Inv(c, After(c, w, run)) && Inv(c, After(c, w, run))
    decreases |run|
  {
    if run != [] {
      var a := run[0];
      K.Step(c, w, a);
      if K.QuietUpload(a) || a.URead? || a.URecord? { UploaderStep(c, w, a); } else { OtherStep(c, w, a); }
      RunKeeps(c, Apply(c, w, a), run[1..]);
    }
  }

  lemma {:induction false} NothingDue(c: Config, w: World)
    requires OneSchedule(c) && !ManyRows(c) && Reachable(c, w)
    ensures OneRow(w.rows) && !AtDueRow(w.pruner)
  {
    var w0: World, run: seq<Action> :| Init(w0) && CanRun(c, w0, run) && After(c, w0, run) == w;
    RunKeeps(c, w0, run);
  }

  // ---------- otherwise two rows can be listed ----------

  /** One "all" pass records both snapshots. */
  lemma {:induction false} InOnePass(c: Config, R: World -> bool, x: Scene) returns (w: World)
    requires Closed(c, R) && FitsAny(c, x) && !c.latestOnly && (forall w0 :: Init(w0) ==> R(w0))
    ensures R(w) && w.now == x.at && w.hot == Hot(x) && w.rows == Rows(c, x) && w.pruner == PIdle && (forall v :: !Busy(w, v))
  {
    SnapsListing(x);
    w := Begin(c, R, x);
    w := StartPass(c, R, w, x.u, Snaps(x));
    w := FindFresh(c, R, w, x.u);
    w := Store(c, R, w, x.u);
    assert Hot(x)[x.t].content == x.b;
    w := FindFresh(c, R, w, x.u);
    w := StoreAndStop(c, R, w, x.u);
  }

  /** Both rows of `InOnePass` are listed. */
  lemma {:induction false} ListedOfOnePass(c: Config, R: World -> bool, x: Scene) returns (w: World)
    requires Closed(c, R) && FitsAny(c, x) && !c.latestOnly && (forall w0 :: Init(w0) ==> R(w0))
    ensures R(w) && w.now == x.at && w.rows == Rows(c, x) && (forall v :: !Busy(w, v))
    ensures w.pruner == PObjs(Snaps(x), {x.s, x.t}, Objs(c, x))
  {
    hide NewestFirst, RowsNewestFirst, SortsBefore;
    var v := InOnePass(c, R, x);
    SnapsListing(x);
    ObjsListing(c, x);
    w := ListRows(c, R, v, Snaps(x), Objs(c, x));
    assert forall u :: Busy(w, u) ==> Busy(v, u);
    assert Rows(c, x).Keys == {x.s, x.t};
  }

  /** The row of `t`, recorded at `q` by the second pass. */
  function LaterT(c: Config, x: Scene, q: nat): (row: Row) { Row(q, |x.b|, c.checksum(x.b)) }

  /** A second pass is due at the tick, and has begun. */
  lemma {:induction false} AtTick(c: Config, R: World -> bool, x: Scene, tick: nat, q: nat) returns (w: World)
    requires Closed(c, R) && FitsAny(c, x) && Gated(c, x.u) && c.ticks(tick) && x.at < tick <= q && InRange(q) && (forall w0 :: Init(w0) ==> R(w0))
    ensures R(w) && w.now == q && w.hot == Hot(x) && w.rows == map[x.s := RowS(c, x)] && w.pruner == PIdle
    ensures w.ups == map[x.u := UDue(1, q)]
  {
    w := Begin(c, R, x);
    w := RecordFirst(c, R, x, w);
    w := Wait(c, R, w, x.u, q);
    OnlyRowIsLatest(w.rows, x.s);
    w := Do(c, R, w, UAsk(x.u, Some(x.at)));
    assert x.at < tick <= w.now && c.ticks(tick);
    w := Do(c, R, w, UCheck(x.u));
    assert w.ups == map[x.u := UDue(1, q)];
  }

  lemma {:induction false} ByTick(c: Config, R: World -> bool, x: Scene, tick: nat, q: nat) returns (w: World)
    requires Closed(c, R) && FitsAny(c, x) && Gated(c, x.u) && c.ticks(tick) && x.at < tick <= q && InRange(q) && (forall w0 :: Init(w0) ==> R(w0))
    ensures R(w) && w.now == q && w.hot == Hot(x) && w.rows == map[x.s := RowS(c, x), x.t := LaterT(c, x, q)] && w.pruner == PIdle
    ensures forall v :: !Busy(w, v)
  {
    SnapsListing(x);
    w := AtTick(c, R, x, tick, q);
    w := ListAndRead(c, R, w, x.u, 1, Snaps(x));
    w := Skip(c, R, w, x.u);
    assert Hot(x)[x.t].content == x.b;
    w := FindFresh(c, R, w, x.u);
    w := StoreAndStop(c, R, w, x.u);
  }

  lemma {:induction false} ListedByTick(c: Config, R: World -> bool, x: Scene, tick: nat, q: nat) returns (w: World)
    requires Closed(c, R) && FitsAny(c, x) && Gated(c, x.u) && c.ticks(tick) && x.at < tick <= q && InRange(q) && (forall w0 :: Init(w0) ==> R(w0))
    requires x.at + NANOS_PER_SECOND <= q
    ensures R(w) && w.now == q && w.rows == map[x.s := RowS(c, x), x.t := LaterT(c, x, q)] && (forall v :: !Busy(w, v))
    ensures w.pruner.PObjs? && w.pruner.objs == [Obj(x.t, LaterT(c, x, q)), Obj(x.s, RowS(c, x))]
  {
    hide NewestFirst, RowsNewestFirst, SortsBefore;
    var v := ByTick(c, R, x, tick, q);
    SnapsListing(x);
    SecondLater(x.at, q);
    var first, second := Obj(x.t, LaterT(c, x, q)), Obj(x.s, RowS(c, x));
    ListingOfTwo(first, second);
    w := ListRows(c, R, v, Snaps(x), [first, second]);
    assert forall u :: Busy(w, u) ==> Busy(v, u);
  }
}
