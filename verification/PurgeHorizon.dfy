/** When a deletion on the remote is really past the configured offsite retention: exactly if the
    retention fits 64-bit durations and listings cannot be stale, or nothing is ever deleted. */
module PurgeHorizon {
  import opened Timestamps
  import opened OffsiteModel
  import opened OffsiteProtocol
  import K = PassKnowledge
  import opened RunPieces
  import opened OverlapScene
  import opened RecordImpliesObject
  import N = NoSilentLoss
  import opened TwoRows

  /** The pruner is about to delete the object of `o`. */
  ghost predicate Purging(c: Config, w: World, o: Obj) {
    Enabled(c, w, PPurge) && o == w.pruner.objs[w.pruner.i]
  }

  /** The upload on record is past the configured retention. */
  predicate PastRetention(c: Config, w: World, o: Obj) {
    o.id in w.rows && w.rows[o.id].uploadedAt < w.now - Days(c.offsiteDays)
  }

  /** Whenever an object is deleted, its upload on record is past the configured retention. */
  ghost predicate AlwaysPastRetention(c: Config) {
    forall w, o :: Reachable(c, w) && Purging(c, w, o) ==> PastRetention(c, w, o)
  }

  lemma {:induction false} PurgeIsPast(c: Config, w: World, o: Obj)
    requires Reachable(c, w) && Purging(c, w, o) && c.offsiteDays <= MAX_DAYS && N.FreshListings(c)
    ensures PastRetention(c, w, o)
  {
    K.ReachableInv(c, w);
    assert K.Live(w.pruner, w.pruner.i) && K.ListedRowOk(c, w, o);
    HorizonIsExact(c.offsiteDays);
  }

  /** The pruner comes to the second row of its listing when that row is past the effective
      horizon and the configured days are not over. */
  lemma {:induction false} PurgeAt(c: Config, R: World -> bool, w: World, z: nat) returns (w': World, o: Obj)
    requires Closed(c, R) && R(w) && w.pruner.PObjs? && |w.pruner.objs| >= 2 && (forall u :: !Busy(w, u)) && w.now <= z && InRange(z)
    requires var o := w.pruner.objs[1]; o.id in w.rows && w.rows[o.id] == o.row && z - Days(c.offsiteDays) <= o.row.uploadedAt < z - ColdHorizon(c)
    ensures R(w') && Purging(c, w', o) && o.id in w'.rows && !PastRetention(c, w', o)
  {
    w' := Wait(c, R, w, 0, z);
    w' := ReachSecond(c, R, w');
    o := w.pruner.objs[1];
  }

  /** Too many days, and two rows of the same time. */
  lemma {:induction false} TooEarly(c: Config, R: World -> bool, x: Scene) returns (w: World, o: Obj)
    requires Closed(c, R) && FitsAny(c, x) && x.at == 0 && (Gated(c, x.u) ==> !c.latestOnly) && c.offsiteDays > MAX_DAYS
    requires forall w0 :: Init(w0) ==> R(w0)
    ensures R(w) && Purging(c, w, o) && o.id in w.rows && !PastRetention(c, w, o)
  {
    HorizonIsExact(c.offsiteDays);
    if Gated(c, x.u) { w := ListedOfOnePass(c, R, x); } else { w := ReadyAlone(c, R, x); }
    w, o := PurgeAt(c, R, w, DueAge(c));
  }

  /** Too many days, and a second row that had to wait for a tick: the first one is listed second. */
  lemma {:induction false} TooEarlyByTick(c: Config, R: World -> bool, x: Scene, tick: nat) returns (w: World, o: Obj)
    requires Closed(c, R) && FitsAny(c, x) && Gated(c, x.u) && c.offsiteDays > MAX_DAYS
    requires 0 < tick && InRange(tick) && c.ticks(tick) && x.at == Max(0, tick - Days(c.offsiteDays))
    requires forall w0 :: Init(w0) ==> R(w0)
    ensures R(w) && Purging(c, w, o) && o.id in w.rows && !PastRetention(c, w, o)
  {
    HorizonIsExact(c.offsiteDays);
    var q := Max(tick, NANOS_PER_SECOND);
    w := ListedByTick(c, R, x, tick, q);
    w, o := PurgeAt(c, R, w, Max(q, x.at + ColdHorizon(c) + 1));
  }

  /** A stale listing: `v` records `s` again after the pruner has listed it, and the pruner
      deletes an object whose row is younger than the horizon. */
  lemma {:induction false} Stale(c: Config, R: World -> bool, x: Scene) returns (w: World, o: Obj)
    requires Closed(c, R) && Fits(c, x) && x.at == 0 && c.offsiteDays <= MAX_DAYS && MayOverlapBy(c, 1) && (forall w0 :: Init(w0) ==> R(w0))
    ensures R(w) && Purging(c, w, o) && o.id in w.rows && !PastRetention(c, w, o)
  {
    HorizonIsExact(c.offsiteDays);
    w := Ready(c, R, x);
    w := Wait(c, R, w, x.v, 1);
    w := StoreAndStop(c, R, w, x.v);
    w := Wait(c, R, w, x.v, ColdHorizon(c) + 1);
    w := ReachSecond(c, R, w);
    o := Objs(c, x)[1];
  }

  /** The table can hold two rows, and the days are too many: some deletion comes too early. */
  lemma {:induction false} SomeTooEarly(c: Config, R: World -> bool, a: Content, b: Content) returns (w: World, o: Obj)
    requires Closed(c, R) && ColdPruningOn(c) && ManyRows(c) && c.offsiteDays > MAX_DAYS && c.checksum(a) != c.checksum(b)
    requires forall w0 :: Init(w0) ==> R(w0)
    ensures R(w) && Purging(c, w, o) && o.id in w.rows && !PastRetention(c, w, o)
  {
    var u :| u in c.uploaders && ((exists v :: v in c.uploaders && !Gated(c, v)) ==> !Gated(c, u));
    assert "s"[0] != "t"[0];
    if Gated(c, u) && c.latestOnly {
      var tick: nat :| 0 < tick && InRange(tick) && c.ticks(tick);
      w, o := TooEarlyByTick(c, R, Scene(u, u, "s", "t", a, b, Max(0, tick - Days(c.offsiteDays))), tick);
    } else {
      w, o := TooEarly(c, R, Scene(u, u, "s", "t", a, b, 0));
    }
  }

  lemma {:induction false} SomeStale(c: Config, R: World -> bool, a: Content, b: Content) returns (w: World, o: Obj)
    requires Closed(c, R) && ColdPruningOn(c) && OneSchedule(c) && c.offsiteDays <= MAX_DAYS && !N.FreshListings(c) && c.checksum(a) != c.checksum(b)
    requires forall w0 :: Init(w0) ==> R(w0)
    ensures R(w) && Purging(c, w, o) && o.id in w.rows && !PastRetention(c, w, o)
  {
    var u, v :| u in c.uploaders && v in c.uploaders && u != v;
    if Gated(c, u) { u, v := v, u; }
    var x := SceneFor(c, u, v, a, b, 0);
    w, o := Stale(c, R, x);
  }

  lemma {:induction false} NeverPurging(c: Config, w: World, o: Obj)
    requires OneSchedule(c) && !ManyRows(c) && Reachable(c, w)
    ensures !Purging(c, w, o)
  {
    NothingDue(c, w);
  }

  /** Every deletion finds the upload on record past the configured days exactly if the days fit
      64 bits and listings cannot be stale, or there is never a second row to delete. */
  lemma {:induction false} ExactlyPastRetention(c: Config, a: Content, b: Content)
    requires ColdPruningOn(c) && OneSchedule(c) && c.checksum(a) != c.checksum(b)
    ensures AlwaysPastRetention(c) <==>
            (c.offsiteDays <= MAX_DAYS && (K.SingleUploader(c) || !MayOverlapBy(c, 1))) || !ManyRows(c)
  {
    hide ManyRows, Purging, PastRetention;
    ReachableClosed(c);
    if ManyRows(c) && (c.offsiteDays > MAX_DAYS || !N.FreshListings(c)) {
      var w, o;
      if c.offsiteDays > MAX_DAYS { w, o := SomeTooEarly(c, w => Reachable(c, w), a, b); }
      else { w, o := SomeStale(c, w => Reachable(c, w), a, b); }
      assert Reachable(c, w) && Purging(c, w, o);
    } else {
      forall w, o | Reachable(c, w) && Purging(c, w, o)
        ensures PastRetention(c, w, o)
      {
        if ManyRows(c) { PurgeIsPast(c, w, o); } else { NeverPurging(c, w, o); }
      }
    }
  }
}
