/** One pruning pass can delete the object and the hot copy of a snapshot: it removes a hot copy
    because the row set that it read at its start holds the snapshot, and by then it has pruned
    the rows. Offsite first means that a copy exists or was deleted past the horizon, not that
    a pruned snapshot is on the remote. */
module BothCopies {
  import opened OffsiteModel
  import opened OffsiteProtocol
  import opened RecordImpliesObject
  import P = ColdPrune
  import W = LifecycleWorker
  import R = PassesAreRuns
  import opened OverlapScene

  /** The pass from `w` to `w'` deletes the hot copy of `id` and its object. */
  predicate DeletesBoth(c: Config, w: World, id: Id, w': World) {
    && id in w.hot && id !in w'.hot
    && ObjectPath(c, id) in w.remote && ObjectPath(c, id) !in w'.remote
  }

  /** The row of `id` is past the offsite horizon and not the first one listed. */
  predicate RowDue(c: Config, w: World, objs: seq<Obj>, coldNow: nat, id: Id) {
    && ColdPruningOn(c) && id in w.rows && w.rows[id].uploadedAt < coldNow - ColdHorizon(c)
    && |objs| > 0 && objs[0].id != id
  }

  /** The hot copy of `id` is past the hot horizon, not the newest one, and can be removed. */
  predicate CopyDue(c: Config, w: World, snaps: seq<Listed>, hotNow: nat, latest: Id, fails: Id -> bool, id: Id) {
    && c.retentionDays > 0 && id in w.hot && w.hot[id].created < hotNow - HotHorizon(c)
    && |snaps| > 0 && snaps[0].id != id && !(c.mode.Rsync? && id == latest) && !fails(id)
  }

  lemma {:induction false} VictimByCopy(c: Config, w: World, snaps: seq<Listed>, offsited: set<Id>, hotNow: nat, latest: Id, fails: Id -> bool, id: Id)
    requires NewestFirst(snaps, w.hot) && c.retentionDays > 0
    ensures id in W.HotVictims(c, snaps, offsited, hotNow - HotHorizon(c), latest, fails, |snaps|) <==>
            CopyDue(c, w, snaps, hotNow, latest, fails, id) && (c.offsiteOn ==> id in offsited)
  {
    if id in w.hot { var k :| 0 <= k < |snaps| && snaps[k].id == id; }
  }

  /** What the cold pass of a successful pruning pass deletes. */
  lemma {:induction false} ObjectGone(c: Config, w: World, objs: seq<Obj>, coldNow: nat, env: P.Env, id: Id)
    requires RowsNewestFirst(objs, w.rows) && P.PruneResult(c, env, objs, coldNow, w.rows, w.remote).ok
    requires ObjectPath(c, id) in w.remote
    ensures ObjectPath(c, id) !in P.PruneResult(c, env, objs, coldNow, w.rows, w.remote).remote <==> RowDue(c, w, objs, coldNow, id)
  {
    hide SortsBefore;
    var cutoff := coldNow - ColdHorizon(c);
    var k := P.LoopRemovesPrefix(c, env, objs, 0, cutoff, w.rows, w.remote);
    P.DueByRow(objs, w.rows, cutoff, id);
    P.PathsOfIds(c, objs, cutoff, id);
  }

  /** An undisturbed pass that meets no error deletes both copies of a snapshot exactly if its row
      and its hot copy are both due. */
  lemma {:induction false} ExactlyBoth(c: Config, w: World, snaps: seq<Listed>, objs: seq<Obj>, coldNow: nat, hotNow: nat, env: P.Env, latest: Id, fails: Id -> bool, w': World, id: Id)
    requires NewestFirst(snaps, w.hot) && RowsNewestFirst(objs, w.rows)
    requires R.AfterPrune(c, w, snaps, objs, coldNow, hotNow, env, latest, fails, w') && P.PruneResult(c, env, objs, coldNow, w.rows, w.remote).ok
    ensures DeletesBoth(c, w, id, w') <==>
            ObjectPath(c, id) in w.remote && RowDue(c, w, objs, coldNow, id) && CopyDue(c, w, snaps, hotNow, latest, fails, id)
  {
    hide NewestFirst, RowsNewestFirst, P.PruneResult;
    if ObjectPath(c, id) in w.remote { ObjectGone(c, w, objs, coldNow, env, id); }
    if c.retentionDays > 0 { VictimByCopy(c, w, snaps, w.rows.Keys, hotNow, latest, fails, id); }
  }

  /** Both snapshots of the scene are recorded at one time. */
  lemma {:induction false} BothRecorded(c: Config, R: World -> bool, x: Scene) returns (w: World)
    requires Closed(c, R) && FitsOne(c, x) && (forall w0 :: Init(w0) ==> R(w0))
    ensures R(w) && w.now == x.at && w.hot == Hot(x) && w.rows == Rows(c, x) && w.pruner == PIdle && (forall u :: !Busy(w, u))
    ensures ObjectPath(c, x.t) in w.remote
  {
    var v := Begin(c, R, x);
    v := RecordFirst(c, R, x, v);
    w := RecordSecond(c, R, x, v);
    assert forall u :: Busy(w, u) ==> u == x.u;
  }

  /** When the older snapshot and its row are past both horizons. */
  function BothPast(c: Config): (z: nat) { Max(DueAge(c), HotHorizon(c) + 1) }

  /** From such a state one pass without failures deletes both copies of the older snapshot. */
  lemma {:induction false} PassOverBoth(c: Config, x: Scene, w: World) returns (w': World)
    requires FitsOne(c, x) && x.at == 0 && c.retentionDays > 0 && Reachable(c, w)
    requires w.now == 0 && w.hot == Hot(x) && w.rows == Rows(c, x) && w.pruner == PIdle && (forall u :: !Busy(w, u))
    requires ObjectPath(c, x.t) in w.remote
    ensures Reachable(c, w') && DeletesBoth(c, w, x.t, w')
  {
    hide Reachable, NewestFirst, RowsNewestFirst, R.AfterPrune, DeletesBoth, P.ColdLoop;
    var objs := [Obj(x.s, RowS(c, x)), Obj(x.t, RowT(c, x))];
    BothListings(c, x);
    var z, env := BothPast(c), P.Env(_ => false, _ => false);
    w' := R.PrunePassRuns(c, w, Snaps(x), objs, z, z, env, x.s, _ => false);
    P.NoFailure(c, env, objs, 0, z - ColdHorizon(c), w.rows, w.remote);
    ExactlyBoth(c, w, Snaps(x), objs, z, z, env, x.s, _ => false, w', x.t);
  }

  /** In `w` the older snapshot is hot, recorded and on the remote; one pass later it is nowhere. */
  lemma {:induction false} OnePassDeletesBoth(c: Config, x: Scene) returns (w: World, w': World)
    requires FitsOne(c, x) && x.at == 0 && c.retentionDays > 0
    ensures Reachable(c, w) && x.t in w.rows && Reachable(c, w') && DeletesBoth(c, w, x.t, w')
  {
    ReachableClosed(c);
    hide Closed;
    w := BothRecorded(c, v => Reachable(c, v), x);
    w' := PassOverBoth(c, x, w);
  }

  lemma {:induction false} BothListings(c: Config, x: Scene)
    requires x.s != x.t
    ensures NewestFirst(Snaps(x), Hot(x)) && RowsNewestFirst([Obj(x.s, RowS(c, x)), Obj(x.t, RowT(c, x))], Rows(c, x))
  {
    SnapsListing(x);
    SameTime(x.at);
    ListingOfTwo(Obj(x.s, RowS(c, x)), Obj(x.t, RowT(c, x)));
    assert Rows(c, x) == map[x.t := RowT(c, x), x.s := RowS(c, x)];
  }
}
