/** Failed row deletions accumulate. Round after round a snapshot arrives and is uploaded, and
    the pruner deletes the object of the one before and fails to delete its row: after k rounds
    of that kind k rows are without their objects. */
module FailedForgets {
  import opened Timestamps
  import opened OffsiteModel
  import opened OffsiteProtocol
  import opened RecordImpliesObject
  import opened RunPieces

  /** Long enough for a row to become due, and for the next one to be later to the second. */
  function Pause(c: Config): (nanos: nat) { Max(DueAge(c), NANOS_PER_SECOND) }

  /** The snapshot of round `n`. */
  function Name(n: nat): (id: Id)
    ensures |id| == n
  {
    seq(n, _ => 'x')
  }

  /** A newer snapshot heads the listing. */
  lemma {:induction false} Prepend(snaps: seq<Listed>, hot: map<Id, Snapshot>, id: Id, snap: Snapshot)
    requires NewestFirst(snaps, hot) && id !in hot
    requires forall k :: k in hot ==> hot[k].created <= snap.created
    ensures NewestFirst([Listed(id, snap.created)] + snaps, hot[id := snap])
  {
    var all := [Listed(id, snap.created)] + snaps;
    var hot' := hot[id := snap];
    forall k | k in hot' ensures exists i :: 0 <= i < |all| && all[i].id == k {
      if k == id {
        assert all[0].id == k;
      } else {
        var i :| 0 <= i < |snaps| && snaps[i].id == k;
        assert all[i + 1].id == k;
      }
    }
  }

  /** A row that is later by a second or more heads the row listing. */
  lemma {:induction false} LaterFirst(objs: seq<Obj>, rows: map<Id, Row>, o: Obj)
    requires RowsNewestFirst(objs, rows) && o.id !in rows
    requires forall k :: k in rows ==> rows[k].uploadedAt + NANOS_PER_SECOND <= o.row.uploadedAt
    ensures RowsNewestFirst([o] + objs, rows[o.id := o.row])
  {
    var all := [o] + objs;
    var rows' := rows[o.id := o.row];
    forall k | k in rows' ensures exists i :: 0 <= i < |all| && all[i].id == k {
      if k == o.id {
        assert all[0].id == k;
      } else {
        var i :| 0 <= i < |objs| && objs[i].id == k;
        assert all[i + 1].id == k;
      }
    }
    forall i, j | 0 <= i < j < |all| ensures !SortsBefore(all[i].row.uploadedAt, all[j].row.uploadedAt) {
      if i > 0 {
        assert all[i] == objs[i - 1] && all[j] == objs[j - 1];
      } else {
        assert all[j] == objs[j - 1] && all[j].row == rows[all[j].id];
        SecondLater(all[j].row.uploadedAt, o.row.uploadedAt);
      }
    }
  }

  /** The ids used so far are shorter, the snapshots older, and the rows hold their digests. */
  ghost predicate Earlier(c: Config, obj: nat -> Content, w: World, n: nat) {
    && (forall id :: id in w.ingested ==> |id| < n)
    && (forall id :: id in w.hot ==> w.hot[id].created < n)
    && (forall id :: id in w.rows ==> |id| < n && w.rows[id].checksum == c.checksum(obj(|id|)) && w.rows[id].uploadedAt <= w.now)
    && w.hot.Keys == w.rows.Keys
  }

  /** After `n` rounds every recorded snapshot but the last one is without its object. */
  ghost predicate AllButLast(c: Config, w: World, n: nat, last: Id) {
    && |w.rows| == n && last in w.rows && w.forgetFailed == w.rows.Keys - {last}
    && (forall id :: id in w.forgetFailed ==> ObjectPath(c, id) !in w.remote)
  }

  ghost predicate Resting(w: World, u: nat) {
    w.pruner == PIdle && Up(w, u).UIdle? && (forall v :: !Busy(w, v))
  }

  /** Between two rounds. */
  ghost predicate Between(c: Config, u: nat, obj: nat -> Content, w: World, n: nat, snaps: seq<Listed>, objs: seq<Obj>) {
    && Resting(w, u) && NewestFirst(snaps, w.hot) && RowsNewestFirst(objs, w.rows) && |objs| > 0
    && Earlier(c, obj, w, n) && AllButLast(c, w, n, objs[0].id)
  }

  /** A snapshot arrives, and time passes. */
  lemma {:induction false} Arrive(c: Config, R: World -> bool, w: World, id: Id, snap: Snapshot, delta: nat) returns (w': World)
    requires Closed(c, R) && R(w) && id !in w.ingested && InRange(w.now + delta) && (forall v :: !Busy(w, v))
    ensures R(w') && w' == w.(hot := w.hot[id := snap], ingested := w.ingested[id := snap], now := w.now + delta)
  {
    w' := Do(c, R, w, Ingest(id, snap));
    assert forall v :: Busy(w', v) ==> Busy(w, v);
    w' := Do(c, R, w', Tick(delta));
  }

  /** A pass uploads the newest snapshot. */
  lemma {:induction false} Send(c: Config, R: World -> bool, w: World, u: nat, snaps: seq<Listed>) returns (w': World)
    requires Closed(c, R) && R(w) && c.offsiteOn && u in c.uploaders && !Gated(c, u) && Up(w, u).UIdle? && (forall v :: !Busy(w, v))
    requires NewestFirst(snaps, w.hot) && |snaps| > 0 && snaps[0].id !in w.rows
    requires !ChecksumExists(w.rows, c.checksum(w.hot[snaps[0].id].content))
    ensures R(w')
    ensures var id := snaps[0].id; var obj := w.hot[id].content;
            && w'.rows == w.rows[id := Row(w.now, |obj|, c.checksum(obj))]
            && w'.remote == w.remote[ObjectPath(c, id) := obj] && w'.forgetFailed == w.forgetFailed - {id}
            && w'.hot == w.hot && w'.ingested == w.ingested && w'.now == w.now && w'.pruner == w.pruner
            && Up(w', u).UIdle? && (forall v :: !Busy(w', v))
  {
    w' := StartPass(c, R, w, u, snaps);
    w' := FindFresh(c, R, w', u);
    w' := StoreAndStop(c, R, w', u);
    assert forall v :: Busy(w', v) ==> Busy(w, v);
  }

  /** The pruner deletes the object of the second listed row, and fails to delete the row. */
  lemma {:induction false} Lose(c: Config, R: World -> bool, w: World, snaps: seq<Listed>, objs: seq<Obj>) returns (w': World)
    requires Closed(c, R) && R(w) && w.pruner == PIdle && ColdPruningOn(c)
    requires NewestFirst(snaps, w.hot) && RowsNewestFirst(objs, w.rows)
    requires |objs| >= 2 && objs[1].row.uploadedAt < w.now - ColdHorizon(c)
    ensures R(w')
    ensures var id := objs[1].id;
            w' == w.(remote := w.remote - {ObjectPath(c, id)}, forgetFailed := w.forgetFailed + {id}, purged := w'.purged)
  {
    w' := ListRows(c, R, w, snaps, objs);
    w' := ReachSecond(c, R, w');
    w' := PurgeAndFail(c, R, w');
  }

  lemma {:induction false} PurgeAndFail(c: Config, R: World -> bool, w: World) returns (w': World)
    requires Closed(c, R) && R(w) && AtDueRow(w.pruner) && !w.pruner.purging
    ensures R(w')
    ensures var id := w.pruner.objs[w.pruner.i].id;
            w' == w.(pruner := PIdle, remote := w.remote - {ObjectPath(c, id)}, forgetFailed := w.forgetFailed + {id}, purged := w'.purged)
  {
    w' := Do(c, R, w, PPurge);
    w' := Do(c, R, w', PStop);
  }

  lemma {:induction false} PauseInRange(c: Config, n: nat, k: nat)
    requires n <= k && InRange(k * Pause(c))
    ensures InRange(n * Pause(c))
  {
    assert n * Pause(c) <= k * Pause(c);
  }

  /** One round more: its snapshot is on record, and the one before has lost its object. */
  lemma {:induction false} Round(c: Config, R: World -> bool, u: nat, obj: nat -> Content, w: World, n: nat, snaps: seq<Listed>, objs: seq<Obj>)
    returns (w': World, snaps': seq<Listed>, objs': seq<Obj>)
    requires Closed(c, R) && R(w) && ColdPruningOn(c) && u in c.uploaders && !Gated(c, u)
    requires Between(c, u, obj, w, n, snaps, objs) && InRange(w.now + Pause(c))
    requires forall i :: 0 <= i < n ==> c.checksum(obj(i)) != c.checksum(obj(n))
    ensures R(w') && Between(c, u, obj, w', n + 1, snaps', objs') && w'.now == w.now + Pause(c)
  {
    hide NewestFirst, RowsNewestFirst, Earlier, AllButLast;
    var v, o := Stored(c, R, u, obj, w, n, snaps);
    NewHeads(c, obj, w, n, snaps, objs, o);
    snaps', objs' := [Listed(o.id, n)] + snaps, [o] + objs;
    w' := Lose(c, R, v, snaps', objs');
    EarlierAfter(c, obj, w, w', n, o);
    AllButLastAfter(c, w, w', n, objs[0].id, o);
    assert forall x :: Busy(w', x) ==> Busy(v, x);
  }

  /** The new snapshot and its row head both listings. */
  lemma {:induction false} NewHeads(c: Config, obj: nat -> Content, w: World, n: nat, snaps: seq<Listed>, objs: seq<Obj>, o: Obj)
    requires NewestFirst(snaps, w.hot) && RowsNewestFirst(objs, w.rows) && |objs| > 0 && Earlier(c, obj, w, n)
    requires |o.id| == n && w.now + Pause(c) == o.row.uploadedAt
    ensures NewestFirst([Listed(o.id, n)] + snaps, w.hot[o.id := Snapshot(n, obj(n))])
    ensures RowsNewestFirst([o] + objs, w.rows[o.id := o.row])
    ensures objs[0].row.uploadedAt < o.row.uploadedAt - ColdHorizon(c) && o.id !in w.rows
  {
    Prepend(snaps, w.hot, o.id, Snapshot(n, obj(n)));
    LaterFirst(objs, w.rows, o);
    assert objs[0].id in w.rows && objs[0].row == w.rows[objs[0].id];
  }

  /** The first half: the snapshot of the round arrives and is uploaded. */
  lemma {:induction false} Stored(c: Config, R: World -> bool, u: nat, obj: nat -> Content, w: World, n: nat, snaps: seq<Listed>) returns (w': World, o: Obj)
    requires Closed(c, R) && R(w) && c.offsiteOn && u in c.uploaders && !Gated(c, u)
    requires Resting(w, u) && Earlier(c, obj, w, n) && NewestFirst(snaps, w.hot) && InRange(w.now + Pause(c))
    requires forall i :: 0 <= i < n ==> c.checksum(obj(i)) != c.checksum(obj(n))
    ensures R(w') && Resting(w', u) && w'.now == w.now + Pause(c)
    ensures w'.hot == w.hot[Name(n) := Snapshot(n, obj(n))] && w'.ingested == w.ingested[Name(n) := Snapshot(n, obj(n))]
    ensures o == Obj(Name(n), Row(w'.now, |obj(n)|, c.checksum(obj(n)))) && w'.rows == w.rows[o.id := o.row]
    ensures w'.remote == w.remote[ObjectPath(c, o.id) := obj(n)] && w'.forgetFailed == w.forgetFailed - {o.id}
  {
    var id, snap := Name(n), Snapshot(n, obj(n));
    var snaps' := [Listed(id, n)] + snaps;
    Prepend(snaps, w.hot, id, snap);
    w' := Arrive(c, R, w, id, snap, Pause(c));
    assert forall v :: Busy(w', v) ==> Busy(w, v);
    w' := Send(c, R, w', u, snaps');
    o := Obj(id, w'.rows[id]);
  }

  lemma {:induction false} EarlierAfter(c: Config, obj: nat -> Content, w: World, w': World, n: nat, o: Obj)
    requires Earlier(c, obj, w, n) && |o.id| == n && o.row == Row(w'.now, |obj(n)|, c.checksum(obj(n))) && w.now <= w'.now
    requires w'.hot == w.hot[o.id := Snapshot(n, obj(n))] && w'.ingested == w.ingested[o.id := Snapshot(n, obj(n))]
    requires w'.rows == w.rows[o.id := o.row]
    ensures Earlier(c, obj, w', n + 1)
  {
    assert w'.hot.Keys == w.hot.Keys + {o.id} && w'.rows.Keys == w.rows.Keys + {o.id};
  }

  lemma {:induction false} AllButLastAfter(c: Config, w: World, w': World, n: nat, last: Id, o: Obj)
    requires AllButLast(c, w, n, last) && o.id !in w.rows && w'.rows == w.rows[o.id := o.row]
    requires w'.remote.Keys <= w.remote.Keys + {ObjectPath(c, o.id)} - {ObjectPath(c, last)}
    requires w'.forgetFailed == w.forgetFailed - {o.id} + {last}
    ensures AllButLast(c, w', n + 1, o.id)
  {
    assert w'.rows.Keys == w.rows.Keys + {o.id};
    forall id | id in w'.forgetFailed ensures ObjectPath(c, id) !in w'.remote {
      if ObjectPath(c, id) == ObjectPath(c, o.id) { ObjectPathInjective(c, id, o.id); }
    }
  }

  /** The first round: nothing to prune. */
  lemma {:induction false} First(c: Config, R: World -> bool, u: nat, obj: nat -> Content) returns (w: World, snaps: seq<Listed>, objs: seq<Obj>)
    requires Closed(c, R) && ColdPruningOn(c) && u in c.uploaders && !Gated(c, u) && (forall w0 :: Init(w0) ==> R(w0))
    ensures R(w) && Between(c, u, obj, w, 1, snaps, objs) && w.now == 0
  {
    w := World(0, map[], map[], map[], map[], PIdle, 0, {}, map[], {}, {}, {}, {});
    var id, snap := Name(0), Snapshot(0, obj(0));
    w := Arrive(c, R, w, id, snap, 0);
    snaps := [Listed(id, 0)];
    assert snaps[0].id == id;
    w := Send(c, R, w, u, snaps);
    objs := [Obj(id, w.rows[id])];
    assert objs[0].id == id;
    assert w.rows.Keys == {id};
  }

  lemma {:induction false} Rounds(c: Config, R: World -> bool, u: nat, obj: nat -> Content, k: nat) returns (w: World, snaps: seq<Listed>, objs: seq<Obj>)
    requires Closed(c, R) && ColdPruningOn(c) && u in c.uploaders && !Gated(c, u) && (forall w0 :: Init(w0) ==> R(w0))
    requires forall i, j :: 0 <= i < j <= k ==> c.checksum(obj(i)) != c.checksum(obj(j))
    requires InRange(k * Pause(c))
    ensures R(w) && Between(c, u, obj, w, k + 1, snaps, objs) && w.now == k * Pause(c)
  {
    hide Between;
    if k == 0 {
      w, snaps, objs := First(c, R, u, obj);
    } else {
      PauseInRange(c, k - 1, k);
      w, snaps, objs := Rounds(c, R, u, obj, k - 1);
      assert w.now + Pause(c) == k * Pause(c);
      w, snaps, objs := Round(c, R, u, obj, w, k, snaps, objs);
    }
  }

  /** For every k for which the years suffice: k failed row deletions leave k rows without
      objects. The contents need different digests, or they would not be uploaded. */
  lemma {:induction false} ManyDangling(c: Config, u: nat, obj: nat -> Content, k: nat) returns (w: World)
    requires ColdPruningOn(c) && u in c.uploaders && !Gated(c, u)
    requires forall i, j :: 0 <= i < j <= k ==> c.checksum(obj(i)) != c.checksum(obj(j))
    requires InRange(k * Pause(c))
    ensures Reachable(c, w) && w.pruner == PIdle && |w.forgetFailed| == k
    ensures forall id :: id in w.forgetFailed ==> id in w.rows && ObjectPath(c, id) !in w.remote
  {
    ReachableClosed(c);
    var v, snaps, objs := Rounds(c, w => Reachable(c, w), u, obj, k);
    w := v;
    LastApart(c, w, k + 1, objs[0].id);
  }

  lemma {:induction false} LastApart(c: Config, w: World, n: nat, last: Id)
    requires AllButLast(c, w, n, last)
    ensures |w.forgetFailed| == n - 1 && w.forgetFailed <= w.rows.Keys
  {
    assert w.rows.Keys == w.forgetFailed + {last};
  }
}
