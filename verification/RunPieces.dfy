/** Pieces from which runs of the protocol are put together. */
module RunPieces {
  import opened Options
  import opened Timestamps
  import opened OffsiteModel
  import opened OffsiteProtocol

  /** A worker finds itself due: there is no row yet, or cron does not gate it. */
  lemma {:induction false} Check(c: Config, R: World -> bool, w: World, u: nat) returns (w': World)
    requires Closed(c, R) && R(w) && c.offsiteOn && u in c.uploaders && Up(w, u).UIdle? && (Gated(c, u) ==> w.rows == map[])
    ensures R(w') && w' == w.(ups := w.ups[u := UDue(w.passes, w.now)], passes := w.passes + 1)
  {
    w' := w;
    if Gated(c, u) { w' := Do(c, R, w, UAsk(u, None)); }
    w' := Do(c, R, w', UCheck(u));
    assert w'.ups == w.ups[u := UDue(w.passes, w.now)];
  }

  lemma {:induction false} ListAndRead(c: Config, R: World -> bool, w: World, u: nat, pass: nat, snaps: seq<Listed>) returns (w': World)
    requires Closed(c, R) && R(w) && NewestFirst(snaps, w.hot) && Up(w, u) == UDue(pass, w.now) && MayMeet(c, w, u)
    ensures R(w') && w' == w.(ups := w.ups[u := UBusy(pass, w.now, snaps, w.now, w.rows.Keys, 0, 0, AtHead)], met := w'.met)
  {
    w' := Do(c, R, w, UList(u, snaps));
    assert forall v :: v != u && Busy(w', v) ==> Busy(w, v);
    w' := Do(c, R, w', URead(u));
    assert w'.ups == w.ups[u := UBusy(pass, w.now, snaps, w.now, w.rows.Keys, 0, 0, AtHead)];
  }

  /** A pass begins; nobody else moves. */
  lemma {:induction false} StartPass(c: Config, R: World -> bool, w: World, u: nat, snaps: seq<Listed>) returns (w': World)
    requires Closed(c, R) && R(w) && c.offsiteOn && u in c.uploaders && Up(w, u).UIdle? && (Gated(c, u) ==> w.rows == map[])
    requires NewestFirst(snaps, w.hot) && MayMeet(c, w, u)
    ensures R(w')
    ensures w' == w.(ups := w.ups[u := UBusy(w.passes, w.now, snaps, w.now, w.rows.Keys, 0, 0, AtHead)], passes := w.passes + 1, met := w'.met)
  {
    var v := Check(c, R, w, u);
    assert forall x :: x != u && Busy(v, x) ==> Busy(w, x);
    w' := ListAndRead(c, R, v, u, w.passes, snaps);
    assert w'.ups == w.ups[u := UBusy(w.passes, w.now, snaps, w.now, w.rows.Keys, 0, 0, AtHead)];
  }

  /** A busy worker prepares its snapshot and finds the digest unused. */
  lemma {:induction false} FindFresh(c: Config, R: World -> bool, w: World, u: nat) returns (w': World)
    requires Closed(c, R) && R(w) && AtWork(Up(w, u)) && Up(w, u).stage.AtHead? && !(c.latestOnly && Up(w, u).count > 0)
    requires Current(w.ups[u]) in w.hot && Current(w.ups[u]) !in w.ups[u].offsited
    requires !ChecksumExists(w.rows, c.checksum(w.hot[Current(w.ups[u])].content))
    ensures R(w')
    ensures w' == w.(ups := w.ups[u := w.ups[u].(stage := Fresh(w.hot[Current(w.ups[u])].content))])
  {
    var obj := w.hot[Current(w.ups[u])].content;
    w' := Do(c, R, w, UPrepare(u, obj));
    w' := Do(c, R, w', ULookup(u));
    assert w'.ups == w.ups[u := w.ups[u].(stage := Fresh(obj))];
  }

  /** It uploads and records. */
  lemma {:induction false} Store(c: Config, R: World -> bool, w: World, u: nat) returns (w': World)
    requires Closed(c, R) && R(w) && AtWork(Up(w, u)) && Up(w, u).stage.Fresh? && Current(w.ups[u]) in w.hot
    ensures R(w')
    ensures var up := w.ups[u]; var id := Current(up); var row := Row(w.now, |up.stage.obj|, c.checksum(up.stage.obj));
            && w'.rows == w.rows[id := row] && w'.uploads == w.uploads + {Upload(Obj(id, row), u, up.pass, up.check)}
            && w'.hot == w.hot && w'.now == w.now && w'.pruner == w.pruner && w'.passes == w.passes && w'.met == w.met && w'.ingested == w.ingested
            && w'.remote == w.remote[ObjectPath(c, id) := up.stage.obj] && w'.forgetFailed == w.forgetFailed - {id}
            && w'.ups == w.ups[u := up.(offsited := up.offsited + {id}, i := up.i + 1, count := up.count + 1, stage := AtHead)]
  {
    w' := Do(c, R, w, UUpload(u));
    w' := Do(c, R, w', URecord(u));
    assert w'.ups == w.ups[u := w'.ups[u]];
  }

  /** It uploads, records, and its pass ends. */
  lemma {:induction false} StoreAndStop(c: Config, R: World -> bool, w: World, u: nat) returns (w': World)
    requires Closed(c, R) && R(w) && AtWork(Up(w, u)) && Up(w, u).stage.Fresh? && Current(w.ups[u]) in w.hot
    ensures R(w')
    ensures var up := w.ups[u]; var id := Current(up); var row := Row(w.now, |up.stage.obj|, c.checksum(up.stage.obj));
            && w'.rows == w.rows[id := row] && w'.uploads == w.uploads + {Upload(Obj(id, row), u, up.pass, up.check)}
            && w'.hot == w.hot && w'.now == w.now && w'.pruner == w.pruner && w'.passes == w.passes && w'.met == w.met && w'.ingested == w.ingested
            && w'.remote == w.remote[ObjectPath(c, id) := up.stage.obj]
            && w'.ups == w.ups[u := UIdle] && w'.forgetFailed == w.forgetFailed - {id}
  {
    w' := Store(c, R, w, u);
    w' := Do(c, R, w', UStop(u));
    assert w'.ups == w.ups[u := UIdle];
  }

  /** The pruner lists the hot directory and the rows. */
  lemma {:induction false} ListRows(c: Config, R: World -> bool, w: World, snaps: seq<Listed>, objs: seq<Obj>) returns (w': World)
    requires Closed(c, R) && R(w) && w.pruner == PIdle && ColdPruningOn(c)
    requires NewestFirst(snaps, w.hot) && RowsNewestFirst(objs, w.rows)
    ensures R(w') && w' == w.(pruner := PObjs(snaps, w.rows.Keys, objs))
  {
    w' := Do(c, R, w, PList(snaps));
    w' := Do(c, R, w', PReadSet);
    w' := Do(c, R, w', PQuery(objs));
  }

  lemma {:induction false} Skip(c: Config, R: World -> bool, w: World, u: nat) returns (w': World)
    requires Closed(c, R) && R(w) && AtWork(Up(w, u)) && Up(w, u).stage.AtHead? && Current(w.ups[u]) in w.ups[u].offsited
    ensures R(w') && w' == w.(ups := w.ups[u := w.ups[u].(i := w.ups[u].i + 1)])
  {
    w' := Do(c, R, w, USkip(u));
  }

  /** The pruner reaches row 1 of its listing. */
  lemma {:induction false} ReachSecond(c: Config, R: World -> bool, w: World) returns (w': World)
    requires Closed(c, R) && R(w) && w.pruner.PObjs? && |w.pruner.objs| >= 2
    ensures var p := w.pruner;
            R(w') && w' == w.(pruner := PCold(p.snaps, p.offsited, p.objs, 1, w.now - ColdHorizon(c), false))
  {
    w' := Do(c, R, w, PCutoff);
    w' := Do(c, R, w', PKeep);
  }

  /** Time passes, as far as the overlap limit lets `v` go on. */
  lemma {:induction false} Wait(c: Config, R: World -> bool, w: World, v: nat, until: nat) returns (w': World)
    requires Closed(c, R) && R(w) && w.now <= until && InRange(until)
    requires forall u :: Busy(w, u) ==> u == v && MayOverlapBy(c, until - w.ups[v].start)
    ensures R(w') && w' == w.(now := until)
  {
    w' := Do(c, R, w, Tick(until - w.now));
  }
}
