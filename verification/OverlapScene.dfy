/** The scene of every failure of overlapping uploads. One worker, `v`, has found snapshot `s`
    to be new and not yet uploaded it; beside it the other, `u`, has recorded `s` and an older
    snapshot `t`; and the pruner has listed both rows, that of `t` first. All of it happens at
    one instant. What goes wrong next depends on when `v` goes on. */
module OverlapScene {
  import opened Timestamps
  import opened OffsiteModel
  import opened OffsiteProtocol
  import opened RunPieces

  datatype Scene = Scene(u: nat, v: nat, s: Id, t: Id, a: Content, b: Content, at: nat)

  /** `u` may run; the two contents have different digests. */
  predicate FitsAny(c: Config, x: Scene) {
    ColdPruningOn(c) && InRange(x.at) && x.u in c.uploaders && x.s != x.t && c.checksum(x.a) != c.checksum(x.b)
  }

  /** `u` is started by hand. */
  predicate FitsOne(c: Config, x: Scene) { FitsAny(c, x) && !Gated(c, x.u) }

  ghost predicate Fits(c: Config, x: Scene) {
    FitsOne(c, x) && MayOverlapBy(c, 0) && x.v in c.uploaders && x.u != x.v
  }

  function Hot(x: Scene): (hot: map<Id, Snapshot>) { map[x.s := Snapshot(1, x.a), x.t := Snapshot(0, x.b)] }

  function Snaps(x: Scene): (snaps: seq<Listed>) { [Listed(x.s, 1), Listed(x.t, 0)] }

  function Pass(x: Scene, pass: nat, at: nat, offsited: set<Id>, stage: Stage): (up: Uploader) {
    UBusy(pass, at, Snaps(x), at, offsited, 0, 0, stage)
  }

  function RowS(c: Config, x: Scene): (row: Row) { Row(x.at, |x.a|, c.checksum(x.a)) }

  function RowT(c: Config, x: Scene): (row: Row) { Row(x.at, |x.b|, c.checksum(x.b)) }

  function Rows(c: Config, x: Scene): (rows: map<Id, Row>) { map[x.s := RowS(c, x), x.t := RowT(c, x)] }

  function Objs(c: Config, x: Scene): (objs: seq<Obj>) { [Obj(x.t, RowT(c, x)), Obj(x.s, RowS(c, x))] }

  lemma {:induction false} SnapsListing(x: Scene)
    requires x.s != x.t
    ensures NewestFirst(Snaps(x), Hot(x))
  {
    assert Snaps(x)[0].id == x.s && Snaps(x)[1].id == x.t;
  }

  lemma {:induction false} SameTime(t: nat)
    ensures !SortsBefore(t, t)
  {
    if InRange(t) { LexIrreflexive(Format(t)); }
  }

  lemma {:induction false} OnlyRowIsLatest(rows: map<Id, Row>, id: Id)
    requires rows.Keys == {id}
    ensures IsLatestOffsite(rows, rows[id].uploadedAt)
  {
    SameTime(rows[id].uploadedAt);
  }

  lemma {:induction false} ListingOfTwo(first: Obj, second: Obj)
    requires first.id != second.id && !SortsBefore(first.row.uploadedAt, second.row.uploadedAt)
    ensures RowsNewestFirst([first, second], map[second.id := second.row, first.id := first.row])
  {
    var objs := [first, second];
    assert objs[0].id == first.id && objs[1].id == second.id;
  }

  lemma {:induction false} ObjsListing(c: Config, x: Scene)
    requires x.s != x.t
    ensures RowsNewestFirst(Objs(c, x), Rows(c, x))
  {
    SameTime(x.at);
    ListingOfTwo(Obj(x.t, RowT(c, x)), Obj(x.s, RowS(c, x)));
  }

  lemma {:induction false} Begin(c: Config, R: World -> bool, x: Scene) returns (w: World)
    requires Closed(c, R) && FitsAny(c, x) && (forall w0 :: Init(w0) ==> R(w0))
    ensures R(w)
    ensures w.now == x.at && w.hot == Hot(x) && w.rows == map[] && w.pruner == PIdle && w.forgetFailed == {}
    ensures w.ups == map[] && w.uploads == {} && w.passes == 0
  {
    w := World(x.at, map[], map[], map[], map[], PIdle, 0, {}, map[], {}, {}, {}, {});
    w := Do(c, R, w, Ingest(x.s, Snapshot(1, x.a)));
    w := Do(c, R, w, Ingest(x.t, Snapshot(0, x.b)));
    assert w.hot == Hot(x);
  }

  /** `v` has found `s` new. */
  lemma {:induction false} FirstStarts(c: Config, R: World -> bool, x: Scene) returns (w: World)
    requires Closed(c, R) && Fits(c, x) && (forall w0 :: Init(w0) ==> R(w0))
    ensures R(w)
    ensures w.now == x.at && w.hot == Hot(x) && w.rows == map[] && w.pruner == PIdle && w.forgetFailed == {}
    ensures w.ups == map[x.v := Pass(x, 0, x.at, {}, Fresh(x.a))] && w.uploads == {} && w.passes == 1
  {
    SnapsListing(x);
    w := Begin(c, R, x);
    w := StartPass(c, R, w, x.v, Snaps(x));
    w := FindFresh(c, R, w, x.v);
    assert Hot(x)[x.s].content == x.a && w.ups[x.v] == Pass(x, 0, x.at, {}, Fresh(x.a));
  }

  /** Everybody else under way has just started. */
  ghost predicate JustStarted(c: Config, w: World, u: nat) {
    (exists v :: v != u && Busy(w, v)) ==> MayOverlapBy(c, 0) && forall v :: v != u && Busy(w, v) ==> w.ups[v].start == w.now
  }

  lemma {:induction false} RecordFirst(c: Config, R: World -> bool, x: Scene, w: World) returns (w': World)
    requires Closed(c, R) && FitsAny(c, x) && R(w) && Up(w, x.u).UIdle? && JustStarted(c, w, x.u)
    requires w.now == x.at && w.hot == Hot(x) && w.rows == map[] && w.forgetFailed == {}
    ensures R(w')
    ensures w'.now == x.at && w'.hot == Hot(x) && w'.rows == map[x.s := RowS(c, x)] && w'.pruner == w.pruner && w'.forgetFailed == {}
    ensures w'.ups == w.ups[x.u := UIdle] && w'.passes == w.passes + 1
    ensures forall e :: e in w'.uploads ==> e in w.uploads || e.u == x.u
  {
    SnapsListing(x);
    w' := StartPass(c, R, w, x.u, Snaps(x));
    w' := FindFresh(c, R, w', x.u);
    w' := StoreAndStop(c, R, w', x.u);
    assert w'.rows == map[x.s := RowS(c, x)];
    assert w'.ups == w.ups[x.u := UIdle];
  }

  lemma {:induction false} RecordSecond(c: Config, R: World -> bool, x: Scene, w: World) returns (w': World)
    requires Closed(c, R) && FitsOne(c, x) && R(w) && Up(w, x.u).UIdle? && JustStarted(c, w, x.u)
    requires w.now == x.at && w.hot == Hot(x) && w.rows == map[x.s := RowS(c, x)] && w.forgetFailed == {}
    ensures R(w') && ObjectPath(c, x.t) in w'.remote
    ensures w'.now == x.at && w'.hot == Hot(x) && w'.rows == Rows(c, x) && w'.pruner == w.pruner && w'.forgetFailed == {}
    ensures w'.ups == w.ups[x.u := UIdle] && w'.passes == w.passes + 1
    ensures forall e :: e in w'.uploads ==> e in w.uploads || e.u == x.u
  {
    SnapsListing(x);
    w' := StartPass(c, R, w, x.u, Snaps(x));
    w' := Skip(c, R, w', x.u);
    assert Hot(x)[x.t].content == x.b;
    w' := FindFresh(c, R, w', x.u);
    w' := StoreAndStop(c, R, w', x.u);
    assert w'.ups == w.ups[x.u := UIdle];
  }

  /** `u` records `s` in one pass and `t` in the next, and the pruner lists both rows. */
  lemma {:induction false} RecordBoth(c: Config, R: World -> bool, x: Scene, w: World) returns (w': World)
    requires Closed(c, R) && FitsOne(c, x) && R(w) && Up(w, x.u).UIdle? && JustStarted(c, w, x.u) && w.pruner == PIdle
    requires w.now == x.at && w.hot == Hot(x) && w.rows == map[] && w.forgetFailed == {}
    ensures R(w')
    ensures w'.now == x.at && w'.hot == Hot(x) && w'.rows == Rows(c, x) && w'.forgetFailed == {}
    ensures w'.ups == w.ups[x.u := UIdle] && w'.passes == w.passes + 2
    ensures w'.pruner == PObjs(Snaps(x), {x.s, x.t}, Objs(c, x))
    ensures forall e :: e in w'.uploads ==> e in w.uploads || e.u == x.u
  {
    w' := RecordFirst(c, R, x, w);
    assert forall v :: v != x.u && Busy(w', v) ==> Busy(w, v) && w'.ups[v] == w.ups[v];
    w' := RecordSecond(c, R, x, w');
    assert w'.ups == w.ups[x.u := UIdle];
    SnapsListing(x);
    ObjsListing(c, x);
    w' := ListRows(c, R, w', Snaps(x), Objs(c, x));
    assert Rows(c, x).Keys == {x.s, x.t};
  }

  /** The scene: `v` is under way. */
  lemma {:induction false} Ready(c: Config, R: World -> bool, x: Scene) returns (w: World)
    requires Closed(c, R) && Fits(c, x) && (forall w0 :: Init(w0) ==> R(w0))
    ensures R(w)
    ensures w.now == x.at && w.hot == Hot(x) && w.rows == Rows(c, x) && w.passes == 3 && w.forgetFailed == {}
    ensures w.ups == map[x.v := Pass(x, 0, x.at, {}, Fresh(x.a)), x.u := UIdle]
    ensures w.pruner == PObjs(Snaps(x), {x.s, x.t}, Objs(c, x))
    ensures forall e :: e in w.uploads ==> e.u == x.u
  {
    w := FirstStarts(c, R, x);
    w := RecordBoth(c, R, x, w);
  }

  /** The scene without `v`. */
  lemma {:induction false} ReadyAlone(c: Config, R: World -> bool, x: Scene) returns (w: World)
    requires Closed(c, R) && FitsOne(c, x) && (forall w0 :: Init(w0) ==> R(w0))
    ensures R(w)
    ensures w.now == x.at && w.rows == Rows(c, x) && w.ups == map[x.u := UIdle] && w.forgetFailed == {}
    ensures w.pruner == PObjs(Snaps(x), {x.s, x.t}, Objs(c, x))
  {
    w := Begin(c, R, x);
    w := RecordBoth(c, R, x, w);
  }

  /** Nothing but the workers' number, their gating and two contents make a scene. */
  lemma {:induction false} SceneFor(c: Config, u: nat, v: nat, a: Content, b: Content, at: nat) returns (x: Scene)
    requires ColdPruningOn(c) && InRange(at) && u in c.uploaders && !Gated(c, u) && c.checksum(a) != c.checksum(b)
    ensures FitsOne(c, x) && x.at == at && x.u == u && x.v == v
    ensures MayOverlapBy(c, 0) && v in c.uploaders && u != v ==> Fits(c, x)
  {
    x := Scene(u, v, "s", "t", a, b, at);
    assert x.s[0] != x.t[0];
  }
}
