/** The rsync `latest` link. A backup writes a new snapshot directory against the directory
    `latest` points at (--link-dest) and then flips `latest` to the new one. Removing a
    snapshot reads the link, refuses its target, and then removes the directory; the two
    steps may straddle a flip. The lifecycle worker removes only listed directories other
    than the newest; an operator may name any id.

    A snapshot id is its start time in UTC seconds, so ids are numbers here. The client's lock
    keeps its backups apart. */
module RsyncLatest {
  import opened Options

  /** `operators` may delete by hand; `careful` operators name only ids that are past. */
  datatype Config = Config(operators: set<nat>, careful: bool)

  datatype Flight = Flight(snap: nat, base: Option<nat>, created: bool)

  datatype Worker = WIdle | WListed(list: set<nat>) | WRemoving(list: set<nat>, id: nat)

  /** An operator past the guard, which it read during flight number `during`. */
  datatype Removal = Removal(id: nat, during: nat)

  datatype World = World(
    hot: set<nat>,
    latest: Option<nat>,
    flight: Option<Flight>,
    newest: nat,    // the last snapshot id started
    flights: nat,   // how many backups started
    worker: Worker,
    removals: map<nat, Removal>)

  datatype Action =
    | Begin(id: nat)
    | Create
    | Flip
    | Fail
    | WList
    | WGuard(id: nat)
    | WRemove
    | WStop
    | OGuard(op: nat, id: nat)
    | ORemove(op: nat)

  predicate Newest(list: set<nat>, id: nat) {
    id in list && forall k :: k in list ==> k <= id
  }

  predicate InFlight(w: World, id: nat) { w.flight.Some? && w.flight.value.snap == id }

  /** The backup of that id is over; it is not being written, and no later one will take it. */
  predicate Past(w: World, id: nat) { id <= w.newest && !InFlight(w, id) }

  predicate Enabled(c: Config, w: World, a: Action) {
    match a
    case Begin(id) => w.flight.None? && w.newest < id
    case Create => w.flight.Some?
    case Flip => w.flight.Some? && w.flight.value.created
    case Fail => w.flight.Some?
    case WList => w.worker.WIdle?
    case WGuard(id) => w.worker.WListed? && id in w.worker.list && !Newest(w.worker.list, id) && w.latest != Some(id)
    case WRemove => w.worker.WRemoving?
    case WStop => true
    case OGuard(op, id) =>
      op in c.operators && op !in w.removals && w.latest != Some(id) && (c.careful ==> Past(w, id))
    case ORemove(op) => op in w.removals
  }

  /** The guard has let the operator pass. */
  function Guard(w: World, op: nat, id: nat): (w': World) { w.(removals := w.removals[op := Removal(id, w.flights)]) }

  function Apply(c: Config, w: World, a: Action): (w': World)
    requires Enabled(c, w, a)
  {
    match a
    case Begin(id) => w.(flight := Some(Flight(id, w.latest, false)), newest := id, flights := w.flights + 1)
    case Create => w.(hot := w.hot + {w.flight.value.snap}, flight := Some(w.flight.value.(created := true)))
    case Flip => w.(latest := Some(w.flight.value.snap), flight := None)
    case Fail => w.(flight := None)
    case WList => w.(worker := WListed(w.hot))
    case WGuard(id) => w.(worker := WRemoving(w.worker.list, id))
    case WRemove => w.(hot := w.hot - {w.worker.id}, worker := WListed(w.worker.list))
    case WStop => w.(worker := WIdle)
    case OGuard(op, id) => Guard(w, op, id)
    case ORemove(op) => w.(hot := w.hot - {w.removals[op].id}, removals := w.removals - {op})
  }

  predicate Init(w: World) {
    w == World({}, None, None, w.newest, 0, WIdle, map[])
  }

  predicate CanRun(c: Config, w: World, run: seq<Action>)
    decreases |run|
  {
    run == [] || (Enabled(c, w, run[0]) && CanRun(c, Apply(c, w, run[0]), run[1..]))
  }

  function After(c: Config, w: World, run: seq<Action>): (w': World)
    requires CanRun(c, w, run)
    decreases |run|
  {
    if run == [] then w else After(c, Apply(c, w, run[0]), run[1..])
  }

  ghost predicate Reachable(c: Config, w: World) {
    exists w0, run :: Init(w0) && CanRun(c, w0, run) && After(c, w0, run) == w
  }

  /** `latest` points at a directory, and the running backup's base is one. */
  predicate Intact(w: World) {
    && (w.latest.Some? ==> w.latest.value in w.hot)
    && (w.flight.Some? && w.flight.value.base.Some? ==> w.flight.value.base.value in w.hot)
  }

  /** Whatever operators do: `latest` stays the base for the whole flight, and ids grow. */
  predicate Basics(w: World) {
    && (w.flight.Some? ==> w.flight.value.snap == w.newest && w.flight.value.base == w.latest && w.flights > 0)
    && (w.latest.Some? ==> w.latest.value <= w.newest && !InFlight(w, w.latest.value))
    && (forall id :: id in w.hot ==> id <= w.newest)
    && (!w.worker.WIdle? ==> forall id :: id in w.worker.list ==> id <= w.newest)
    && (forall op :: op in w.removals ==> w.removals[op].during <= w.flights)
    && (forall op :: op in w.removals && w.removals[op].during == w.flights && w.flight.Some? ==>
          w.latest != Some(w.removals[op].id))
  }

  /** A directory that is neither `latest` nor in flight will never be `latest` again. */
  predicate Retired(w: World, id: nat) {
    Past(w, id) && w.latest != Some(id)
  }

  predicate Guarded(w: World) {
    && (w.worker.WRemoving? ==> Retired(w, w.worker.id))
    && (forall op :: op in w.removals ==> Retired(w, w.removals[op].id))
    && (w.flight.Some? && w.flight.value.created ==> w.flight.value.snap in w.hot)
  }

  predicate HandsOff(c: Config) { c.careful || c.operators == {} }

  lemma {:induction false} StepBasics(c: Config, w: World, a: Action)
    requires Basics(w) && Enabled(c, w, a)
    ensures Basics(Apply(c, w, a))
  {}

  /** The worker's list holds something newer than what it removes, so that is not in flight. */
  lemma {:induction false} StepGuarded(c: Config, w: World, a: Action)
    requires HandsOff(c) && Basics(w) && Guarded(w) && Intact(w) && Enabled(c, w, a)
    requires w.removals.Keys <= c.operators
    ensures Guarded(Apply(c, w, a)) && Intact(Apply(c, w, a)) && Apply(c, w, a).removals.Keys <= c.operators
  {
    var w' := Apply(c, w, a);
    if a.WGuard? {
      var k :| k in w.worker.list && k > a.id;
      assert k <= w.newest;
    }
    forall op | op in w'.removals ensures Retired(w', w'.removals[op].id) {
      if op in w.removals { assert Retired(w, w.removals[op].id); }
    }
  }

  predicate Sound(c: Config, w: World) { Guarded(w) && Intact(w) && w.removals.Keys <= c.operators }

  lemma {:induction false} RunKeeps(c: Config, w: World, run: seq<Action>)
    requires Basics(w) && CanRun(c, w, run)
    ensures Basics(After(c, w, run))
    ensures HandsOff(c) && Sound(c, w) ==> Sound(c, After(c, w, run))
    decreases |run|
  {
    if run != [] {
      StepBasics(c, w, run[0]);
      if HandsOff(c) && Sound(c, w) { StepGuarded(c, w, run[0]); }
      RunKeeps(c, Apply(c, w, run[0]), run[1..]);
    }
  }

  /** Under worker passes, with no operators or careful ones, `latest` never dangles and the
      --link-dest base of a backup in flight is never removed. */
  lemma {:induction false} LatestNeverDangles(c: Config, w: World)
    requires HandsOff(c) && Reachable(c, w)
    ensures w.latest.Some? ==> w.latest.value in w.hot
    ensures w.flight.Some? && w.flight.value.base.Some? ==> w.flight.value.base.value in w.hot
  {
    var w0, run :| Init(w0) && CanRun(c, w0, run) && After(c, w0, run) == w;
    RunKeeps(c, w0, run);
  }

  /** Whatever operators name: a removal whose guard was read during the present flight is not
      of that flight's base. */
  lemma {:induction false} GuardCoversItsFlight(c: Config, w: World, op: nat)
    requires Reachable(c, w) && w.flight.Some? && op in w.removals && w.removals[op].during == w.flights
    ensures w.flight.value.base != Some(w.removals[op].id)
  {
    var w0, run :| Init(w0) && CanRun(c, w0, run) && After(c, w0, run) == w;
    RunKeeps(c, w0, run);
  }

  // ---------- where the guard is not enough ----------

  /** An operator who deletes the snapshot being written passes the guard, and removes the
      directory after the flip, under the next backup. */
  lemma {:induction false} DeleteInFlight(c: Config, w: World, op: nat) returns (run: seq<Action>)
    requires !c.careful && op in c.operators && op !in w.removals && Basics(w)
    requires w.flight.Some? && w.flight.value.created
    ensures CanRun(c, w, run)
    ensures var w' := After(c, w, run);
            && w'.latest == Some(w.flight.value.snap) && w'.latest.value !in w'.hot
            && w'.flight.Some? && w'.flight.value.base == w'.latest
  {
    var a1, a2, a3, a4 := OGuard(op, w.flight.value.snap), Flip, Begin(w.newest + 1), ORemove(op);
    var w1 := Apply(c, w, a1);
    var w2 := Apply(c, w1, a2);
    var w3 := Apply(c, w2, a3);
    var w4 := Apply(c, w3, a4);
    run := [a1, a2, a3, a4];
    assert run[1..] == [a2, a3, a4] && run[1..][1..] == [a3, a4] && run[1..][1..][1..] == [a4] && run[1..][1..][1..][1..] == [];
    assert CanRun(c, w4, []) && After(c, w4, []) == w4;
    assert CanRun(c, w3, [a4]) && After(c, w3, [a4]) == w4;
    assert CanRun(c, w2, [a3, a4]) && After(c, w2, [a3, a4]) == w4;
    assert CanRun(c, w1, [a2, a3, a4]) && After(c, w1, [a2, a3, a4]) == w4;
  }

  /** Continuations of `w` can break `latest` or a base. */
  ghost predicate CanBreak(c: Config, w: World) {
    exists run :: CanRun(c, w, run) && !Intact(After(c, w, run))
  }

  lemma {:induction false} BreakLater(c: Config, w: World, a: Action)
    requires Enabled(c, w, a) && CanBreak(c, Apply(c, w, a))
    ensures CanBreak(c, w)
  {
    var run :| CanRun(c, Apply(c, w, a), run) && !Intact(After(c, Apply(c, w, a), run));
    var all := [a] + run;
    assert all[0] == a && all[1..] == run;
    assert CanRun(c, w, all) && After(c, w, all) == After(c, Apply(c, w, a), run);
  }

  lemma {:induction false} BreakNow(c: Config, w: World)
    requires !Intact(w)
    ensures CanBreak(c, w)
  {
    assert CanRun(c, w, []) && After(c, w, []) == w;
  }

  /** The removal waits for the flip. */
  lemma {:induction false} BreakInFlight(c: Config, w: World, op: nat)
    requires op in w.removals && InFlight(w, w.removals[op].id)
    ensures CanBreak(c, w)
  {
    var w1 := Apply(c, w, Create);
    var w2 := Apply(c, w1, Flip);
    var w3 := Apply(c, w2, ORemove(op));
    BreakNow(c, w3);
    BreakLater(c, w2, ORemove(op));
    BreakLater(c, w1, Flip);
    BreakLater(c, w, Create);
  }

  /** The removal waits for the backup that will take the id. */
  lemma {:induction false} BreakAhead(c: Config, w: World, op: nat)
    requires op in w.removals && w.newest < w.removals[op].id
    ensures CanBreak(c, w)
  {
    var id := w.removals[op].id;
    if w.flight.Some? {
      var w1 := Apply(c, w, Fail);
      BreakInFlight(c, Apply(c, w1, Begin(id)), op);
      BreakLater(c, w1, Begin(id));
      BreakLater(c, w, Fail);
    } else {
      BreakInFlight(c, Apply(c, w, Begin(id)), op);
      BreakLater(c, w, Begin(id));
    }
  }

  /** The exact condition of one guarded removal, everybody else being careful: some
      continuation breaks unless it names an id that is past, existing or not. */
  lemma {:induction false} ExactlyHarmless(c: Config, w: World, op: nat, id: nat)
    requires c.careful && Reachable(c, w) && op in c.operators && op !in w.removals && w.latest != Some(id)
    ensures CanBreak(c, Guard(w, op, id)) <==> !(id <= w.newest && !InFlight(w, id))
  {
    var w1 := Guard(w, op, id);
    if Past(w, id) {
      var w0, prefix :| Init(w0) && CanRun(c, w0, prefix) && After(c, w0, prefix) == w;
      RunKeeps(c, w0, prefix);
      StepBasics(c, w, OGuard(op, id));
      StepGuarded(c, w, OGuard(op, id));
      forall run | CanRun(c, w1, run) ensures Intact(After(c, w1, run)) { RunKeeps(c, w1, run); }
    } else {
      if InFlight(w, id) { BreakInFlight(c, w1, op); } else { BreakAhead(c, w1, op); }
    }
  }

  // ---------- what may be removed ----------

  /** The worker can remove a listed directory exactly if it is neither the newest one nor the
      target of `latest`; an operator can remove any directory but the target of `latest`. */
  lemma {:induction false} Removable(c: Config, w: World, id: nat, op: nat)
    requires w.worker.WIdle? && id in w.hot
    ensures var w1 := Apply(c, w, WList);
            && (Enabled(c, w1, WGuard(id)) <==> (exists k :: k in w.hot && id < k) && w.latest != Some(id))
            && (Enabled(c, w1, WGuard(id)) ==>
                  var w2 := Apply(c, w1, WGuard(id)); Enabled(c, w2, WRemove) && Apply(c, w2, WRemove).hot == w.hot - {id})
    ensures op in c.operators && op !in w.removals && !c.careful ==>
              && (Enabled(c, w, OGuard(op, id)) <==> w.latest != Some(id))
              && (Enabled(c, w, OGuard(op, id)) ==>
                    var w1 := Apply(c, w, OGuard(op, id)); Enabled(c, w1, ORemove(op)) && Apply(c, w1, ORemove(op)).hot == w.hot - {id})
  {
    if !Newest(w.hot, id) { var k :| k in w.hot && !(k <= id); }
  }
}
