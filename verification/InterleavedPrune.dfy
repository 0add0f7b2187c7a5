/** One pruning pass, with any steps of the others in between: what the hot directory holds at
    any moment of it. Only what the pass had listed, and found recorded when it read the rows,
    can be gone; what arrives during the pass stays. */
module InterleavedPrune {
  import opened OffsiteModel
  import opened OffsiteProtocol

  /** No other pass begins. */
  ghost predicate OnePass(run: seq<Action>) {
    forall i :: 0 <= i < |run| ==> !run[i].PList?
  }

  /** Hot at the start, or arrived since. */
  function Present(w: World, w': World): (ids: set<Id>) { w.hot.Keys + (w'.ingested.Keys - w.ingested.Keys) }

  /** Listed, not as the newest, aged by now, and recorded at the read if offsite is on. */
  ghost predicate MayGo(c: Config, snaps: seq<Listed>, read: set<Id>, now: nat, id: Id) {
    c.retentionDays > 0 && (c.offsiteOn ==> id in read) &&
    exists k :: 0 < k < |snaps| && snaps[k].id == id && snaps[k].created < now - HotHorizon(c)
  }

  // ---------- before the read ----------

  /** As long as the pass has not read the rows, nothing is gone. */
  ghost predicate Untouched(w: World, snaps: seq<Listed>, w': World) {
    w.ingested.Keys <= w'.ingested.Keys && (w'.pruner.PListed? ==> w'.pruner.snaps == snaps && w'.hot.Keys == Present(w, w'))
  }

  /** The steps that change neither the hot directory nor the clock. */
  predicate Elsewhere(a: Action) { !a.Tick? && !a.Ingest? && !a.PHotDelete? }

  lemma {:induction false} HotFrame(c: Config, w: World, a: Action)
    requires Enabled(c, w, a) && Elsewhere(a)
    ensures var w' := Apply(c, w, a);
            w'.hot == w.hot && w'.ingested == w.ingested && w'.now == w.now && (w'.pruner.PListed? && !a.PList? ==> w'.pruner == w.pruner)
  {
    hide NewestFirst, RowsNewestFirst, LatestIs, CronDue, MayWait, MayMeet, ChecksumExists;
  }

  lemma {:induction false} UntouchedStep(c: Config, w: World, snaps: seq<Listed>, x: World, a: Action)
    requires Untouched(w, snaps, x) && Enabled(c, x, a) && !a.PList?
    ensures Untouched(w, snaps, Apply(c, x, a))
  {
    if Elsewhere(a) { HotFrame(c, x, a); }
  }

  lemma {:induction false} UntouchedRun(c: Config, w: World, snaps: seq<Listed>, x: World, run: seq<Action>)
    requires Untouched(w, snaps, x) && CanRun(c, x, run) && OnePass(run)
    ensures Untouched(w, snaps, After(c, x, run))
    decreases |run|
  {
    if run != [] {
      UntouchedStep(c, w, snaps, x, run[0]);
      UntouchedRun(c, w, snaps, Apply(c, x, run[0]), run[1..]);
    }
  }

  // ---------- after the read ----------

  /** The pass works with what it has listed and read. */
  ghost predicate Working(c: Config, snaps: seq<Listed>, read: set<Id>, x: World) {
    && !x.pruner.PListed? && (!x.pruner.PIdle? ==> x.pruner.snaps == snaps && x.pruner.offsited == read)
    && (x.pruner.PHot? ==> c.retentionDays > 0 && x.pruner.cutoff <= x.now - HotHorizon(c))
  }

  /** The hot directory holds what was present, less ids that may go. */
  ghost predicate Survives(c: Config, w: World, snaps: seq<Listed>, read: set<Id>, x: World) {
    && w.ingested.Keys <= x.ingested.Keys && x.hot.Keys <= Present(w, x)
    && forall id :: id in Present(w, x) && id !in x.hot ==> MayGo(c, snaps, read, x.now, id)
  }

  lemma {:induction false} WorkingStep(c: Config, snaps: seq<Listed>, read: set<Id>, x: World, a: Action)
    requires Working(c, snaps, read, x) && Enabled(c, x, a) && !a.PList?
    ensures Working(c, snaps, read, Apply(c, x, a))
  {
    hide NewestFirst, RowsNewestFirst, LatestIs, CronDue, MayWait, MayMeet, ChecksumExists;
  }

  lemma {:induction false} SurvivesStep(c: Config, w: World, snaps: seq<Listed>, read: set<Id>, x: World, a: Action)
    requires Working(c, snaps, read, x) && Survives(c, w, snaps, read, x) && Enabled(c, x, a) && !a.PList?
    ensures Survives(c, w, snaps, read, Apply(c, x, a))
  {
    var x' := Apply(c, x, a);
    if Elsewhere(a) {
      HotFrame(c, x, a);
    } else {
      forall id | id in Present(w, x') && id !in x'.hot ensures MayGo(c, snaps, read, x'.now, id) {
        if id in Present(w, x) && id !in x.hot { assert MayGo(c, snaps, read, x.now, id); }
        else if a.PHotDelete? { assert snaps[x.pruner.i].id == id; }
      }
    }
  }

  lemma {:induction false} SurvivesRun(c: Config, w: World, snaps: seq<Listed>, read: set<Id>, x: World, run: seq<Action>)
    requires Working(c, snaps, read, x) && Survives(c, w, snaps, read, x) && CanRun(c, x, run) && OnePass(run)
    ensures Survives(c, w, snaps, read, After(c, x, run))
    decreases |run|
  {
    if run != [] {
      WorkingStep(c, snaps, read, x, run[0]);
      SurvivesStep(c, w, snaps, read, x, run[0]);
      SurvivesRun(c, w, snaps, read, Apply(c, x, run[0]), run[1..]);
    }
  }

  // ---------- the pass ----------

  /** A pass lists the hot directory in `w`, reads the rows in `r`, and goes on to `w'`; any
      steps of the others come in between. */
  ghost predicate PassFrom(c: Config, w: World, snaps: seq<Listed>, reading: seq<Action>, r: World, rest: seq<Action>, w': World) {
    && Enabled(c, w, PList(snaps)) && OnePass(reading) && OnePass(rest)
    && CanRun(c, Apply(c, w, PList(snaps)), reading) && r == After(c, Apply(c, w, PList(snaps)), reading)
    && Enabled(c, r, PReadSet) && CanRun(c, Apply(c, r, PReadSet), rest) && w' == After(c, Apply(c, r, PReadSet), rest)
  }

  /** At every moment of a pass, however interleaved, the hot directory holds what it held at
      the listing and what has arrived since, less some of the listed snapshots that are not
      the newest, are past the horizon and were recorded when the pass read the rows. */
  lemma {:induction false} SurvivingSet(c: Config, w: World, snaps: seq<Listed>, reading: seq<Action>, r: World, rest: seq<Action>, w': World)
    requires PassFrom(c, w, snaps, reading, r, rest, w')
    ensures w'.hot.Keys <= w.hot.Keys + (w'.ingested.Keys - w.ingested.Keys)
    ensures forall id :: id in w.hot.Keys + (w'.ingested.Keys - w.ingested.Keys) && id !in w'.hot ==>
              && c.retentionDays > 0 && (c.offsiteOn ==> id in r.rows)
              && exists k :: 0 < k < |snaps| && snaps[k].id == id && snaps[k].created < w'.now - HotHorizon(c)
  {
    UntouchedRun(c, w, snaps, Apply(c, w, PList(snaps)), reading);
    SurvivesRun(c, w, snaps, r.rows.Keys, Apply(c, r, PReadSet), rest);
    forall id | id in Present(w, w') && id !in w'.hot ensures MayGo(c, snaps, r.rows.Keys, w'.now, id) {}
  }

  /** In particular what arrived after the listing is still there, and so is what no row
      recorded at the read. */
  lemma {:induction false} ArrivalsStay(c: Config, w: World, snaps: seq<Listed>, reading: seq<Action>, r: World, rest: seq<Action>, w': World, id: Id)
    requires PassFrom(c, w, snaps, reading, r, rest, w')
    requires (id in w'.ingested && id !in w.ingested && id !in w.hot) || (id in w.hot && c.offsiteOn && id !in r.rows)
    ensures id in w'.hot
  {
    SurvivingSet(c, w, snaps, reading, r, rest, w');
  }
}
