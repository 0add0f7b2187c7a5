/** The upload schedule beside hand-started passes and retention. Two scheduled passes that
    upload something should have a tick of the client's cron expression between them. A pass
    consults only the text-latest row, any number of hand-started workers write rows, and
    pruneOffsite deletes rows meanwhile, perhaps from a stale listing; this module proves when
    the schedule survives all that. SpentTick has the runs in which it does not. */
module Schedule {
  import opened Options
  import opened Timestamps
  import opened OffsiteModel
  import opened OffsiteProtocol
  import opened PassKnowledge
  import opened RecordImpliesObject

  /** sched.Next: the least tick after its argument. */
  ghost predicate IsNext(c: Config, t: nat, n: nat) {
    t < n && c.ticks(n) && forall m: nat :: t < m < n ==> !c.ticks(m)
  }

  /** The code's test `!sched.Next(*last).After(now)` is the due condition of the protocol. */
  lemma {:induction false} DueByNext(c: Config, last: nat, n: nat, now: nat)
    requires IsNext(c, last, n)
    ensures CronDue(c, Some(last), now) <==> n <= now
  {}

  /** When an idle worker may begin a pass. One started by hand, or one whose client has no cron
      expression, may always. A scheduled one asks for the latest upload first, and may begin if
      there is none or if the next tick after it has come. */
  lemma {:induction false} MayBegin(c: Config, w: World, u: nat, last: Option<nat>, next: nat)
    requires c.offsiteOn && u in c.uploaders && Up(w, u).UIdle? && LatestIs(w.rows, last)
    requires last.Some? ==> IsNext(c, last.value, next)
    ensures u !in c.scheduled || !c.hasCron ==> Enabled(c, w, UCheck(u))
    ensures u in c.scheduled && c.hasCron ==>
              && !Enabled(c, w, UCheck(u)) && Enabled(c, w, UAsk(u, last))
              && (Enabled(c, Apply(c, w, UAsk(u, last)), UCheck(u)) <==> w.rows == map[] || next <= w.now)
  {
    hide SortsBefore;
    if u in c.scheduled && c.hasCron {
      assert last.None? <==> w.rows == map[];
      if last.Some? { DueByNext(c, last.value, next, w.now); }
    }
  }

  ghost predicate TickBetween(c: Config, a: nat, b: nat) {
    exists tick: nat :: a < tick <= b && c.ticks(tick)
  }

  /** A cron expression has five fields, so it ticks on whole seconds. */
  ghost predicate WholeTicks(c: Config) {
    forall t: nat :: c.ticks(t) ==> t % NANOS_PER_SECOND == 0
  }

  /** A tick that follows an instant follows everything of the same second. */
  lemma {:induction false} TickFollows(last: nat, t: nat, tick: nat)
    requires WholeSecond(t) <= WholeSecond(last) && last < tick && tick % NANOS_PER_SECOND == 0
    ensures t < tick
  {}

  /** A row as late, to the second, as `t`. */
  ghost predicate RowNotBefore(rows: map<Id, Row>, t: nat) {
    exists id :: id in rows && WholeSecond(rows[id].uploadedAt) >= WholeSecond(t)
  }

  /** A due pass has a tick behind every row, although it looked at the text-latest one only. */
  lemma {:induction false} DueAfterTick(c: Config, rows: map<Id, Row>, last: nat, now: nat, t: nat)
    requires WholeTicks(c) && RowsInRange(rows) && CronDue(c, Some(last), now) && RowNotBefore(rows, t)
    ensures IsLatestOffsite(rows, last) ==> TickBetween(c, t, now)
  {
    if LatestIs(rows, Some(last)) {
      LatestHasLastSecond(rows, Some(last));
      var tick: nat :| last < tick <= now && c.ticks(tick);
      TickFollows(last, t, tick);
    }
  }

  // ---------- the condition ----------

  /** When the pruner can have forgotten a row listed with upload time `p` and written again at
      `x`, at the earliest. */
  function ForgottenBy(c: Config, x: nat, p: nat): (t: nat) { Max(x, p + ColdHorizon(c) + 1) }

  /** A tick can be spent twice: at the tick `x` an overlapping pass that is as old as `p` may
      upload once more, and no other tick comes before the pruner can forget that upload. */
  ghost predicate Spendable(c: Config) {
    exists x: nat, p: nat :: c.ticks(x) && p < x && MayOverlapBy(c, x - p) && InRange(ForgottenBy(c, x, p)) && !TickBetween(c, x, ForgottenBy(c, x, p))
  }

  ghost predicate ScheduleSafe(c: Config) { SingleUploader(c) || !ColdPruningOn(c) || !Spendable(c) }

  /** In particular passes that never overlap spend no tick twice. */
  lemma {:induction false} DisjointPassesSafe(c: Config)
    requires c.overlap.Bounded? && c.overlap.limit <= 0
    ensures ScheduleSafe(c)
  {}

  // ---------- the invariant ----------

  /** A tick has passed since the upload at `t`, or a row stands for it: none between them. */
  ghost predicate Covered(c: Config, rows: map<Id, Row>, now: nat, t: nat) {
    TickBetween(c, t, now) || exists id :: id in rows && !TickBetween(c, rows[id].uploadedAt, t)
  }

  ghost predicate UploadOk(c: Config, now: nat, passes: nat, rows: map<Id, Row>, e: Upload) {
    e.check <= e.obj.row.uploadedAt <= now && e.pass < passes && Covered(c, rows, now, e.obj.row.uploadedAt)
  }

  ghost predicate UploadsOk(c: Config, now: nat, passes: nat, rows: map<Id, Row>, uploads: set<Upload>) {
    forall e :: e in uploads && Gated(c, e.u) ==> UploadOk(c, now, passes, rows, e)
  }

  ghost predicate PassesApart(c: Config, uploads: set<Upload>) {
    forall e, f :: e in uploads && f in uploads && Gated(c, e.u) && Gated(c, f.u) && e.pass < f.pass ==>
      TickBetween(c, e.obj.row.uploadedAt, f.check)
  }

  /** The answer of LatestOffsite does not fall behind a scheduled upload, up to a tick. */
  ghost predicate AnswerOk(c: Config, now: nat, uploads: set<Upload>, last: Option<nat>) {
    forall e :: e in uploads && Gated(c, e.u) ==>
      TickBetween(c, e.obj.row.uploadedAt, now) || (last.Some? && !TickBetween(c, last.value, e.obj.row.uploadedAt))
  }

  /** The pass number and due time of a scheduled pass follow everything uploaded before it. */
  ghost predicate PassOk(c: Config, uploads: set<Upload>, pass: nat, check: nat) {
    forall e :: e in uploads && Gated(c, e.u) ==> e.pass <= pass && (e.pass < pass ==> TickBetween(c, e.obj.row.uploadedAt, check))
  }

  ghost predicate SchedulerOk(c: Config, now: nat, passes: nat, uploads: set<Upload>, up: Uploader) {
    && (up.UAsked? ==> AnswerOk(c, now, uploads, up.last))
    && (HasPass(up) ==> up.pass < passes && up.check <= now && PassOk(c, uploads, up.pass, up.check))
  }

  ghost predicate SchedulersOk(c: Config, w: World) {
    forall u :: u in w.ups && Gated(c, u) ==> SchedulerOk(c, w.now, w.passes, w.uploads, w.ups[u])
  }

  /** No listed row is later, to the second, than the first. */
  predicate FirstIsLatest(p: Pruner) {
    Listing(p) ==> forall k :: 0 <= k < |p.objs| ==> WholeSecond(p.objs[k].row.uploadedAt) <= WholeSecond(p.objs[0].row.uploadedAt)
  }

  ghost predicate ScheduleInv(c: Config, w: World) {
    && InRange(w.now) && RowsInRange(w.rows) && FirstIsLatest(w.pruner)
    && SchedulersOk(c, w) && UploadsOk(c, w.now, w.passes, w.rows, w.uploads) && PassesApart(c, w.uploads)
  }

  // ---------- a forgotten row ----------

  lemma {:induction false} LastTick(c: Config, a: nat, b: nat) returns (x: nat)
    requires TickBetween(c, a, b)
    ensures a < x <= b && c.ticks(x) && !TickBetween(c, x, b)
    decreases b
  {
    if c.ticks(b) {
      x := b;
    } else {
      var tick: nat :| a < tick <= b && c.ticks(tick);
      x := LastTick(c, a, b - 1);
    }
  }

  /** What the pruner knows of the row it forgets and of the protected first one. */
  ghost predicate Forgettable(c: Config, now: nat, met: set<nat>, rows: map<Id, Row>, o: Obj, first: Obj) {
    && o.id in rows && first.id in rows && o.id != first.id
    && first.row.uploadedAt <= rows[first.id].uploadedAt
    && WholeSecond(o.row.uploadedAt) <= WholeSecond(first.row.uploadedAt)
    && Drift(c, met, o.row.uploadedAt, rows[o.id].uploadedAt)
    && o.row.uploadedAt + ColdHorizon(c) + 1 <= now
  }

  /** Forgetting the row that stood for the upload at `t`: the first row stands for it, or a
      tick has passed. */
  lemma {:induction false} ForgetCovered(c: Config, now: nat, met: set<nat>, rows: map<Id, Row>, o: Obj, first: Obj, t: nat)
    requires WholeTicks(c) && ScheduleSafe(c) && ColdPruningOn(c) && (SingleUploader(c) ==> met == {})
    requires InRange(now) && t <= now && Forgettable(c, now, met, rows, o, first) && Covered(c, rows, now, t)
    ensures Covered(c, rows - {o.id}, now, t)
  {
    var rows' := rows - {o.id};
    if !TickBetween(c, t, now) {
      var id :| id in rows && !TickBetween(c, rows[id].uploadedAt, t);
      if id != o.id {
        assert id in rows' && rows'[id] == rows[id];
      } else if !TickBetween(c, rows[first.id].uploadedAt, t) {
        assert first.id in rows' && rows'[first.id] == rows[first.id];
      } else {
        var x := LastTick(c, rows[first.id].uploadedAt, t);
        TickFollows(rows[first.id].uploadedAt, o.row.uploadedAt, x);
        NoSpare(c, now, met, o.row.uploadedAt, rows[o.id].uploadedAt, x, t);
      }
    }
  }

  /** The row was listed before the tick `x` and written again after it. */
  lemma {:induction false} NoSpare(c: Config, now: nat, met: set<nat>, listed: nat, current: nat, x: nat, t: nat)
    requires ScheduleSafe(c) && ColdPruningOn(c) && (SingleUploader(c) ==> met == {}) && InRange(now)
    requires c.ticks(x) && listed < x <= t <= now && !TickBetween(c, x, t) && !TickBetween(c, current, t)
    requires Drift(c, met, listed, current) && listed + ColdHorizon(c) + 1 <= now
    ensures TickBetween(c, t, now)
  {
    assert x <= current;
    var end := ForgottenBy(c, x, listed);
    assert MayOverlapBy(c, x - listed) && end <= now && InRange(end);
    assert TickBetween(c, x, end);
    var y: nat :| x < y <= end && c.ticks(y);
    assert t < y <= now;
  }

  lemma {:induction false} ForgetStep(c: Config, w: World)
    requires WholeTicks(c) && ScheduleSafe(c) && Inv(c, w) && ScheduleInv(c, w) && Enabled(c, w, PForget)
    ensures ScheduleInv(c, Apply(c, w, PForget))
  {
    var o, first := w.pruner.objs[w.pruner.i], w.pruner.objs[0];
    assert Live(w.pruner, w.pruner.i) && Live(w.pruner, 0);
    assert ListedRowOk(c, w, o) && ListedRowOk(c, w, first);
    assert Forgettable(c, w.now, w.met, w.rows, o, first);
    forall e | e in w.uploads && Gated(c, e.u) ensures UploadOk(c, w.now, w.passes, w.rows - {o.id}, e) {
      assert UploadOk(c, w.now, w.passes, w.rows, e);
      ForgetCovered(c, w.now, w.met, w.rows, o, first, e.obj.row.uploadedAt);
    }
  }

  // ---------- a new row ----------

  /** A new row stands for everything uploaded so far. */
  lemma {:induction false} RecordUploads(c: Config, now: nat, passes: nat, rows: map<Id, Row>, uploads: set<Upload>, written: Upload)
    requires UploadsOk(c, now, passes, rows, uploads)
    requires written.obj.row.uploadedAt == now && (Gated(c, written.u) ==> written.check <= now && written.pass < passes)
    ensures UploadsOk(c, now, passes, rows[written.obj.id := written.obj.row], uploads + {written})
  {
    var rows' := rows[written.obj.id := written.obj.row];
    forall e | e in uploads + {written} && Gated(c, e.u) ensures UploadOk(c, now, passes, rows', e) {
      assert e in uploads ==> UploadOk(c, now, passes, rows, e);
      assert written.obj.id in rows' && !TickBetween(c, rows'[written.obj.id].uploadedAt, e.obj.row.uploadedAt);
    }
  }

  lemma {:induction false} RecordApart(c: Config, uploads: set<Upload>, written: Upload)
    requires PassesApart(c, uploads) && (Gated(c, written.u) ==> PassOk(c, uploads, written.pass, written.check))
    ensures PassesApart(c, uploads + {written})
    ensures Gated(c, written.u) ==> PassOk(c, uploads + {written}, written.pass, written.check)
  {}

  lemma {:induction false} OthersKept(c: Config, now: nat, passes: nat, uploads: set<Upload>, written: Upload, up: Uploader)
    requires !Gated(c, written.u) && SchedulerOk(c, now, passes, uploads, up)
    ensures SchedulerOk(c, now, passes, uploads + {written}, up)
  {}

  lemma {:induction false} RecordStep(c: Config, w: World, u: nat)
    requires OneSchedule(c) && ScheduleInv(c, w) && Enabled(c, w, URecord(u))
    ensures ScheduleInv(c, Apply(c, w, URecord(u)))
  {
    var w' := Apply(c, w, URecord(u));
    var id := Current(w.ups[u]);
    var written := Upload(Obj(id, w'.rows[id]), u, w.ups[u].pass, w.ups[u].check);
    assert w'.rows == w.rows[id := written.obj.row] && w'.uploads == w.uploads + {written} && w'.now == w.now && w'.passes == w.passes;
    assert Gated(c, u) ==> SchedulerOk(c, w.now, w.passes, w.uploads, w.ups[u]);
    RecordUploads(c, w.now, w.passes, w.rows, w.uploads, written);
    RecordApart(c, w.uploads, written);
    forall v | v in w'.ups && Gated(c, v) ensures SchedulerOk(c, w'.now, w'.passes, w'.uploads, w'.ups[v]) {
      assert SchedulerOk(c, w.now, w.passes, w.uploads, w.ups[v]);
      if v != u { OthersKept(c, w.now, w.passes, w.uploads, written, w.ups[v]); }
    }
  }

  // ---------- asking and checking ----------

  lemma {:induction false} AskAnswer(c: Config, now: nat, passes: nat, rows: map<Id, Row>, uploads: set<Upload>, last: Option<nat>)
    requires WholeTicks(c) && UploadsOk(c, now, passes, rows, uploads) && LastSecond(rows, last)
    ensures AnswerOk(c, now, uploads, last)
  {
    forall e | e in uploads && Gated(c, e.u)
      ensures TickBetween(c, e.obj.row.uploadedAt, now) || (last.Some? && !TickBetween(c, last.value, e.obj.row.uploadedAt))
    {
      assert UploadOk(c, now, passes, rows, e);
      if !TickBetween(c, e.obj.row.uploadedAt, now) {
        var id :| id in rows && !TickBetween(c, rows[id].uploadedAt, e.obj.row.uploadedAt);
        LatestFollows(c, last.value, rows[id].uploadedAt, e.obj.row.uploadedAt);
      }
    }
  }

  lemma {:induction false} LatestFollows(c: Config, last: nat, row: nat, t: nat)
    requires WholeTicks(c) && WholeSecond(row) <= WholeSecond(last) && !TickBetween(c, row, t)
    ensures !TickBetween(c, last, t)
  {
    if TickBetween(c, last, t) {
      var tick: nat :| last < tick <= t && c.ticks(tick);
      TickFollows(last, row, tick);
    }
  }

  /** A pass that is due starts with a tick behind everything scheduled passes uploaded. */
  lemma {:induction false} CheckPass(c: Config, now: nat, passes: nat, rows: map<Id, Row>, uploads: set<Upload>, last: Option<nat>)
    requires UploadsOk(c, now, passes, rows, uploads) && AnswerOk(c, now, uploads, last) && CronDue(c, last, now)
    ensures PassOk(c, uploads, passes, now)
  {
    forall e | e in uploads && Gated(c, e.u) ensures e.pass < passes && TickBetween(c, e.obj.row.uploadedAt, now) {
      assert UploadOk(c, now, passes, rows, e);
      if last.Some? {
        var tick: nat :| last.value < tick <= now && c.ticks(tick);
        assert tick <= e.obj.row.uploadedAt ==> TickBetween(c, last.value, e.obj.row.uploadedAt);
      }
    }
  }

  lemma {:induction false} MorePasses(c: Config, now: nat, passes: nat, rows: map<Id, Row>, uploads: set<Upload>)
    requires UploadsOk(c, now, passes, rows, uploads)
    ensures UploadsOk(c, now, passes + 1, rows, uploads)
  {
    forall e | e in uploads && Gated(c, e.u) ensures UploadOk(c, now, passes + 1, rows, e) { assert UploadOk(c, now, passes, rows, e); }
  }

  lemma {:induction false} AskFrame(c: Config, w: World, u: nat, last: Option<nat>, w': World)
    requires ScheduleInv(c, w) && AnswerOk(c, w.now, w.uploads, last) && w' == w.(ups := w.ups[u := UAsked(last)])
    ensures ScheduleInv(c, w')
  {
    forall v | v in w'.ups && Gated(c, v) ensures SchedulerOk(c, w.now, w.passes, w.uploads, w'.ups[v]) {
      if v != u { assert SchedulerOk(c, w.now, w.passes, w.uploads, w.ups[v]); }
    }
  }

  lemma {:induction false} CheckStep(c: Config, w: World, u: nat)
    requires ScheduleInv(c, w) && Enabled(c, w, UCheck(u))
    ensures ScheduleInv(c, Apply(c, w, UCheck(u)))
  {
    var w' := Apply(c, w, UCheck(u));
    MorePasses(c, w.now, w.passes, w.rows, w.uploads);
    forall v | v in w'.ups && Gated(c, v) ensures SchedulerOk(c, w'.now, w'.passes, w'.uploads, w'.ups[v]) {
      if v == u {
        assert SchedulerOk(c, w.now, w.passes, w.uploads, w.ups[u]);
        CheckPass(c, w.now, w.passes, w.rows, w.uploads, w.ups[u].last);
      } else {
        assert w'.ups[v] == w.ups[v] && SchedulerOk(c, w.now, w.passes, w.uploads, w.ups[v]);
      }
    }
  }

  // ---------- the other steps ----------

  /** The steps of a pass that write no row. */
  predicate MidPass(a: Action) {
    a.UList? || a.URead? || a.USkip? || a.UPrepare? || a.ULookup? || a.UUpload? || a.UStop?
  }

  lemma {:induction false} MidPassFrame(c: Config, w: World, a: Action)
    requires MidPass(a) && Enabled(c, w, a)
    ensures var w' := Apply(c, w, a);
            && w'.now == w.now && w'.passes == w.passes && w'.rows == w.rows && w'.uploads == w.uploads && w'.pruner == w.pruner
            && a.u in w.ups && a.u in w'.ups && w'.ups.Keys == w.ups.Keys
            && (forall v :: v in w.ups && v != a.u ==> w'.ups[v] == w.ups[v])
  {}

  lemma {:induction false} MidPassUp(c: Config, w: World, a: Action)
    requires MidPass(a) && Enabled(c, w, a) && a.u in w.ups
    ensures var w' := Apply(c, w, a);
            && a.u in w'.ups && !w'.ups[a.u].UAsked?
            && (HasPass(w'.ups[a.u]) ==> HasPass(w.ups[a.u]) && w'.ups[a.u].pass == w.ups[a.u].pass && w'.ups[a.u].check == w.ups[a.u].check)
  {}

  lemma {:induction false} MidPassStep(c: Config, w: World, a: Action)
    requires ScheduleInv(c, w) && MidPass(a) && Enabled(c, w, a)
    ensures ScheduleInv(c, Apply(c, w, a))
  {
    var w' := Apply(c, w, a);
    MidPassFrame(c, w, a);
    MidPassUp(c, w, a);
    forall v | v in w'.ups && Gated(c, v) ensures SchedulerOk(c, w'.now, w'.passes, w'.uploads, w'.ups[v]) {
      assert SchedulerOk(c, w.now, w.passes, w.uploads, w.ups[v]);
    }
  }

  lemma {:induction false} QueryStep(c: Config, w: World, objs: seq<Obj>)
    requires ScheduleInv(c, w) && Enabled(c, w, PQuery(objs))
    ensures ScheduleInv(c, Apply(c, w, PQuery(objs)))
  {
    forall k | 0 <= k < |objs| ensures WholeSecond(objs[k].row.uploadedAt) <= WholeSecond(objs[0].row.uploadedAt) {
      assert objs[0].id in w.rows && objs[k].id in w.rows;
      if k > 0 { SortedSeconds(objs[0].row.uploadedAt, objs[k].row.uploadedAt); }
    }
  }

  predicate QuietPruner(a: Action) {
    a.PList? || a.PReadSet? || a.PCutoff? || a.PKeep? || a.PPurge? || a.PHotStart? || a.PHotKeep? || a.PHotDelete? || a.PStop? || a.Ingest?
  }

  lemma {:induction false} QuietPrunerFrame(c: Config, w: World, a: Action)
    requires QuietPruner(a) && Enabled(c, w, a)
    ensures var w' := Apply(c, w, a);
            && w'.now == w.now && w'.passes == w.passes && w'.rows == w.rows && w'.uploads == w.uploads && w'.ups == w.ups
            && (Listing(w'.pruner) ==> Listing(w.pruner) && w'.pruner.objs == w.pruner.objs)
  {}

  lemma {:induction false} LaterCovered(c: Config, rows: map<Id, Row>, now: nat, now': nat, t: nat)
    requires Covered(c, rows, now, t) && now <= now'
    ensures Covered(c, rows, now', t)
  {
    if TickBetween(c, t, now) { LaterTick(c, t, now, now'); }
  }

  lemma {:induction false} LaterTick(c: Config, t: nat, now: nat, now': nat)
    requires TickBetween(c, t, now) && now <= now'
    ensures TickBetween(c, t, now')
  {
    var tick: nat :| t < tick <= now && c.ticks(tick);
    assert t < tick <= now';
  }

  lemma {:induction false} TickStep(c: Config, w: World, delta: nat)
    requires ScheduleInv(c, w) && Enabled(c, w, Tick(delta))
    ensures ScheduleInv(c, Apply(c, w, Tick(delta)))
  {
    var now' := w.now + delta;
    forall e | e in w.uploads && Gated(c, e.u) ensures UploadOk(c, now', w.passes, w.rows, e) {
      assert UploadOk(c, w.now, w.passes, w.rows, e);
      LaterCovered(c, w.rows, w.now, now', e.obj.row.uploadedAt);
    }
    forall u | u in w.ups && Gated(c, u) ensures SchedulerOk(c, now', w.passes, w.uploads, w.ups[u]) {
      assert SchedulerOk(c, w.now, w.passes, w.uploads, w.ups[u]);
      if w.ups[u].UAsked? { LaterAnswer(c, w.now, now', w.uploads, w.ups[u].last); }
    }
  }

  lemma {:induction false} LaterAnswer(c: Config, now: nat, now': nat, uploads: set<Upload>, last: Option<nat>)
    requires AnswerOk(c, now, uploads, last) && now <= now'
    ensures AnswerOk(c, now', uploads, last)
  {
    forall e | e in uploads && Gated(c, e.u) && TickBetween(c, e.obj.row.uploadedAt, now)
      ensures TickBetween(c, e.obj.row.uploadedAt, now')
    {
      LaterTick(c, e.obj.row.uploadedAt, now, now');
    }
  }

  lemma {:induction false} ScheduleStep(c: Config, w: World, a: Action)
    requires OneSchedule(c) && WholeTicks(c) && ScheduleSafe(c) && Inv(c, w) && ScheduleInv(c, w) && Enabled(c, w, a)
    ensures ScheduleInv(c, Apply(c, w, a))
  {
    if a.Tick? { TickStep(c, w, a.delta); }
    else if a.UAsk? {
      LatestHasLastSecond(w.rows, a.last);
      AskAnswer(c, w.now, w.passes, w.rows, w.uploads, a.last);
      AskFrame(c, w, a.u, a.last, Apply(c, w, a));
    }
    else if a.UCheck? { CheckStep(c, w, a.u); }
    else if a.URecord? { RecordStep(c, w, a.u); }
    else if MidPass(a) { MidPassStep(c, w, a); }
    else if a.PQuery? { QueryStep(c, w, a.objs); }
    else if a.PForget? { ForgetStep(c, w); }
    else { QuietPrunerFrame(c, w, a); }
  }

  lemma {:induction false} ScheduleKept(c: Config, w: World, run: seq<Action>)
    requires OneSchedule(c) && WholeTicks(c) && ScheduleSafe(c) && Inv(c, w) && ScheduleInv(c, w) && CanRun(c, w, run)
    ensures ScheduleInv(c, After(c, w, run))
    decreases |run|
  {
    if run != [] {
      PassKnowledge.Step(c, w, run[0]);
      ScheduleStep(c, w, run[0]);
      ScheduleKept(c, Apply(c, w, run[0]), run[1..]);
    }
  }

  /** Two uploads of different scheduled passes have a tick between the first upload and the
      start of the second pass, whatever hand-started passes run meanwhile, if rows are never
      deleted, if passes never overlap, or generally if no tick can be spent twice. */
  lemma {:induction false} TickBetweenUploadingPasses(c: Config, w: World, e: Upload, f: Upload)
    requires OneSchedule(c) && WholeTicks(c) && ScheduleSafe(c) && Reachable(c, w)
    requires e in w.uploads && f in w.uploads && Gated(c, e.u) && Gated(c, f.u) && e.pass < f.pass
    ensures exists tick: nat :: c.ticks(tick) && e.obj.row.uploadedAt < tick <= f.check <= f.obj.row.uploadedAt
  {
    var w0: World, run: seq<Action> :| Init(w0) && CanRun(c, w0, run) && After(c, w0, run) == w;
    ScheduleKept(c, w0, run);
    assert TickBetween(c, e.obj.row.uploadedAt, f.check);
    assert UploadOk(c, w.now, w.passes, w.rows, f);
  }
}
