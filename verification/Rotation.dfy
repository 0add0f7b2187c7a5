/** Credential rotation by compare-and-swap: requests read the client's version, generate new
    credentials, and update the row only if the version is still the one they read. An update
    that hits no row is followed by a second statement that tells a conflict from a deleted
    client. */
module Rotation {
  import opened Options

  datatype Creds = Creds(pubKey: string, tokenHash: string, tokenPrefix: string)

  datatype Row = Row(creds: Creds, version: nat)

  datatype Outcome = Rotated | Conflict | NotFound

  /** A rotation request; `seen` counts the rotations committed before its read, `missed` those
      committed before its update failed. */
  datatype Request =
    | HasRead(version: nat, seen: nat)
    | Missed(version: nat, seen: nat, missed: nat)
    | Finished(outcome: Outcome, version: nat, seen: nat, missed: nat)

  datatype Commit = Commit(req: nat, version: nat, creds: Creds)

  datatype World = World(
    row: Option<Row>,
    requests: map<nat, Request>,
    first: Row,            // the row as it was at the start
    log: seq<Commit>)      // committed rotations, in order

  datatype Action = Read(r: nat) | Update(r: nat, creds: Creds) | Disambiguate(r: nat) | Delete

  predicate Enabled(w: World, a: Action) {
    match a
    case Read(r) => r !in w.requests && w.row.Some?
    case Update(r, _) => r in w.requests && w.requests[r].HasRead?
    case Disambiguate(r) => r in w.requests && w.requests[r].Missed?
    case Delete => true
  }

  function Apply(w: World, a: Action): (w': World)
    requires Enabled(w, a)
  {
    match a
    case Read(r) => w.(requests := w.requests[r := HasRead(w.row.value.version, |w.log|)])
    case Update(r, creds) =>
      var q := w.requests[r];
      if w.row.Some? && w.row.value.version == q.version then
        w.(row := Some(Row(creds, w.row.value.version + 1)),
           requests := w.requests[r := Finished(Rotated, q.version, q.seen, |w.log|)],
           log := w.log + [Commit(r, q.version, creds)])
      else w.(requests := w.requests[r := Missed(q.version, q.seen, |w.log|)])
    case Disambiguate(r) =>
      var q := w.requests[r];
      w.(requests := w.requests[r := Finished(if w.row.None? then NotFound else Conflict, q.version, q.seen, q.missed)])
    case Delete => w.(row := None)
  }

  predicate Init(w: World) {
    w.row == Some(w.first) && w.requests == map[] && w.log == []
  }

  predicate CanRun(w: World, run: seq<Action>)
    decreases |run|
  {
    run == [] || (Enabled(w, run[0]) && CanRun(Apply(w, run[0]), run[1..]))
  }

  function After(w: World, run: seq<Action>): (w': World)
    requires CanRun(w, run)
    decreases |run|
  {
    if run == [] then w else After(Apply(w, run[0]), run[1..])
  }

  ghost predicate Reachable(w: World) {
    exists w0, run :: Init(w0) && CanRun(w0, run) && After(w0, run) == w
  }

  /** The row after the rotations committed so far, one after the other. */
  function Replayed(first: Row, log: seq<Commit>): (row: Row) {
    if log == [] then first else Row(log[|log| - 1].creds, first.version + |log|)
  }

  ghost predicate Inv(w: World) {
    && (w.row.Some? ==> w.row.value == Replayed(w.first, w.log))
    && (forall i :: 0 <= i < |w.log| ==> w.log[i].version == w.first.version + i)
    && (forall i :: 0 <= i < |w.log| ==> w.log[i].req in w.requests && w.requests[w.log[i].req].Finished?)
    && (forall r :: r in w.requests ==> w.requests[r].version == w.first.version + w.requests[r].seen && w.requests[r].seen <= |w.log|)
    && (forall r :: r in w.requests && !w.requests[r].HasRead? ==> w.requests[r].missed <= |w.log|)
    && (forall r :: r in w.requests && w.requests[r].Missed? && w.row.Some? ==> w.requests[r].seen < w.requests[r].missed)
    && (forall r :: r in w.requests && w.requests[r].Finished? && w.requests[r].outcome.Conflict? ==>
          w.requests[r].seen < w.requests[r].missed)
    && (forall r :: r in w.requests && w.requests[r].Finished? && w.requests[r].outcome.Rotated? ==>
          w.requests[r].missed < |w.log| && w.log[w.requests[r].missed].req == r && w.requests[r].seen == w.requests[r].missed)
    && (forall r :: r in w.requests && w.requests[r].Finished? && w.requests[r].outcome.NotFound? ==> w.row.None?)
  }

  lemma {:induction false} CommitStep(w: World, r: nat, creds: Creds)
    requires Inv(w) && Enabled(w, Update(r, creds)) && w.row.Some? && w.row.value.version == w.requests[r].version
    ensures Inv(Apply(w, Update(r, creds)))
  {
    var w' := Apply(w, Update(r, creds));
    assert forall s :: s in w'.requests && s != r ==> s in w.requests && w'.requests[s] == w.requests[s];
  }

  lemma {:induction false} MissStep(w: World, r: nat, creds: Creds)
    requires Inv(w) && Enabled(w, Update(r, creds)) && !(w.row.Some? && w.row.value.version == w.requests[r].version)
    ensures Inv(Apply(w, Update(r, creds)))
  {
    var w' := Apply(w, Update(r, creds));
    assert forall s :: s in w'.requests && s != r ==> s in w.requests && w'.requests[s] == w.requests[s];
  }

  lemma {:induction false} DisambiguateStep(w: World, r: nat)
    requires Inv(w) && Enabled(w, Disambiguate(r))
    ensures Inv(Apply(w, Disambiguate(r)))
  {
    var w' := Apply(w, Disambiguate(r));
    assert forall s :: s in w'.requests && s != r ==> s in w.requests && w'.requests[s] == w.requests[s];
  }

  lemma {:induction false} Step(w: World, a: Action)
    requires Inv(w) && Enabled(w, a)
    ensures Inv(Apply(w, a))
  {
    match a {
      case Read(_) =>
      case Update(r, creds) =>
        if w.row.Some? && w.row.value.version == w.requests[r].version { CommitStep(w, r, creds); } else { MissStep(w, r, creds); }
      case Disambiguate(r) => DisambiguateStep(w, r);
      case Delete =>
    }
  }

  lemma {:induction false} RunKeeps(w: World, run: seq<Action>)
    requires Inv(w) && CanRun(w, run)
    ensures Inv(After(w, run))
    decreases |run|
  {
    if run != [] {
      Step(w, run[0]);
      RunKeeps(Apply(w, run[0]), run[1..]);
    }
  }

  lemma {:induction false} ReachableInv(w: World)
    requires Reachable(w)
    ensures Inv(w)
  {
    var w0, run :| Init(w0) && CanRun(w0, run) && After(w0, run) == w;
    RunKeeps(w0, run);
  }

  /** Rotations linearise: the version is its start plus the number of successes, the stored
      credentials are those of the last one, and the k-th success had read the version that the
      one before it wrote. */
  lemma {:induction false} Linearises(w: World)
    requires Reachable(w)
    ensures w.row.Some? ==> w.row.value.version == w.first.version + |w.log|
    ensures w.row.Some? ==> w.row.value.creds == if w.log == [] then w.first.creds else w.log[|w.log| - 1].creds
    ensures forall i :: 0 <= i < |w.log| ==> w.log[i].version == w.first.version + i
  {
    ReachableInv(w);
  }

  /** Of two requests that read the same version at most one succeeds. */
  lemma {:induction false} SameVersionOneWinner(w: World, r: nat, s: nat)
    requires Reachable(w) && r in w.requests && s in w.requests
    requires w.requests[r].version == w.requests[s].version
    requires w.requests[r].Finished? && w.requests[r].outcome.Rotated?
    requires w.requests[s].Finished? && w.requests[s].outcome.Rotated?
    ensures r == s
  {
    ReachableInv(w);
  }

  /** A conflict is reported only if another rotation committed between the request's read and
      its update; "not found" only if the client has been deleted. */
  lemma {:induction false} ConflictIsReal(w: World, r: nat)
    requires Reachable(w) && r in w.requests && w.requests[r].Finished?
    ensures w.requests[r].outcome.Conflict? ==>
              w.requests[r].seen < w.requests[r].missed <= |w.log| && w.log[w.requests[r].seen].req != r
    ensures w.requests[r].outcome.NotFound? ==> w.row.None?
  {
    ReachableInv(w);
    var q := w.requests[r];
    if q.outcome.Conflict? && w.log[q.seen].req == r {
      assert w.log[q.seen].version == w.first.version + q.seen;
      ConflictNeverCommits(w, r, q.seen);
    }
  }

  ghost predicate CommitsAreWinners(w: World) {
    forall i :: 0 <= i < |w.log| ==>
      w.log[i].req in w.requests && w.requests[w.log[i].req].Finished? && w.requests[w.log[i].req].outcome.Rotated?
  }

  lemma {:induction false} WinnersKept(w: World, run: seq<Action>)
    requires CommitsAreWinners(w) && CanRun(w, run)
    ensures CommitsAreWinners(After(w, run))
    decreases |run|
  {
    if run != [] { WinnersKept(Apply(w, run[0]), run[1..]); }
  }

  lemma {:induction false} ConflictNeverCommits(w: World, r: nat, i: nat)
    requires Reachable(w) && r in w.requests && w.requests[r].Finished? && w.requests[r].outcome.Conflict?
    requires i < |w.log|
    ensures w.log[i].req != r
  {
    var w0, run :| Init(w0) && CanRun(w0, run) && After(w0, run) == w;
    WinnersKept(w0, run);
  }

  /** Without a commit in between and with the client still there, the update succeeds. */
  lemma {:induction false} UncontendedSucceeds(w: World, r: nat, creds: Creds)
    requires Reachable(w) && Enabled(w, Update(r, creds)) && w.row.Some? && w.requests[r].seen == |w.log|
    ensures var w' := Apply(w, Update(r, creds));
            w'.requests[r].Finished? && w'.requests[r].outcome.Rotated? && w'.row == Some(Row(creds, w.row.value.version + 1))
  {
    ReachableInv(w);
  }

  /** A call of RotateClientCreds that nothing interrupts: the update, and the second statement
      if the update hits no row. */
  function Uninterrupted(w: World, r: nat, creds: Creds): (w': World)
    requires Enabled(w, Update(r, creds))
    ensures r in w'.requests && w'.requests[r].Finished?
  {
    var w1 := Apply(w, Update(r, creds));
    if w1.requests[r].Missed? then Apply(w1, Disambiguate(r)) else w1
  }

  /** It succeeds exactly if the client is still there and nothing has committed since the
      request's read, and finds nothing exactly if the client is gone. */
  lemma {:induction false} OutcomeDecided(w: World, r: nat, creds: Creds)
    requires Reachable(w) && Enabled(w, Update(r, creds))
    ensures var q := Uninterrupted(w, r, creds).requests[r];
            && (q.outcome.Rotated? <==> w.row.Some? && w.requests[r].seen == |w.log|)
            && (q.outcome.NotFound? <==> w.row.None?)
  {
    ReachableInv(w);
  }

  /** The clients table, as far as one client is concerned. */
  class ClientTable {
    var row: Option<Row>

    constructor (creds: Creds)
      ensures row == Some(Row(creds, 1))
    {
      row := Some(Row(creds, 1));
    }

    /** The call and the protocol do the same: `w` is any state of the protocol that agrees with
        the table, `r` a request that has read `oldVersion`. */
    method RotateClientCreds(newCreds: Creds, oldVersion: nat, ghost w: World, ghost r: nat) returns (outcome: Outcome)
      requires w.row == row && Enabled(w, Update(r, newCreds)) && w.requests[r].version == oldVersion
      modifies this
      ensures row == Uninterrupted(w, r, newCreds).row
      ensures outcome == Uninterrupted(w, r, newCreds).requests[r].outcome
    {
      var hits := 0;
      if row.Some? && row.value.version == oldVersion {
        row := Some(Row(newCreds, row.value.version + 1));
        hits := 1;
      }
      if hits == 0 { return if row.None? then NotFound else Conflict; }
      return Rotated;
    }
  }
}
