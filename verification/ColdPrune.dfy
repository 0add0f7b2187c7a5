/** What one pruneOffsite pass does to the rows and the remote, as a function of the rows it
    listed and of which calls fail. */
module ColdPrune {
  import opened Timestamps
  import opened OffsiteModel

  /** Which remote deletion and which row deletion fails. */
  datatype Env = Env(deleteFails: Id -> bool, forgetFails: Id -> bool)

  datatype Result = Result(rows: map<Id, Row>, remote: map<string, Content>, ok: bool)

  /** Past the horizon, and not the protected first row. */
  predicate Due(objs: seq<Obj>, cutoff: int, j: int) {
    0 < j < |objs| && objs[j].row.uploadedAt < cutoff
  }

  function ColdLoop(c: Config, env: Env, objs: seq<Obj>, i: nat, cutoff: int, rows: map<Id, Row>, remote: map<string, Content>): (r: Result)
    requires i <= |objs|
    decreases |objs| - i
  {
    if i == |objs| then Result(rows, remote, true)
    else if !Due(objs, cutoff, i) then ColdLoop(c, env, objs, i + 1, cutoff, rows, remote)
    else
      var id := objs[i].id;
      if env.deleteFails(id) then Result(rows, remote, false)
      else
        var remote' := remote - {ObjectPath(c, id)};
        if env.forgetFails(id) then Result(rows, remote', false)
        else ColdLoop(c, env, objs, i + 1, cutoff, rows - {id}, remote')
  }

  /** The due ids, and their objects, among the first `k` listed rows. */
  ghost function DueIds(objs: seq<Obj>, cutoff: int, i: nat, k: nat): (ids: set<Id>) {
    set j | i <= j < k && Due(objs, cutoff, j) :: objs[j].id
  }

  ghost function DuePaths(c: Config, objs: seq<Obj>, cutoff: int, i: nat, k: nat): (paths: set<string>) {
    set j | i <= j < k && Due(objs, cutoff, j) :: ObjectPath(c, objs[j].id)
  }

  /** The pass worked through the rows up to `k` and, if it failed, perhaps deleted one object
      more than rows. */
  ghost predicate WorkedTo(c: Config, objs: seq<Obj>, i: nat, k: nat, cutoff: int, rows: map<Id, Row>, remote: map<string, Content>, r: Result) {
    && i <= k <= |objs|
    && r.rows == rows - DueIds(objs, cutoff, i, k)
    && (r.remote == remote - DuePaths(c, objs, cutoff, i, k) ||
        (!r.ok && Due(objs, cutoff, k) && r.remote == remote - DuePaths(c, objs, cutoff, i, k + 1)))
    && (r.ok ==> k == |objs|)
  }

  lemma {:induction false} DueExtend(c: Config, objs: seq<Obj>, cutoff: int, i: nat, k: nat)
    requires i < k <= |objs|
    ensures DueIds(objs, cutoff, i, k) == (if Due(objs, cutoff, i) then {objs[i].id} else {}) + DueIds(objs, cutoff, i + 1, k)
    ensures DuePaths(c, objs, cutoff, i, k) == (if Due(objs, cutoff, i) then {ObjectPath(c, objs[i].id)} else {}) + DuePaths(c, objs, cutoff, i + 1, k)
  {}

  lemma {:induction false} RemoveTwice<K, V>(m: map<K, V>, a: K, b: set<K>)
    ensures m - {a} - b == m - ({a} + b)
  {}

  lemma {:induction false} WorkedOnKept(c: Config, objs: seq<Obj>, i: nat, k: nat, cutoff: int, rows: map<Id, Row>, remote: map<string, Content>, r: Result)
    requires i < |objs| && !Due(objs, cutoff, i) && WorkedTo(c, objs, i + 1, k, cutoff, rows, remote, r)
    ensures WorkedTo(c, objs, i, k, cutoff, rows, remote, r)
  {
    DueExtend(c, objs, cutoff, i, k);
    if k < |objs| { DueExtend(c, objs, cutoff, i, k + 1); }
  }

  lemma {:induction false} WorkedOnDue(c: Config, objs: seq<Obj>, i: nat, k: nat, cutoff: int, rows: map<Id, Row>, remote: map<string, Content>, r: Result)
    requires i < |objs| && Due(objs, cutoff, i)
    requires WorkedTo(c, objs, i + 1, k, cutoff, rows - {objs[i].id}, remote - {ObjectPath(c, objs[i].id)}, r)
    ensures WorkedTo(c, objs, i, k, cutoff, rows, remote, r)
  {
    var id, path := objs[i].id, ObjectPath(c, objs[i].id);
    DueExtend(c, objs, cutoff, i, k);
    RemoveTwice(rows, id, DueIds(objs, cutoff, i + 1, k));
    RemoveTwice(remote, path, DuePaths(c, objs, cutoff, i + 1, k));
    if k < |objs| {
      DueExtend(c, objs, cutoff, i, k + 1);
      RemoveTwice(remote, path, DuePaths(c, objs, cutoff, i + 1, k + 1));
    }
  }

  /** Every pass removes exactly the due rows and objects of a prefix of its listing: all of it
      if it succeeds, and with at most one object gone ahead of its row if it fails. */
  lemma {:induction false} LoopRemovesPrefix(c: Config, env: Env, objs: seq<Obj>, i: nat, cutoff: int, rows: map<Id, Row>, remote: map<string, Content>)
    returns (k: nat)
    requires i <= |objs|
    ensures WorkedTo(c, objs, i, k, cutoff, rows, remote, ColdLoop(c, env, objs, i, cutoff, rows, remote))
    decreases |objs| - i
  {
    var r := ColdLoop(c, env, objs, i, cutoff, rows, remote);
    if i == |objs| {
      k := i;
      assert DueIds(objs, cutoff, i, i) == {} && DuePaths(c, objs, cutoff, i, i) == {};
    } else if !Due(objs, cutoff, i) {
      k := LoopRemovesPrefix(c, env, objs, i + 1, cutoff, rows, remote);
      WorkedOnKept(c, objs, i, k, cutoff, rows, remote, r);
    } else if env.deleteFails(objs[i].id) || env.forgetFails(objs[i].id) {
      k := i;
      assert DueIds(objs, cutoff, i, i) == {} && DuePaths(c, objs, cutoff, i, i) == {};
      DueExtend(c, objs, cutoff, i, i + 1);
      assert DuePaths(c, objs, cutoff, i + 1, i + 1) == {};
    } else {
      k := LoopRemovesPrefix(c, env, objs, i + 1, cutoff, rows - {objs[i].id}, remote - {ObjectPath(c, objs[i].id)});
      WorkedOnDue(c, objs, i, k, cutoff, rows, remote, r);
    }
  }

  /** What a listed row's own data says of its being due. */
  lemma {:induction false} DueByRow(objs: seq<Obj>, rows: map<Id, Row>, cutoff: int, id: Id)
    requires RowsNewestFirst(objs, rows)
    ensures id in DueIds(objs, cutoff, 0, |objs|) <==> id in rows && rows[id].uploadedAt < cutoff && objs[0].id != id
  {
    hide SortsBefore;
    if id in rows {
      var i :| 0 <= i < |objs| && objs[i].id == id;
      assert Due(objs, cutoff, i) <==> rows[id].uploadedAt < cutoff && objs[0].id != id;
    }
  }

  lemma {:induction false} PathsOfIds(c: Config, objs: seq<Obj>, cutoff: int, id: Id)
    ensures ObjectPath(c, id) in DuePaths(c, objs, cutoff, 0, |objs|) <==> id in DueIds(objs, cutoff, 0, |objs|)
  {
    hide ObjectPath;
    forall j | 0 <= j < |objs| && ObjectPath(c, objs[j].id) == ObjectPath(c, id) ensures objs[j].id == id { ObjectPathInjective(c, objs[j].id, id); }
  }

  lemma {:induction false} NoFailure(c: Config, env: Env, objs: seq<Obj>, i: nat, cutoff: int, rows: map<Id, Row>, remote: map<string, Content>)
    requires i <= |objs| && forall id :: !env.deleteFails(id) && !env.forgetFails(id)
    ensures ColdLoop(c, env, objs, i, cutoff, rows, remote).ok
    decreases |objs| - i
  {
    if i < |objs| {
      var id := objs[i].id;
      if Due(objs, cutoff, i) { NoFailure(c, env, objs, i + 1, cutoff, rows - {id}, remote - {ObjectPath(c, id)}); }
      else { NoFailure(c, env, objs, i + 1, cutoff, rows, remote); }
    }
  }

  // ---------- the schedule's view ----------

  lemma {:induction false} FirstIsLatest(objs: seq<Obj>, rows: map<Id, Row>)
    requires rows != map[] && RowsInRange(rows)
    ensures RowsNewestFirst(objs, rows) ==> |objs| > 0 && IsLatestOffsite(rows, objs[0].row.uploadedAt)
  {
    if RowsNewestFirst(objs, rows) {
      var k :| k in rows;
      assert exists i :: 0 <= i < |objs| && objs[i].id == k;
      var t := objs[0].row.uploadedAt;
      assert rows[objs[0].id].uploadedAt == t;
      forall id | id in rows ensures !SortsBefore(t, rows[id].uploadedAt) {
        var i :| 0 <= i < |objs| && objs[i].id == id;
        if i == 0 { LexIrreflexive(Format(t)); }
      }
    }
  }

  /** pruneOffsite leaves LatestOffsite as it was, also when it stops midway. */
  lemma {:induction false} LatestUnchanged(c: Config, env: Env, objs: seq<Obj>, cutoff: int, rows: map<Id, Row>, remote: map<string, Content>, t: nat)
    requires RowsNewestFirst(objs, rows)
    requires RowsInRange(rows)
    ensures var r := ColdLoop(c, env, objs, 0, cutoff, rows, remote);
            && (IsLatestOffsite(rows, t) <==> IsLatestOffsite(r.rows, t))
            && (rows == map[] <==> r.rows == map[])
  {
    var r := ColdLoop(c, env, objs, 0, cutoff, rows, remote);
    var k := LoopRemovesPrefix(c, env, objs, 0, cutoff, rows, remote);
    if rows != map[] {
      FirstIsLatest(objs, rows);
      var first := objs[0];
      assert first.id !in DueIds(objs, cutoff, 0, k);
      assert first.id in r.rows && r.rows[first.id] == first.row;
      LatestOfSubset(rows, r.rows, first.id, t);
    }
  }

  /** A table that keeps some rows, among them a latest one, keeps the latest upload time. */
  lemma {:induction false} LatestOfSubset(rows: map<Id, Row>, rows': map<Id, Row>, id: Id, t: nat)
    requires RowsInRange(rows) && id in rows'
    requires forall k :: k in rows' ==> k in rows && rows'[k] == rows[k]
    ensures IsLatestOffsite(rows, rows'[id].uploadedAt) ==> (IsLatestOffsite(rows, t) <==> IsLatestOffsite(rows', t))
  {
    var last := rows'[id].uploadedAt;
    if IsLatestOffsite(rows, last) {
      assert IsLatestOffsite(rows', last);
      LatestIsUnique(rows, t, last);
      LatestIsUnique(rows', t, last);
    }
  }

  /** LatestOffsite answers the same on both tables. */
  ghost predicate SameLatest(rows: map<Id, Row>, rows': map<Id, Row>) {
    forall t :: IsLatestOffsite(rows, t) <==> IsLatestOffsite(rows', t)
  }

  /** A whole pass over the listed rows. */
  function PruneResult(c: Config, env: Env, objs: seq<Obj>, now: nat, rows: map<Id, Row>, remote: map<string, Content>): (r: Result) {
    if ColdPruningOn(c) then ColdLoop(c, env, objs, 0, now - ColdHorizon(c), rows, remote) else Result(rows, remote, true)
  }

  predicate Extends<K(==), V(==)>(part: map<K, V>, whole: map<K, V>) { forall k :: k in part ==> k in whole && part[k] == whole[k] }

  /** Listed, not as the first row, and older than the retention. */
  predicate Expired(c: Config, objs: seq<Obj>, now: nat, rows: map<Id, Row>, id: Id) {
    id in rows && rows[id].uploadedAt < now - Horizon(c.offsiteDays) && |objs| > 0 && objs[0].id != id
  }

  /** A pass that may not prune does nothing. One that may, and meets no failing call, removes
      exactly the expired rows and their objects. */
  lemma {:induction false} PrunesExactly(c: Config, env: Env, objs: seq<Obj>, now: nat, rows: map<Id, Row>, remote: map<string, Content>)
    requires RowsNewestFirst(objs, rows)
    ensures !c.offsiteOn || c.disableOffsitePruning || c.offsiteDays <= 0 ==> PruneResult(c, env, objs, now, rows, remote) == Result(rows, remote, true)
    ensures c.offsiteOn && !c.disableOffsitePruning && c.offsiteDays > 0 && (forall id :: !env.deleteFails(id) && !env.forgetFails(id)) ==>
              var r := PruneResult(c, env, objs, now, rows, remote);
              && r.ok && Extends(r.rows, rows) && (forall id :: id in r.rows <==> id in rows && !Expired(c, objs, now, rows, id))
              && Extends(r.remote, remote)
              && (forall path :: path in r.remote <==> path in remote && !exists id :: Expired(c, objs, now, rows, id) && path == ObjectPath(c, id))
  {
    hide ObjectPath, Horizon, SortsBefore;
    if c.offsiteOn && !c.disableOffsitePruning && c.offsiteDays > 0 && (forall id :: !env.deleteFails(id) && !env.forgetFails(id)) {
      var cutoff := now - Horizon(c.offsiteDays);
      NoFailure(c, env, objs, 0, cutoff, rows, remote);
      var k := LoopRemovesPrefix(c, env, objs, 0, cutoff, rows, remote);
      forall id ensures id in DueIds(objs, cutoff, 0, |objs|) <==> Expired(c, objs, now, rows, id) { DueByRow(objs, rows, cutoff, id); }
      forall path ensures path in DuePaths(c, objs, cutoff, 0, |objs|) <==> exists id :: Expired(c, objs, now, rows, id) && path == ObjectPath(c, id) {
        if path in DuePaths(c, objs, cutoff, 0, |objs|) {
          var j :| 0 <= j < |objs| && Due(objs, cutoff, j) && path == ObjectPath(c, objs[j].id);
          assert objs[j].id in DueIds(objs, cutoff, 0, |objs|);
        }
        forall id | Expired(c, objs, now, rows, id) && path == ObjectPath(c, id) ensures path in DuePaths(c, objs, cutoff, 0, |objs|) { PathsOfIds(c, objs, cutoff, id); }
      }
    }
  }

  lemma {:induction false} LoopKeepsLatest(c: Config, env: Env, objs: seq<Obj>, cutoff: int, rows: map<Id, Row>, remote: map<string, Content>)
    requires RowsNewestFirst(objs, rows)
    requires RowsInRange(rows)
    ensures var r := ColdLoop(c, env, objs, 0, cutoff, rows, remote);
            SameLatest(rows, r.rows) && r.rows.Keys <= rows.Keys && r.remote.Keys <= remote.Keys
  {
    var r := ColdLoop(c, env, objs, 0, cutoff, rows, remote);
    var k := LoopRemovesPrefix(c, env, objs, 0, cutoff, rows, remote);
    forall t ensures IsLatestOffsite(rows, t) <==> IsLatestOffsite(r.rows, t) {
      LatestUnchanged(c, env, objs, cutoff, rows, remote, t);
    }
  }

  lemma {:induction false} PassNeverDisturbsSchedule(c: Config, env: Env, objs: seq<Obj>, now: nat, rows: map<Id, Row>, remote: map<string, Content>)
    requires RowsNewestFirst(objs, rows)
    requires RowsInRange(rows)
    ensures var r := PruneResult(c, env, objs, now, rows, remote);
            && SameLatest(rows, r.rows)
            && r.rows.Keys <= rows.Keys && r.remote.Keys <= remote.Keys
  {
    hide SortsBefore;
    if ColdPruningOn(c) { LoopKeepsLatest(c, env, objs, now - ColdHorizon(c), rows, remote); }
  }
}
