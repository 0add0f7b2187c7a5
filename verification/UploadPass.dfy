/** What one upload pass does to the rows and the remote (offsiteNewSnapshots), as a function
    of what it read at its start and of which calls fail, and what follows for passes that run
    one at a time. */
module UploadPass {
  import opened OffsiteModel

  datatype Fault = NoFault | PrepareFails | LookupFails | UploadFails | RecordFails

  /** The outside world during a pass: which call fails for a snapshot, and the time at which
      its row is written. */
  datatype Env = Env(fault: Id -> Fault, at: Id -> nat)

  datatype Pass = Pass(rows: map<Id, Row>, remote: map<string, Content>, count: nat, bytes: nat, ok: bool)

  function NewRow(c: Config, obj: Content, at: nat): (row: Row) { Row(at, |obj|, c.checksum(obj)) }

  /** The loop reaches the digest lookup, and the lookup answers. */
  predicate LooksUp(c: Config, env: Env, hot: map<Id, Snapshot>, count: nat, id: Id) {
    id in hot && !(c.latestOnly && count > 0) && !env.fault(id).PrepareFails? && !env.fault(id).LookupFails?
  }

  /** The loop goes on without a word: the snapshot is known, or its content is stored. */
  predicate Passes(c: Config, env: Env, hot: map<Id, Snapshot>, offsited: set<Id>, rows: map<Id, Row>, count: nat, id: Id) {
    id in offsited || (LooksUp(c, env, hot, count, id) && ChecksumExists(rows, c.checksum(hot[id].content)))
  }

  /** The upload is attempted. */
  predicate Attempts(c: Config, env: Env, hot: map<Id, Snapshot>, rows: map<Id, Row>, count: nat, id: Id) {
    LooksUp(c, env, hot, count, id) && !ChecksumExists(rows, c.checksum(hot[id].content))
  }

  /** The loop from index `i` on, with the pass's accumulators: it passes a snapshot, stores it,
      or ends there. Only a "latest" pass that has stored one ends without an error, and a pass
      whose statement fails leaves an object behind. */
  function UploadLoop(c: Config, env: Env, hot: map<Id, Snapshot>, snaps: seq<Listed>, i: nat, offsited: set<Id>,
                      rows: map<Id, Row>, remote: map<string, Content>, count: nat, bytes: nat): (p: Pass)
    requires i <= |snaps|
    decreases |snaps| - i
  {
    if i == |snaps| then Pass(rows, remote, count, bytes, true)
    else
      var id := snaps[i].id;
      if Passes(c, env, hot, offsited, rows, count, id) then
        UploadLoop(c, env, hot, snaps, i + 1, offsited, rows, remote, count, bytes)
      else if !Attempts(c, env, hot, rows, count, id) || env.fault(id).UploadFails? then
        Pass(rows, remote, count, bytes, c.latestOnly && count > 0)
      else
        var obj := hot[id].content;
        var remote' := remote[ObjectPath(c, id) := obj];
        if env.fault(id).RecordFails? then Pass(rows, remote', count, bytes, false)
        else UploadLoop(c, env, hot, snaps, i + 1, offsited + {id}, rows[id := NewRow(c, obj, env.at(id))], remote', count + 1, bytes + |obj|)
  }

  /** A whole pass: the row set is read, then the loop runs. */
  function UploadAll(c: Config, env: Env, hot: map<Id, Snapshot>, snaps: seq<Listed>,
                     rows: map<Id, Row>, remote: map<string, Content>): (p: Pass)
  {
    UploadLoop(c, env, hot, snaps, 0, rows.Keys, rows, remote, 0, 0)
  }

  /** The snapshot has a row, or another row carries its digest. */
  predicate Covered(c: Config, hot: map<Id, Snapshot>, rows: map<Id, Row>, id: Id) {
    id in rows || (id in hot && ChecksumExists(rows, c.checksum(hot[id].content)))
  }

  predicate Extends(rows: map<Id, Row>, rows': map<Id, Row>) {
    forall id :: id in rows ==> id in rows' && rows'[id] == rows[id]
  }

  lemma {:induction false} CoveredMonotone(c: Config, hot: map<Id, Snapshot>, rows: map<Id, Row>, rows': map<Id, Row>, id: Id)
    requires Covered(c, hot, rows, id) && Extends(rows, rows')
    ensures Covered(c, hot, rows', id)
  {
    if id !in rows {
      var k :| k in rows && rows[k].checksum == c.checksum(hot[id].content);
      assert k in rows';
    }
  }

  // ---------- completeness, distinct digests, counts ----------

  /** No two rows carry the same non-empty digest. */
  ghost predicate DistinctChecksums(rows: map<Id, Row>) {
    forall a, b :: a in rows && b in rows && a != b && rows[a].checksum != "" ==> rows[a].checksum != rows[b].checksum
  }

  /** SELECT SUM(bytes) over the client's rows. */
  ghost function TotalBytes(rows: map<Id, Row>): (n: nat)
    decreases |rows|
  {
    if rows == map[] then 0
    else
      var id :| id in rows;
      rows[id].bytes + TotalBytes(rows - {id})
  }

  lemma {:induction false} TotalBytesOf(rows: map<Id, Row>, id: Id)
    requires id in rows
    ensures TotalBytes(rows) == rows[id].bytes + TotalBytes(rows - {id})
    decreases |rows|
  {
    var k :| k in rows && TotalBytes(rows) == rows[k].bytes + TotalBytes(rows - {k});
    if k != id {
      TotalBytesOf(rows - {k}, id);
      TotalBytesOf(rows - {id}, k);
      assert rows - {k} - {id} == rows - {id} - {k};
    }
  }

  lemma {:induction false} TotalBytesInsert(rows: map<Id, Row>, id: Id, row: Row)
    requires id !in rows
    ensures TotalBytes(rows[id := row]) == TotalBytes(rows) + row.bytes
    ensures |rows[id := row]| == |rows| + 1
  {
    TotalBytesOf(rows[id := row], id);
    assert rows[id := row] - {id} == rows;
  }

  /** The statement that inserts or overwrites a row. */
  lemma {:induction false} BytesAfterRecord(rows: map<Id, Row>, id: Id, row: Row)
    ensures id !in rows ==> TotalBytes(rows[id := row]) == TotalBytes(rows) + row.bytes
    ensures id in rows ==> TotalBytes(rows[id := row]) + rows[id].bytes == TotalBytes(rows) + row.bytes
  {
    if id in rows {
      var rows' := rows[id := row];
      TotalBytesOf(rows, id);
      TotalBytesOf(rows', id);
      assert rows' - {id} == rows - {id};
    } else {
      TotalBytesInsert(rows, id, row);
    }
  }

  lemma {:induction false} DistinctAfterRecord(rows: map<Id, Row>, id: Id, row: Row)
    ensures DistinctChecksums(rows) && !ChecksumExists(rows, row.checksum) ==> DistinctChecksums(rows[id := row])
    ensures row.checksum != "" ==> ChecksumExists(rows[id := row], row.checksum)
  {
    assert id in rows[id := row];
  }

  /** From `rows` and the counts so far: rows only appear, digests stay distinct, and the pass
      adds to the counts the rows and bytes that it adds. */
  ghost predicate Accounts(rows: map<Id, Row>, count: nat, bytes: nat, p: Pass) {
    && Extends(rows, p.rows)
    && (DistinctChecksums(rows) ==> DistinctChecksums(p.rows))
    && p.count - count == |p.rows| - |rows|
    && p.bytes - bytes == TotalBytes(p.rows) - TotalBytes(rows)
  }

  lemma {:induction false} AddingAccounts(rows: map<Id, Row>, id: Id, row: Row, count: nat, bytes: nat, p: Pass)
    requires id !in rows && !ChecksumExists(rows, row.checksum)
    requires Accounts(rows[id := row], count + 1, bytes + row.bytes, p)
    ensures Accounts(rows, count, bytes, p)
  {
    TotalBytesInsert(rows, id, row);
    var mid := rows[id := row];
    assert DistinctChecksums(rows) ==> DistinctChecksums(mid);
    forall k | k in rows ensures k in p.rows && p.rows[k] == rows[k] { assert mid[k] == rows[k]; }
  }

  lemma {:induction false} NothingAccounts(rows: map<Id, Row>, count: nat, bytes: nat, p: Pass)
    requires p.rows == rows && p.count == count && p.bytes == bytes
    ensures Accounts(rows, count, bytes, p)
  {}

  /** Every pass, failed or not, accounts for what it did, if it knows of every row. */
  lemma {:induction false} LoopAccounts(c: Config, env: Env, hot: map<Id, Snapshot>, snaps: seq<Listed>, i: nat, offsited: set<Id>,
                                        rows: map<Id, Row>, remote: map<string, Content>, count: nat, bytes: nat)
    requires i <= |snaps| && rows.Keys <= offsited
    ensures Accounts(rows, count, bytes, UploadLoop(c, env, hot, snaps, i, offsited, rows, remote, count, bytes))
    decreases |snaps| - i
  {
    hide ObjectPath, ChecksumExists, Accounts;
    var p := UploadLoop(c, env, hot, snaps, i, offsited, rows, remote, count, bytes);
    if i < |snaps| && Passes(c, env, hot, offsited, rows, count, snaps[i].id) {
      LoopAccounts(c, env, hot, snaps, i + 1, offsited, rows, remote, count, bytes);
    } else if i < |snaps| && Attempts(c, env, hot, rows, count, snaps[i].id) && env.fault(snaps[i].id).NoFault? {
      var id := snaps[i].id;
      var obj := hot[id].content;
      var row := NewRow(c, obj, env.at(id));
      LoopAccounts(c, env, hot, snaps, i + 1, offsited + {id}, rows[id := row], remote[ObjectPath(c, id) := obj], count + 1, bytes + |obj|);
      AddingAccounts(rows, id, row, count, bytes, p);
    } else {
      NothingAccounts(rows, count, bytes, p);
    }
  }

  /** After an error-free "all" pass every listed snapshot has its row or shares its digest. */
  lemma {:induction false} LoopCovers(c: Config, env: Env, hot: map<Id, Snapshot>, snaps: seq<Listed>, i: nat, offsited: set<Id>,
                   rows: map<Id, Row>, remote: map<string, Content>, count: nat, bytes: nat)
    requires i <= |snaps| && offsited == rows.Keys && !c.latestOnly
    requires forall k :: 0 <= k < i ==> Covered(c, hot, rows, snaps[k].id)
    ensures var p := UploadLoop(c, env, hot, snaps, i, offsited, rows, remote, count, bytes);
            p.ok ==> forall k :: 0 <= k < |snaps| ==> Covered(c, hot, p.rows, snaps[k].id)
    decreases |snaps| - i
  {
    if i < |snaps| {
      var id := snaps[i].id;
      if id in offsited {
        LoopCovers(c, env, hot, snaps, i + 1, offsited, rows, remote, count, bytes);
      } else if id in hot {
        var obj := hot[id].content;
        if ChecksumExists(rows, c.checksum(obj)) {
          LoopCovers(c, env, hot, snaps, i + 1, offsited, rows, remote, count, bytes);
        } else {
          var rows' := rows[id := NewRow(c, obj, env.at(id))];
          forall k | 0 <= k < i ensures Covered(c, hot, rows', snaps[k].id) {
            CoveredMonotone(c, hot, rows, rows', snaps[k].id);
          }
          LoopCovers(c, env, hot, snaps, i + 1, offsited + {id}, rows', remote[ObjectPath(c, id) := obj], count + 1, bytes + |obj|);
        }
      }
    }
  }

  lemma {:induction false} PassAccounts(c: Config, env: Env, hot: map<Id, Snapshot>, snaps: seq<Listed>,
                                     rows: map<Id, Row>, remote: map<string, Content>)
    ensures var p := UploadAll(c, env, hot, snaps, rows, remote);
            && Extends(rows, p.rows)
            && (DistinctChecksums(rows) ==> DistinctChecksums(p.rows))
            && p.count == |p.rows| - |rows|
            && p.bytes == TotalBytes(p.rows) - TotalBytes(rows)
  {
    LoopAccounts(c, env, hot, snaps, 0, rows.Keys, rows, remote, 0, 0);
  }

  lemma {:induction false} AllPassCovers(c: Config, env: Env, hot: map<Id, Snapshot>, snaps: seq<Listed>,
                                         rows: map<Id, Row>, remote: map<string, Content>)
    requires !c.latestOnly && UploadAll(c, env, hot, snaps, rows, remote).ok
    ensures var p := UploadAll(c, env, hot, snaps, rows, remote);
            forall k :: 0 <= k < |snaps| ==>
              snaps[k].id in p.rows || (snaps[k].id in hot && ChecksumExists(p.rows, c.checksum(hot[snaps[k].id].content)))
  {
    LoopCovers(c, env, hot, snaps, 0, rows.Keys, rows, remote, 0, 0);
    var p := UploadAll(c, env, hot, snaps, rows, remote);
    assert forall k :: 0 <= k < |snaps| ==> Covered(c, hot, p.rows, snaps[k].id);
  }

  // ---------- what is stored ----------

  /** The row and the object of a snapshot that the pass stored. */
  ghost predicate StoredAs(c: Config, env: Env, hot: map<Id, Snapshot>, id: Id, p: Pass) {
    && id in hot && env.fault(id).NoFault? && id in p.rows
    && p.rows[id] == Row(env.at(id), |hot[id].content|, c.checksum(hot[id].content))
    && ObjectPath(c, id) in p.remote && p.remote[ObjectPath(c, id)] == hot[id].content
  }

  /** Some listed snapshot that the pass did not know of was uploaded to this path. */
  ghost predicate UploadedTo(c: Config, hot: map<Id, Snapshot>, snaps: seq<Listed>, offsited: set<Id>, path: string, p: Pass) {
    path in p.remote &&
    exists k :: 0 <= k < |snaps| && snaps[k].id !in offsited && snaps[k].id in hot && path == ObjectPath(c, snaps[k].id) && p.remote[path] == hot[snaps[k].id].content
  }

  ghost predicate Stores(c: Config, env: Env, hot: map<Id, Snapshot>, snaps: seq<Listed>, offsited: set<Id>,
                         rows: map<Id, Row>, remote: map<string, Content>, p: Pass) {
    && (forall id :: id in p.rows && id !in rows ==> StoredAs(c, env, hot, id, p))
    && (forall path :: path in remote ==> path in p.remote)
    && (forall path :: path in p.remote && !(path in remote && p.remote[path] == remote[path]) ==> UploadedTo(c, hot, snaps, offsited, path, p))
  }

  lemma {:induction false} StoresOneMore(c: Config, env: Env, hot: map<Id, Snapshot>, snaps: seq<Listed>, k: nat, offsited: set<Id>,
                                         rows: map<Id, Row>, remote: map<string, Content>, p: Pass)
    requires k < |snaps| && snaps[k].id in hot && snaps[k].id !in offsited && env.fault(snaps[k].id).NoFault?
    requires var id := snaps[k].id; var obj := hot[id].content;
             && Stores(c, env, hot, snaps, offsited + {id}, rows[id := NewRow(c, obj, env.at(id))], remote[ObjectPath(c, id) := obj], p)
             && Extends(rows[id := NewRow(c, obj, env.at(id))], p.rows)
    ensures Stores(c, env, hot, snaps, offsited, rows, remote, p)
  {
    hide ObjectPath;
    var id := snaps[k].id;
    var path := ObjectPath(c, id);
    var remote' := remote[path := hot[id].content];
    assert path in remote';
    if p.remote[path] != remote'[path] {
      var j :| 0 <= j < |snaps| && snaps[j].id !in offsited + {id} && snaps[j].id in hot && path == ObjectPath(c, snaps[j].id);
      ObjectPathInjective(c, id, snaps[j].id);
    }
    assert p.rows[id] == rows[id := NewRow(c, hot[id].content, env.at(id))][id];
    forall q | q in p.remote && !(q in remote && p.remote[q] == remote[q]) ensures UploadedTo(c, hot, snaps, offsited, q, p) {
      if q != path {
        var j :| 0 <= j < |snaps| && snaps[j].id !in offsited + {id} && snaps[j].id in hot && q == ObjectPath(c, snaps[j].id) && p.remote[q] == hot[snaps[j].id].content;
        assert snaps[j].id !in offsited;
      }
    }
  }

  lemma {:induction false} LoopStores(c: Config, env: Env, hot: map<Id, Snapshot>, snaps: seq<Listed>, i: nat, offsited: set<Id>,
                                      rows: map<Id, Row>, remote: map<string, Content>, count: nat, bytes: nat)
    requires i <= |snaps| && rows.Keys <= offsited
    ensures Stores(c, env, hot, snaps, offsited, rows, remote, UploadLoop(c, env, hot, snaps, i, offsited, rows, remote, count, bytes))
    decreases |snaps| - i
  {
    hide ObjectPath, Stores, ChecksumExists;
    var p := UploadLoop(c, env, hot, snaps, i, offsited, rows, remote, count, bytes);
    if i < |snaps| && Passes(c, env, hot, offsited, rows, count, snaps[i].id) {
      LoopStores(c, env, hot, snaps, i + 1, offsited, rows, remote, count, bytes);
    } else if i < |snaps| && Attempts(c, env, hot, rows, count, snaps[i].id) && env.fault(snaps[i].id).NoFault? {
      var id := snaps[i].id;
      var obj := hot[id].content;
      var rows', remote' := rows[id := NewRow(c, obj, env.at(id))], remote[ObjectPath(c, id) := obj];
      LoopStores(c, env, hot, snaps, i + 1, offsited + {id}, rows', remote', count + 1, bytes + |obj|);
      LoopAccounts(c, env, hot, snaps, i + 1, offsited + {id}, rows', remote', count + 1, bytes + |obj|);
      StoresOneMore(c, env, hot, snaps, i, offsited, rows, remote, p);
    } else {
      StoresNothing(c, env, hot, snaps, i, offsited, rows, remote, p);
    }
  }

  /** A pass that ends here leaves an object behind at most. */
  lemma {:induction false} StoresNothing(c: Config, env: Env, hot: map<Id, Snapshot>, snaps: seq<Listed>, i: nat, offsited: set<Id>,
                                         rows: map<Id, Row>, remote: map<string, Content>, p: Pass)
    requires p.rows == rows
    requires p.remote == remote ||
             (i < |snaps| && snaps[i].id in hot && snaps[i].id !in offsited && p.remote == remote[ObjectPath(c, snaps[i].id) := hot[snaps[i].id].content])
    ensures Stores(c, env, hot, snaps, offsited, rows, remote, p)
  {
    hide ObjectPath;
  }

  /** Whatever fails: a row that a pass adds tells size, digest and time of its snapshot, whose
      content lies at its path; and a pass changes no other object of the remote than those of
      listed snapshots without a row. */
  lemma {:induction false} NewRowsTell(c: Config, env: Env, hot: map<Id, Snapshot>, snaps: seq<Listed>, rows: map<Id, Row>, remote: map<string, Content>)
    ensures var p := UploadAll(c, env, hot, snaps, rows, remote);
            && (forall id :: id in p.rows && id !in rows ==>
                  && id in hot && env.fault(id).NoFault? && p.rows[id] == Row(env.at(id), |hot[id].content|, c.checksum(hot[id].content))
                  && ObjectPath(c, id) in p.remote && p.remote[ObjectPath(c, id)] == hot[id].content)
            && (forall path :: path in remote ==> path in p.remote)
            && (forall path :: path in p.remote && !(path in remote && p.remote[path] == remote[path]) ==>
                  exists k :: 0 <= k < |snaps| && snaps[k].id !in rows && snaps[k].id in hot && path == ObjectPath(c, snaps[k].id))
  {
    hide ObjectPath;
    LoopStores(c, env, hot, snaps, 0, rows.Keys, rows, remote, 0, 0);
    var p := UploadAll(c, env, hot, snaps, rows, remote);
    forall id | id in p.rows && id !in rows ensures StoredAs(c, env, hot, id, p) {}
    forall path | path in p.remote && !(path in remote && p.remote[path] == remote[path])
      ensures exists k :: 0 <= k < |snaps| && snaps[k].id !in rows && snaps[k].id in hot && path == ObjectPath(c, snaps[k].id)
    {
      assert UploadedTo(c, hot, snaps, rows.Keys, path, p);
    }
  }

  // ---------- what fails ----------

  /** The pass works on this snapshot: it has no row, it can be read, and its digest is looked up. */
  predicate Readable(env: Env, hot: map<Id, Snapshot>, id: Id) {
    id in hot && !env.fault(id).PrepareFails? && !env.fault(id).LookupFails?
  }

  /** The pass goes by this snapshot: it has a row, or a row carries its digest. */
  predicate GoesBy(c: Config, env: Env, hot: map<Id, Snapshot>, rows: map<Id, Row>, id: Id) {
    id in rows || (Readable(env, hot, id) && ChecksumExists(rows, c.checksum(hot[id].content)))
  }

  lemma {:induction false} SkipsKnown(c: Config, env: Env, hot: map<Id, Snapshot>, snaps: seq<Listed>, i: nat, k: nat, rows: map<Id, Row>, remote: map<string, Content>)
    requires i <= k <= |snaps| && forall j :: i <= j < k ==> GoesBy(c, env, hot, rows, snaps[j].id)
    ensures UploadLoop(c, env, hot, snaps, i, rows.Keys, rows, remote, 0, 0) == UploadLoop(c, env, hot, snaps, k, rows.Keys, rows, remote, 0, 0)
    decreases k - i
  {
    hide ChecksumExists;
    if i < k { SkipsKnown(c, env, hot, snaps, i + 1, k, rows, remote); }
  }

  /** The first snapshot that a pass does not go by. If it cannot be read, or the upload fails,
      the pass ends with an error and has stored nothing; if the row cannot be written, only its
      object is stored; and if nothing fails, a "latest" pass ends there with this one upload. */
  lemma {:induction false} FirstNew(c: Config, env: Env, hot: map<Id, Snapshot>, snaps: seq<Listed>, k: nat, rows: map<Id, Row>, remote: map<string, Content>)
    requires k < |snaps| && !GoesBy(c, env, hot, rows, snaps[k].id) && forall j :: 0 <= j < k ==> GoesBy(c, env, hot, rows, snaps[j].id)
    ensures var p := UploadAll(c, env, hot, snaps, rows, remote); var id := snaps[k].id;
            if !Readable(env, hot, id) || env.fault(id).UploadFails? then p == Pass(rows, remote, 0, 0, false)
            else
              var obj := hot[id].content; var stored := remote[ObjectPath(c, id) := obj];
              if env.fault(id).RecordFails? then p == Pass(rows, stored, 0, 0, false)
              else c.latestOnly ==> p == Pass(rows[id := Row(env.at(id), |obj|, c.checksum(obj))], stored, 1, |obj|, true)
  {
    hide ObjectPath, ChecksumExists;
    SkipsKnown(c, env, hot, snaps, 0, k, rows, remote);
    if Readable(env, hot, snaps[k].id) && env.fault(snaps[k].id).NoFault? && c.latestOnly { LatestStops(c, env, hot, snaps, k, rows, remote); }
  }

  /** A "latest" pass that has stored a snapshot goes by recorded ones and ends without an error. */
  lemma {:induction false} LatestEnds(c: Config, env: Env, hot: map<Id, Snapshot>, snaps: seq<Listed>, i: nat, offsited: set<Id>,
                                      rows: map<Id, Row>, remote: map<string, Content>, count: nat, bytes: nat)
    requires i <= |snaps| && c.latestOnly && count > 0
    ensures UploadLoop(c, env, hot, snaps, i, offsited, rows, remote, count, bytes) == Pass(rows, remote, count, bytes, true)
    decreases |snaps| - i
  {
    if i < |snaps| && snaps[i].id in offsited { LatestEnds(c, env, hot, snaps, i + 1, offsited, rows, remote, count, bytes); }
  }

  lemma {:induction false} LatestStops(c: Config, env: Env, hot: map<Id, Snapshot>, snaps: seq<Listed>, k: nat, rows: map<Id, Row>, remote: map<string, Content>)
    requires k < |snaps| && c.latestOnly && !GoesBy(c, env, hot, rows, snaps[k].id) && Readable(env, hot, snaps[k].id) && env.fault(snaps[k].id).NoFault?
    ensures var id := snaps[k].id; var obj := hot[id].content;
            UploadLoop(c, env, hot, snaps, k, rows.Keys, rows, remote, 0, 0) ==
            Pass(rows[id := NewRow(c, obj, env.at(id))], remote[ObjectPath(c, id) := obj], 1, |obj|, true)
  {
    hide ObjectPath, ChecksumExists;
    var id := snaps[k].id;
    var obj := hot[id].content;
    LatestEnds(c, env, hot, snaps, k + 1, rows.Keys + {id}, rows[id := NewRow(c, obj, env.at(id))], remote[ObjectPath(c, id) := obj], 1, |obj|);
  }

  /** An error has a cause: a listed snapshot without a row that a call failed for, or that is
      no longer there. An "all" pass without an error has met none. */
  lemma {:induction false} LoopFaults(c: Config, env: Env, hot: map<Id, Snapshot>, snaps: seq<Listed>, i: nat, offsited: set<Id>,
                                      rows: map<Id, Row>, remote: map<string, Content>, count: nat, bytes: nat)
    requires i <= |snaps| && offsited == rows.Keys
    ensures var p := UploadLoop(c, env, hot, snaps, i, offsited, rows, remote, count, bytes);
            && (!p.ok ==> exists k :: i <= k < |snaps| && snaps[k].id !in rows && (snaps[k].id !in hot || !env.fault(snaps[k].id).NoFault?))
            && (p.ok && !c.latestOnly ==> forall k :: i <= k < |snaps| ==> snaps[k].id in rows || Readable(env, hot, snaps[k].id))
    decreases |snaps| - i
  {
    hide ObjectPath, ChecksumExists;
    if i < |snaps| && Passes(c, env, hot, offsited, rows, count, snaps[i].id) {
      LoopFaults(c, env, hot, snaps, i + 1, offsited, rows, remote, count, bytes);
    } else if i < |snaps| && Attempts(c, env, hot, rows, count, snaps[i].id) && env.fault(snaps[i].id).NoFault? {
      var id := snaps[i].id;
      var obj := hot[id].content;
      LoopFaults(c, env, hot, snaps, i + 1, offsited + {id}, rows[id := NewRow(c, obj, env.at(id))], remote[ObjectPath(c, id) := obj], count + 1, bytes + |obj|);
    }
  }

  lemma {:induction false} ErrorsHaveCauses(c: Config, env: Env, hot: map<Id, Snapshot>, snaps: seq<Listed>, rows: map<Id, Row>, remote: map<string, Content>)
    ensures var p := UploadAll(c, env, hot, snaps, rows, remote);
            && (!p.ok ==> exists k :: 0 <= k < |snaps| && snaps[k].id !in rows && (snaps[k].id !in hot || !env.fault(snaps[k].id).NoFault?))
            && (p.ok && !c.latestOnly ==> forall k :: 0 <= k < |snaps| ==> snaps[k].id in rows || Readable(env, hot, snaps[k].id))
  {
    LoopFaults(c, env, hot, snaps, 0, rows.Keys, rows, remote, 0, 0);
  }

  /** Passes one after another, from an empty table, on any hot directories. */
  datatype Job = Job(c: Config, env: Env, hot: map<Id, Snapshot>, snaps: seq<Listed>)

  function RunJobs(jobs: seq<Job>, rows: map<Id, Row>, remote: map<string, Content>): (r: map<Id, Row>)
    decreases |jobs|
  {
    if jobs == [] then rows
    else
      var j := jobs[0];
      var p := UploadAll(j.c, j.env, j.hot, j.snaps, rows, remote);
      RunJobs(jobs[1..], p.rows, p.remote)
  }

  lemma {:induction false} SequentialPassesStayDistinct(jobs: seq<Job>, rows: map<Id, Row>, remote: map<string, Content>)
    requires DistinctChecksums(rows)
    ensures DistinctChecksums(RunJobs(jobs, rows, remote)) && Extends(rows, RunJobs(jobs, rows, remote))
    decreases |jobs|
  {
    if jobs != [] {
      var j := jobs[0];
      var p := UploadAll(j.c, j.env, j.hot, j.snaps, rows, remote);
      PassAccounts(j.c, j.env, j.hot, j.snaps, rows, remote);
      SequentialPassesStayDistinct(jobs[1..], p.rows, p.remote);
    }
  }
}
