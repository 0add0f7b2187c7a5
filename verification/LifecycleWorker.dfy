/** The lifecycle and offsite workers as the code runs them: loops over one client's hot
    directory, rows and remote, updated in place. Each method is tied to the specification
    that the other modules reason about. */
module LifecycleWorker {
  import opened OffsiteModel
  import U = UploadPass
  import P = ColdPrune

  /** The hot snapshots a pruneHot pass removes: past the horizon, not the newest, offsited at
      pass start if offsite is on, not the rsync `latest`, and not failing to be removed. */
  predicate Victim(c: Config, s: Listed, offsited: set<Id>, cutoff: int, latest: Id, fails: Id -> bool) {
    && s.created < cutoff && (c.offsiteOn ==> s.id in offsited)
    && !(c.mode.Rsync? && s.id == latest) && !fails(s.id)
  }

  ghost function HotVictims(c: Config, snaps: seq<Listed>, offsited: set<Id>, cutoff: int, latest: Id, fails: Id -> bool, upTo: nat): (ids: set<Id>) {
    set k | 0 < k < upTo && k < |snaps| && Victim(c, snaps[k], offsited, cutoff, latest, fails) :: snaps[k].id
  }

  lemma {:induction false} VictimsExtend(c: Config, snaps: seq<Listed>, offsited: set<Id>, cutoff: int, latest: Id, fails: Id -> bool, i: nat)
    requires i < |snaps|
    ensures HotVictims(c, snaps, offsited, cutoff, latest, fails, i + 1) ==
            HotVictims(c, snaps, offsited, cutoff, latest, fails, i) +
            if 0 < i && Victim(c, snaps[i], offsited, cutoff, latest, fails) then {snaps[i].id} else {}
  {}

  lemma {:induction false} NewestIsNoVictim(c: Config, snaps: seq<Listed>, hot: map<Id, Snapshot>, offsited: set<Id>, cutoff: int, latest: Id, fails: Id -> bool)
    requires NewestFirst(snaps, hot)
    ensures |snaps| > 0 ==> snaps[0].id in hot && snaps[0].id !in HotVictims(c, snaps, offsited, cutoff, latest, fails, |snaps|)
  {}

  class Site {
    const c: Config
    var hot: map<Id, Snapshot>
    var latest: Id  // target of the rsync `latest` link, "" if there is none
    var rows: map<Id, Row>
    var remote: map<string, Content>

    constructor (c: Config, hot: map<Id, Snapshot>, latest: Id)
      ensures this.c == c && this.hot == hot && this.latest == latest && rows == map[] && remote == map[]
    {
      this.c := c;
      this.hot := hot;
      this.latest := latest;
      rows := map[];
      remote := map[];
    }

    /** `objs` is what ListOffsiteObjects returns; the set has exactly the recorded ids. */
    method OffsitedSet(objs: seq<Obj>) returns (offsited: set<Id>)
      requires RowsNewestFirst(objs, rows)
      ensures offsited == rows.Keys
    {
      offsited := {};
      var i := 0;
      while i < |objs|
        invariant 0 <= i <= |objs|
        invariant forall id :: id in offsited <==> exists k :: 0 <= k < i && objs[k].id == id
      {
        offsited := offsited + {objs[i].id};
        i := i + 1;
      }
    }

    /** A positive answer covers every snapshot with that digest; after a negative one
        RecordOffsiteObject keeps digests distinct. */
    method OffsiteChecksumExists(checksum: string) returns (exists_: bool)
      ensures exists_ <==> ChecksumExists(rows, checksum)
      ensures exists_ <==> checksum != "" && exists id :: id in rows && rows[id].checksum == checksum
      ensures exists_ ==> forall snaps: map<Id, Snapshot>, id ::
                id in snaps && c.checksum(snaps[id].content) == checksum ==> U.Covered(c, snaps, rows, id)
    {
      if checksum == "" { return false; }
      exists_ := exists id :: id in rows && rows[id].checksum == checksum;
    }

    /** INSERT ... ON CONFLICT DO UPDATE. A new id adds one row and its bytes, and a new digest
        keeps digests distinct; a known id is overwritten. */
    method RecordOffsiteObject(id: Id, bytes: nat, checksum: string, at: nat)
      modifies this`rows
      ensures rows == old(rows)[id := Row(at, bytes, checksum)]
      ensures id !in old(rows) ==> U.TotalBytes(rows) == U.TotalBytes(old(rows)) + bytes
      ensures id in old(rows) ==> U.TotalBytes(rows) + old(rows)[id].bytes == U.TotalBytes(old(rows)) + bytes
      ensures U.DistinctChecksums(old(rows)) && !ChecksumExists(old(rows), checksum) ==> U.DistinctChecksums(rows)
      ensures checksum != "" ==> ChecksumExists(rows, checksum)
    {
      U.BytesAfterRecord(rows, id, Row(at, bytes, checksum));
      U.DistinctAfterRecord(rows, id, Row(at, bytes, checksum));
      rows := rows[id := Row(at, bytes, checksum)];
    }

    /** Takes the row's bytes with it and leaves digests distinct; a latest upload of another
        row stays the latest. */
    method DeleteOffsiteObject(id: Id)
      modifies this`rows
      ensures rows == old(rows) - {id}
      ensures id in old(rows) ==> U.TotalBytes(old(rows)) == U.TotalBytes(rows) + old(rows)[id].bytes
      ensures U.DistinctChecksums(old(rows)) ==> U.DistinctChecksums(rows)
      ensures forall k :: k in rows && IsLatestOffsite(old(rows), rows[k].uploadedAt) ==> IsLatestOffsite(rows, rows[k].uploadedAt)
    {
      if id in rows { U.TotalBytesOf(rows, id); }
      rows := rows - {id};
    }

    method OffsiteNewSnapshots(snaps: seq<Listed>, known: set<Id>, env: U.Env) returns (count: nat, bytes: nat, ok: bool)
      modifies this`rows, this`remote
      ensures U.Pass(rows, remote, count, bytes, ok) ==
              U.UploadLoop(c, env, hot, snaps, 0, known, old(rows), old(remote), 0, 0)
    {
      count, bytes, ok := 0, 0, true;
      var offsited := known;
      var i := 0;
      while i < |snaps|
        invariant 0 <= i <= |snaps| && ok
        invariant U.UploadLoop(c, env, hot, snaps, 0, known, old(rows), old(remote), 0, 0) ==
                  U.UploadLoop(c, env, hot, snaps, i, offsited, rows, remote, count, bytes)
      {
        var id := snaps[i].id;
        if id in offsited {
          i := i + 1;
          continue;
        }
        if c.latestOnly && count > 0 { break; }
        if env.fault(id).PrepareFails? || id !in hot { return count, bytes, false; }
        var obj := hot[id].content;
        if env.fault(id).LookupFails? { return count, bytes, false; }
        var dup := OffsiteChecksumExists(c.checksum(obj));
        if dup {
          i := i + 1;
          continue;
        }
        if env.fault(id).UploadFails? { return count, bytes, false; }
        remote := remote[ObjectPath(c, id) := obj];
        if env.fault(id).RecordFails? { return count, bytes, false; }
        RecordOffsiteObject(id, |obj|, c.checksum(obj), env.at(id));
        offsited := offsited + {id};
        count, bytes := count + 1, bytes + |obj|;
        i := i + 1;
      }
    }

    /** One upload pass. Failed or not, it only adds rows, keeps digests distinct, and reports
        the rows and bytes it added; an error-free "all" pass leaves nothing uncovered. */
    method UploadClient(snaps: seq<Listed>, objs: seq<Obj>, env: U.Env) returns (count: nat, bytes: nat, ok: bool)
      requires RowsNewestFirst(objs, rows)
      modifies this`rows, this`remote
      ensures U.Pass(rows, remote, count, bytes, ok) == U.UploadAll(c, env, hot, snaps, old(rows), old(remote))
      ensures U.Accounts(old(rows), 0, 0, U.Pass(rows, remote, count, bytes, ok))
      ensures ok && !c.latestOnly ==> forall k :: 0 <= k < |snaps| ==> U.Covered(c, hot, rows, snaps[k].id)
    {
      var known := OffsitedSet(objs);
      count, bytes, ok := OffsiteNewSnapshots(snaps, known, env);
      U.PassAccounts(c, env, hot, snaps, old(rows), old(remote));
      if ok && !c.latestOnly { U.AllPassCovers(c, env, hot, snaps, old(rows), old(remote)); }
    }

    /** `objs` is the row listing, newest first. A client without offsite, with pruning disabled
        or without a number of days loses nothing; another one, if no call fails, loses exactly
        the rows older than its days, the first listed one excepted, and their objects. */
    method PruneOffsite(objs: seq<Obj>, now: nat, env: P.Env) returns (ok: bool)
      requires RowsNewestFirst(objs, rows) && RowsInRange(rows)
      modifies this`rows, this`remote
      ensures P.SameLatest(old(rows), rows) && rows.Keys <= old(rows).Keys && remote.Keys <= old(remote).Keys
      ensures P.Result(rows, remote, ok) == P.PruneResult(c, env, objs, now, old(rows), old(remote))
      ensures !c.offsiteOn || c.disableOffsitePruning || c.offsiteDays <= 0 ==> ok && rows == old(rows) && remote == old(remote)
      ensures c.offsiteOn && !c.disableOffsitePruning && c.offsiteDays > 0 && (forall id :: !env.deleteFails(id) && !env.forgetFails(id)) ==>
                && ok
                && (forall id :: id in rows <==> id in old(rows) && !P.Expired(c, objs, now, old(rows), id))
                && (forall path :: path in remote <==> path in old(remote) && !exists id :: P.Expired(c, objs, now, old(rows), id) && path == ObjectPath(c, id))
    {
      hide SortsBefore, P.Expired, ObjectPath, Horizon;
      P.PassNeverDisturbsSchedule(c, env, objs, now, rows, remote);
      P.PrunesExactly(c, env, objs, now, rows, remote);
      ok := true;
      if !ColdPruningOn(c) { return; }
      ok := PruneRows(objs, now - ColdHorizon(c), env);
    }

    /** The loop of pruneOffsite. */
    method PruneRows(objs: seq<Obj>, cutoff: int, env: P.Env) returns (ok: bool)
      modifies this`rows, this`remote
      ensures P.Result(rows, remote, ok) == P.ColdLoop(c, env, objs, 0, cutoff, old(rows), old(remote))
    {
      ok := true;
      var i := 0;
      while i < |objs|
        invariant 0 <= i <= |objs| && ok
        invariant P.ColdLoop(c, env, objs, 0, cutoff, old(rows), old(remote)) ==
                  P.ColdLoop(c, env, objs, i, cutoff, rows, remote)
      {
        var o := objs[i];
        if i == 0 || !(o.row.uploadedAt < cutoff) {
          i := i + 1;
          continue;
        }
        if env.deleteFails(o.id) { return false; }
        remote := remote - {ObjectPath(c, o.id)};
        if env.forgetFails(o.id) { return false; }
        DeleteOffsiteObject(o.id);
        i := i + 1;
      }
    }

    /** Refuses the target of the rsync `latest` link; a failing removal leaves the snapshot. */
    method DeleteSnapshot(id: Id, fails: Id -> bool) returns (ok: bool)
      modifies this`hot
      ensures ok <==> !(c.mode.Rsync? && id == latest) && !fails(id)
      ensures hot == if ok then old(hot) - {id} else old(hot)
    {
      if c.mode.Rsync? && id == latest { return false; }
      if fails(id) { return false; }
      hot := hot - {id};
      ok := true;
    }

    method PruneHot(snaps: seq<Listed>, offsited: set<Id>, now: nat, fails: Id -> bool)
      modifies this`hot
      ensures hot == if c.retentionDays <= 0 then old(hot)
                     else old(hot) - HotVictims(c, snaps, offsited, now - HotHorizon(c), latest, fails, |snaps|)
    {
      if c.retentionDays <= 0 || |snaps| <= 1 {
        assert HotVictims(c, snaps, offsited, now - HotHorizon(c), latest, fails, |snaps|) == {} || c.retentionDays <= 0;
        return;
      }
      var cutoff := now - HotHorizon(c);
      var i := 0;
      while i < |snaps|
        invariant 0 <= i <= |snaps|
        invariant hot == old(hot) - HotVictims(c, snaps, offsited, cutoff, latest, fails, i)
      {
        var s := snaps[i];
        VictimsExtend(c, snaps, offsited, cutoff, latest, fails, i);
        if i == 0 || !(s.created < cutoff) || (c.offsiteOn && s.id !in offsited) {
          i := i + 1;
          continue;
        }
        var _ := DeleteSnapshot(s.id, fails);
        i := i + 1;
      }
    }

    /** The pruning part of processClient: the listing and the row set are read first, then the
        offsite rows are pruned, then the hot directory by what was read at the start. The rows
        are listed twice, and the clock is read once for each cutoff. */
    method ProcessClient(snaps: seq<Listed>, known: seq<Obj>, objs: seq<Obj>, coldNow: nat, hotNow: nat, env: P.Env, fails: Id -> bool)
      returns (ok: bool)
      requires NewestFirst(snaps, hot) && RowsNewestFirst(known, rows) && RowsNewestFirst(objs, rows) && RowsInRange(rows)
      modifies this`hot, this`rows, this`remote
      ensures ok && c.retentionDays > 0 ==>
                hot == old(hot) - HotVictims(c, snaps, old(rows).Keys, hotNow - HotHorizon(c), latest, fails, |snaps|)
      ensures !ok || c.retentionDays <= 0 ==> hot == old(hot)
      ensures P.Result(rows, remote, ok) == P.PruneResult(c, env, objs, coldNow, old(rows), old(remote))
      ensures |snaps| > 0 ==> snaps[0].id in hot
      ensures P.SameLatest(old(rows), rows)
      ensures rows.Keys <= old(rows).Keys && remote.Keys <= old(remote).Keys
    {
      var offsited := OffsitedSet(known);
      NewestIsNoVictim(c, snaps, hot, offsited, hotNow - HotHorizon(c), latest, fails);
      ok := PruneOffsite(objs, coldNow, env);
      if !ok { return; }
      PruneHot(snaps, offsited, hotNow, fails);
    }
  }
}
