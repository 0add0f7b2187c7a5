/** The "latest" upload mode against the "all" mode. On an unchanged hot directory, repeated
    error-free "latest" passes do the uploads of one "all" pass, one per pass and in its order,
    and then upload nothing more. */
module LatestMode {
  import opened OffsiteModel
  import opened UploadPass

  /** A pass without failures, all of whose rows carry one time. */
  function Clean(at: nat): (env: Env) { Env((id: Id) => NoFault, (id: Id) => at) }

  datatype Entry = Entry(bytes: nat, checksum: string)

  /** The record set: the rows without their upload times. */
  function Kept(rows: map<Id, Row>): (kept: map<Id, Entry>) {
    map id | id in rows :: Entry(rows[id].bytes, rows[id].checksum)
  }

  predicate AllHot(hot: map<Id, Snapshot>, snaps: seq<Listed>) {
    forall k :: 0 <= k < |snaps| ==> snaps[k].id in hot
  }

  function Put(c: Config, hot: map<Id, Snapshot>, rows: map<Id, Row>, id: Id, at: nat): (rows': map<Id, Row>)
    requires id in hot
  {
    rows[id := NewRow(c, hot[id].content, at)]
  }

  /** The ids an "all" pass uploads from index `i` on, in order. */
  function Uploads(c: Config, hot: map<Id, Snapshot>, snaps: seq<Listed>, i: nat, rows: map<Id, Row>): (ids: seq<Id>)
    requires i <= |snaps| && AllHot(hot, snaps)
    ensures |ids| <= |snaps| - i
    ensures forall k :: 0 <= k < |ids| ==> ids[k] in hot
    decreases |snaps| - i
  {
    if i == |snaps| then []
    else if Covered(c, hot, rows, snaps[i].id) then Uploads(c, hot, snaps, i + 1, rows)
    else [snaps[i].id] + Uploads(c, hot, snaps, i + 1, Put(c, hot, rows, snaps[i].id, 0))
  }

  function KeptWith(c: Config, hot: map<Id, Snapshot>, kept: map<Id, Entry>, ids: seq<Id>): (kept': map<Id, Entry>)
    requires forall k :: 0 <= k < |ids| ==> ids[k] in hot
    decreases |ids|
  {
    if ids == [] then kept
    else KeptWith(c, hot, kept[ids[0] := Entry(|hot[ids[0]].content|, c.checksum(hot[ids[0]].content))], ids[1..])
  }

  function RemoteWith(c: Config, hot: map<Id, Snapshot>, remote: map<string, Content>, ids: seq<Id>): (remote': map<string, Content>)
    requires forall k :: 0 <= k < |ids| ==> ids[k] in hot
    decreases |ids|
  {
    if ids == [] then remote
    else RemoteWith(c, hot, remote[ObjectPath(c, ids[0]) := hot[ids[0]].content], ids[1..])
  }

  // ---------- only the record set matters ----------

  lemma {:induction false} CoveredByKept(c: Config, hot: map<Id, Snapshot>, a: map<Id, Row>, b: map<Id, Row>, id: Id)
    requires Kept(a) == Kept(b)
    ensures Covered(c, hot, a, id) <==> Covered(c, hot, b, id)
  {
    if Covered(c, hot, a, id) { CoveredByKeptOneWay(c, hot, a, b, id); }
    if Covered(c, hot, b, id) { CoveredByKeptOneWay(c, hot, b, a, id); }
  }

  lemma {:induction false} CoveredByKeptOneWay(c: Config, hot: map<Id, Snapshot>, a: map<Id, Row>, b: map<Id, Row>, id: Id)
    requires Kept(a) == Kept(b) && Covered(c, hot, a, id)
    ensures Covered(c, hot, b, id)
  {
    assert Kept(a).Keys == a.Keys && Kept(b).Keys == b.Keys;
    if id !in a {
      var k :| k in a && a[k].checksum == c.checksum(hot[id].content);
      assert Kept(a)[k] == Kept(b)[k] && k in b;
    }
  }

  lemma {:induction false} PutKept(c: Config, hot: map<Id, Snapshot>, a: map<Id, Row>, b: map<Id, Row>, id: Id, s: nat, t: nat)
    requires Kept(a) == Kept(b) && id in hot
    ensures Kept(Put(c, hot, a, id, s)) == Kept(Put(c, hot, b, id, t))
    ensures Kept(Put(c, hot, a, id, s)) == Kept(a)[id := Entry(|hot[id].content|, c.checksum(hot[id].content))]
  {
    assert Kept(a).Keys == a.Keys && Kept(b).Keys == b.Keys;
  }

  lemma {:induction false} UploadsByKept(c: Config, hot: map<Id, Snapshot>, snaps: seq<Listed>, i: nat, a: map<Id, Row>, b: map<Id, Row>)
    requires i <= |snaps| && AllHot(hot, snaps) && Kept(a) == Kept(b)
    ensures Uploads(c, hot, snaps, i, a) == Uploads(c, hot, snaps, i, b)
    decreases |snaps| - i
  {
    if i < |snaps| {
      CoveredByKept(c, hot, a, b, snaps[i].id);
      PutKept(c, hot, a, b, snaps[i].id, 0, 0);
      if Covered(c, hot, a, snaps[i].id) {
        UploadsByKept(c, hot, snaps, i + 1, a, b);
      } else {
        UploadsByKept(c, hot, snaps, i + 1, Put(c, hot, a, snaps[i].id, 0), Put(c, hot, b, snaps[i].id, 0));
      }
    }
  }

  // ---------- the "all" pass ----------

  /** What a finished pass leaves when it uploads exactly `ids`. */
  ghost predicate Did(c: Config, hot: map<Id, Snapshot>, rows: map<Id, Row>, remote: map<string, Content>, ids: seq<Id>, p: Pass, count: nat) {
    && (forall k :: 0 <= k < |ids| ==> ids[k] in hot)
    && p.ok && p.count == count
    && Kept(p.rows) == KeptWith(c, hot, Kept(rows), ids)
    && p.remote == RemoteWith(c, hot, remote, ids)
  }

  lemma {:induction false} WithFirst(c: Config, hot: map<Id, Snapshot>, kept: map<Id, Entry>, remote: map<string, Content>, ids: seq<Id>)
    requires ids != [] && forall k :: 0 <= k < |ids| ==> ids[k] in hot
    ensures KeptWith(c, hot, kept, ids) == KeptWith(c, hot, KeptWith(c, hot, kept, [ids[0]]), ids[1..])
    ensures RemoteWith(c, hot, remote, ids) == RemoteWith(c, hot, RemoteWith(c, hot, remote, [ids[0]]), ids[1..])
  {
    assert [ids[0]][1..] == [];
  }

  lemma {:induction false} DidOneMore(c: Config, hot: map<Id, Snapshot>, rows: map<Id, Row>, remote: map<string, Content>, id: Id,
                                      rows': map<Id, Row>, remote': map<string, Content>, rest: seq<Id>, p: Pass, count: nat)
    requires id in hot && Did(c, hot, rows', remote', rest, p, count)
    requires Kept(rows') == KeptWith(c, hot, Kept(rows), [id]) && remote' == RemoteWith(c, hot, remote, [id])
    ensures Did(c, hot, rows, remote, [id] + rest, p, count)
  {
    var ids := [id] + rest;
    assert ids[0] == id && ids[1..] == rest;
    WithFirst(c, hot, Kept(rows), remote, ids);
  }

  lemma {:induction false} AllLoop(c: Config, at: nat, hot: map<Id, Snapshot>, snaps: seq<Listed>, i: nat,
                                   rows: map<Id, Row>, remote: map<string, Content>, count: nat, bytes: nat)
    requires i <= |snaps| && AllHot(hot, snaps) && !c.latestOnly
    ensures var ids := Uploads(c, hot, snaps, i, rows);
            Did(c, hot, rows, remote, ids, UploadLoop(c, Clean(at), hot, snaps, i, rows.Keys, rows, remote, count, bytes), count + |ids|)
    decreases |snaps| - i
  {
    if i < |snaps| {
      var id := snaps[i].id;
      if Covered(c, hot, rows, id) {
        AllLoop(c, at, hot, snaps, i + 1, rows, remote, count, bytes);
      } else {
        var obj := hot[id].content;
        var rows' := Put(c, hot, rows, id, at);
        var remote' := remote[ObjectPath(c, id) := obj];
        AllLoop(c, at, hot, snaps, i + 1, rows', remote', count + 1, bytes + |obj|);
        assert rows.Keys + {id} == rows'.Keys;
        UploadsHere(c, at, hot, snaps, i, rows);
        var rest := Uploads(c, hot, snaps, i + 1, rows');
        var p := UploadLoop(c, Clean(at), hot, snaps, i, rows.Keys, rows, remote, count, bytes);
        DidOneMore(c, hot, rows, remote, id, rows', remote', rest, p, count + 1 + |rest|);
      }
    }
  }

  /** An uncovered snapshot is uploaded, and the rest does not depend on the time of its row. */
  lemma {:induction false} UploadsHere(c: Config, at: nat, hot: map<Id, Snapshot>, snaps: seq<Listed>, i: nat, rows: map<Id, Row>)
    requires i < |snaps| && AllHot(hot, snaps) && !Covered(c, hot, rows, snaps[i].id)
    ensures var id := snaps[i].id; var rows' := Put(c, hot, rows, id, at);
            && Uploads(c, hot, snaps, i, rows) == [id] + Uploads(c, hot, snaps, i + 1, rows')
            && Kept(rows') == KeptWith(c, hot, Kept(rows), [id])
            && (forall remote :: RemoteWith(c, hot, remote, [id]) == remote[ObjectPath(c, id) := hot[id].content])
  {
    var id := snaps[i].id;
    PutKept(c, hot, rows, rows, id, at, 0);
    UploadsByKept(c, hot, snaps, i + 1, Put(c, hot, rows, id, at), Put(c, hot, rows, id, 0));
    assert [id][1..] == [];
  }

  // ---------- one "latest" pass ----------

  lemma {:induction false} LatestTail(c: Config, at: nat, hot: map<Id, Snapshot>, snaps: seq<Listed>, i: nat, offsited: set<Id>,
                                      rows: map<Id, Row>, remote: map<string, Content>, count: nat, bytes: nat)
    requires i <= |snaps| && c.latestOnly && count > 0
    ensures UploadLoop(c, Clean(at), hot, snaps, i, offsited, rows, remote, count, bytes) == Pass(rows, remote, count, bytes, true)
    decreases |snaps| - i
  {
    if i < |snaps| && snaps[i].id in offsited {
      LatestTail(c, at, hot, snaps, i + 1, offsited, rows, remote, count, bytes);
    }
  }

  /** A "latest" pass does the first upload of the "all" pass, or nothing if there is none. */
  lemma {:induction false} LatestLoop(c: Config, at: nat, hot: map<Id, Snapshot>, snaps: seq<Listed>, i: nat,
                                      rows: map<Id, Row>, remote: map<string, Content>)
    requires i <= |snaps| && AllHot(hot, snaps) && c.latestOnly
    ensures var ids := Uploads(c, hot, snaps, i, rows);
            var p := UploadLoop(c, Clean(at), hot, snaps, i, rows.Keys, rows, remote, 0, 0);
            if ids == [] then p == Pass(rows, remote, 0, 0, true)
            else p == Pass(Put(c, hot, rows, ids[0], at), remote[ObjectPath(c, ids[0]) := hot[ids[0]].content], 1, |hot[ids[0]].content|, true)
    decreases |snaps| - i
  {
    if i < |snaps| {
      var id := snaps[i].id;
      if Covered(c, hot, rows, id) {
        LatestLoop(c, at, hot, snaps, i + 1, rows, remote);
      } else {
        var obj := hot[id].content;
        LatestTail(c, at, hot, snaps, i + 1, rows.Keys + {id}, Put(c, hot, rows, id, at), remote[ObjectPath(c, id) := obj], 1, |obj|);
      }
    }
  }

  /** Starting over after the first upload meets only covered snapshots before the second. */
  lemma {:induction false} Restart(c: Config, hot: map<Id, Snapshot>, snaps: seq<Listed>, i: nat, rows: map<Id, Row>)
    requires i <= |snaps| && AllHot(hot, snaps)
    requires forall k :: 0 <= k < i ==> Covered(c, hot, rows, snaps[k].id)
    ensures Uploads(c, hot, snaps, 0, rows) == Uploads(c, hot, snaps, i, rows)
    decreases i
  {
    if i > 0 { Restart(c, hot, snaps, i - 1, rows); }
  }

  lemma {:induction false} AfterFirst(c: Config, hot: map<Id, Snapshot>, snaps: seq<Listed>, i: nat, rows: map<Id, Row>)
    requires i <= |snaps| && AllHot(hot, snaps)
    requires forall k :: 0 <= k < i ==> Covered(c, hot, rows, snaps[k].id)
    requires Uploads(c, hot, snaps, i, rows) != []
    ensures var ids := Uploads(c, hot, snaps, i, rows);
            Uploads(c, hot, snaps, 0, Put(c, hot, rows, ids[0], 0)) == ids[1..]
    decreases |snaps| - i
  {
    var id := snaps[i].id;
    if Covered(c, hot, rows, id) {
      AfterFirst(c, hot, snaps, i + 1, rows);
    } else {
      var rows' := Put(c, hot, rows, id, 0);
      forall k | 0 <= k < i + 1 ensures Covered(c, hot, rows', snaps[k].id) {
        if k < i { CoveredMonotone(c, hot, rows, rows', snaps[k].id); }
      }
      Restart(c, hot, snaps, i + 1, rows');
    }
  }

  // ---------- many "latest" passes ----------

  datatype Runs = Runs(rows: map<Id, Row>, remote: map<string, Content>, counts: seq<nat>)

  /** One "latest" pass at each of the times. */
  function LatestRuns(c: Config, hot: map<Id, Snapshot>, snaps: seq<Listed>, rows: map<Id, Row>, remote: map<string, Content>, times: seq<nat>): (r: Runs)
    decreases |times|
  {
    if times == [] then Runs(rows, remote, [])
    else
      var p := UploadAll(c, Clean(times[0]), hot, snaps, rows, remote);
      var rest := LatestRuns(c, hot, snaps, p.rows, p.remote, times[1..]);
      Runs(rest.rows, rest.remote, [p.count] + rest.counts)
  }

  /** The first of several "latest" passes, and what it leaves to the others. */
  lemma {:induction false} FirstPass(c: Config, hot: map<Id, Snapshot>, snaps: seq<Listed>, rows: map<Id, Row>, remote: map<string, Content>, at: nat)
    requires c.latestOnly && AllHot(hot, snaps) && Uploads(c, hot, snaps, 0, rows) != []
    ensures var all := Uploads(c, hot, snaps, 0, rows);
            var p := UploadAll(c, Clean(at), hot, snaps, rows, remote);
            && Kept(p.rows) == KeptWith(c, hot, Kept(rows), [all[0]])
            && p.remote == RemoteWith(c, hot, remote, [all[0]])
            && p.count == 1
            && Uploads(c, hot, snaps, 0, p.rows) == all[1..]
  {
    var all := Uploads(c, hot, snaps, 0, rows);
    LatestLoop(c, at, hot, snaps, 0, rows, remote);
    AfterFirst(c, hot, snaps, 0, rows);
    PutKept(c, hot, rows, rows, all[0], at, 0);
    UploadsByKept(c, hot, snaps, 0, Put(c, hot, rows, all[0], at), Put(c, hot, rows, all[0], 0));
    assert [all[0]][1..] == [];
  }

  lemma {:induction false} SlicesOfTail(s: seq<Id>, n: nat)
    requires 0 < n <= |s|
    ensures s[..n][1..] == s[1..][..n - 1] && s[1..][n - 1..] == s[n..] && s[..n][0] == s[0]
  {}

  lemma {:induction false} KthCount(c: Config, hot: map<Id, Snapshot>, snaps: seq<Listed>, rows: map<Id, Row>, remote: map<string, Content>, times: seq<nat>)
    requires c.latestOnly && AllHot(hot, snaps)
    requires |times| <= |Uploads(c, hot, snaps, 0, rows)|
    ensures var r := LatestRuns(c, hot, snaps, rows, remote, times);
            && |r.counts| == |times| && (forall k :: 0 <= k < |times| ==> r.counts[k] == 1)
            && Uploads(c, hot, snaps, 0, r.rows) == Uploads(c, hot, snaps, 0, rows)[|times|..]
    decreases |times|
  {
    if times != [] {
      FirstPass(c, hot, snaps, rows, remote, times[0]);
      var p := UploadAll(c, Clean(times[0]), hot, snaps, rows, remote);
      KthCount(c, hot, snaps, p.rows, p.remote, times[1..]);
      SlicesOfTail(Uploads(c, hot, snaps, 0, rows), |times|);
    }
  }

  lemma {:induction false} KthStores(c: Config, hot: map<Id, Snapshot>, snaps: seq<Listed>, rows: map<Id, Row>, remote: map<string, Content>, times: seq<nat>)
    requires c.latestOnly && AllHot(hot, snaps)
    requires |times| <= |Uploads(c, hot, snaps, 0, rows)|
    ensures var ids := Uploads(c, hot, snaps, 0, rows)[..|times|];
            var r := LatestRuns(c, hot, snaps, rows, remote, times);
            Kept(r.rows) == KeptWith(c, hot, Kept(rows), ids) && r.remote == RemoteWith(c, hot, remote, ids)
    decreases |times|
  {
    var all := Uploads(c, hot, snaps, 0, rows);
    if times != [] {
      FirstPass(c, hot, snaps, rows, remote, times[0]);
      var p := UploadAll(c, Clean(times[0]), hot, snaps, rows, remote);
      KthStores(c, hot, snaps, p.rows, p.remote, times[1..]);
      WithFirst(c, hot, Kept(rows), remote, all[..|times|]);
      SlicesOfTail(all, |times|);
    } else {
      assert all[..0] == [];
    }
  }

  /** After k "latest" passes the stores are those of the first k uploads of the "all" pass. */
  lemma {:induction false} KthPass(c: Config, hot: map<Id, Snapshot>, snaps: seq<Listed>, rows: map<Id, Row>, remote: map<string, Content>, times: seq<nat>)
    requires c.latestOnly && AllHot(hot, snaps)
    requires |times| <= |Uploads(c, hot, snaps, 0, rows)|
    ensures var ids := Uploads(c, hot, snaps, 0, rows)[..|times|];
            var r := LatestRuns(c, hot, snaps, rows, remote, times);
            && Kept(r.rows) == KeptWith(c, hot, Kept(rows), ids)
            && r.remote == RemoteWith(c, hot, remote, ids)
            && |r.counts| == |times| && (forall k :: 0 <= k < |times| ==> r.counts[k] == 1)
            && Uploads(c, hot, snaps, 0, r.rows) == Uploads(c, hot, snaps, 0, rows)[|times|..]
  {
    KthStores(c, hot, snaps, rows, remote, times);
    KthCount(c, hot, snaps, rows, remote, times);
  }

  /** "latest" passes repeated until nothing is uploaded end with the record set and the remote
      of one "all" pass; their number is the number of its uploads, at most one per listed
      snapshot. */
  lemma {:induction false} LatestReachesAll(c: Config, hot: map<Id, Snapshot>, snaps: seq<Listed>, rows: map<Id, Row>, remote: map<string, Content>,
                                            times: seq<nat>, at: nat, later: nat)
    requires c.latestOnly && AllHot(hot, snaps)
    requires |times| == |Uploads(c, hot, snaps, 0, rows)|
    ensures var all := UploadAll(c.(latestOnly := false), Clean(at), hot, snaps, rows, remote);
            var r := LatestRuns(c, hot, snaps, rows, remote, times);
            && Kept(r.rows) == Kept(all.rows) && r.remote == all.remote
            && all.count == |times| <= |snaps|
            && |r.counts| == |times| && (forall k :: 0 <= k < |times| ==> r.counts[k] == 1)
            && UploadAll(c, Clean(later), hot, snaps, r.rows, r.remote) == Pass(r.rows, r.remote, 0, 0, true)
  {
    var d := c.(latestOnly := false);
    AllLoop(d, at, hot, snaps, 0, rows, remote, 0, 0);
    SameUploads(c, d, hot, snaps, 0, rows);
    var ids := Uploads(c, hot, snaps, 0, rows);
    SameEffects(c, d, hot, Kept(rows), remote, ids);
    KthPass(c, hot, snaps, rows, remote, times);
    assert ids[..|times|] == ids && ids[|times|..] == [];
    var r := LatestRuns(c, hot, snaps, rows, remote, times);
    LatestLoop(c, later, hot, snaps, 0, r.rows, r.remote);
  }

  lemma {:induction false} SameUploads(c: Config, d: Config, hot: map<Id, Snapshot>, snaps: seq<Listed>, i: nat, rows: map<Id, Row>)
    requires i <= |snaps| && AllHot(hot, snaps) && d == c.(latestOnly := d.latestOnly)
    ensures Uploads(c, hot, snaps, i, rows) == Uploads(d, hot, snaps, i, rows)
    decreases |snaps| - i
  {
    if i < |snaps| {
      if Covered(c, hot, rows, snaps[i].id) {
        SameUploads(c, d, hot, snaps, i + 1, rows);
      } else {
        SameUploads(c, d, hot, snaps, i + 1, Put(c, hot, rows, snaps[i].id, 0));
      }
    }
  }

  lemma {:induction false} SameEffects(c: Config, d: Config, hot: map<Id, Snapshot>, kept: map<Id, Entry>, remote: map<string, Content>, ids: seq<Id>)
    requires d == c.(latestOnly := d.latestOnly) && forall k :: 0 <= k < |ids| ==> ids[k] in hot
    ensures KeptWith(c, hot, kept, ids) == KeptWith(d, hot, kept, ids)
    ensures RemoteWith(c, hot, remote, ids) == RemoteWith(d, hot, remote, ids)
    decreases |ids|
  {
    if ids != [] {
      var e := Entry(|hot[ids[0]].content|, c.checksum(hot[ids[0]].content));
      SameEffects(c, d, hot, kept[ids[0] := e], remote[ObjectPath(c, ids[0]) := hot[ids[0]].content], ids[1..]);
    }
  }
}
