/** The entities the offsite workers share: one client's hot directory, its rows in
    offsite_objects, and its objects on the remote. */
module OffsiteModel {
  import opened Options
  import opened Timestamps

  type Id = string
  type Content = string

  datatype Mode = TarGz | Rsync

  /** A snapshot in the hot directory. */
  datatype Snapshot = Snapshot(created: nat, content: Content)

  /** One element of a hot listing. */
  datatype Listed = Listed(id: Id, created: nat)

  /** One offsite_objects row of the client and its remote; the snapshot id is the map key. */
  datatype Row = Row(uploadedAt: nat, bytes: nat, checksum: string)

  /** One element of a row listing. */
  datatype Obj = Obj(id: Id, row: Row)

  /** How long an upload pass that overlaps another one may last, in nanoseconds. A negative
      limit says that passes never overlap. */
  datatype Overlap = Unbounded | Bounded(limit: int)

  /** The client's settings, and the functions the model does not look into: the SHA-256
      digest and the tick set of the client's cron expression. `uploaders` names the upload
      workers that may run (`scheduled` those gated by cron); `overlap` restricts the runs
      looked at, it is no setting of the code. */
  datatype Config = Config(
    mode: Mode,
    dir: string,
    offsiteOn: bool,
    retentionDays: int,
    offsiteDays: int,
    disableOffsitePruning: bool,
    latestOnly: bool,
    checksum: Content -> string,
    hasCron: bool,
    ticks: nat -> bool,
    uploaders: set<nat>,
    scheduled: set<nat>,
    overlap: Overlap)

  /** An overlapping pass may be `n` nanoseconds old. */
  predicate MayOverlapBy(c: Config, n: int) { c.overlap.Unbounded? || n <= c.overlap.limit }

  /** Cron decides when the worker's passes are due. */
  predicate Gated(c: Config, u: nat) { u in c.scheduled && c.hasCron }

  /** One worker at most waits for cron, so of two workers one is started by hand. */
  ghost predicate OneSchedule(c: Config) {
    forall u, v :: Gated(c, u) && Gated(c, v) ==> u == v
  }

  // ---------- retention horizons ----------

  const NANOS_PER_DAY: int := 86_400_000_000_000
  const TWO_TO_THE_63: int := 0x8000_0000_0000_0000

  /** The most days that a time.Duration can hold. */
  const MAX_DAYS: int := 106_751

  /** The configured retention. */
  function Days(n: int): (nanos: int) { n * NANOS_PER_DAY }

  /** int64 arithmetic: the one value in range that differs by a multiple of 2^64. */
  function Wrap64(x: int): (y: int)
    ensures -0x8000_0000_0000_0000 <= y < 0x8000_0000_0000_0000
    ensures (y - x) % 0x1_0000_0000_0000_0000 == 0
  {
    (x + TWO_TO_THE_63) % (2 * TWO_TO_THE_63) - TWO_TO_THE_63
  }

  /** How far the cutoff `now.Add(-time.Duration(n) * 24 * time.Hour)` lies behind now. */
  function Horizon(n: int): (nanos: int) { -Wrap64(-Days(n)) }

  /** The cutoff lies as far back as configured exactly if the product fits 64 bits. Above
      that it never lies far enough. */
  lemma {:induction false} HorizonIsExact(n: nat)
    ensures Horizon(n) == Days(n) <==> n <= MAX_DAYS
    ensures n > MAX_DAYS ==> Horizon(n) < Days(n)
  {}

  /** Retention "for ever" puts the cutoff more than 184 years into the future. */
  lemma {:induction false} ForeverIsInTheFuture()
    ensures Horizon(999_999) == -5_833_806_768_547_758_080
  {}

  function ColdHorizon(c: Config): (nanos: int) { Horizon(c.offsiteDays) }

  function HotHorizon(c: Config): (nanos: int) { Horizon(c.retentionDays) }

  predicate ColdPruningOn(c: Config) {
    c.offsiteOn && !c.disableOffsitePruning && c.offsiteDays > 0
  }

  function ObjectPath(c: Config, id: Id): (path: string) {
    c.dir + "/" + (if c.mode.Rsync? then id + ".tar.gz" else id)
  }

  /** Two snapshots of a client never share an object. */
  lemma {:induction false} ObjectPathInjective(c: Config, a: Id, b: Id)
    requires ObjectPath(c, a) == ObjectPath(c, b)
    ensures a == b
  {
    var p, q := ObjectPath(c, a), ObjectPath(c, b);
    var n := |c.dir| + 1;
    assert |a| == |b|;
    assert a == p[n..n + |a|] && b == q[n..n + |b|];
  }

  /** The object lies in the client's own directory: what follows the last slash is the snapshot
      id of a tar.gz client, and the id of an rsync client with the ending of its archive. */
  lemma {:induction false} ObjectPathParts(c: Config, id: Id)
    requires '/' !in id
    ensures var path := ObjectPath(c, id); var n := |c.dir|;
            && n < |path| && path[..n] == c.dir && path[n] == '/' && '/' !in path[n + 1..]
            && path[n + 1..] == match c.mode case TarGz => id case Rsync => id + ".tar.gz"
  {
    assert '/' !in ".tar.gz";
  }

  lemma {:induction false} NoSlashBehind(path: string, n: nat, m: nat)
    requires n < |path| && m < |path| && '/' !in path[n + 1..] && path[m] == '/'
    ensures m <= n
  {
    forall k | n < k < |path| ensures path[k] != '/' { assert path[k] == path[n + 1..][k - n - 1]; }
  }

  /** Clients with different directories never share an object, whatever their modes. */
  lemma {:induction false} ObjectsApart(c: Config, d: Config, a: Id, b: Id)
    requires '/' !in a && '/' !in b && ObjectPath(c, a) == ObjectPath(d, b)
    ensures c.dir == d.dir
    ensures c.mode == d.mode ==> a == b
    ensures c.mode != d.mode ==> if c.mode.Rsync? then b == a + ".tar.gz" else a == b + ".tar.gz"
  {
    var p := ObjectPath(c, a);
    ObjectPathParts(c, a);
    ObjectPathParts(d, b);
    NoSlashBehind(p, |c.dir|, |d.dir|);
    NoSlashBehind(p, |d.dir|, |c.dir|);
    if c.mode == d.mode && c.mode.Rsync? {
      assert (a + ".tar.gz")[..|a|] == a && (b + ".tar.gz")[..|b|] == b;
    }
  }

  /** sort.Slice by CreatedAt, newest first, over a directory listing. */
  ghost predicate NewestFirst(snaps: seq<Listed>, hot: map<Id, Snapshot>) {
    && (forall i :: 0 <= i < |snaps| ==> snaps[i].id in hot && snaps[i].created == hot[snaps[i].id].created)
    && (forall id :: id in hot ==> exists i :: 0 <= i < |snaps| && snaps[i].id == id)
    && (forall i, j :: 0 <= i < j < |snaps| ==> snaps[i].id != snaps[j].id && snaps[i].created >= snaps[j].created)
  }

  /** The order of the uploaded_at column, on instants that print in four year digits. */
  predicate SortsBefore(a: nat, b: nat) {
    InRange(a) && InRange(b) && TextBefore(a, b)
  }

  ghost predicate RowsInRange(rows: map<Id, Row>) {
    forall id :: id in rows ==> InRange(rows[id].uploadedAt)
  }

  /** SELECT ... ORDER BY uploaded_at DESC. */
  ghost predicate RowsNewestFirst(objs: seq<Obj>, rows: map<Id, Row>) {
    && (forall i :: 0 <= i < |objs| ==> objs[i].id in rows && objs[i].row == rows[objs[i].id])
    && (forall id :: id in rows ==> exists i :: 0 <= i < |objs| && objs[i].id == id)
    && (forall i, j :: 0 <= i < j < |objs| ==> objs[i].id != objs[j].id)
    && (forall i, j :: 0 <= i < j < |objs| ==> !SortsBefore(objs[i].row.uploadedAt, objs[j].row.uploadedAt))
  }

  /** SELECT uploaded_at ... ORDER BY uploaded_at DESC LIMIT 1. */
  ghost predicate IsLatestOffsite(rows: map<Id, Row>, t: nat) {
    && (exists id :: id in rows && rows[id].uploadedAt == t)
    && (forall id :: id in rows ==> !SortsBefore(t, rows[id].uploadedAt))
  }

  /** LatestOffsite. */
  ghost predicate LatestIs(rows: map<Id, Row>, last: Option<nat>) {
    if last.None? then rows == map[] else IsLatestOffsite(rows, last.value)
  }

  /** OffsiteChecksumExists. */
  predicate ChecksumExists(rows: map<Id, Row>, checksum: string) {
    checksum != "" && exists id :: id in rows && rows[id].checksum == checksum
  }

  /** The whole second of a text-latest row is the largest one. */
  lemma {:induction false} SortedSeconds(a: nat, b: nat)
    requires InRange(a) && InRange(b)
    ensures !SortsBefore(a, b) ==> WholeSecond(b) <= WholeSecond(a)
  {
    TextOrder(a, b);
  }

  /** A time that is a second later never sorts before. */
  lemma {:induction false} SecondLater(a: nat, b: nat)
    requires a + NANOS_PER_SECOND <= b
    ensures !SortsBefore(b, a)
  {
    if InRange(a) && InRange(b) { TextOrder(b, a); }
  }

  lemma {:induction false} LatestIsUnique(rows: map<Id, Row>, a: nat, b: nat)
    requires RowsInRange(rows)
    ensures IsLatestOffsite(rows, a) && IsLatestOffsite(rows, b) ==> a == b
  {
    if IsLatestOffsite(rows, a) && IsLatestOffsite(rows, b) {
      TextOrder(a, b);
      TextOrder(b, a);
    }
  }

  /** No row is later, to the second, than the answer of LatestOffsite. */
  ghost predicate LastSecond(rows: map<Id, Row>, last: Option<nat>) {
    if last.None? then rows == map[] else forall id :: id in rows ==> WholeSecond(rows[id].uploadedAt) <= WholeSecond(last.value)
  }

  lemma {:induction false} LatestHasLastSecond(rows: map<Id, Row>, last: Option<nat>)
    requires RowsInRange(rows)
    ensures LatestIs(rows, last) ==> LastSecond(rows, last)
  {
    if LatestIs(rows, last) && last.Some? {
      forall id | id in rows ensures WholeSecond(rows[id].uploadedAt) <= WholeSecond(last.value) {
        SortedSeconds(last.value, rows[id].uploadedAt);
      }
    }
  }
}
