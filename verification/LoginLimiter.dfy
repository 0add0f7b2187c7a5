/** The login limiter. It keeps a pruned list of failure times per address; the methods refine
    the full failure history, which only this model remembers. */
module LoginLimiter {

  const LOGIN_WINDOW: int := 60_000_000_000  // one minute, in nanoseconds
  const LOGIN_MAX_FAILS: nat := 10

  /** How many failures are no older than the cutoff. */
  function Recent(ts: seq<int>, cutoff: int): (n: nat)
    ensures n <= |ts|
  {
    if ts == [] then 0 else (if ts[0] < cutoff then 0 else 1) + Recent(ts[1..], cutoff)
  }

  /** The positions of the failures that are no older than the cutoff. */
  ghost function RecentAt(ts: seq<int>, cutoff: int): (ks: set<nat>) { set k: nat | k < |ts| && ts[k] >= cutoff }

  lemma {:induction false} RecentCounts(ts: seq<int>, cutoff: int)
    ensures Recent(ts, cutoff) == |RecentAt(ts, cutoff)|
  {
    if ts != [] {
      var n := |ts| - 1;
      RecentCounts(ts[..n], cutoff);
      RecentLast(ts, cutoff);
      assert RecentAt(ts, cutoff) == RecentAt(ts[..n], cutoff) + if ts[n] >= cutoff then {n} else {};
    }
  }

  lemma {:induction false} RecentLast(ts: seq<int>, cutoff: int)
    requires ts != []
    ensures Recent(ts, cutoff) == Recent(ts[..|ts| - 1], cutoff) + if ts[|ts| - 1] < cutoff then 0 else 1
  {
    if |ts| > 1 {
      RecentLast(ts[1..], cutoff);
      assert ts[1..][..|ts| - 2] == ts[..|ts| - 1][1..];
    }
  }

  /** In time order, none later than the clock. */
  predicate InOrder(h: seq<int>, clock: int) {
    h == [] || (h[0] <= clock && (|h| > 1 ==> h[0] <= h[1]) && InOrder(h[1..], clock))
  }

  /** `k` is the history `h` without a prefix that is older than the window. */
  predicate Keeps(h: seq<int>, k: seq<int>, clock: int)
    decreases |h|
  {
    h == k || (h != [] && h[0] < clock - LOGIN_WINDOW && Keeps(h[1..], k, clock))
  }

  predicate KeptOf(h: seq<int>, k: seq<int>, clock: int) {
    InOrder(h, clock) && Keeps(h, k, clock)
  }

  lemma {:induction false} KeptLater(h: seq<int>, k: seq<int>, clock: int, now: int)
    requires KeptOf(h, k, clock) && clock <= now
    ensures KeptOf(h, k, now)
  {
    if h != [] {
      if h == k { KeptLater(h[1..], h[1..], clock, now); } else { KeptLater(h[1..], k, clock, now); }
    }
  }

  /** The scan drops the first of the kept failures if it is old. */
  lemma {:induction false} KeepsDropFirst(h: seq<int>, k: seq<int>, clock: int)
    requires Keeps(h, k, clock) && k != [] && k[0] < clock - LOGIN_WINDOW
    ensures Keeps(h, k[1..], clock)
    decreases |h|
  {
    if h != k { KeepsDropFirst(h[1..], k, clock); }
  }

  lemma {:induction false} InOrderAppended(h: seq<int>, clock: int)
    requires InOrder(h, clock)
    ensures InOrder(h + [clock], clock)
  {
    if h != [] {
      assert (h + [clock])[1..] == h[1..] + [clock];
      InOrderAppended(h[1..], clock);
    }
  }

  lemma {:induction false} KeptAppended(h: seq<int>, k: seq<int>, clock: int)
    requires KeptOf(h, k, clock)
    ensures KeptOf(h + [clock], k + [clock], clock)
    decreases |h|
  {
    InOrderAppended(h, clock);
    if h != k {
      assert (h + [clock])[1..] == h[1..] + [clock];
      KeptAppended(h[1..], k, clock);
    }
  }

  lemma {:induction false} RecentOfYoung(ts: seq<int>, clock: int, cutoff: int)
    requires InOrder(ts, clock) && (ts != [] ==> cutoff <= ts[0])
    ensures Recent(ts, cutoff) == |ts|
  {
    if ts != [] { RecentOfYoung(ts[1..], clock, cutoff); }
  }

  /** The length of the pruned list is what the full history counts. */
  lemma {:induction false} ScanDecides(h: seq<int>, k: seq<int>, now: int)
    requires KeptOf(h, k, now) && (k != [] ==> now - LOGIN_WINDOW <= k[0])
    ensures Recent(h, now - LOGIN_WINDOW) == |k|
    decreases |h|
  {
    if h == k { RecentOfYoung(h, now, now - LOGIN_WINDOW); } else { ScanDecides(h[1..], k, now); }
  }

  /** The last failure of the list is in the window. */
  predicate Live(ts: seq<int>, cutoff: int) {
    ts != [] && ts[|ts| - 1] >= cutoff
  }

  /** A list whose last failure is old holds only old ones, so nothing is lost with it. */
  lemma {:induction false} StaleIsOld(h: seq<int>, k: seq<int>, clock: int)
    requires KeptOf(h, k, clock) && !Live(k, clock - LOGIN_WINDOW)
    ensures Keeps(h, [], clock)
    decreases |h|
  {
    if h != [] {
      if h != k { StaleIsOld(h[1..], k, clock); } else { StaleIsOld(h[1..], h[1..], clock); }
    }
  }

  /** Some recorded failure is no older than the cutoff. */
  ghost predicate FailedSince(h: seq<int>, cutoff: int) { exists k :: 0 <= k < |h| && h[k] >= cutoff }

  /** A live list has a failure in the window, and a failure in the window keeps its list alive. */
  lemma {:induction false} LiveByHistory(h: seq<int>, k: seq<int>, clock: int, cutoff: int)
    requires KeptOf(h, k, clock)
    ensures Live(k, cutoff) ==> FailedSince(h, cutoff)
    ensures FailedSince(h, clock - LOGIN_WINDOW) && cutoff <= clock - LOGIN_WINDOW ==> Live(k, cutoff)
    decreases |h|
  {
    if h == k {
      if FailedSince(h, cutoff) {
        var j :| 0 <= j < |h| && h[j] >= cutoff;
        LastIsLatest(h, clock, j);
      }
    } else {
      LiveByHistory(h[1..], k, clock, cutoff);
      if FailedSince(h, clock - LOGIN_WINDOW) {
        var j :| 0 <= j < |h| && h[j] >= clock - LOGIN_WINDOW;
        assert h[1..][j - 1] == h[j];
      }
      if Live(k, cutoff) {
        var j :| 0 <= j < |h[1..]| && h[1..][j] >= cutoff;
        assert h[j + 1] >= cutoff;
      }
    }
  }

  lemma {:induction false} LastIsLatest(h: seq<int>, clock: int, j: nat)
    requires InOrder(h, clock) && j < |h|
    ensures h[j] <= h[|h| - 1]
  {
    if |h| > 1 { LastIsLatest(h[1..], clock, if j == 0 then 0 else j - 1); }
  }

  // ---------- all addresses ----------

  function ListOf(m: map<string, seq<int>>, ip: string): (ts: seq<int>) {
    if ip in m then m[ip] else []
  }

  ghost predicate AllKept(history: map<string, seq<int>>, ips: map<string, seq<int>>, clock: int) {
    forall ip :: KeptOf(ListOf(history, ip), ListOf(ips, ip), clock)
  }

  lemma {:induction false} AllKeptLater(history: map<string, seq<int>>, ips: map<string, seq<int>>, clock: int, now: int)
    requires AllKept(history, ips, clock) && clock <= now
    ensures AllKept(history, ips, now)
  {
    forall ip ensures KeptOf(ListOf(history, ip), ListOf(ips, ip), now) {
      KeptLater(ListOf(history, ip), ListOf(ips, ip), clock, now);
    }
  }

  /** Only the lists of one address change. */
  lemma {:induction false} AllKeptBut(history: map<string, seq<int>>, ips: map<string, seq<int>>,
                                      history': map<string, seq<int>>, ips': map<string, seq<int>>, ip: string, now: int)
    requires AllKept(history, ips, now) && KeptOf(ListOf(history', ip), ListOf(ips', ip), now)
    requires forall x :: x != ip ==> ListOf(history', x) == ListOf(history, x)
    requires forall x :: x != ip ==> ListOf(ips', x) == ListOf(ips, x)
    ensures AllKept(history', ips', now)
  {
    forall x ensures KeptOf(ListOf(history', x), ListOf(ips', x), now) {
      if x != ip { assert KeptOf(ListOf(history, x), ListOf(ips, x), now); }
    }
  }

  class Limiter {
    var ips: map<string, seq<int>>
    ghost var history: map<string, seq<int>>  // every recorded failure
    ghost var clock: int                      // the last time any method looked

    ghost predicate Valid()
      reads this
    {
      AllKept(history, ips, clock)
    }

    constructor (ghost now: int)
      ensures Valid() && history == map[] && clock == now
    {
      ips := map[];
      history := map[];
      clock := now;
    }

    /** Refuses exactly when the full history has ten failures no older than the window. */
    method Allow(ip: string, now: int) returns (ok: bool)
      requires Valid() && clock <= now
      modifies this
      ensures Valid() && clock == now && history == old(history)
      ensures ok <==> Recent(ListOf(history, ip), now - LOGIN_WINDOW) < LOGIN_MAX_FAILS
      ensures ok <==> |RecentAt(ListOf(history, ip), now - 60_000_000_000)| < 10
    {
      RecentCounts(ListOf(history, ip), now - LOGIN_WINDOW);
      Advance(now);
      var cutoff := now - LOGIN_WINDOW;
      var ts := ListOf(ips, ip);
      ghost var h := ListOf(history, ip);
      var i := 0;
      while i < |ts| && ts[i] < cutoff
        invariant 0 <= i <= |ts| && Keeps(h, ts[i..], now)
        modifies {}
      {
        KeepsDropFirst(h, ts[i..], now);
        assert ts[i..][1..] == ts[i + 1..];
        i := i + 1;
      }
      ts := ts[i..];
      ScanDecides(h, ts, now);
      if |ts| >= LOGIN_MAX_FAILS {
        AllKeptBut(history, ips, history, ips[ip := ts], ip, now);
        ips := ips[ip := ts];
        return false;
      }
      return true;
    }

    /** A failed attempt at `now`. */
    method Record(ip: string, now: int)
      requires Valid() && clock <= now
      modifies this
      ensures Valid() && clock == now
      ensures history == old(history)[ip := ListOf(old(history), ip) + [now]]
    {
      Advance(now);
      ghost var h, k := ListOf(history, ip), ListOf(ips, ip);
      KeptAppended(h, k, now);
      AllKeptBut(history, ips, history[ip := h + [now]], ips[ip := k + [now]], ip, now);
      ips := ips[ip := ListOf(ips, ip) + [now]];
      history := history[ip := h + [now]];
    }

    /** One garbage collection: addresses without a failure in the window are forgotten. It
        reads the time before it takes the mutex, so others may have looked at a later one;
        an address with a failure in the window of the later time stays. */
    method Gc(now: int)
      requires Valid()
      modifies this
      ensures Valid() && history == old(history)
      ensures clock == if old(clock) < now then now else old(clock)
      ensures forall ip :: ip in ips <==> ip in old(ips) && Live(old(ips)[ip], now - LOGIN_WINDOW)
      ensures forall ip :: ip in ips ==> ips[ip] == old(ips)[ip]
      ensures forall ip :: ip in ips ==> FailedSince(ListOf(history, ip), now - 60_000_000_000)
      ensures forall ip :: FailedSince(ListOf(history, ip), clock - 60_000_000_000) ==> ip in ips
    {
      if clock < now { Advance(now); }
      forall ip ensures var h := ListOf(history, ip);
        && (Live(ListOf(ips, ip), now - LOGIN_WINDOW) ==> FailedSince(h, now - LOGIN_WINDOW))
        && (FailedSince(h, clock - LOGIN_WINDOW) ==> Live(ListOf(ips, ip), now - LOGIN_WINDOW))
      {
        LiveByHistory(ListOf(history, ip), ListOf(ips, ip), clock, now - LOGIN_WINDOW);
      }
      var cutoff := now - LOGIN_WINDOW;
      ghost var all, latest := ips, clock;
      var todo := ips.Keys;
      while todo != {}
        invariant Valid() && clock == latest && history == old(history)
        invariant todo <= ips.Keys <= all.Keys
        invariant forall ip :: ip in ips ==> ips[ip] == all[ip]
        invariant forall ip :: ip in all.Keys - todo ==> (ip in ips <==> Live(all[ip], cutoff))
        decreases |todo|
      {
        var ip :| ip in todo;
        if !Live(ips[ip], cutoff) {
          StaleIsOld(ListOf(history, ip), ips[ip], clock);
          AllKeptBut(history, ips, history, ips - {ip}, ip, clock);
          ips := ips - {ip};
        }
        todo := todo - {ip};
      }
    }

    ghost method Advance(now: int)
      requires Valid() && clock <= now
      modifies this`clock
      ensures Valid() && clock == now
    {
      AllKeptLater(history, ips, clock, now);
      clock := now;
    }
  }
}
