/** The in-process limiter that still bites when the shared counter is down. */
module Throttle {
  import opened Basics

  type BucketId = string

  const DEGRADED_IP_MAX := 20
  const DEGRADED_IP_WINDOW_MS := 5 * 60 * 1000

  datatype Window = Window(count: nat, start: int)

  /** `Math.ceil(ms / 1000)`, or 1 when that is 0. */
  function RetryAfter(remainingMs: nat): nat {
    var seconds := (remainingMs + 999) / 1000;
    if seconds == 0 then 1 else seconds
  }

  /** The bucket after one call at `now`, and the wait in seconds that the call gets (0: allowed). */
  function Hit(windows: map<BucketId, Window>, b: BucketId, now: int): (map<BucketId, Window>, nat) {
    if b !in windows || now - windows[b].start > DEGRADED_IP_WINDOW_MS then
      (windows[b := Window(1, now)], 0)
    else
      var w := Window(windows[b].count + 1, windows[b].start);
      (windows[b := w],
       if w.count > DEGRADED_IP_MAX then RetryAfter(Max(DEGRADED_IP_WINDOW_MS - (now - w.start), 0)) else 0)
  }

  class ThrottleService {
    var degraded: map<BucketId, Window>

    constructor ()
      ensures degraded == map[]
    {
      degraded := map[];
    }

    method FailOpenIp(bucketId: BucketId, now: int) returns (wait: nat)
      modifies this
      ensures (degraded, wait) == Hit(old(degraded), bucketId, now)
    {
      if bucketId !in degraded || now - degraded[bucketId].start > DEGRADED_IP_WINDOW_MS {
        degraded := degraded[bucketId := Window(1, now)];
        return 0;
      }
      degraded := degraded[bucketId := Window(degraded[bucketId].count + 1, degraded[bucketId].start)];
      var bucket := degraded[bucketId];
      if bucket.count > DEGRADED_IP_MAX {
        var elapsed := now - bucket.start;
        var remainingMs := Max(DEGRADED_IP_WINDOW_MS - elapsed, 0);
        return RetryAfter(remainingMs);
      }
      return 0;
    }
  }

  // ── whole call sequences ─────────────────────────────────────────────────

  datatype Call = Call(bucket: BucketId, at: int)

  function Windows(calls: seq<Call>): map<BucketId, Window> {
    if calls == [] then map[]
    else
      var last := calls[|calls| - 1];
      Hit(Windows(calls[..|calls| - 1]), last.bucket, last.at).0
  }

  /** The wait that the `k`-th call gets. */
  function WaitOf(calls: seq<Call>, k: nat): nat
    requires k < |calls|
  {
    Hit(Windows(calls[..k]), calls[k].bucket, calls[k].at).1
  }

  predicate ClockOrdered(calls: seq<Call>) {
    forall j, k :: 0 <= j < k < |calls| ==> calls[j].at <= calls[k].at
  }

  /** How many calls on `b` are allowed between `from` and `to`, both included. */
  function Allowed(calls: seq<Call>, b: BucketId, from: int, to: int): nat {
    if calls == [] then 0
    else
      var k := |calls| - 1;
      Allowed(calls[..k], b, from, to) +
      if calls[k].bucket == b && from <= calls[k].at <= to && WaitOf(calls, k) == 0 then 1 else 0
  }

  /** One more call: its window, and whether it counts as allowed. */
  lemma AllowedSnoc(calls: seq<Call>, c: Call, b: BucketId, from: int, to: int)
    ensures Windows(calls + [c]) == Hit(Windows(calls), c.bucket, c.at).0
    ensures Allowed(calls + [c], b, from, to) ==
            Allowed(calls, b, from, to)
            + if c.bucket == b && from <= c.at <= to && Hit(Windows(calls), b, c.at).1 == 0 then 1 else 0
  {
    assert (calls + [c])[..|calls|] == calls;
  }

  /** What the current window has let through. */
  function Spent(w: Window): nat {
    if w.count < DEGRADED_IP_MAX then w.count else DEGRADED_IP_MAX
  }

  /**
   * The window in force opened at `w.start`: since then at most `Spent` calls were allowed, one of them
   * at that very instant, and a full window before it at most one window's worth less one.
   */
  ghost predicate Accounted(calls: seq<Call>, b: BucketId) {
    var ws := Windows(calls);
    && (b !in ws ==> forall from, to :: Allowed(calls, b, from, to) == 0)
    && (b in ws ==>
          && ws[b].count >= 1
          && (calls != [] ==> ws[b].start <= calls[|calls| - 1].at)
          && forall from, to ::
               && (ws[b].start < from ==> Allowed(calls, b, from, to) <= Spent(ws[b]) - 1)
               && (ws[b].start - DEGRADED_IP_WINDOW_MS <= from ==>
                     Allowed(calls, b, from, to) <= Spent(ws[b]) + DEGRADED_IP_MAX - 1)
               && (to <= from + DEGRADED_IP_WINDOW_MS ==> Allowed(calls, b, from, to) <= 2 * DEGRADED_IP_MAX - 1))
  }

  lemma {:induction false} NothingLater(calls: seq<Call>, b: BucketId, from: int, to: int)
    requires forall k :: 0 <= k < |calls| ==> calls[k].at < from
    ensures Allowed(calls, b, from, to) == 0
  {
    if calls != [] {
      NothingLater(calls[..|calls| - 1], b, from, to);
    }
  }

  lemma CallKeepsAccount(calls: seq<Call>, b: BucketId)
    requires calls != [] && ClockOrdered(calls) && Accounted(calls[..|calls| - 1], b)
    ensures Accounted(calls, b)
  {
    var k := |calls| - 1;
    var before, c := calls[..k], calls[k];
    if c.bucket == b {
      forall from, to | c.at < from { NothingLater(before, b, from, to); }
    }
  }

  lemma {:induction false} AlwaysAccounted(calls: seq<Call>, b: BucketId)
    requires ClockOrdered(calls)
    ensures Accounted(calls, b)
  {
    if calls != [] {
      AlwaysAccounted(calls[..|calls| - 1], b);
      CallKeepsAccount(calls, b);
    }
  }

  /** A bucket lets fewer than twice its maximum through in any closed interval of the window's length. */
  lemma BoundedInEveryWindow(calls: seq<Call>, b: BucketId, from: int)
    requires ClockOrdered(calls)
    ensures Allowed(calls, b, from, from + 300_000) <= 39
  {
    AlwaysAccounted(calls, b);
  }

  /** Every refusal asks for a wait between one second and the window. */
  lemma WaitIsBounded(calls: seq<Call>, k: nat)
    requires ClockOrdered(calls) && k < |calls| && WaitOf(calls, k) != 0
    ensures 1 <= WaitOf(calls, k) <= 300
  {
    AlwaysAccounted(calls[..k], calls[k].bucket);
  }

  /** What the window in force counts as spent was allowed since it opened. */
  lemma {:induction false} SpentWasAllowed(calls: seq<Call>, b: BucketId, from: int, to: int)
    requires ClockOrdered(calls) && b in Windows(calls) && from <= Windows(calls)[b].start
    requires forall k :: 0 <= k < |calls| ==> calls[k].at <= to
    ensures Allowed(calls, b, from, to) >= Spent(Windows(calls)[b])
  {
    var k := |calls| - 1;
    var before, c := calls[..k], calls[k];
    AlwaysAccounted(before, b);
    if b in Windows(before) && from <= Windows(before)[b].start {
      SpentWasAllowed(before, b, from, to);
    }
  }

  /** A call is refused only when the bucket has used up its maximum within the last window. */
  lemma RefusedOnlyWhenSpent(calls: seq<Call>, k: nat)
    requires ClockOrdered(calls) && k < |calls| && WaitOf(calls, k) != 0
    ensures Allowed(calls[..k], calls[k].bucket, calls[k].at - 300_000, calls[k].at) >= 20
  {
    SpentWasAllowed(calls[..k], calls[k].bucket, calls[k].at - DEGRADED_IP_WINDOW_MS, calls[k].at);
  }

  // ── which calls are refused, said without windows ────────────────────────

  /** A call opens a window unless one that opened one came within the last five minutes. */
  predicate Opens(calls: seq<Call>, k: nat)
    requires k < |calls|
    decreases k
  {
    forall j :: 0 <= j < k && calls[j].bucket == calls[k].bucket && Opens(calls, j) ==>
                  calls[k].at - calls[j].at > 300_000
  }

  /** How many of the calls `from`, …, `to - 1` are on `b`. */
  function CallsOn(calls: seq<Call>, b: BucketId, from: nat, to: nat): nat
    requires from <= to <= |calls|
  {
    if from == to then 0 else CallsOn(calls, b, from, to - 1) + if calls[to - 1].bucket == b then 1 else 0
  }

  /** The window of `b` before call `k` is the one that call `j` opened. */
  ghost predicate InForce(calls: seq<Call>, b: BucketId, j: nat, k: nat) {
    && j < k <= |calls| && calls[j].bucket == b && Opens(calls, j)
    && (forall i :: j < i < k && calls[i].bucket == b ==> !Opens(calls, i))
    && b in Windows(calls[..k]) && Windows(calls[..k])[b] == Window(CallsOn(calls, b, j, k), calls[j].at)
  }

  lemma NextWindows(calls: seq<Call>, k: nat)
    requires k < |calls|
    ensures Windows(calls[..k + 1]) == Hit(Windows(calls[..k]), calls[k].bucket, calls[k].at).0
  {
    assert calls[..k + 1][..k] == calls[..k];
  }

  lemma OpensOutside(calls: seq<Call>, b: BucketId, j: nat, k: nat)
    requires ClockOrdered(calls) && k < |calls| && InForce(calls, b, j, k) && calls[k].bucket == b
    ensures Opens(calls, k) <==> calls[k].at - calls[j].at > 300_000
  {
  }

  lemma OpenedIsInForce(calls: seq<Call>, b: BucketId, k: nat)
    requires k < |calls| && calls[k].bucket == b && Opens(calls, k)
    requires b in Windows(calls[..k]) ==> calls[k].at - Windows(calls[..k])[b].start > 300_000
    ensures InForce(calls, b, k, k + 1)
  {
    NextWindows(calls, k);
    assert CallsOn(calls, b, k, k) == 0;
  }

  lemma StaysInForce(calls: seq<Call>, b: BucketId, j: nat, k: nat)
    requires ClockOrdered(calls) && k < |calls| && InForce(calls, b, j, k)
    requires calls[k].bucket == b ==> !Opens(calls, k)
    ensures InForce(calls, b, j, k + 1)
  {
    NextWindows(calls, k);
    if calls[k].bucket == b { OpensOutside(calls, b, j, k); }
  }

  lemma {:induction false} NoWindowYet(calls: seq<Call>, b: BucketId, k: nat)
    requires k <= |calls| && forall i :: 0 <= i < k ==> calls[i].bucket != b
    ensures b !in Windows(calls[..k])
  {
    if k > 0 {
      NoWindowYet(calls, b, k - 1);
      NextWindows(calls, k - 1);
    }
  }

  predicate IsCalled(calls: seq<Call>, b: BucketId, k: nat) {
    k <= |calls| && exists i :: 0 <= i < k && calls[i].bucket == b
  }

  lemma FirstOpens(calls: seq<Call>, b: BucketId, k: nat)
    requires k < |calls| && calls[k].bucket == b && Opens(calls, k) && !IsCalled(calls, b, k)
    ensures InForce(calls, b, k, k + 1)
  {
    NoWindowYet(calls, b, k);
    OpenedIsInForce(calls, b, k);
  }

  lemma NextOpens(calls: seq<Call>, b: BucketId, j: nat, k: nat)
    requires ClockOrdered(calls) && k < |calls| && calls[k].bucket == b && Opens(calls, k) && InForce(calls, b, j, k)
    ensures InForce(calls, b, k, k + 1)
  {
    OpensOutside(calls, b, j, k);
    OpenedIsInForce(calls, b, k);
  }

  lemma SomebodyOpened(calls: seq<Call>, b: BucketId, k: nat)
    requires k < |calls| && IsCalled(calls, b, k + 1) && !(calls[k].bucket == b && Opens(calls, k))
    ensures IsCalled(calls, b, k)
  {
  }

  lemma {:induction false} WindowInForce(calls: seq<Call>, b: BucketId, k: nat) returns (j: nat)
    requires ClockOrdered(calls) && IsCalled(calls, b, k)
    ensures InForce(calls, b, j, k)
  {
    var last := k - 1;
    if calls[last].bucket == b && Opens(calls, last) {
      if IsCalled(calls, b, last) {
        j := WindowInForce(calls, b, last);
        NextOpens(calls, b, j, last);
      } else {
        FirstOpens(calls, b, last);
      }
      j := last;
    } else {
      SomebodyOpened(calls, b, last);
      j := WindowInForce(calls, b, last);
      StaysInForce(calls, b, j, last);
    }
  }

  /** Call `j` opened a window that is not over at call `k`, and twenty calls on the bucket have come since. */
  ghost predicate Refuses(calls: seq<Call>, j: nat, k: nat) {
    && j < k < |calls| && calls[j].bucket == calls[k].bucket && Opens(calls, j)
    && calls[k].at - calls[j].at <= 300_000 && CallsOn(calls, calls[k].bucket, j, k) >= 20
  }

  /** A call within five minutes of one that opened a window falls in that window. */
  lemma OpenerIsLast(calls: seq<Call>, j: nat, k: nat)
    requires ClockOrdered(calls) && j < k < |calls| && calls[j].bucket == calls[k].bucket && Opens(calls, j)
    requires calls[k].at - calls[j].at <= 300_000
    ensures InForce(calls, calls[k].bucket, j, k)
  {
    var l := WindowInForce(calls, calls[k].bucket, k);
    assert l == j;
  }

  /** A call is refused exactly when its window has taken twenty calls already. */
  lemma RefusedExactly(calls: seq<Call>, k: nat)
    requires ClockOrdered(calls) && k < |calls|
    ensures WaitOf(calls, k) != 0 <==> exists j: nat :: Refuses(calls, j, k)
  {
    var b := calls[k].bucket;
    if j: nat :| Refuses(calls, j, k) {
      OpenerIsLast(calls, j, k);
    }
    if WaitOf(calls, k) != 0 {
      if !IsCalled(calls, b, k) { NoWindowYet(calls, b, k); }
      var l := WindowInForce(calls, b, k);
      assert Refuses(calls, l, k);
    }
  }

  /** The wait is the least number of whole seconds, at least one, that covers the rest of the window. */
  lemma WaitIsLeast(calls: seq<Call>, j: nat, k: nat)
    requires ClockOrdered(calls) && Refuses(calls, j, k)
    ensures var rest := calls[j].at + 300_000 - calls[k].at;
            && 1 <= WaitOf(calls, k) && rest <= 1000 * WaitOf(calls, k)
            && forall w :: 1 <= w && rest <= 1000 * w ==> WaitOf(calls, k) <= w
  {
    OpenerIsLast(calls, j, k);
  }

  /**
   * Whoever waits as long as told is let in, unless the rest of the window was a whole number of seconds: the
   * window's last instant still belongs to it, and one second more is asked for.
   */
  lemma WaitingAsTold(calls: seq<Call>, j: nat, k: nat)
    requires ClockOrdered(calls) && k == |calls| - 1 && Refuses(calls, j, k)
    ensures var rest := calls[j].at + 300_000 - calls[k].at;
            var again := calls + [Call(calls[k].bucket, calls[k].at + 1000 * WaitOf(calls, k))];
            WaitOf(again, |calls|) == if rest > 0 && rest % 1000 == 0 then 1 else 0
  {
    OpenerIsLast(calls, j, k);
    WaitIsLeast(calls, j, k);
    NextWindows(calls, k);
    assert calls[..k + 1] == calls;
    var again := calls + [Call(calls[k].bucket, calls[k].at + 1000 * WaitOf(calls, k))];
    assert again[..|calls|] == calls;
  }

  // ── buckets ──────────────────────────────────────────────────────────────

  /** The calls on one bucket. */
  function OnBucket(calls: seq<Call>, b: BucketId): seq<Call> {
    if calls == [] then []
    else
      var k := |calls| - 1;
      OnBucket(calls[..k], b) + if calls[k].bucket == b then [calls[k]] else []
  }

  lemma {:induction false} AllowedIsIndependent(calls: seq<Call>, b: BucketId, from: int, to: int)
    ensures b in Windows(calls) <==> b in Windows(OnBucket(calls, b))
    ensures b in Windows(calls) ==> Windows(calls)[b] == Windows(OnBucket(calls, b))[b]
    ensures Allowed(calls, b, from, to) == Allowed(OnBucket(calls, b), b, from, to)
  {
    if calls != [] {
      var before, c := calls[..|calls| - 1], calls[|calls| - 1];
      assert calls == before + [c];
      AllowedIsIndependent(before, b, from, to);
      AllowedSnoc(before, c, b, from, to);
      if c.bucket == b {
        AllowedSnoc(OnBucket(before, b), c, b, from, to);
      } else {
        assert OnBucket(calls, b) == OnBucket(before, b);
      }
    }
  }

  /** A bucket's window, and so its answers, depend on its own calls only. */
  lemma BucketsAreIndependent(calls: seq<Call>, b: BucketId)
    ensures b in Windows(calls) <==> b in Windows(OnBucket(calls, b))
    ensures b in Windows(calls) ==> Windows(calls)[b] == Windows(OnBucket(calls, b))[b]
    ensures forall from, to :: Allowed(calls, b, from, to) == Allowed(OnBucket(calls, b), b, from, to)
  {
    AllowedIsIndependent(calls, b, 0, 0);
    forall from, to
      ensures Allowed(calls, b, from, to) == Allowed(OnBucket(calls, b), b, from, to)
    {
      AllowedIsIndependent(calls, b, from, to);
    }
  }

  // ── the bound is attained ────────────────────────────────────────────────

  /** No call comes before an earlier one, and none after `now`. */
  predicate OrderedUntil(calls: seq<Call>, now: int) {
    ClockOrdered(calls) && forall c :: c in calls ==> c.at <= now
  }

  lemma CallIsOrdered(calls: seq<Call>, c: Call)
    requires OrderedUntil(calls, c.at)
    ensures OrderedUntil(calls + [c], c.at)
  {
    assert forall k :: 0 <= k < |calls| ==> calls[k] in calls;
  }

  /** `n` calls that come while the window is open and not used up are all allowed. */
  lemma {:induction false} Burst(calls: seq<Call>, b: BucketId, at: int, n: nat, from: int, to: int)
    returns (longer: seq<Call>)
    requires OrderedUntil(calls, at) && b in Windows(calls)
    requires at - Windows(calls)[b].start <= DEGRADED_IP_WINDOW_MS
    requires Windows(calls)[b].count + n <= DEGRADED_IP_MAX && from <= at <= to
    ensures OrderedUntil(longer, at) && b in Windows(longer)
    ensures Windows(longer)[b] == Window(Windows(calls)[b].count + n, Windows(calls)[b].start)
    ensures Allowed(longer, b, from, to) == Allowed(calls, b, from, to) + n
  {
    longer := calls;
    if n > 0 {
      var shorter := Burst(calls, b, at, n - 1, from, to);
      longer := OneMore(shorter, b, at, from, to);
    }
  }

  lemma OneMore(calls: seq<Call>, b: BucketId, at: int, from: int, to: int) returns (longer: seq<Call>)
    requires OrderedUntil(calls, at) && b in Windows(calls)
    requires at - Windows(calls)[b].start <= DEGRADED_IP_WINDOW_MS
    requires Windows(calls)[b].count < DEGRADED_IP_MAX && from <= at <= to
    ensures OrderedUntil(longer, at) && b in Windows(longer)
    ensures Windows(longer)[b] == Window(Windows(calls)[b].count + 1, Windows(calls)[b].start)
    ensures Allowed(longer, b, from, to) == Allowed(calls, b, from, to) + 1
  {
    longer := calls + [Call(b, at)];
    CallIsOrdered(calls, Call(b, at));
    AllowedSnoc(calls, Call(b, at), b, from, to);
  }

  /** A call that finds no window in force opens one. */
  lemma Opening(calls: seq<Call>, b: BucketId, at: int, from: int, to: int) returns (longer: seq<Call>)
    requires OrderedUntil(calls, at)
    requires b !in Windows(calls) || at - Windows(calls)[b].start > DEGRADED_IP_WINDOW_MS
    ensures OrderedUntil(longer, at) && b in Windows(longer) && Windows(longer)[b] == Window(1, at)
    ensures Allowed(longer, b, from, to) == Allowed(calls, b, from, to) + if from <= at <= to then 1 else 0
  {
    longer := calls + [Call(b, at)];
    CallIsOrdered(calls, Call(b, at));
    AllowedSnoc(calls, Call(b, at), b, from, to);
  }

  /**
   * The bound is attained in every bucket: one call opens a window, the rest of its maximum comes at its
   * very end, and a full maximum right after it.
   */
  lemma BoundIsAttained(b: BucketId) returns (calls: seq<Call>, from: int)
    ensures ClockOrdered(calls)
    ensures Allowed(calls, b, from, from + 300_000) == 39
  {
    from := DEGRADED_IP_WINDOW_MS;
    var to := from + DEGRADED_IP_WINDOW_MS;
    calls := Opening([], b, 0, from, to);
    calls := Burst(calls, b, from, DEGRADED_IP_MAX - 1, from, to);
    calls := Opening(calls, b, from + 1, from, to);
    calls := Burst(calls, b, from + 1, DEGRADED_IP_MAX - 1, from, to);
  }
}
