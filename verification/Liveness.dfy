/**
 When a session probes a silent peer, when it gives up on it, and when it reports doubt.

 Times are nanoseconds since the session started. `arrivals` are the times of inbound frames, in
 order. The ticks are those of an interval created `p` nanoseconds into the session: tick `k` comes on
 time, `k` periods after that, tick 0 is not served, and inbound frames are drained before one is.
 */
module Liveness {
  import opened Prelude

  const SECOND := 1_000_000_000
  const MILLISECOND := 1_000_000
  const TICK := 15 * SECOND
  const PROBE_AFTER := 60 * SECOND
  const STALE_AFTER := 90 * SECOND
  const DEAD_AFTER := 180 * SECOND

  ghost predicate InOrder(arrivals: seq<nat>) {
    forall i, j :: 0 <= i < j < |arrivals| ==> arrivals[i] <= arrivals[j]
  }

  /** The last frame at or before `t`; the start of the session counts as one. */
  function LastInbound(arrivals: seq<nat>, t: nat): (r: nat)
    ensures r <= t && (r == 0 || r in arrivals)
  {
    if arrivals == [] then 0
    else if arrivals[|arrivals| - 1] <= t then arrivals[|arrivals| - 1]
    else LastInbound(arrivals[..|arrivals| - 1], t)
  }

  function Silence(arrivals: seq<nat>, t: nat): nat {
    t - LastInbound(arrivals, t)
  }

  function TickAt(p: nat, k: nat): nat {
    p + k * TICK
  }

  datatype Verdict = Quiet | Probe | Dead

  function AtTick(p: nat, arrivals: seq<nat>, k: nat): Verdict {
    var silent := Silence(arrivals, TickAt(p, k));
    if silent >= DEAD_AFTER then Dead else if silent >= PROBE_AFTER then Probe else Quiet
  }

  /** The session has survived ticks 1 to `k`. */
  ghost predicate Alive(p: nat, arrivals: seq<nat>, k: nat) {
    forall j :: 1 <= j <= k ==> AtTick(p, arrivals, j) != Dead
  }

  ghost predicate ClosedAt(p: nat, arrivals: seq<nat>, k: nat) {
    k >= 1 && Alive(p, arrivals, k - 1) && AtTick(p, arrivals, k) == Dead
  }

  /** Probes sent at ticks `lo` up to, and without, `hi`. */
  function Probes(p: nat, arrivals: seq<nat>, lo: int, hi: int): nat
    decreases hi - lo
  {
    if lo >= hi then 0
    else (if lo >= 0 && AtTick(p, arrivals, lo) == Probe then 1 else 0) + Probes(p, arrivals, lo + 1, hi)
  }

  /** Takes in the frames that have arrived by `now`. */
  method Drain(arrivals: seq<nat>, taken: nat, now: nat) returns (seen: nat)
    requires taken <= |arrivals| && (taken > 0 ==> arrivals[taken - 1] <= now)
    ensures taken <= seen <= |arrivals|
    ensures (seen > 0 ==> arrivals[seen - 1] <= now) && (seen < |arrivals| ==> arrivals[seen] > now)
  {
    seen := taken;
    while seen < |arrivals| && arrivals[seen] <= now
      invariant taken <= seen <= |arrivals| && (seen > 0 ==> arrivals[seen - 1] <= now)
    {
      seen := seen + 1;
    }
  }

  /** The ticks of the loop, up to `ticks` of them: the tick it closed at, and how many probes it sent. */
  method Watch(p: nat, arrivals: seq<nat>, ticks: nat) returns (closed: Option<nat>, probes: nat)
    requires InOrder(arrivals)
    ensures closed.None? ==> Alive(p, arrivals, ticks) && probes == Probes(p, arrivals, 1, ticks + 1)
    ensures closed.Some? ==> ClosedAt(p, arrivals, closed.value) && closed.value <= ticks
                             && probes == Probes(p, arrivals, 1, closed.value)
  {
    var lastInbound: nat, seen: nat := 0, 0;
    probes := 0;
    var k := 1;
    while k <= ticks
      invariant 1 <= k <= ticks + 1
      invariant seen <= |arrivals|
      invariant lastInbound == if seen == 0 then 0 else arrivals[seen - 1]
      invariant lastInbound <= TickAt(p, k - 1)
      invariant Alive(p, arrivals, k - 1) && probes == Probes(p, arrivals, 1, k)
    {
      var now := TickAt(p, k);
      seen := Drain(arrivals, seen, now);
      lastInbound := if seen == 0 then 0 else arrivals[seen - 1];
      SeenIsLast(arrivals, seen, now);
      ProbesGrow(p, arrivals, 1, k);
      var silentFor := now - lastInbound;
      if silentFor >= DEAD_AFTER {
        return Some(k), probes;
      }
      if silentFor >= PROBE_AFTER {
        probes := probes + 1;
      }
      k := k + 1;
    }
    closed := None;
  }

  lemma {:induction false} SeenIsLast(arrivals: seq<nat>, seen: nat, t: nat)
    requires InOrder(arrivals) && seen <= |arrivals|
    requires seen > 0 ==> arrivals[seen - 1] <= t
    requires seen < |arrivals| ==> arrivals[seen] > t
    ensures LastInbound(arrivals, t) == if seen == 0 then 0 else arrivals[seen - 1]
    decreases |arrivals|
  {
    if seen < |arrivals| {
      SeenIsLast(arrivals[..|arrivals| - 1], seen, t);
    }
  }

  lemma {:induction false} ProbesGrow(p: nat, arrivals: seq<nat>, lo: int, hi: int)
    requires 0 <= lo <= hi
    ensures Probes(p, arrivals, lo, hi + 1) == Probes(p, arrivals, lo, hi) + (if AtTick(p, arrivals, hi) == Probe then 1 else 0)
    decreases hi - lo
  {
    if lo < hi {
      ProbesGrow(p, arrivals, lo + 1, hi);
    }
  }

  // ---- facts about silence --------------------------------------------------------------------

  /** Nothing arrives between the last frame and now. */
  lemma {:induction false} NothingSince(arrivals: seq<nat>, t: nat, i: nat)
    requires InOrder(arrivals) && i < |arrivals| && arrivals[i] <= t
    ensures arrivals[i] <= LastInbound(arrivals, t)
    decreases |arrivals|
  {
    if arrivals[|arrivals| - 1] > t {
      NothingSince(arrivals[..|arrivals| - 1], t, i);
    }
  }

  /** Between a last frame and a later moment with the same last frame, it is the last frame throughout. */
  lemma {:induction false} SameLast(arrivals: seq<nat>, u: nat, t: nat)
    requires InOrder(arrivals) && LastInbound(arrivals, t) <= u <= t
    ensures LastInbound(arrivals, u) == LastInbound(arrivals, t)
    decreases |arrivals|
  {
    if arrivals != [] && arrivals[|arrivals| - 1] > u {
      SameLast(arrivals[..|arrivals| - 1], u, t);
    }
  }

  /** The first tick at or after `t`. */
  function FirstTick(p: nat, t: nat): (k: nat)
    ensures t <= TickAt(p, k) && (k == 0 <==> t <= p) && (k > 0 ==> TickAt(p, k) < t + TICK)
  {
    if t <= p then 0 else (t - p + TICK - 1) / TICK
  }

  lemma {:induction false} AllProbes(p: nat, arrivals: seq<nat>, lo: int, hi: int)
    requires 0 <= lo <= hi && forall k :: lo <= k < hi ==> AtTick(p, arrivals, k) == Probe
    ensures Probes(p, arrivals, lo, hi) == hi - lo
    decreases hi - lo
  {
    if lo < hi {
      AllProbes(p, arrivals, lo + 1, hi);
    }
  }

  lemma {:induction false} NoProbes(p: nat, arrivals: seq<nat>, lo: int, hi: int)
    requires 0 <= lo <= hi && forall k :: lo <= k < hi ==> AtTick(p, arrivals, k) == Quiet
    ensures Probes(p, arrivals, lo, hi) == 0
    decreases hi - lo
  {
    if lo < hi {
      NoProbes(p, arrivals, lo + 1, hi);
    }
  }

  lemma {:induction false} ProbesSplit(p: nat, arrivals: seq<nat>, lo: int, mid: int, hi: int)
    requires 0 <= lo <= mid <= hi
    ensures Probes(p, arrivals, lo, hi) == Probes(p, arrivals, lo, mid) + Probes(p, arrivals, mid, hi)
    decreases mid - lo
  {
    if lo < mid {
      ProbesSplit(p, arrivals, lo + 1, mid, hi);
    }
  }

  // ---- the bounds -----------------------------------------------------------------------------

  /** The peer is never heard again after `s`. */
  ghost predicate SilentSince(arrivals: seq<nat>, s: nat) {
    forall t: nat :: t >= s ==> LastInbound(arrivals, t) == s
  }

  /** What each tick after `s` makes of the silence; `m` is the first that probes. */
  lemma SilentTick(p: nat, arrivals: seq<nat>, s: nat, c: nat, m: nat, j: nat)
    requires SilentSince(arrivals, s) && s <= TickAt(p, c) && c <= j <= m + 8
    requires s + PROBE_AFTER <= TickAt(p, m) < s + PROBE_AFTER + TICK
    ensures AtTick(p, arrivals, j) == if j < m then Quiet else if j < m + 8 then Probe else Dead
  {
    assert LastInbound(arrivals, TickAt(p, j)) == s;
  }

  /**
   A peer that falls silent at `s` is closed at a silence of at least 180 s and under 195 s, after
   exactly eight probes, if the ticks begin before it has been silent for a minute.
   */
  lemma SilentPeerIsClosed(p: nat, arrivals: seq<nat>, s: nat) returns (k: nat)
    requires SilentSince(arrivals, s) && Alive(p, arrivals, FirstTick(p, s)) && p < s + PROBE_AFTER
    ensures ClosedAt(p, arrivals, k)
    ensures DEAD_AFTER <= TickAt(p, k) - s < DEAD_AFTER + TICK
    ensures Probes(p, arrivals, FirstTick(p, s), k) == 8
  {
    var c, m := FirstTick(p, s), FirstTick(p, s + PROBE_AFTER);
    k := m + 8;
    forall j | c <= j <= k
      ensures AtTick(p, arrivals, j) == if j < m then Quiet else if j < k then Probe else Dead
    {
      SilentTick(p, arrivals, s, c, m, j);
    }
    NoProbes(p, arrivals, c, m);
    AllProbes(p, arrivals, m, k);
    ProbesSplit(p, arrivals, c, m, k);
  }

  function Before(arrivals: seq<nat>, i: nat): nat
    requires i <= |arrivals|
  {
    if i == 0 then 0 else arrivals[i - 1]
  }

  /** Every gap, the one before the first frame and the one up to `horizon` included, is under 180 s. */
  ghost predicate GapsUnder(arrivals: seq<nat>, horizon: nat) {
    && (forall i :: 0 <= i < |arrivals| ==> arrivals[i] < Before(arrivals, i) + DEAD_AFTER)
    && horizon < Before(arrivals, |arrivals|) + DEAD_AFTER
  }

  lemma {:induction false} SilenceUnderGaps(arrivals: seq<nat>, horizon: nat, t: nat)
    requires GapsUnder(arrivals, horizon) && t <= horizon
    ensures Silence(arrivals, t) < DEAD_AFTER
    decreases |arrivals|
  {
    if arrivals != [] && arrivals[|arrivals| - 1] > t {
      var n := |arrivals| - 1;
      var front := arrivals[..n];
      assert forall i :: 0 <= i <= n ==> Before(front, i) == Before(arrivals, i);
      SilenceUnderGaps(front, arrivals[n], t);
    }
  }

  lemma TalkativeTick(p: nat, arrivals: seq<nat>, k: nat, j: nat)
    requires GapsUnder(arrivals, TickAt(p, k)) && j <= k
    ensures AtTick(p, arrivals, j) != Dead
  {
    SilenceUnderGaps(arrivals, TickAt(p, k), TickAt(p, j));
  }

  /** A peer whose gaps stay under 180 s is never closed for silence. */
  lemma TalkativePeerStays(p: nat, arrivals: seq<nat>, k: nat)
    requires GapsUnder(arrivals, TickAt(p, k))
    ensures Alive(p, arrivals, k)
  {
    forall j | 1 <= j <= k
      ensures AtTick(p, arrivals, j) != Dead
    {
      TalkativeTick(p, arrivals, k, j);
    }
  }

  /** What a handle reports: the time of the last frame is kept in whole milliseconds. */
  function ReportedSilence(arrivals: seq<nat>, t: nat): nat {
    t - LastInbound(arrivals, t) / MILLISECOND * MILLISECOND
  }

  predicate IsStale(arrivals: seq<nat>, t: nat) {
    ReportedSilence(arrivals, t) >= STALE_AFTER
  }

  /** Some frame follows the probe of tick `k` within `limit`. */
  ghost predicate AnsweredWithin(p: nat, arrivals: seq<nat>, k: nat, limit: nat) {
    exists i :: 0 <= i < |arrivals| && TickAt(p, k) < arrivals[i] <= TickAt(p, k) + limit
  }

  /**
   A peer that answers every probe within 14 s is never reported stale, at any moment between ticks, if
   the ticks begin within the first minute of the session.
   */
  lemma PromptPeerIsNeverStale(p: nat, arrivals: seq<nat>, t: nat)
    requires InOrder(arrivals) && p < PROBE_AFTER
    requires forall k: nat :: k >= 1 && AtTick(p, arrivals, k) == Probe && TickAt(p, k) + 14 * SECOND <= t
                              ==> AnsweredWithin(p, arrivals, k, 14 * SECOND)
    ensures !IsStale(arrivals, t)
  {
    var last := LastInbound(arrivals, t);
    var k := FirstTick(p, last + PROBE_AFTER);
    if TickAt(p, k) + 14 * SECOND <= t {
      SameLast(arrivals, TickAt(p, k), t);
      assert AtTick(p, arrivals, k) == Probe;
      var i :| 0 <= i < |arrivals| && TickAt(p, k) < arrivals[i] <= TickAt(p, k) + 14 * SECOND;
      NothingSince(arrivals, t, i);
      assert false;
    }
  }
}
