/** The per-IP request limiter of the web service (apps/web/src/ratelimit.rs).

    Times are integers in nanoseconds. `check` reads its clock before it takes the lock, so
    the readings reach the table slightly out of order; the log below lists the calls in the
    order in which the lock serialised them. */
module RateLimit {

  type Ip = string

  const MINUTE: nat := 60_000_000_000

  datatype Call = Call(ip: Ip, now: int, admitted: bool)

  /** `hits.retain(|t| *t > cutoff)` */
  function Keep(hits: seq<int>, cutoff: int): seq<int> {
    if hits == [] then []
    else
      var rest := Keep(hits[..|hits| - 1], cutoff);
      if hits[|hits| - 1] > cutoff then rest + [hits[|hits| - 1]] else rest
  }

  /** The vector the table holds for `ip` after the calls of `log`. */
  function Hits(log: seq<Call>, ip: Ip, window: nat): seq<int> {
    if log == [] then []
    else
      var before, c := Hits(log[..|log| - 1], ip, window), log[|log| - 1];
      if c.ip != ip then before
      else Keep(before, c.now - window) + (if c.admitted then [c.now] else [])
  }

  predicate Decide(log: seq<Call>, ip: Ip, now: int, window: nat, max: nat) {
    |Keep(Hits(log, ip, window), now - window)| < max
  }

  /** A log that the limiter can produce. */
  ghost predicate IsRun(log: seq<Call>, window: nat, max: nat) {
    log != [] ==>
      var before, c := log[..|log| - 1], log[|log| - 1];
      IsRun(before, window, max) && (c.admitted <==> Decide(before, c.ip, c.now, window, max))
  }

  /** Admitted hits of `ip` with `lo < t <= hi`, counted on the log alone. */
  function CountIn(log: seq<Call>, ip: Ip, lo: int, hi: int): nat {
    if log == [] then 0
    else
      var c := log[|log| - 1];
      CountIn(log[..|log| - 1], ip, lo, hi) + if c.ip == ip && c.admitted && lo < c.now <= hi then 1 else 0
  }

  function CountSince(log: seq<Call>, ip: Ip, lo: int): nat {
    if log == [] then 0
    else
      var c := log[|log| - 1];
      CountSince(log[..|log| - 1], ip, lo) + if c.ip == ip && c.admitted && lo < c.now then 1 else 0
  }

  /** No clock reading of `ip` lies more than `d` before an earlier serialised one. */
  ghost predicate SkewAtMost(log: seq<Call>, ip: Ip, d: nat) {
    forall i, j :: 0 <= i < j < |log| && log[i].ip == ip && log[j].ip == ip ==> log[j].now >= log[i].now - d
  }

  lemma {:induction false} KeepConcat(a: seq<int>, b: seq<int>, x: int)
    ensures Keep(a + b, x) == Keep(a, x) + Keep(b, x)
    decreases |b|
  {
    if b == [] {
      assert a + b == a;
    } else {
      KeepConcat(a, b[..|b| - 1], x);
      assert (a + b)[..|a + b| - 1] == a + b[..|b| - 1];
    }
  }

  lemma {:induction false} KeepTwice(a: seq<int>, c: int, x: int)
    ensures c <= x ==> Keep(Keep(a, c), x) == Keep(a, x)
    ensures |Keep(Keep(a, c), x)| <= |Keep(a, x)|
    decreases |a|
  {
    if a != [] {
      var front, last := a[..|a| - 1], a[|a| - 1];
      KeepTwice(front, c, x);
      KeepConcat(Keep(front, c), [last], x);
      assert [last][..0] == [];
      assert Keep([last], x) == Keep([], x) + (if last > x then [last] else []);
    }
  }

  lemma KeepOne(t: int, x: int)
    ensures Keep([t], x) == if t > x then [t] else []
  {
    assert [t][..0] == [];
  }

  /** One call of `ip`, seen through a later cutoff `x`. */
  lemma KeepAdds(before: seq<int>, c: Call, window: nat, x: int)
    ensures var kept := |Keep(Keep(before, c.now - window) + (if c.admitted then [c.now] else []), x)|;
            && kept <= |Keep(before, x)| + (if c.admitted && x < c.now then 1 else 0)
            && (c.now - window <= x ==> kept == |Keep(before, x)| + if c.admitted && x < c.now then 1 else 0)
  {
    KeepTwice(before, c.now - window, x);
    KeepConcat(Keep(before, c.now - window), if c.admitted then [c.now] else [], x);
    KeepOne(c.now, x);
  }

  /** No call of `ip` so far had its cutoff behind `x`. */
  ghost predicate CutoffsUpTo(log: seq<Call>, ip: Ip, window: nat, x: int) {
    forall i :: 0 <= i < |log| && log[i].ip == ip ==> log[i].now - window <= x
  }

  lemma HitsSnoc(front: seq<Call>, c: Call, ip: Ip, window: nat, x: int)
    ensures var log := front + [c];
            && Hits(log, ip, window) == (if c.ip != ip then Hits(front, ip, window)
                                         else Keep(Hits(front, ip, window), c.now - window) + if c.admitted then [c.now] else [])
            && CountSince(log, ip, x) == CountSince(front, ip, x) + (if c.ip == ip && c.admitted && x < c.now then 1 else 0)
            && (CutoffsUpTo(log, ip, window, x) ==> CutoffsUpTo(front, ip, window, x) && (c.ip == ip ==> c.now - window <= x))
  {
    var log := front + [c];
    assert log[..|front|] == front && log[|front|] == c;
    assert forall i :: 0 <= i < |front| ==> front[i] == log[i];
  }

  /** What survives in the table is never more than what was admitted, and it is all of it as
      long as no cutoff so far has passed `x`. */
  lemma {:induction false} HitsCount(log: seq<Call>, ip: Ip, window: nat, x: int)
    ensures |Keep(Hits(log, ip, window), x)| <= CountSince(log, ip, x)
    ensures CutoffsUpTo(log, ip, window, x) ==> |Keep(Hits(log, ip, window), x)| == CountSince(log, ip, x)
    decreases |log|
  {
    if log != [] {
      var front, c := log[..|log| - 1], log[|log| - 1];
      assert log == front + [c];
      HitsCount(front, ip, window, x);
      HitsSnoc(front, c, ip, window, x);
      if c.ip == ip {
        KeepAdds(Hits(front, ip, window), c, window, x);
      }
    }
  }

  lemma {:induction false} CountInSince(log: seq<Call>, ip: Ip, lo: int, hi: int)
    ensures CountIn(log, ip, lo, hi) <= CountSince(log, ip, lo)
    ensures (forall i :: 0 <= i < |log| && log[i].ip == ip ==> log[i].now <= hi)
            ==> CountIn(log, ip, lo, hi) == CountSince(log, ip, lo)
    decreases |log|
  {
    if log != [] {
      CountInSince(log[..|log| - 1], ip, lo, hi);
      assert forall i :: 0 <= i < |log| - 1 ==> log[..|log| - 1][i] == log[i];
    }
  }

  /** The rolling bound: with clock skew at most `d`, every window of length `window - d` holds
      at most `max` admitted hits of one address. */
  lemma {:induction false} WindowBound(log: seq<Call>, ip: Ip, window: nat, max: nat, d: nat, x: int)
    requires IsRun(log, window, max) && SkewAtMost(log, ip, d) && d <= window
    ensures CountIn(log, ip, x, x + window - d) <= max
    decreases |log|
  {
    if log != [] {
      var front, c := log[..|log| - 1], log[|log| - 1];
      assert forall i :: 0 <= i < |front| ==> front[i] == log[i];
      WindowBound(front, ip, window, max, d, x);
      if c.ip == ip && c.admitted && x < c.now <= x + window - d {
        forall i | 0 <= i < |front| && front[i].ip == ip
          ensures front[i].now - window <= x
        {
          assert log[i].ip == ip && log[|log| - 1].now >= log[i].now - d;
        }
        HitsCount(front, ip, window, x);
        CountInSince(front, ip, x, x + window - d);
        KeepShrinks(Hits(front, ip, window), c.now - window, x);
      }
    }
  }

  lemma {:induction false} KeepShrinks(a: seq<int>, c: int, x: int)
    requires c <= x
    ensures |Keep(a, x)| <= |Keep(a, c)|
  {
    if a != [] {
      KeepShrinks(a[..|a| - 1], c, x);
    }
  }

  /** With clocks in order the limiter is exact: a call is refused if and only if the window
      that ends at it already holds `max` admitted hits. */
  lemma RefusedExactlyWhenFull(log: seq<Call>, ip: Ip, now: int, window: nat, max: nat)
    requires forall i :: 0 <= i < |log| && log[i].ip == ip ==> log[i].now <= now
    ensures !Decide(log, ip, now, window, max) <==> CountIn(log, ip, now - window, now) >= max
  {
    HitsCount(log, ip, window, now - window);
    CountInSince(log, ip, now - window, now);
  }

  /** Whatever the skew, a refusal means that `max` hits newer than the cutoff were admitted. */
  lemma RefusedOnlyWhenFull(log: seq<Call>, ip: Ip, now: int, window: nat, max: nat)
    requires !Decide(log, ip, now, window, max)
    ensures CountSince(log, ip, now - window) >= max
  {
    HitsCount(log, ip, window, now - window);
  }

  lemma AdmitOne(log: seq<Call>, c: Call, window: nat, max: nat, lo: int, hi: int)
    requires IsRun(log, window, max) && c.admitted && Decide(log, c.ip, c.now, window, max)
    ensures IsRun(log + [c], window, max)
    ensures Hits(log + [c], c.ip, window) == Keep(Hits(log, c.ip, window), c.now - window) + [c.now]
    ensures CountIn(log + [c], c.ip, lo, hi) == CountIn(log, c.ip, lo, hi) + if lo < c.now <= hi then 1 else 0
  {
    LogSnoc(log, c, window, max);
    assert (log + [c])[..|log|] == log;
  }

  lemma {:induction false} KeepAll(hits: seq<int>, x: int)
    requires forall i :: 0 <= i < |hits| ==> hits[i] > x
    ensures Keep(hits, x) == hits
  {
    if hits != [] {
      KeepAll(hits[..|hits| - 1], x);
      assert hits == hits[..|hits| - 1] + [hits[|hits| - 1]];
    }
  }

  lemma {:induction false} KeepNone(hits: seq<int>, x: int)
    requires forall i :: 0 <= i < |hits| ==> hits[i] <= x
    ensures Keep(hits, x) == []
  {
    if hits != [] {
      KeepNone(hits[..|hits| - 1], x);
    }
  }

  ghost predicate Zeros(hits: seq<int>, n: nat) {
    |hits| == n && forall i :: 0 <= i < n ==> hits[i] == 0
  }

  /** A burst at time 0 as large as the budget. */
  lemma {:induction false} Burst(n: nat, window: nat, max: nat, ip: Ip, lo: int, hi: int) returns (log: seq<Call>)
    requires 1 <= window && n <= max && lo < 0 <= hi
    ensures |log| == n && forall i :: 0 <= i < n ==> log[i] == Call(ip, 0, true)
    ensures IsRun(log, window, max) && Zeros(Hits(log, ip, window), n) && CountIn(log, ip, lo, hi) == n
  {
    if n == 0 {
      log := [];
    } else {
      var front := Burst(n - 1, window, max, ip, lo, hi);
      KeepAll(Hits(front, ip, window), 0 - window);
      AdmitOne(front, Call(ip, 0, true), window, max, lo, hi);
      log := front + [Call(ip, 0, true)];
    }
  }

  /** A whole window later the burst is forgotten and one more hit admitted. */
  lemma BurstAndNext(window: nat, max: nat, ip: Ip, hi: nat) returns (log: seq<Call>)
    requires 1 <= window && 1 <= max && hi <= window
    ensures |log| == max + 1 && (forall i :: 0 <= i < max ==> log[i] == Call(ip, 0, true)) && log[max] == Call(ip, window, true)
    ensures IsRun(log, window, max) && Hits(log, ip, window) == [window]
    ensures CountIn(log, ip, -1, hi) == max + if hi == window then 1 else 0
  {
    var burst := Burst(max, window, max, ip, -1, hi);
    KeepNone(Hits(burst, ip, window), 0);
    AdmitOne(burst, Call(ip, window, true), window, max, -1, hi);
    log := burst + [Call(ip, window, true)];
  }

  /** So is one with an earlier reading that is serialised behind it. */
  lemma LateHit(log: seq<Call>, window: nat, max: nat, d: nat, ip: Ip) returns (more: seq<Call>)
    requires 0 < d <= window && 2 <= max && IsRun(log, window, max) && Hits(log, ip, window) == [window]
    ensures more == log + [Call(ip, window - d, true)] && IsRun(more, window, max)
    ensures CountIn(more, ip, -1, window - d) == CountIn(log, ip, -1, window - d) + 1
  {
    KeepOne(window, window - d - window);
    AdmitOne(log, Call(ip, window - d, true), window, max, -1, window - d);
    more := log + [Call(ip, window - d, true)];
  }

  lemma SkewOfLateHit(log: seq<Call>, max: nat, window: nat, d: nat, ip: Ip)
    requires d <= window && |log| == max + 2 && log[max] == Call(ip, window, true) && log[max + 1] == Call(ip, window - d, true)
    requires forall i :: 0 <= i < max ==> log[i] == Call(ip, 0, true)
    ensures SkewAtMost(log, ip, d)
  {
  }

  lemma SkewOfNext(log: seq<Call>, max: nat, window: nat, ip: Ip)
    requires |log| == max + 1 && log[max] == Call(ip, window, true)
    requires forall i :: 0 <= i < max ==> log[i] == Call(ip, 0, true)
    ensures SkewAtMost(log, ip, 0)
  {
  }

  lemma TightInOrder(window: nat, max: nat, ip: Ip) returns (log: seq<Call>)
    requires 1 <= window && 1 <= max
    ensures IsRun(log, window, max) && SkewAtMost(log, ip, 0) && CountIn(log, ip, -1, window) == max + 1
  {
    log := BurstAndNext(window, max, ip, window);
    SkewOfNext(log, max, window, ip);
  }

  lemma TightLate(window: nat, max: nat, d: nat, ip: Ip) returns (log: seq<Call>)
    requires 0 < d <= window && 2 <= max
    ensures IsRun(log, window, max) && SkewAtMost(log, ip, d) && CountIn(log, ip, -1, window - d) == max + 1
  {
    var next := BurstAndNext(window, max, ip, window - d);
    log := LateHit(next, window, max, d, ip);
    SkewOfLateHit(log, max, window, d, ip);
  }

  /** The bound cannot be improved for any budget of two or more, nor for a budget of one when the
      clocks are in order: for every skew, a run holds more hits than the budget in a window that
      is one nanosecond longer. */
  lemma WindowBoundTight(window: nat, max: nat, d: nat, ip: Ip) returns (log: seq<Call>)
    requires d <= window && 1 <= window && (2 <= max || (max == 1 && d == 0))
    ensures IsRun(log, window, max) && SkewAtMost(log, ip, d)
    ensures CountIn(log, ip, -1, -1 + (window - d + 1)) > max
  {
    if d == 0 {
      log := TightInOrder(window, max, ip);
    } else {
      log := TightLate(window, max, d, ip);
    }
  }

  /** What `SingleBudget` keeps: the table holds the last hit at most, and a window from it on holds
      none. */
  ghost predicate LastHitOnly(log: seq<Call>, ip: Ip, window: nat, x: int) {
    var hits := Hits(log, ip, window);
    && CountIn(log, ip, x, x + window) <= 1 && |hits| <= 1
    && (hits == [] || hits[0] <= x ==> CountIn(log, ip, x, x + window) == 0)
  }

  lemma SingleBudgetStep(front: seq<Call>, c: Call, window: nat, x: int)
    requires LastHitOnly(front, c.ip, window, x) && (c.admitted <==> Decide(front, c.ip, c.now, window, 1))
    ensures LastHitOnly(front + [c], c.ip, window, x)
  {
    var log, before := front + [c], Hits(front, c.ip, window);
    assert log[..|front|] == front;
    if before != [] {
      assert before == [before[0]];
      KeepOne(before[0], c.now - window);
    } else {
      assert Keep(before, c.now - window) == [];
    }
    assert Hits(log, c.ip, window) == Keep(before, c.now - window) + if c.admitted then [c.now] else [];
  }

  /** A budget of one is exact whatever the skew: admission needs an empty table, so hits are a
      whole window apart. */
  lemma {:induction false} SingleBudget(log: seq<Call>, ip: Ip, window: nat, x: int)
    requires IsRun(log, window, 1)
    ensures CountIn(log, ip, x, x + window) <= 1 && LastHitOnly(log, ip, window, x)
    decreases |log|
  {
    if log != [] {
      var front, c := log[..|log| - 1], log[|log| - 1];
      SingleBudget(front, ip, window, x);
      assert log == front + [c];
      if c.ip == ip {
        SingleBudgetStep(front, c, window, x);
      }
    }
  }

  lemma LogSnoc(log: seq<Call>, c: Call, window: nat, max: nat)
    requires IsRun(log, window, max) && (c.admitted <==> Decide(log, c.ip, c.now, window, max))
    ensures IsRun(log + [c], window, max)
    ensures Hits(log + [c], c.ip, window)
         == Keep(Hits(log, c.ip, window), c.now - window) + (if c.admitted then [c.now] else [])
    ensures forall ip :: ip != c.ip ==> Hits(log + [c], ip, window) == Hits(log, ip, window)
  {
    assert (log + [c])[..|log + [c]| - 1] == log;
  }

  class RateLimiter {
    const window: nat
    const maxPerWindow: nat
    var state: map<Ip, seq<int>>
    ghost var log: seq<Call>

    ghost predicate Valid()
      reads this
    {
      && IsRun(log, window, maxPerWindow)
      && forall ip :: Hits(log, ip, window) == if ip in state then state[ip] else []
    }

    constructor PerMinute(maxPerMinute: nat)
      ensures Valid() && log == [] && window == MINUTE && maxPerWindow == maxPerMinute
    {
      window := MINUTE;
      maxPerWindow := maxPerMinute;
      state := map[];
      log := [];
    }

    /** The part of `check` that runs under the lock; `now` is the reading taken before it. */
    method Check(ip: Ip, now: int) returns (ok: bool)
      requires Valid()
      modifies this
      ensures Valid()
      ensures log == old(log) + [Call(ip, now, ok)]
      ensures ok <==> Decide(old(log), ip, now, window, maxPerWindow)
      ensures forall other :: other != ip && other in old(state) ==> other in state && state[other] == old(state)[other]
    {
      var cutoff := now - window;
      var hits := Keep(if ip in state then state[ip] else [], cutoff);
      ok := |hits| < maxPerWindow;
      if ok {
        hits := hits + [now];
      }
      state := state[ip := hits];
      LogSnoc(log, Call(ip, now, ok), window, maxPerWindow);
      log := log + [Call(ip, now, ok)];
    }
  }
}
