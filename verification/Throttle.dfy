/** The timers in front of the two refresh functions: the leading-edge throttle of the Logcat tail,
    the throttle of the captures list, and the debounce of the Logcat filter
    (src/views/LogcatView.tsx, src/views/CapturesView.tsx).

    Times are milliseconds. An input carries its time; timers are on time: an armed timer runs at
    the moment it is due, before anything later happens. */
module Throttle {
  import opened Text

  const TAIL_MS: nat := 120
  const CAPTURES_MS: nat := 200
  const FILTER_MS: nat := 250

  // ---- The tail throttle -----------------------------------------------------------------

  datatype Mode = Tail | Frozen | Paused

  datatype TailInput = Ping(t: nat, mode: Mode) | Tick(t: nat)

  datatype TailState = TailState(now: nat, timer: Option<nat>, trailing: bool, calls: seq<nat>)

  const TAIL_START := TailState(0, None, false, [])

  predicate TailEnabled(s: TailState, i: TailInput) {
    && s.now <= i.t
    && (s.timer.Some? ==> i.t <= s.timer.value)
    && (i.Tick? ==> s.timer == Some(i.t))
  }

  function TailNext(s: TailState, i: TailInput): TailState {
    match i
    case Ping(t, mode) =>
      if !mode.Tail? then s.(now := t)
      else if s.timer.Some? then s.(now := t, trailing := true)
      else s.(now := t, timer := Some(t + TAIL_MS), calls := s.calls + [t])
    case Tick(t) =>
      if s.trailing then TailState(t, Some(t + TAIL_MS), false, s.calls + [t])
      else s.(now := t, timer := None)
  }

  function TailAfter(inputs: seq<TailInput>): TailState {
    if inputs == [] then TAIL_START else TailNext(TailAfter(inputs[..|inputs| - 1]), inputs[|inputs| - 1])
  }

  ghost predicate TailLegal(inputs: seq<TailInput>) {
    inputs != [] ==>
      TailLegal(inputs[..|inputs| - 1]) && TailEnabled(TailAfter(inputs[..|inputs| - 1]), inputs[|inputs| - 1])
  }

  class TailThrottle {
    var tailTimer: Option<nat>
    var tailTrailing: bool
    /** The refreshes called, by time. */
    ghost var calls: seq<nat>

    ghost function Now(t: nat): TailState
      reads this
    {
      TailState(t, tailTimer, tailTrailing, calls)
    }

    method OnAppended(t: nat, mode: Mode) returns (refresh: bool)
      modifies this
      ensures Now(t) == TailNext(old(Now(t)), Ping(t, mode))
      ensures calls == old(calls) + if refresh then [t] else []
    {
      refresh := false;
      if mode.Tail? {
        if tailTimer.Some? {
          tailTrailing := true;
          return;
        }
        refresh := true;
        calls := calls + [t];
        tailTimer := Some(t + TAIL_MS);
      }
    }

    method OnTick(t: nat) returns (refresh: bool)
      modifies this
      ensures Now(t) == TailNext(old(Now(t)), Tick(t))
      ensures calls == old(calls) + if refresh then [t] else []
    {
      refresh := tailTrailing;
      if tailTrailing {
        tailTrailing := false;
        calls := calls + [t];
        tailTimer := Some(t + TAIL_MS);
      } else {
        tailTimer := None;
      }
    }
  }

  ghost predicate Spaced(calls: seq<nat>, gap: nat) {
    forall i, j :: 0 <= i < j < |calls| ==> calls[i] + gap <= calls[j]
  }

  ghost predicate Covered(calls: seq<nat>, t: nat, within: nat) {
    exists k :: 0 <= k < |calls| && t <= calls[k] <= t + within
  }

  lemma CoveredGrows(calls: seq<nat>, c: nat, t: nat, within: nat)
    requires Covered(calls, t, within) || t <= c <= t + within
    ensures Covered(calls + [c], t, within)
  {
    if Covered(calls, t, within) {
      var k :| 0 <= k < |calls| && t <= calls[k] <= t + within;
      assert (calls + [c])[k] == calls[k];
    } else {
      assert (calls + [c])[|calls|] == c;
    }
  }

  ghost predicate TailInv(s: TailState) {
    && Spaced(s.calls, TAIL_MS)
    && (forall k :: 0 <= k < |s.calls| ==> s.calls[k] <= s.now)
    && (s.timer.Some? ==>
          s.calls != [] && s.timer.value == s.calls[|s.calls| - 1] + TAIL_MS && s.now <= s.timer.value)
    && (s.timer.None? ==> !s.trailing && forall k :: 0 <= k < |s.calls| ==> s.calls[k] + TAIL_MS <= s.now)
  }

  /** A ping has its refresh, or the armed timer will bring it in time. */
  ghost predicate Served(s: TailState, t: nat) {
    || Covered(s.calls, t, TAIL_MS)
    || (s.timer.Some? && s.trailing && t <= s.timer.value <= t + TAIL_MS)
  }

  lemma TailStep(s: TailState, i: TailInput, t: nat)
    requires TailInv(s) && TailEnabled(s, i)
    ensures TailInv(TailNext(s, i))
    ensures Served(s, t) ==> Served(TailNext(s, i), t)
    ensures i.Ping? && i.mode.Tail? ==> Served(TailNext(s, i), i.t)
  {
    var v := TailNext(s, i);
    if v.calls != s.calls {
      assert v.calls == s.calls + [i.t];
      assert forall k :: 0 <= k < |s.calls| ==> s.calls[k] + TAIL_MS <= i.t;
      if Served(s, t) {
        CoveredGrows(s.calls, i.t, t, TAIL_MS);
      }
      CoveredGrows(s.calls, i.t, i.t, TAIL_MS);
    }
  }

  /** Refreshes are at least 120 ms apart, and every tail-mode ping has one at or within 120 ms
      after it: for good once that time has passed, and by the armed timer until then. */
  lemma {:induction false} TailThrottled(inputs: seq<TailInput>, k: nat)
    requires TailLegal(inputs)
    ensures TailInv(TailAfter(inputs))
    ensures k < |inputs| && inputs[k].Ping? && inputs[k].mode.Tail? ==>
              && Served(TailAfter(inputs), inputs[k].t)
              && (TailAfter(inputs).now > inputs[k].t + TAIL_MS ==> Covered(TailAfter(inputs).calls, inputs[k].t, TAIL_MS))
    decreases |inputs|
  {
    if inputs != [] {
      var front := inputs[..|inputs| - 1];
      TailThrottled(front, k);
      TailStep(TailAfter(front), inputs[|inputs| - 1], if k < |inputs| then inputs[k].t else 0);
    }
  }

  /** Input `j` is a tail ping, and no refresh was called between it and the end of `inputs`. */
  ghost predicate PingUnserved(inputs: seq<TailInput>, j: nat) {
    && j < |inputs| && inputs[j].Ping? && inputs[j].mode.Tail?
    && TailAfter(inputs[..j]).calls == TailAfter(inputs).calls
  }

  lemma PingStays(front: seq<TailInput>, i: TailInput, j: nat)
    requires PingUnserved(front, j) && TailAfter(front + [i]).calls == TailAfter(front).calls
    ensures PingUnserved(front + [i], j)
  {
    assert (front + [i])[..j] == front[..j];
  }

  lemma {:induction false} MarkHasPing(inputs: seq<TailInput>)
    requires TailLegal(inputs) && TailAfter(inputs).trailing
    ensures exists j :: PingUnserved(inputs, j)
    decreases |inputs|
  {
    var front, last := inputs[..|inputs| - 1], inputs[|inputs| - 1];
    assert inputs == front + [last];
    TailThrottled(front, 0);
    if last.Ping? && last.mode.Tail? {
      assert inputs[..|front|] == front;
      assert PingUnserved(inputs, |front|);
    } else {
      MarkHasPing(front);
      var j :| PingUnserved(front, j);
      PingStays(front, last, j);
    }
  }

  /** No refresh without need: each is called by a tail ping, or at the end of a window for a tail ping
      that no refresh was called for before; pings of a frozen or paused tail count for nothing. And
      a tail ping that finds no refresh in the last 120 ms is served at once. */
  lemma RefreshHasPing(front: seq<TailInput>, i: TailInput)
    requires TailLegal(front + [i])
    ensures TailAfter(front + [i]).calls != TailAfter(front).calls ==>
              && TailAfter(front + [i]).calls == TailAfter(front).calls + [i.t]
              && if i.Ping? then i.mode.Tail? else exists j :: PingUnserved(front, j)
    ensures i.Ping? && i.mode.Tail? && (forall k :: 0 <= k < |TailAfter(front).calls| ==> TailAfter(front).calls[k] + TAIL_MS < i.t) ==>
              TailAfter(front + [i]).calls == TailAfter(front).calls + [i.t]
  {
    assert (front + [i])[..|front|] == front;
    TailThrottled(front, 0);
    if i.Tick? && TailAfter(front).trailing {
      MarkHasPing(front);
    }
  }

  // ---- The captures throttle and the filter debounce -------------------------------------

  datatype Input = Call(t: nat, force: bool) | Fire(t: nat)

  datatype Refresh = Refresh(t: nat, force: bool)

  datatype State = State(now: nat, timer: Option<nat>, pendingForce: bool, fired: seq<Refresh>)

  const START := State(0, None, false, [])

  predicate Enabled(s: State, i: Input) {
    && s.now <= i.t
    && (s.timer.Some? ==> i.t <= s.timer.value)
    && (i.Fire? ==> s.timer == Some(i.t))
  }

  /** `rearm` tells the debounce, which restarts its timer on every call, from the throttle, which
      keeps the one already armed. */
  function Next(s: State, i: Input, wait: nat, rearm: bool): State {
    match i
    case Call(t, force) =>
      State(t, if s.timer.Some? && !rearm then s.timer else Some(t + wait), s.pendingForce || force, s.fired)
    case Fire(t) => State(t, None, false, s.fired + [Refresh(t, s.pendingForce)])
  }

  function After(inputs: seq<Input>, wait: nat, rearm: bool): State {
    if inputs == [] then START
    else Next(After(inputs[..|inputs| - 1], wait, rearm), inputs[|inputs| - 1], wait, rearm)
  }

  ghost predicate Legal(inputs: seq<Input>, wait: nat, rearm: bool) {
    inputs != [] ==>
      && Legal(inputs[..|inputs| - 1], wait, rearm)
      && Enabled(After(inputs[..|inputs| - 1], wait, rearm), inputs[|inputs| - 1])
  }

  class Debouncer {
    const wait: nat
    const rearm: bool
    var refreshTimer: Option<nat>
    var pendingForce: bool
    ghost var fired: seq<Refresh>

    constructor ForCaptures()
      ensures wait == CAPTURES_MS && !rearm && Now(0) == START
    {
      wait, rearm, refreshTimer, pendingForce, fired := CAPTURES_MS, false, None, false, [];
    }

    constructor ForLogcat()
      ensures wait == FILTER_MS && rearm && Now(0) == START
    {
      wait, rearm, refreshTimer, pendingForce, fired := FILTER_MS, true, None, false, [];
    }

    ghost function Now(t: nat): State
      reads this
    {
      State(t, refreshTimer, pendingForce, fired)
    }

    method DebouncedRefresh(t: nat, force: bool)
      modifies this
      ensures Now(t) == Next(old(Now(t)), Call(t, force), wait, rearm)
    {
      pendingForce := pendingForce || force;
      if refreshTimer.Some? && !rearm {
        return;
      }
      refreshTimer := Some(t + wait);
    }

    method OnTimer(t: nat) returns (force: bool)
      modifies this
      ensures Now(t) == Next(old(Now(t)), Fire(t), wait, rearm)
      ensures fired == old(fired) + [Refresh(t, force)]
    {
      refreshTimer := None;
      force := pendingForce;
      pendingForce := false;
      fired := fired + [Refresh(t, force)];
    }
  }

  /** Whether any call since the last firing asked for force, read off the inputs. */
  function ForcedSince(inputs: seq<Input>): bool {
    if inputs == [] || inputs[|inputs| - 1].Fire? then false
    else inputs[|inputs| - 1].force || ForcedSince(inputs[..|inputs| - 1])
  }

  /** The firing that input `k` is carries exactly the force of the calls before it. */
  lemma {:induction false} ForceIsSticky(inputs: seq<Input>, wait: nat, rearm: bool)
    requires Legal(inputs, wait, rearm)
    ensures After(inputs, wait, rearm).pendingForce == ForcedSince(inputs)
    ensures inputs != [] && inputs[|inputs| - 1].Fire? ==>
              var s := After(inputs, wait, rearm);
              s.fired != [] && s.fired[|s.fired| - 1] == Refresh(inputs[|inputs| - 1].t, ForcedSince(inputs[..|inputs| - 1]))
    decreases |inputs|
  {
    if inputs != [] {
      ForceIsSticky(inputs[..|inputs| - 1], wait, rearm);
    }
  }

  ghost predicate FiredSpaced(fired: seq<Refresh>, gap: nat) {
    forall i, j :: 0 <= i < j < |fired| ==> fired[i].t + gap <= fired[j].t
  }

  ghost predicate FiredFor(fired: seq<Refresh>, t: nat, within: nat) {
    exists k :: 0 <= k < |fired| && t <= fired[k].t <= t + within
  }

  lemma FiredGrows(fired: seq<Refresh>, r: Refresh, t: nat, within: nat)
    requires FiredFor(fired, t, within) || t <= r.t <= t + within
    ensures FiredFor(fired + [r], t, within)
  {
    if FiredFor(fired, t, within) {
      var k :| 0 <= k < |fired| && t <= fired[k].t <= t + within;
      assert (fired + [r])[k] == fired[k];
    } else {
      assert (fired + [r])[|fired|] == r;
    }
  }

  /** An armed timer lies at most `wait` ahead and at least `wait` behind the last firing. */
  ghost predicate TimerInv(s: State, wait: nat) {
    && FiredSpaced(s.fired, wait)
    && (forall k :: 0 <= k < |s.fired| ==> s.fired[k].t <= s.now)
    && (s.timer.Some? ==>
          && s.now <= s.timer.value <= s.now + wait
          && forall k :: 0 <= k < |s.fired| ==> s.fired[k].t + wait <= s.timer.value)
  }

  lemma TimerStep(s: State, i: Input, wait: nat, rearm: bool)
    requires TimerInv(s, wait) && Enabled(s, i)
    ensures TimerInv(Next(s, i, wait, rearm), wait)
  {
    var v := Next(s, i, wait, rearm);
    if i.Fire? {
      assert v.fired == s.fired + [Refresh(i.t, s.pendingForce)];
    }
  }

  ghost predicate CallServed(s: State, t: nat, wait: nat) {
    FiredFor(s.fired, t, wait) || (s.timer.Some? && t <= s.timer.value <= t + wait)
  }

  /** The captures throttle: at most one refresh per window, and one within the window of every
      call, however dense the calls are. */
  lemma {:induction false} CapturesThrottled(inputs: seq<Input>, wait: nat, k: nat)
    requires Legal(inputs, wait, false)
    ensures TimerInv(After(inputs, wait, false), wait)
    ensures k < |inputs| && inputs[k].Call? ==>
              var s := After(inputs, wait, false);
              && CallServed(s, inputs[k].t, wait)
              && (s.now > inputs[k].t + wait ==> FiredFor(s.fired, inputs[k].t, wait))
    decreases |inputs|
  {
    if inputs != [] {
      var front, i := inputs[..|inputs| - 1], inputs[|inputs| - 1];
      var s := After(front, wait, false);
      CapturesThrottled(front, wait, k);
      TimerStep(s, i, wait, false);
      if i.Fire? && k < |front| && inputs[k].Call? {
        FiredGrows(s.fired, Refresh(i.t, s.pendingForce), inputs[k].t, wait);
      }
    }
  }

  /** The first call since the last firing, read off the inputs. */
  function FirstCall(inputs: seq<Input>): Option<nat> {
    if inputs == [] || inputs[|inputs| - 1].Fire? then None
    else
      var earlier := FirstCall(inputs[..|inputs| - 1]);
      if earlier.Some? then earlier else Some(inputs[|inputs| - 1].t)
  }

  /** The throttle fires exactly `wait` after the first call since it last fired, and never
      without one. */
  lemma {:induction false} ThrottleFiresExactly(inputs: seq<Input>, wait: nat)
    requires Legal(inputs, wait, false)
    ensures After(inputs, wait, false).timer == match FirstCall(inputs) case Some(t) => Some(t + wait) case None => None
    ensures inputs != [] && inputs[|inputs| - 1].Fire? ==> FirstCall(inputs[..|inputs| - 1]) == Some(inputs[|inputs| - 1].t - wait)
    decreases |inputs|
  {
    if inputs != [] {
      ThrottleFiresExactly(inputs[..|inputs| - 1], wait);
    }
  }

  function LastCall(inputs: seq<Input>): Option<nat> {
    if inputs == [] then None
    else if inputs[|inputs| - 1].Call? then Some(inputs[|inputs| - 1].t)
    else None
  }

  /** The debounce is the other way about: it fires exactly `wait` after a call with no call in
      between, so a steady stream of calls holds it back for as long as it lasts. */
  lemma {:induction false} DebounceWaitsForQuiet(inputs: seq<Input>, wait: nat)
    requires Legal(inputs, wait, true)
    ensures TimerInv(After(inputs, wait, true), wait)
    ensures After(inputs, wait, true).timer == match LastCall(inputs) case Some(t) => Some(t + wait) case None => None
    ensures inputs != [] && inputs[|inputs| - 1].Fire? ==> LastCall(inputs[..|inputs| - 1]) == Some(inputs[|inputs| - 1].t - wait)
    decreases |inputs|
  {
    if inputs != [] {
      DebounceWaitsForQuiet(inputs[..|inputs| - 1], wait);
      TimerStep(After(inputs[..|inputs| - 1], wait, true), inputs[|inputs| - 1], wait, true);
    }
  }
}
