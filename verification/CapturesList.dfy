/** The captures list: every request carries a sequence number and only the answer to the latest
    one is shown (src/views/CapturesView.tsx, `refresh`). */
module CapturesList {
  import opened Text

  type Rows = seq<string>

  datatype View = View(captures: Rows, refreshSeq: nat, paused: bool, autoFollow: bool)

  function Begin(v: View, force: bool): (View, Option<nat>) {
    if v.paused || (!force && !v.autoFollow && v.captures != []) then (v, None)
    else (v.(refreshSeq := v.refreshSeq + 1), Some(v.refreshSeq + 1))
  }

  function End(v: View, seqNo: nat, answer: Option<Rows>): View {
    if seqNo == v.refreshSeq && answer.Some? then v.(captures := answer.value) else v
  }

  class Captures {
    var captures: Rows
    var refreshSeq: nat
    var paused: bool
    var autoFollow: bool

    function Now(): View
      reads this
    {
      View(captures, refreshSeq, paused, autoFollow)
    }

    method StartRefresh(force: bool) returns (query: Option<nat>)
      modifies this`refreshSeq
      ensures (Now(), query) == Begin(old(Now()), force)
    {
      if paused {
        return None;
      }
      if !force && !autoFollow && |captures| > 0 {
        return None;
      }
      refreshSeq := refreshSeq + 1;
      query := Some(refreshSeq);
    }

    method FinishRefresh(seqNo: nat, answer: Option<Rows>)
      modifies this`captures
      ensures Now() == End(old(Now()), seqNo, answer)
    {
      if seqNo != refreshSeq {
        return;
      }
      if answer.Some? {
        captures := answer.value;
      }
    }
  }

  /** `answers` records every answer that has come back (none for an error), `applied` the numbers
      of those that were shown, in order. */
  datatype World = World(view: View, inFlight: set<nat>, answers: map<nat, Option<Rows>>, applied: seq<nat>)

  datatype Action = Issue(force: bool) | Deliver(seqNo: nat, answer: Option<Rows>) | SetMode(paused: bool, autoFollow: bool)

  predicate Enabled(w: World, a: Action) {
    a.Deliver? ==> a.seqNo in w.inFlight
  }

  function Do(w: World, a: Action): World
    requires Enabled(w, a)
  {
    match a
    case Issue(force) =>
      var (v, q) := Begin(w.view, force);
      w.(view := v, inFlight := w.inFlight + if q.Some? then {q.value} else {})
    case Deliver(n, answer) =>
      World(End(w.view, n, answer), w.inFlight - {n}, w.answers[n := answer],
            if n == w.view.refreshSeq && answer.Some? then w.applied + [n] else w.applied)
    case SetMode(p, f) => w.(view := w.view.(paused := p, autoFollow := f))
  }

  ghost predicate Initial(w: World) {
    w.view.captures == [] && w.view.refreshSeq == 0 && w.inFlight == {} && w.answers == map[] && w.applied == []
  }

  ghost predicate Inv(w: World) {
    && (forall n :: n in w.inFlight || n in w.answers <==> 1 <= n <= w.view.refreshSeq)
    && (forall n :: n in w.inFlight ==> n !in w.answers)
    && (forall i, j :: 0 <= i < j < |w.applied| ==> w.applied[i] < w.applied[j])
    && (forall i :: 0 <= i < |w.applied| ==> w.applied[i] in w.answers && w.answers[w.applied[i]].Some?)
    && (if w.applied == [] then w.view.captures == []
        else w.view.captures == w.answers[w.applied[|w.applied| - 1]].value)
    && (w.view.refreshSeq in w.answers && w.answers[w.view.refreshSeq].Some? ==>
          w.applied != [] && w.applied[|w.applied| - 1] == w.view.refreshSeq)
  }

  lemma StepKeepsInv(w: World, a: Action)
    requires Inv(w) && Enabled(w, a)
    ensures Inv(Do(w, a))
  {
    if a.Deliver? {
      var v := Do(w, a);
      assert forall i :: 0 <= i < |w.applied| ==> w.applied[i] != a.seqNo && w.applied[i] <= w.view.refreshSeq;
    }
  }

  ghost predicate IsRun(ws: seq<World>, acts: seq<Action>) {
    && |ws| == |acts| + 1
    && forall i :: 0 <= i < |acts| ==> Enabled(ws[i], acts[i]) && ws[i + 1] == Do(ws[i], acts[i])
  }

  /** Under any order of answers the numbers shown strictly increase; with nothing in flight the
      list is the answer to the last request issued, if that one succeeded. */
  lemma {:induction false} LastIssuedWins(ws: seq<World>, acts: seq<Action>, n: nat)
    requires IsRun(ws, acts) && Initial(ws[0]) && n < |ws|
    ensures Inv(ws[n])
    ensures var w := ws[n];
            && (forall i, j :: 0 <= i < j < |w.applied| ==> w.applied[i] < w.applied[j])
            && (w.inFlight == {} && w.view.refreshSeq > 0 ==>
                  && w.view.refreshSeq in w.answers
                  && (w.answers[w.view.refreshSeq].Some? ==> w.view.captures == w.answers[w.view.refreshSeq].value))
    decreases n
  {
    if n > 0 {
      LastIssuedWins(ws, acts, n - 1);
      StepKeepsInv(ws[n - 1], acts[n - 1]);
    }
  }

  /** A call that is forced, or finds the list empty or following, asks the backend unless the list is
      paused, and the answer is shown whatever else is still in flight; any other call does nothing. */
  lemma AskedAndShown(w: World, force: bool, rows: Rows)
    requires Inv(w)
    ensures var asks := !w.view.paused && (force || w.view.autoFollow || w.view.captures == []);
            var asked, n := Do(w, Issue(force)), w.view.refreshSeq + 1;
            if asks then
              && n !in w.inFlight && Enabled(asked, Deliver(n, Some(rows)))
              && Do(asked, Deliver(n, Some(rows))).view.captures == rows
              && Do(asked, Deliver(n, Some(rows))).inFlight == w.inFlight
            else asked == w
  {
    assert w.inFlight + {w.view.refreshSeq + 1} - {w.view.refreshSeq + 1} == w.inFlight;
    assert w.inFlight + {} == w.inFlight;
  }
}
