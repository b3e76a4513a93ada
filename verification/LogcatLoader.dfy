/** The rows of the Logcat window: re-query, paging of older rows, and the sequence guard between
    answers that arrive in any order (src/views/LogcatView.tsx, `refresh` and `loadOlder`).

    The filter and the PID sets are fixed. The matching rows ever stored form one list, ascending
    in id; retention raises the index of the first surviving one. Queries answer as documented in
    src/ipc/client.ts: the newest rows, oldest first. */
module LogcatLoader {
  import opened Text

  datatype Row = Row(id: nat, line: string)

  const QUERY_LIMIT: nat := 5000
  const OLDER_PAGE: nat := 2000

  ghost predicate Ascending(rows: seq<Row>) {
    && (forall i :: 0 <= i < |rows| ==> rows[i].id >= 1)
    && (forall i, j :: 0 <= i < j < |rows| ==> rows[i].id < rows[j].id)
  }

  // ---- The backend -----------------------------------------------------------------------

  datatype Store = Store(rows: seq<Row>, floor: nat) {
    ghost predicate Valid() {
      floor <= |rows| && Ascending(rows)
    }
  }

  function Newest(rows: seq<Row>, limit: nat): seq<Row> {
    if |rows| <= limit then rows else rows[|rows| - limit..]
  }

  function Query(db: Store): seq<Row>
    requires db.floor <= |db.rows|
  {
    Newest(db.rows[db.floor..], QUERY_LIMIT)
  }

  function Below(rows: seq<Row>, id: nat): seq<Row> {
    if rows == [] then []
    else if rows[|rows| - 1].id < id then rows
    else Below(rows[..|rows| - 1], id)
  }

  function QueryOlder(db: Store, beforeId: nat): seq<Row>
    requires db.floor <= |db.rows|
  {
    Newest(Below(db.rows[db.floor..], beforeId), OLDER_PAGE)
  }

  // ---- The view --------------------------------------------------------------------------

  datatype View = View(
    entries: seq<Row>, refreshSeq: nat, noMoreOlder: bool, loadingOlder: bool, paused: bool, autoScroll: bool)

  /** `refresh` up to its `await`: the sequence number of the query it sends, if it sends one. */
  function BeginRefresh(v: View, force: bool): (View, Option<nat>) {
    if v.paused || (!force && !v.autoScroll && v.entries != []) then (v, None)
    else (v.(refreshSeq := v.refreshSeq + 1), Some(v.refreshSeq + 1))
  }

  /** `refresh` behind its `await`; no answer stands for an error. */
  function EndRefresh(v: View, seqNo: nat, answer: Option<seq<Row>>): View {
    if seqNo != v.refreshSeq || answer.None? then v
    else v.(entries := answer.value, noMoreOlder := false)
  }

  datatype Older = Older(seqNo: nat, beforeId: nat)

  function BeginOlder(v: View): (View, Option<Older>) {
    if v.loadingOlder || v.noMoreOlder || v.entries == [] then (v, None)
    else if v.entries[0].id <= 1 then (v.(noMoreOlder := true), None)
    else (v.(loadingOlder := true), Some(Older(v.refreshSeq, v.entries[0].id)))
  }

  /** `loadOlder` behind its `await`. After a prepend the flag stays up until the scroll anchor
      has been applied. */
  function EndOlder(v: View, req: Older, answer: Option<seq<Row>>): View {
    if req.seqNo != v.refreshSeq || answer.None? then v.(loadingOlder := false)
    else if answer.value == [] then v.(noMoreOlder := true, loadingOlder := false)
    else v.(noMoreOlder := v.noMoreOlder || |answer.value| < OLDER_PAGE, entries := answer.value + v.entries)
  }

  /** The component's own fields and the two functions that update them. */
  class Loader {
    var entries: seq<Row>
    var refreshSeq: nat
    var noMoreOlder: bool
    var loadingOlder: bool
    var paused: bool
    var autoScroll: bool

    function Now(): View
      reads this
    {
      View(entries, refreshSeq, noMoreOlder, loadingOlder, paused, autoScroll)
    }

    method StartRefresh(force: bool) returns (query: Option<nat>)
      modifies this`refreshSeq
      ensures (Now(), query) == BeginRefresh(old(Now()), force)
    {
      if paused {
        return None;
      }
      if !force && !autoScroll && |entries| > 0 {
        return None;
      }
      refreshSeq := refreshSeq + 1;
      query := Some(refreshSeq);
    }

    method FinishRefresh(seqNo: nat, answer: Option<seq<Row>>)
      modifies this`entries, this`noMoreOlder
      ensures Now() == EndRefresh(old(Now()), seqNo, answer)
    {
      if seqNo != refreshSeq {
        return;
      }
      if answer.Some? {
        entries := answer.value;
        noMoreOlder := false;
      }
    }

    method StartOlder() returns (query: Option<Older>)
      modifies this`noMoreOlder, this`loadingOlder
      ensures (Now(), query) == BeginOlder(old(Now()))
    {
      if loadingOlder || noMoreOlder || |entries| == 0 {
        return None;
      }
      var beforeId := entries[0].id;
      if beforeId <= 1 {
        noMoreOlder := true;
        return None;
      }
      loadingOlder := true;
      query := Some(Older(refreshSeq, beforeId));
    }

    method FinishOlder(req: Older, answer: Option<seq<Row>>)
      modifies this`entries, this`noMoreOlder, this`loadingOlder
      ensures Now() == EndOlder(old(Now()), req, answer)
    {
      if answer.None? || req.seqNo != refreshSeq {
        loadingOlder := false;
        return;
      }
      if |answer.value| == 0 {
        noMoreOlder := true;
        loadingOlder := false;
        return;
      }
      if |answer.value| < OLDER_PAGE {
        noMoreOlder := true;
      }
      entries := answer.value + entries;
    }
  }

  // ---- Everything that can happen --------------------------------------------------------

  /** `queries` holds the refreshes not yet answered, each with its result once the backend has
      computed it; `older` is the page load under way. */
  datatype World = World(
    db: Store, view: View, queries: map<nat, Option<seq<Row>>>, older: Option<(Older, Option<seq<Row>>)>)

  datatype Action =
    | Append(rows: seq<Row>) | Prune(floor: nat)
    | SetMode(paused: bool, autoScroll: bool)
    | IssueRefresh(force: bool) | ServeRefresh(seqNo: nat) | DeliverRefresh(seqNo: nat, ok: bool)
    | IssueOlder | ServeOlder | DeliverOlder(ok: bool) | AnchorSettled

  ghost predicate Enabled(w: World, a: Action) {
    match a
    case Append(rows) => Ascending(w.db.rows + rows)
    case Prune(floor) => w.db.floor <= floor <= |w.db.rows|
    case ServeRefresh(n) => n in w.queries && w.queries[n].None?
    case DeliverRefresh(n, ok) => n in w.queries && (ok ==> w.queries[n].Some?)
    case ServeOlder => w.older.Some? && w.older.value.1.None?
    case DeliverOlder(ok) => w.older.Some? && (ok ==> w.older.value.1.Some?)
    case AnchorSettled => w.older.None?
    case _ => true
  }

  function Do(w: World, a: Action): World
    requires w.db.floor <= |w.db.rows| && Enabled(w, a)
  {
    match a
    case Append(rows) => w.(db := w.db.(rows := w.db.rows + rows))
    case Prune(floor) => w.(db := w.db.(floor := floor))
    case SetMode(p, s) => w.(view := w.view.(paused := p, autoScroll := s))
    case IssueRefresh(force) =>
      var (v, q) := BeginRefresh(w.view, force);
      w.(view := v, queries := if q.Some? then w.queries[q.value := None] else w.queries)
    case ServeRefresh(n) => w.(queries := w.queries[n := Some(Query(w.db))])
    case DeliverRefresh(n, ok) =>
      w.(view := EndRefresh(w.view, n, if ok then w.queries[n] else None), queries := w.queries - {n})
    case IssueOlder =>
      var (v, q) := BeginOlder(w.view);
      w.(view := v, older := if q.Some? then Some((q.value, None)) else w.older)
    case ServeOlder => w.(older := Some((w.older.value.0, Some(QueryOlder(w.db, w.older.value.0.beforeId)))))
    case DeliverOlder(ok) =>
      w.(view := EndOlder(w.view, w.older.value.0, if ok then w.older.value.1 else None), older := None)
    case AnchorSettled => w.(view := w.view.(loadingOlder := false))
  }

  /** The side condition: a page of older rows is not asked for while the answer to the latest
      refresh is still out. */
  predicate Calm(w: World, a: Action) {
    a.IssueOlder? ==> w.view.refreshSeq !in w.queries
  }

  // ---- What the window shows -------------------------------------------------------------

  /** `rows` is the stretch of `all` from index `a` to `b`. */
  ghost predicate Stretch(all: seq<Row>, rows: seq<Row>, a: nat, b: nat) {
    a <= b <= |all| && rows == all[a..b]
  }

  ghost predicate Contiguous(all: seq<Row>, rows: seq<Row>) {
    exists a: nat, b: nat :: Stretch(all, rows, a, b)
  }

  /** A page of older rows as the backend answers it: it ends right before `beforeId`, and a short
      one starts at the first survivor. */
  ghost predicate PageAt(db: Store, beforeId: nat, page: seq<Row>, p: nat, k: nat) {
    && k < |db.rows| && db.rows[k].id == beforeId
    && (if page == [] then k <= db.floor else Stretch(db.rows, page, p, k))
    && (page != [] && |page| < OLDER_PAGE ==> p <= db.floor)
  }

  ghost predicate WindowAt(db: Store, v: View, a: nat, b: nat) {
    && Stretch(db.rows, v.entries, a, b)
    && (v.noMoreOlder ==> a <= db.floor)
  }

  ghost predicate Inv(w: World) {
    && w.db.Valid()
    && (exists a: nat, b: nat :: WindowAt(w.db, w.view, a, b))
    && (forall n :: n in w.queries ==> n <= w.view.refreshSeq)
    && (forall n :: n in w.queries && w.queries[n].Some? ==> Contiguous(w.db.rows, w.queries[n].value))
    && (w.older.Some? ==>
          var (req, page) := w.older.value;
          && w.view.loadingOlder
          && req.seqNo <= w.view.refreshSeq
          && (req.seqNo == w.view.refreshSeq ==>
                && w.view.refreshSeq !in w.queries
                && w.view.entries != [] && w.view.entries[0].id == req.beforeId)
          && (exists k: nat :: 0 <= k < |w.db.rows| && w.db.rows[k].id == req.beforeId)
          && (page.Some? ==> exists p: nat, k: nat :: PageAt(w.db, req.beforeId, page.value, p, k)))
  }

  lemma QueryStretch(db: Store) returns (a: nat)
    requires db.Valid()
    ensures Stretch(db.rows, Query(db), a, |db.rows|)
    ensures db.floor <= a && (|Query(db)| == QUERY_LIMIT || (a == db.floor && |Query(db)| < QUERY_LIMIT))
  {
    a := if |db.rows| - db.floor <= QUERY_LIMIT then db.floor else |db.rows| - QUERY_LIMIT;
  }

  lemma {:induction false} BelowStretch(rows: seq<Row>, from: nat, k: nat, upTo: nat)
    requires Ascending(rows) && from <= upTo <= |rows| && k < |rows| && k <= upTo
    ensures Below(rows[from..upTo], rows[k].id) == if k <= from then [] else rows[from..k]
    decreases upTo - from
  {
    var s := rows[from..upTo];
    if from < upTo && k < upTo {
      assert s[|s| - 1] == rows[upTo - 1] && s[..|s| - 1] == rows[from..upTo - 1];
      BelowStretch(rows, from, k, upTo - 1);
    }
  }

  lemma OlderPageAt(db: Store, k: nat) returns (p: nat)
    requires db.Valid() && k < |db.rows|
    ensures PageAt(db, db.rows[k].id, QueryOlder(db, db.rows[k].id), p, k)
    ensures k <= db.floor ==> QueryOlder(db, db.rows[k].id) == []
    ensures k > db.floor ==>
              && QueryOlder(db, db.rows[k].id) == db.rows[p..k]
              && p == (if k < db.floor + OLDER_PAGE then db.floor else k - OLDER_PAGE)
  {
    BelowStretch(db.rows, db.floor, k, |db.rows|);
    assert db.rows[db.floor..|db.rows|] == db.rows[db.floor..];
    p := if k <= db.floor then 0 else if k < db.floor + OLDER_PAGE then db.floor else k - OLDER_PAGE;
    if k > db.floor {
      var page := QueryOlder(db, db.rows[k].id);
      assert page == db.rows[p..k];
    }
  }

  lemma StretchGrows(a: seq<Row>, b: seq<Row>, rows: seq<Row>)
    requires a <= b && Contiguous(a, rows)
    ensures Contiguous(b, rows)
  {
    var c: nat, d: nat :| Stretch(a, rows, c, d);
    assert Stretch(b, rows, c, d);
  }

  lemma PageGrows(db: Store, more: Store, beforeId: nat, page: seq<Row>)
    requires db.rows <= more.rows && db.floor <= more.floor && exists p: nat, k: nat :: PageAt(db, beforeId, page, p, k)
    ensures exists p: nat, k: nat :: PageAt(more, beforeId, page, p, k)
  {
    var p: nat, k: nat :| PageAt(db, beforeId, page, p, k);
    assert PageAt(more, beforeId, page, p, k);
  }

  /** Rows only join at the end and leave at the front of the store, so what was a stretch
      stays one. */
  lemma StoreGrows(w: World, v: World)
    requires Inv(w) && v.db.Valid() && w.db.rows <= v.db.rows && w.db.floor <= v.db.floor
    requires v == w.(db := v.db)
    ensures Inv(v)
  {
    var a: nat, b: nat :| WindowAt(w.db, w.view, a, b);
    assert WindowAt(v.db, v.view, a, b);
    forall n | n in v.queries && v.queries[n].Some?
      ensures Contiguous(v.db.rows, v.queries[n].value)
    {
      StretchGrows(w.db.rows, v.db.rows, v.queries[n].value);
    }
    if w.older.Some? {
      var (req, page) := w.older.value;
      var j: nat :| 0 <= j < |w.db.rows| && w.db.rows[j].id == req.beforeId;
      assert v.db.rows[j].id == req.beforeId;
      if page.Some? {
        PageGrows(w.db, v.db, req.beforeId, page.value);
      }
    }
  }

  /** A page that meets the window it was asked for extends it. */
  lemma PageMeetsWindow(db: Store, view: View, page: seq<Row>, a: nat, b: nat, p: nat, k: nat)
    requires db.Valid() && WindowAt(db, view, a, b) && view.entries != []
    requires PageAt(db, view.entries[0].id, page, p, k) && page != []
    ensures a == k && Stretch(db.rows, page + view.entries, p, b)
  {
    assert db.rows[a] == view.entries[0];
    assert db.rows[p..k] + db.rows[k..b] == db.rows[p..b];
  }

  lemma PageAccepted(w: World)
    requires Inv(w) && Enabled(w, DeliverOlder(true)) && w.older.value.0.seqNo == w.view.refreshSeq
    ensures Inv(Do(w, DeliverOlder(true)))
  {
    var v := Do(w, DeliverOlder(true));
    var a: nat, b: nat :| WindowAt(w.db, w.view, a, b);
    var (req, page) := w.older.value;
    var p: nat, k: nat :| PageAt(w.db, req.beforeId, page.value, p, k);
    if page.value == [] {
      assert w.db.rows[a] == w.view.entries[0];
      assert a == k;
      assert WindowAt(v.db, v.view, a, b);
    } else {
      PageMeetsWindow(w.db, w.view, page.value, a, b, p, k);
      assert WindowAt(v.db, v.view, p, b);
    }
  }

  lemma PageExtends(w: World, ok: bool)
    requires Inv(w) && Enabled(w, DeliverOlder(ok))
    ensures Inv(Do(w, DeliverOlder(ok)))
  {
    if ok && w.older.value.0.seqNo == w.view.refreshSeq {
      PageAccepted(w);
    } else {
      var a: nat, b: nat :| WindowAt(w.db, w.view, a, b);
      assert WindowAt(w.db, Do(w, DeliverOlder(ok)).view, a, b);
    }
  }

  lemma RefreshSteps(w: World, a: Action)
    requires Inv(w) && Enabled(w, a) && (a.IssueRefresh? || a.ServeRefresh? || a.DeliverRefresh?)
    ensures Inv(Do(w, a))
  {
    var v := Do(w, a);
    var c: nat, d: nat :| WindowAt(w.db, w.view, c, d);
    match a
    case IssueRefresh(_) =>
      assert WindowAt(v.db, v.view, c, d);
    case ServeRefresh(n) =>
      assert WindowAt(v.db, v.view, c, d);
      var from := QueryStretch(w.db);
      assert Stretch(v.db.rows, Query(w.db), from, |v.db.rows|);
    case DeliverRefresh(n, ok) =>
      if ok && n == w.view.refreshSeq {
        var from: nat, til: nat :| Stretch(w.db.rows, w.queries[n].value, from, til);
        assert WindowAt(v.db, v.view, from, til);
      } else {
        assert WindowAt(v.db, v.view, c, d);
      }
  }

  lemma OlderSteps(w: World, a: Action)
    requires Inv(w) && Enabled(w, a) && Calm(w, a) && (a.IssueOlder? || a.ServeOlder?)
    ensures Inv(Do(w, a))
  {
    var v := Do(w, a);
    var c: nat, d: nat :| WindowAt(w.db, w.view, c, d);
    if a.IssueOlder? {
      if w.view.entries != [] {
        assert w.view.entries[0] == w.db.rows[c];
        assert w.db.rows[c].id >= 1;
        assert c > 0 ==> w.db.rows[0].id < w.db.rows[c].id;
      }
      assert WindowAt(v.db, v.view, c, d);
    } else {
      var req := w.older.value.0;
      var k: nat :| 0 <= k < |w.db.rows| && w.db.rows[k].id == req.beforeId;
      var p := OlderPageAt(w.db, k);
      assert WindowAt(v.db, v.view, c, d);
    }
  }

  lemma StepKeepsInv(w: World, a: Action)
    requires Inv(w) && Enabled(w, a) && Calm(w, a)
    ensures Inv(Do(w, a))
  {
    match a
    case Append(_) => StoreGrows(w, Do(w, a));
    case Prune(_) => StoreGrows(w, Do(w, a));
    case DeliverOlder(ok) => PageExtends(w, ok);
    case IssueOlder => OlderSteps(w, a);
    case ServeOlder => OlderSteps(w, a);
    case SetMode(_, _) =>
      var c: nat, d: nat :| WindowAt(w.db, w.view, c, d);
      assert WindowAt(w.db, Do(w, a).view, c, d);
    case AnchorSettled =>
      var c: nat, d: nat :| WindowAt(w.db, w.view, c, d);
      assert WindowAt(w.db, Do(w, a).view, c, d);
    case _ => RefreshSteps(w, a);
  }

  ghost predicate Initial(w: World) {
    && w.db.Valid() && w.queries == map[] && w.older == None
    && w.view.entries == [] && !w.view.noMoreOlder && !w.view.loadingOlder
  }

  ghost predicate IsRun(ws: seq<World>, acts: seq<Action>) {
    && |ws| == |acts| + 1
    && forall i :: 0 <= i < |acts| ==>
         ws[i].db.Valid() && Enabled(ws[i], acts[i]) && Calm(ws[i], acts[i]) && ws[i + 1] == Do(ws[i], acts[i])
  }

  lemma {:induction false} RunsKeepInv(ws: seq<World>, acts: seq<Action>, n: nat)
    requires IsRun(ws, acts) && Initial(ws[0]) && n < |ws|
    ensures Inv(ws[n])
    decreases n
  {
    if n == 0 {
      assert WindowAt(ws[0].db, ws[0].view, 0, 0);
    } else {
      RunsKeepInv(ws, acts, n - 1);
      StepKeepsInv(ws[n - 1], acts[n - 1]);
    }
  }

  lemma StretchExact(all: seq<Row>, e: seq<Row>, a: nat, b: nat, i: nat)
    requires Ascending(all) && Stretch(all, e, a, b) && e != [] && i < |all|
    ensures e[0] == all[a] && (e[0].id <= all[i].id <==> a <= i)
    ensures e[0].id <= all[i].id <= e[|e| - 1].id ==> all[i] in e
  {
    assert e[0] == all[a] && e[|e| - 1] == all[b - 1];
    if e[0].id <= all[i].id <= e[|e| - 1].id {
      assert a <= i < b;
      assert e[i - a] == all[i];
    }
  }

  /** Every window a user can reach: ids ascend strictly, every row is a stored match, no match
      between the first and the last row is missing, and once `noMoreOlder` is up no surviving
      match precedes the first row. */
  lemma WindowIsExact(ws: seq<World>, acts: seq<Action>, n: nat)
    requires IsRun(ws, acts) && Initial(ws[0]) && n < |ws|
    ensures var all, floor, e := ws[n].db.rows, ws[n].db.floor, ws[n].view.entries;
            && Ascending(e)
            && (forall r :: r in e ==> r in all)
            && (e != [] ==> forall i :: 0 <= i < |all| && e[0].id <= all[i].id <= e[|e| - 1].id ==> all[i] in e)
            && (e != [] && ws[n].view.noMoreOlder ==>
                  forall i :: floor <= i < |all| ==> e[0].id <= all[i].id)
  {
    RunsKeepInv(ws, acts, n);
    var a: nat, b: nat :| WindowAt(ws[n].db, ws[n].view, a, b);
    WindowMeaning(ws[n].db, ws[n].view, a, b);
  }

  lemma WindowMeaning(db: Store, v: View, a: nat, b: nat)
    requires db.Valid() && WindowAt(db, v, a, b)
    ensures Ascending(v.entries) && forall r :: r in v.entries ==> r in db.rows
    ensures v.entries != [] ==> forall i :: 0 <= i < |db.rows| ==>
              && (v.entries[0].id <= db.rows[i].id <= v.entries[|v.entries| - 1].id ==> db.rows[i] in v.entries)
              && (v.entries[0].id <= db.rows[i].id <==> a <= i)
  {
    var all, e := db.rows, v.entries;
    assert forall i :: 0 <= i < |e| ==> e[i] == all[a + i];
    if e != [] {
      forall i | 0 <= i < |all|
        ensures e[0].id <= all[i].id <= e[|e| - 1].id ==> all[i] in e
        ensures e[0].id <= all[i].id <==> a <= i
      {
        StretchExact(all, e, a, b, i);
      }
    }
  }

  // ---- What is asked for, and what comes of it -------------------------------------------

  /** A refresh that is forced, or finds the window empty or at its end, asks the backend unless the
      window is paused; once answered the window holds the newest matches, 5000 at most. Any other
      call does nothing. */
  lemma RefreshRound(w: World, force: bool)
    requires Inv(w)
    ensures var asks := !w.view.paused && (force || w.view.autoScroll || w.view.entries == []);
            var n, asked := w.view.refreshSeq + 1, Do(w, IssueRefresh(force));
            if asks then
              && n !in w.queries && Enabled(asked, ServeRefresh(n)) && Enabled(Do(asked, ServeRefresh(n)), DeliverRefresh(n, true))
              && var shown, live := Do(Do(asked, ServeRefresh(n)), DeliverRefresh(n, true)), w.db.rows[w.db.floor..];
                 && shown.view.entries == (if |live| <= 5000 then live else live[|live| - 5000..])
                 && !shown.view.noMoreOlder && shown.queries == w.queries
            else asked == w
  {
    var n := w.view.refreshSeq + 1;
    assert w.queries[n := None][n := Some(Query(w.db))] - {n} == w.queries;
  }

  /** One page, in an idle window that does not start with the first row ever and is not yet known to
      hold the first survivor: the rows before it join it, 2000 at most; fewer than that, or none,
      and the window knows that there are no more. */
  lemma PageRound(w: World, a: nat, b: nat)
    requires Inv(w) && WindowAt(w.db, w.view, a, b) && w.view.entries != [] && w.view.entries[0].id > 1
    requires !w.view.noMoreOlder && !w.view.loadingOlder && w.view.refreshSeq !in w.queries
    ensures var asked := Do(w, IssueOlder);
            && asked.older.Some? && Enabled(asked, ServeOlder) && Enabled(Do(asked, ServeOlder), DeliverOlder(true))
            && var paged, floor := Do(Do(asked, ServeOlder), DeliverOlder(true)), w.db.floor;
               && paged.view.noMoreOlder == (a < floor + 2000)
               && paged.view.entries == w.db.rows[(if a <= floor then a else if a < floor + 2000 then floor else a - 2000)..b]
  {
    var asked := Do(w, IssueOlder);
    assert w.view.entries[0] == w.db.rows[a];
    var p := OlderPageAt(w.db, a);
    var page := QueryOlder(w.db, w.db.rows[a].id);
    assert Do(asked, ServeOlder).older == Some((Older(w.view.refreshSeq, w.db.rows[a].id), Some(page)));
    if page != [] {
      PageMeetsWindow(w.db, w.view, page, a, b, p, a);
    }
  }

  /** An answer that failed or that a newer refresh has overtaken leaves the rows and the latch as they
      are, and a page gives the way free for the next one. */
  lemma AnswersDropped(w: World, n: nat, ok: bool)
    requires w.db.floor <= |w.db.rows|
    ensures Enabled(w, DeliverRefresh(n, ok)) && (!ok || n != w.view.refreshSeq) ==> Do(w, DeliverRefresh(n, ok)).view == w.view
    ensures Enabled(w, DeliverOlder(ok)) && (!ok || w.older.value.0.seqNo != w.view.refreshSeq) ==>
              var v := Do(w, DeliverOlder(ok));
              v.view == w.view.(loadingOlder := false) && v.older == None && v.queries == w.queries
  {
  }

  ghost predicate EndsWith(rows: seq<Row>, tail: seq<Row>) {
    |tail| <= |rows| && rows[|rows| - |tail|..] == tail
  }

  /** An answer waits unchanged for its delivery, and its number is not given out again. */
  lemma {:induction false} AnswerWaits(ws: seq<World>, acts: seq<Action>, i: nat, n: nat, m: nat)
    requires IsRun(ws, acts) && Initial(ws[0]) && i < m < |ws| && acts[i] == ServeRefresh(n)
    ensures n <= ws[m].view.refreshSeq && (n in ws[m].queries ==> ws[m].queries[n] == Some(Query(ws[i].db)))
    decreases m
  {
    if m == i + 1 {
      RunsKeepInv(ws, acts, i);
    } else {
      AnswerWaits(ws, acts, i, n, m - 1);
      QueryWaits(ws[m - 1], acts[m - 1], n, Query(ws[i].db));
    }
  }

  lemma QueryWaits(w: World, a: Action, n: nat, answer: seq<Row>)
    requires w.db.floor <= |w.db.rows| && Enabled(w, a)
    requires n <= w.view.refreshSeq && (n in w.queries ==> w.queries[n] == Some(answer))
    ensures var v := Do(w, a); n <= v.view.refreshSeq && (n in v.queries ==> v.queries[n] == Some(answer))
  {
  }

  lemma PrependedEnds(page: seq<Row>, rows: seq<Row>, tail: seq<Row>)
    requires EndsWith(rows, tail)
    ensures EndsWith(page + rows, tail)
  {
    assert (page + rows)[|page + rows| - |tail|..] == rows[|rows| - |tail|..];
  }

  lemma StepKeepsEnd(w: World, a: Action, tail: seq<Row>)
    requires w.db.floor <= |w.db.rows| && Enabled(w, a) && EndsWith(w.view.entries, tail)
    requires a.DeliverRefresh? && a.ok ==> a.seqNo != w.view.refreshSeq
    ensures EndsWith(Do(w, a).view.entries, tail)
  {
    if a.DeliverOlder? && a.ok {
      PrependedEnds(w.older.value.1.value, w.view.entries, tail);
    }
  }

  /** What the latest refresh found is what the window ends with: from the moment its answer arrives
      until that of a later refresh does, whatever is paged in, stored or pruned meanwhile. */
  lemma {:induction false} AnswerStaysShown(ws: seq<World>, acts: seq<Action>, i: nat, j: nat, n: nat, m: nat)
    requires IsRun(ws, acts) && Initial(ws[0]) && i < j < m < |ws|
    requires acts[i] == ServeRefresh(n) && acts[j] == DeliverRefresh(n, true) && ws[j].view.refreshSeq == n
    requires forall k :: j < k < m && acts[k].DeliverRefresh? && acts[k].ok ==> acts[k].seqNo != ws[k].view.refreshSeq
    ensures EndsWith(ws[m].view.entries, Query(ws[i].db))
    decreases m
  {
    if m == j + 1 {
      AnswerWaits(ws, acts, i, n, j);
    } else {
      AnswerStaysShown(ws, acts, i, j, n, m - 1);
      StepKeepsEnd(ws[m - 1], acts[m - 1], Query(ws[i].db));
    }
  }

  // ---- Why the side condition is needed --------------------------------------------------

  /** Prepending a page that was asked for at `beforeId` keeps the window gapless if and only if
      the window still starts at that row. */
  lemma PrependExactly(db: Store, entries: seq<Row>, a: nat, b: nat, beforeId: nat, page: seq<Row>, p: nat, k: nat)
    requires db.Valid() && Stretch(db.rows, entries, a, b) && entries != []
    requires PageAt(db, beforeId, page, p, k) && page != []
    ensures Contiguous(db.rows, page + entries) <==> entries[0].id == beforeId
  {
    assert entries[0] == db.rows[a];
    if entries[0].id == beforeId {
      assert a == k;
      assert db.rows[p..k] + db.rows[k..b] == db.rows[p..b];
      assert Stretch(db.rows, page + entries, p, b);
    }
    if Contiguous(db.rows, page + entries) {
      var c: nat, d: nat :| Stretch(db.rows, page + entries, c, d);
      var n := |page|;
      assert (page + entries)[n - 1] == db.rows[c + n - 1] && (page + entries)[n] == db.rows[c + n];
      assert page[n - 1] == db.rows[k - 1];
      assert c + n - 1 == k - 1 && c + n == a;
    }
  }

  /** What `noMoreOlder` claims: no surviving match precedes the first row of the window. */
  ghost predicate LatchHonest(db: Store, v: View) {
    v.noMoreOlder && v.entries != [] ==> forall i :: db.floor <= i < |db.rows| ==> v.entries[0].id <= db.rows[i].id
  }

  /** The latch after a page, whatever happened to the window meanwhile. A page that is not empty
      leaves it honest. An empty one does if and only if the window starts at a survivor no later than
      the first; and this is sure, however little has been pruned, if and only if the window starts
      no later than the row the page was asked for. */
  lemma LatchExactly(db: Store, v: View, a: nat, b: nat, req: Older, page: seq<Row>, p: nat, k: nat)
    requires db.Valid() && Stretch(db.rows, v.entries, a, b) && v.entries != [] && !v.noMoreOlder
    requires req.seqNo == v.refreshSeq && PageAt(db, req.beforeId, page, p, k)
    ensures page != [] ==> LatchHonest(db, EndOlder(v, req, Some(page)))
    ensures page == [] ==> (LatchHonest(db, EndOlder(v, req, Some(page))) <==> a <= db.floor)
    ensures page == [] ==>
              ((forall floor: nat :: k <= floor <= |db.rows| ==> LatchHonest(Store(db.rows, floor), EndOlder(v, req, Some(page))))
               <==> v.entries[0].id <= req.beforeId)
  {
    var w := EndOlder(v, req, Some(page));
    assert v.entries[0] == db.rows[a];
    if page != [] {
      assert w.entries[0] == page[0] == db.rows[p];
    } else {
      forall floor: nat | floor <= |db.rows|
        ensures LatchHonest(Store(db.rows, floor), w) <==> a <= floor
      {
        if floor < a {
          assert db.rows[floor].id < db.rows[a].id;
        }
      }
      assert LatchHonest(Store(db.rows, k), w) <==> a <= k;
      assert db.rows[a].id <= db.rows[k].id <==> a <= k;
    }
  }

  ghost predicate Step(w: World, a: Action, v: World) {
    w.db.Valid() && Enabled(w, a) && v == Do(w, a)
  }

  /** The worlds of one run: the first refresh fills an empty window, one more row is stored, and a
      second refresh races with a page. */
  function RaceWorld(all: seq<Row>, n: nat): World
    requires |all| == QUERY_LIMIT + 2
  {
    var shown, newer, page := all[1..QUERY_LIMIT + 1], all[2..], [all[0]];
    var asked := Older(2, all[1].id);
    World(Store(if n <= 3 then all[..QUERY_LIMIT + 1] else all, 0),
          View(if n <= 2 then [] else if n <= 8 then shown else if n == 9 then newer else page + newer,
               if n == 0 then 0 else if n <= 4 then 1 else 2, n >= 10, n >= 6, false, true),
          if n == 1 then map[1 := None] else if n == 2 then map[1 := Some(shown)]
          else if 5 <= n <= 7 then map[2 := None] else if n == 8 then map[2 := Some(newer)] else map[],
          if n == 6 then Some((asked, None)) else if 7 <= n <= 9 then Some((asked, Some(page))) else None)
  }

  function RaceAction(all: seq<Row>, n: nat): Action
    requires |all| == QUERY_LIMIT + 2
  {
    match n
    case 0 => IssueRefresh(true)
    case 1 => ServeRefresh(1)
    case 2 => DeliverRefresh(1, true)
    case 3 => Append([all[QUERY_LIMIT + 1]])
    case 4 => IssueRefresh(true)
    case 5 => IssueOlder
    case 6 => ServeOlder
    case 7 => ServeRefresh(2)
    case 8 => DeliverRefresh(2, true)
    case _ => DeliverOlder(true)
  }

  lemma RaceFills(all: seq<Row>, n: nat)
    requires Ascending(all) && |all| == QUERY_LIMIT + 2 && n < 3
    ensures Step(RaceWorld(all, n), RaceAction(all, n), RaceWorld(all, n + 1))
  {
    RaceAnswers(all);
    var w, v := RaceWorld(all, n), RaceWorld(all, n + 1);
    assert Enabled(w, RaceAction(all, n));
    if n == 2 {
      assert w.queries - {1} == map[];
    }
    assert v.view == Do(w, RaceAction(all, n)).view;
  }

  lemma RaceGoesOn(all: seq<Row>, n: nat)
    requires Ascending(all) && |all| == QUERY_LIMIT + 2 && 3 <= n < 5
    ensures Step(RaceWorld(all, n), RaceAction(all, n), RaceWorld(all, n + 1))
  {
    var w, v := RaceWorld(all, n), RaceWorld(all, n + 1);
    assert all[..QUERY_LIMIT + 1] + [all[QUERY_LIMIT + 1]] == all;
    assert w.db.Valid();
    if n == 3 {
      assert RaceAction(all, n) == Append([all[QUERY_LIMIT + 1]]);
      assert w.db.rows + [all[QUERY_LIMIT + 1]] == v.db.rows;
    } else {
      assert RaceAction(all, n) == IssueRefresh(true);
    }
    assert v == Do(w, RaceAction(all, n));
  }

  lemma RaceStep(all: seq<Row>, n: nat)
    requires Ascending(all) && |all| == QUERY_LIMIT + 2 && 5 <= n < 8
    ensures Step(RaceWorld(all, n), RaceAction(all, n), RaceWorld(all, n + 1))
  {
    RaceAnswers(all);
    var w, v := RaceWorld(all, n), RaceWorld(all, n + 1);
    assert Enabled(w, RaceAction(all, n));
    assert v.queries == Do(w, RaceAction(all, n)).queries && v.older == Do(w, RaceAction(all, n)).older;
  }

  lemma RaceLands(all: seq<Row>, n: nat)
    requires Ascending(all) && |all| == QUERY_LIMIT + 2 && 8 <= n < 10
    ensures Step(RaceWorld(all, n), RaceAction(all, n), RaceWorld(all, n + 1))
  {
    var w, v := RaceWorld(all, n), RaceWorld(all, n + 1);
    assert Enabled(w, RaceAction(all, n));
    if n == 8 {
      assert w.queries - {2} == map[];
    }
    assert v.view == Do(w, RaceAction(all, n)).view;
  }

  /** Without the side condition: a run from an empty window in which an older page is requested
      while a refresh is out, its one step that is not calm. Both carry the same sequence number, so
      both answers are applied, and the row between them is missing. */
  lemma RaceLeavesGap(all: seq<Row>)
    requires Ascending(all) && |all| == QUERY_LIMIT + 2
    ensures Initial(RaceWorld(all, 0))
    ensures forall n :: 0 <= n < 10 ==> Step(RaceWorld(all, n), RaceAction(all, n), RaceWorld(all, n + 1))
    ensures forall n :: 0 <= n < 10 ==> (Calm(RaceWorld(all, n), RaceAction(all, n)) <==> n != 5)
    ensures var w := RaceWorld(all, 10);
            && w.db.rows == all && w.view.entries == [all[0]] + all[2..] && !Contiguous(all, w.view.entries)
            && w.queries == map[] && w.older == None
  {
    RaceAnswers(all);
    forall n | 0 <= n < 10
      ensures Step(RaceWorld(all, n), RaceAction(all, n), RaceWorld(all, n + 1))
    {
      if n < 3 {
        RaceFills(all, n);
      } else if n < 5 {
        RaceGoesOn(all, n);
      } else if n < 8 {
        RaceStep(all, n);
      } else {
        RaceLands(all, n);
      }
    }
    PrependExactly(Store(all, 0), all[2..], 2, |all|, all[1].id, [all[0]], 0, 1);
  }

  lemma RaceAnswers(all: seq<Row>)
    requires Ascending(all) && |all| == QUERY_LIMIT + 2
    ensures QueryOlder(Store(all, 0), all[1].id) == [all[0]]
    ensures Query(Store(all, 0)) == all[2..]
    ensures Query(Store(all[..QUERY_LIMIT + 1], 0)) == all[1..QUERY_LIMIT + 1]
    ensures all[1].id > 1 && all[2..] == all[2..|all|] && all[2..][0].id != all[1].id
    ensures all[1..QUERY_LIMIT + 1][0] == all[1]
    ensures Stretch(all, [all[0]], 0, 1)
  {
    BelowStretch(all, 0, 1, |all|);
    assert all[0..] == all && all[0..|all|] == all;
    var early := all[..QUERY_LIMIT + 1];
    assert early[0..] == early && early[1..] == all[1..QUERY_LIMIT + 1];
    assert all[0].id < all[1].id < all[2].id;
    assert all[0..1] == [all[0]];
  }
}
