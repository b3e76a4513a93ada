/** Dragging a rule or a collection to a new place (src/views/RulesView.tsx, `reorderRule` and
    `reorderCollection`). Only the rows whose number changes are written, in any order of
    completion. */
module Reorder {
  import opened Text

  type Id = nat

  datatype Position = Before | After

  /** A rule as the list shows it. */
  datatype Row = Row(id: Id, group: Option<Id>, priority: int)

  function Without(ids: seq<Id>, id: Id): seq<Id> {
    if ids == [] then []
    else (if ids[0] == id then [] else [ids[0]]) + Without(ids[1..], id)
  }

  /** Where the entry stands; the length when it is not there. */
  function IndexIn(ids: seq<Id>, id: Id): (i: nat)
    ensures i <= |ids|
    ensures i < |ids| ==> ids[i] == id
    ensures i == |ids| ==> id !in ids
  {
    if ids == [] || ids[0] == id then 0 else IndexIn(ids[1..], id) + 1
  }

  function InsertAt(ids: seq<Id>, at: nat, id: Id): seq<Id>
    requires at <= |ids|
  {
    ids[..at] + [id] + ids[at..]
  }

  /** The list with `dragged` taken out and put next to `target`. */
  function Moved(ids: seq<Id>, dragged: Id, target: Id, position: Position): Option<seq<Id>> {
    var rest := Without(ids, dragged);
    var at := IndexIn(rest, target);
    if at == |rest| then None
    else Some(InsertAt(rest, if position.After? then at + 1 else at, dragged))
  }

  // ---- What a move is --------------------------------------------------------------------

  lemma NoDupCons(id: Id, ids: seq<Id>)
    ensures NoDup([id] + ids) <==> id !in ids && NoDup(ids)
  {
    var all := [id] + ids;
    if NoDup(all) {
      assert forall i :: 0 <= i < |ids| ==> all[i + 1] == ids[i] && all[0] != all[i + 1];
    }
    if id !in ids && NoDup(ids) {
      assert forall i :: 1 <= i < |all| ==> all[i] == ids[i - 1] && all[i] in ids;
    }
  }

  lemma {:induction false} WithoutMembers(ids: seq<Id>, id: Id)
    ensures id !in Without(ids, id)
    ensures forall x :: x in Without(ids, id) <==> x in ids && x != id
    ensures NoDup(ids) ==> NoDup(Without(ids, id))
  {
    if ids != [] {
      WithoutMembers(ids[1..], id);
      assert [ids[0]] + ids[1..] == ids;
      NoDupCons(ids[0], ids[1..]);
      NoDupCons(ids[0], Without(ids[1..], id));
    }
  }

  lemma {:induction false} WithoutAppend(a: seq<Id>, b: seq<Id>, id: Id)
    ensures Without(a + b, id) == Without(a, id) + Without(b, id)
    decreases |a|
  {
    if a == [] {
      assert a + b == b;
    } else {
      WithoutAppend(a[1..], b, id);
      assert (a + b)[1..] == a[1..] + b;
      Assoc(if a[0] == id then [] else [a[0]], Without(a[1..], id), Without(b, id));
    }
  }

  lemma {:induction false} WithoutNothing(ids: seq<Id>, id: Id)
    requires id !in ids
    ensures Without(ids, id) == ids
  {
    if ids != [] {
      WithoutNothing(ids[1..], id);
    }
  }

  lemma {:induction false} WithoutCounts(ids: seq<Id>, id: Id)
    requires NoDup(ids) && id in ids
    ensures multiset(Without(ids, id)) + multiset{id} == multiset(ids)
  {
    assert ids == [ids[0]] + ids[1..];
    if ids[0] == id {
      assert id !in ids[1..];
      WithoutNothing(ids[1..], id);
    } else {
      WithoutCounts(ids[1..], id);
    }
  }

  lemma WithoutInserted(ids: seq<Id>, at: nat, id: Id)
    requires at <= |ids| && id !in ids
    ensures Without(InsertAt(ids, at, id), id) == ids
  {
    var a, b := ids[..at], ids[at..];
    assert ids == a + b && ([id] + b)[1..] == b;
    WithoutNothing(a, id);
    WithoutNothing(b, id);
    WithoutAppend(a, [id] + b, id);
    Assoc(a, [id], b);
  }

  ghost predicate NextTo(ids: seq<Id>, first: Id, second: Id) {
    exists k :: 0 <= k < |ids| - 1 && ids[k] == first && ids[k + 1] == second
  }

  ghost predicate IsMove(ids: seq<Id>, dragged: Id, target: Id, position: Position, m: seq<Id>) {
    && multiset(m) == multiset(ids)
    && Without(m, dragged) == Without(ids, dragged)
    && (if position.Before? then NextTo(m, dragged, target) else NextTo(m, target, dragged))
  }

  /** One entry stands somewhere in front of another. */
  ghost predicate StandsBefore(ids: seq<Id>, x: Id, y: Id) {
    exists i, j :: 0 <= i < j < |ids| && ids[i] == x && ids[j] == y
  }

  lemma StandsCons(first: Id, rest: seq<Id>, x: Id, y: Id)
    ensures StandsBefore([first] + rest, x, y) <==> (first == x && y in rest) || StandsBefore(rest, x, y)
  {
    var ids := [first] + rest;
    assert forall k :: 0 <= k < |rest| ==> ids[k + 1] == rest[k];
    if StandsBefore(ids, x, y) {
      var i, j :| 0 <= i < j < |ids| && ids[i] == x && ids[j] == y;
      assert rest[j - 1] == y && (i > 0 ==> rest[i - 1] == x);
    }
    if StandsBefore(rest, x, y) {
      var i, j :| 0 <= i < j < |rest| && rest[i] == x && rest[j] == y;
      assert ids[i + 1] == x && ids[j + 1] == y;
    }
    if first == x && y in rest {
      var j :| 0 <= j < |rest| && rest[j] == y;
      assert ids[0] == x && ids[j + 1] == y;
    }
  }

  lemma {:induction false} WithoutOrder(ids: seq<Id>, id: Id, x: Id, y: Id)
    requires x != id && y != id
    ensures StandsBefore(Without(ids, id), x, y) <==> StandsBefore(ids, x, y)
  {
    if ids != [] {
      WithoutOrder(ids[1..], id, x, y);
      WithoutMembers(ids[1..], id);
      StandsCons(ids[0], ids[1..], x, y);
      StandsCons(ids[0], Without(ids[1..], id), x, y);
      assert [ids[0]] + ids[1..] == ids;
      assert ids[0] == id ==> Without(ids, id) == Without(ids[1..], id);
    }
  }

  /** After a move any two other entries stand as they stood. */
  lemma MoveKeepsOrder(ids: seq<Id>, dragged: Id, target: Id, position: Position, m: seq<Id>, x: Id, y: Id)
    requires IsMove(ids, dragged, target, position, m) && x != dragged && y != dragged
    ensures StandsBefore(m, x, y) <==> StandsBefore(ids, x, y)
  {
    WithoutOrder(ids, dragged, x, y);
    WithoutOrder(m, dragged, x, y);
  }

  lemma InsertedCounts(rest: seq<Id>, slot: nat, id: Id)
    requires slot <= |rest|
    ensures multiset(InsertAt(rest, slot, id)) == multiset(rest) + multiset{id}
  {
    assert rest == rest[..slot] + rest[slot..];
  }

  lemma InsertedNextTo(rest: seq<Id>, at: nat, target: Id, dragged: Id, position: Position)
    requires at < |rest| && rest[at] == target
    ensures var m := InsertAt(rest, if position.After? then at + 1 else at, dragged);
            if position.Before? then NextTo(m, dragged, target) else NextTo(m, target, dragged)
  {
    var m := InsertAt(rest, if position.After? then at + 1 else at, dragged);
    if position.Before? {
      assert m[at] == dragged && m[at + 1] == target;
    } else {
      assert m[at] == target && m[at + 1] == dragged;
    }
  }

  /** Where the move puts the dragged entry. */
  function Slot(rest: seq<Id>, target: Id, position: Position): nat {
    if position.After? then IndexIn(rest, target) + 1 else IndexIn(rest, target)
  }

  lemma MovedIs(ids: seq<Id>, dragged: Id, target: Id, position: Position, rest: seq<Id>)
    requires rest == Without(ids, dragged) && target in rest
    ensures IndexIn(rest, target) < |rest|
    ensures Moved(ids, dragged, target, position) == Some(InsertAt(rest, Slot(rest, target, position), dragged))
  {
  }

  lemma InsertedIsMove(ids: seq<Id>, dragged: Id, target: Id, position: Position)
    requires NoDup(ids) && dragged in ids && target in ids && dragged != target
    ensures Moved(ids, dragged, target, position).Some?
    ensures IsMove(ids, dragged, target, position, Moved(ids, dragged, target, position).value)
  {
    var rest := Without(ids, dragged);
    WithoutMembers(ids, dragged);
    MovedIs(ids, dragged, target, position, rest);
    WithoutCounts(ids, dragged);
    InsertedThere(rest, dragged, target, position);
  }

  lemma InsertedThere(rest: seq<Id>, dragged: Id, target: Id, position: Position)
    requires dragged !in rest && target in rest
    ensures var m := InsertAt(rest, Slot(rest, target, position), dragged);
            && multiset(m) == multiset(rest) + multiset{dragged} && Without(m, dragged) == rest
            && if position.Before? then NextTo(m, dragged, target) else NextTo(m, target, dragged)
  {
    InsertedCounts(rest, Slot(rest, target, position), dragged);
    WithoutInserted(rest, Slot(rest, target, position), dragged);
    InsertedNextTo(rest, IndexIn(rest, target), target, dragged, position);
  }

  lemma OnlyThere(m: seq<Id>, slot: nat)
    requires NoDup(m) && slot < |m|
    ensures m[slot] !in m[..slot] && m[slot] !in m[slot + 1..]
  {
  }

  lemma PutBack(m: seq<Id>, slot: nat)
    requires slot < |m|
    ensures InsertAt(m[..slot] + m[slot + 1..], slot, m[slot]) == m
  {
  }

  lemma CutOut(m: seq<Id>, slot: nat)
    requires NoDup(m) && slot < |m|
    ensures Without(m, m[slot]) == m[..slot] + m[slot + 1..]
  {
    OnlyThere(m, slot);
    PutBack(m, slot);
    WithoutInserted(m[..slot] + m[slot + 1..], slot, m[slot]);
  }

  /** Cut out the entry at `slot`, the target stands at `k`; putting it back next to the target gives
      the list again. */
  lemma CutPlaces(ids: seq<Id>, m: seq<Id>, slot: nat, k: nat, target: Id, position: Position)
    requires NoDup(m) && slot < |m| && k + 1 < |m| && Without(m, m[slot]) == Without(ids, m[slot])
    requires if position.Before? then slot == k && m[k + 1] == target else slot == k + 1 && m[k] == target
    ensures Moved(ids, m[slot], target, position) == Some(m)
  {
    var rest := Without(m, m[slot]);
    CutOut(m, slot);
    PutBack(m, slot);
    WithoutMembers(m, m[slot]);
    assert rest[k] == target;
    IndexUnique(rest, k, target);
    MovedIs(ids, m[slot], target, position, rest);
  }

  lemma MoveBefore(ids: seq<Id>, dragged: Id, target: Id, m: seq<Id>)
    requires NoDup(m) && Without(m, dragged) == Without(ids, dragged) && NextTo(m, dragged, target)
    ensures Moved(ids, dragged, target, Before) == Some(m)
  {
    var k: nat :| k < |m| - 1 && m[k] == dragged && m[k + 1] == target;
    CutPlaces(ids, m, k, k, target, Before);
  }

  lemma MoveAfter(ids: seq<Id>, dragged: Id, target: Id, m: seq<Id>)
    requires NoDup(m) && Without(m, dragged) == Without(ids, dragged) && NextTo(m, target, dragged)
    ensures Moved(ids, dragged, target, After) == Some(m)
  {
    var k: nat :| k < |m| - 1 && m[k] == target && m[k + 1] == dragged;
    CutPlaces(ids, m, k + 1, k, target, After);
  }

  /** A list with the same entries, the others in their old order and the dragged one next to the
      target, can only be the one that is written. */
  lemma MoveDetermined(ids: seq<Id>, dragged: Id, target: Id, position: Position, m: seq<Id>)
    requires NoDup(ids) && dragged in ids && target in ids && dragged != target
    requires IsMove(ids, dragged, target, position, m)
    ensures Moved(ids, dragged, target, position) == Some(m)
  {
    NoDupCounts(ids, m);
    if position.Before? {
      MoveBefore(ids, dragged, target, m);
    } else {
      MoveAfter(ids, dragged, target, m);
    }
  }

  lemma IndexUnique(ids: seq<Id>, k: nat, id: Id)
    requires NoDup(ids) && k < |ids| && ids[k] == id
    ensures IndexIn(ids, id) == k
  {
  }

  lemma NoDupCounts(ids: seq<Id>, m: seq<Id>)
    requires NoDup(ids) && multiset(m) == multiset(ids)
    ensures NoDup(m) && |m| == |ids| && forall x :: x in m <==> x in ids
  {
    assert |m| == |multiset(m)| == |multiset(ids)| == |ids|;
    forall x
      ensures x in m <==> x in ids
    {
      assert x in m <==> x in multiset(m);
    }
    forall i: nat, j: nat | i < j < |m|
      ensures m[i] != m[j]
    {
      OnceAtMost(ids, m[i]);
      CountsTwice(m, i, j);
    }
  }

  lemma CountsTwice(m: seq<Id>, i: nat, j: nat)
    requires i < j < |m|
    ensures m[i] == m[j] ==> multiset(m)[m[i]] >= 2
  {
    var front, back := m[..j], m[j..];
    assert m == front + back;
    assert front[i] in multiset(front) && back[0] in multiset(back);
  }

  lemma {:induction false} OnceAtMost(ids: seq<Id>, id: Id)
    requires NoDup(ids)
    ensures multiset(ids)[id] <= 1
  {
    if ids != [] {
      OnceAtMost(ids[1..], id);
      assert ids == [ids[0]] + ids[1..];
      assert ids[0] !in ids[1..];
    }
  }

  // ---- Writing it down -------------------------------------------------------------------

  /** The numbers after every entry of `ordered` got its place. */
  function Renumbered(priority: map<Id, int>, ordered: seq<Id>): map<Id, int> {
    map id | id in priority :: if id in ordered then IndexIn(ordered, id) else priority[id]
  }

  /** One table's `priority` column. */
  class Table {
    var priority: map<Id, int>

    constructor (priority: map<Id, int>)
      ensures this.priority == priority
    {
      this.priority := priority;
    }

    /** `UPDATE … WHERE id`: nothing happens for a row that is not there. */
    method SetPriority(id: Id, priority: int)
      modifies this
      ensures this.priority == if id in old(this.priority) then old(this.priority)[id := priority] else old(this.priority)
    {
      if id in this.priority {
        this.priority := this.priority[id := priority];
      }
    }
  }

  /** The numbers on screen are those in the table, for the rows that exist in both. */
  ghost predicate ShowsTable(shown: map<Id, int>, priority: map<Id, int>) {
    forall id :: id in shown && id in priority ==> shown[id] == priority[id]
  }

  /** Places and rows that still have to be written. */
  function Changed(shown: map<Id, int>, ordered: seq<Id>): set<Id> {
    set id | id in ordered && (id !in shown || shown[id] != IndexIn(ordered, id))
  }

  ghost predicate Written(before: map<Id, int>, ordered: seq<Id>, pending: set<Id>, now: map<Id, int>) {
    && now.Keys == before.Keys
    && forall id :: id in before ==> now[id] == if id in ordered && id !in pending then IndexIn(ordered, id) else before[id]
  }

  lemma WrittenStep(before: map<Id, int>, ordered: seq<Id>, pending: set<Id>, now: map<Id, int>, id: Id)
    requires Written(before, ordered, pending, now) && id in pending && id in ordered
    ensures Written(before, ordered, pending - {id}, if id in now then now[id := IndexIn(ordered, id)] else now)
  {
  }

  lemma WrittenStart(before: map<Id, int>, ordered: seq<Id>, shown: map<Id, int>)
    requires ShowsTable(shown, before)
    ensures Written(before, ordered, Changed(shown, ordered), before)
  {
  }

  /** `Promise.all` over the changed rows: they land in an order nobody controls. */
  method WriteChanged(table: Table, ordered: seq<Id>, changed: set<Id>)
    requires forall id :: id in changed ==> id in ordered
    requires Written(table.priority, ordered, changed, table.priority)
    modifies table
    ensures table.priority == Renumbered(old(table.priority), ordered)
  {
    var pending := changed;
    while pending != {}
      invariant pending <= changed
      invariant Written(old(table.priority), ordered, pending, table.priority)
      decreases pending
    {
      var id :| id in pending;
      WrittenStep(old(table.priority), ordered, pending, table.priority, id);
      table.SetPriority(id, IndexIn(ordered, id));
      pending := pending - {id};
    }
  }

  /** What both functions share. `current` is the section as it is shown. */
  method MoveWithin(table: Table, current: seq<Id>, shown: map<Id, int>, dragged: Id, target: Id, position: Position)
    requires ShowsTable(shown, table.priority)
    modifies table
    ensures match Moved(current, dragged, target, position)
            case None => table.priority == old(table.priority)
            case Some(m) => table.priority == Renumbered(old(table.priority), m)
  {
    var ordered := Without(current, dragged);
    WithoutMembers(current, dragged);
    var at := IndexIn(ordered, target);
    if at == |ordered| {
      return;
    }
    ordered := InsertAt(ordered, if position.After? then at + 1 else at, dragged);
    var changed := Changed(shown, ordered);
    WrittenStart(table.priority, ordered, shown);
    WriteChanged(table, ordered, changed);
  }

  method ReorderCollection(table: Table, current: seq<Id>, shown: map<Id, int>, dragged: Id, target: Id, position: Position)
    requires ShowsTable(shown, table.priority)
    modifies table
    ensures dragged == target ==> table.priority == old(table.priority)
    ensures dragged != target ==>
              match Moved(current, dragged, target, position)
              case None => table.priority == old(table.priority)
              case Some(m) => table.priority == Renumbered(old(table.priority), m)
  {
    if dragged == target {
      return;
    }
    MoveWithin(table, current, shown, dragged, target, position);
  }

  // ---- Rules -----------------------------------------------------------------------------

  function Find(rules: seq<Row>, id: Id): (r: Option<Row>)
    ensures r.Some? ==> r.value in rules && r.value.id == id
    ensures r.None? ==> forall x :: x in rules ==> x.id != id
  {
    if rules == [] then None else if rules[0].id == id then Some(rules[0]) else Find(rules[1..], id)
  }

  function Section(rules: seq<Row>, group: Option<Id>): (ids: seq<Id>)
    ensures forall id :: id in ids <==> exists r :: r in rules && r.id == id && r.group == group
  {
    if rules == [] then [] else (if rules[0].group == group then [rules[0].id] else []) + Section(rules[1..], group)
  }

  function Shown(rules: seq<Row>): map<Id, int> {
    map id | id in (set r | r in rules :: r.id) :: if Find(rules, id).Some? then Find(rules, id).value.priority else 0
  }

  /** The list on screen is the one in the store. */
  ghost predicate Fresh(rules: seq<Row>, priority: map<Id, int>, group: map<Id, Option<Id>>) {
    && (forall i, j :: 0 <= i < j < |rules| ==> rules[i].id != rules[j].id)
    && (forall r :: r in rules ==> r.id in priority && priority[r.id] == r.priority && r.id in group && group[r.id] == r.group)
  }

  class RuleStore {
    const table: Table
    var group: map<Id, Option<Id>>

    constructor (table: Table, group: map<Id, Option<Id>>)
      ensures this.table == table && this.group == group
    {
      this.table, this.group := table, group;
    }

    method MoveRule(r: Row, group: Option<Id>)
      modifies this
      ensures this.group == if r.group == group then old(this.group) else old(this.group)[r.id := group]
    {
      if r.group != group {
        this.group := this.group[r.id := group];
      }
    }

    method ReorderRule(rules: seq<Row>, draggedId: Id, targetId: Id, position: Position)
      requires Fresh(rules, table.priority, group)
      modifies this, table
      ensures draggedId == targetId || Find(rules, draggedId).None? || Find(rules, targetId).None? ==>
                table.priority == old(table.priority) && group == old(group)
      ensures draggedId != targetId && Find(rules, draggedId).Some? && Find(rules, targetId).Some? ==>
                var from, into := Find(rules, draggedId).value.group, Find(rules, targetId).value.group;
                var moved := Moved(Section(rules, from), draggedId, targetId, position);
                if from == into then
                  moved.Some? && table.priority == Renumbered(old(table.priority), moved.value) && group == old(group)
                else
                  table.priority == old(table.priority) && group == old(group)[draggedId := into]
    {
      if draggedId == targetId {
        return;
      }
      var dragged, target := Find(rules, draggedId), Find(rules, targetId);
      if dragged.None? || target.None? {
        return;
      }
      if dragged.value.group != target.value.group {
        MoveRule(dragged.value, target.value.group);
        return;
      }
      var current := Section(rules, dragged.value.group);
      ShownIsTable(rules, table.priority, group);
      MoveWithin(table, current, Shown(rules), draggedId, targetId, position);
      SectionMember(rules, target.value);
      WithoutMembers(current, draggedId);
    }
  }

  lemma SectionMember(rules: seq<Row>, r: Row)
    requires r in rules
    ensures r.id in Section(rules, r.group)
  {
  }

  lemma ShownIsTable(rules: seq<Row>, priority: map<Id, int>, group: map<Id, Option<Id>>)
    requires Fresh(rules, priority, group)
    ensures ShowsTable(Shown(rules), priority)
  {
  }

  // ---- What is shown afterwards ----------------------------------------------------------

  ghost predicate Ascending(ids: seq<Id>, priority: map<Id, int>) {
    && (forall id :: id in ids ==> id in priority)
    && forall i, j :: 0 <= i < j < |ids| ==> priority[ids[i]] <= priority[ids[j]]
  }

  function PlacesOf(ordered: seq<Id>, listed: seq<Id>): seq<nat> {
    seq(|listed|, i requires 0 <= i < |listed| => IndexIn(ordered, listed[i]))
  }

  lemma PlacesIncrease(priority: map<Id, int>, ordered: seq<Id>, listed: seq<Id>)
    requires NoDup(listed) && |listed| == |ordered| && (forall id :: id in listed ==> id in ordered && id in priority)
    requires Ascending(listed, Renumbered(priority, ordered))
    ensures Increasing(PlacesOf(ordered, listed)) && forall i :: 0 <= i < |listed| ==> PlacesOf(ordered, listed)[i] < |listed|
  {
    var places := PlacesOf(ordered, listed);
    forall i, j | 0 <= i < j < |places|
      ensures places[i] < places[j] < |places|
    {
      assert listed[i] in ordered && listed[j] in ordered;
      assert listed[i] != listed[j];
    }
    forall i | 0 <= i < |listed|
      ensures places[i] < |listed|
    {
      assert listed[i] in ordered;
    }
  }

  /** However the store breaks ties, listing the section by its new numbers shows exactly the
      order that was written: there are no ties. */
  lemma ListedAsWritten(priority: map<Id, int>, ordered: seq<Id>, listed: seq<Id>)
    requires NoDup(ordered) && multiset(listed) == multiset(ordered)
    requires forall id :: id in ordered ==> id in priority
    requires Ascending(listed, Renumbered(priority, ordered))
    ensures listed == ordered
  {
    NoDupCounts(ordered, listed);
    PlacesIncrease(priority, ordered, listed);
    forall i | 0 <= i < |listed|
      ensures listed[i] == ordered[i]
    {
      Climbs(PlacesOf(ordered, listed), i);
      Falls(PlacesOf(ordered, listed), i);
      assert IndexIn(ordered, listed[i]) == i;
    }
  }

  ghost predicate Increasing(places: seq<nat>) {
    forall i, j :: 0 <= i < j < |places| ==> places[i] < places[j] < |places|
  }

  lemma {:induction false} Climbs(places: seq<nat>, i: nat)
    requires Increasing(places) && i < |places|
    ensures places[i] >= i
  {
    if i > 0 {
      Climbs(places, i - 1);
    }
  }

  lemma {:induction false} Falls(places: seq<nat>, i: nat)
    requires Increasing(places) && i < |places| && places[i] < |places|
    ensures places[i] <= i
    decreases |places| - i
  {
    if i + 1 < |places| {
      Falls(places, i + 1);
    }
  }

  /** The rule is one of the section's. */
  ghost predicate InSection(rules: seq<Row>, id: Id, g: Option<Id>) {
    exists r :: r in rules && r.id == id && r.group == g
  }

  /** The rules of the section, each once, in some order. */
  ghost predicate ListsSection(rules: seq<Row>, g: Option<Id>, listed: seq<Id>) {
    NoDup(listed) && forall id :: id in listed <==> InSection(rules, id, g)
  }

  lemma {:induction false} SectionOrder(rules: seq<Row>, g: Option<Id>, a: nat, b: nat)
    requires a < b < |rules| && rules[a].group == g && rules[b].group == g
    ensures StandsBefore(Section(rules, g), rules[a].id, rules[b].id)
  {
    var rest := Section(rules[1..], g);
    assert Section(rules, g) == if rules[0].group == g then [rules[0].id] + rest else rest;
    assert rules[b] == rules[1..][b - 1] && rules[b] in rules[1..];
    StandsCons(rules[0].id, rest, rules[a].id, rules[b].id);
    if a > 0 {
      SectionOrder(rules[1..], g, a - 1, b - 1);
    }
  }

  lemma {:induction false} SameCounts(a: seq<Id>, b: seq<Id>)
    requires NoDup(a) && NoDup(b) && forall id :: id in a <==> id in b
    ensures multiset(a) == multiset(b)
  {
    forall id
      ensures multiset(a)[id] == multiset(b)[id]
    {
      OnceAtMost(a, id);
      OnceAtMost(b, id);
      assert id in multiset(a) <==> id in a;
      assert id in multiset(b) <==> id in b;
    }
  }

  /** Any two rules of the section but the dragged one are listed in the order of the screen. */
  ghost predicate InScreenOrder(rules: seq<Row>, g: Option<Id>, dragged: Id, listed: seq<Id>) {
    forall a, b :: 0 <= a < b < |rules| && rules[a].group == rules[b].group == g && dragged !in {rules[a].id, rules[b].id} ==>
      StandsBefore(listed, rules[a].id, rules[b].id)
  }

  /** A drag within a section: the section is listed with the dragged rule next to the target, any two
      other rules in the order they had on screen, and no other rule's number changes. */
  lemma DragShows(rules: seq<Row>, priority: map<Id, int>, group: map<Id, Option<Id>>,
                  dragged: Id, target: Id, position: Position, listed: seq<Id>, g: Option<Id>)
    requires Fresh(rules, priority, group) && dragged != target
    requires InSection(rules, dragged, g) && InSection(rules, target, g)
    ensures Moved(Section(rules, g), dragged, target, position).Some?
    ensures var after := Renumbered(priority, Moved(Section(rules, g), dragged, target, position).value);
            && (ListsSection(rules, g, listed) && Ascending(listed, after) ==>
                  && (if position.Before? then NextTo(listed, dragged, target) else NextTo(listed, target, dragged))
                  && InScreenOrder(rules, g, dragged, listed))
            && forall id :: id in priority && !InSection(rules, id, g) ==> after[id] == priority[id]
  {
    var ids := Section(rules, g);
    SectionNoDup(rules, g);
    InsertedIsMove(ids, dragged, target, position);
    var m := Moved(ids, dragged, target, position).value;
    OthersInOrder(rules, dragged, target, position, m, g);
    OutsideStays(rules, priority, m, g);
    if ListsSection(rules, g, listed) && Ascending(listed, Renumbered(priority, m)) {
      SectionListed(rules, priority, m, g, listed);
    }
  }

  lemma OutsideStays(rules: seq<Row>, priority: map<Id, int>, m: seq<Id>, g: Option<Id>)
    requires NoDup(Section(rules, g)) && multiset(m) == multiset(Section(rules, g))
    ensures forall id :: id in priority && !InSection(rules, id, g) ==> Renumbered(priority, m)[id] == priority[id]
  {
    NoDupCounts(Section(rules, g), m);
  }

  lemma SectionListed(rules: seq<Row>, priority: map<Id, int>, m: seq<Id>, g: Option<Id>, listed: seq<Id>)
    requires NoDup(Section(rules, g)) && multiset(m) == multiset(Section(rules, g))
    requires ListsSection(rules, g, listed) && Ascending(listed, Renumbered(priority, m))
    ensures listed == m
  {
    var ids := Section(rules, g);
    NoDupCounts(ids, m);
    SameCounts(listed, ids);
    ListedAsWritten(priority, m, listed);
  }

  lemma OthersInOrder(rules: seq<Row>, dragged: Id, target: Id, position: Position, m: seq<Id>, g: Option<Id>)
    requires IsMove(Section(rules, g), dragged, target, position, m)
    ensures InScreenOrder(rules, g, dragged, m)
  {
    forall a, b | 0 <= a < b < |rules| && rules[a].group == rules[b].group == g && dragged !in {rules[a].id, rules[b].id}
      ensures StandsBefore(m, rules[a].id, rules[b].id)
    {
      SectionOrder(rules, g, a, b);
      MoveKeepsOrder(Section(rules, g), dragged, target, position, m, rules[a].id, rules[b].id);
    }
  }

  lemma {:induction false} SectionNoDup(rules: seq<Row>, g: Option<Id>)
    requires forall i, j :: 0 <= i < j < |rules| ==> rules[i].id != rules[j].id
    ensures NoDup(Section(rules, g))
  {
    if rules != [] {
      SectionNoDup(rules[1..], g);
      assert forall r :: r in rules[1..] ==> r.id != rules[0].id;
      NoDupCons(rules[0].id, Section(rules[1..], g));
    }
  }
}
