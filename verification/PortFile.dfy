/** Export and import of the rule library (src/lib/rules-portfile.ts), over the store's contract
    (crates/pane-storage/src/lib.rs). Payloads that are carried along unread (patches, parameters,
    headers, conditions) are lists of strings; a body is its base64 text. */
module PortFile {
  import opened Text

  datatype Id = Id(text: string)

  datatype Scope = All | Listed

  datatype Body = Body(mime: Option<string>, base64: string)

  datatype Collection = Collection(name: string, enabled: bool, priority: int, tags: seq<string>)

  /** What a file, a call and a row say about a rule in the same words. */
  datatype Core = Core(
    name: string, enabled: bool, priority: int, mode: string, patches: seq<string>,
    host: Option<string>, httpMethod: Option<string>, path: Option<string>, params: seq<string>,
    reqBody: Option<string>, conditions: seq<string>, tags: seq<string>,
    status: int, headers: seq<string>, delay: int)

  datatype Rule = Rule(core: Core, group: Option<Id>, body: Option<Id>, scope: Scope, devices: set<string>)

  datatype Db = Db(collections: map<Id, Collection>, rules: map<Id, Rule>, bodies: map<Id, Body>)

  // ---- The store -------------------------------------------------------------------------

  /** Trimmed, without blanks, and without later spellings that differ in case only. */
  function NormaliseTags(lower: char -> char, tags: seq<string>): seq<string> {
    if tags == [] then []
    else
      var front, t := NormaliseTags(lower, tags[..|tags| - 1]), Trim(tags[|tags| - 1]);
      if t == "" || (exists o :: o in front && ToLower(lower, o) == ToLower(lower, t)) then front else front + [t]
  }

  ghost predicate TagsNormal(lower: char -> char, tags: seq<string>) {
    && (forall t :: t in tags ==> t != "" && Trim(t) == t)
    && forall i, j :: 0 <= i < j < |tags| ==> ToLower(lower, tags[i]) != ToLower(lower, tags[j])
  }

  function NormaliseReqBody(body: Option<string>): Option<string> {
    if body.Some? && Trim(body.value) != "" then Some(Trim(body.value)) else None
  }

  function NormaliseCore(lower: char -> char, c: Core): Core {
    c.(mode := if c.mode == "patch" then "patch" else "stub",
       tags := NormaliseTags(lower, c.tags), reqBody := NormaliseReqBody(c.reqBody))
  }

  function NormaliseCollection(lower: char -> char, c: Collection): Collection {
    c.(tags := NormaliseTags(lower, c.tags))
  }

  /** Rows as the store leaves them. */
  ghost predicate Normal(lower: char -> char, db: Db) {
    && (forall id :: id in db.collections ==> TagsNormal(lower, db.collections[id].tags))
    && forall id :: id in db.rules ==> CoreNormal(lower, db.rules[id].core)
  }

  ghost predicate CoreNormal(lower: char -> char, c: Core) {
    && TagsNormal(lower, c.tags) && (c.mode == "patch" || c.mode == "stub")
    && (c.reqBody.Some? ==> c.reqBody.value != "" && Trim(c.reqBody.value) == c.reqBody.value)
  }

  lemma {:induction false} NormaliseTagsIsNormal(lower: char -> char, tags: seq<string>)
    ensures TagsNormal(lower, NormaliseTags(lower, tags))
    decreases |tags|
  {
    if tags != [] {
      NormaliseTagsIsNormal(lower, tags[..|tags| - 1]);
      TrimTwice(tags[|tags| - 1]);
      var front := NormaliseTags(lower, tags[..|tags| - 1]);
      assert forall i :: 0 <= i < |front| ==> front[i] in front;
    }
  }

  /** `o` is the trimmed tag number `i`, and no earlier one is spelled like it but for case. */
  ghost predicate FirstSpelling(lower: char -> char, tags: seq<string>, o: string, i: nat) {
    && i < |tags| && o == Trim(tags[i])
    && forall k :: 0 <= k < i ==> ToLower(lower, Trim(tags[k])) != ToLower(lower, o)
  }

  lemma FirstOfLonger(lower: char -> char, front: seq<string>, last: string, o: string, i: nat)
    requires FirstSpelling(lower, front, o, i)
    ensures FirstSpelling(lower, front + [last], o, i)
  {
  }

  ghost predicate Keeps(lower: char -> char, tags: seq<string>, t: string) {
    exists o :: o in NormaliseTags(lower, tags) && ToLower(lower, o) == ToLower(lower, t)
  }

  lemma KeepsLonger(lower: char -> char, front: seq<string>, last: string, t: string)
    ensures Keeps(lower, front, t) ==> Keeps(lower, front + [last], t)
    ensures Trim(last) != "" ==> Keeps(lower, front + [last], Trim(last))
  {
    var tags := front + [last];
    assert tags[..|front|] == front && tags[|front|] == last;
    assert NormaliseTags(lower, front) <= NormaliseTags(lower, tags);
    var after := NormaliseTags(lower, tags);
    if Trim(last) != "" && after != NormaliseTags(lower, front) {
      assert after[|after| - 1] == Trim(last) && Trim(last) in after;
    }
  }

  lemma {:induction false} NonBlankKept(lower: char -> char, tags: seq<string>)
    ensures forall t :: t in tags && Trim(t) != "" ==> Keeps(lower, tags, Trim(t))
    decreases |tags|
  {
    if tags != [] {
      var front, last := tags[..|tags| - 1], tags[|tags| - 1];
      assert tags == front + [last];
      NonBlankKept(lower, front);
      forall t | t in tags && Trim(t) != ""
        ensures Keeps(lower, tags, Trim(t))
      {
        KeepsLonger(lower, front, last, Trim(t));
      }
    }
  }

  /** Every tag that is not blank is kept up to case, in its first spelling, and nothing else is. */
  lemma {:induction false} TagsKept(lower: char -> char, tags: seq<string>)
    ensures forall t :: t in tags && Trim(t) != "" ==> Keeps(lower, tags, Trim(t))
    ensures forall o :: o in NormaliseTags(lower, tags) ==> exists i :: FirstSpelling(lower, tags, o, i)
    decreases |tags|
  {
    NonBlankKept(lower, tags);
    if tags != [] {
      var front, last := tags[..|tags| - 1], tags[|tags| - 1];
      assert tags == front + [last];
      TagsKept(lower, front);
      forall o | o in NormaliseTags(lower, tags)
        ensures exists i :: FirstSpelling(lower, tags, o, i)
      {
        if o in NormaliseTags(lower, front) {
          var i :| FirstSpelling(lower, front, o, i);
          FirstOfLonger(lower, front, last, o, i);
        } else {
          LastIsFirst(lower, front, last);
        }
      }
    }
  }

  lemma LastIsFirst(lower: char -> char, front: seq<string>, last: string)
    requires Trim(last) != ""
    requires forall t :: t in front && Trim(t) != "" ==> Keeps(lower, front, Trim(t))
    requires forall o :: o in NormaliseTags(lower, front) ==> ToLower(lower, o) != ToLower(lower, Trim(last))
    ensures FirstSpelling(lower, front + [last], Trim(last), |front|)
  {
    var tags := front + [last];
    forall k | 0 <= k < |front|
      ensures ToLower(lower, Trim(tags[k])) != ToLower(lower, Trim(last))
    {
      assert tags[k] == front[k] && front[k] in front;
      if Trim(front[k]) != "" {
        assert Keeps(lower, front, Trim(front[k]));
      } else {
        assert |ToLower(lower, Trim(front[k]))| == 0 && |ToLower(lower, Trim(last))| > 0;
      }
    }
  }

  lemma TagsNormalSnoc(lower: char -> char, front: seq<string>, t: string)
    requires TagsNormal(lower, front + [t])
    ensures TagsNormal(lower, front) && t != "" && Trim(t) == t
    ensures forall o :: o in front ==> ToLower(lower, o) != ToLower(lower, t)
  {
    var tags := front + [t];
    assert tags[|front|] == t && t in tags;
    assert forall i :: 0 <= i < |front| ==> tags[i] == front[i];
    assert forall o :: o in front ==> o in tags;
  }

  lemma {:induction false} NormalTagsStay(lower: char -> char, tags: seq<string>)
    requires TagsNormal(lower, tags)
    ensures NormaliseTags(lower, tags) == tags
    decreases |tags|
  {
    if tags != [] {
      var front, t := tags[..|tags| - 1], tags[|tags| - 1];
      assert tags == front + [t];
      TagsNormalSnoc(lower, front, t);
      NormalTagsStay(lower, front);
    }
  }

  lemma {:induction false} TrimLeftEnds(s: string)
    ensures TrimLeft(s) == "" || !IsSpace(TrimLeft(s)[0])
  {
    if s != "" && IsSpace(s[0]) {
      TrimLeftEnds(s[1..]);
    }
  }

  lemma {:induction false} TrimRightEnds(s: string)
    ensures TrimRight(s) == "" || (!IsSpace(TrimRight(s)[|TrimRight(s)| - 1]) && TrimRight(s)[0] == s[0])
  {
    if s != "" && IsSpace(s[|s| - 1]) {
      TrimRightEnds(s[..|s| - 1]);
    }
  }

  lemma TrimTwice(s: string)
    ensures Trim(Trim(s)) == Trim(s)
  {
    TrimLeftEnds(s);
    TrimRightEnds(TrimLeft(s));
  }

  /** What the store keeps is left alone when it is written again. */
  lemma NormaliseCoreTwice(lower: char -> char, c: Core)
    ensures CoreNormal(lower, NormaliseCore(lower, c))
    ensures CoreNormal(lower, c) ==> NormaliseCore(lower, c) == c
  {
    NormaliseTagsIsNormal(lower, c.tags);
    if c.reqBody.Some? {
      TrimTwice(c.reqBody.value);
    }
    if CoreNormal(lower, c) {
      NormalTagsStay(lower, c.tags);
    }
  }

  // ---- The file --------------------------------------------------------------------------

  datatype ExportedCollection = ExportedCollection(ref: Id, name: string, enabled: bool, priority: int, tags: Option<seq<string>>)

  /** Fields that older files lack are optional. */
  datatype ExportedRule = ExportedRule(
    ref: Option<Id>, name: string, enabled: bool, priority: int, mode: string, patches: seq<string>,
    host: Option<string>, httpMethod: Option<string>, path: Option<string>, params: seq<string>,
    reqBody: Option<string>, conditions: Option<seq<string>>, tags: Option<seq<string>>,
    status: int, headers: seq<string>, mime: Option<string>, body: Option<string>, delay: int)

  datatype File = File(collections: seq<ExportedCollection>, rules: seq<ExportedRule>)

  /** A rule as the list shows it: the type of its body is read from the body's row. */
  function MimeOf(db: Db, r: Rule): Option<string> {
    if r.body.Some? && r.body.value in db.bodies then db.bodies[r.body.value].mime else None
  }

  /** The body as it is fetched: none when there is none, when its row is gone, or when it is
      empty. */
  function ContentOf(db: Db, r: Rule): Option<string> {
    if r.body.Some? && r.body.value in db.bodies && db.bodies[r.body.value].base64 != ""
    then Some(db.bodies[r.body.value].base64) else None
  }

  function ExportRule(db: Db, r: Rule): ExportedRule {
    ExportedRule(
      r.group, r.core.name, r.core.enabled, r.core.priority, r.core.mode, r.core.patches,
      r.core.host, r.core.httpMethod, r.core.path, r.core.params,
      r.core.reqBody, Some(r.core.conditions), Some(r.core.tags),
      r.core.status, r.core.headers, MimeOf(db, r), ContentOf(db, r), r.core.delay)
  }

  function ExportCollection(id: Id, c: Collection): ExportedCollection {
    ExportedCollection(id, c.name, c.enabled, c.priority, Some(c.tags))
  }

  /** The whole library, in the order of the two lists on screen. */
  function Library(db: Db, colls: seq<Id>, ruleIds: seq<Id>): File
    requires (forall id :: id in colls ==> id in db.collections) && forall id :: id in ruleIds ==> id in db.rules
  {
    File(seq(|colls|, i requires 0 <= i < |colls| => ExportCollection(colls[i], db.collections[colls[i]])),
         seq(|ruleIds|, i requires 0 <= i < |ruleIds| => ExportRule(db, db.rules[ruleIds[i]])))
  }

  // ---- The calls -------------------------------------------------------------------------

  /** How a call to the store ends. A refused rule may leave its body behind; of a lost answer
      the caller only sees an error, but the row is there. */
  datatype Reply = Done | Refused(bodyStored: bool) | Lost

  function ArgsOf(e: ExportedRule): Core {
    Core(e.name, e.enabled, e.priority, e.mode, e.patches, e.host, e.httpMethod, e.path, e.params, e.reqBody,
         if e.conditions.Some? then e.conditions.value else [], if e.tags.Some? then e.tags.value else [],
         e.status, e.headers, e.delay)
  }

  function CollectionOf(e: ExportedCollection): Collection {
    Collection(e.name, e.enabled, e.priority, if e.tags.Some? then e.tags.value else [])
  }

  /** The row that a new rule becomes: live everywhere, whatever it was before. */
  function NewRule(lower: char -> char, core: Core, group: Option<Id>, body: Option<Id>): Rule {
    Rule(NormaliseCore(lower, core), group, body, All, {})
  }

  predicate Unused(id: Id, db: Db) {
    id !in db.collections && id !in db.rules && id !in db.bodies
  }

  ghost predicate BodiesGrow(a: Db, b: Db) {
    forall id :: id in a.bodies ==> id in b.bodies && b.bodies[id] == a.bodies[id]
  }

  /** The new row holds what the file says. */
  ghost predicate RuleIs(lower: char -> char, db: Db, r: Rule, e: ExportedRule, group: Option<Id>) {
    && r == NewRule(lower, ArgsOf(e), group, r.body)
    && if e.body.Some? && e.body.value != "" then
         r.body.Some? && r.body.value in db.bodies && db.bodies[r.body.value] == Body(e.mime, e.body.value)
       else r.body.None?
  }

  /** One new row, and it is `e`. */
  ghost predicate RuleAdded(lower: char -> char, was: map<Id, Rule>, now: Db, id: Id, e: ExportedRule, group: Option<Id>) {
    && id !in was && id in now.rules && now.rules == was[id := now.rules[id]]
    && RuleIs(lower, now, now.rules[id], e, group)
  }

  lemma {:induction false} LongerThanAll(used: set<Id>) returns (id: Id)
    ensures forall u :: u in used ==> |u.text| < |id.text|
  {
    if used == {} {
      id := Id("");
    } else {
      var u :| u in used;
      var other := LongerThanAll(used - {u});
      id := Id(other.text + u.text + "+");
      assert forall v :: v in used && v != u ==> v in used - {u};
    }
  }

  /** The answers to the first calls; the later ones succeed. */
  function AnswerTo(answers: seq<Reply>, k: nat): Reply {
    if k < |answers| then answers[k] else Done
  }

  predicate IsDone(answers: seq<Reply>, k: nat) {
    AnswerTo(answers, k).Done?
  }

  class Backend {
    const lower: char -> char
    const answers: seq<Reply>
    var calls: nat
    var collections: map<Id, Collection>
    var rules: map<Id, Rule>
    var bodies: map<Id, Body>

    function State(): Db
      reads this
    {
      Db(collections, rules, bodies)
    }

    constructor (lower: char -> char, answers: seq<Reply>, db: Db)
      ensures State() == db && calls == 0 && this.lower == lower && this.answers == answers
    {
      this.lower, this.answers := lower, answers;
      calls, collections, rules, bodies := 0, db.collections, db.rules, db.bodies;
    }

    /** A random identifier: any one that is not in use. */
    method FreshId() returns (id: Id)
      ensures Unused(id, State())
    {
      ghost var used := collections.Keys + rules.Keys + bodies.Keys;
      ghost var long := LongerThanAll(used);
      assert Unused(long, State());
      id :| Unused(id, State());
    }

    /** `landed` is the row that is there afterwards, whatever the caller is told. */
    method UpsertCollection(args: Collection) returns (saved: Option<Id>, ghost landed: Option<Id>)
      modifies this
      ensures calls == old(calls) + 1
      ensures saved.Some? <==> IsDone(answers, old(calls))
      ensures landed.Some? <==> !AnswerTo(answers, old(calls)).Refused?
      ensures saved.Some? ==> landed == saved
      ensures landed.None? ==> State() == old(State())
      ensures landed.Some? ==> landed.value !in old(collections)
      ensures landed.Some? ==>
                State() == old(State()).(collections := old(collections)[landed.value := NormaliseCollection(lower, args)])
    {
      var answer := AnswerTo(answers, calls);
      calls := calls + 1;
      saved, landed := None, None;
      if !answer.Refused? {
        var id := FreshId();
        collections := collections[id := NormaliseCollection(lower, args)];
        landed := Some(id);
        saved := if answer.Done? then Some(id) else None;
      }
    }

    method PutBody(base64: Option<string>, mime: Option<string>) returns (body: Option<Id>)
      modifies this`bodies
      ensures BodiesGrow(old(State()), State())
      ensures if base64.Some? && base64.value != "" then
                body.Some? && body.value in bodies && bodies[body.value] == Body(mime, base64.value)
              else body.None? && bodies == old(bodies)
    {
      body := None;
      if base64.Some? && base64.value != "" {
        var id := FreshId();
        bodies := bodies[id := Body(mime, base64.value)];
        body := Some(id);
      }
    }

    method UpsertRule(e: ExportedRule, group: Option<Id>) returns (saved: bool, ghost landed: Option<Id>)
      modifies this
      ensures calls == old(calls) + 1
      ensures saved <==> IsDone(answers, old(calls))
      ensures landed.Some? <==> !AnswerTo(answers, old(calls)).Refused?
      ensures collections == old(collections) && BodiesGrow(old(State()), State())
      ensures landed.None? ==> rules == old(rules)
      ensures landed.Some? ==> RuleAdded(lower, old(rules), State(), landed.value, e, group)
    {
      var answer := AnswerTo(answers, calls);
      calls := calls + 1;
      saved, landed := false, None;
      if answer.Refused? && !answer.bodyStored {
        return;
      }
      var body := PutBody(e.body, e.mime);
      if !answer.Refused? {
        var id := FreshId();
        rules := rules[id := NewRule(lower, ArgsOf(e), group, body)];
        landed := Some(id);
        saved := answer.Done?;
      }
    }
  }

  // ---- Exporting -------------------------------------------------------------------------

  /** `buildLibraryExport`: one body at a time. */
  method BuildLibraryExport(api: Backend, colls: seq<Id>, ruleIds: seq<Id>) returns (file: File)
    requires (forall id :: id in colls ==> id in api.collections) && forall id :: id in ruleIds ==> id in api.rules
    ensures file == Library(api.State(), colls, ruleIds)
  {
    var exported: seq<ExportedRule> := [];
    for i := 0 to |ruleIds|
      invariant |exported| == i
      invariant forall k :: 0 <= k < i ==> exported[k] == ExportRule(api.State(), api.rules[ruleIds[k]])
    {
      exported := exported + [ExportRule(api.State(), api.rules[ruleIds[i]])];
    }
    var rows := api.collections;
    file := File(seq(|colls|, i requires 0 <= i < |colls| && colls[i] in rows => ExportCollection(colls[i], rows[colls[i]])), exported);
    assert file.collections == Library(api.State(), colls, ruleIds).collections;
    assert file.rules == Library(api.State(), colls, ruleIds).rules;
  }

  // ---- Importing -------------------------------------------------------------------------

  ghost function Elems(ids: seq<Id>): set<Id> {
    set id | id in ids
  }

  /** `now` is `before` and one new entry per id. */
  ghost predicate Adds<V(!new)>(before: map<Id, V>, now: map<Id, V>, ids: seq<Id>) {
    && NoDup(ids) && Elems(ids) !! before.Keys
    && now.Keys == before.Keys + Elems(ids)
    && forall id :: id in before ==> now[id] == before[id]
  }

  ghost predicate CollectionAt(lower: char -> char, now: map<Id, Collection>, es: seq<ExportedCollection>, ids: seq<Id>, i: nat)
    requires i < |ids| <= |es|
  {
    ids[i] in now && now[ids[i]] == NormaliseCollection(lower, CollectionOf(es[i]))
  }

  /** `ids` are the rows that came of the first entries. */
  ghost predicate CollectionsLanded(lower: char -> char, before: map<Id, Collection>, now: map<Id, Collection>,
                                    es: seq<ExportedCollection>, ids: seq<Id>) {
    && Adds(before, now, ids) && |ids| <= |es|
    && forall i {:trigger CollectionAt(lower, now, es, ids, i)} :: 0 <= i < |ids| ==> CollectionAt(lower, now, es, ids, i)
  }

  lemma CollectionLands(lower: char -> char, before: map<Id, Collection>, was: map<Id, Collection>,
                        es: seq<ExportedCollection>, ids: seq<Id>, id: Id)
    requires CollectionsLanded(lower, before, was, es, ids) && |ids| < |es| && id !in was
    ensures CollectionsLanded(lower, before, was[id := NormaliseCollection(lower, CollectionOf(es[|ids|]))], es, ids + [id])
  {
    var row := NormaliseCollection(lower, CollectionOf(es[|ids|]));
    forall i {:trigger CollectionAt(lower, was[id := row], es, ids + [id], i)} | 0 <= i <= |ids|
      ensures CollectionAt(lower, was[id := row], es, ids + [id], i)
    {
      if i < |ids| {
        assert CollectionAt(lower, was, es, ids, i);
      }
    }
  }

  /** `refToId` after the first `n` collections: of two entries with one ref the later one wins. */
  function RefsTo(es: seq<ExportedCollection>, ids: seq<Id>, n: nat): map<Id, Id>
    requires n <= |es| && n <= |ids|
  {
    if n == 0 then map[] else RefsTo(es, ids, n - 1)[es[n - 1].ref := ids[n - 1]]
  }

  function RefMap(es: seq<ExportedCollection>, ids: seq<Id>): map<Id, Id>
    requires |es| == |ids|
  {
    RefsTo(es, ids, |es|)
  }

  function GroupFor(e: ExportedRule, refToId: map<Id, Id>): Option<Id> {
    if e.ref.Some? && e.ref.value in refToId then Some(refToId[e.ref.value]) else None
  }

  ghost predicate RuleAt(lower: char -> char, now: Db, es: seq<ExportedRule>, refToId: map<Id, Id>, ids: seq<Id>, i: nat)
    requires i < |ids| <= |es|
  {
    ids[i] in now.rules && RuleIs(lower, now, now.rules[ids[i]], es[i], GroupFor(es[i], refToId))
  }

  ghost predicate RulesLanded(lower: char -> char, before: map<Id, Rule>, now: Db, es: seq<ExportedRule>,
                              refToId: map<Id, Id>, ids: seq<Id>) {
    && Adds(before, now.rules, ids) && |ids| <= |es|
    && forall i {:trigger RuleAt(lower, now, es, refToId, ids, i)} :: 0 <= i < |ids| ==> RuleAt(lower, now, es, refToId, ids, i)
  }

  lemma RuleLands(lower: char -> char, before: map<Id, Rule>, was: Db, now: Db, es: seq<ExportedRule>,
                  refToId: map<Id, Id>, ids: seq<Id>, id: Id)
    requires RulesLanded(lower, before, was, es, refToId, ids) && |ids| < |es| && BodiesGrow(was, now)
    requires RuleAdded(lower, was.rules, now, id, es[|ids|], GroupFor(es[|ids|], refToId))
    ensures RulesLanded(lower, before, now, es, refToId, ids + [id])
  {
    forall i {:trigger RuleAt(lower, now, es, refToId, ids + [id], i)} | 0 <= i <= |ids|
      ensures RuleAt(lower, now, es, refToId, ids + [id], i)
    {
      if i < |ids| {
        assert RuleAt(lower, was, es, refToId, ids, i);
      }
    }
  }

  lemma RulesStay(lower: char -> char, before: map<Id, Rule>, was: Db, now: Db, es: seq<ExportedRule>,
                  refToId: map<Id, Id>, ids: seq<Id>)
    requires RulesLanded(lower, before, was, es, refToId, ids) && BodiesGrow(was, now) && now.rules == was.rules
    ensures RulesLanded(lower, before, now, es, refToId, ids)
  {
    forall i {:trigger RuleAt(lower, now, es, refToId, ids, i)} | 0 <= i < |ids|
      ensures RuleAt(lower, now, es, refToId, ids, i)
    {
      assert RuleAt(lower, was, es, refToId, ids, i);
    }
  }

  /** The library after an import that got as far as `cids` and `rids`. Every older row is as it
      was; nothing but copies of entries of the file, in order, came along. */
  ghost predicate Landed(lower: char -> char, before: Db, now: Db, file: File, cids: seq<Id>, rids: seq<Id>) {
    && CollectionsLanded(lower, before.collections, now.collections, file.collections, cids)
    && Adds(before.rules, now.rules, rids) && BodiesGrow(before, now)
    && (rids != [] ==> |cids| == |file.collections|)
    && (|cids| == |file.collections| ==>
          RulesLanded(lower, before.rules, now, file.rules, RefMap(file.collections, cids), rids))
  }

  ghost predicate Complete(file: File, cids: seq<Id>, rids: seq<Id>) {
    |cids| == |file.collections| && |rids| == |file.rules|
  }

  ghost predicate AllDone(answers: seq<Reply>, from: nat, n: nat) {
    forall k :: from <= k < from + n ==> IsDone(answers, k)
  }

  /** The first loop after `n` calls that went well. */
  ghost predicate Midway(lower: char -> char, before: map<Id, Collection>, now: map<Id, Collection>, es: seq<ExportedCollection>,
                         ids: seq<Id>, refToId: map<Id, Id>, n: nat) {
    && CollectionsLanded(lower, before, now, es, ids)
    && |ids| == n && refToId == RefsTo(es, ids, n)
  }

  lemma MidwayStep(lower: char -> char, before: map<Id, Collection>, was: map<Id, Collection>, es: seq<ExportedCollection>,
                   ids: seq<Id>, refToId: map<Id, Id>, n: nat, id: Id)
    requires Midway(lower, before, was, es, ids, refToId, n) && n < |es| && id !in was
    ensures Midway(lower, before, was[id := NormaliseCollection(lower, CollectionOf(es[n]))], es, ids + [id], refToId[es[n].ref := id], n + 1)
  {
    CollectionLands(lower, before, was, es, ids, id);
    RefsOneMore(es, ids, id);
  }

  /** One round: with a good answer the rows and the map go on, otherwise at most one row more is
      there. */
  method ImportCollection(api: Backend, es: seq<ExportedCollection>, refToId: map<Id, Id>, i: nat,
                          ghost before: map<Id, Collection>, ghost ids: seq<Id>)
    returns (ok: bool, refs: map<Id, Id>, ghost more: seq<Id>)
    requires i < |es| && Midway(api.lower, before, api.collections, es, ids, refToId, i)
    modifies api
    ensures api.rules == old(api.rules) && api.bodies == old(api.bodies) && api.calls == old(api.calls) + 1
    ensures ok <==> IsDone(api.answers, old(api.calls))
    ensures ok ==> Midway(api.lower, before, api.collections, es, more, refs, i + 1)
    ensures CollectionsLanded(api.lower, before, api.collections, es, more)
  {
    ghost var was := api.collections;
    var saved;
    ghost var landed;
    saved, landed := api.UpsertCollection(CollectionOf(es[i]));
    ok, refs, more := saved.Some?, refToId, ids;
    if landed.Some? {
      MidwayStep(api.lower, before, was, es, ids, refToId, i, landed.value);
      more := ids + [landed.value];
    }
    if saved.Some? {
      refs := refToId[es[i].ref := saved.value];
    }
  }

  method ImportCollections(api: Backend, es: seq<ExportedCollection>)
    returns (ok: bool, refToId: map<Id, Id>, ghost ids: seq<Id>)
    modifies api
    ensures api.rules == old(api.rules) && api.bodies == old(api.bodies)
    ensures CollectionsLanded(api.lower, old(api.collections), api.collections, es, ids)
    ensures ok <==> AllDone(api.answers, old(api.calls), |es|)
    ensures ok ==> |ids| == |es| && refToId == RefMap(es, ids) && api.calls == old(api.calls) + |es|
  {
    refToId, ids := map[], [];
    for i := 0 to |es|
      invariant api.rules == old(api.rules) && api.bodies == old(api.bodies) && api.calls == old(api.calls) + i
      invariant Midway(api.lower, old(api.collections), api.collections, es, ids, refToId, i)
      invariant AllDone(api.answers, old(api.calls), i)
    {
      ok, refToId, ids := ImportCollection(api, es, refToId, i, old(api.collections), ids);
      if !ok {
        return;
      }
    }
    ok := true;
  }

  lemma {:induction false} RefsOfLonger(es: seq<ExportedCollection>, ids: seq<Id>, id: Id, n: nat)
    requires n <= |es| && n <= |ids|
    ensures RefsTo(es, ids + [id], n) == RefsTo(es, ids, n)
  {
    if n > 0 {
      RefsOfLonger(es, ids, id, n - 1);
    }
  }

  lemma RefsOneMore(es: seq<ExportedCollection>, ids: seq<Id>, id: Id)
    requires |ids| < |es|
    ensures RefsTo(es, ids + [id], |ids| + 1) == RefsTo(es, ids, |ids|)[es[|ids|].ref := id]
  {
    RefsOfLonger(es, ids, id, |ids|);
  }

  /** One round of the second loop. */
  method ImportRule(api: Backend, es: seq<ExportedRule>, i: nat, refToId: map<Id, Id>,
                    ghost before: map<Id, Rule>, ghost ids: seq<Id>)
    returns (saved: bool, ghost more: seq<Id>)
    requires i == |ids| < |es|
    requires RulesLanded(api.lower, before, api.State(), es, refToId, ids)
    modifies api
    ensures api.collections == old(api.collections) && api.calls == old(api.calls) + 1
    ensures BodiesGrow(old(api.State()), api.State())
    ensures RulesLanded(api.lower, before, api.State(), es, refToId, more)
    ensures saved <==> IsDone(api.answers, old(api.calls))
    ensures saved ==> |more| == |ids| + 1
  {
    ghost var was := api.State();
    ghost var landed;
    saved, landed := api.UpsertRule(es[i], GroupFor(es[i], refToId));
    more := ids;
    if landed.Some? {
      RuleLands(api.lower, before, was, api.State(), es, refToId, ids, landed.value);
      more := ids + [landed.value];
    } else {
      RulesStay(api.lower, before, was, api.State(), es, refToId, ids);
    }
  }

  method ImportRules(api: Backend, es: seq<ExportedRule>, refToId: map<Id, Id>) returns (ok: bool, ghost ids: seq<Id>)
    modifies api
    ensures api.collections == old(api.collections) && BodiesGrow(old(api.State()), api.State())
    ensures RulesLanded(api.lower, old(api.rules), api.State(), es, refToId, ids)
    ensures ok <==> AllDone(api.answers, old(api.calls), |es|)
    ensures ok ==> |ids| == |es|
  {
    ids := [];
    for i := 0 to |es|
      invariant api.collections == old(api.collections) && BodiesGrow(old(api.State()), api.State())
      invariant RulesLanded(api.lower, old(api.rules), api.State(), es, refToId, ids)
      invariant |ids| == i && api.calls == old(api.calls) + i
      invariant AllDone(api.answers, old(api.calls), i)
    {
      var saved;
      saved, ids := ImportRule(api, es, i, refToId, old(api.rules), ids);
      if !saved {
        return false, ids;
      }
    }
    ok := true;
  }

  /** `applyImport`. The first failing call ends it; what has landed by then stays. */
  method ApplyImport(api: Backend, file: File) returns (summary: Option<(nat, nat)>, ghost cids: seq<Id>, ghost rids: seq<Id>)
    modifies api
    ensures Landed(api.lower, old(api.State()), api.State(), file, cids, rids)
    ensures summary.Some? <==> AllDone(api.answers, old(api.calls), |file.collections| + |file.rules|)
    ensures summary.Some? ==> Complete(file, cids, rids) && summary.value == (|cids|, |rids|)
  {
    rids := [];
    var ok, refToId;
    ok, refToId, cids := ImportCollections(api, file.collections);
    if !ok {
      return None, cids, rids;
    }
    ok, rids := ImportRules(api, file.rules, refToId);
    summary := if ok then Some((|file.collections|, |file.rules|)) else None;
  }

  /** An import leaves the store's rows in the form the store gives them. */
  lemma LandedNormal(lower: char -> char, before: Db, now: Db, file: File, cids: seq<Id>, rids: seq<Id>)
    requires Normal(lower, before) && Landed(lower, before, now, file, cids, rids)
    ensures Normal(lower, now)
  {
    forall id | id in now.collections
      ensures TagsNormal(lower, now.collections[id].tags)
    {
      if id !in before.collections {
        var i :| 0 <= i < |cids| && cids[i] == id;
        assert CollectionAt(lower, now.collections, file.collections, cids, i);
        NormaliseTagsIsNormal(lower, CollectionOf(file.collections[i]).tags);
      }
    }
    forall id | id in now.rules
      ensures CoreNormal(lower, now.rules[id].core)
    {
      if id !in before.rules {
        var i :| 0 <= i < |rids| && rids[i] == id;
        assert RuleAt(lower, now, file.rules, RefMap(file.collections, cids), rids, i);
        NormaliseCoreTwice(lower, ArgsOf(file.rules[i]));
      }
    }
  }

  /** What an import writes is what the file says, field by field, whoever wrote the file: fields that
      it lacks are empty, and a mode other than `patch` is `stub`. */
  lemma ImportSays(lower: char -> char, before: Db, now: Db, file: File, cids: seq<Id>, rids: seq<Id>, j: nat)
    requires Landed(lower, before, now, file, cids, rids) && j < |rids|
    ensures |rids| <= |file.rules| && rids[j] in now.rules
    ensures var e, row := file.rules[j], now.rules[rids[j]]; var c := row.core;
            && c.name == e.name && c.enabled == e.enabled && c.priority == e.priority
            && c.host == e.host && c.httpMethod == e.httpMethod && c.path == e.path && c.params == e.params
            && c.status == e.status && c.headers == e.headers && c.delay == e.delay && c.patches == e.patches
            && (c.mode == "patch" <==> e.mode == "patch") && (c.mode == "stub" <==> e.mode != "patch")
            && c.conditions == (if e.conditions.Some? then e.conditions.value else [])
            && (e.tags.None? ==> c.tags == []) && (e.tags.Some? ==> c.tags == NormaliseTags(lower, e.tags.value))
            && (c.reqBody.Some? <==> e.reqBody.Some? && Trim(e.reqBody.value) != "") && (c.reqBody.Some? ==> c.reqBody.value == Trim(e.reqBody.value))
            && ContentOf(now, row) == (if e.body.Some? && e.body.value != "" then e.body else None)
            && (ContentOf(now, row).Some? ==> MimeOf(now, row) == e.mime)
  {
    assert RuleAt(lower, now, file.rules, RefMap(file.collections, cids), rids, j);
    assert NormaliseTags(lower, []) == [];
  }

  lemma ImportSaysOfCollections(lower: char -> char, before: Db, now: Db, file: File, cids: seq<Id>, rids: seq<Id>, i: nat)
    requires Landed(lower, before, now, file, cids, rids) && i < |cids|
    ensures |cids| <= |file.collections| && cids[i] in now.collections
    ensures var e, c := file.collections[i], now.collections[cids[i]];
            && c.name == e.name && c.enabled == e.enabled && c.priority == e.priority
            && (e.tags.None? ==> c.tags == []) && (e.tags.Some? ==> c.tags == NormaliseTags(lower, e.tags.value))
  {
    assert CollectionAt(lower, now.collections, file.collections, cids, i);
    assert NormaliseTags(lower, []) == [];
  }

  // ---- A copy of the library -------------------------------------------------------------

  lemma {:induction false} RefsFind(es: seq<ExportedCollection>, ids: seq<Id>, i: nat, n: nat)
    requires i < n <= |es| && n <= |ids|
    requires forall k, l :: 0 <= k < l < |es| ==> es[k].ref != es[l].ref
    ensures es[i].ref in RefsTo(es, ids, n) && RefsTo(es, ids, n)[es[i].ref] == ids[i]
  {
    if i < n - 1 {
      RefsFind(es, ids, i, n - 1);
    }
  }

  lemma {:induction false} RefsKeys(es: seq<ExportedCollection>, ids: seq<Id>, ref: Id, n: nat)
    requires n <= |es| && n <= |ids| && ref in RefsTo(es, ids, n)
    ensures exists i :: 0 <= i < n && es[i].ref == ref
  {
    if es[n - 1].ref != ref {
      RefsKeys(es, ids, ref, n - 1);
    }
  }

  /** Equal but for identity: every field that a file carries, and the body. The copy is live
      everywhere. The body's type is lost where there is no body to carry it. */
  ghost predicate SameRule(before: Db, r: Rule, now: Db, copy: Rule) {
    && copy.core == r.core
    && ContentOf(now, copy) == ContentOf(before, r)
    && MimeOf(now, copy) == (if ContentOf(before, r).Some? then MimeOf(before, r) else None)
    && copy.scope == All && copy.devices == {}
  }

  ghost predicate GroupedAlike(colls: seq<Id>, cids: seq<Id>, g: Option<Id>, copied: Option<Id>)
    requires |colls| == |cids|
  {
    if g.Some? && g.value in colls then exists i :: 0 <= i < |colls| && colls[i] == g.value && copied == Some(cids[i])
    else copied == None
  }

  lemma GroupCopied(db: Db, colls: seq<Id>, ruleIds: seq<Id>, cids: seq<Id>, j: nat)
    requires (forall id :: id in colls ==> id in db.collections) && (forall id :: id in ruleIds ==> id in db.rules)
    requires NoDup(colls) && |cids| == |colls| && j < |ruleIds|
    ensures var file := Library(db, colls, ruleIds);
            GroupedAlike(colls, cids, db.rules[ruleIds[j]].group, GroupFor(file.rules[j], RefMap(file.collections, cids)))
  {
    var file := Library(db, colls, ruleIds);
    var g := db.rules[ruleIds[j]].group;
    assert forall i :: 0 <= i < |colls| ==> file.collections[i].ref == colls[i];
    if g.Some? && g.value in colls {
      var i: nat :| i < |colls| && colls[i] == g.value;
      RefsFind(file.collections, cids, i, |colls|);
    } else if g.Some? && g.value in RefMap(file.collections, cids) {
      RefsKeys(file.collections, cids, g.value, |colls|);
    }
  }

  lemma RuleCopied(lower: char -> char, before: Db, r: Rule, now: Db, copy: Rule, group: Option<Id>)
    requires CoreNormal(lower, r.core) && RuleIs(lower, now, copy, ExportRule(before, r), group)
    ensures SameRule(before, r, now, copy) && copy.group == group
  {
    NormaliseCoreTwice(lower, r.core);
    assert ArgsOf(ExportRule(before, r)) == r.core;
  }

  /** Exporting a library and importing the file, into this store or another one, adds a copy: the
      same collections and rules in the same order under new ids, each rule in the copy of its own
      collection, or ungrouped if that is not part of the file. */
  lemma ImportedCopy(lower: char -> char, source: Db, colls: seq<Id>, ruleIds: seq<Id>, before: Db, now: Db, cids: seq<Id>, rids: seq<Id>)
    requires Normal(lower, source) && NoDup(colls)
    requires (forall id :: id in colls ==> id in source.collections) && (forall id :: id in ruleIds ==> id in source.rules)
    requires Landed(lower, before, now, Library(source, colls, ruleIds), cids, rids)
    requires Complete(Library(source, colls, ruleIds), cids, rids)
    ensures |cids| == |colls| && |rids| == |ruleIds|
    ensures forall i :: 0 <= i < |colls| ==> cids[i] in now.collections && now.collections[cids[i]] == source.collections[colls[i]]
    ensures forall j :: 0 <= j < |ruleIds| ==>
              && rids[j] in now.rules
              && SameRule(source, source.rules[ruleIds[j]], now, now.rules[rids[j]])
              && GroupedAlike(colls, cids, source.rules[ruleIds[j]].group, now.rules[rids[j]].group)
  {
    var file := Library(source, colls, ruleIds);
    forall i | 0 <= i < |colls|
      ensures cids[i] in now.collections && now.collections[cids[i]] == source.collections[colls[i]]
    {
      assert colls[i] in colls;
      NormalTagsStay(lower, source.collections[colls[i]].tags);
      assert CollectionAt(lower, now.collections, file.collections, cids, i);
      assert CollectionOf(file.collections[i]) == source.collections[colls[i]];
    }
    forall j | 0 <= j < |ruleIds|
      ensures rids[j] in now.rules
      ensures SameRule(source, source.rules[ruleIds[j]], now, now.rules[rids[j]])
      ensures GroupedAlike(colls, cids, source.rules[ruleIds[j]].group, now.rules[rids[j]].group)
    {
      assert ruleIds[j] in ruleIds;
      GroupCopied(source, colls, ruleIds, cids, j);
      assert RuleAt(lower, now, file.rules, RefMap(file.collections, cids), rids, j);
      RuleCopied(lower, source, source.rules[ruleIds[j]], now, now.rules[rids[j]], GroupFor(file.rules[j], RefMap(file.collections, cids)));
    }
  }

  /** The type of the body survives exactly when the body is not empty, or there was no type. */
  lemma MimeKeptExactly(before: Db, r: Rule, now: Db, copy: Rule)
    requires SameRule(before, r, now, copy)
    ensures MimeOf(now, copy) == MimeOf(before, r) <==> MimeOf(before, r).None? || ContentOf(before, r).Some?
  {
  }

  /** An empty body with a type is such a rule. */
  lemma MimeLost(lower: char -> char, core: Core)
    requires CoreNormal(lower, core)
    ensures var before := Db(map[], map[Id("r") := Rule(core, None, Some(Id("b")), All, {})], map[Id("b") := Body(Some("text/plain"), "")]);
            var now := Db(map[], map[Id("r") := before.rules[Id("r")], Id("s") := NewRule(lower, core, None, None)], before.bodies);
            && Landed(lower, before, now, Library(before, [], [Id("r")]), [], [Id("s")])
            && MimeOf(before, before.rules[Id("r")]) == Some("text/plain")
            && MimeOf(now, now.rules[Id("s")]) == None
  {
    var before := Db(map[], map[Id("r") := Rule(core, None, Some(Id("b")), All, {})], map[Id("b") := Body(Some("text/plain"), "")]);
    assert ArgsOf(ExportRule(before, before.rules[Id("r")])) == core;
  }

  // ---- Order of evaluation ---------------------------------------------------------------

  /** Rules are tried by the priority of their collection, 0 for none, then by their own. */
  function Rank(db: Db, r: Rule): (int, int) {
    (if r.group.Some? && r.group.value in db.collections then db.collections[r.group.value].priority else 0, r.core.priority)
  }

  predicate Precedes(a: (int, int), b: (int, int)) {
    a.0 < b.0 || (a.0 == b.0 && a.1 < b.1)
  }

  /** The store's order: by rank, then by the second in which the row was made. Neither of two rows
      comes before the other if both are equal. */
  predicate TriedBefore(db: Db, made: map<Id, int>, a: Id, b: Id)
    requires a in db.rules && b in db.rules && a in made && b in made
  {
    var ra, rb := Rank(db, db.rules[a]), Rank(db, db.rules[b]);
    Precedes(ra, rb) || (ra == rb && made[a] < made[b])
  }

  /** The copies of a whole library have the ranks of the originals. */
  lemma RanksKept(lower: char -> char, source: Db, colls: seq<Id>, ruleIds: seq<Id>, before: Db, now: Db, cids: seq<Id>, rids: seq<Id>)
    requires Normal(lower, source) && NoDup(colls)
    requires (forall id :: id in colls <==> id in source.collections) && (forall id :: id in ruleIds ==> id in source.rules)
    requires Landed(lower, before, now, Library(source, colls, ruleIds), cids, rids)
    requires Complete(Library(source, colls, ruleIds), cids, rids)
    ensures |rids| == |ruleIds|
    ensures forall j :: 0 <= j < |ruleIds| ==> rids[j] in now.rules && Rank(now, now.rules[rids[j]]) == Rank(source, source.rules[ruleIds[j]])
  {
    ImportedCopy(lower, source, colls, ruleIds, before, now, cids, rids);
  }

  /** By their own priority and then by age, as the store lists rules. */
  ghost predicate Listed(db: Db, ids: seq<Id>, made: map<Id, int>) {
    && (forall id :: id in ids ==> id in db.rules && id in made)
    && forall i, j :: 0 <= i < j < |ids| ==>
         !Precedes((db.rules[ids[j]].core.priority, made[ids[j]]), (db.rules[ids[i]].core.priority, made[ids[i]]))
  }

  /** Each row is made no earlier than those in front of it. */
  ghost predicate MadeInOrder(ids: seq<Id>, made: map<Id, int>) {
    && (forall id :: id in ids ==> id in made)
    && forall i, j :: 0 <= i < j < |ids| ==> made[ids[i]] <= made[ids[j]]
  }

  lemma PairKept(source: Db, now: Db, ruleIds: seq<Id>, rids: seq<Id>, made: map<Id, int>, copied: map<Id, int>, i: nat, j: nat)
    requires i < |ruleIds| == |rids| && j < |rids| && Listed(source, ruleIds, made) && MadeInOrder(rids, copied)
    requires rids[i] in now.rules && rids[j] in now.rules
    requires Rank(now, now.rules[rids[i]]) == Rank(source, source.rules[ruleIds[i]])
    requires Rank(now, now.rules[rids[j]]) == Rank(source, source.rules[ruleIds[j]])
    requires TriedBefore(source, made, ruleIds[i], ruleIds[j])
    ensures !TriedBefore(now, copied, rids[j], rids[i])
  {
    if Rank(source, source.rules[ruleIds[i]]) == Rank(source, source.rules[ruleIds[j]]) {
      assert i < j;
      assert copied[rids[i]] <= copied[rids[j]];
    }
  }

  /** So a whole library is tried in its old order: no two copies are tried the other way round than
      their originals, the originals being listed as the store lists them and the copies made in
      the order of the file. */
  lemma TriedOrderKept(lower: char -> char, source: Db, colls: seq<Id>, ruleIds: seq<Id>, before: Db, now: Db,
                       cids: seq<Id>, rids: seq<Id>, made: map<Id, int>, copied: map<Id, int>)
    requires Normal(lower, source) && NoDup(colls)
    requires (forall id :: id in colls <==> id in source.collections) && (forall id :: id in ruleIds ==> id in source.rules)
    requires Landed(lower, before, now, Library(source, colls, ruleIds), cids, rids)
    requires Complete(Library(source, colls, ruleIds), cids, rids)
    requires Listed(source, ruleIds, made) && MadeInOrder(rids, copied)
    ensures |rids| == |ruleIds| && forall j :: 0 <= j < |rids| ==> rids[j] in now.rules
    ensures forall i, j :: 0 <= i < |ruleIds| && 0 <= j < |ruleIds| && TriedBefore(source, made, ruleIds[i], ruleIds[j]) ==>
              !TriedBefore(now, copied, rids[j], rids[i])
  {
    RanksKept(lower, source, colls, ruleIds, before, now, cids, rids);
    forall i, j | 0 <= i < |ruleIds| && 0 <= j < |ruleIds| && TriedBefore(source, made, ruleIds[i], ruleIds[j])
      ensures !TriedBefore(now, copied, rids[j], rids[i])
    {
      PairKept(source, now, ruleIds, rids, made, copied, i, j);
    }
  }
}
