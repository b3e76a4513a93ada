/** Hand-written rule files (src/lib/rules-portfile.ts, `readableDumpToPortFile`): rules nested in
    their collections, with positions for priorities. */
module ReadableDump {
  import opened Text
  import opened Decimal
  import opened PortFile

  /** Parsed JSON; numbers are whole. */
  datatype Json = Null | Bool(b: bool) | Num(n: int) | Str(s: string) | Arr(items: seq<Json>) | Obj(fields: map<string, Json>)

  /** Library code: `JSON.stringify` and the UTF-8 safe base64. */
  datatype Lib = Lib(stringify: Json -> string, base64: string -> string)

  /** A property; none on anything but an object. */
  function Get(j: Option<Json>, key: string): Option<Json> {
    if j.Some? && j.value.Obj? && key in j.value.fields then Some(j.value.fields[key]) else None
  }

  /** `typeof v === "object"`, and not null. */
  predicate IsObject(j: Option<Json>) {
    j.Some? && (j.value.Obj? || j.value.Arr?)
  }

  function Items(j: Option<Json>): seq<Json> {
    if j.Some? && j.value.Arr? then j.value.items else []
  }

  function NonEmpty(j: Option<Json>): Option<string> {
    if j.Some? && j.value.Str? && j.value.s != "" then Some(j.value.s) else None
  }

  function AsJsonText(lib: Lib, j: Json): string {
    if j.Str? then j.s else lib.stringify(j)
  }

  function Payload(lib: Lib, items: seq<Json>): seq<string> {
    seq(|items|, i requires 0 <= i < |items| => lib.stringify(items[i]))
  }

  function TagsIn(items: seq<Json>): seq<string> {
    if items == [] then [] else (if items[0].Str? then [items[0].s] else []) + TagsIn(items[1..])
  }

  predicate IsReadable(r: Json) {
    IsObject(Get(Some(r), "match")) || IsObject(Get(Some(r), "response"))
  }

  function BodyIn(lib: Lib, response: Option<Json>): Option<string> {
    var encoded, body := NonEmpty(Get(response, "body_base64")), Get(response, "body");
    if encoded.Some? then encoded
    else if body.Some? && !body.value.Null? then Some(lib.base64(AsJsonText(lib, body.value)))
    else None
  }

  /** `readableRuleToExported` */
  function RuleOf(lib: Lib, rule: Json, ref: Option<Id>, priority: int): ExportedRule {
    var r := Some(rule);
    var m, resp := Get(r, "match"), Get(r, "response");
    var name, reqBody, status, delay := Get(r, "name"), Get(m, "req_body"), Get(resp, "status"), Get(resp, "delay_ms");
    ExportedRule(
      ref, if name.Some? && name.value.Str? then name.value.s else "", Get(r, "enabled") == Some(Bool(true)), priority,
      if Get(r, "mode") == Some(Str("patch")) then "patch" else "stub", Payload(lib, Items(Get(r, "patches"))),
      NonEmpty(Get(m, "host")), NonEmpty(Get(m, "method")), NonEmpty(Get(m, "path")), Payload(lib, Items(Get(m, "params"))),
      if reqBody.Some? && !reqBody.value.Null? then Some(AsJsonText(lib, reqBody.value)) else None,
      Some(Payload(lib, Items(Get(m, "conditions")))), Some(TagsIn(Items(Get(r, "tags")))),
      if status.Some? && status.value.Num? then status.value.n else 200, Payload(lib, Items(Get(resp, "headers"))),
      NonEmpty(Get(resp, "mime")), BodyIn(lib, resp), if delay.Some? && delay.value.Num? then delay.value.n else 0)
  }

  /** Positional references: `c0`, `c1`, … */
  function Slot(ci: nat): Id {
    Id("c" + Dec(ci))
  }

  function CollectionAtSlot(c: Json, ci: nat): ExportedCollection {
    var name := Get(Some(c), "name");
    ExportedCollection(Slot(ci), if name.Some? && name.value.Str? then name.value.s else "Collection " + Dec(ci + 1),
                       Get(Some(c), "enabled") == Some(Bool(true)), ci, Some(TagsIn(Items(Get(Some(c), "tags")))))
  }

  function RulesIn(c: Json): seq<Json> {
    Items(Get(Some(c), "rules"))
  }

  // ---- What a dump holds, in the order it is written ---------------------------------------

  /** A rule's place in the document: in a collection, or at the top level. */
  datatype Place = In(ci: nat, ri: nat) | Top(ri: nat)

  datatype Dump = Dump(collections: seq<Json>, rules: seq<Json>)

  function DumpOf(raw: Json): Dump {
    Dump(Items(Get(Some(raw), "collections")), Items(Get(Some(raw), "rules")))
  }

  function PlacesIn(ci: nat, n: nat): seq<Place> {
    seq(n, ri requires 0 <= ri < n => In(ci, ri))
  }

  function GroupPlaces(d: Dump, n: nat): seq<Place>
    requires n <= |d.collections|
  {
    if n == 0 then []
    else GroupPlaces(d, n - 1)
         + if IsObject(Some(d.collections[n - 1])) then PlacesIn(n - 1, |RulesIn(d.collections[n - 1])|) else []
  }

  function TopPlaces(d: Dump, n: nat): seq<Place>
    requires n <= |d.rules|
  {
    if n == 0 then [] else TopPlaces(d, n - 1) + if IsReadable(d.rules[n - 1]) then [Top(n - 1)] else []
  }

  function Places(d: Dump): seq<Place> {
    GroupPlaces(d, |d.collections|) + TopPlaces(d, |d.rules|)
  }

  function Entries(d: Dump, n: nat): seq<ExportedCollection>
    requires n <= |d.collections|
  {
    if n == 0 then []
    else Entries(d, n - 1) + if IsObject(Some(d.collections[n - 1])) then [CollectionAtSlot(d.collections[n - 1], n - 1)] else []
  }

  predicate HasPlace(d: Dump, p: Place) {
    match p
    case In(ci, ri) => ci < |d.collections| && IsObject(Some(d.collections[ci])) && ri < |RulesIn(d.collections[ci])|
    case Top(ri) => ri < |d.rules| && IsReadable(d.rules[ri])
  }

  function JsonAt(d: Dump, p: Place): Json
    requires HasPlace(d, p)
  {
    match p
    case In(ci, ri) => RulesIn(d.collections[ci])[ri]
    case Top(ri) => d.rules[ri]
  }

  /** What the rule at a place becomes: its priority is its position. */
  function RuleAtPlace(lib: Lib, d: Dump, p: Place): ExportedRule
    requires HasPlace(d, p)
  {
    RuleOf(lib, JsonAt(d, p), if p.In? then Some(Slot(p.ci)) else None, p.ri)
  }

  ghost predicate RuleFor(lib: Lib, d: Dump, places: seq<Place>, rules: seq<ExportedRule>, i: nat)
    requires i < |places| == |rules|
  {
    HasPlace(d, places[i]) && rules[i] == RuleAtPlace(lib, d, places[i])
  }

  ghost predicate RulesAt(lib: Lib, d: Dump, places: seq<Place>, rules: seq<ExportedRule>) {
    && |rules| == |places|
    && forall i {:trigger RuleFor(lib, d, places, rules, i)} :: 0 <= i < |places| ==> RuleFor(lib, d, places, rules, i)
  }

  /** A null among the rules of a collection throws; at the top level it is passed over. */
  ghost predicate Chokes(d: Dump) {
    exists ci :: 0 <= ci < |d.collections| && ChokesOn(d.collections[ci])
  }

  ghost predicate ChokesOn(c: Json) {
    IsObject(Some(c)) && exists ri :: 0 <= ri < |RulesIn(c)| && RulesIn(c)[ri].Null?
  }

  datatype Outcome = Ok(file: File) | NotAnObject | NoRules | Throws

  ghost predicate IsResult(lib: Lib, raw: Json, r: Outcome) {
    var d := DumpOf(raw);
    match r
    case NotAnObject => !IsObject(Some(raw))
    case Throws => IsObject(Some(raw)) && Chokes(d)
    case NoRules => IsObject(Some(raw)) && !Chokes(d) && Places(d) == []
    case Ok(file) =>
      && IsObject(Some(raw)) && !Chokes(d) && Places(d) != []
      && file.collections == Entries(d, |d.collections|) && RulesAt(lib, d, Places(d), file.rules)
  }

  lemma RulesAtAppend(lib: Lib, d: Dump, ps: seq<Place>, rs: seq<ExportedRule>, qs: seq<Place>, ts: seq<ExportedRule>)
    requires RulesAt(lib, d, ps, rs) && RulesAt(lib, d, qs, ts)
    ensures RulesAt(lib, d, ps + qs, rs + ts)
  {
    forall i {:trigger RuleFor(lib, d, ps + qs, rs + ts, i)} | 0 <= i < |ps + qs|
      ensures RuleFor(lib, d, ps + qs, rs + ts, i)
    {
      if i < |ps| {
        assert RuleFor(lib, d, ps, rs, i);
      } else {
        assert RuleFor(lib, d, qs, ts, i - |ps|);
      }
    }
  }

  lemma OneMoreRule(lib: Lib, d: Dump, ci: nat, ri: nat, rules: seq<ExportedRule>)
    requires RulesAt(lib, d, PlacesIn(ci, ri), rules) && HasPlace(d, In(ci, ri))
    ensures RulesAt(lib, d, PlacesIn(ci, ri + 1), rules + [RuleOf(lib, RulesIn(d.collections[ci])[ri], Some(Slot(ci)), ri)])
  {
    var more := [RuleAtPlace(lib, d, In(ci, ri))];
    OneRule(lib, d, In(ci, ri), more);
    RulesAtAppend(lib, d, PlacesIn(ci, ri), rules, [In(ci, ri)], more);
    assert PlacesIn(ci, ri + 1) == PlacesIn(ci, ri) + [In(ci, ri)];
  }

  /** The rules of one collection. */
  method CollectionRules(lib: Lib, d: Dump, ci: nat) returns (ok: bool, rules: seq<ExportedRule>)
    requires ci < |d.collections| && IsObject(Some(d.collections[ci]))
    ensures ok <==> !ChokesOn(d.collections[ci])
    ensures ok ==> RulesAt(lib, d, PlacesIn(ci, |RulesIn(d.collections[ci])|), rules)
  {
    rules := [];
    var items := RulesIn(d.collections[ci]);
    for ri := 0 to |items|
      invariant RulesAt(lib, d, PlacesIn(ci, ri), rules)
      invariant forall k :: 0 <= k < ri ==> !items[k].Null?
    {
      if items[ri].Null? {
        return false, [];
      }
      OneMoreRule(lib, d, ci, ri, rules);
      rules := rules + [RuleOf(lib, items[ri], Some(Slot(ci)), ri)];
    }
    ok := true;
  }

  lemma OneRule(lib: Lib, d: Dump, p: Place, rules: seq<ExportedRule>)
    requires HasPlace(d, p) && rules == [RuleAtPlace(lib, d, p)]
    ensures RulesAt(lib, d, [p], rules)
  {
  }

  method NestedRules(lib: Lib, d: Dump) returns (ok: bool, collections: seq<ExportedCollection>, rules: seq<ExportedRule>)
    ensures ok <==> !Chokes(d)
    ensures ok ==> collections == Entries(d, |d.collections|) && RulesAt(lib, d, GroupPlaces(d, |d.collections|), rules)
  {
    collections, rules := [], [];
    for ci := 0 to |d.collections|
      invariant collections == Entries(d, ci) && RulesAt(lib, d, GroupPlaces(d, ci), rules)
      invariant forall k :: 0 <= k < ci ==> !ChokesOn(d.collections[k])
    {
      var c := d.collections[ci];
      if !IsObject(Some(c)) {
        assert GroupPlaces(d, ci + 1) == GroupPlaces(d, ci) && Entries(d, ci + 1) == Entries(d, ci);
        continue;
      }
      collections := collections + [CollectionAtSlot(c, ci)];
      var more;
      ok, more := CollectionRules(lib, d, ci);
      if !ok {
        return;
      }
      RulesAtAppend(lib, d, GroupPlaces(d, ci), rules, PlacesIn(ci, |RulesIn(c)|), more);
      rules := rules + more;
    }
    ok := true;
  }

  method TopRules(lib: Lib, d: Dump) returns (rules: seq<ExportedRule>)
    ensures RulesAt(lib, d, TopPlaces(d, |d.rules|), rules)
  {
    rules := [];
    for ri := 0 to |d.rules|
      invariant RulesAt(lib, d, TopPlaces(d, ri), rules)
    {
      if IsReadable(d.rules[ri]) {
        var more := [RuleOf(lib, d.rules[ri], None, ri)];
        OneRule(lib, d, Top(ri), more);
        RulesAtAppend(lib, d, TopPlaces(d, ri), rules, [Top(ri)], more);
        rules := rules + more;
      } else {
        assert TopPlaces(d, ri + 1) == TopPlaces(d, ri);
      }
    }
  }

  method ReadableDumpToPortFile(lib: Lib, raw: Json) returns (r: Outcome)
    ensures IsResult(lib, raw, r)
  {
    if !IsObject(Some(raw)) {
      return NotAnObject;
    }
    var d := DumpOf(raw);
    var ok, collections, nested := NestedRules(lib, d);
    if !ok {
      return Throws;
    }
    var top := TopRules(lib, d);
    RulesAtAppend(lib, d, GroupPlaces(d, |d.collections|), nested, TopPlaces(d, |d.rules|), top);
    var rules := nested + top;
    if |rules| == 0 {
      return NoRules;
    }
    r := Ok(File(collections, rules));
  }

  // ---- Written order and order of evaluation ---------------------------------------------

  /** The priority that the rules of a reference get: the last entry wins, none counts as 0. */
  function PriorityOf(es: seq<ExportedCollection>, n: nat, ref: Id): int
    requires n <= |es|
  {
    if n == 0 then 0 else if es[n - 1].ref == ref then es[n - 1].priority else PriorityOf(es, n - 1, ref)
  }

  /** The rank a rule of the file will have in the store. */
  function FileRank(file: File, r: ExportedRule): (int, int) {
    (if r.ref.Some? then PriorityOf(file.collections, |file.collections|, r.ref.value) else 0, r.priority)
  }

  lemma {:induction false} PriorityOfImported(es: seq<ExportedCollection>, ids: seq<Id>, ref: Id, n: nat)
    requires n <= |es| && n <= |ids|
    ensures ref in RefsTo(es, ids, n) ==>
              exists i :: 0 <= i < n && RefsTo(es, ids, n)[ref] == ids[i] && PriorityOf(es, n, ref) == es[i].priority
    ensures ref !in RefsTo(es, ids, n) ==> PriorityOf(es, n, ref) == 0
  {
    if n > 0 && es[n - 1].ref != ref {
      PriorityOfImported(es, ids, ref, n - 1);
    }
  }

  /** Importing any file gives its rules the ranks the file speaks of. */
  lemma ImportedRank(lower: char -> char, before: Db, now: Db, file: File, cids: seq<Id>, rids: seq<Id>, j: nat)
    requires Landed(lower, before, now, file, cids, rids) && Complete(file, cids, rids) && j < |rids|
    ensures rids[j] in now.rules && Rank(now, now.rules[rids[j]]) == FileRank(file, file.rules[j])
  {
    var refs, e := RefMap(file.collections, cids), file.rules[j];
    assert RuleAt(lower, now, file.rules, refs, rids, j);
    if e.ref.Some? {
      PriorityOfImported(file.collections, cids, e.ref.value, |cids|);
      if e.ref.value in refs {
        var i :| 0 <= i < |cids| && refs[e.ref.value] == cids[i]
                 && PriorityOf(file.collections, |cids|, e.ref.value) == file.collections[i].priority;
        assert CollectionAt(lower, now.collections, file.collections, cids, i);
      }
    }
  }

  lemma SlotsApart(a: nat, b: nat)
    requires Slot(a) == Slot(b)
    ensures a == b
  {
    assert Slot(a).text[1..] == Dec(a) && Slot(b).text[1..] == Dec(b);
    DecInjective(a, b);
  }

  lemma {:induction false} SlotPriority(d: Dump, n: nat, ci: nat)
    requires ci < n <= |d.collections| && IsObject(Some(d.collections[ci]))
    ensures PriorityOf(Entries(d, n), |Entries(d, n)|, Slot(ci)) == ci
  {
    if IsObject(Some(d.collections[n - 1])) {
      var front := Entries(d, n - 1);
      assert Entries(d, n) == front + [CollectionAtSlot(d.collections[n - 1], n - 1)];
      if ci < n - 1 {
        if Slot(n - 1) == Slot(ci) {
          SlotsApart(n - 1, ci);
        }
        SlotPriority(d, n - 1, ci);
        PriorityOfLonger(front, [CollectionAtSlot(d.collections[n - 1], n - 1)], |front|, Slot(ci));
      }
    } else {
      SlotPriority(d, n - 1, ci);
      assert Entries(d, n) == Entries(d, n - 1);
    }
  }

  lemma {:induction false} PriorityOfLonger(a: seq<ExportedCollection>, b: seq<ExportedCollection>, n: nat, ref: Id)
    requires n <= |a|
    ensures PriorityOf(a + b, n, ref) == PriorityOf(a, n, ref)
  {
    if n > 0 {
      PriorityOfLonger(a, b, n - 1, ref);
    }
  }

  /** The rank of a rule is its place. */
  function PlaceRank(p: Place): (int, int) {
    (if p.In? then p.ci else 0, p.ri)
  }

  lemma RankIsPlace(lib: Lib, raw: Json, file: File, i: nat)
    requires IsResult(lib, raw, Ok(file)) && i < |file.rules|
    ensures FileRank(file, file.rules[i]) == PlaceRank(Places(DumpOf(raw))[i])
  {
    var d := DumpOf(raw);
    var p := Places(d)[i];
    assert RuleFor(lib, d, Places(d), file.rules, i);
    if p.In? {
      SlotPriority(d, |d.collections|, p.ci);
    }
  }

  ghost predicate Sorted(ps: seq<Place>) {
    forall i, j :: 0 <= i < j < |ps| ==> Precedes(PlaceRank(ps[i]), PlaceRank(ps[j]))
  }

  lemma SortedAppend(a: seq<Place>, b: seq<Place>)
    requires Sorted(a) && Sorted(b)
    requires forall p, q :: p in a && q in b ==> Precedes(PlaceRank(p), PlaceRank(q))
    ensures Sorted(a + b)
  {
  }

  lemma PlacesInMeaning(ci: nat, n: nat)
    ensures Sorted(PlacesIn(ci, n)) && forall p :: p in PlacesIn(ci, n) <==> p.In? && p.ci == ci && p.ri < n
  {
    forall p: Place | p.In? && p.ci == ci && p.ri < n
      ensures p in PlacesIn(ci, n)
    {
      assert PlacesIn(ci, n)[p.ri] == p;
    }
  }

  lemma {:induction false} GroupPlacesMembers(d: Dump, n: nat)
    requires n <= |d.collections|
    ensures forall p :: p in GroupPlaces(d, n) <==> p.In? && p.ci < n && HasPlace(d, p)
  {
    if n > 0 {
      GroupPlacesMembers(d, n - 1);
      PlacesInMeaning(n - 1, |RulesIn(d.collections[n - 1])|);
    }
  }

  lemma {:induction false} GroupPlacesSorted(d: Dump, n: nat)
    requires n <= |d.collections|
    ensures Sorted(GroupPlaces(d, n))
  {
    if n > 0 {
      GroupPlacesSorted(d, n - 1);
      if IsObject(Some(d.collections[n - 1])) {
        GroupPlacesMembers(d, n - 1);
        PlacesInMeaning(n - 1, |RulesIn(d.collections[n - 1])|);
        SortedAppend(GroupPlaces(d, n - 1), PlacesIn(n - 1, |RulesIn(d.collections[n - 1])|));
      }
    }
  }

  lemma GroupPlacesMeaning(d: Dump, n: nat)
    requires n <= |d.collections|
    ensures Sorted(GroupPlaces(d, n))
    ensures forall p :: p in GroupPlaces(d, n) <==> p.In? && p.ci < n && HasPlace(d, p)
  {
    GroupPlacesMembers(d, n);
    GroupPlacesSorted(d, n);
  }

  lemma {:induction false} TopPlacesMeaning(d: Dump, n: nat)
    requires n <= |d.rules|
    ensures Sorted(TopPlaces(d, n))
    ensures forall p :: p in TopPlaces(d, n) <==> p.Top? && p.ri < n && HasPlace(d, p)
  {
    if n > 0 {
      TopPlacesMeaning(d, n - 1);
      var front := TopPlaces(d, n - 1);
      assert forall i :: 0 <= i < |front| ==> front[i] in front;
    }
  }

  /** Within the collections, and within the top level, rules are tried in the order in which they
      are written. */
  lemma WrittenOrder(lib: Lib, raw: Json, file: File)
    requires IsResult(lib, raw, Ok(file))
    ensures forall i, j :: 0 <= i < j < |file.rules| && (file.rules[i].ref.Some? <==> file.rules[j].ref.Some?) ==>
              Precedes(FileRank(file, file.rules[i]), FileRank(file, file.rules[j]))
    ensures forall i, j :: 0 <= i < j < |file.rules| && file.rules[j].ref.Some? ==> file.rules[i].ref.Some?
  {
    var d := DumpOf(raw);
    var gs, ts := GroupPlaces(d, |d.collections|), TopPlaces(d, |d.rules|);
    GroupPlacesMeaning(d, |d.collections|);
    TopPlacesMeaning(d, |d.rules|);
    forall i: nat | i < |file.rules|
      ensures file.rules[i].ref.Some? <==> i < |gs|
      ensures FileRank(file, file.rules[i]) == PlaceRank(if i < |gs| then gs[i] else ts[i - |gs|])
    {
      RankIsPlace(lib, raw, file, i);
      assert if i < |gs| then Places(d)[i] == gs[i] && gs[i] in gs else Places(d)[i] == ts[i - |gs|] && ts[i - |gs|] in ts;
      assert RuleFor(lib, d, Places(d), file.rules, i);
    }
  }

  ghost predicate TriedAsWritten(file: File) {
    forall i, j :: 0 <= i < j < |file.rules| ==> Precedes(FileRank(file, file.rules[i]), FileRank(file, file.rules[j]))
  }

  /** A rule in a collection and one written behind it at the top level, which does not rank behind
      it: the collection is not the first, or the position in it is not smaller. */
  predicate Clash(d: Dump, ci: nat, ri: nat, top: nat) {
    HasPlace(d, In(ci, ri)) && HasPlace(d, Top(top)) && (ci > 0 || ri >= top)
  }

  /** The ranks alone make the store try the whole document in the order it is written exactly when
      no top-level rule clashes: ungrouped rules count as a collection of priority 0, and come last
      in the document. A tie counts as a failure, since rows made within one second have no order. */
  lemma TriedAsWrittenExactly(lib: Lib, raw: Json, file: File)
    requires IsResult(lib, raw, Ok(file))
    ensures TriedAsWritten(file) <==> !exists ci, ri, top :: Clash(DumpOf(raw), ci, ri, top)
  {
    var d := DumpOf(raw);
    forall i: nat | i < |file.rules|
      ensures FileRank(file, file.rules[i]) == PlaceRank(Places(d)[i])
    {
      RankIsPlace(lib, raw, file, i);
    }
    if ci: nat, ri: nat, top: nat :| Clash(d, ci, ri, top) {
      ClashUnsorted(d, ci, ri, top);
    } else {
      NoClashSorted(d);
    }
  }

  /** The ranks never put a rule in front of one written before it: ties are left to age, and rows
      are made in the order of the file. */
  ghost predicate NeverReversed(file: File) {
    forall i, j :: 0 <= i < j < |file.rules| ==> !Precedes(FileRank(file, file.rules[j]), FileRank(file, file.rules[i]))
  }

  /** A clash that is not a tie. */
  predicate Reversal(d: Dump, ci: nat, ri: nat, top: nat) {
    HasPlace(d, In(ci, ri)) && HasPlace(d, Top(top)) && (ci > 0 || ri > top)
  }

  /** No two rules are tried the other way round than written, whatever the ages of tied ones,
      exactly when no clash is more than a tie. */
  lemma NeverReversedExactly(lib: Lib, raw: Json, file: File)
    requires IsResult(lib, raw, Ok(file))
    ensures NeverReversed(file) <==> !exists ci, ri, top :: Reversal(DumpOf(raw), ci, ri, top)
  {
    var d := DumpOf(raw);
    forall i: nat | i < |file.rules|
      ensures FileRank(file, file.rules[i]) == PlaceRank(Places(d)[i])
    {
      RankIsPlace(lib, raw, file, i);
    }
    if ci: nat, ri: nat, top: nat :| Reversal(d, ci, ri, top) {
      ReversalReverses(d, ci, ri, top);
    } else {
      NoReversalInOrder(d);
    }
  }

  lemma ReversalReverses(d: Dump, ci: nat, ri: nat, top: nat)
    requires Reversal(d, ci, ri, top)
    ensures exists i, j :: 0 <= i < j < |Places(d)| && Precedes(PlaceRank(Places(d)[j]), PlaceRank(Places(d)[i]))
  {
    var gs, ts := GroupPlaces(d, |d.collections|), TopPlaces(d, |d.rules|);
    GroupPlacesMeaning(d, |d.collections|);
    TopPlacesMeaning(d, |d.rules|);
    assert In(ci, ri) in gs && Top(top) in ts;
    var i :| 0 <= i < |gs| && gs[i] == In(ci, ri);
    var j :| 0 <= j < |ts| && ts[j] == Top(top);
    assert Places(d)[i] == gs[i] && Places(d)[|gs| + j] == ts[j];
  }

  lemma NoReversalInOrder(d: Dump)
    requires !exists ci, ri, top :: Reversal(d, ci, ri, top)
    ensures forall i, j :: 0 <= i < j < |Places(d)| ==> !Precedes(PlaceRank(Places(d)[j]), PlaceRank(Places(d)[i]))
  {
    var gs, ts := GroupPlaces(d, |d.collections|), TopPlaces(d, |d.rules|);
    GroupPlacesMeaning(d, |d.collections|);
    TopPlacesMeaning(d, |d.rules|);
    forall g, t | g in gs && t in ts
      ensures !Precedes(PlaceRank(t), PlaceRank(g))
    {
      assert !Reversal(d, g.ci, g.ri, t.ri);
    }
    NeitherReversed(gs, ts);
  }

  lemma NeitherReversed(gs: seq<Place>, ts: seq<Place>)
    requires Sorted(gs) && Sorted(ts) && forall g, t :: g in gs && t in ts ==> !Precedes(PlaceRank(t), PlaceRank(g))
    ensures forall i, j :: 0 <= i < j < |gs + ts| ==> !Precedes(PlaceRank((gs + ts)[j]), PlaceRank((gs + ts)[i]))
  {
  }

  lemma ClashUnsorted(d: Dump, ci: nat, ri: nat, top: nat)
    requires Clash(d, ci, ri, top)
    ensures exists i, j :: 0 <= i < j < |Places(d)| && !Precedes(PlaceRank(Places(d)[i]), PlaceRank(Places(d)[j]))
  {
    var gs, ts := GroupPlaces(d, |d.collections|), TopPlaces(d, |d.rules|);
    GroupPlacesMeaning(d, |d.collections|);
    TopPlacesMeaning(d, |d.rules|);
    assert In(ci, ri) in gs && Top(top) in ts;
    var i :| 0 <= i < |gs| && gs[i] == In(ci, ri);
    var j :| 0 <= j < |ts| && ts[j] == Top(top);
    assert Places(d)[i] == gs[i] && Places(d)[|gs| + j] == ts[j];
  }

  lemma NoClashSorted(d: Dump)
    requires !exists ci, ri, top :: Clash(d, ci, ri, top)
    ensures Sorted(Places(d))
  {
    var gs, ts := GroupPlaces(d, |d.collections|), TopPlaces(d, |d.rules|);
    GroupPlacesMeaning(d, |d.collections|);
    TopPlacesMeaning(d, |d.rules|);
    forall g, t | g in gs && t in ts
      ensures Precedes(PlaceRank(g), PlaceRank(t))
    {
      assert !Clash(d, g.ci, g.ri, t.ri);
    }
    SortedAppend(gs, ts);
  }

  // ---- Writing a rule by hand ------------------------------------------------------------

  function Optional(v: Option<string>): Json {
    if v.Some? then Str(v.value) else Null
  }

  function Parsed(parse: string -> Json, payload: seq<string>): Json {
    Arr(seq(|payload|, i requires 0 <= i < |payload| => parse(payload[i])))
  }

  function Labels(tags: seq<string>): seq<Json> {
    seq(|tags|, i requires 0 <= i < |tags| => Str(tags[i]))
  }

  /** A rule in the readable form, as the format is documented. */
  function Written(parse: string -> Json, e: ExportedRule): Json
    requires e.conditions.Some? && e.tags.Some?
  {
    Obj(map["name" := Str(e.name), "enabled" := Bool(e.enabled), "mode" := Str(e.mode),
            "patches" := Parsed(parse, e.patches), "tags" := Arr(Labels(e.tags.value)),
            "match" := WrittenMatch(parse, e), "response" := WrittenResponse(parse, e)])
  }

  function WrittenMatch(parse: string -> Json, e: ExportedRule): Json
    requires e.conditions.Some?
  {
    Obj(map["method" := Optional(e.httpMethod), "path" := Optional(e.path), "host" := Optional(e.host),
            "req_body" := Optional(e.reqBody), "params" := Parsed(parse, e.params),
            "conditions" := Parsed(parse, e.conditions.value)])
  }

  function WrittenResponse(parse: string -> Json, e: ExportedRule): Json {
    Obj(map["status" := Num(e.status), "delay_ms" := Num(e.delay), "mime" := Optional(e.mime),
            "headers" := Parsed(parse, e.headers), "body_base64" := Optional(e.body)])
  }

  ghost predicate NotBlank(v: Option<string>) {
    v.Some? ==> v.value != ""
  }

  lemma PayloadBack(lib: Lib, parse: string -> Json, payload: seq<string>)
    requires forall x :: x in payload ==> lib.stringify(parse(x)) == x
    ensures Payload(lib, Items(Some(Parsed(parse, payload)))) == payload
  {
  }

  lemma {:induction false} LabelsBack(tags: seq<string>)
    ensures TagsIn(Labels(tags)) == tags
  {
    if tags != [] {
      LabelsBack(tags[1..]);
      assert Labels(tags)[1..] == Labels(tags[1..]);
    }
  }

  lemma MatchBack(lib: Lib, parse: string -> Json, e: ExportedRule)
    requires e.conditions.Some? && NotBlank(e.host) && NotBlank(e.httpMethod) && NotBlank(e.path)
    ensures var m := Some(WrittenMatch(parse, e));
            && NonEmpty(Get(m, "host")) == e.host && NonEmpty(Get(m, "method")) == e.httpMethod && NonEmpty(Get(m, "path")) == e.path
            && Get(m, "req_body") == Some(Optional(e.reqBody)) && Get(m, "params") == Some(Parsed(parse, e.params))
            && Get(m, "conditions") == Some(Parsed(parse, e.conditions.value))
  {
  }

  lemma ResponseBack(lib: Lib, parse: string -> Json, e: ExportedRule)
    requires NotBlank(e.mime) && NotBlank(e.body)
    ensures var resp := Some(WrittenResponse(parse, e));
            && Get(resp, "status") == Some(Num(e.status)) && Get(resp, "delay_ms") == Some(Num(e.delay))
            && NonEmpty(Get(resp, "mime")) == e.mime && BodyIn(lib, resp) == e.body
            && Get(resp, "headers") == Some(Parsed(parse, e.headers))
  {
  }

  /** A rule that has these fields, wherever they come from, is read as `e`. */
  lemma FieldsBack(lib: Lib, rule: Json, e: ExportedRule)
    requires e.conditions.Some? && e.tags.Some? && e.mode in {"patch", "stub"}
    requires var r := Some(rule);
             && Get(r, "name") == Some(Str(e.name)) && Get(r, "enabled") == Some(Bool(e.enabled)) && Get(r, "mode") == Some(Str(e.mode))
             && Payload(lib, Items(Get(r, "patches"))) == e.patches && TagsIn(Items(Get(r, "tags"))) == e.tags.value
    requires var m := Get(Some(rule), "match");
             && NonEmpty(Get(m, "host")) == e.host && NonEmpty(Get(m, "method")) == e.httpMethod && NonEmpty(Get(m, "path")) == e.path
             && Get(m, "req_body") == Some(Optional(e.reqBody)) && Payload(lib, Items(Get(m, "params"))) == e.params
             && Payload(lib, Items(Get(m, "conditions"))) == e.conditions.value
    requires var resp := Get(Some(rule), "response");
             && Get(resp, "status") == Some(Num(e.status)) && Get(resp, "delay_ms") == Some(Num(e.delay))
             && NonEmpty(Get(resp, "mime")) == e.mime && BodyIn(lib, resp) == e.body
             && Payload(lib, Items(Get(resp, "headers"))) == e.headers
    ensures RuleOf(lib, rule, e.ref, e.priority) == e
  {
  }

  /** A rule written in the readable form is read as that rule, field by field. `parse` is the
      inverse of `stringify` on the payloads. */
  lemma WrittenReadsBack(lib: Lib, parse: string -> Json, e: ExportedRule)
    requires forall x :: lib.stringify(parse(x)) == x
    requires IsWritable(e)
    ensures RuleOf(lib, Written(parse, e), e.ref, e.priority) == e && IsReadable(Written(parse, e))
  {
    MatchBack(lib, parse, e);
    ResponseBack(lib, parse, e);
    PayloadBack(lib, parse, e.patches);
    PayloadBack(lib, parse, e.params);
    PayloadBack(lib, parse, e.conditions.value);
    PayloadBack(lib, parse, e.headers);
    LabelsBack(e.tags.value);
    TopFieldsBack(parse, e);
    FieldsBack(lib, Written(parse, e), e);
  }

  lemma TopFieldsBack(parse: string -> Json, e: ExportedRule)
    requires e.conditions.Some? && e.tags.Some?
    ensures var r := Some(Written(parse, e));
            && Get(r, "name") == Some(Str(e.name)) && Get(r, "enabled") == Some(Bool(e.enabled)) && Get(r, "mode") == Some(Str(e.mode))
            && Get(r, "patches") == Some(Parsed(parse, e.patches)) && Get(r, "tags") == Some(Arr(Labels(e.tags.value)))
            && Get(r, "match") == Some(WrittenMatch(parse, e)) && Get(r, "response") == Some(WrittenResponse(parse, e))
  {
  }

  // ---- Writing a whole file by hand ------------------------------------------------------

  /** What a rule may hold to be written in this form. */
  ghost predicate IsWritable(e: ExportedRule) {
    && e.conditions.Some? && e.tags.Some? && e.mode in {"patch", "stub"}
    && NotBlank(e.host) && NotBlank(e.httpMethod) && NotBlank(e.path) && NotBlank(e.mime) && NotBlank(e.body)
  }

  datatype Group = Group(name: string, enabled: bool, tags: seq<string>, rules: seq<ExportedRule>)

  ghost predicate AllWritable(rules: seq<ExportedRule>) {
    forall i :: 0 <= i < |rules| ==> IsWritable(rules[i])
  }

  ghost function WrittenRules(parse: string -> Json, rules: seq<ExportedRule>): seq<Json>
    requires AllWritable(rules)
  {
    seq(|rules|, i requires 0 <= i < |rules| => Written(parse, rules[i]))
  }

  ghost function WrittenGroup(parse: string -> Json, g: Group): Json
    requires AllWritable(g.rules)
  {
    Obj(map["name" := Str(g.name), "enabled" := Bool(g.enabled), "tags" := Arr(Labels(g.tags)),
            "rules" := Arr(WrittenRules(parse, g.rules))])
  }

  ghost predicate GroupsWritable(gs: seq<Group>) {
    forall i :: 0 <= i < |gs| ==> AllWritable(gs[i].rules)
  }

  ghost function WrittenDump(parse: string -> Json, gs: seq<Group>, tops: seq<ExportedRule>): Json
    requires GroupsWritable(gs) && AllWritable(tops)
  {
    Obj(map["collections" := Arr(seq(|gs|, i requires 0 <= i < |gs| => WrittenGroup(parse, gs[i]))),
            "rules" := Arr(WrittenRules(parse, tops))])
  }

  /** Rules as a file lists them behind one reference: numbered by their positions. */
  function Numbered(rules: seq<ExportedRule>, ref: Option<Id>): seq<ExportedRule> {
    seq(|rules|, i requires 0 <= i < |rules| => rules[i].(ref := ref, priority := i))
  }

  function GroupRules(gs: seq<Group>): seq<ExportedRule> {
    if gs == [] then []
    else GroupRules(gs[..|gs| - 1]) + Numbered(gs[|gs| - 1].rules, Some(Id("c" + Dec(|gs| - 1))))
  }

  function GroupEntry(g: Group, ci: nat): ExportedCollection {
    ExportedCollection(Id("c" + Dec(ci)), g.name, g.enabled, ci, Some(g.tags))
  }

  lemma WrittenRuleAt(lib: Lib, parse: string -> Json, d: Dump, p: Place, e: ExportedRule)
    requires forall x :: lib.stringify(parse(x)) == x
    requires IsWritable(e) && HasPlace(d, p) && JsonAt(d, p) == Written(parse, e)
    ensures RuleAtPlace(lib, d, p) == e.(ref := if p.In? then Some(Slot(p.ci)) else None, priority := p.ri)
  {
    var placed := e.(ref := if p.In? then Some(Slot(p.ci)) else None, priority := p.ri);
    assert Written(parse, placed) == Written(parse, e);
    WrittenReadsBack(lib, parse, placed);
  }

  lemma GroupAt(parse: string -> Json, g: Group)
    requires AllWritable(g.rules)
    ensures var c := WrittenGroup(parse, g); IsObject(Some(c)) && RulesIn(c) == WrittenRules(parse, g.rules) && !ChokesOn(c)
    ensures forall ci :: CollectionAtSlot(WrittenGroup(parse, g), ci) == GroupEntry(g, ci)
  {
    var c := WrittenGroup(parse, g);
    LabelsBack(g.tags);
    assert Get(Some(c), "name") == Some(Str(g.name)) && Get(Some(c), "enabled") == Some(Bool(g.enabled));
    assert Get(Some(c), "tags") == Some(Arr(Labels(g.tags))) && Get(Some(c), "rules") == Some(Arr(WrittenRules(parse, g.rules)));
  }

  lemma GroupRead(lib: Lib, parse: string -> Json, d: Dump, g: Group, ci: nat)
    requires forall x :: lib.stringify(parse(x)) == x
    requires AllWritable(g.rules) && ci < |d.collections| && d.collections[ci] == WrittenGroup(parse, g)
    ensures RulesAt(lib, d, PlacesIn(ci, |g.rules|), Numbered(g.rules, Some(Slot(ci))))
  {
    var numbered := Numbered(g.rules, Some(Slot(ci)));
    GroupAt(parse, g);
    forall i {:trigger RuleFor(lib, d, PlacesIn(ci, |g.rules|), numbered, i)} | 0 <= i < |g.rules|
      ensures RuleFor(lib, d, PlacesIn(ci, |g.rules|), numbered, i)
    {
      WrittenRuleAt(lib, parse, d, In(ci, i), g.rules[i]);
    }
  }

  lemma OneMoreGroup(parse: string -> Json, d: Dump, g: Group, n: nat)
    requires n < |d.collections| && AllWritable(g.rules) && d.collections[n] == WrittenGroup(parse, g)
    ensures GroupPlaces(d, n + 1) == GroupPlaces(d, n) + PlacesIn(n, |g.rules|)
  {
    GroupAt(parse, g);
  }

  lemma {:induction false} EntriesRead(d: Dump, gs: seq<Group>, n: nat)
    requires n <= |gs| == |d.collections|
    requires forall i :: 0 <= i < |gs| ==> IsObject(Some(d.collections[i])) && CollectionAtSlot(d.collections[i], i) == GroupEntry(gs[i], i)
    ensures |Entries(d, n)| == n && forall i :: 0 <= i < n ==> Entries(d, n)[i] == GroupEntry(gs[i], i)
  {
    if n > 0 {
      EntriesRead(d, gs, n - 1);
    }
  }

  /** The written collections, up to number `n`, are read as their rules. */
  lemma {:induction false} GroupsRead(lib: Lib, parse: string -> Json, d: Dump, gs: seq<Group>, n: nat)
    requires forall x :: lib.stringify(parse(x)) == x
    requires GroupsWritable(gs) && n <= |gs| == |d.collections|
    requires forall i :: 0 <= i < |gs| ==> d.collections[i] == WrittenGroup(parse, gs[i])
    ensures RulesAt(lib, d, GroupPlaces(d, n), GroupRules(gs[..n]))
  {
    if n > 0 {
      GroupsRead(lib, parse, d, gs, n - 1);
      GroupRead(lib, parse, d, gs[n - 1], n - 1);
      OneMoreGroup(parse, d, gs[n - 1], n - 1);
      GroupRulesSnoc(gs, n);
      RulesAtJoined(lib, d, GroupPlaces(d, n - 1), GroupRules(gs[..n - 1]), PlacesIn(n - 1, |gs[n - 1].rules|),
                    Numbered(gs[n - 1].rules, Some(Slot(n - 1))), GroupPlaces(d, n), GroupRules(gs[..n]));
    }
  }

  lemma RulesAtJoined(lib: Lib, d: Dump, ps: seq<Place>, rs: seq<ExportedRule>, qs: seq<Place>, ts: seq<ExportedRule>,
                      places: seq<Place>, rules: seq<ExportedRule>)
    requires RulesAt(lib, d, ps, rs) && RulesAt(lib, d, qs, ts) && places == ps + qs && rules == rs + ts
    ensures RulesAt(lib, d, places, rules)
  {
    RulesAtAppend(lib, d, ps, rs, qs, ts);
  }

  lemma GroupRulesSnoc(gs: seq<Group>, n: nat)
    requires 0 < n <= |gs|
    ensures GroupRules(gs[..n]) == GroupRules(gs[..n - 1]) + Numbered(gs[n - 1].rules, Some(Slot(n - 1)))
  {
    assert gs[..n][..n - 1] == gs[..n - 1];
  }

  lemma TopRead(lib: Lib, parse: string -> Json, d: Dump, e: ExportedRule, n: nat)
    requires forall x :: lib.stringify(parse(x)) == x
    requires IsWritable(e) && n < |d.rules| && d.rules[n] == Written(parse, e)
    ensures TopPlaces(d, n + 1) == TopPlaces(d, n) + [Top(n)]
    ensures RulesAt(lib, d, [Top(n)], [e.(ref := None, priority := n)])
  {
    WrittenReadsBack(lib, parse, e);
    WrittenRuleAt(lib, parse, d, Top(n), e);
    OneRule(lib, d, Top(n), [e.(ref := None, priority := n)]);
  }

  lemma {:induction false} TopsRead(lib: Lib, parse: string -> Json, d: Dump, tops: seq<ExportedRule>, n: nat)
    requires forall x :: lib.stringify(parse(x)) == x
    requires AllWritable(tops) && n <= |tops| && d.rules == WrittenRules(parse, tops)
    ensures RulesAt(lib, d, TopPlaces(d, n), Numbered(tops, None)[..n])
  {
    if n > 0 {
      var numbered := Numbered(tops, None);
      TopsRead(lib, parse, d, tops, n - 1);
      TopRead(lib, parse, d, tops[n - 1], n - 1);
      RulesAtAppend(lib, d, TopPlaces(d, n - 1), numbered[..n - 1], [Top(n - 1)], [numbered[n - 1]]);
      assert numbered[..n] == numbered[..n - 1] + [numbered[n - 1]];
    }
  }

  lemma RulesDetermined(lib: Lib, d: Dump, places: seq<Place>, a: seq<ExportedRule>, b: seq<ExportedRule>)
    requires RulesAt(lib, d, places, a) && RulesAt(lib, d, places, b)
    ensures a == b
  {
    forall i | 0 <= i < |places|
      ensures a[i] == b[i]
    {
      assert RuleFor(lib, d, places, a, i) && RuleFor(lib, d, places, b, i);
    }
  }

  /** A whole file written in the documented form is read as what was written: the collections in
      order, numbered from 0; then all their rules, each in its collection, and those of the top
      level in none, numbered by position. Without any rule it is refused. */
  lemma DumpReadsBack(lib: Lib, parse: string -> Json, gs: seq<Group>, tops: seq<ExportedRule>, r: Outcome)
    requires forall x :: lib.stringify(parse(x)) == x
    requires GroupsWritable(gs) && AllWritable(tops) && IsResult(lib, WrittenDump(parse, gs, tops), r)
    ensures var rules := GroupRules(gs) + Numbered(tops, None);
            if rules == [] then r == NoRules
            else r.Ok? && r.file.rules == rules && |r.file.collections| == |gs|
                 && forall i :: 0 <= i < |gs| ==> r.file.collections[i] == GroupEntry(gs[i], i)
  {
    var raw, expected := WrittenDump(parse, gs, tops), GroupRules(gs) + Numbered(tops, None);
    var d := DumpOf(raw);
    DumpIs(parse, gs, tops);
    DumpRules(lib, parse, d, gs, tops);
    if r.Ok? {
      RulesDetermined(lib, d, Places(d), r.file.rules, expected);
    }
  }

  lemma DumpIs(parse: string -> Json, gs: seq<Group>, tops: seq<ExportedRule>)
    requires GroupsWritable(gs) && AllWritable(tops)
    ensures var raw := WrittenDump(parse, gs, tops); var d := DumpOf(raw);
            && IsObject(Some(raw)) && !Chokes(d)
            && |d.collections| == |gs| && d.rules == WrittenRules(parse, tops)
            && forall i :: 0 <= i < |gs| ==> d.collections[i] == WrittenGroup(parse, gs[i])
  {
    var raw := WrittenDump(parse, gs, tops);
    var d := DumpOf(raw);
    assert "rules" in raw.fields && raw.fields["rules"] == Arr(WrittenRules(parse, tops));
    forall ci | 0 <= ci < |gs|
      ensures d.collections[ci] == WrittenGroup(parse, gs[ci]) && !ChokesOn(d.collections[ci])
    {
      GroupAt(parse, gs[ci]);
    }
  }

  lemma DumpRules(lib: Lib, parse: string -> Json, d: Dump, gs: seq<Group>, tops: seq<ExportedRule>)
    requires forall x :: lib.stringify(parse(x)) == x
    requires GroupsWritable(gs) && AllWritable(tops) && |d.collections| == |gs| && d.rules == WrittenRules(parse, tops)
    requires forall i :: 0 <= i < |gs| ==> d.collections[i] == WrittenGroup(parse, gs[i])
    ensures RulesAt(lib, d, Places(d), GroupRules(gs) + Numbered(tops, None))
    ensures var es := Entries(d, |d.collections|); |es| == |gs| && forall i :: 0 <= i < |gs| ==> es[i] == GroupEntry(gs[i], i)
  {
    GroupsRead(lib, parse, d, gs, |gs|);
    forall i | 0 <= i < |gs|
      ensures IsObject(Some(d.collections[i])) && CollectionAtSlot(d.collections[i], i) == GroupEntry(gs[i], i)
    {
      GroupAt(parse, gs[i]);
    }
    EntriesRead(d, gs, |gs|);
    TopsRead(lib, parse, d, tops, |tops|);
    assert gs[..|gs|] == gs && Numbered(tops, None)[..|tops|] == Numbered(tops, None);
    RulesAtAppend(lib, d, GroupPlaces(d, |gs|), GroupRules(gs), TopPlaces(d, |tops|), Numbered(tops, None));
  }

  /** What a file leaves out: a rule in a collection that says nothing is a disabled stub without a
      matcher that answers 200 at once, and a collection that says nothing but its rules is disabled
      and named by its number. */
  lemma MissingFields(lib: Lib, raw: Json, file: File, i: nat, ci: nat, ri: nat)
    requires IsResult(lib, raw, Ok(file)) && i < |file.rules| && Places(DumpOf(raw))[i] == In(ci, ri)
    requires HasPlace(DumpOf(raw), In(ci, ri)) && JsonAt(DumpOf(raw), In(ci, ri)) == Obj(map[])
    requires DumpOf(raw).collections[ci].Obj? && DumpOf(raw).collections[ci].fields.Keys == {"rules"}
    ensures file.rules[i] == ExportedRule(Some(Id("c" + Dec(ci))), "", false, ri, "stub", [], None, None, None, [], None, Some([]), Some([]),
                                          200, [], None, None, 0)
    ensures ExportedCollection(Id("c" + Dec(ci)), "Collection " + Dec(ci + 1), false, ci, Some([])) in file.collections
  {
    var d := DumpOf(raw);
    assert RuleFor(lib, d, Places(d), file.rules, i);
    EntryThere(d, |d.collections|, ci);
    assert CollectionAtSlot(d.collections[ci], ci) in file.collections;
  }

  /** At the top level exactly the entries with an object, or a list, under `match` or `response` are
      read as rules. */
  lemma TopLevelExactly(raw: Json, ri: nat)
    requires raw.Obj? && "rules" in raw.fields && raw.fields["rules"].Arr? && ri < |raw.fields["rules"].items|
    ensures var item := raw.fields["rules"].items[ri];
            Top(ri) in Places(DumpOf(raw)) <==>
            item.Obj? && exists key :: key in {"match", "response"} && key in item.fields && (item.fields[key].Obj? || item.fields[key].Arr?)
  {
    var d := DumpOf(raw);
    assert d.rules == raw.fields["rules"].items;
    GroupPlacesMeaning(d, |d.collections|);
    TopPlacesMeaning(d, |d.rules|);
    var item := d.rules[ri];
    assert item.Obj? && (exists key :: key in {"match", "response"} && key in item.fields && (item.fields[key].Obj? || item.fields[key].Arr?))
      <==> IsReadable(item) by {
      if IsReadable(item) {
        var key := if IsObject(Get(Some(item), "match")) then "match" else "response";
        assert key in {"match", "response"} && key in item.fields;
      }
    }
  }

  lemma {:induction false} EntryThere(d: Dump, n: nat, ci: nat)
    requires ci < n <= |d.collections| && IsObject(Some(d.collections[ci]))
    ensures CollectionAtSlot(d.collections[ci], ci) in Entries(d, n)
  {
    if ci < n - 1 {
      EntryThere(d, n - 1, ci);
      assert Entries(d, n - 1) <= Entries(d, n);
    } else {
      assert Entries(d, n) == Entries(d, n - 1) + [CollectionAtSlot(d.collections[ci], ci)];
    }
  }

  /** A body that is not given in base64 is encoded: a text as it is, any other value as its JSON
      text. A response without either has none. */
  lemma BodyForms(lib: Lib, raw: Json, file: File, i: nat, resp: Json)
    requires IsResult(lib, raw, Ok(file)) && i < |file.rules|
    requires var p := Places(DumpOf(raw))[i]; HasPlace(DumpOf(raw), p) && Get(Some(JsonAt(DumpOf(raw), p)), "response") == Some(resp)
    requires resp.Obj?
    ensures "body_base64" in resp.fields && resp.fields["body_base64"].Str? && resp.fields["body_base64"].s != "" ==>
              file.rules[i].body == Some(resp.fields["body_base64"].s)
    ensures "body_base64" !in resp.fields && "body" in resp.fields && resp.fields["body"].Str? ==>
              file.rules[i].body == Some(lib.base64(resp.fields["body"].s))
    ensures "body_base64" !in resp.fields && "body" in resp.fields && !resp.fields["body"].Str? && !resp.fields["body"].Null? ==>
              file.rules[i].body == Some(lib.base64(lib.stringify(resp.fields["body"])))
    ensures "body_base64" !in resp.fields && ("body" !in resp.fields || resp.fields["body"].Null?) ==> file.rules[i].body == None
  {
    assert RuleFor(lib, DumpOf(raw), Places(DumpOf(raw)), file.rules, i);
  }
}
