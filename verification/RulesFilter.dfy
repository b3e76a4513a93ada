/** The free-text filter of the rules library (src/lib/rules-filter.ts) and the tag tokens it has to
    be able to find again (src/components/Tags.tsx, src/views/RulesView.tsx). */
module RulesFilter {
  import opened Text

  const TAG_PREFIX := "tag:"

  datatype Key = Any | Tag

  datatype Term = Term(key: Key, values: seq<string>)

  datatype Param = Param(name: string, value: string)

  datatype Rule = Rule(
    name: string, method': Option<string>, hostGlob: Option<string>, pathGlob: Option<string>,
    params: seq<Param>, tags: seq<string>)

  datatype Collection = Collection(name: string, tags: seq<string>)

  // ---- Words and alternatives ------------------------------------------------------------

  /** `split(/\s+/).filter(Boolean)`: the maximal runs of non-space. */
  function Words(s: string): seq<string> {
    WordsFrom("", s)
  }

  function WordsFrom(word: string, s: string): seq<string>
    decreases |s|
  {
    if s == "" then (if word == "" then [] else [word])
    else if IsSpace(s[0]) then (if word == "" then [] else [word]) + WordsFrom("", s[1..])
    else WordsFrom(word + [s[0]], s[1..])
  }

  lemma {:induction false} WordsHaveNoSpace(word: string, s: string)
    requires NoSpace(word)
    ensures forall w :: w in WordsFrom(word, s) ==> w != "" && NoSpace(w)
    decreases |s|
  {
    if s != "" {
      if IsSpace(s[0]) {
        WordsHaveNoSpace("", s[1..]);
      } else {
        WordsHaveNoSpace(word + [s[0]], s[1..]);
      }
    }
  }

  lemma {:induction false} OneWord(word: string, s: string)
    requires NoSpace(s) && word + s != ""
    ensures WordsFrom(word, s) == [word + s]
    decreases |s|
  {
    if s == "" {
      assert word + s == word;
    } else {
      OneWord(word + [s[0]], s[1..]);
      assert word + [s[0]] + s[1..] == word + s;
    }
  }

  function NonBlank(parts: seq<string>): seq<string> {
    if parts == [] then []
    else (if Trim(parts[0]) == "" then [] else [Trim(parts[0])]) + NonBlank(parts[1..])
  }

  function SplitAlternatives(raw: string): seq<string> {
    NonBlank(SplitOn(raw, ','))
  }

  lemma {:induction false} NonBlankParts(parts: seq<string>)
    requires forall p :: p in parts ==> NoSpace(p)
    ensures forall v :: v in NonBlank(parts) ==> v != "" && NoSpace(v)
    decreases |parts|
  {
    if parts != [] {
      TrimNoSpace(parts[0]);
      NonBlankParts(parts[1..]);
    }
  }

  /** A needle: what a term searches for. */
  ghost predicate IsNeedle(v: string) {
    v != "" && NoSpace(v)
  }

  lemma AlternativesAreNeedles(raw: string)
    requires NoSpace(raw)
    ensures forall v :: v in SplitAlternatives(raw) ==> IsNeedle(v)
  {
    NonBlankParts(SplitOn(raw, ','));
  }

  lemma OneAlternative(raw: string)
    requires IsNeedle(raw) && ',' !in raw
    ensures SplitAlternatives(raw) == [raw]
  {
    SplitPlain(raw, ',');
    TrimNoSpace(raw);
    assert NonBlank([raw]) == [raw] + NonBlank([]);
  }

  // ---- Parsing ---------------------------------------------------------------------------

  function TermsOf(word: string): seq<Term> {
    var tagged := if TAG_PREFIX <= word then SplitAlternatives(word[|TAG_PREFIX|..]) else [];
    if tagged != [] then [Term(Tag, tagged)]
    else
      var values := SplitAlternatives(word);
      if values != [] then [Term(Any, values)] else []
  }

  function TermsOfAll(words: seq<string>): seq<Term> {
    if words == [] then [] else TermsOfAll(words[..|words| - 1]) + TermsOf(words[|words| - 1])
  }

  function Parse(lower: char -> char, query: string): seq<Term> {
    TermsOfAll(Words(ToLower(lower, query)))
  }

  lemma TermsRound(words: seq<string>, i: nat)
    requires i < |words|
    ensures TermsOfAll(words[..i + 1]) == TermsOfAll(words[..i]) + TermsOf(words[i])
  {
    assert words[..i + 1][..i] == words[..i];
  }

  method ParseFilterTerms(lower: char -> char, query: string) returns (terms: seq<Term>)
    ensures terms == Parse(lower, query)
  {
    terms := [];
    var words := Words(ToLower(lower, query));
    for i := 0 to |words|
      invariant terms == TermsOfAll(words[..i])
    {
      var word := words[i];
      TermsRound(words, i);
      if TAG_PREFIX <= word {
        var values := SplitAlternatives(word[|TAG_PREFIX|..]);
        if |values| > 0 {
          terms := terms + [Term(Tag, values)];
          continue;
        }
      }
      var values := SplitAlternatives(word);
      if |values| > 0 {
        terms := terms + [Term(Any, values)];
      }
    }
    assert words[..|words|] == words;
  }

  ghost predicate IsParsed(terms: seq<Term>) {
    forall t :: t in terms ==> t.values != [] && forall v :: v in t.values ==> IsNeedle(v)
  }

  lemma TermsOfParsed(word: string)
    requires NoSpace(word)
    ensures IsParsed(TermsOf(word))
  {
    AlternativesAreNeedles(word);
    if TAG_PREFIX <= word {
      AlternativesAreNeedles(word[|TAG_PREFIX|..]);
    }
  }

  lemma {:induction false} TermsOfAllParsed(words: seq<string>)
    requires forall w :: w in words ==> NoSpace(w)
    ensures IsParsed(TermsOfAll(words))
    decreases |words|
  {
    if words != [] {
      TermsOfAllParsed(words[..|words| - 1]);
      TermsOfParsed(words[|words| - 1]);
    }
  }

  /** Whatever the query, every value searched for is non-empty and free of white space. */
  lemma ParsedNeedles(lower: char -> char, query: string)
    ensures IsParsed(Parse(lower, query))
  {
    WordsHaveNoSpace("", ToLower(lower, query));
    TermsOfAllParsed(Words(ToLower(lower, query)));
  }

  // ---- The grammar -----------------------------------------------------------------------

  lemma {:induction false} NeedlesStay(vs: seq<string>)
    requires forall v :: v in vs ==> IsNeedle(v)
    ensures NonBlank(vs) == vs
  {
    if vs != [] {
      assert vs[0] in vs && IsNeedle(vs[0]);
      TrimNoSpace(vs[0]);
      NeedlesStay(vs[1..]);
      assert [vs[0]] + vs[1..] == vs;
    }
  }

  lemma JoinedAlternatives(vs: seq<string>)
    requires vs != [] && forall v :: v in vs ==> IsNeedle(v) && ',' !in v
    ensures SplitAlternatives(Join(vs, ",")) == vs
  {
    SplitJoin(vs, ',');
    NeedlesStay(vs);
  }

  lemma BareTag(word: string)
    requires word == TAG_PREFIX
    ensures TermsOf(word) == [Term(Any, [word])]
  {
    assert word[|TAG_PREFIX|..] == "";
    OneAlternative(word);
  }

  /** `tag:a,b` is a tag term with the values `a` and `b`, `a,b` a plain one; a bare `tag:` is a plain
      term that looks for that very text. */
  lemma WordMeaning(vs: seq<string>)
    requires vs != [] && forall v :: v in vs ==> IsNeedle(v) && ',' !in v
    ensures TermsOf(TAG_PREFIX + Join(vs, ",")) == [Term(Tag, vs)]
    ensures !(TAG_PREFIX <= Join(vs, ",")) ==> TermsOf(Join(vs, ",")) == [Term(Any, vs)]
    ensures TermsOf(TAG_PREFIX) == [Term(Any, [TAG_PREFIX])]
  {
    JoinedAlternatives(vs);
    BareTag(TAG_PREFIX);
  }

  lemma {:induction false} WordsJuxtapose(word: string, a: string, b: string)
    ensures WordsFrom(word, a + (" " + b)) == WordsFrom(word, a) + Words(b)
    decreases |a|
  {
    var s := a + (" " + b);
    if a == "" {
      assert s == " " + b && s[1..] == b;
    } else {
      assert s[1..] == a[1..] + (" " + b);
      if IsSpace(a[0]) {
        WordsJuxtapose("", a[1..], b);
        Assoc(if word == "" then [] else [word], WordsFrom("", a[1..]), Words(b));
      } else {
        WordsJuxtapose(word + [a[0]], a[1..], b);
      }
    }
  }

  lemma TermsAppendOne(a: seq<string>, front: seq<string>, last: string)
    requires TermsOfAll(a + front) == TermsOfAll(a) + TermsOfAll(front)
    ensures TermsOfAll(a + (front + [last])) == TermsOfAll(a) + TermsOfAll(front + [last])
  {
    Assoc(a, front, [last]);
    Assoc(TermsOfAll(a), TermsOfAll(front), TermsOf(last));
  }

  lemma {:induction false} TermsOfAllAppend(a: seq<string>, b: seq<string>, n: nat)
    requires n <= |b|
    ensures TermsOfAll(a + b[..n]) == TermsOfAll(a) + TermsOfAll(b[..n])
  {
    if n == 0 {
      assert a + b[..0] == a;
    } else {
      TermsOfAllAppend(a, b, n - 1);
      TermsAppendOne(a, b[..n - 1], b[n - 1]);
      SliceSnoc(b, n);
    }
  }

  lemma SliceSnoc(b: seq<string>, n: nat)
    requires 0 < n <= |b|
    ensures b[..n] == b[..n - 1] + [b[n - 1]]
  {
  }

  /** Two queries side by side are the terms of both. */
  lemma ParseJuxtapose(lower: char -> char, s1: string, s2: string)
    requires IsCaseMap(lower)
    ensures Parse(lower, s1 + " " + s2) == Parse(lower, s1) + Parse(lower, s2)
  {
    var a, b := ToLower(lower, s1), ToLower(lower, s2);
    assert IsSpace(' ');
    assert ToLower(lower, s1 + " " + s2) == a + (" " + b);
    WordsJuxtapose("", a, b);
    TermsOfAllAppend(Words(a), Words(b), |Words(b)|);
    assert Words(b)[..|Words(b)|] == Words(b);
  }

  // ---- Matching --------------------------------------------------------------------------

  function OrEmpty(o: Option<string>): string {
    if o.Some? then o.value else ""
  }

  function ParamText(params: seq<Param>): seq<string> {
    if params == [] then [] else [params[0].name + "=" + params[0].value] + ParamText(params[1..])
  }

  function TagFields(r: Rule, c: Collection): seq<string> {
    r.tags + c.tags
  }

  function Fields(r: Rule, c: Collection): seq<string> {
    [r.name, c.name, OrEmpty(r.method'), OrEmpty(r.hostGlob), OrEmpty(r.pathGlob)]
    + ParamText(r.params) + r.tags + c.tags
  }

  function Haystack(lower: char -> char, fields: seq<string>): string {
    ToLower(lower, Join(fields, " "))
  }

  predicate TermHits(term: Term, tagHay: string, hay: string) {
    exists v :: v in term.values && Contains(if term.key.Tag? then tagHay else hay, v)
  }

  predicate MatchesRule(lower: char -> char, r: Rule, c: Collection, terms: seq<Term>) {
    forall t :: t in terms ==> TermHits(t, Haystack(lower, TagFields(r, c)), Haystack(lower, Fields(r, c)))
  }

  /** The tags of a collection, joined and lowered, are lowered once more behind its name. */
  predicate MatchesCollection(lower: char -> char, c: Collection, terms: seq<Term>) {
    var tagHay := Haystack(lower, c.tags);
    forall t :: t in terms ==> TermHits(t, tagHay, ToLower(lower, c.name + " " + tagHay))
  }

  // ---- One search through joined text is a search through each field ---------------------

  /** The reading of a term that the joined haystack stands for. */
  ghost predicate TermHitsField(lower: char -> char, term: Term, tags: seq<string>, fields: seq<string>) {
    exists v, f :: v in term.values && f in (if term.key.Tag? then tags else fields) && Contains(ToLower(lower, f), v)
  }

  function LowerAll(lower: char -> char, fields: seq<string>): (r: seq<string>)
    ensures |r| == |fields|
    ensures forall i :: 0 <= i < |fields| ==> r[i] == ToLower(lower, fields[i])
  {
    seq(|fields|, i requires 0 <= i < |fields| => ToLower(lower, fields[i]))
  }

  lemma {:induction false} LowerJoin(lower: char -> char, fields: seq<string>)
    requires IsCaseMap(lower)
    ensures ToLower(lower, Join(fields, " ")) == Join(LowerAll(lower, fields), " ")
    decreases |fields|
  {
    if |fields| > 1 {
      LowerJoin(lower, fields[1..]);
      assert IsSpace(' ') && ToLower(lower, " ") == " ";
      ToLowerConcat(lower, fields[0] + " ", Join(fields[1..], " "));
      ToLowerConcat(lower, fields[0], " ");
      assert LowerAll(lower, fields)[1..] == LowerAll(lower, fields[1..]);
    } else if |fields| == 1 {
      assert LowerAll(lower, fields)[0] == ToLower(lower, fields[0]);
    }
  }

  /** No match of a needle spans two fields. */
  lemma HaystackContains(lower: char -> char, fields: seq<string>, v: string)
    requires IsCaseMap(lower) && IsNeedle(v)
    ensures Contains(Haystack(lower, fields), v) <==> exists f :: f in fields && Contains(ToLower(lower, f), v)
  {
    LowerJoin(lower, fields);
    assert IsSpace(' ');
    ContainsJoin(LowerAll(lower, fields), ' ', v);
    if Contains(Haystack(lower, fields), v) {
      var p :| p in LowerAll(lower, fields) && Contains(p, v);
      var i :| 0 <= i < |fields| && LowerAll(lower, fields)[i] == p;
      assert fields[i] in fields;
    }
    if f :| f in fields && Contains(ToLower(lower, f), v) {
      var i :| 0 <= i < |fields| && fields[i] == f;
      assert LowerAll(lower, fields)[i] in LowerAll(lower, fields);
    }
  }

  lemma TermRefines(lower: char -> char, t: Term, tags: seq<string>, fields: seq<string>)
    requires IsCaseMap(lower) && forall v :: v in t.values ==> IsNeedle(v)
    ensures TermHits(t, Haystack(lower, tags), Haystack(lower, fields)) <==> TermHitsField(lower, t, tags, fields)
  {
    forall v | v in t.values
      ensures Contains(Haystack(lower, tags), v) <==> exists f :: f in tags && Contains(ToLower(lower, f), v)
      ensures Contains(Haystack(lower, fields), v) <==> exists f :: f in fields && Contains(ToLower(lower, f), v)
    {
      HaystackContains(lower, tags, v);
      HaystackContains(lower, fields, v);
    }
  }

  /** A rule is found by `s1 s2` exactly when it is found by each. */
  lemma FilterConjunction(lower: char -> char, s1: string, s2: string, r: Rule, c: Collection)
    requires IsCaseMap(lower)
    ensures MatchesRule(lower, r, c, Parse(lower, s1 + " " + s2)) <==>
            MatchesRule(lower, r, c, Parse(lower, s1)) && MatchesRule(lower, r, c, Parse(lower, s2))
  {
    ParseJuxtapose(lower, s1, s2);
  }

  /** For every query the rule filter means: each term has an alternative that occurs within one
      field (one tag, for a `tag:` term) of the rule or its collection. */
  lemma RuleFilterMeaning(lower: char -> char, query: string, r: Rule, c: Collection)
    requires IsCaseMap(lower)
    ensures MatchesRule(lower, r, c, Parse(lower, query)) <==>
            forall t :: t in Parse(lower, query) ==> TermHitsField(lower, t, TagFields(r, c), Fields(r, c))
  {
    ParsedNeedles(lower, query);
    forall t | t in Parse(lower, query)
      ensures TermHits(t, Haystack(lower, TagFields(r, c)), Haystack(lower, Fields(r, c)))
         <==> TermHitsField(lower, t, TagFields(r, c), Fields(r, c))
    {
      TermRefines(lower, t, TagFields(r, c), Fields(r, c));
    }
  }

  lemma CollectionHay(lower: char -> char, c: Collection)
    requires IsCaseMap(lower)
    ensures ToLower(lower, c.name + " " + Haystack(lower, c.tags))
         == if c.tags == [] then ToLower(lower, c.name) + " " else Haystack(lower, [c.name] + c.tags)
  {
    var joined := Join(c.tags, " ");
    assert IsSpace(' ') && ToLower(lower, " ") == " ";
    ToLowerConcat(lower, c.name + " ", Haystack(lower, c.tags));
    ToLowerConcat(lower, c.name, " ");
    if c.tags != [] {
      assert ([c.name] + c.tags)[1..] == c.tags;
      assert Join([c.name] + c.tags, " ") == c.name + " " + joined;
      ToLowerConcat(lower, c.name + " ", joined);
    }
  }

  lemma CollectionTermRefines(lower: char -> char, t: Term, c: Collection)
    requires IsCaseMap(lower) && forall v :: v in t.values ==> IsNeedle(v)
    ensures TermHits(t, Haystack(lower, c.tags), ToLower(lower, c.name + " " + Haystack(lower, c.tags)))
       <==> TermHitsField(lower, t, c.tags, [c.name] + c.tags)
  {
    CollectionHay(lower, c);
    if c.tags == [] {
      forall v | v in t.values
        ensures Contains(ToLower(lower, c.name) + " ", v) <==> Contains(ToLower(lower, c.name), v)
        ensures !Contains("", v)
      {
        assert IsSpace(' ');
        ContainsAcross(ToLower(lower, c.name), ' ', "", v);
        assert ToLower(lower, c.name) + " " + "" == ToLower(lower, c.name) + " ";
      }
      assert [c.name] + c.tags == [c.name];
      assert Haystack(lower, c.tags) == "";
    } else {
      TermRefines(lower, t, c.tags, [c.name] + c.tags);
    }
  }

  lemma CollectionFilterMeaning(lower: char -> char, query: string, c: Collection)
    requires IsCaseMap(lower)
    ensures MatchesCollection(lower, c, Parse(lower, query)) <==>
            forall t :: t in Parse(lower, query) ==> TermHitsField(lower, t, c.tags, [c.name] + c.tags)
  {
    ParsedNeedles(lower, query);
    forall t | t in Parse(lower, query)
      ensures TermHits(t, Haystack(lower, c.tags), ToLower(lower, c.name + " " + Haystack(lower, c.tags)))
         <==> TermHitsField(lower, t, c.tags, [c.name] + c.tags)
    {
      CollectionTermRefines(lower, t, c);
    }
  }

  // ---- Where a plain value is looked for -------------------------------------------------

  /** The field holds the value, but for case. */
  predicate Has(lower: char -> char, field: string, v: string) {
    Contains(ToLower(lower, field), ToLower(lower, v))
  }

  lemma {:induction false} ParamTextMembers(params: seq<Param>, f: string)
    ensures f in ParamText(params) <==> exists p :: p in params && f == p.name + "=" + p.value
  {
    if params != [] {
      ParamTextMembers(params[1..], f);
      assert params == [params[0]] + params[1..];
    }
  }

  lemma FieldsMembers(r: Rule, c: Collection, f: string)
    ensures f in Fields(r, c) <==>
            || f in {r.name, c.name, OrEmpty(r.method'), OrEmpty(r.hostGlob), OrEmpty(r.pathGlob)}
            || (exists p :: p in r.params && f == p.name + "=" + p.value) || f in r.tags || f in c.tags
  {
    ParamTextMembers(r.params, f);
    var head := [r.name, c.name, OrEmpty(r.method'), OrEmpty(r.hostGlob), OrEmpty(r.pathGlob)];
    assert head[0] in head && head[1] in head && head[2] in head && head[3] in head && head[4] in head;
  }

  lemma NeedleStays(lower: char -> char, v: string)
    requires IsCaseMap(lower) && IsNeedle(v)
    ensures IsNeedle(ToLower(lower, v)) && (',' !in v ==> ',' !in ToLower(lower, v))
  {
    var low := ToLower(lower, v);
    forall i | 0 <= i < |v|
      ensures !IsSpace(low[i]) && (v[i] != ',' ==> low[i] != ',')
    {
      assert v[i] in v && low[i] == lower(v[i]);
    }
  }

  /** A single value typed as a query, and not a `tag:` one. */
  ghost predicate IsPlainQuery(lower: char -> char, v: string) {
    IsNeedle(v) && ',' !in v && (TAG_PREFIX <= ToLower(lower, v) ==> ToLower(lower, v) == TAG_PREFIX)
  }

  lemma PlainQueryParses(lower: char -> char, v: string)
    requires IsCaseMap(lower) && IsPlainQuery(lower, v)
    ensures Parse(lower, v) == [Term(Any, [ToLower(lower, v)])]
  {
    var low := ToLower(lower, v);
    NeedleStays(lower, v);
    OneWord("", low);
    assert "" + low == low;
    OneAlternative(low);
    if low == TAG_PREFIX {
      BareTag(low);
    }
    assert TermsOf(low) == [Term(Any, [low])];
    assert [low][..0] == [] && TermsOfAll([low]) == TermsOfAll([]) + TermsOf(low);
  }

  lemma AnyTerm(lower: char -> char, v: string, tags: seq<string>, fields: seq<string>)
    ensures TermHitsField(lower, Term(Any, [ToLower(lower, v)]), tags, fields) <==> exists f :: f in fields && Has(lower, f, v)
  {
    var term := Term(Any, [ToLower(lower, v)]);
    assert term.values[0] in term.values;
    if f :| f in fields && Has(lower, f, v) {
      assert ToLower(lower, v) in term.values && f in (if term.key.Tag? then tags else fields);
    }
  }

  lemma NothingInEmpty(lower: char -> char, v: string)
    requires v != ""
    ensures !Has(lower, "", v)
  {
  }

  lemma FieldsHave(lower: char -> char, v: string, r: Rule, c: Collection)
    requires v != ""
    ensures (exists f :: f in Fields(r, c) && Has(lower, f, v)) <==>
            || Has(lower, r.name, v) || Has(lower, c.name, v)
            || (r.method'.Some? && Has(lower, r.method'.value, v))
            || (r.hostGlob.Some? && Has(lower, r.hostGlob.value, v))
            || (r.pathGlob.Some? && Has(lower, r.pathGlob.value, v))
            || (exists p :: p in r.params && Has(lower, p.name + "=" + p.value, v))
            || (exists t :: t in r.tags && Has(lower, t, v)) || (exists t :: t in c.tags && Has(lower, t, v))
  {
    NothingInEmpty(lower, v);
    if f :| f in Fields(r, c) && Has(lower, f, v) {
      FieldsMembers(r, c, f);
    }
    FieldsMembers(r, c, r.name);
    FieldsMembers(r, c, c.name);
    FieldsMembers(r, c, OrEmpty(r.method'));
    FieldsMembers(r, c, OrEmpty(r.hostGlob));
    FieldsMembers(r, c, OrEmpty(r.pathGlob));
    if p :| p in r.params && Has(lower, p.name + "=" + p.value, v) {
      FieldsMembers(r, c, p.name + "=" + p.value);
    }
    if t :| t in r.tags + c.tags && Has(lower, t, v) {
      FieldsMembers(r, c, t);
    }
    assert forall t :: t in r.tags + c.tags <==> t in r.tags || t in c.tags;
  }

  /** A plain value finds the rules that hold it in their name, method, host or path pattern, in one of
      their parameters or tags, or in the name or a tag of their collection, and no others. */
  lemma PlainQueryFinds(lower: char -> char, v: string, r: Rule, c: Collection)
    requires IsCaseMap(lower) && IsPlainQuery(lower, v)
    ensures MatchesRule(lower, r, c, Parse(lower, v)) <==>
            || Has(lower, r.name, v) || Has(lower, c.name, v)
            || (r.method'.Some? && Has(lower, r.method'.value, v))
            || (r.hostGlob.Some? && Has(lower, r.hostGlob.value, v))
            || (r.pathGlob.Some? && Has(lower, r.pathGlob.value, v))
            || (exists p :: p in r.params && Has(lower, p.name + "=" + p.value, v))
            || (exists t :: t in r.tags && Has(lower, t, v)) || (exists t :: t in c.tags && Has(lower, t, v))
  {
    PlainQueryParses(lower, v);
    RuleFilterMeaning(lower, v, r, c);
    OneTerm(lower, v, TagFields(r, c), Fields(r, c));
    FieldsHave(lower, v, r, c);
  }

  lemma OneTerm(lower: char -> char, v: string, tags: seq<string>, fields: seq<string>)
    ensures (forall t :: t in [Term(Any, [ToLower(lower, v)])] ==> TermHitsField(lower, t, tags, fields)) <==>
            exists f :: f in fields && Has(lower, f, v)
  {
    var terms := [Term(Any, [ToLower(lower, v)])];
    AnyTerm(lower, v, tags, fields);
    assert terms[0] in terms;
  }

  /** The same for a collection: its name and its tags. */
  lemma PlainQueryFindsCollections(lower: char -> char, v: string, c: Collection)
    requires IsCaseMap(lower) && IsPlainQuery(lower, v)
    ensures MatchesCollection(lower, c, Parse(lower, v)) <==> Has(lower, c.name, v) || exists t :: t in c.tags && Has(lower, t, v)
  {
    PlainQueryParses(lower, v);
    CollectionFilterMeaning(lower, v, c);
    OneTerm(lower, v, c.tags, [c.name] + c.tags);
    assert ([c.name] + c.tags)[0] == c.name;
  }

  // ---- Tags ------------------------------------------------------------------------------

  predicate IsSeparator(c: char) {
    IsSpace(c) || c == ','
  }

  /** `split(/[\s,]+/).map(trim).filter(Boolean)` */
  function SplitTagInput(raw: string): seq<string> {
    TokensFrom("", raw)
  }

  function TokensFrom(token: string, s: string): seq<string>
    decreases |s|
  {
    if s == "" then (if token == "" then [] else [token])
    else if IsSeparator(s[0]) then (if token == "" then [] else [token]) + TokensFrom("", s[1..])
    else TokensFrom(token + [s[0]], s[1..])
  }

  ghost predicate IsToken(tag: string) {
    tag != "" && forall c :: c in tag ==> !IsSeparator(c)
  }

  lemma {:induction false} TokensAreTokens(token: string, s: string)
    requires token == "" || IsToken(token)
    ensures forall t :: t in TokensFrom(token, s) ==> IsToken(t)
    decreases |s|
  {
    if s != "" {
      if IsSeparator(s[0]) {
        TokensAreTokens("", s[1..]);
      } else {
        TokensAreTokens(token + [s[0]], s[1..]);
      }
    }
  }

  /** A separator ends a tag: what stands on its sides is split by itself. */
  lemma {:induction false} TagsSplit(token: string, a: string, c: char, b: string)
    requires IsSpace(c) || c == ','
    ensures TokensFrom(token, a + ([c] + b)) == TokensFrom(token, a) + SplitTagInput(b)
    decreases |a|
  {
    var s := a + ([c] + b);
    if a == "" {
      assert s == [c] + b && s[1..] == b;
    } else {
      assert s[1..] == a[1..] + ([c] + b);
      if IsSeparator(a[0]) {
        TagsSplit("", a[1..], c, b);
        Assoc(if token == "" then [] else [token], TokensFrom("", a[1..]), SplitTagInput(b));
      } else {
        TagsSplit(token + [a[0]], a[1..], c, b);
      }
    }
  }

  lemma {:induction false} OneTag(token: string, s: string)
    requires IsToken(token + s) && forall c :: c in s ==> !IsSeparator(c)
    ensures TokensFrom(token, s) == [token + s]
    decreases |s|
  {
    if s == "" {
      assert token + s == token;
    } else {
      assert token + [s[0]] + s[1..] == token + s;
      OneTag(token + [s[0]], s[1..]);
    }
  }

  /** Typing tags with any separator between them gives exactly these tags. */
  lemma {:induction false} JoinedTags(tags: seq<string>, c: char)
    requires (IsSpace(c) || c == ',') && forall t :: t in tags ==> IsToken(t)
    ensures SplitTagInput(Join(tags, [c])) == tags
    decreases |tags|
  {
    if tags != [] {
      var first := tags[0];
      assert first in tags && "" + first == first;
      OneTag("", first);
      if |tags| > 1 {
        JoinedTags(tags[1..], c);
        TagsSplit("", first, c, Join(tags[1..], [c]));
        Assoc(first, [c], Join(tags[1..], [c]));
        assert [first] + tags[1..] == tags;
      }
    }
  }

  /** The query behind a tag chip. */
  function FilterByTag(tag: string): string {
    TAG_PREFIX + tag
  }

  /** A token typed as a query is one keyed term. */
  lemma TagQueryParses(lower: char -> char, tag: string)
    requires IsCaseMap(lower) && IsToken(tag)
    ensures Parse(lower, FilterByTag(tag)) == [Term(Tag, [ToLower(lower, tag)])]
  {
    var low := ToLower(lower, tag);
    var word := TAG_PREFIX + low;
    ToLowerConcat(lower, TAG_PREFIX, tag);
    assert ToLower(lower, TAG_PREFIX) == TAG_PREFIX;
    forall i | 0 <= i < |tag|
      ensures !IsSpace(low[i]) && low[i] != ','
    {
      assert tag[i] in tag && !IsSeparator(tag[i]);
    }
    assert NoSpace(low) && ',' !in low;
    assert NoSpace(TAG_PREFIX);
    OneWord("", word);
    assert "" + word == word;
    assert word[|TAG_PREFIX|..] == low;
    OneAlternative(low);
    assert TermsOf(word) == [Term(Tag, [low])];
    assert [word][..0] == [];
    assert TermsOfAll([word]) == TermsOfAll([]) + TermsOf(word);
  }

  ghost predicate CarriesLike(lower: char -> char, tags: seq<string>, tag: string) {
    exists f :: f in tags && Contains(ToLower(lower, f), ToLower(lower, tag))
  }

  lemma TagTerm(lower: char -> char, tag: string, tags: seq<string>, fields: seq<string>)
    ensures TermHitsField(lower, Term(Tag, [ToLower(lower, tag)]), tags, fields) <==> CarriesLike(lower, tags, tag)
  {
    var term := Term(Tag, [ToLower(lower, tag)]);
    assert term.values[0] in term.values;
    if f :| f in tags && Contains(ToLower(lower, f), ToLower(lower, tag)) {
      assert ToLower(lower, tag) in term.values && f in (if term.key.Tag? then tags else fields);
    }
  }

  /** Every tag the editor can produce is addressable: the chip's query shows exactly the rules and
      collections one of whose tags contains it, hence all that carry it. */
  lemma TokensAreAddressable(lower: char -> char, raw: string, tag: string, r: Rule, c: Collection)
    requires IsCaseMap(lower) && tag in SplitTagInput(raw)
    ensures var terms := Parse(lower, FilterByTag(tag));
            && (MatchesRule(lower, r, c, terms) <==> CarriesLike(lower, r.tags + c.tags, tag))
            && (MatchesCollection(lower, c, terms) <==> CarriesLike(lower, c.tags, tag))
            && (tag in r.tags || tag in c.tags ==> MatchesRule(lower, r, c, terms))
            && (tag in c.tags ==> MatchesCollection(lower, c, terms))
  {
    TokensAreTokens("", raw);
    TagQueryParses(lower, tag);
    RuleFilterMeaning(lower, FilterByTag(tag), r, c);
    CollectionFilterMeaning(lower, FilterByTag(tag), c);
    var term := Term(Tag, [ToLower(lower, tag)]);
    assert [term][0] == term && term in [term];
    assert term.values[0] == ToLower(lower, tag);
    assert OccursAt(ToLower(lower, tag), ToLower(lower, tag), 0);
    TagTerm(lower, tag, r.tags + c.tags, Fields(r, c));
    TagTerm(lower, tag, c.tags, [c.name] + c.tags);
  }

  ghost predicate NoCaseDuplicates(lower: char -> char, tags: seq<string>) {
    forall i, j :: 0 <= i < j < |tags| ==> ToLower(lower, tags[i]) != ToLower(lower, tags[j])
  }

  /** Some tag of the list is spelled like `tag` but for case. */
  ghost predicate Holds(lower: char -> char, tags: seq<string>, tag: string) {
    exists i :: 0 <= i < |tags| && ToLower(lower, tags[i]) == ToLower(lower, tag)
  }

  /** A newcomer, and unlike all tags in front of it. */
  ghost predicate NewAt(lower: char -> char, incoming: seq<string>, out: seq<string>, i: nat)
    requires i < |out|
  {
    out[i] in incoming && !Holds(lower, out[..i], out[i])
  }

  /** The tags as they were, then newcomers: every one there, none spelled like an earlier tag. */
  ghost predicate Added(lower: char -> char, existing: seq<string>, incoming: seq<string>, out: seq<string>) {
    && existing <= out
    && (forall t :: t in incoming ==> Holds(lower, out, t))
    && forall i {:trigger NewAt(lower, incoming, out, i)} :: |existing| <= i < |out| ==> NewAt(lower, incoming, out, i)
  }

  lemma HoldsLonger(lower: char -> char, tags: seq<string>, tag: string, more: string)
    ensures Holds(lower, tags + [more], tag) <==> Holds(lower, tags, tag) || ToLower(lower, more) == ToLower(lower, tag)
  {
    var all := tags + [more];
    if Holds(lower, tags, tag) {
      var i :| 0 <= i < |tags| && ToLower(lower, tags[i]) == ToLower(lower, tag);
      assert all[i] == tags[i];
    }
    if ToLower(lower, more) == ToLower(lower, tag) {
      assert all[|tags|] == more;
    }
  }

  lemma AddedOne(lower: char -> char, existing: seq<string>, incoming: seq<string>, out: seq<string>, tag: string)
    requires Added(lower, existing, incoming, out) && !Holds(lower, out, tag)
    ensures Added(lower, existing, incoming + [tag], out + [tag])
  {
    forall t | t in incoming + [tag]
      ensures Holds(lower, out + [tag], t)
    {
      HoldsLonger(lower, out, t, tag);
    }
    forall i {:trigger NewAt(lower, incoming + [tag], out + [tag], i)} | |existing| <= i <= |out|
      ensures NewAt(lower, incoming + [tag], out + [tag], i)
    {
      assert (out + [tag])[..i] == out[..i];
      if i < |out| {
        assert NewAt(lower, incoming, out, i);
      } else {
        assert out[..|out|] == out;
      }
    }
  }

  lemma AddedNone(lower: char -> char, existing: seq<string>, incoming: seq<string>, out: seq<string>, tag: string)
    requires Added(lower, existing, incoming, out) && Holds(lower, out, tag)
    ensures Added(lower, existing, incoming + [tag], out)
  {
    forall i {:trigger NewAt(lower, incoming + [tag], out, i)} | |existing| <= i < |out|
      ensures NewAt(lower, incoming + [tag], out, i)
    {
      assert NewAt(lower, incoming, out, i);
    }
  }

  /** So the result is free of duplicates if the list was. */
  lemma AddedDistinct(lower: char -> char, existing: seq<string>, incoming: seq<string>, out: seq<string>)
    requires Added(lower, existing, incoming, out) && NoCaseDuplicates(lower, existing)
    ensures NoCaseDuplicates(lower, out)
  {
    forall i, j | 0 <= i < j < |out|
      ensures ToLower(lower, out[i]) != ToLower(lower, out[j])
    {
      if j < |existing| {
        assert out[i] == existing[i] && out[j] == existing[j];
      } else {
        assert NewAt(lower, incoming, out, j);
        assert out[..j][i] == out[i];
      }
    }
  }

  /** The keys kept aside are those of the tags so far. */
  ghost predicate SeenIs(lower: char -> char, seen: set<string>, out: seq<string>) {
    forall tag {:trigger Holds(lower, out, tag)} :: ToLower(lower, tag) in seen <==> Holds(lower, out, tag)
  }

  lemma SeenOneMore(lower: char -> char, seen: set<string>, out: seq<string>, tag: string)
    requires SeenIs(lower, seen, out)
    ensures SeenIs(lower, seen + {ToLower(lower, tag)}, out + [tag])
  {
    forall t {:trigger Holds(lower, out + [tag], t)}
      ensures ToLower(lower, t) in seen + {ToLower(lower, tag)} <==> Holds(lower, out + [tag], t)
    {
      HoldsLonger(lower, out, t, tag);
      assert ToLower(lower, t) in seen <==> Holds(lower, out, t);
    }
  }

  method AddTags(lower: char -> char, existing: seq<string>, incoming: seq<string>) returns (out: seq<string>)
    ensures Added(lower, existing, incoming, out)
  {
    out := existing;
    var seen := set i | 0 <= i < |existing| :: ToLower(lower, existing[i]);
    for i := 0 to |incoming|
      invariant Added(lower, existing, incoming[..i], out)
      invariant SeenIs(lower, seen, out)
    {
      var tag := incoming[i];
      var key := ToLower(lower, tag);
      assert incoming[..i + 1] == incoming[..i] + [tag];
      assert key in seen <==> Holds(lower, out, tag);
      if key in seen {
        AddedNone(lower, existing, incoming[..i], out, tag);
        continue;
      }
      AddedOne(lower, existing, incoming[..i], out, tag);
      SeenOneMore(lower, seen, out, tag);
      seen := seen + {key};
      out := out + [tag];
    }
    assert incoming[..|incoming|] == incoming;
  }
}
