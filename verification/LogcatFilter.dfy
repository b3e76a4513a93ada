/** The filter language of the Logcat window (src/lib/logcat-filter.ts). */
module LogcatFilter {
  import opened Text

  datatype Entry = Entry(level: nat, pid: nat, tag: string, message: string)

  /** Library code: case folding, regular expressions (none for a pattern that does not compile),
      `*` globs and `parseInt` (none for NaN and the infinities). */
  datatype Lib = Lib(
    lower: char -> char, regex: string -> Option<string -> bool>, glob: (string, string) -> bool,
    parseInt: string -> Option<int>)

  datatype Result<+T> = Ok(value: T) | Err(error: Error)

  datatype Error = BadRegex(pattern: string) | BadLevel(text: string) | BadPid(text: string) | UnknownKey(key: string)

  // ---- Value lists -----------------------------------------------------------------------

  datatype RawValue = RawValue(value: string, negate: bool)

  function ReadValue(part: string): Option<RawValue> {
    var s := Trim(part);
    if s == "" then None
    else if s[0] == '!' then
      var v := Trim(s[1..]);
      if v == "" then None else Some(RawValue(v, true))
    else Some(RawValue(s, false))
  }

  function ReadValues(parts: seq<string>): seq<RawValue> {
    if parts == [] then []
    else
      var front := ReadValues(parts[..|parts| - 1]);
      match ReadValue(parts[|parts| - 1])
      case Some(v) => front + [v]
      case None => front
  }

  method SplitValues(value: string) returns (out: seq<RawValue>)
    ensures out == ReadValues(SplitOn(value, ','))
  {
    var parts := SplitOn(value, ',');
    out := [];
    for i := 0 to |parts|
      invariant out == ReadValues(parts[..i])
    {
      assert parts[..i + 1][..i] == parts[..i];
      var s := Trim(parts[i]);
      if |s| == 0 {
        continue;
      }
      var negate := false;
      if s[0] == '!' {
        negate := true;
        s := Trim(s[1..]);
      }
      if |s| == 0 {
        continue;
      }
      out := out + [RawValue(s, negate)];
    }
    assert parts[..|parts|] == parts;
  }

  lemma {:induction false} ReadValuesMembers(parts: seq<string>, v: RawValue)
    ensures v in ReadValues(parts) <==> exists p :: p in parts && ReadValue(p) == Some(v)
    decreases |parts|
  {
    if parts != [] {
      var front, last := parts[..|parts| - 1], parts[|parts| - 1];
      ReadValuesMembers(front, v);
      assert parts == front + [last];
    }
  }

  // ---- Levels ----------------------------------------------------------------------------

  /** `Never` is what an inherited property name of the look-up object turns into: a bound that
      no level meets. */
  datatype Bound = At(n: nat) | Never

  datatype Range = Range(min: Bound, max: Bound)

  predicate InRange(r: Range, n: nat) {
    r.min.At? && r.max.At? && r.min.n <= n <= r.max.n
  }

  function LevelFromToken(t: string): Option<Bound> {
    if t == "v" || t == "verbose" then Some(At(0))
    else if t == "d" || t == "debug" then Some(At(1))
    else if t == "i" || t == "info" then Some(At(2))
    else if t == "w" || t == "warn" || t == "warning" then Some(At(3))
    else if t == "e" || t == "error" then Some(At(4))
    else if t == "f" || t == "fatal" then Some(At(5))
    else if t == "s" || t == "silent" then Some(At(6))
    else if t == "constructor" || t == "__proto__" then Some(Never)
    else None
  }

  function SplitDots(s: string): (r: seq<string>)
    ensures |r| >= 1
    decreases |s|
  {
    match IndexOf(s, "..", 0)
    case None => [s]
    case Some(i) => [s[..i]] + SplitDots(s[i + 2..])
  }

  function ParseLevelRange(lib: Lib, raw: string): Option<Range> {
    var range := SplitDots(raw);
    if |range| == 1 then
      match LevelFromToken(ToLower(lib.lower, range[0]))
      case Some(b) => Some(Range(b, b))
      case None => None
    else if |range| == 2 then
      var lo := if range[0] == "" then Some(At(0)) else LevelFromToken(ToLower(lib.lower, range[0]));
      var hi := if range[1] == "" then Some(At(6)) else LevelFromToken(ToLower(lib.lower, range[1]));
      if lo.Some? && hi.Some? then Some(Range(lo.value, hi.value)) else None
    else None
  }

  // ---- Atoms -----------------------------------------------------------------------------

  datatype Key = Tag | Msg | Level | Pid

  datatype Atom =
    | Everything
    | Regex(negate: bool, test: string -> bool)
    | Bareword(negate: bool, word: string)
    | Keyed(negate: bool, key: Key, values: seq<RawValue>)
    | Apps(values: seq<RawValue>)

  predicate MatchesText(lib: Lib, value: string, s: string) {
    if '*' in value then lib.glob(value, s) else Contains(ToLower(lib.lower, s), ToLower(lib.lower, value))
  }

  /** One value of a keyed list against one row; the level or the number parses by then. */
  predicate Hits(lib: Lib, key: Key, value: string, e: Entry) {
    match key
    case Tag => MatchesText(lib, value, e.tag)
    case Msg => MatchesText(lib, value, e.message)
    case Level => var r := ParseLevelRange(lib, value); r.Some? && InRange(r.value, e.level)
    case Pid => lib.parseInt(value) == Some(e.pid)
  }

  predicate WellFormed(lib: Lib, key: Key, value: string) {
    match key
    case Level => ParseLevelRange(lib, value).Some?
    case Pid => lib.parseInt(value).Some?
    case _ => true
  }

  /** Positive values are alternatives, negative ones must all miss. */
  predicate Combine(lib: Lib, key: Key, values: seq<RawValue>, e: Entry) {
    && ((exists v :: v in values && !v.negate) ==> exists v :: v in values && !v.negate && Hits(lib, key, v.value, e))
    && (forall v :: v in values && v.negate ==> !Hits(lib, key, v.value, e))
  }

  predicate Eval(lib: Lib, a: Atom, e: Entry) {
    match a
    case Everything => true
    case Regex(negate, test) => (test(e.tag) || test(e.message)) != negate
    case Bareword(negate, w) => (MatchesText(lib, w, e.tag) || MatchesText(lib, w, e.message)) != negate
    case Keyed(negate, key, values) => Combine(lib, key, values, e) != negate
    case Apps(_) => true
  }

  function KeyOf(name: string): Option<Key> {
    if name == "tag" then Some(Tag)
    else if name == "msg" || name == "message" then Some(Msg)
    else if name == "level" then Some(Level)
    else if name == "pid" then Some(Pid)
    else None
  }

  function ErrorOf(key: Key, value: string): Error {
    if key.Level? then BadLevel(value) else BadPid(value)
  }

  /** The error of the first value that does not parse. */
  function FirstBad(lib: Lib, key: Key, values: seq<RawValue>): Option<Error> {
    if values == [] then None
    else if !WellFormed(lib, key, values[0].value) then Some(ErrorOf(key, values[0].value))
    else FirstBad(lib, key, values[1..])
  }

  function BuildKeyed(lib: Lib, negate: bool, name: string, values: seq<RawValue>): Result<Atom> {
    if values == [] then Ok(Everything)
    else if name == "app" then Ok(Apps(values))
    else match KeyOf(name)
      case None => Err(UnknownKey(name))
      case Some(key) =>
        match FirstBad(lib, key, values)
        case Some(error) => Err(error)
        case None => Ok(Keyed(negate, key, values))
  }

  function BuildBody(lib: Lib, negate: bool, body: string): Result<Atom> {
    if body != "" && body[0] == '~' then
      match lib.regex(body[1..])
      case Some(test) => Ok(Regex(negate, test))
      case None => Err(BadRegex(body[1..]))
    else
      match IndexOf(body, ":", 0)
      case None => Ok(Bareword(negate, body))
      case Some(colon) =>
        BuildKeyed(lib, negate, ToLower(lib.lower, body[..colon]), ReadValues(SplitOn(body[colon + 1..], ',')))
  }

  function BuildAtom(lib: Lib, token: string): Result<Atom> {
    if token != "" && token[0] == '!' then BuildBody(lib, true, token[1..]) else BuildBody(lib, false, token)
  }

  // ---- Laws of value lists ---------------------------------------------------------------

  /** A key as it may be typed in front of the colon. */
  ghost predicate IsKey(key: string) {
    ':' !in key && (key != "" ==> key[0] != '!' && key[0] != '~')
  }

  lemma KeyedBody(lib: Lib, negate: bool, key: string, list: string)
    requires IsKey(key)
    ensures BuildBody(lib, negate, key + ":" + list)
         == BuildKeyed(lib, negate, ToLower(lib.lower, key), ReadValues(SplitOn(list, ',')))
  {
    var body := key + ":" + list;
    ColonAt(key, list);
    assert body[0] == if key == "" then ':' else key[0];
    assert body[..|key|] == key;
    assert body[|key| + 1..] == list;
  }

  /** `key:list` or `!key:list` */
  function KeyToken(negate: bool, key: string, list: string): string {
    if negate then "!" + (key + ":" + list) else key + ":" + list
  }

  lemma KeyedToken(lib: Lib, negate: bool, key: string, list: string)
    requires IsKey(key)
    ensures BuildAtom(lib, KeyToken(negate, key, list))
         == BuildKeyed(lib, negate, ToLower(lib.lower, key), ReadValues(SplitOn(list, ',')))
  {
    var body, token := key + ":" + list, KeyToken(negate, key, list);
    KeyedBody(lib, negate, key, list);
    assert body[0] == if key == "" then ':' else key[0];
    assert negate ==> token[1..] == body;
    assert BuildAtom(lib, token) == BuildBody(lib, negate, body);
  }

  lemma ColonAt(key: string, list: string)
    requires ':' !in key
    ensures IndexOf(key + ":" + list, ":", 0) == Some(|key|)
  {
    var body := key + ":" + list;
    assert body[|key|..|key| + 1] == ":";
    assert OccursAt(body, ":", |key|);
    forall j | 0 <= j < |key|
      ensures !OccursAt(body, ":", j)
    {
      assert body[j..j + 1][0] == key[j];
      assert key[j] in key;
    }
    IndexOfMeaning(body, ":", 0);
  }

  /** Parsing succeeds or not, and the atom accepts or not, by the set of the values alone. */
  lemma {:induction false} FirstBadMembers(lib: Lib, key: Key, values: seq<RawValue>)
    ensures FirstBad(lib, key, values).None? <==> forall v :: v in values ==> WellFormed(lib, key, v.value)
    decreases |values|
  {
    if values != [] {
      FirstBadMembers(lib, key, values[1..]);
      assert values == [values[0]] + values[1..];
    }
  }

  ghost predicate SameMembers<T(!new)>(a: seq<T>, b: seq<T>) {
    forall x :: x in a <==> x in b
  }

  /** Both fail, or both filter alike and name the same packages. */
  ghost predicate SameFilter(lib: Lib, a: Result<Atom>, b: Result<Atom>) {
    && (a.Ok? <==> b.Ok?)
    && (a.Ok? && b.Ok? ==>
          && (a.value.Apps? <==> b.value.Apps?)
          && (a.value.Apps? ==> SameMembers(a.value.values, b.value.values))
          && forall e :: Eval(lib, a.value, e) == Eval(lib, b.value, e))
  }

  /** The items of a comma list may be permuted and repeated: the token compiles or fails alike,
      filters alike and names the same packages. Items are any text without a comma, negated,
      blank or not. */
  lemma ListOrderIrrelevant(lib: Lib, negate: bool, key: string, xs: seq<string>, ys: seq<string>)
    requires IsKey(key) && xs != [] && ys != [] && SameMembers(xs, ys)
    requires forall x :: x in xs ==> ',' !in x
    ensures SameFilter(lib, BuildAtom(lib, KeyToken(negate, key, Join(xs, ","))), BuildAtom(lib, KeyToken(negate, key, Join(ys, ","))))
  {
    KeyedToken(lib, negate, key, Join(xs, ","));
    KeyedToken(lib, negate, key, Join(ys, ","));
    SplitJoin(xs, ',');
    SplitJoin(ys, ',');
    var us, vs := ReadValues(xs), ReadValues(ys);
    forall v
      ensures v in us <==> v in vs
    {
      ReadValuesMembers(xs, v);
      ReadValuesMembers(ys, v);
    }
    SameValuesSameAtom(lib, negate, ToLower(lib.lower, key), us, vs);
  }

  lemma SameValuesSameAtom(lib: Lib, negate: bool, name: string, us: seq<RawValue>, vs: seq<RawValue>)
    requires SameMembers(us, vs)
    ensures SameFilter(lib, BuildKeyed(lib, negate, name, us), BuildKeyed(lib, negate, name, vs))
  {
    assert us == [] <==> vs == [] by {
      if us != [] {
        assert us[0] in vs;
      }
      if vs != [] {
        assert vs[0] in us;
      }
    }
    if us != [] && KeyOf(name).Some? {
      var key := KeyOf(name).value;
      FirstBadMembers(lib, key, us);
      FirstBadMembers(lib, key, vs);
      forall e
        ensures Combine(lib, key, us, e) == Combine(lib, key, vs, e)
      {
      }
    }
  }

  /** A value that reads as itself and is not negated. */
  ghost predicate IsPlain(v: string) {
    v != "" && ',' !in v && v[0] != '!' && !IsSpace(v[0]) && !IsSpace(v[|v| - 1])
  }

  function Bang(vs: seq<string>): seq<string> {
    seq(|vs|, i requires 0 <= i < |vs| => "!" + vs[i])
  }

  function AsValues(vs: seq<string>, negate: bool): seq<RawValue> {
    seq(|vs|, i requires 0 <= i < |vs| => RawValue(vs[i], negate))
  }

  lemma PlainReads(v: string)
    requires IsPlain(v)
    ensures ReadValue(v) == Some(RawValue(v, false)) && ReadValue("!" + v) == Some(RawValue(v, true))
  {
    assert Trim(v) == v;
    var b := "!" + v;
    assert b[|b| - 1] == v[|v| - 1] && !IsSpace('!');
    assert Trim(b) == b && b[1..] == v;
  }

  lemma {:induction false} PlainListReads(vs: seq<string>)
    requires forall v :: v in vs ==> IsPlain(v)
    ensures ReadValues(vs) == AsValues(vs, false)
    decreases |vs|
  {
    if vs != [] {
      var front, last := vs[..|vs| - 1], vs[|vs| - 1];
      PlainListReads(front);
      PlainReads(last);
      assert vs == front + [last];
      assert AsValues(vs, false) == AsValues(front, false) + [RawValue(last, false)];
    }
  }

  lemma {:induction false} NegatedListReads(vs: seq<string>)
    requires forall v :: v in vs ==> IsPlain(v)
    ensures ReadValues(Bang(vs)) == AsValues(vs, true)
    decreases |vs|
  {
    if vs != [] {
      var front, last := vs[..|vs| - 1], vs[|vs| - 1];
      NegatedListReads(front);
      PlainReads(last);
      assert Bang(vs) == Bang(front) + ["!" + last];
      assert AsValues(vs, true) == AsValues(front, true) + [RawValue(last, true)];
    }
  }

  /** Some value of the list hits the row. */
  predicate HitsSome(lib: Lib, key: Key, values: seq<RawValue>, e: Entry) {
    exists i :: 0 <= i < |values| && Hits(lib, key, values[i].value, e)
  }

  /** A list of one polarity: one hit is needed, or none is allowed. */
  lemma CombineUniform(lib: Lib, key: Key, vs: seq<string>, negate: bool, e: Entry)
    requires vs != []
    ensures Combine(lib, key, AsValues(vs, negate), e) <==> HitsSome(lib, key, AsValues(vs, negate), e) != negate
  {
    var values := AsValues(vs, negate);
    assert values[0] in values;
    if HitsSome(lib, key, values, e) {
      var i :| 0 <= i < |values| && Hits(lib, key, values[i].value, e);
      assert values[i] in values;
    }
  }

  /** De Morgan over one list: negating the alternatives one by one is negating their choice. */
  lemma NegatedValues(lib: Lib, key: Key, vs: seq<string>, e: Entry)
    requires vs != []
    ensures Combine(lib, key, AsValues(vs, true), e) <==> !Combine(lib, key, AsValues(vs, false), e)
  {
    CombineUniform(lib, key, vs, true, e);
    CombineUniform(lib, key, vs, false, e);
    assert forall i :: 0 <= i < |vs| ==> AsValues(vs, true)[i].value == AsValues(vs, false)[i].value;
  }

  // ---- Level ranges ----------------------------------------------------------------------

  ghost predicate Letters(s: string) {
    forall i :: 0 <= i < |s| ==> 'a' <= s[i] <= 'z'
  }

  /** The name of level `n`, in small letters. */
  predicate NamesLevel(a: string, n: nat) {
    LevelFromToken(a) == Some(At(n))
  }

  lemma LettersStay(lib: Lib, a: string)
    requires IsCaseMap(lib.lower) && Letters(a)
    ensures ToLower(lib.lower, a) == a
  {
  }

  lemma LettersPlain(a: string)
    requires Letters(a)
    ensures ',' !in a && IndexOf(a, "..", 0) == None
  {
    forall j | 0 <= j
      ensures !OccursAt(a, "..", j)
    {
      assert 0 <= j < |a| ==> a[j] != '.';
    }
    IndexOfMeaning(a, "..", 0);
  }

  lemma RangeSplits(a: string, b: string)
    requires Letters(a) && Letters(b)
    ensures SplitDots(a + ".." + b) == [a, b] && SplitDots(a) == [a]
  {
    var range := a + ".." + b;
    LettersPlain(a);
    LettersPlain(b);
    assert range[|a|..|a| + 2] == "..";
    assert OccursAt(range, "..", |a|);
    forall j | 0 <= j < |a|
      ensures !OccursAt(range, "..", j)
    {
      assert range[j] == a[j] && range[j..j + 2][0] == range[j];
    }
    IndexOfMeaning(range, "..", 0);
    assert range[..|a|] == a && range[|a| + 2..] == b;
  }

  /** One end of a range: a level's name, or nothing for the outermost level on that side. */
  predicate IsEnd(a: string, n: nat, open: nat) {
    if a == "" then n == open else NamesLevel(a, n)
  }

  lemma EndReads(lib: Lib, a: string, n: nat, open: nat)
    requires IsCaseMap(lib.lower) && IsEnd(a, n, open)
    ensures Letters(a) && (a != "" ==> LevelFromToken(ToLower(lib.lower, a)) == Some(At(n)))
  {
    if a != "" {
      LettersStay(lib, a);
    }
  }

  lemma RangeParses(lib: Lib, a: string, x: nat, b: string, y: nat)
    requires IsCaseMap(lib.lower) && IsEnd(a, x, 0) && IsEnd(b, y, 6)
    ensures ParseLevelRange(lib, a + ".." + b) == Some(Range(At(x), At(y)))
    ensures a != "" ==> ParseLevelRange(lib, a) == Some(Range(At(x), At(x)))
    ensures Letters(a) && Letters(b)
  {
    EndReads(lib, a, x, 0);
    EndReads(lib, b, y, 6);
    RangeSplits(a, b);
  }

  lemma OneValueReads(v: string)
    requires IsPlain(v)
    ensures ReadValues(SplitOn(v, ',')) == AsValues([v], false)
  {
    SplitPlain(v, ',');
    PlainListReads([v]);
  }

  lemma OneValueAtom(lib: Lib, key: Key, v: string, e: Entry)
    ensures Eval(lib, Keyed(false, key, AsValues([v], false)), e) <==> Hits(lib, key, v, e)
  {
    CombineUniform(lib, key, [v], false, e);
    assert AsValues([v], false)[0].value == v;
  }

  lemma OneValueBuilds(lib: Lib, name: string, key: Key, v: string)
    requires KeyOf(name) == Some(key) && WellFormed(lib, key, v)
    ensures BuildKeyed(lib, false, name, AsValues([v], false)) == Ok(Keyed(false, key, AsValues([v], false)))
  {
    var values := AsValues([v], false);
    assert |values| == 1 && values[0].value == v && values[1..] == [];
    assert FirstBad(lib, key, values[1..]) == None;
    assert FirstBad(lib, key, values) == None;
    assert name != "app";
  }

  /** `level:` and a value. */
  function LevelAtom(lib: Lib, v: string): Result<Atom> {
    BuildAtom(lib, KeyToken(false, "level", v))
  }

  lemma LevelAtomBuilds(lib: Lib, v: string)
    requires IsCaseMap(lib.lower) && IsPlain(v)
    ensures LevelAtom(lib, v) == BuildKeyed(lib, false, "level", AsValues([v], false))
  {
    LettersStay(lib, "level");
    KeyedToken(lib, false, "level", v);
    OneValueReads(v);
  }

  /** The value decides whether the token is taken, and which rows it meets. */
  lemma LevelToken(lib: Lib, v: string)
    requires IsCaseMap(lib.lower) && IsPlain(v)
    ensures LevelAtom(lib, v).Ok? <==> ParseLevelRange(lib, v).Some?
    ensures LevelAtom(lib, v).Ok? ==> forall e :: Eval(lib, LevelAtom(lib, v).value, e) <==> Hits(lib, Level, v, e)
  {
    LevelAtomBuilds(lib, v);
    if ParseLevelRange(lib, v).Some? {
      OneValueBuilds(lib, "level", Level, v);
      forall e
        ensures Eval(lib, LevelAtom(lib, v).value, e) <==> Hits(lib, Level, v, e)
      {
        OneValueAtom(lib, Level, v, e);
      }
    } else {
      assert AsValues([v], false)[0].value == v && |AsValues([v], false)| == 1;
    }
  }

  /** `level:lo..hi` accepts exactly the levels from `lo` to `hi`; either end may be left open. */
  lemma LevelRangeMeaning(lib: Lib, a: string, x: nat, b: string, y: nat, e: Entry)
    requires IsCaseMap(lib.lower) && IsEnd(a, x, 0) && IsEnd(b, y, 6)
    ensures var range := LevelAtom(lib, a + ".." + b); range.Ok? && (Eval(lib, range.value, e) <==> x <= e.level <= y)
  {
    RangeParses(lib, a, x, b, y);
    RangeIsPlain(a, b);
    LevelToken(lib, a + ".." + b);
  }

  lemma RangeIsPlain(a: string, b: string)
    requires Letters(a) && Letters(b)
    ensures IsPlain(a + ".." + b) && (a != "" ==> IsPlain(a))
  {
    LettersPlain(a);
    LettersPlain(b);
    var range := a + ".." + b;
    assert range[0] == (if a == "" then '.' else a[0]) && range[|range| - 1] == (if b == "" then '.' else b[|b| - 1]);
  }

  /** `level:lo` accepts exactly `lo`. */
  lemma LevelMeaning(lib: Lib, a: string, x: nat, e: Entry)
    requires IsCaseMap(lib.lower) && NamesLevel(a, x)
    ensures var one := LevelAtom(lib, a); one.Ok? && (Eval(lib, one.value, e) <==> e.level == x)
  {
    RangeParses(lib, a, x, "", 6);
    RangeIsPlain(a, "");
    LevelToken(lib, a);
  }

  /** One of the names of the seven levels. */
  predicate IsLevelName(a: string) {
    exists n: nat :: n <= 6 && NamesLevel(a, n)
  }

  lemma LevelFromTokenExactly(a: string)
    ensures LevelFromToken(a).Some? <==> IsLevelName(a) || a == "constructor" || a == "__proto__"
    ensures LevelFromToken(a) == Some(Never) <==> a == "constructor" || a == "__proto__"
  {
    if LevelFromToken(a).Some? && LevelFromToken(a).value.At? {
      assert NamesLevel(a, LevelFromToken(a).value.n);
    }
  }

  /** The parts of a level value, as `split("..")` gives them: joined by `..` they are the value, and
      none of them holds one. */
  lemma {:induction false} SplitDotsMeaning(s: string)
    ensures Join(SplitDots(s), "..") == s && forall p :: p in SplitDots(s) ==> !Contains(p, "..")
    decreases |s|
  {
    IndexOfMeaning(s, "..", 0);
    if IndexOf(s, "..", 0).Some? {
      var i := IndexOf(s, "..", 0).value;
      SplitDotsMeaning(s[i + 2..]);
      FirstPartHoldsNone(s, i);
      JoinFirst(s[..i], SplitDots(s[i + 2..]));
      AtDots(s, i);
    } else {
      assert !Contains(s, "..");
    }
  }

  lemma JoinFirst(first: string, rest: seq<string>)
    requires rest != []
    ensures Join([first] + rest, "..") == first + ".." + Join(rest, "..")
  {
    assert ([first] + rest)[1..] == rest;
  }

  lemma AtDots(s: string, i: nat)
    requires OccursAt(s, "..", i)
    ensures s[..i] + ".." + s[i + 2..] == s
  {
    assert s == s[..i] + s[i..i + 2] + s[i + 2..];
  }

  lemma FirstPartHoldsNone(s: string, i: nat)
    requires OccursAt(s, "..", i) && forall j :: 0 <= j < i ==> !OccursAt(s, "..", j)
    ensures !Contains(s[..i], "..")
  {
    forall j | 0 <= j <= i
      ensures !OccursAt(s[..i], "..", j)
    {
      if j + 2 <= i {
        assert s[..i][j..j + 2] == s[j..j + 2];
        assert !OccursAt(s, "..", j);
      }
    }
  }

  /** What one part of a level value says: a level, nothing that a row can meet, or no bound at all.
      A part may be left out of a range only. */
  function EndBound(lib: Lib, part: string, ranged: bool, open: nat): Option<Bound> {
    if ranged && part == "" then Some(At(open)) else LevelFromToken(ToLower(lib.lower, part))
  }

  lemma ParseParts(lib: Lib, v: string)
    ensures var parts := SplitDots(v);
            var lo, hi := EndBound(lib, parts[0], |parts| == 2, 0), EndBound(lib, parts[|parts| - 1], |parts| == 2, 6);
            ParseLevelRange(lib, v) == if |parts| <= 2 && lo.Some? && hi.Some? then Some(Range(lo.value, hi.value)) else None
  {
  }

  /** A part that is taken: left out, a level's name, or one of two property names that every object
      inherits. */
  predicate PartTaken(lib: Lib, part: string, ranged: bool) {
    var low := ToLower(lib.lower, part);
    (ranged && part == "") || IsLevelName(low) || low == "constructor" || low == "__proto__"
  }

  /** A part that stands for level `n`. */
  predicate PartMeans(lib: Lib, part: string, ranged: bool, open: nat, n: nat) {
    if ranged && part == "" then n == open else n <= 6 && NamesLevel(ToLower(lib.lower, part), n)
  }

  /** The value stands for the levels from `x` to `y`. */
  predicate ValueMeans(lib: Lib, v: string, x: nat, y: nat) {
    var parts := SplitDots(v);
    PartMeans(lib, parts[0], |parts| == 2, 0, x) && PartMeans(lib, parts[|parts| - 1], |parts| == 2, 6, y)
  }

  lemma PartExactly(lib: Lib, part: string, ranged: bool, open: nat)
    requires open <= 6
    ensures EndBound(lib, part, ranged, open).Some? <==> PartTaken(lib, part, ranged)
    ensures forall n: nat :: EndBound(lib, part, ranged, open) == Some(At(n)) <==> PartMeans(lib, part, ranged, open, n)
  {
    var low := ToLower(lib.lower, part);
    LevelFromTokenExactly(low);
    forall n: nat | EndBound(lib, part, ranged, open) == Some(At(n))
      ensures PartMeans(lib, part, ranged, open, n)
    {
      if !(ranged && part == "") {
        assert NamesLevel(low, n) && n <= 6;
      }
    }
  }

  /** A value behind `level:`, whatever it is: it is taken if and only if it has at most two parts and
      all of them are taken; and then it can meet a row if and only if both ends stand for levels,
      the lower one not above the upper. */
  lemma LevelValueExactly(lib: Lib, v: string)
    requires IsCaseMap(lib.lower) && IsPlain(v)
    ensures var parts := SplitDots(v); var ranged := |parts| == 2;
            && (LevelAtom(lib, v).Ok? <==> |parts| <= 2 && forall p :: p in parts ==> PartTaken(lib, p, ranged))
            && (LevelAtom(lib, v).Ok? ==>
                  ((exists e: Entry :: e.level <= 6 && Eval(lib, LevelAtom(lib, v).value, e)) <==>
                   exists x: nat, y: nat :: x <= y && ValueMeans(lib, v, x, y)))
  {
    var parts := SplitDots(v);
    var ranged := |parts| == 2;
    LevelToken(lib, v);
    ParseParts(lib, v);
    PartExactly(lib, parts[0], ranged, 0);
    PartExactly(lib, parts[|parts| - 1], ranged, 6);
    assert |parts| <= 2 ==> forall p :: p in parts <==> p == parts[0] || p == parts[|parts| - 1];
    if LevelAtom(lib, v).Ok? {
      SomeRowHits(lib, v);
    }
  }

  lemma SomeRowHits(lib: Lib, v: string)
    requires ParseLevelRange(lib, v).Some?
    ensures (exists e: Entry :: e.level <= 6 && Hits(lib, Level, v, e)) <==>
            exists x: nat, y: nat :: x <= y && ValueMeans(lib, v, x, y)
  {
    var parts := SplitDots(v);
    var ranged := |parts| == 2;
    ParseParts(lib, v);
    PartExactly(lib, parts[0], ranged, 0);
    PartExactly(lib, parts[|parts| - 1], ranged, 6);
    var r := ParseLevelRange(lib, v).value;
    if x: nat, y: nat :| x <= y && ValueMeans(lib, v, x, y) {
      assert x <= 6 && r == Range(At(x), At(y));
      assert Hits(lib, Level, v, Entry(x, 0, "", ""));
    }
    if e: Entry :| e.level <= 6 && Hits(lib, Level, v, e) {
      assert ValueMeans(lib, v, r.min.n, r.max.n);
    }
  }

  /** A single value is taken if and only if it names a level or is, in any case, `constructor` or
      `__proto__`; and a token that is taken can meet a row if and only if it names a level. */
  lemma SingleLevelExactly(lib: Lib, v: string)
    requires IsCaseMap(lib.lower) && IsPlain(v) && !Contains(v, "..")
    ensures var low := ToLower(lib.lower, v);
            && (LevelAtom(lib, v).Ok? <==> IsLevelName(low) || low == "constructor" || low == "__proto__")
            && (LevelAtom(lib, v).Ok? ==>
                  (IsLevelName(low) <==> exists e: Entry :: e.level <= 6 && Eval(lib, LevelAtom(lib, v).value, e)))
  {
    IndexOfMeaning(v, "..", 0);
    var parts := SplitDots(v);
    assert parts == [v] && parts[0] == v && v in parts;
    LevelValueExactly(lib, v);
    assert PartTaken(lib, v, false) <==> forall p :: p in parts ==> PartTaken(lib, p, false);
    if n: nat :| n <= 6 && NamesLevel(ToLower(lib.lower, v), n) {
      assert ValueMeans(lib, v, n, n);
    }
  }

  // ---- Inner and outer negation ----------------------------------------------------------

  ghost predicate SameOutcome(lib: Lib, a: Result<Atom>, b: Result<Atom>) {
    && (a.Err? ==> a == b)
    && (a.Ok? ==> b.Ok? && forall e :: Eval(lib, a.value, e) == Eval(lib, b.value, e))
  }

  lemma PlainListParses(vs: seq<string>)
    requires vs != [] && forall v :: v in vs ==> IsPlain(v)
    ensures ReadValues(SplitOn(Join(vs, ","), ',')) == AsValues(vs, false)
    ensures ReadValues(SplitOn(Join(Bang(vs), ","), ',')) == AsValues(vs, true)
  {
    forall b | b in Bang(vs)
      ensures ',' !in b
    {
      var i :| 0 <= i < |vs| && b == "!" + vs[i];
      assert vs[i] in vs;
    }
    SplitJoin(vs, ',');
    SplitJoin(Bang(vs), ',');
    PlainListReads(vs);
    NegatedListReads(vs);
  }

  /** `!key:a,b` and `key:!a,!b` are the same filter for the tag, msg, level and pid keys. */
  lemma OuterInnerNegation(lib: Lib, key: string, vs: seq<string>)
    requires IsKey(key) && KeyOf(ToLower(lib.lower, key)).Some?
    requires vs != [] && forall v :: v in vs ==> IsPlain(v)
    ensures SameOutcome(lib, BuildAtom(lib, KeyToken(true, key, Join(vs, ","))),
                             BuildAtom(lib, KeyToken(false, key, Join(Bang(vs), ","))))
  {
    KeyedToken(lib, true, key, Join(vs, ","));
    KeyedToken(lib, false, key, Join(Bang(vs), ","));
    PlainListParses(vs);
    NegatedBuild(lib, ToLower(lib.lower, key), vs);
  }

  lemma NegatedBuild(lib: Lib, name: string, vs: seq<string>)
    requires vs != [] && KeyOf(name).Some?
    ensures SameOutcome(lib, BuildKeyed(lib, true, name, AsValues(vs, false)), BuildKeyed(lib, false, name, AsValues(vs, true)))
  {
    var k := KeyOf(name).value;
    SameErrors(lib, k, vs);
    forall e
      ensures Combine(lib, k, AsValues(vs, true), e) == !Combine(lib, k, AsValues(vs, false), e)
    {
      NegatedValues(lib, k, vs, e);
    }
  }

  lemma {:induction false} SameErrors(lib: Lib, key: Key, vs: seq<string>)
    ensures FirstBad(lib, key, AsValues(vs, true)) == FirstBad(lib, key, AsValues(vs, false))
    decreases |vs|
  {
    if vs != [] {
      SameErrors(lib, key, vs[1..]);
      assert AsValues(vs, true)[1..] == AsValues(vs[1..], true);
      assert AsValues(vs, false)[1..] == AsValues(vs[1..], false);
    }
  }

  // ---- Tokens ----------------------------------------------------------------------------

  predicate IsBlank(c: char) {
    c == ' ' || c == '\t'
  }

  datatype Scanner = Scanner(out: seq<string>, buf: string, inQuote: bool)

  const EMPTY := Scanner([], "", false)

  function Step(k: Scanner, c: char): Scanner {
    if c == '"' then k.(inQuote := !k.inQuote)
    else if IsBlank(c) && !k.inQuote then Scanner(Finish(k), "", false)
    else k.(buf := k.buf + [c])
  }

  function Finish(k: Scanner): seq<string> {
    if k.buf == "" then k.out else k.out + [k.buf]
  }

  function Scan(k: Scanner, s: string): Scanner {
    if s == "" then k else Step(Scan(k, s[..|s| - 1]), s[|s| - 1])
  }

  function Tokens(s: string): seq<string> {
    Finish(Scan(EMPTY, s))
  }

  method Tokenize(input: string) returns (out: seq<string>)
    ensures out == Tokens(input)
  {
    out := [];
    var buf := "";
    var inQuote := false;
    for i := 0 to |input|
      invariant Scan(EMPTY, input[..i]) == Scanner(out, buf, inQuote)
    {
      var c := input[i];
      assert input[..i + 1][..i] == input[..i];
      if c == '"' {
        inQuote := !inQuote;
      } else if IsBlank(c) && !inQuote {
        if |buf| > 0 {
          out := out + [buf];
          buf := "";
        }
      } else {
        buf := buf + [c];
      }
    }
    assert input[..|input|] == input;
    if |buf| > 0 {
      out := out + [buf];
    }
  }

  function Quotes(s: string): nat {
    if s == "" then 0 else Quotes(s[..|s| - 1]) + if s[|s| - 1] == '"' then 1 else 0
  }

  lemma {:induction false} ScanConcat(k: Scanner, a: string, b: string)
    ensures Scan(k, a + b) == Scan(Scan(k, a), b)
    decreases |b|
  {
    if b == "" {
      assert a + b == a;
    } else {
      ScanConcat(k, a, b[..|b| - 1]);
      assert (a + b)[..|a + b| - 1] == a + b[..|b| - 1];
    }
  }

  /** What was pushed before plays no part in the rest. */
  lemma {:induction false} ScanOut(out: seq<string>, buf: string, q: bool, s: string)
    ensures var k, r := Scan(Scanner(out, buf, q), s), Scan(Scanner([], buf, q), s);
            k == r.(out := out + r.out)
    decreases |s|
  {
    if s == "" {
      assert out + [] == out;
    } else {
      ScanOut(out, buf, q, s[..|s| - 1]);
      var r := Scan(Scanner([], buf, q), s[..|s| - 1]);
      assert out + (r.out + [r.buf]) == out + r.out + [r.buf];
    }
  }

  lemma {:induction false} QuoteParity(s: string)
    ensures Scan(EMPTY, s).inQuote <==> Quotes(s) % 2 == 1
    decreases |s|
  {
    if s != "" {
      QuoteParity(s[..|s| - 1]);
    }
  }

  lemma TokensJuxtapose(s1: string, s2: string)
    requires Quotes(s1) % 2 == 0
    ensures Tokens(s1 + " " + s2) == Tokens(s1) + Tokens(s2)
  {
    QuoteParity(s1);
    ScanConcat(EMPTY, s1 + " ", s2);
    ScanOut(Tokens(s1), "", false, s2);
    var r := Scan(EMPTY, s2);
    Assoc(Tokens(s1), r.out, [r.buf]);
  }

  /** A first expression leaves every second one alone if and only if its quotes are balanced. */
  lemma JuxtaposeExactly(s1: string)
    ensures (forall s2 :: Tokens(s1 + " " + s2) == Tokens(s1) + Tokens(s2)) <==> Quotes(s1) % 2 == 0
  {
    QuoteParity(s1);
    if Quotes(s1) % 2 == 0 {
      forall s2
        ensures Tokens(s1 + " " + s2) == Tokens(s1) + Tokens(s2)
      {
        TokensJuxtapose(s1, s2);
      }
    } else {
      var k := Scan(EMPTY, s1);
      assert s1 + " " + "" == s1 + " ";
      assert Tokens(s1 + " ") == k.out + [k.buf + " "];
      assert Tokens("") == [];
      assert Tokens(s1) + Tokens("") == Tokens(s1);
      assert |Tokens(s1)| == |k.out| + 1 ==> Tokens(s1)[|k.out|] == k.buf;
      assert (k.out + [k.buf + " "])[|k.out|] == k.buf + " ";
      assert Tokens(s1 + " " + "") != Tokens(s1) + Tokens("");
    }
  }

  function Quote(t: string): string {
    "\"" + t + "\""
  }

  function QuoteAll(ts: seq<string>): seq<string> {
    seq(|ts|, i requires 0 <= i < |ts| => Quote(ts[i]))
  }

  lemma {:induction false} ScanQuoted(k: Scanner, t: string)
    requires k.inQuote && '"' !in t
    ensures Scan(k, t) == k.(buf := k.buf + t)
    decreases |t|
  {
    if t == "" {
      assert k.buf + t == k.buf;
    } else {
      ScanQuoted(k, t[..|t| - 1]);
      assert k.buf + t[..|t| - 1] + [t[|t| - 1]] == k.buf + t;
    }
  }

  lemma TokenOfQuoted(t: string)
    requires t != "" && '"' !in t
    ensures Tokens(Quote(t)) == [t] && Quotes(Quote(t)) % 2 == 0
  {
    var open := "\"" + t;
    assert Scan(EMPTY, "\"") == Step(Scan(EMPTY, ""), '"') by {
      assert "\""[..0] == "";
    }
    ScanConcat(EMPTY, "\"", t);
    ScanQuoted(Scanner([], "", true), t);
    assert Quote(t)[..|Quote(t)| - 1] == open;
    assert "" + t == t;
    assert Scan(EMPTY, Quote(t)) == Scanner([], t, false);
    QuoteParity(Quote(t));
  }

  lemma JoinQuoted(ts: seq<string>)
    requires |ts| > 1
    ensures Join(QuoteAll(ts), " ") == Quote(ts[0]) + " " + Join(QuoteAll(ts[1..]), " ")
  {
    assert QuoteAll(ts)[1..] == QuoteAll(ts[1..]);
  }

  /** Quoting is undone by tokenizing, whatever blanks the tokens hold. */
  lemma {:induction false} QuotedRoundTrip(ts: seq<string>)
    requires forall t :: t in ts ==> t != "" && '"' !in t
    ensures Tokens(Join(QuoteAll(ts), " ")) == ts
    decreases |ts|
  {
    assert ts != [] ==> ts[0] in ts;
    assert forall t :: ts != [] && t in ts[1..] ==> t in ts;
    if |ts| == 1 {
      TokenOfQuoted(ts[0]);
    } else if |ts| > 1 {
      QuotedRoundTrip(ts[1..]);
      TokenOfQuoted(ts[0]);
      JoinQuoted(ts);
      TokensJuxtapose(Quote(ts[0]), Join(QuoteAll(ts[1..]), " "));
      assert [ts[0]] + ts[1..] == ts;
    }
  }

  // ---- Compiling -------------------------------------------------------------------------

  datatype AppRef = AppRef(pkg: string, negate: bool)

  datatype Filter = Filter(atoms: seq<Atom>, apps: seq<AppRef>)

  function AppRefs(a: Atom): seq<AppRef> {
    if a.Apps? then seq(|a.values|, i requires 0 <= i < |a.values| => AppRef(a.values[i].value, a.values[i].negate)) else []
  }

  function BuildAll(lib: Lib, tokens: seq<string>): Result<Filter> {
    if tokens == [] then Ok(Filter([], []))
    else
      match BuildAll(lib, tokens[..|tokens| - 1])
      case Err(error) => Err(error)
      case Ok(f) =>
        match BuildAtom(lib, tokens[|tokens| - 1])
        case Err(error) => Err(error)
        case Ok(a) => Ok(Extend(f, a))
  }

  function Extend(f: Filter, a: Atom): Filter {
    Filter(f.atoms + [a], f.apps + AppRefs(a))
  }

  function Both(f: Filter, g: Filter): Filter {
    Filter(f.atoms + g.atoms, f.apps + g.apps)
  }

  function Compile(lib: Lib, input: string): Result<Filter> {
    BuildAll(lib, Tokens(Trim(input)))
  }

  predicate Accepts(lib: Lib, f: Filter, e: Entry) {
    forall i :: 0 <= i < |f.atoms| ==> Eval(lib, f.atoms[i], e)
  }

  lemma BuildAllRound(lib: Lib, tokens: seq<string>, i: nat)
    requires i < |tokens| && BuildAll(lib, tokens[..i]).Ok?
    ensures BuildAll(lib, tokens[..i + 1])
         == match BuildAtom(lib, tokens[i]) case Err(error) => Err(error) case Ok(a) => Ok(Extend(BuildAll(lib, tokens[..i]).value, a))
  {
    assert tokens[..i + 1][..i] == tokens[..i];
  }

  method CompileLogcatFilter(lib: Lib, input: string) returns (r: Result<Filter>)
    ensures r == Compile(lib, input)
  {
    var trimmed := Trim(input);
    if trimmed == "" {
      return Ok(Filter([], []));
    }
    var tokens := Tokenize(trimmed);
    var atoms: seq<Atom>, apps := [], [];
    for i := 0 to |tokens|
      invariant BuildAll(lib, tokens[..i]) == Ok(Filter(atoms, apps))
    {
      BuildAllRound(lib, tokens, i);
      var a := BuildAtom(lib, tokens[i]);
      if a.Err? {
        BuildAllPrefix(lib, tokens, i + 1);
        return Err(a.error);
      }
      atoms := atoms + [a.value];
      apps := apps + AppRefs(a.value);
    }
    assert tokens[..|tokens|] == tokens;
    r := Ok(Filter(atoms, apps));
  }

  /** The first bad token decides. */
  lemma {:induction false} BuildAllPrefix(lib: Lib, tokens: seq<string>, n: nat)
    requires n <= |tokens| && BuildAll(lib, tokens[..n]).Err?
    ensures BuildAll(lib, tokens) == BuildAll(lib, tokens[..n])
    decreases |tokens|
  {
    if n == |tokens| {
      assert tokens[..n] == tokens;
    } else {
      var front := tokens[..|tokens| - 1];
      assert front[..n] == tokens[..n];
      BuildAllPrefix(lib, front, n);
    }
  }

  /** The juxtaposition of two filters. */
  ghost predicate IsConjunction(lib: Lib, both: Result<Filter>, f: Result<Filter>, g: Result<Filter>) {
    && (both.Ok? <==> f.Ok? && g.Ok?)
    && (f.Err? ==> both == f)
    && (f.Ok? && g.Err? ==> both == g)
    && (both.Ok? ==>
          && both.value.apps == f.value.apps + g.value.apps
          && forall e :: Accepts(lib, both.value, e) <==> Accepts(lib, f.value, e) && Accepts(lib, g.value, e))
  }

  lemma BothExtend(f: Filter, g: Filter, a: Atom)
    ensures Extend(Both(f, g), a) == Both(f, Extend(g, a))
    ensures Both(f, Filter([], [])) == f
  {
    assert f.atoms + g.atoms + [a] == f.atoms + (g.atoms + [a]);
    assert f.apps + g.apps + AppRefs(a) == f.apps + (g.apps + AppRefs(a));
  }

  function Juxtaposed(f: Result<Filter>, g: Result<Filter>): Result<Filter> {
    if f.Err? then f else if g.Err? then g else Ok(Both(f.value, g.value))
  }

  lemma {:induction false} BuildAllConcat(lib: Lib, a: seq<string>, b: seq<string>)
    ensures BuildAll(lib, a + b) == Juxtaposed(BuildAll(lib, a), BuildAll(lib, b))
    decreases |b|
  {
    var f := BuildAll(lib, a);
    if b == [] {
      assert a + b == a;
      if f.Ok? {
        BothExtend(f.value, Filter([], []), Everything);
      }
    } else {
      var front, t := b[..|b| - 1], b[|b| - 1];
      BuildAllConcat(lib, a, front);
      assert (a + b)[..|a + b| - 1] == a + front;
      var g, c := BuildAll(lib, front), BuildAtom(lib, t);
      if f.Ok? && g.Ok? && c.Ok? {
        BothExtend(f.value, g.value, c.value);
      }
    }
  }

  lemma AcceptsBoth(lib: Lib, f: Filter, g: Filter, e: Entry)
    ensures Accepts(lib, Both(f, g), e) <==> Accepts(lib, f, e) && Accepts(lib, g, e)
  {
    var h := Both(f, g);
    assert forall i :: 0 <= i < |f.atoms| ==> h.atoms[i] == f.atoms[i];
    assert forall i :: 0 <= i < |g.atoms| ==> h.atoms[|f.atoms| + i] == g.atoms[i];
    if Accepts(lib, h, e) {
      forall i | 0 <= i < |g.atoms|
        ensures Eval(lib, g.atoms[i], e)
      {
        assert Eval(lib, h.atoms[|f.atoms| + i], e);
      }
    }
  }

  lemma BuildAllConjunction(lib: Lib, a: seq<string>, b: seq<string>)
    ensures IsConjunction(lib, BuildAll(lib, a + b), BuildAll(lib, a), BuildAll(lib, b))
  {
    var f, g := BuildAll(lib, a), BuildAll(lib, b);
    BuildAllConcat(lib, a, b);
    if f.Ok? && g.Ok? {
      forall e
        ensures Accepts(lib, Both(f.value, g.value), e) <==> Accepts(lib, f.value, e) && Accepts(lib, g.value, e)
      {
        AcceptsBoth(lib, f.value, g.value, e);
      }
    }
  }

  // ---- Trimming in front of tokenizing ---------------------------------------------------

  /** The white space at the start, and at the end. */
  function Lead(s: string): string {
    if s != "" && IsSpace(s[0]) then [s[0]] + Lead(s[1..]) else ""
  }

  function Tail(s: string): string {
    if s != "" && IsSpace(s[|s| - 1]) then Tail(s[..|s| - 1]) + [s[|s| - 1]] else ""
  }

  ghost predicate AllSpace(s: string) {
    forall c :: c in s ==> IsSpace(c)
  }

  /** Nothing but spaces and tabs, the characters that separate tokens. */
  ghost predicate AllBlank(s: string) {
    forall c :: c in s ==> c == ' ' || c == '\t'
  }

  lemma {:induction false} LeadSplits(s: string)
    ensures s == Lead(s) + TrimLeft(s) && AllSpace(Lead(s))
    ensures TrimLeft(s) != "" ==> !IsSpace(TrimLeft(s)[0])
  {
    if s != "" && IsSpace(s[0]) {
      LeadSplits(s[1..]);
      Assoc([s[0]], Lead(s[1..]), TrimLeft(s[1..]));
      assert s == [s[0]] + s[1..];
    }
  }

  lemma {:induction false} TailSplits(s: string)
    ensures s == TrimRight(s) + Tail(s) && AllSpace(Tail(s))
    decreases |s|
  {
    if s != "" && IsSpace(s[|s| - 1]) {
      var front, last := s[..|s| - 1], s[|s| - 1];
      TailSplits(front);
      Assoc(TrimRight(front), Tail(front), [last]);
      assert s == front + [last];
    }
  }

  lemma {:induction false} TrimLeftOfTwo(a: string, b: string)
    ensures TrimLeft(a + b) == if TrimLeft(a) == "" then TrimLeft(b) else TrimLeft(a) + b
    decreases |a|
  {
    if a == "" {
      assert a + b == b;
    } else if IsSpace(a[0]) {
      TrimLeftOfTwo(a[1..], b);
      assert (a + b)[1..] == a[1..] + b;
    }
  }

  lemma {:induction false} TrimRightOfTwo(a: string, b: string)
    ensures TrimRight(a + b) == if TrimRight(b) == "" then TrimRight(a) else a + TrimRight(b)
    ensures TrimRight(b) != "" ==> Tail(a + b) == Tail(b)
    decreases |b|
  {
    if b == "" {
      assert a + b == a;
    } else {
      assert (a + b)[|a + b| - 1] == b[|b| - 1];
      if IsSpace(b[|b| - 1]) {
        TrimRightOfTwo(a, b[..|b| - 1]);
        assert (a + b)[..|a + b| - 1] == a + b[..|b| - 1];
      }
    }
  }

  lemma {:induction false} SpaceTrims(s: string)
    requires AllSpace(s)
    ensures TrimRight(s) == ""
    decreases |s|
  {
    if s != "" {
      SpaceTrims(s[..|s| - 1]);
    }
  }

  /** What trims to nothing is white space throughout. */
  lemma TrimsToNothing(s: string)
    ensures Trim(s) == "" <==> TrimLeft(s) == ""
    ensures Trim(s) == "" ==> AllSpace(s)
  {
    var t := TrimLeft(s);
    LeadSplits(s);
    if t != "" {
      assert t == [t[0]] + t[1..];
      TrimRightOfTwo([t[0]], t[1..]);
      assert [t[0]][..0] == "";
    }
  }

  lemma TrimParts(s: string)
    requires Trim(s) != ""
    ensures s == Lead(s) + Trim(s) + Tail(s) && TrimLeft(s) == Trim(s) + Tail(s)
  {
    LeadSplits(s);
    TailSplits(TrimLeft(s));
    TrimRightOfTwo(Lead(s), TrimLeft(s));
    Assoc(Lead(s), Trim(s), Tail(s));
  }

  lemma TrimLeftAcross(s1: string, s2: string)
    ensures TrimLeft(s1 + " " + s2) == if TrimLeft(s1) == "" then TrimLeft(s2) else TrimLeft(s1) + (" " + s2)
  {
    Assoc(s1, " ", s2);
    TrimLeftOfTwo(s1, " " + s2);
    assert (" " + s2)[1..] == s2 && IsSpace(' ');
  }

  lemma TrimSecondBlank(s1: string, s2: string)
    requires Trim(s1) != "" && Trim(s2) == ""
    ensures Trim(s1 + " " + s2) == Trim(s1)
  {
    TrimsToNothing(s1);
    TrimsToNothing(s2);
    TrimLeftAcross(s1, s2);
    assert AllSpace(" " + s2);
    SpaceTrims(" " + s2);
    TrimRightOfTwo(TrimLeft(s1), " " + s2);
  }

  lemma TrimBoth(s1: string, s2: string)
    requires Trim(s1) != "" && Trim(s2) != ""
    ensures Trim(s1 + " " + s2) == Trim(s1) + (Tail(s1) + " " + Lead(s2)) + Trim(s2)
  {
    TrimsToNothing(s1);
    TrimLeftAcross(s1, s2);
    TrimParts(s1);
    LeadSplits(s2);
    var mid := Tail(s1) + " " + Lead(s2);
    CutAgain(Trim(s1), Tail(s1), Lead(s2), TrimLeft(s2));
    TrimRightOfTwo(Trim(s1) + mid, TrimLeft(s2));
  }

  lemma CutAgain(a: string, b: string, c: string, d: string)
    ensures a + b + (" " + (c + d)) == a + (b + " " + c) + d
  {
  }

  /** Two texts side by side are trimmed at the outer ends only. */
  lemma TrimOfTwo(s1: string, s2: string)
    ensures Trim(s1) == "" ==> Trim(s1 + " " + s2) == Trim(s2)
    ensures Trim(s1) != "" && Trim(s2) == "" ==> Trim(s1 + " " + s2) == Trim(s1)
    ensures Trim(s1) != "" && Trim(s2) != "" ==>
              Trim(s1 + " " + s2) == Trim(s1) + (Tail(s1) + " " + Lead(s2)) + Trim(s2)
  {
    if Trim(s1) == "" {
      TrimsToNothing(s1);
      TrimLeftAcross(s1, s2);
    } else if Trim(s2) == "" {
      TrimSecondBlank(s1, s2);
    } else {
      TrimBoth(s1, s2);
    }
  }

  lemma {:induction false} QuotesConcat(a: string, b: string)
    ensures Quotes(a + b) == Quotes(a) + Quotes(b)
    decreases |b|
  {
    if b == "" {
      assert a + b == a;
    } else {
      QuotesConcat(a, b[..|b| - 1]);
      assert (a + b)[..|a + b| - 1] == a + b[..|b| - 1];
    }
  }

  lemma {:induction false} NoQuotes(s: string)
    requires AllSpace(s)
    ensures Quotes(s) == 0
    decreases |s|
  {
    if s != "" {
      assert s[|s| - 1] in s;
      NoQuotes(s[..|s| - 1]);
    }
  }

  lemma TrimKeepsQuotes(s: string)
    ensures Quotes(Trim(s)) == Quotes(s)
  {
    TrimsToNothing(s);
    if Trim(s) == "" {
      NoQuotes(s);
    } else {
      TrimParts(s);
      LeadSplits(s);
      TailSplits(s);
      NoQuotes(Lead(s));
      NoQuotes(Tail(s));
      QuotesConcat(Lead(s) + Trim(s), Tail(s));
      QuotesConcat(Lead(s), Trim(s));
    }
  }

  /** The characters a scanner has kept. */
  function Size(k: Scanner): nat {
    |Concat(k.out)| + |k.buf|
  }

  lemma FinishSize(k: Scanner)
    ensures |Concat(Finish(k))| == Size(k)
  {
    ConcatSnoc(k.out, k.buf);
  }

  lemma {:induction false} SizeAdds(k: Scanner, s: string)
    ensures var r := Scan(Scanner([], "", k.inQuote), s);
            Scan(k, s).inQuote == r.inQuote && Size(Scan(k, s)) == Size(k) + Size(r)
    decreases |s|
  {
    if s == "" {
      assert Concat([]) == "";
    } else {
      SizeAdds(k, s[..|s| - 1]);
      FinishSize(Scan(k, s[..|s| - 1]));
      FinishSize(Scan(Scanner([], "", k.inQuote), s[..|s| - 1]));
    }
  }

  lemma BlankSnoc(front: string, last: char)
    ensures AllBlank(front + [last]) <==> AllBlank(front) && IsBlank(last)
  {
    var s := front + [last];
    assert s[|front|] == last && forall i :: 0 <= i < |front| ==> s[i] == front[i];
    if AllBlank(s) {
      assert last in s && forall c :: c in front ==> c in s;
    }
  }

  lemma SpaceOneMore(front: string, last: char)
    requires IsSpace(last) && !Scan(EMPTY, front).inQuote
    ensures !Scan(EMPTY, front + [last]).inQuote
    ensures Size(Scan(EMPTY, front + [last])) == Size(Scan(EMPTY, front)) + if IsBlank(last) then 0 else 1
  {
    assert (front + [last])[..|front|] == front;
    FinishSize(Scan(EMPTY, front));
  }

  /** Outside quotes white space is kept unless it is blank. */
  lemma {:induction false} SpaceSize(s: string)
    requires AllSpace(s)
    ensures !Scan(EMPTY, s).inQuote && (Size(Scan(EMPTY, s)) == 0 <==> AllBlank(s))
    decreases |s|
  {
    if s == "" {
      assert Concat([]) == "";
    } else {
      var front, last := s[..|s| - 1], s[|s| - 1];
      assert s == front + [last];
      SpaceSize(front);
      SpaceOneMore(front, last);
      BlankSnoc(front, last);
    }
  }

  lemma {:induction false} BlankRun(k: Scanner, s: string)
    requires !k.inQuote && (forall c :: c in s ==> IsBlank(c)) && s != ""
    ensures Scan(k, s) == Scanner(Finish(k), "", false)
    decreases |s|
  {
    assert s[|s| - 1] in s;
    if |s| == 1 {
      assert s[..0] == "";
    } else {
      assert forall c :: c in s[..|s| - 1] ==> c in s;
      BlankRun(k, s[..|s| - 1]);
    }
  }

  /** Text with balanced quotes, white space, more text. The tokens are those of both if and only if
      the white space is blank. */
  lemma TokensAcross(t1: string, mid: string, t2: string)
    requires Quotes(t1) % 2 == 0 && AllSpace(mid) && mid != ""
    ensures Tokens(t1 + mid + t2) == Tokens(t1) + Tokens(t2) <==> AllBlank(mid)
  {
    QuoteParity(t1);
    ScanConcat(EMPTY, t1, mid);
    ScanConcat(EMPTY, t1 + mid, t2);
    var k := Scan(EMPTY, t1);
    SpaceSize(mid);
    SizeAdds(k, mid);
    SizeAdds(Scan(k, mid), t2);
    FinishSize(k);
    FinishSize(Scan(EMPTY, t2));
    FinishSize(Scan(EMPTY, t1 + mid + t2));
    ConcatAppend(Tokens(t1), Tokens(t2));
    if AllBlank(mid) {
      BlankRun(k, mid);
      ScanOut(Tokens(t1), "", false, t2);
      Assoc(Tokens(t1), Scan(EMPTY, t2).out, [Scan(EMPTY, t2).buf]);
    }
  }

  /** The white space between two expressions separates tokens: none of it is a line break or any
      other kind that trimming drops but tokenizing keeps. */
  ghost predicate BlankBetween(s1: string, s2: string) {
    Trim(s1) == "" || Trim(s2) == "" || (AllBlank(Tail(s1)) && AllBlank(Lead(s2)))
  }

  /** What the compiler reads of `s1 s2`, the quotes of `s1` being balanced: the tokens of both, if
      and only if the white space between them is blank, or one of the two is white space only. */
  lemma TrimmedExactly(s1: string, s2: string)
    requires Quotes(s1) % 2 == 0 || Trim(s2) == ""
    ensures Tokens(Trim(s1 + " " + s2)) == Tokens(Trim(s1)) + Tokens(Trim(s2)) <==> BlankBetween(s1, s2)
  {
    TrimOfTwo(s1, s2);
    if Trim(s1) != "" && Trim(s2) != "" {
      var mid := Tail(s1) + " " + Lead(s2);
      TrimKeepsQuotes(s1);
      TailSplits(s1);
      LeadSplits(s2);
      assert ' ' in mid && forall c :: c in mid <==> c in Tail(s1) || c == ' ' || c in Lead(s2);
      TokensAcross(Trim(s1), mid, Trim(s2));
    } else {
      assert Tokens("") == [];
    }
  }

  lemma {:induction false} QuotedSpace(s: string)
    requires AllSpace(s)
    ensures Scan(Scanner([], "", true), s) == Scanner([], s, true)
    decreases |s|
  {
    if s != "" {
      var front, last := s[..|s| - 1], s[|s| - 1];
      assert last in s && forall c :: c in front ==> c in s;
      QuotedSpace(front);
      assert s == front + [last];
    }
  }

  /** Behind an open quote the separator becomes part of a token. */
  lemma OpenQuoteSwallows(s1: string, x: string)
    requires Quotes(s1) % 2 == 1 && x == "x"
    ensures Lead(x) == "" && Tokens(Trim(s1 + " " + x)) != Tokens(Trim(s1)) + Tokens(Trim(x))
  {
    assert x[1..] == "" && x[..0] == "" && TrimLeft(x) == x && Trim(x) == x && Lead(x) == "";
    TrimKeepsQuotes(s1);
    TrimOfTwo(s1, x);
    TailSplits(s1);
    OpenQuoteKeeps(Trim(s1), Tail(s1) + " " + Lead(x), x);
  }

  lemma OpenQuoteKeeps(t1: string, mid: string, x: string)
    requires Quotes(t1) % 2 == 1 && AllSpace(mid) && mid != "" && x == "x"
    ensures Tokens(t1 + mid + x) != Tokens(t1) + Tokens(x)
  {
    QuoteParity(t1);
    var k := Scan(EMPTY, t1);
    ScanConcat(EMPTY, t1, mid);
    ScanConcat(EMPTY, t1 + mid, x);
    QuotedSpace(mid);
    SizeAdds(k, mid);
    SizeAdds(Scan(k, mid), x);
    assert x[..0] == "" && Concat([]) == "";
    assert Scan(Scanner([], "", true), x) == Scanner([], "x", true) && Scan(EMPTY, x) == Scanner([], "x", false);
    FinishSize(k);
    FinishSize(Scan(EMPTY, x));
    FinishSize(Scan(EMPTY, t1 + mid + x));
    ConcatAppend(Tokens(t1), Tokens(x));
  }

  /** The compiler reads `s1 s2` as the tokens of both, for every second expression that starts with
      none but blank white space, if and only if `s1` is white space only, or its quotes are balanced
      and it ends in none but blank white space. */
  lemma TrimmedForAll(s1: string)
    ensures (forall s2 :: AllBlank(Lead(s2)) ==> Tokens(Trim(s1 + " " + s2)) == Tokens(Trim(s1)) + Tokens(Trim(s2)))
       <==> Trim(s1) == "" || (Quotes(s1) % 2 == 0 && AllBlank(Tail(s1)))
  {
    if Trim(s1) == "" {
      forall s2
        ensures Tokens(Trim(s1 + " " + s2)) == Tokens(Trim(s1)) + Tokens(Trim(s2))
      {
        TrimOfTwo(s1, s2);
        assert Tokens("") == [];
      }
    } else if Quotes(s1) % 2 == 0 {
      forall s2
        ensures Tokens(Trim(s1 + " " + s2)) == Tokens(Trim(s1)) + Tokens(Trim(s2)) <==> BlankBetween(s1, s2)
      {
        TrimmedExactly(s1, s2);
      }
      assert Trim("x") == "x" && Lead("x") == "" && AllBlank(Lead("x"));
      assert BlankBetween(s1, "x") <==> AllBlank(Tail(s1));
    } else {
      OpenQuoteSwallows(s1, "x");
    }
  }

  /** `s1 s2` filters by both expressions, fails when either does and asks for the packages of
      both, as long as the quotes of the first are balanced and the white space between them is
      blank. */
  lemma CompileJuxtapose(lib: Lib, s1: string, s2: string)
    requires (Quotes(s1) % 2 == 0 || Trim(s2) == "") && BlankBetween(s1, s2)
    ensures IsConjunction(lib, Compile(lib, s1 + " " + s2), Compile(lib, s1), Compile(lib, s2))
  {
    TrimmedExactly(s1, s2);
    BuildAllConjunction(lib, Tokens(Trim(s1)), Tokens(Trim(s2)));
  }

  lemma OneToken(w: string)
    requires w != "" && '"' !in w && forall c :: c in w ==> !IsBlank(c)
    ensures Tokens(w) == [w] && Quotes(w) == 0
  {
    ScanWord(w);
  }

  lemma ScanLetter(k: Scanner, s: string, c: char)
    requires Scan(EMPTY, s) == k && !k.inQuote && c != '"' && !IsBlank(c)
    ensures Scan(EMPTY, s + [c]) == k.(buf := k.buf + [c]) && Quotes(s + [c]) == Quotes(s)
  {
    assert (s + [c])[..|s|] == s;
  }

  lemma {:induction false} ScanWord(w: string)
    requires '"' !in w && forall c :: c in w ==> !IsBlank(c)
    ensures Scan(EMPTY, w) == Scanner([], w, false) && Quotes(w) == 0
    decreases |w|
  {
    if w != "" {
      var front, last := w[..|w| - 1], w[|w| - 1];
      assert last in w && forall c :: c in front ==> c in w;
      ScanWord(front);
      ScanLetter(Scanner([], front, false), front, last);
      assert w == front + [last];
    }
  }

  lemma OneBareword(lib: Lib, w: string)
    requires w != "" && ':' !in w && w[0] != '!' && w[0] != '~'
    ensures BuildAtom(lib, w) == Ok(Bareword(false, w))
  {
    forall j | 0 <= j
      ensures !OccursAt(w, ":", j)
    {
      assert j < |w| ==> w[j] in w && w[j..j + 1][0] == w[j];
    }
    IndexOfMeaning(w, ":", 0);
  }

  lemma BuildOne(lib: Lib, w: string)
    requires w != "" && ':' !in w && w[0] != '!' && w[0] != '~'
    ensures BuildAll(lib, [w]) == Ok(Filter([Bareword(false, w)], []))
  {
    OneBareword(lib, w);
    var tokens, atom := [w], Bareword(false, w);
    assert tokens[..0] == [];
    assert BuildAll(lib, tokens[..0]) == Ok(Filter([], []));
    assert BuildAll(lib, tokens) == Ok(Extend(Filter([], []), atom));
    ExtendNothing(atom);
  }

  lemma ExtendNothing(atom: Atom)
    requires !atom.Apps?
    ensures Extend(Filter([], []), atom) == Filter([atom], [])
  {
    assert AppRefs(atom) == [];
    var f: Filter := Filter([], []);
    assert f.atoms + [atom] == [atom] && f.apps + AppRefs(atom) == [];
  }

  lemma LineBreakTokens(s1: string, s2: string)
    requires s1 == "a\n" && s2 == "b"
    ensures Trim(s1) == "a" && Tokens("a") == ["a"] && Tokens(s1) == [s1]
    ensures Trim(s2) == s2 && Tokens(s2) == [s2]
  {
    var a := "a";
    assert s1[..1] == a && IsSpace('\n') && !IsSpace('a') && !IsSpace('b');
    assert TrimRight(a) == a && TrimRight(s2) == s2;
    assert TrimLeft(s1) == s1 && TrimLeft(s2) == s2;
    assert TrimRight(s1) == TrimRight(s1[..1]);
    OneToken(a);
    OneToken(s1);
    OneToken(s2);
  }

  lemma LineBreakStays(s1: string, s2: string)
    requires s1 == "a\n" && s2 == "b"
    ensures Trim(s1 + " " + s2) == s1 + " " + s2 && Tokens(s1 + " " + s2) == [s1] + [s2]
  {
    var joint := s1 + " " + s2;
    assert joint[0] == 'a' && joint[|joint| - 1] == 'b';
    assert TrimLeft(joint) == joint && TrimRight(joint) == joint;
    OneToken(s1);
    OneToken(s2);
    TokensJuxtapose(s1, s2);
  }

  lemma AcceptsOne(lib: Lib, w: string, e: Entry)
    requires w != "" && ':' !in w && w[0] != '!' && w[0] != '~'
    ensures BuildAll(lib, [w]).Ok?
    ensures Accepts(lib, BuildAll(lib, [w]).value, e) <==> MatchesText(lib, w, e.tag) || MatchesText(lib, w, e.message)
  {
    BuildOne(lib, w);
    assert Eval(lib, Bareword(false, w), e) <==> MatchesText(lib, w, e.tag) || MatchesText(lib, w, e.message);
    assert [Bareword(false, w)][0] == Bareword(false, w);
  }

  /** The condition is not idle. The word `a` ends in a line break, which trimming drops from `s1`
      alone: a row that holds both words without it meets `s1` and `s2`, but not `s1 s2`. */
  lemma LineBreakExample(lib: Lib, s1: string, s2: string, e: Entry)
    requires IsCaseMap(lib.lower) && s1 == "a\n" && s2 == "b" && e == Entry(0, 0, "", "a b")
    ensures Compile(lib, s1).Ok? && Accepts(lib, Compile(lib, s1).value, e)
    ensures Compile(lib, s2).Ok? && Accepts(lib, Compile(lib, s2).value, e)
    ensures Compile(lib, s1 + " " + s2).Ok? && !Accepts(lib, Compile(lib, s1 + " " + s2).value, e)
  {
    LineBreakTokens(s1, s2);
    LineBreakStays(s1, s2);
    AcceptsOne(lib, "a", e);
    AcceptsOne(lib, s2, e);
    AcceptsOne(lib, s1, e);
    LowerParts(lib, e);
    BuildAllConjunction(lib, [s1], [s2]);
  }

  lemma LowerStays(lib: Lib, s: string)
    requires IsCaseMap(lib.lower) && forall i :: 0 <= i < |s| ==> 'a' <= s[i] <= 'z' || IsSpace(s[i])
    ensures ToLower(lib.lower, s) == s
  {
  }

  lemma NoLineBreak(m: string, needle: string)
    requires needle == "a\n" && forall i :: 0 <= i < |m| ==> m[i] != '\n'
    ensures !Contains(m, needle)
  {
    forall i | 0 <= i <= |m|
      ensures !OccursAt(m, needle, i)
    {
      if i + 2 <= |m| {
        assert m[i..i + 2][1] == m[i + 1];
      }
    }
  }

  lemma LowerParts(lib: Lib, e: Entry)
    requires IsCaseMap(lib.lower) && e == Entry(0, 0, "", "a b")
    ensures MatchesText(lib, "a", e.message) && MatchesText(lib, "b", e.message)
    ensures !MatchesText(lib, "a\n", e.message) && !MatchesText(lib, "a\n", e.tag)
  {
    var m, needle := e.message, "a\n";
    assert IsSpace(' ') && IsSpace('\n');
    LowerStays(lib, m);
    LowerStays(lib, "a");
    LowerStays(lib, "b");
    LowerStays(lib, needle);
    LowerStays(lib, e.tag);
    assert m[0..1] == "a" && m[2..3] == "b";
    ContainsIntro(m, "a", 0);
    ContainsIntro(m, "b", 2);
    NoLineBreak(m, needle);
    NoLineBreak(e.tag, needle);
  }

  // ---- What one token means ---------------------------------------------------------------

  /** A text that is one token as it stands. */
  ghost predicate IsWord(w: string) {
    && w != "" && '"' !in w && (forall c :: c in w ==> c != ' ' && c != '\t')
    && !IsSpace(w[0]) && !IsSpace(w[|w| - 1])
  }

  /** The text compiles, and its filter accepts the row. */
  predicate Selects(lib: Lib, text: string, e: Entry) {
    Compile(lib, text).Ok? && Accepts(lib, Compile(lib, text).value, e)
  }

  lemma CompileWord(lib: Lib, w: string)
    requires IsWord(w)
    ensures Compile(lib, w)
         == match BuildAtom(lib, w) case Err(error) => Err(error) case Ok(a) => Ok(Extend(Filter([], []), a))
  {
    assert TrimLeft(w) == w && TrimRight(w) == w;
    OneToken(w);
    assert [w][..0] == [];
    assert BuildAll(lib, [w][..0]) == Ok(Filter([], []));
  }

  lemma SelectsWord(lib: Lib, w: string, e: Entry)
    requires IsWord(w)
    ensures Compile(lib, w).Ok? <==> BuildAtom(lib, w).Ok?
    ensures Selects(lib, w, e) <==> BuildAtom(lib, w).Ok? && Eval(lib, BuildAtom(lib, w).value, e)
    ensures Compile(lib, w).Ok? ==> Compile(lib, w).value.apps == AppRefs(BuildAtom(lib, w).value)
    ensures Compile(lib, w).Err? ==> Compile(lib, w).error == BuildAtom(lib, w).error
  {
    CompileWord(lib, w);
    if BuildAtom(lib, w).Ok? {
      var a := BuildAtom(lib, w).value;
      var f := Extend(Filter([], []), a);
      assert f.atoms == [a] && f.apps == AppRefs(a) && f.atoms[0] == a;
    }
  }

  /** A word is looked for in the tag and in the message. */
  lemma WordMeaning(lib: Lib, w: string, e: Entry)
    requires IsWord(w) && ':' !in w && w[0] != '!' && w[0] != '~'
    ensures Compile(lib, w).Ok? && Compile(lib, w).value.apps == []
    ensures '*' !in w ==>
              (Selects(lib, w, e) <==>
               Contains(ToLower(lib.lower, e.tag), ToLower(lib.lower, w)) || Contains(ToLower(lib.lower, e.message), ToLower(lib.lower, w)))
    ensures '*' in w ==> (Selects(lib, w, e) <==> lib.glob(w, e.tag) || lib.glob(w, e.message))
  {
    OneBareword(lib, w);
    SelectsWord(lib, w, e);
  }

  /** So is a regular expression, or it is an error. */
  lemma RegexMeaning(lib: Lib, pattern: string, e: Entry)
    requires IsWord("~" + pattern)
    ensures match lib.regex(pattern)
            case Some(test) =>
              && Compile(lib, "~" + pattern).Ok? && Compile(lib, "~" + pattern).value.apps == []
              && (Selects(lib, "~" + pattern, e) <==> test(e.tag) || test(e.message))
            case None => Compile(lib, "~" + pattern) == Err(BadRegex(pattern))
  {
    assert ("~" + pattern)[1..] == pattern;
    SelectsWord(lib, "~" + pattern, e);
  }

  /** `key:value`, and it is one token. */
  ghost predicate IsKeyed(lib: Lib, key: string, name: string, v: string) {
    IsKey(key) && ToLower(lib.lower, key) == name && IsPlain(v) && IsWord(key + ":" + v)
  }

  lemma KeyedMeaning(lib: Lib, key: string, name: string, v: string, e: Entry)
    requires IsKeyed(lib, key, name, v) && KeyOf(name).Some?
    ensures var k, text := KeyOf(name).value, key + ":" + v;
            && Compile(lib, text).Ok? == WellFormed(lib, k, v)
            && (Selects(lib, text, e) <==> WellFormed(lib, k, v) && Hits(lib, k, v, e))
            && (Compile(lib, text).Ok? ==> Compile(lib, text).value.apps == [])
            && (Compile(lib, text).Err? ==> Compile(lib, text).error == ErrorOf(k, v))
  {
    KeyedToken(lib, false, key, v);
    OneValueReads(v);
    SelectsWord(lib, key + ":" + v, e);
    var k, values := KeyOf(name).value, AsValues([v], false);
    assert values[0].value == v && |values| == 1;
    if WellFormed(lib, k, v) {
      OneValueBuilds(lib, name, k, v);
      OneValueAtom(lib, k, v, e);
    }
  }

  /** `tag:v` looks for `v` in the tag. */
  lemma TagMeaning(lib: Lib, key: string, v: string, e: Entry)
    requires IsKeyed(lib, key, "tag", v)
    ensures Compile(lib, key + ":" + v).Ok?
    ensures '*' !in v ==> (Selects(lib, key + ":" + v, e) <==> Contains(ToLower(lib.lower, e.tag), ToLower(lib.lower, v)))
    ensures '*' in v ==> (Selects(lib, key + ":" + v, e) <==> lib.glob(v, e.tag))
  {
    KeyedMeaning(lib, key, "tag", v, e);
  }

  /** `msg:v` and `message:v` look for `v` in the message. */
  lemma MsgMeaning(lib: Lib, key: string, v: string, e: Entry)
    requires IsKeyed(lib, key, "msg", v) || IsKeyed(lib, key, "message", v)
    ensures Compile(lib, key + ":" + v).Ok?
    ensures '*' !in v ==> (Selects(lib, key + ":" + v, e) <==> Contains(ToLower(lib.lower, e.message), ToLower(lib.lower, v)))
    ensures '*' in v ==> (Selects(lib, key + ":" + v, e) <==> lib.glob(v, e.message))
  {
    KeyedMeaning(lib, key, ToLower(lib.lower, key), v, e);
  }

  /** `pid:v` accepts the rows of process `v`, and is an error if that is no number. */
  lemma PidMeaning(lib: Lib, key: string, v: string, e: Entry)
    requires IsKeyed(lib, key, "pid", v)
    ensures match lib.parseInt(v)
            case Some(n) => Compile(lib, key + ":" + v).Ok? && (Selects(lib, key + ":" + v, e) <==> e.pid == n)
            case None => Compile(lib, key + ":" + v) == Err(BadPid(v))
  {
    KeyedMeaning(lib, key, "pid", v, e);
  }

  /** The levels by their names, in any case. */
  lemma LevelSpellings(lib: Lib, key: string, v: string, e: Entry)
    requires IsKeyed(lib, key, "level", v) && !Contains(v, "..")
    ensures var low := ToLower(lib.lower, v);
            && (low in {"v", "verbose"} ==> (Selects(lib, key + ":" + v, e) <==> e.level == 0))
            && (low in {"d", "debug"} ==> (Selects(lib, key + ":" + v, e) <==> e.level == 1))
            && (low in {"i", "info"} ==> (Selects(lib, key + ":" + v, e) <==> e.level == 2))
            && (low in {"w", "warn", "warning"} ==> (Selects(lib, key + ":" + v, e) <==> e.level == 3))
            && (low in {"e", "error"} ==> (Selects(lib, key + ":" + v, e) <==> e.level == 4))
            && (low in {"f", "fatal"} ==> (Selects(lib, key + ":" + v, e) <==> e.level == 5))
            && (low in {"s", "silent"} ==> (Selects(lib, key + ":" + v, e) <==> e.level == 6))
            && (Compile(lib, key + ":" + v).Err? ==> Compile(lib, key + ":" + v) == Err(BadLevel(v)))
  {
    LevelByToken(lib, key, v, e);
    LevelNumbers(ToLower(lib.lower, v));
  }

  lemma SingleRange(lib: Lib, v: string)
    requires !Contains(v, "..")
    ensures var b := LevelFromToken(ToLower(lib.lower, v));
            ParseLevelRange(lib, v) == if b.Some? then Some(Range(b.value, b.value)) else None
  {
    IndexOfMeaning(v, "..", 0);
    assert SplitDots(v) == [v];
    ParseParts(lib, v);
  }

  lemma SingleHits(lib: Lib, v: string, e: Entry)
    requires !Contains(v, "..")
    ensures WellFormed(lib, Level, v) && Hits(lib, Level, v, e) <==> LevelFromToken(ToLower(lib.lower, v)) == Some(At(e.level))
  {
    SingleRange(lib, v);
  }

  lemma LevelByToken(lib: Lib, key: string, v: string, e: Entry)
    requires IsKeyed(lib, key, "level", v) && !Contains(v, "..")
    ensures Selects(lib, key + ":" + v, e) <==> LevelFromToken(ToLower(lib.lower, v)) == Some(At(e.level))
    ensures Compile(lib, key + ":" + v).Err? ==> Compile(lib, key + ":" + v) == Err(BadLevel(v))
  {
    LevelKey();
    KeyedMeaning(lib, key, "level", v, e);
    SingleHits(lib, v, e);
  }

  lemma LevelKey()
    ensures KeyOf("level") == Some(Level) && forall v :: ErrorOf(Level, v) == BadLevel(v)
  {
  }

  lemma LevelNumbers(a: string)
    ensures a in {"v", "verbose"} ==> LevelFromToken(a) == Some(At(0))
    ensures a in {"d", "debug"} ==> LevelFromToken(a) == Some(At(1))
    ensures a in {"i", "info"} ==> LevelFromToken(a) == Some(At(2))
    ensures a in {"w", "warn", "warning"} ==> LevelFromToken(a) == Some(At(3))
    ensures a in {"e", "error"} ==> LevelFromToken(a) == Some(At(4))
    ensures a in {"f", "fatal"} ==> LevelFromToken(a) == Some(At(5))
    ensures a in {"s", "silent"} ==> LevelFromToken(a) == Some(At(6))
  {
  }

  /** A value as it is typed in a list. */
  function Spell(v: RawValue): string {
    if v.negate then "!" + v.value else v.value
  }

  function SpellAll(vs: seq<RawValue>): seq<string> {
    seq(|vs|, i requires 0 <= i < |vs| => Spell(vs[i]))
  }

  lemma SpelledSnoc(front: seq<RawValue>, last: RawValue)
    requires IsPlain(last.value)
    ensures ReadValues(SpellAll(front + [last])) == ReadValues(SpellAll(front)) + [last]
  {
    var all := SpellAll(front + [last]);
    assert all == SpellAll(front) + [Spell(last)] && all[..|front|] == SpellAll(front);
    PlainReads(last.value);
  }

  lemma SpelledOneMore(vs: seq<RawValue>, front: seq<RawValue>, last: RawValue)
    requires vs == front + [last] && ReadValues(SpellAll(front)) == front && IsPlain(last.value)
    ensures ReadValues(SpellAll(vs)) == vs
  {
    SpelledSnoc(front, last);
  }

  lemma {:induction false} SpelledRead(vs: seq<RawValue>)
    requires forall v :: v in vs ==> IsPlain(v.value)
    ensures ReadValues(SpellAll(vs)) == vs
    decreases |vs|
  {
    if vs != [] {
      var front, last := vs[..|vs| - 1], vs[|vs| - 1];
      assert vs == front + [last];
      SpelledRead(front);
      SpelledOneMore(vs, front, last);
    }
  }

  lemma SpelledList(vs: seq<RawValue>)
    requires vs != [] && forall v :: v in vs ==> IsPlain(v.value)
    ensures ReadValues(SplitOn(Join(SpellAll(vs), ","), ',')) == vs
  {
    forall s | s in SpellAll(vs)
      ensures ',' !in s
    {
      var i :| 0 <= i < |vs| && s == Spell(vs[i]);
      assert vs[i] in vs;
    }
    SplitJoin(SpellAll(vs), ',');
    SpelledRead(vs);
  }

  /** The list is one token, and so is each of its values behind the key. */
  ghost predicate IsKeyedList(lib: Lib, key: string, vs: seq<RawValue>) {
    && vs != [] && IsKey(key) && IsWord(key + ":" + Join(SpellAll(vs), ","))
    && forall v :: v in vs ==> IsPlain(v.value) && IsWord(key + ":" + v.value)
  }

  lemma KeyedBuilds(lib: Lib, name: string, vs: seq<RawValue>, e: Entry)
    requires vs != [] && KeyOf(name).Some?
    ensures var k, r := KeyOf(name).value, BuildKeyed(lib, false, name, vs);
            && (r.Ok? <==> FirstBad(lib, k, vs).None?)
            && (r.Ok? ==> (Eval(lib, r.value, e) <==> Combine(lib, k, vs, e)))
  {
    assert name != "app";
  }

  lemma ListCompiles(lib: Lib, key: string, vs: seq<RawValue>, e: Entry)
    requires IsKeyedList(lib, key, vs) && KeyOf(ToLower(lib.lower, key)).Some?
    ensures var k, text := KeyOf(ToLower(lib.lower, key)).value, key + ":" + Join(SpellAll(vs), ",");
            && (Compile(lib, text).Ok? <==> forall v :: v in vs ==> WellFormed(lib, k, v.value))
            && (Compile(lib, text).Ok? ==> (Selects(lib, text, e) <==> Combine(lib, k, vs, e)))
  {
    var k := KeyOf(ToLower(lib.lower, key)).value;
    KeyedToken(lib, false, key, Join(SpellAll(vs), ","));
    SpelledList(vs);
    SelectsWord(lib, key + ":" + Join(SpellAll(vs), ","), e);
    KeyedBuilds(lib, ToLower(lib.lower, key), vs, e);
    FirstBadMembers(lib, k, vs);
  }

  /** A list by its single values: it compiles if and only if each of them does; and it accepts a row
      if and only if some positive one does, when there is one, and no negated one does. */
  lemma ListMeaning(lib: Lib, key: string, vs: seq<RawValue>, e: Entry)
    requires IsKeyedList(lib, key, vs) && ToLower(lib.lower, key) in {"tag", "msg", "message", "level", "pid"}
    ensures var text := key + ":" + Join(SpellAll(vs), ",");
            && (Compile(lib, text).Ok? <==> forall v :: v in vs ==> Compile(lib, key + ":" + v.value).Ok?)
            && (Compile(lib, text).Ok? ==>
                  (Selects(lib, text, e) <==>
                   && ((exists v :: v in vs && !v.negate) ==> exists v :: v in vs && !v.negate && Selects(lib, key + ":" + v.value, e))
                   && forall v :: v in vs && v.negate ==> !Selects(lib, key + ":" + v.value, e)))
  {
    var name := ToLower(lib.lower, key);
    var k := KeyOf(name).value;
    ListCompiles(lib, key, vs, e);
    forall v | v in vs
      ensures Compile(lib, key + ":" + v.value).Ok? == WellFormed(lib, k, v.value)
      ensures Selects(lib, key + ":" + v.value, e) <==> WellFormed(lib, k, v.value) && Hits(lib, k, v.value, e)
    {
      KeyedMeaning(lib, key, name, v.value, e);
    }
    if Compile(lib, key + ":" + Join(SpellAll(vs), ",")).Ok? {
      CombineBySingles(lib, key, k, vs, e);
    }
  }

  lemma CombineBySingles(lib: Lib, key: string, k: Key, vs: seq<RawValue>, e: Entry)
    requires forall v :: v in vs ==> (Selects(lib, key + ":" + v.value, e) <==> WellFormed(lib, k, v.value) && Hits(lib, k, v.value, e))
    requires forall v :: v in vs ==> WellFormed(lib, k, v.value)
    ensures Combine(lib, k, vs, e) <==>
            && ((exists v :: v in vs && !v.negate) ==> exists v :: v in vs && !v.negate && Selects(lib, key + ":" + v.value, e))
            && forall v :: v in vs && v.negate ==> !Selects(lib, key + ":" + v.value, e)
  {
  }

  /** The first value that does not parse. */
  ghost predicate IsFirstBad(lib: Lib, key: Key, values: seq<RawValue>, i: nat) {
    i < |values| && !WellFormed(lib, key, values[i].value) && forall j :: 0 <= j < i ==> WellFormed(lib, key, values[j].value)
  }

  lemma FirstBadLater(lib: Lib, key: Key, values: seq<RawValue>, i: nat)
    requires values != [] && WellFormed(lib, key, values[0].value) && IsFirstBad(lib, key, values[1..], i)
    ensures IsFirstBad(lib, key, values, i + 1) && values[i + 1] == values[1..][i]
  {
    var rest := values[1..];
    assert forall j :: 0 < j < |values| ==> values[j] == rest[j - 1];
  }

  lemma {:induction false} FirstBadAt(lib: Lib, key: Key, values: seq<RawValue>) returns (i: nat)
    requires FirstBad(lib, key, values).Some?
    ensures IsFirstBad(lib, key, values, i) && FirstBad(lib, key, values) == Some(ErrorOf(key, values[i].value))
    decreases |values|
  {
    if !WellFormed(lib, key, values[0].value) {
      i := 0;
    } else {
      i := FirstBadAt(lib, key, values[1..]);
      FirstBadLater(lib, key, values, i);
      i := i + 1;
    }
  }

  lemma ListFails(lib: Lib, key: string, vs: seq<RawValue>)
    requires IsKeyedList(lib, key, vs) && KeyOf(ToLower(lib.lower, key)).Some?
    ensures var text := key + ":" + Join(SpellAll(vs), ",");
            Compile(lib, text).Err? ==> FirstBad(lib, KeyOf(ToLower(lib.lower, key)).value, vs) == Some(Compile(lib, text).error)
  {
    KeyedToken(lib, false, key, Join(SpellAll(vs), ","));
    SpelledList(vs);
    SelectsWord(lib, key + ":" + Join(SpellAll(vs), ","), Entry(0, 0, "", ""));
  }

  /** A list that does not compile has the error of its first bad value. */
  lemma ListError(lib: Lib, key: string, vs: seq<RawValue>) returns (i: nat)
    requires IsKeyedList(lib, key, vs) && ToLower(lib.lower, key) in {"tag", "msg", "message", "level", "pid"}
    requires Compile(lib, key + ":" + Join(SpellAll(vs), ",")).Err?
    ensures i < |vs| && Compile(lib, key + ":" + Join(SpellAll(vs), ",")) == Compile(lib, key + ":" + vs[i].value)
    ensures forall j :: 0 <= j < i ==> Compile(lib, key + ":" + vs[j].value).Ok?
  {
    var name := ToLower(lib.lower, key);
    ListFails(lib, key, vs);
    i := FirstBadAt(lib, KeyOf(name).value, vs);
    forall j | 0 <= j <= i
      ensures Compile(lib, key + ":" + vs[j].value).Ok? == WellFormed(lib, KeyOf(name).value, vs[j].value)
      ensures Compile(lib, key + ":" + vs[j].value).Err? ==>
                Compile(lib, key + ":" + vs[j].value).error == ErrorOf(KeyOf(name).value, vs[j].value)
    {
      assert vs[j] in vs;
      KeyedMeaning(lib, key, name, vs[j].value, Entry(0, 0, "", ""));
    }
  }

  /** `app:` terms filter nothing by themselves; their packages are handed on, each with its `!`. */
  lemma AppMeaning(lib: Lib, key: string, vs: seq<RawValue>, e: Entry)
    requires IsKeyedList(lib, key, vs) && ToLower(lib.lower, key) == "app"
    ensures var text := key + ":" + Join(SpellAll(vs), ",");
            && Selects(lib, text, e) && |Compile(lib, text).value.apps| == |vs|
            && forall i :: 0 <= i < |vs| ==> Compile(lib, text).value.apps[i] == AppRef(vs[i].value, vs[i].negate)
  {
    var text := key + ":" + Join(SpellAll(vs), ",");
    SpelledList(vs);
    AppAtom(lib, key, Join(SpellAll(vs), ","), vs);
    AppSelects(lib, text, vs, e);
    AppRefsAre(vs);
  }

  lemma AppSelects(lib: Lib, text: string, vs: seq<RawValue>, e: Entry)
    requires IsWord(text) && BuildAtom(lib, text) == Ok(Apps(vs))
    ensures Selects(lib, text, e) && Compile(lib, text).value.apps == AppRefs(Apps(vs))
  {
    SelectsWord(lib, text, e);
  }

  lemma AppAtom(lib: Lib, key: string, list: string, vs: seq<RawValue>)
    requires vs != [] && IsKey(key) && ToLower(lib.lower, key) == "app" && ReadValues(SplitOn(list, ',')) == vs
    ensures BuildAtom(lib, key + ":" + list) == Ok(Apps(vs))
  {
    KeyedToken(lib, false, key, list);
  }

  lemma AppRefsAre(vs: seq<RawValue>)
    ensures |AppRefs(Apps(vs))| == |vs| && forall i :: 0 <= i < |vs| ==> AppRefs(Apps(vs))[i] == AppRef(vs[i].value, vs[i].negate)
  {
  }

  /** A key with nothing behind it, and `app:` terms, which a `!` does not turn round. */
  predicate Inert(lib: Lib, t: string) {
    t != "" && t[0] != '~' &&
    var colon := IndexOf(t, ":", 0);
    && colon.Some?
    && (ReadValues(SplitOn(t[colon.value + 1..], ',')) == [] || ToLower(lib.lower, t[..colon.value]) == "app")
  }

  lemma KeyedNegates(lib: Lib, name: string, values: seq<RawValue>, e: Entry)
    ensures var a, b := BuildKeyed(lib, false, name, values), BuildKeyed(lib, true, name, values);
            && (a.Err? ==> b == a)
            && (a.Ok? ==>
                  && b.Ok? && AppRefs(a.value) == AppRefs(b.value)
                  && if values == [] || name == "app" then Eval(lib, a.value, e) && Eval(lib, b.value, e)
                     else Eval(lib, b.value, e) <==> !Eval(lib, a.value, e))
  {
  }

  lemma BodyNegates(lib: Lib, t: string, e: Entry)
    requires t != ""
    ensures var a, b := BuildBody(lib, false, t), BuildBody(lib, true, t);
            && (a.Err? ==> b == a)
            && (a.Ok? ==>
                  && b.Ok? && AppRefs(a.value) == AppRefs(b.value)
                  && if Inert(lib, t) then Eval(lib, a.value, e) && Eval(lib, b.value, e)
                     else Eval(lib, b.value, e) <==> !Eval(lib, a.value, e))
  {
    if t[0] != '~' && IndexOf(t, ":", 0).Some? {
      var colon := IndexOf(t, ":", 0).value;
      KeyedNegates(lib, ToLower(lib.lower, t[..colon]), ReadValues(SplitOn(t[colon + 1..], ',')), e);
    }
  }

  /** `!` in front of a token: it fails alike, and otherwise accepts exactly the other rows, unless the
      token accepts all rows either way. */
  lemma NegationExactly(lib: Lib, t: string, e: Entry)
    requires IsWord(t) && t[0] != '!'
    ensures Compile(lib, t).Err? <==> Compile(lib, "!" + t).Err?
    ensures Compile(lib, t).Err? ==> Compile(lib, "!" + t) == Compile(lib, t)
    ensures Compile(lib, t).Ok? ==>
              && Compile(lib, "!" + t).value.apps == Compile(lib, t).value.apps
              && if Inert(lib, t) then Selects(lib, t, e) && Selects(lib, "!" + t, e)
                 else Selects(lib, "!" + t, e) <==> !Selects(lib, t, e)
  {
    var n := "!" + t;
    assert n[1..] == t && n[|n| - 1] == t[|t| - 1] && !IsSpace('!');
    SelectsWord(lib, t, e);
    SelectsWord(lib, n, e);
    assert BuildAtom(lib, n) == BuildBody(lib, true, t) && BuildAtom(lib, t) == BuildBody(lib, false, t);
    BodyNegates(lib, t, e);
  }

  // ---- `app:` terms ----------------------------------------------------------------------

  type PidNames = map<nat, set<string>>

  const APP_NO_MATCH_PID: nat := 0xffff_ffff

  function Needles(lower: char -> char, refs: seq<AppRef>, negate: bool): seq<string> {
    if refs == [] then []
    else
      var front := Needles(lower, refs[..|refs| - 1], negate);
      var r := refs[|refs| - 1];
      var pkg := ToLower(lower, Trim(r.pkg));
      if r.negate == negate && pkg != "" then front + [pkg] else front
  }

  predicate NameHits(lower: char -> char, needles: seq<string>, name: string) {
    exists n :: n in needles && Contains(ToLower(lower, name), n)
  }

  /** Some process name seen under `pid` contains one of the needles. */
  predicate PidHits(lower: char -> char, needles: seq<string>, names: PidNames, pid: nat) {
    pid in names && exists name :: name in names[pid] && NameHits(lower, needles, name)
  }

  function Matched(lower: char -> char, needles: seq<string>, names: PidNames): set<nat> {
    set pid | pid in names && PidHits(lower, needles, names, pid)
  }

  function Include(lower: char -> char, refs: seq<AppRef>, names: PidNames): set<nat> {
    var pos := Needles(lower, refs, false);
    var matched := Matched(lower, pos, names);
    if pos != [] && matched == {} then {APP_NO_MATCH_PID} else matched
  }

  function Exclude(lower: char -> char, refs: seq<AppRef>, names: PidNames): set<nat> {
    Matched(lower, Needles(lower, refs, true), names)
  }

  ghost predicate AnyHits(lower: char -> char, needles: seq<string>, names: set<string>) {
    exists name :: name in names && NameHits(lower, needles, name)
  }

  /** The inner loop: every name seen under one pid. */
  method ResolvePid(lower: char -> char, pos: seq<string>, neg: seq<string>, pid: nat, names: set<string>,
                    include0: set<nat>, exclude0: set<nat>) returns (included: set<nat>, excluded: set<nat>)
    ensures included == if AnyHits(lower, pos, names) then include0 + {pid} else include0
    ensures excluded == if AnyHits(lower, neg, names) then exclude0 + {pid} else exclude0
  {
    included, excluded := include0, exclude0;
    var left := names;
    while left != {}
      invariant left <= names
      invariant included == if AnyHits(lower, pos, names - left) then include0 + {pid} else include0
      invariant excluded == if AnyHits(lower, neg, names - left) then exclude0 + {pid} else exclude0
      decreases left
    {
      var name :| name in left;
      if NameHits(lower, pos, name) {
        included := included + {pid};
      }
      if NameHits(lower, neg, name) {
        excluded := excluded + {pid};
      }
      left := left - {name};
    }
    assert names - left == names;
  }

  method ResolveAppPids(lower: char -> char, refs: seq<AppRef>, names: PidNames) returns (included: set<nat>, excluded: set<nat>)
    ensures included == Include(lower, refs, names)
    ensures excluded == Exclude(lower, refs, names)
  {
    included, excluded := {}, {};
    var pos, neg := Needles(lower, refs, false), Needles(lower, refs, true);
    if |refs| > 0 {
      var pids := names.Keys;
      while pids != {}
        invariant pids <= names.Keys
        invariant forall p :: p in included <==> p in names && p !in pids && PidHits(lower, pos, names, p)
        invariant forall p :: p in excluded <==> p in names && p !in pids && PidHits(lower, neg, names, p)
        decreases pids
      {
        var pid :| pid in pids;
        included, excluded := ResolvePid(lower, pos, neg, pid, names[pid], included, excluded);
        pids := pids - {pid};
      }
    }
    assert included == Matched(lower, pos, names) && excluded == Matched(lower, neg, names);
    if |pos| > 0 && included == {} {
      included := {APP_NO_MATCH_PID};
    }
  }

  /** How the query applies the two sets (crates/pane-storage/src/logcat.rs): an empty include set
      is no constraint. */
  predicate Passes(included: set<nat>, excluded: set<nat>, pid: nat) {
    (included == {} || pid in included) && pid !in excluded
  }

  /** The package of a reference occurs in one of the process names. */
  ghost predicate RefHits(lower: char -> char, r: AppRef, names: set<string>) {
    exists name :: name in names && Contains(ToLower(lower, name), ToLower(lower, Trim(r.pkg)))
  }

  lemma {:induction false} NeedlesMembers(lower: char -> char, refs: seq<AppRef>, negate: bool)
    ensures forall r :: r in refs && r.negate == negate && Trim(r.pkg) != "" ==> ToLower(lower, Trim(r.pkg)) in Needles(lower, refs, negate)
    ensures forall n :: n in Needles(lower, refs, negate) ==>
              exists r :: r in refs && r.negate == negate && Trim(r.pkg) != "" && n == ToLower(lower, Trim(r.pkg))
    decreases |refs|
  {
    if refs != [] {
      var front, last := refs[..|refs| - 1], refs[|refs| - 1];
      NeedlesMembers(lower, front, negate);
      assert refs == front + [last];
      forall n | n in Needles(lower, refs, negate)
        ensures exists r :: r in refs && r.negate == negate && Trim(r.pkg) != "" && n == ToLower(lower, Trim(r.pkg))
      {
        if n in Needles(lower, front, negate) {
          var r :| r in front && r.negate == negate && Trim(r.pkg) != "" && n == ToLower(lower, Trim(r.pkg));
          assert r in refs;
        } else {
          assert last in refs;
        }
      }
    }
  }

  lemma PidHitsRefs(lower: char -> char, refs: seq<AppRef>, negate: bool, names: PidNames, pid: nat)
    ensures PidHits(lower, Needles(lower, refs, negate), names, pid) <==>
            pid in names && exists r :: r in refs && r.negate == negate && Trim(r.pkg) != "" && RefHits(lower, r, names[pid])
  {
    NeedlesMembers(lower, refs, negate);
    if pid in names {
      if r :| r in refs && r.negate == negate && Trim(r.pkg) != "" && RefHits(lower, r, names[pid]) {
        var name :| name in names[pid] && Contains(ToLower(lower, name), ToLower(lower, Trim(r.pkg)));
        assert NameHits(lower, Needles(lower, refs, negate), name);
      }
      if PidHits(lower, Needles(lower, refs, negate), names, pid) {
        var name :| name in names[pid] && NameHits(lower, Needles(lower, refs, negate), name);
        var n :| n in Needles(lower, refs, negate) && Contains(ToLower(lower, name), n);
        var r :| r in refs && r.negate == negate && Trim(r.pkg) != "" && n == ToLower(lower, Trim(r.pkg));
        assert RefHits(lower, r, names[pid]);
      }
    }
  }

  /** The sets select exactly what the terms say: a pid with a name that holds the package of some
      positive term, when there is one, and with none that holds the package of a negated one. Blank
      packages say nothing. */
  lemma PidSelection(lower: char -> char, refs: seq<AppRef>, names: PidNames, pid: nat)
    requires pid != APP_NO_MATCH_PID
    ensures Passes(Include(lower, refs, names), Exclude(lower, refs, names), pid) <==>
            && ((exists r :: r in refs && !r.negate && Trim(r.pkg) != "") ==>
                  pid in names && exists r :: r in refs && !r.negate && Trim(r.pkg) != "" && RefHits(lower, r, names[pid]))
            && (pid in names ==> forall r :: r in refs && r.negate && Trim(r.pkg) != "" ==> !RefHits(lower, r, names[pid]))
  {
    PidHitsRefs(lower, refs, false, names, pid);
    PidHitsRefs(lower, refs, true, names, pid);
    NeedlesMembers(lower, refs, false);
    var pos := Needles(lower, refs, false);
    assert pos == [] <==> !exists r :: r in refs && !r.negate && Trim(r.pkg) != "" by {
      if pos != [] {
        assert pos[0] in pos;
      }
    }
    if pos == [] {
      assert Matched(lower, [], names) == {};
    }
  }

  /** The snapshot only ever learns names. */
  ghost predicate Grows(a: PidNames, b: PidNames) {
    forall pid :: pid in a ==> pid in b && a[pid] <= b[pid]
  }

  function NamesOf(names: PidNames, pid: nat): set<string> {
    if pid in names then names[pid] else {}
  }

  function MergedNames(prev: PidNames, raw: map<nat, string>, pid: nat): set<string> {
    NamesOf(prev, pid) + if pid in raw then {raw[pid]} else {}
  }

  method AddName(names: PidNames, pid: nat, name: string) returns (next: PidNames)
    ensures next.Keys == names.Keys + {pid}
    ensures NamesOf(next, pid) == NamesOf(names, pid) + {name}
    ensures forall p :: p != pid ==> NamesOf(next, p) == NamesOf(names, p)
  {
    next := names;
    if pid in next {
      if name !in next[pid] {
        next := next[pid := next[pid] + {name}];
      }
    } else {
      next := next[pid := {name}];
    }
  }

  /** What the snapshot says once only the answers for `pids` are left to merge. */
  ghost predicate MergedBut(prev: PidNames, raw: map<nat, string>, pids: set<nat>, next: PidNames) {
    && next.Keys == prev.Keys + (raw.Keys - pids)
    && forall p :: NamesOf(next, p) == if p in pids then NamesOf(prev, p) else MergedNames(prev, raw, p)
  }

  method MergePidNames(prev: PidNames, raw: map<nat, string>) returns (next: PidNames)
    ensures next.Keys == prev.Keys + raw.Keys
    ensures forall pid :: pid in next ==> next[pid] == MergedNames(prev, raw, pid)
    ensures Grows(prev, next)
  {
    next := prev;
    var pids := raw.Keys;
    assert MergedBut(prev, raw, pids, next);
    while pids != {}
      invariant pids <= raw.Keys
      invariant MergedBut(prev, raw, pids, next)
      decreases pids
    {
      var pid :| pid in pids;
      ghost var before := next;
      next := AddName(next, pid, raw[pid]);
      MergeOne(prev, raw, pids, before, next, pid);
      pids := pids - {pid};
    }
    MergedAll(prev, raw, next);
  }

  lemma MergedAll(prev: PidNames, raw: map<nat, string>, next: PidNames)
    requires MergedBut(prev, raw, {}, next)
    ensures next.Keys == prev.Keys + raw.Keys
    ensures forall pid :: pid in next ==> next[pid] == MergedNames(prev, raw, pid)
    ensures Grows(prev, next)
  {
    assert raw.Keys - {} == raw.Keys;
    forall pid | pid in next
      ensures next[pid] == MergedNames(prev, raw, pid)
    {
      assert NamesOf(next, pid) == MergedNames(prev, raw, pid);
    }
  }

  lemma MergeOne(prev: PidNames, raw: map<nat, string>, pids: set<nat>, before: PidNames, next: PidNames, pid: nat)
    requires pid in pids && pids <= raw.Keys && MergedBut(prev, raw, pids, before)
    requires next.Keys == before.Keys + {pid} && NamesOf(next, pid) == NamesOf(before, pid) + {raw[pid]}
    requires forall p :: p != pid ==> NamesOf(next, p) == NamesOf(before, p)
    ensures MergedBut(prev, raw, pids - {pid}, next)
  {
    var rest := pids - {pid};
    forall p
      ensures NamesOf(next, p) == if p in rest then NamesOf(prev, p) else MergedNames(prev, raw, p)
    {
      if p != pid {
        assert NamesOf(next, p) == NamesOf(before, p);
      }
    }
  }

  /** A pid that a positive term has once selected stays selected in every later snapshot. */
  lemma {:induction false} IncludedForGood(lower: char -> char, refs: seq<AppRef>, snaps: seq<PidNames>, i: nat, j: nat, pid: nat)
    requires forall k :: 0 <= k < |snaps| - 1 ==> Grows(snaps[k], snaps[k + 1])
    requires i <= j < |snaps| && pid in snaps[i]
    requires exists r :: r in refs && !r.negate && Trim(r.pkg) != "" && RefHits(lower, r, snaps[i][pid])
    ensures pid in Include(lower, refs, snaps[i]) && pid in Include(lower, refs, snaps[j])
    decreases j - i
  {
    PidHitsRefs(lower, refs, false, snaps[i], pid);
    assert pid in Matched(lower, Needles(lower, refs, false), snaps[i]);
    if i < j {
      assert Grows(snaps[i], snaps[i + 1]);
      var r :| r in refs && !r.negate && Trim(r.pkg) != "" && RefHits(lower, r, snaps[i][pid]);
      assert RefHits(lower, r, snaps[i + 1][pid]);
      IncludedForGood(lower, refs, snaps, i + 1, j, pid);
    }
  }
}
