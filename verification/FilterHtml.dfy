/** The coloured layers behind the two filter boxes: the markup of the Logcat window
    (src/views/LogcatView.tsx, `escapeHtml` and `buildLogcatFilterHtml`) and the parts of the
    Captures list (src/views/CapturesView.tsx, `tokenizeForHighlight`). */
module FilterHtml {
  import opened Text
  import LogcatFilter

  // ---- Escaping --------------------------------------------------------------------------

  function ReplaceAll(s: string, c: char, with: string): string {
    if s == "" then "" else (if s[0] == c then with else [s[0]]) + ReplaceAll(s[1..], c, with)
  }

  /** Four replacements, one after the other. */
  function EscapeHtml(s: string): string {
    ReplaceAll(ReplaceAll(ReplaceAll(ReplaceAll(s, '&', "&amp;"), '<', "&lt;"), '>', "&gt;"), '"', "&quot;")
  }

  function EscapeChar(c: char): string {
    if c == '&' then "&amp;"
    else if c == '<' then "&lt;"
    else if c == '>' then "&gt;"
    else if c == '"' then "&quot;"
    else [c]
  }

  function FlatMap(f: char -> string, s: string): string {
    if s == "" then "" else f(s[0]) + FlatMap(f, s[1..])
  }

  function EscapeEach(s: string): string {
    FlatMap(EscapeChar, s)
  }

  lemma {:induction false} ReplaceConcat(a: string, b: string, c: char, with: string)
    ensures ReplaceAll(a + b, c, with) == ReplaceAll(a, c, with) + ReplaceAll(b, c, with)
    decreases |a|
  {
    if a == "" {
      assert a + b == b;
    } else {
      ReplaceConcat(a[1..], b, c, with);
      assert (a + b)[1..] == a[1..] + b;
      Assoc(if a[0] == c then with else [a[0]], ReplaceAll(a[1..], c, with), ReplaceAll(b, c, with));
    }
  }

  lemma {:induction false} ReplaceNothing(s: string, c: char, with: string)
    requires c !in s
    ensures ReplaceAll(s, c, with) == s
    decreases |s|
  {
    if s != "" {
      ReplaceNothing(s[1..], c, with);
    }
  }

  lemma ReplaceOne(c: char, with: string)
    ensures ReplaceAll([c], c, with) == with
  {
    assert [c][1..] == "";
  }

  lemma EscapeHtmlConcat(a: string, b: string)
    ensures EscapeHtml(a + b) == EscapeHtml(a) + EscapeHtml(b)
  {
    var a1, b1 := ReplaceAll(a, '&', "&amp;"), ReplaceAll(b, '&', "&amp;");
    var a2, b2 := ReplaceAll(a1, '<', "&lt;"), ReplaceAll(b1, '<', "&lt;");
    ReplaceConcat(a, b, '&', "&amp;");
    ReplaceConcat(a1, b1, '<', "&lt;");
    ReplaceConcat(a2, b2, '>', "&gt;");
    ReplaceConcat(ReplaceAll(a2, '>', "&gt;"), ReplaceAll(b2, '>', "&gt;"), '"', "&quot;");
  }

  lemma EscapeHtmlChar(c: char)
    ensures EscapeHtml([c]) == EscapeChar(c)
  {
    if c == '&' {
      ReplaceOne('&', "&amp;");
      LastPasses("&amp;");
    } else {
      ReplaceNothing([c], '&', "&amp;");
      if c == '<' {
        ReplaceOne('<', "&lt;");
        ReplaceNothing("&lt;", '>', "&gt;");
        ReplaceNothing("&lt;", '"', "&quot;");
      } else if c == '>' {
        ReplaceNothing(">", '<', "&lt;");
        ReplaceOne('>', "&gt;");
        ReplaceNothing("&gt;", '"', "&quot;");
      } else if c == '"' {
        ReplaceNothing("\"", '<', "&lt;");
        ReplaceNothing("\"", '>', "&gt;");
        ReplaceOne('"', "&quot;");
      } else {
        LastPasses([c]);
      }
    }
  }

  lemma LastPasses(s: string)
    requires '<' !in s && '>' !in s && '"' !in s
    ensures ReplaceAll(ReplaceAll(ReplaceAll(s, '<', "&lt;"), '>', "&gt;"), '"', "&quot;") == s
  {
    ReplaceNothing(s, '<', "&lt;");
    ReplaceNothing(s, '>', "&gt;");
    ReplaceNothing(s, '"', "&quot;");
  }

  /** The four passes amount to one pass that looks at each character once; it matters that `&`
      goes first. */
  lemma {:induction false} EscapeOnePass(s: string)
    ensures EscapeHtml(s) == EscapeEach(s)
  {
    if s != "" {
      EscapeHtmlChar(s[0]);
      EscapeHtmlConcat([s[0]], s[1..]);
      assert [s[0]] + s[1..] == s;
      EscapeOnePass(s[1..]);
    }
  }

  lemma {:induction false} FlatMapConcat(f: char -> string, a: string, b: string)
    ensures FlatMap(f, a + b) == FlatMap(f, a) + FlatMap(f, b)
    decreases |a|
  {
    if a == "" {
      assert a + b == b;
    } else {
      FlatMapConcat(f, a[1..], b);
      assert (a + b)[1..] == a[1..] + b;
      Assoc(f(a[0]), FlatMap(f, a[1..]), FlatMap(f, b));
    }
  }

  lemma {:induction false} EscapeEachSafe(s: string)
    ensures '<' !in EscapeEach(s) && '>' !in EscapeEach(s) && '"' !in EscapeEach(s)
  {
    if s != "" {
      EscapeEachSafe(s[1..]);
    }
  }

  // ---- How the markup reads --------------------------------------------------------------

  /** The four entities back to their characters. */
  function Unescape(s: string): string
    decreases |s|
  {
    if s == "" then ""
    else if "&amp;" <= s then "&" + Unescape(s[5..])
    else if "&lt;" <= s then "<" + Unescape(s[4..])
    else if "&gt;" <= s then ">" + Unescape(s[4..])
    else if "&quot;" <= s then "\"" + Unescape(s[6..])
    else [s[0]] + Unescape(s[1..])
  }

  lemma UnescapeChar(c: char, rest: string)
    ensures Unescape(EscapeChar(c) + rest) == [c] + Unescape(rest)
  {
    var s := EscapeChar(c) + rest;
    assert s[|EscapeChar(c)|..] == rest;
    assert s[0] == EscapeChar(c)[0];
    if c == '&' || c == '<' || c == '>' || c == '"' {
      assert s[1] == EscapeChar(c)[1];
      assert EscapeChar(c) <= s;
    }
  }

  lemma {:induction false} UnescapeEscape(s: string)
    ensures Unescape(EscapeEach(s)) == s
  {
    if s != "" {
      UnescapeChar(s[0], EscapeEach(s[1..]));
      UnescapeEscape(s[1..]);
    }
  }

  /** The characters outside tags. */
  function TextOf(html: string, inTag: bool): string
    decreases |html|
  {
    if html == "" then ""
    else if inTag then TextOf(html[1..], html[0] != '>')
    else if html[0] == '<' then TextOf(html[1..], true)
    else [html[0]] + TextOf(html[1..], false)
  }

  /** The tags, without their brackets; `open` is what has been read of the current one. */
  function TagsOf(html: string, open: Option<string>): seq<string>
    decreases |html|
  {
    if html == "" then []
    else match open
      case None => TagsOf(html[1..], if html[0] == '<' then Some("") else None)
      case Some(t) => if html[0] == '>' then [t] + TagsOf(html[1..], None) else TagsOf(html[1..], Some(t + [html[0]]))
  }

  lemma {:induction false} ReadText(a: string, b: string)
    requires '<' !in a
    ensures TextOf(a + b, false) == a + TextOf(b, false) && TagsOf(a + b, None) == TagsOf(b, None)
    decreases |a|
  {
    if a == "" {
      assert a + b == b;
    } else {
      ReadText(a[1..], b);
      assert (a + b)[1..] == a[1..] + b;
    }
  }

  lemma {:induction false} ReadTag(a: string, b: string, seen: string)
    requires '>' !in a
    ensures TextOf(a + (">" + b), true) == TextOf(b, false)
    ensures TagsOf(a + (">" + b), Some(seen)) == [seen + a] + TagsOf(b, None)
    decreases |a|
  {
    if a == "" {
      assert a + (">" + b) == ">" + b && (">" + b)[1..] == b && seen + a == seen;
    } else {
      ReadTag(a[1..], b, seen + [a[0]]);
      assert (a + (">" + b))[1..] == a[1..] + (">" + b);
      assert seen + [a[0]] + a[1..] == seen + a;
    }
  }

  lemma ReadWholeTag(a: string, b: string)
    requires '>' !in a
    ensures TextOf("<" + (a + (">" + b)), false) == TextOf(b, false)
    ensures TagsOf("<" + (a + (">" + b)), None) == [a] + TagsOf(b, None)
  {
    ReadTag(a, b, "");
    assert ("<" + (a + (">" + b)))[1..] == a + (">" + b);
    assert "" + a == a;
  }

  // ---- Parts -----------------------------------------------------------------------------

  /** A stretch of the box's text; without a class it stands bare. */
  datatype Part = Part(cls: string, text: string)

  const FG := "text-fg"
  const MUTED := "text-fg-muted"
  const WARN := "text-warn"
  const DANGER := "text-danger"
  const ACCENT := "text-accent"
  const UNKNOWN := "text-danger underline decoration-dotted"

  function OpenTag(cls: string): string {
    "span class=\"" + cls + "\""
  }

  function Span(cls: string, inner: string): string {
    "<" + (OpenTag(cls) + (">" + (inner + ("<" + ("/span" + ">")))))
  }

  function Render(p: Part): string {
    if p.cls == "" then EscapeHtml(p.text) else Span(p.cls, EscapeHtml(p.text))
  }

  function RenderAll(parts: seq<Part>): seq<string> {
    seq(|parts|, i requires 0 <= i < |parts| => Render(parts[i]))
  }

  function AllText(parts: seq<Part>): string {
    if parts == [] then "" else parts[0].text + AllText(parts[1..])
  }

  function PartTags(parts: seq<Part>): seq<string> {
    if parts == [] then []
    else (if parts[0].cls == "" then [] else [OpenTag(parts[0].cls), "/span"]) + PartTags(parts[1..])
  }

  ghost predicate Bracketless(parts: seq<Part>) {
    forall p :: p in parts ==> '>' !in p.cls
  }

  lemma ReadPart(p: Part, rest: string)
    requires '>' !in p.cls
    ensures TextOf(Render(p) + rest, false) == EscapeEach(p.text) + TextOf(rest, false)
    ensures TagsOf(Render(p) + rest, None) == (if p.cls == "" then [] else [OpenTag(p.cls), "/span"]) + TagsOf(rest, None)
  {
    EscapeOnePass(p.text);
    EscapeEachSafe(p.text);
    var inner := EscapeEach(p.text);
    if p.cls == "" {
      ReadText(inner, rest);
    } else {
      var close := "<" + ("/span" + (">" + rest));
      assert Render(p) + rest == "<" + (OpenTag(p.cls) + (">" + (inner + close)));
      ReadWholeTag(OpenTag(p.cls), inner + close);
      ReadText(inner, close);
      ReadWholeTag("/span", rest);
    }
  }

  /** Whatever the texts are, reading the markup gives back their characters and no tags but the
      ones of the parts: each is opened and closed before the next begins. */
  lemma {:induction false} ReadRendered(parts: seq<Part>)
    requires Bracketless(parts)
    ensures TextOf(Concat(RenderAll(parts)), false) == EscapeEach(AllText(parts))
    ensures TagsOf(Concat(RenderAll(parts)), None) == PartTags(parts)
  {
    if parts != [] {
      ReadRendered(parts[1..]);
      assert RenderAll(parts)[1..] == RenderAll(parts[1..]);
      ReadPart(parts[0], Concat(RenderAll(parts[1..])));
      FlatMapConcat(EscapeChar, parts[0].text, AllText(parts[1..]));
    }
  }

  // ---- Cutting the text ------------------------------------------------------------------

  /** How far a run of equal kind reaches from the start. */
  function RunLength(s: string, space: bool): (r: nat)
    ensures r <= |s|
    ensures forall i :: 0 <= i < r ==> IsSpace(s[i]) == space
    ensures r < |s| ==> IsSpace(s[r]) != space
    decreases |s|
  {
    if s == "" || IsSpace(s[0]) != space then 0
    else
      var rest := RunLength(s[1..], space);
      assert forall i :: 0 < i <= rest && i < |s| ==> s[i] == s[1..][i - 1];
      rest + 1
  }

  /** `match(/\s+|\S+/g)` */
  function Runs(s: string): seq<string>
    decreases |s|
  {
    if s == "" then []
    else
      var n := RunLength(s, IsSpace(s[0]));
      [s[..n]] + Runs(s[n..])
  }

  /** All white space, or none of it. */
  ghost predicate IsRun(run: string) {
    run != "" && forall c :: c in run ==> IsSpace(c) == IsSpace(run[0])
  }

  /** The text is cut into runs, and neighbours differ in kind: no run could be longer. */
  lemma {:induction false} RunsMeaning(s: string)
    ensures Concat(Runs(s)) == s
    ensures forall run :: run in Runs(s) ==> IsRun(run)
    ensures forall i :: 0 < i < |Runs(s)| ==> Differ(Runs(s)[i - 1], Runs(s)[i])
  {
    RunsConcat(s);
    RunsAlternate(s);
  }

  ghost predicate Differ(a: string, b: string) {
    a != "" && b != "" && IsSpace(a[0]) != IsSpace(b[0])
  }

  lemma ConcatCons(first: string, rest: seq<string>)
    ensures Concat([first] + rest) == first + Concat(rest)
  {
    assert ([first] + rest)[1..] == rest;
  }

  lemma RunsCons(s: string)
    requires s != ""
    ensures var n := RunLength(s, IsSpace(s[0])); 0 < n <= |s| && Runs(s) == [s[..n]] + Runs(s[n..])
  {
  }

  lemma {:induction false} RunsConcat(s: string)
    ensures Concat(Runs(s)) == s
    decreases |s|
  {
    if s != "" {
      var n := RunLength(s, IsSpace(s[0]));
      RunsCons(s);
      RunsConcat(s[n..]);
      ConcatCons(s[..n], Runs(s[n..]));
      assert s[..n] + s[n..] == s;
    }
  }

  lemma {:induction false} RunsAlternate(s: string)
    ensures forall run :: run in Runs(s) ==> IsRun(run)
    ensures s != "" ==> Runs(s) != [] && Runs(s)[0] != "" && Runs(s)[0][0] == s[0]
    ensures forall i :: 0 < i < |Runs(s)| ==> Differ(Runs(s)[i - 1], Runs(s)[i])
    decreases |s|
  {
    if s != "" {
      var n := RunLength(s, IsSpace(s[0]));
      var rest := Runs(s[n..]);
      RunsAlternate(s[n..]);
      assert IsRun(s[..n]);
      assert rest != [] ==> Differ(s[..n], rest[0]);
      assert Runs(s) == [s[..n]] + rest;
    }
  }

  predicate IsKeyChar(c: char) {
    'a' <= c <= 'z' || 'A' <= c <= 'Z' || c == '_'
  }

  function KeyChars(s: string): (r: nat)
    ensures r <= |s|
    ensures forall i :: 0 <= i < r ==> IsKeyChar(s[i])
    ensures r < |s| ==> !IsKeyChar(s[r])
    decreases |s|
  {
    if s == "" || !IsKeyChar(s[0]) then 0
    else
      var rest := KeyChars(s[1..]);
      assert forall i :: 0 < i <= rest && i < |s| ==> s[i] == s[1..][i - 1];
      rest + 1
  }

  /** Where the key of `^([a-zA-Z_]+)(:)(.*)$` ends. The text holds no line end, so the rest
      always matches. */
  function KeyEnd(s: string): Option<nat> {
    var k := KeyChars(s);
    if 0 < k < |s| && s[k] == ':' then Some(k) else None
  }

  lemma KeyEndMeaning(s: string, k: nat)
    ensures KeyEnd(s) == Some(k) <==>
            0 < k < |s| && s[k] == ':' && forall i :: 0 <= i < k ==> 'a' <= s[i] <= 'z' || 'A' <= s[i] <= 'Z' || s[i] == '_'
  {
    assert KeyChars(s) < |s| ==> !IsKeyChar(s[KeyChars(s)]);
  }

  // ---- The Logcat box --------------------------------------------------------------------

  predicate LogcatKey(key: string) {
    key == "tag" || key == "msg" || key == "message" || key == "level" || key == "pid" || key == "app"
  }

  function Bang(s: string): seq<Part> {
    if s != "" && s[0] == '!' then [Part(DANGER, "!")] else []
  }

  function NoBang(s: string): string {
    if s != "" && s[0] == '!' then s[1..] else s
  }

  function KeyPart(key: string, known: bool): Part {
    Part(if known then ACCENT else UNKNOWN, key)
  }

  function LogcatHead(key: string): seq<Part> {
    [KeyPart(key, LogcatKey(ToLower(AsciiLower, key))), Part(MUTED, ":")]
  }

  function LogcatValue(value: string): seq<Part> {
    Bang(value) + if NoBang(value) != "" then [Part(FG, NoBang(value))] else []
  }

  function LogcatBody(body: string): seq<Part> {
    if body != "" && body[0] == '~' then [Part(WARN, "~"), Part(FG, body[1..])]
    else match KeyEnd(body)
      case None => [Part(FG, body)]
      case Some(k) => LogcatHead(body[..k]) + LogcatValue(body[k + 1..])
  }

  function LogcatToken(tok: string): seq<Part> {
    if tok != "" && IsSpace(tok[0]) then [Part("", tok)] else Bang(tok) + LogcatBody(NoBang(tok))
  }

  function LogcatParts(toks: seq<string>): seq<Part> {
    if toks == [] then [] else LogcatParts(toks[..|toks| - 1]) + LogcatToken(toks[|toks| - 1])
  }

  lemma RenderAppend(a: seq<Part>, b: seq<Part>)
    ensures RenderAll(a + b) == RenderAll(a) + RenderAll(b)
  {
  }

  lemma TokenRenders(tok: string)
    requires tok != "" && !IsSpace(tok[0])
    ensures RenderAll(LogcatToken(tok))
         == (if tok[0] == '!' then [Span(DANGER, "!")] else []) + RenderAll(LogcatBody(NoBang(tok)))
  {
    RenderBang(tok);
    RenderAppend(Bang(tok), LogcatBody(NoBang(tok)));
  }

  /** The pushes for one token that is not white space. */
  method TokenHtml(tok: string) returns (out: seq<string>)
    requires tok != "" && !IsSpace(tok[0])
    ensures out == RenderAll(LogcatToken(tok))
  {
    out := [];
    var body := tok;
    if body[0] == '!' {
      out := out + [Span(DANGER, "!")];
      body := body[1..];
    }
    assert body == NoBang(tok) && out == if tok[0] == '!' then [Span(DANGER, "!")] else [];
    var more := BodyHtml(body);
    TokenRenders(tok);
    out := out + more;
  }

  lemma KeyedRenders(key: string, value: string)
    ensures RenderAll(LogcatHead(key) + LogcatValue(value))
         == [Span(if LogcatKey(ToLower(AsciiLower, key)) then ACCENT else UNKNOWN, EscapeHtml(key)), Span(MUTED, EscapeHtml(":"))]
            + RenderAll(LogcatValue(value))
  {
    RenderAppend(LogcatHead(key), LogcatValue(value));
  }

  method BodyHtml(body: string) returns (out: seq<string>)
    ensures out == RenderAll(LogcatBody(body))
  {
    if body != "" && body[0] == '~' {
      EscapePlain("~");
      return [Span(WARN, "~"), Span(FG, EscapeHtml(body[1..]))];
    }
    var key := KeyEnd(body);
    if key.Some? {
      var known := LogcatKey(ToLower(AsciiLower, body[..key.value]));
      out := [Span(if known then ACCENT else UNKNOWN, EscapeHtml(body[..key.value])), Span(MUTED, EscapeHtml(":"))];
      KeyedRenders(body[..key.value], body[key.value + 1..]);
      var more := ValueHtml(body[key.value + 1..]);
      out := out + more;
    } else {
      out := [Span(FG, EscapeHtml(body))];
    }
  }

  method ValueHtml(valueRaw: string) returns (out: seq<string>)
    ensures out == RenderAll(LogcatValue(valueRaw))
  {
    out := [];
    var value := valueRaw;
    RenderBang(valueRaw);
    if value != "" && value[0] == '!' {
      out := out + [Span(DANGER, "!")];
      value := value[1..];
    }
    if value != "" {
      RenderAppend(Bang(valueRaw), [Part(FG, value)]);
      out := out + [Span(FG, EscapeHtml(value))];
    }
  }

  lemma EscapePlain(s: string)
    requires '&' !in s && '<' !in s && '>' !in s && '"' !in s
    ensures EscapeHtml(s) == s
  {
    ReplaceNothing(s, '&', "&amp;");
    ReplaceNothing(s, '<', "&lt;");
    ReplaceNothing(s, '>', "&gt;");
    ReplaceNothing(s, '"', "&quot;");
  }

  lemma RenderBang(s: string)
    ensures RenderAll(Bang(s)) == if s != "" && s[0] == '!' then [Span(DANGER, "!")] else []
  {
    EscapePlain("!");
  }

  lemma LogcatRound(toks: seq<string>, i: nat)
    requires i < |toks|
    ensures LogcatParts(toks[..i + 1]) == LogcatParts(toks[..i]) + LogcatToken(toks[i])
  {
    assert toks[..i + 1][..i] == toks[..i];
  }

  lemma RenderRound(toks: seq<string>, i: nat)
    requires i < |toks|
    ensures RenderAll(LogcatParts(toks[..i + 1])) == RenderAll(LogcatParts(toks[..i])) + RenderAll(LogcatToken(toks[i]))
  {
    LogcatRound(toks, i);
    RenderAppend(LogcatParts(toks[..i]), LogcatToken(toks[i]));
  }

  method BuildLogcatFilterHtml(text: string) returns (html: string)
    ensures html == Concat(RenderAll(LogcatParts(Runs(text))))
  {
    if text == "" {
      return "";
    }
    var out: seq<string> := [];
    var tokens := Runs(text);
    RunsMeaning(text);
    for i := 0 to |tokens|
      invariant out == RenderAll(LogcatParts(tokens[..i]))
    {
      RenderRound(tokens, i);
      assert IsRun(tokens[i]);
      var more := PieceHtml(tokens[i]);
      out := out + more;
    }
    assert tokens[..|tokens|] == tokens;
    html := Concat(out);
  }

  /** One round: a stretch of white space, or a token. */
  method PieceHtml(tok: string) returns (out: seq<string>)
    requires tok != ""
    ensures out == RenderAll(LogcatToken(tok))
  {
    if IsSpace(tok[0]) {
      return [EscapeHtml(tok)];
    }
    out := TokenHtml(tok);
  }

  lemma {:induction false} TextsAppend(a: seq<Part>, b: seq<Part>)
    ensures AllText(a + b) == AllText(a) + AllText(b)
  {
    if a == [] {
      assert a + b == b;
    } else {
      TextsAppend(a[1..], b);
      assert (a + b)[1..] == a[1..] + b;
      Assoc(a[0].text, AllText(a[1..]), AllText(b));
    }
  }

  lemma BangText(s: string)
    ensures AllText(Bang(s)) + NoBang(s) == s
  {
    if s != "" && s[0] == '!' {
      OneText(Part(DANGER, "!"));
    }
  }

  lemma OneText(p: Part)
    ensures AllText([p]) == p.text
  {
    assert [p][1..] == [];
  }

  lemma TwoTexts(p: Part, q: Part)
    ensures AllText([p, q]) == p.text + q.text
  {
    OneText(p);
    OneText(q);
    TextsAppend([p], [q]);
    assert [p] + [q] == [p, q];
  }

  lemma AtColon(body: string, k: nat)
    requires k < |body| && body[k] == ':'
    ensures body[..k] + ":" + body[k + 1..] == body
  {
  }

  lemma LogcatHeadText(key: string)
    ensures AllText(LogcatHead(key)) == key + ":"
  {
    TwoTexts(LogcatHead(key)[0], LogcatHead(key)[1]);
  }

  lemma LogcatValueText(value: string)
    ensures AllText(LogcatValue(value)) == value
  {
    BangText(value);
    if NoBang(value) != "" {
      OneText(Part(FG, NoBang(value)));
      TextsAppend(Bang(value), [Part(FG, NoBang(value))]);
    } else {
      assert Bang(value) + [] == Bang(value);
    }
  }

  lemma LogcatBodyText(body: string)
    ensures AllText(LogcatBody(body)) == body
  {
    if body != "" && body[0] == '~' {
      TwoTexts(Part(WARN, "~"), Part(FG, body[1..]));
    } else if KeyEnd(body).None? {
      OneText(Part(FG, body));
    } else {
      var k := KeyEnd(body).value;
      LogcatHeadText(body[..k]);
      LogcatValueText(body[k + 1..]);
      TextsAppend(LogcatHead(body[..k]), LogcatValue(body[k + 1..]));
      AtColon(body, k);
    }
  }

  lemma LogcatTokenText(tok: string)
    ensures AllText(LogcatToken(tok)) == tok
  {
    if tok != "" && IsSpace(tok[0]) {
      OneText(Part("", tok));
    } else {
      BangText(tok);
      LogcatBodyText(NoBang(tok));
      TextsAppend(Bang(tok), LogcatBody(NoBang(tok)));
    }
  }

  lemma LogcatTextSnoc(front: seq<string>, tok: string)
    requires AllText(LogcatParts(front)) == Concat(front)
    ensures AllText(LogcatParts(front + [tok])) == Concat(front + [tok])
  {
    ConcatSnoc(front, tok);
    var toks := front + [tok];
    assert toks[..|front|] == front && toks[..|front| + 1] == toks;
    LogcatRound(toks, |front|);
    TextsAppend(LogcatParts(front), LogcatToken(tok));
    LogcatTokenText(tok);
  }

  lemma {:induction false} LogcatPartsText(toks: seq<string>)
    ensures AllText(LogcatParts(toks)) == Concat(toks)
  {
    if toks != [] {
      var front, tok := toks[..|toks| - 1], toks[|toks| - 1];
      LogcatPartsText(front);
      LogcatTextSnoc(front, tok);
      assert front + [tok] == toks;
    }
  }

  lemma BracketlessAppend(a: seq<Part>, b: seq<Part>)
    requires Bracketless(a) && Bracketless(b)
    ensures Bracketless(a + b)
  {
  }

  lemma KeyedBracketless(key: string, value: string)
    ensures Bracketless(LogcatHead(key) + LogcatValue(value))
  {
    assert '>' !in FG && '>' !in MUTED && '>' !in DANGER && '>' !in ACCENT && '>' !in UNKNOWN;
    BracketlessAppend(Bang(value), if NoBang(value) != "" then [Part(FG, NoBang(value))] else []);
    BracketlessAppend(LogcatHead(key), LogcatValue(value));
  }

  lemma LogcatBodyBracketless(body: string)
    ensures Bracketless(LogcatBody(body))
  {
    assert '>' !in FG && '>' !in WARN;
    if KeyEnd(body).Some? && body[0] != '~' {
      KeyedBracketless(body[..KeyEnd(body).value], body[KeyEnd(body).value + 1..]);
    }
  }

  lemma LogcatTokenBracketless(tok: string)
    ensures Bracketless(LogcatToken(tok))
  {
    LogcatBodyBracketless(NoBang(tok));
    assert '>' !in DANGER;
    BracketlessAppend(Bang(tok), LogcatBody(NoBang(tok)));
  }

  lemma {:induction false} LogcatPartsBracketless(toks: seq<string>)
    ensures Bracketless(LogcatParts(toks))
  {
    if toks != [] {
      LogcatPartsBracketless(toks[..|toks| - 1]);
      LogcatTokenBracketless(toks[|toks| - 1]);
    }
  }

  /** Taking out the tags and the entities gives back exactly the text of the box, for every
      text; and the only tags are the layer's own spans, one after the other. */
  lemma LogcatHtmlReadsBack(text: string)
    ensures var html := Concat(RenderAll(LogcatParts(Runs(text))));
            && Unescape(TextOf(html, false)) == text
            && TagsOf(html, None) == PartTags(LogcatParts(Runs(text)))
  {
    var parts := LogcatParts(Runs(text));
    LogcatPartsBracketless(Runs(text));
    LogcatPartsText(Runs(text));
    RunsMeaning(text);
    ReadRendered(parts);
    UnescapeEscape(text);
  }

  lemma OneRun(w: string)
    requires w != "" && NoSpace(w)
    ensures Runs(w) == [w]
  {
    assert forall i :: 0 <= i < |w| ==> w[i] in w;
    assert RunLength(w, IsSpace(w[0])) == |w|;
    assert w[..|w|] == w && Runs(w[|w|..]) == [];
  }

  lemma OneTokenParts(w: string)
    requires w != "" && NoSpace(w)
    ensures LogcatParts(Runs(w)) == LogcatToken(w) && CaptureParts(Runs(w)) == CaptureToken(w)
  {
    OneRun(w);
    assert [w][..0] == [] && LogcatParts([w]) == LogcatParts([]) + LogcatToken(w);
    assert CaptureParts([w]) == CaptureParts([]) + CaptureToken(w);
  }

  ghost predicate IsKeyText(key: string) {
    key != "" && forall c :: c in key ==> IsKeyChar(c)
  }

  lemma KeyValueCut(key: string, value: string)
    requires IsKeyText(key)
    ensures var body := key + ":" + value; KeyEnd(body) == Some(|key|) && body[..|key|] == key && body[|key| + 1..] == value
    ensures !IsSpace(key[0]) && key[0] != '!' && key[0] != '~'
  {
    var body := key + ":" + value;
    assert forall i :: 0 <= i < |key| ==> body[i] == key[i] && key[i] in key;
    KeyEndMeaning(body, |key|);
  }

  /** The part a `!` makes, and the `!` itself. */
  function BangIf(negated: bool): seq<Part> {
    if negated then [Part(DANGER, "!")] else []
  }

  function Negation(negated: bool): string {
    if negated then "!" else ""
  }

  lemma BangLeads(negated: bool, s: string)
    requires negated || s == "" || s[0] != '!'
    ensures Bang(Negation(negated) + s) == BangIf(negated) && NoBang(Negation(negated) + s) == s
  {
    assert negated ==> (Negation(negated) + s)[1..] == s;
    assert !negated ==> Negation(negated) + s == s;
  }

  /** A whole text that is one token. */
  lemma OneTokenClasses(outer: bool, body: string)
    requires body != "" && NoSpace(body) && (outer || body[0] != '!')
    ensures LogcatParts(Runs(Negation(outer) + body)) == BangIf(outer) + LogcatBody(body)
  {
    BangLeads(outer, body);
    assert body[0] in body;
    assert !IsSpace('!');
    OneTokenParts(Negation(outer) + body);
  }

  lemma KeyTextNoSpace(key: string, rest: string)
    requires IsKeyText(key) && NoSpace(rest)
    ensures NoSpace(key + ":" + rest)
  {
    assert forall c :: IsKeyChar(c) ==> !IsSpace(c);
  }

  /** How `key:value` is coloured in the Logcat box, with or without a `!` in front of the key and of
      the value: the marks, the key by whether it is one of the six, the colon, and the value. */
  lemma KeyValueClasses(key: string, value: string, outer: bool, inner: bool)
    requires IsKeyText(key) && NoSpace(value) && (inner || value == "" || value[0] != '!')
    ensures LogcatParts(Runs(Negation(outer) + (key + ":" + (Negation(inner) + value))))
         == BangIf(outer)
            + [Part(if ToLower(AsciiLower, key) in {"tag", "msg", "message", "level", "pid", "app"} then ACCENT else UNKNOWN, key),
               Part(MUTED, ":")]
            + BangIf(inner) + if value != "" then [Part(FG, value)] else []
  {
    var rest := Negation(inner) + value;
    KeyValueCut(key, rest);
    KeyTextNoSpace(key, rest);
    OneTokenClasses(outer, key + ":" + rest);
    BangLeads(inner, value);
    assert LogcatBody(key + ":" + rest) == LogcatHead(key) + LogcatValue(rest);
    Assoc(BangIf(outer), LogcatHead(key), LogcatValue(rest));
    Assoc(BangIf(outer) + LogcatHead(key), BangIf(inner), if value != "" then [Part(FG, value)] else []);
  }

  /** Any other token: `~` stands out in front of a pattern, and a word has the colour of text. */
  lemma WordClasses(word: string, outer: bool)
    requires NoSpace(word)
    ensures LogcatParts(Runs(Negation(outer) + ("~" + word))) == BangIf(outer) + [Part(WARN, "~"), Part(FG, word)]
    ensures word != "" && word[0] != '~' && (outer || word[0] != '!') && KeyEnd(word).None? ==>
              LogcatParts(Runs(Negation(outer) + word)) == BangIf(outer) + [Part(FG, word)]
  {
    assert ("~" + word)[1..] == word;
    OneTokenClasses(outer, "~" + word);
    if word != "" && (outer || word[0] != '!') {
      OneTokenClasses(outer, word);
    }
  }

  lemma KeyLeads(key: string, list: string)
    requires key != "" && forall c :: c in key ==> IsKeyChar(c)
    ensures LogcatBody(key + ":" + list)[0] == KeyPart(key, LogcatKey(ToLower(AsciiLower, key)))
  {
    var body := key + ":" + list;
    assert body[|key|] == ':' && body[..|key|] == key;
    assert forall i :: 0 <= i < |key| ==> body[i] == key[i] && key[i] in key;
    KeyEndMeaning(body, |key|);
    assert IsKeyChar(body[0]);
  }

  /** A key is coloured as known exactly when the compiler does not reject the token for its
      key. The library's case folding has to agree with ASCII on the letters of the key. */
  lemma KeyColourIsVerdict(lib: LogcatFilter.Lib, negate: bool, key: string, list: string)
    requires key != "" && (forall c :: c in key ==> IsKeyChar(c) && lib.lower(c) == AsciiLower(c))
    requires LogcatFilter.ReadValues(SplitOn(list, ',')) != []
    ensures var body := key + ":" + list;
            && LogcatBody(body)[0].text == key
            && (LogcatBody(body)[0].cls == ACCENT <==>
                 LogcatFilter.BuildAtom(lib, LogcatFilter.KeyToken(negate, key, list)) != LogcatFilter.Err(LogcatFilter.UnknownKey(ToLower(lib.lower, key))))
  {
    KeyLeads(key, list);
    assert ToLower(lib.lower, key) == ToLower(AsciiLower, key);
    KeysPlain(key);
    LogcatFilter.KeyedToken(lib, negate, key, list);
    VerdictOf(lib, negate, ToLower(lib.lower, key), LogcatFilter.ReadValues(SplitOn(list, ',')));
  }

  lemma KeysPlain(key: string)
    requires key != "" && forall c :: c in key ==> IsKeyChar(c)
    ensures LogcatFilter.IsKey(key)
  {
    assert key[0] in key;
  }

  lemma VerdictOf(lib: LogcatFilter.Lib, negate: bool, name: string, values: seq<LogcatFilter.RawValue>)
    requires values != []
    ensures LogcatKey(name) <==> LogcatFilter.BuildKeyed(lib, negate, name, values) != LogcatFilter.Err(LogcatFilter.UnknownKey(name))
  {
    if LogcatFilter.KeyOf(name).Some? {
      BadIsNotUnknown(lib, LogcatFilter.KeyOf(name).value, values);
    }
  }

  lemma {:induction false} BadIsNotUnknown(lib: LogcatFilter.Lib, key: LogcatFilter.Key, values: seq<LogcatFilter.RawValue>)
    ensures LogcatFilter.FirstBad(lib, key, values).Some? ==> !LogcatFilter.FirstBad(lib, key, values).value.UnknownKey?
    decreases |values|
  {
    if values != [] {
      BadIsNotUnknown(lib, key, values[1..]);
    }
  }

  // ---- The Captures box ------------------------------------------------------------------

  predicate CaptureKey(key: string) {
    || key == "host" || key == "method" || key == "status" || key == "mime" || key == "path" || key == "size"
    || key == "duration" || key == "error" || key == "device"
  }

  function CaptureKeyed(body: string, k: nat): seq<Part>
    requires k < |body|
  {
    [KeyPart(body[..k], CaptureKey(ToLower(AsciiLower, body[..k]))), Part(MUTED, ":")]
    + if body[k + 1..] != "" then [Part(FG, body[k + 1..])] else []
  }

  function CaptureToken(tok: string): seq<Part> {
    if tok != "" && IsSpace(tok[0]) then [Part("", tok)]
    else match KeyEnd(NoBang(tok))
      case None => [Part(FG, tok)]
      case Some(k) => Bang(tok) + CaptureKeyed(NoBang(tok), k)
  }

  function CaptureParts(toks: seq<string>): seq<Part> {
    if toks == [] then [] else CaptureParts(toks[..|toks| - 1]) + CaptureToken(toks[|toks| - 1])
  }

  method TokenizeForHighlight(text: string) returns (out: seq<Part>)
    ensures out == CaptureParts(Runs(text))
  {
    out := [];
    var tokens := Runs(text);
    for i := 0 to |tokens|
      invariant out == CaptureParts(tokens[..i])
    {
      var tok := tokens[i];
      RunsMeaning(text);
      assert IsRun(tok);
      assert tokens[..i + 1][..i] == tokens[..i];
      if IsSpace(tok[0]) {
        out := out + [Part("", tok)];
        continue;
      }
      var more := TokenParts(tok);
      out := out + more;
    }
    assert tokens[..|tokens|] == tokens;
  }

  method TokenParts(tok: string) returns (out: seq<Part>)
    requires tok != "" && !IsSpace(tok[0])
    ensures out == CaptureToken(tok)
  {
    var body := NoBang(tok);
    var key := KeyEnd(body);
    if key.None? {
      return [Part(FG, tok)];
    }
    out := if tok[0] == '!' then [Part(DANGER, "!")] else [];
    out := out + CaptureKeyed(body, key.value);
  }

  lemma CaptureKeyedText(body: string, k: nat)
    requires KeyEnd(body) == Some(k)
    ensures AllText(CaptureKeyed(body, k)) == body
  {
    var value := body[k + 1..];
    var head := [KeyPart(body[..k], CaptureKey(ToLower(AsciiLower, body[..k]))), Part(MUTED, ":")];
    TwoTexts(head[0], head[1]);
    assert body == body[..k] + ":" + value;
    if value == "" {
      assert head + [] == head;
    } else {
      OneText(Part(FG, value));
      TextsAppend(head, [Part(FG, value)]);
    }
  }

  lemma CaptureTokenText(tok: string)
    ensures AllText(CaptureToken(tok)) == tok
  {
    var body := NoBang(tok);
    if tok != "" && IsSpace(tok[0]) {
      OneText(Part("", tok));
    } else if KeyEnd(body).None? {
      OneText(Part(FG, tok));
    } else {
      var k := KeyEnd(body).value;
      CaptureKeyedText(body, k);
      BangText(tok);
      TextsAppend(Bang(tok), CaptureKeyed(body, k));
    }
  }

  lemma CaptureRound(toks: seq<string>, i: nat)
    requires i < |toks|
    ensures CaptureParts(toks[..i + 1]) == CaptureParts(toks[..i]) + CaptureToken(toks[i])
  {
    assert toks[..i + 1][..i] == toks[..i];
  }

  lemma CaptureTextSnoc(front: seq<string>, tok: string)
    requires AllText(CaptureParts(front)) == Concat(front)
    ensures AllText(CaptureParts(front + [tok])) == Concat(front + [tok])
  {
    ConcatSnoc(front, tok);
    var toks := front + [tok];
    assert toks[..|front|] == front && toks[..|front| + 1] == toks;
    CaptureRound(toks, |front|);
    TextsAppend(CaptureParts(front), CaptureToken(tok));
    CaptureTokenText(tok);
  }

  lemma {:induction false} CapturePartsTokens(toks: seq<string>)
    ensures AllText(CaptureParts(toks)) == Concat(toks)
  {
    if toks != [] {
      var front, tok := toks[..|toks| - 1], toks[|toks| - 1];
      CapturePartsTokens(front);
      CaptureTextSnoc(front, tok);
      assert front + [tok] == toks;
    }
  }

  /** The layer behind the Captures box shows the box's text, character for character. */
  lemma CapturePartsReadBack(text: string)
    ensures AllText(CaptureParts(Runs(text))) == text
  {
    CapturePartsTokens(Runs(text));
    RunsMeaning(text);
  }

  lemma OneKeyedCapture(outer: bool, body: string, k: nat)
    requires body != "" && NoSpace(body) && body[0] != '!' && KeyEnd(body) == Some(k)
    ensures CaptureParts(Runs(Negation(outer) + body)) == BangIf(outer) + CaptureKeyed(body, k)
  {
    BangLeads(outer, body);
    assert body[0] in body;
    assert !IsSpace('!');
    OneTokenParts(Negation(outer) + body);
  }

  lemma CaptureKeyIs(key: string)
    ensures CaptureKey(key) <==> key in {"host", "method", "status", "mime", "path", "size", "duration", "error", "device"}
  {
  }

  /** How the Captures box colours a token: `!` and a key stand out in front of a colon only; the key is
      one of nine or marked as unknown. */
  lemma CaptureClasses(key: string, value: string, outer: bool)
    requires IsKeyText(key) && NoSpace(value)
    ensures CaptureParts(Runs(Negation(outer) + (key + ":" + value)))
         == BangIf(outer)
            + ([Part(if ToLower(AsciiLower, key) in {"host", "method", "status", "mime", "path", "size", "duration", "error", "device"}
                     then ACCENT else UNKNOWN, key),
                Part(MUTED, ":")]
               + if value != "" then [Part(FG, value)] else [])
  {
    var body := key + ":" + value;
    KeyValueCut(key, value);
    KeyTextNoSpace(key, value);
    assert body[0] == key[0];
    OneKeyedCapture(outer, body, |key|);
    CaptureKeyIs(ToLower(AsciiLower, key));
  }

  lemma CaptureWordClasses(word: string)
    requires NoSpace(word) && word != "" && KeyEnd(NoBang(word)).None?
    ensures CaptureParts(Runs(word)) == [Part(FG, word)]
  {
    assert word[0] in word;
    OneTokenParts(word);
  }
}
