/** The tolerant JSON re-indenter of the message overlay
    (src/views/LogcatView.tsx, `formatJsonLoose`). */
module JsonLoose {
  import Text

  /** Where the scanner stands with respect to string literals. */
  datatype Scan = Scan(inStr: bool, esc: bool)

  datatype State = State(scan: Scan, indent: int)

  const START := State(Scan(false, false), 0)

  function NextScan(k: Scan, c: char): Scan {
    if k.inStr then
      if k.esc then Scan(true, false)
      else if c == '\\' then Scan(true, true)
      else Scan(c != '"', false)
    else Scan(c == '"', false)
  }

  function ScanAll(k: Scan, s: string): Scan
    decreases |s|
  {
    if s == "" then k else ScanAll(NextScan(k, s[0]), s[1..])
  }

  /** Insignificant white space: section 2 of RFC 8259. */
  predicate IsBlank(c: char) {
    c == ' ' || c == '\t' || c == '\n' || c == '\r'
  }

  function Spaces(n: nat): string {
    if n == 0 then "" else "  " + Spaces(n - 1)
  }

  function Pad(indent: int): string {
    Spaces(if indent < 0 then 0 else indent)
  }

  function Emit(st: State, c: char): string {
    if st.scan.inStr then [c]
    else if c == '{' || c == '[' then [c, '\n'] + Pad(st.indent + 1)
    else if c == '}' || c == ']' then "\n" + Pad(st.indent - 1) + [c]
    else if c == ',' then ",\n" + Pad(st.indent)
    else if c == ':' then ": "
    else if IsBlank(c) then ""
    else [c]
  }

  function Next(st: State, c: char): State {
    State(NextScan(st.scan, c),
          if st.scan.inStr then st.indent
          else if c == '{' || c == '[' then st.indent + 1
          else if c == '}' || c == ']' then st.indent - 1
          else st.indent)
  }

  function FormatFrom(st: State, s: string): string
    decreases |s|
  {
    if s == "" then "" else Emit(st, s[0]) + FormatFrom(Next(st, s[0]), s[1..])
  }

  function Format(s: string): string {
    FormatFrom(START, s)
  }

  /** Drop the white space that stands outside string literals, and nothing else. */
  function StripFrom(k: Scan, s: string): string
    decreases |s|
  {
    if s == "" then ""
    else (if !k.inStr && IsBlank(s[0]) then "" else [s[0]]) + StripFrom(NextScan(k, s[0]), s[1..])
  }

  function Strip(s: string): string {
    StripFrom(START.scan, s)
  }

  /** One round of the loop: what it appends, and the flags behind it. */
  method OneChar(c: char, indent: int, inStr: bool, esc: bool) returns (piece: string, indent': int, inStr': bool, esc': bool)
    requires !inStr ==> !esc
    ensures piece == Emit(State(Scan(inStr, esc), indent), c)
    ensures State(Scan(inStr', esc'), indent') == Next(State(Scan(inStr, esc), indent), c)
    ensures !inStr' ==> !esc'
  {
    indent', inStr', esc' := indent, inStr, esc;
    piece := [c];
    if inStr {
      if esc {
        esc' := false;
      } else if c == '\\' {
        esc' := true;
      } else if c == '"' {
        inStr' := false;
      }
    } else if c == '"' {
      inStr' := true;
    } else if c == '{' || c == '[' {
      indent' := indent + 1;
      piece := [c, '\n'] + Pad(indent');
    } else if c == '}' || c == ']' {
      indent' := indent - 1;
      piece := "\n" + Pad(indent') + [c];
    } else if c == ',' {
      piece := ",\n" + Pad(indent);
    } else if c == ':' {
      piece := ": ";
    } else if IsBlank(c) {
      piece := "";
    }
  }

  /** The loop of the source, one character at a time. */
  method FormatJsonLoose(src: string) returns (out: string)
    ensures out == Format(src)
  {
    out := "";
    var indent := 0;
    var inStr, esc := false, false;
    for i := 0 to |src|
      invariant out + FormatFrom(State(Scan(inStr, esc), indent), src[i..]) == Format(src)
      invariant !inStr ==> !esc
    {
      FormatFromStep(State(Scan(inStr, esc), indent), src, i, out);
      var piece;
      piece, indent, inStr, esc := OneChar(src[i], indent, inStr, esc);
      out := out + piece;
    }
  }

  lemma FormatFromStep(st: State, s: string, i: nat, before: string)
    requires i < |s|
    ensures before + FormatFrom(st, s[i..])
         == before + Emit(st, s[i]) + FormatFrom(Next(st, s[i]), s[i + 1..])
  {
    assert s[i..][1..] == s[i + 1..];
    assert before + (Emit(st, s[i]) + FormatFrom(Next(st, s[i]), s[i + 1..]))
        == before + Emit(st, s[i]) + FormatFrom(Next(st, s[i]), s[i + 1..]);
  }

  lemma {:induction false} StripConcat(k: Scan, a: string, b: string)
    ensures StripFrom(k, a + b) == StripFrom(k, a) + StripFrom(ScanAll(k, a), b)
    ensures ScanAll(k, a + b) == ScanAll(ScanAll(k, a), b)
    decreases |a|
  {
    if a == "" {
      assert a + b == b;
    } else {
      StripConcat(NextScan(k, a[0]), a[1..], b);
      assert (a + b)[1..] == a[1..] + b;
    }
  }

  lemma {:induction false} StripBlanks(k: Scan, s: string)
    requires !k.inStr && !k.esc
    requires forall c :: c in s ==> IsBlank(c)
    ensures StripFrom(k, s) == "" && ScanAll(k, s) == k
  {
    if s != "" {
      StripBlanks(k, s[1..]);
    }
  }

  lemma SpacesBlank(n: nat)
    ensures forall c :: c in Spaces(n) ==> IsBlank(c)
  {
  }

  /** What one character emits strips to what that character strips to, and leaves the
      scanner where that character leaves it. */
  lemma EmitStrips(st: State, c: char)
    requires st.scan.inStr || !st.scan.esc
    ensures StripFrom(st.scan, Emit(st, c)) == StripFrom(st.scan, [c])
    ensures ScanAll(st.scan, Emit(st, c)) == NextScan(st.scan, c)
  {
    var k := st.scan;
    if !k.inStr && c in "{[,:" {
      var pad := Emit(st, c)[1..];
      assert Emit(st, c) == [c] + pad;
      PadBlank(st, c);
      StripConcat(k, [c], pad);
      StripBlanks(k, pad);
    } else if !k.inStr && c in "}]" {
      var pad := "\n" + Pad(st.indent - 1);
      SpacesBlank(if st.indent - 1 < 0 then 0 else st.indent - 1);
      StripConcat(k, pad, [c]);
      StripBlanks(k, pad);
    }
  }

  lemma PadBlank(st: State, c: char)
    requires !st.scan.inStr && c in "{[,:"
    ensures forall d :: d in Emit(st, c)[1..] ==> IsBlank(d)
  {
    SpacesBlank(if st.indent + 1 < 0 then 0 else st.indent + 1);
    SpacesBlank(if st.indent < 0 then 0 else st.indent);
  }

  lemma {:induction false} StripFormatFrom(st: State, s: string)
    requires st.scan.inStr || !st.scan.esc
    ensures StripFrom(st.scan, FormatFrom(st, s)) == StripFrom(st.scan, s)
    decreases |s|
  {
    if s != "" {
      EmitStrips(st, s[0]);
      StripFormatFrom(Next(st, s[0]), s[1..]);
      StripConcat(st.scan, Emit(st, s[0]), FormatFrom(Next(st, s[0]), s[1..]));
      StripConcat(st.scan, [s[0]], s[1..]);
      assert [s[0]] + s[1..] == s;
    }
  }

  lemma {:induction false} FormatStripFrom(st: State, s: string)
    requires st.scan.inStr || !st.scan.esc
    ensures FormatFrom(st, StripFrom(st.scan, s)) == FormatFrom(st, s)
    decreases |s|
  {
    if s != "" {
      var rest := StripFrom(NextScan(st.scan, s[0]), s[1..]);
      FormatStripFrom(Next(st, s[0]), s[1..]);
      if !st.scan.inStr && IsBlank(s[0]) {
        assert "" + rest == rest;
        assert Next(st, s[0]) == st;
      } else {
        assert ([s[0]] + rest)[1..] == rest;
      }
    }
  }

  /** Nothing but white space outside strings is lost or added, for broken and unterminated
      text too. */
  lemma FormatKeepsContent(s: string)
    ensures Strip(Format(s)) == Strip(s)
    ensures Format(Strip(s)) == Format(s)
  {
    StripFormatFrom(START, s);
    FormatStripFrom(START, s);
  }

  lemma FormatIdempotent(s: string)
    ensures Format(Format(s)) == Format(s)
  {
    FormatKeepsContent(s);
    FormatKeepsContent(Format(s));
  }

  /** Formatting is a canonical form: two texts format alike exactly when they differ only in
      white space outside strings. */
  lemma FormatCanonical(s: string, t: string)
    ensures Format(s) == Format(t) <==> Strip(s) == Strip(t)
  {
    FormatKeepsContent(s);
    FormatKeepsContent(t);
  }

  // ---- Layout ----------------------------------------------------------------------------

  /** Where reading a text takes the scanner, and how many brackets are open by then. */
  function Read(st: State, s: string): State
    decreases |s|
  {
    if s == "" then st else Read(Next(st, s[0]), s[1..])
  }

  /** The number of spaces a text starts with. */
  function Run(s: string): nat {
    if s != "" && s[0] == ' ' then 1 + Run(s[1..]) else 0
  }

  lemma {:induction false} ReadConcat(st: State, a: string, b: string)
    ensures Read(st, a + b) == Read(Read(st, a), b)
    decreases |a|
  {
    if a == "" {
      assert a + b == b;
    } else {
      ReadConcat(Next(st, a[0]), a[1..], b);
      assert (a + b)[1..] == a[1..] + b;
    }
  }

  lemma {:induction false} ReadBlanks(st: State, s: string)
    requires !st.scan.inStr && !st.scan.esc && forall c :: c in s ==> IsBlank(c)
    ensures Read(st, s) == st
    decreases |s|
  {
    if s != "" {
      assert IsBlank(s[0]) && Next(st, s[0]) == st;
      ReadBlanks(st, s[1..]);
    }
  }

  lemma ReadOne(st: State, c: char)
    ensures Read(st, [c]) == Next(st, c)
  {
    assert [c][1..] == "";
  }

  /** What one character emits reads like that character. */
  lemma EmitReads(st: State, c: char)
    requires st.scan.inStr || !st.scan.esc
    ensures Read(st, Emit(st, c)) == Next(st, c)
  {
    ReadOne(st, c);
    if !st.scan.inStr && c in "{[,:" {
      var pad := Emit(st, c)[1..];
      assert Emit(st, c) == [c] + pad;
      PadBlank(st, c);
      ReadConcat(st, [c], pad);
      ReadBlanks(Next(st, c), pad);
    } else if !st.scan.inStr && c in "}]" {
      var pad := "\n" + Pad(st.indent - 1);
      SpacesBlank(if st.indent - 1 < 0 then 0 else st.indent - 1);
      ReadConcat(st, pad, [c]);
      ReadBlanks(st, pad);
    } else if !st.scan.inStr && IsBlank(c) {
      assert Next(st, c) == st;
    }
  }

  lemma {:induction false} RunSpaces(n: nat, rest: string)
    requires Run(rest) == 0
    ensures Run(Spaces(n) + rest) == 2 * n
    decreases n
  {
    if n == 0 {
      assert "" + rest == rest;
    } else {
      RunSpaces(n - 1, rest);
      var s := Spaces(n) + rest;
      assert s == "  " + (Spaces(n - 1) + rest);
      assert s[1..][1..] == Spaces(n - 1) + rest;
    }
  }

  predicate Closes(s: string, i: nat) {
    i < |s| && (s[i] == '}' || s[i] == ']')
  }

  /** Outside strings no piece starts with a space, and a closing bracket starts none. */
  lemma {:induction false} PieceStart(st: State, s: string)
    requires !st.scan.inStr
    ensures Run(FormatFrom(st, s)) == 0 && !Closes(FormatFrom(st, s), 0)
    decreases |s|
  {
    if s != "" && Emit(st, s[0]) == "" {
      PieceStart(Next(st, s[0]), s[1..]);
      assert "" + FormatFrom(Next(st, s[0]), s[1..]) == FormatFrom(Next(st, s[0]), s[1..]);
    }
  }

  /** A line break between `head` and `tail` is followed by two spaces for every bracket open
      there, one bracket less if a closing one comes next, and none if that is negative. */
  ghost predicate Indented(st: State, head: string, tail: string) {
    var depth := Read(st, head).indent - if Closes(tail, Run(tail)) then 1 else 0;
    Run(tail) == 2 * if depth < 0 then 0 else depth
  }

  lemma PadIndented(st: State, head: string, depth: int, rest: string)
    requires Run(rest) == 0 && depth == Read(st, head).indent - if Closes(rest, 0) then 1 else 0
    ensures Indented(st, head, Pad(depth) + rest)
  {
    var n := if depth < 0 then 0 else depth;
    RunSpaces(n, rest);
    SpacesLength(n);
    assert rest != "" ==> (Pad(depth) + rest)[2 * n] == rest[0];
  }

  lemma {:induction false} SpacesLength(n: nat)
    ensures |Spaces(n)| == 2 * n
  {
    if n > 0 {
      SpacesLength(n - 1);
    }
  }

  lemma PadOnly(depth: int)
    ensures forall k :: 0 <= k < |Pad(depth)| ==> Pad(depth)[k] == ' '
  {
    SpacesOnly(if depth < 0 then 0 else depth);
  }

  lemma SpacesOnly(n: nat)
    ensures forall k :: 0 <= k < |Spaces(n)| ==> Spaces(n)[k] == ' '
  {
  }

  /** Where a piece breaks the line. */
  lemma EmitBreak(st: State, c: char, i: nat)
    requires !st.scan.inStr && i < |Emit(st, c)| && Emit(st, c)[i] == '\n'
    ensures if c in "{[," then i == 1 else c in "}]" && i == 0
  {
    PadOnly(st.indent + 1);
    PadOnly(st.indent);
    PadOnly(st.indent - 1);
  }

  lemma Slices(head: string, tail: string, out: string)
    requires out == head + (['\n'] + tail)
    ensures |head| < |out| && out[..|head|] == head && out[|head| + 1..] == tail
  {
  }

  /** The line break that a piece brings along. */
  lemma EmitIndented(st: State, c: char, rest: string, i: nat)
    requires !st.scan.inStr && !st.scan.esc && Run(rest) == 0 && !Closes(rest, 0)
    requires if c in "{[," then i == 1 else c in "}]" && i == 0
    ensures i < |Emit(st, c) + rest| && Indented(st, (Emit(st, c) + rest)[..i], (Emit(st, c) + rest)[i + 1..])
  {
    var out := Emit(st, c) + rest;
    if i == 1 {
      var depth := Next(st, c).indent;
      ReadOne(st, c);
      PadIndented(st, [c], depth, rest);
      assert out == [c] + (['\n'] + (Pad(depth) + rest));
      Slices([c], Pad(depth) + rest, out);
    } else {
      PadIndented(st, "", st.indent - 1, [c] + rest);
      assert out == "" + (['\n'] + (Pad(st.indent - 1) + ([c] + rest)));
      Slices("", Pad(st.indent - 1) + ([c] + rest), out);
    }
  }

  lemma IndentedInPiece(st: State, c: char, rest: string, i: nat)
    requires st.scan.inStr || !st.scan.esc
    requires i < |Emit(st, c)| && Emit(st, c)[i] == '\n' && !Read(st, (Emit(st, c) + rest)[..i]).scan.inStr
    requires !Next(st, c).scan.inStr ==> Run(rest) == 0 && !Closes(rest, 0)
    ensures Indented(st, (Emit(st, c) + rest)[..i], (Emit(st, c) + rest)[i + 1..])
  {
    assert i == 0 ==> (Emit(st, c) + rest)[..i] == "";
    if !st.scan.inStr {
      EmitBreak(st, c, i);
      EmitIndented(st, c, rest, i);
    }
  }

  lemma IndentedBehind(st: State, c: char, rest: string, j: nat)
    requires (st.scan.inStr || !st.scan.esc) && j < |rest| && Indented(Next(st, c), rest[..j], rest[j + 1..])
    ensures var out, i := Emit(st, c) + rest, |Emit(st, c)| + j; Indented(st, out[..i], out[i + 1..])
  {
    CutBehind(Emit(st, c), rest, j);
    EmitReads(st, c);
    ReadConcat(st, Emit(st, c), rest[..j]);
  }

  lemma {:induction false} IndentedFrom(st: State, s: string, i: nat)
    requires st.scan.inStr || !st.scan.esc
    requires i < |FormatFrom(st, s)| && FormatFrom(st, s)[i] == '\n' && !Read(st, FormatFrom(st, s)[..i]).scan.inStr
    ensures Indented(st, FormatFrom(st, s)[..i], FormatFrom(st, s)[i + 1..])
    decreases |s|
  {
    var c, next := s[0], Next(st, s[0]);
    var rest := FormatFrom(next, s[1..]);
    if i < |Emit(st, c)| {
      if !next.scan.inStr {
        PieceStart(next, s[1..]);
      }
      IndentedInPiece(st, c, rest, i);
    } else {
      var j := i - |Emit(st, c)|;
      ReadBehind(st, c, rest, j);
      IndentedFrom(next, s[1..], j);
      IndentedBehind(st, c, rest, j);
    }
  }

  lemma ReadBehind(st: State, c: char, rest: string, j: nat)
    requires (st.scan.inStr || !st.scan.esc) && j < |rest|
    ensures Read(st, (Emit(st, c) + rest)[..|Emit(st, c)| + j]) == Read(Next(st, c), rest[..j])
    ensures (Emit(st, c) + rest)[|Emit(st, c)| + j] == rest[j]
  {
    CutBehind(Emit(st, c), rest, j);
    EmitReads(st, c);
    ReadConcat(st, Emit(st, c), rest[..j]);
  }

  lemma CutBehind(piece: string, rest: string, j: nat)
    requires j < |rest|
    ensures (piece + rest)[..|piece| + j] == piece + rest[..j] && (piece + rest)[|piece| + j + 1..] == rest[j + 1..]
  {
  }

  /** The indentation is the nesting depth, on every line of every result: two spaces for each
      bracket that is open outside strings. */
  lemma IndentIsDepth(s: string, i: nat)
    requires i < |Format(s)| && Format(s)[i] == '\n' && !Read(START, Format(s)[..i]).scan.inStr
    ensures Indented(START, Format(s)[..i], Format(s)[i + 1..])
  {
    IndentedFrom(START, s, i);
  }

  ghost predicate BreakAt(out: string, k: nat, i: nat) {
    k < i <= |out| && out[k] == '\n' && forall m :: k < m < i ==> out[m] == ' '
  }

  /** What a character outside strings may be, and what surrounds it. */
  ghost predicate Placed(out: string, i: nat)
    requires i < |out|
  {
    && (out[i] in "{[," ==> i + 1 < |out| && out[i + 1] == '\n')
    && (out[i] == ':' ==> Run(out[i + 1..]) == 1)
    && (out[i] in "}]" ==> exists k: nat :: BreakAt(out, k, i))
    && (out[i] == '\n' ==> (i > 0 && out[i - 1] in "{[,") || Closes(out, i + 1 + Run(out[i + 1..])))
    && (out[i] == ' ' ==> i > 0 && out[i - 1] in ":\n ")
    && out[i] != '\t' && out[i] != '\r'
  }

  lemma PlacedBehind(piece: string, rest: string, j: nat)
    requires j < |rest| && Placed(rest, j)
    ensures Placed(piece + rest, |piece| + j)
  {
    var out, i := piece + rest, |piece| + j;
    assert out[i + 1..] == rest[j + 1..];
    assert forall m :: 0 <= m < |rest| ==> out[|piece| + m] == rest[m];
    if k: nat :| BreakAt(rest, k, j) {
      assert forall m :: |piece| + k < m < i ==> out[m] == rest[m - |piece|];
      assert BreakAt(out, |piece| + k, i);
    }
  }

  lemma PlacedOpen(c: char, depth: int, rest: string, i: nat)
    requires c in "{[," && i < 2 + |Pad(depth)|
    ensures Placed([c, '\n'] + Pad(depth) + rest, i)
  {
    var out := [c, '\n'] + Pad(depth) + rest;
    PadOnly(depth);
    assert forall k :: 2 <= k < 2 + |Pad(depth)| ==> out[k] == Pad(depth)[k - 2];
  }

  lemma PlacedClose(c: char, depth: int, rest: string, i: nat)
    requires c in "}]" && i < 2 + |Pad(depth)|
    ensures Placed("\n" + Pad(depth) + [c] + rest, i)
  {
    var out, n := "\n" + Pad(depth) + [c] + rest, |Pad(depth)|;
    PadOnly(depth);
    assert forall k :: 1 <= k <= n ==> out[k] == Pad(depth)[k - 1];
    if i == 0 {
      RunSpaces(if depth < 0 then 0 else depth, [c] + rest);
      SpacesLength(if depth < 0 then 0 else depth);
      assert out[1..] == Pad(depth) + ([c] + rest);
    } else if i == n + 1 {
      assert BreakAt(out, 0, i);
    }
  }

  lemma PlacedInPiece(st: State, c: char, rest: string, i: nat)
    requires i < |Emit(st, c)| && !Read(st, (Emit(st, c) + rest)[..i]).scan.inStr
    requires !Next(st, c).scan.inStr ==> Run(rest) == 0
    ensures Placed(Emit(st, c) + rest, i)
  {
    assert i == 0 ==> (Emit(st, c) + rest)[..i] == "";
    if c in "{[" {
      PlacedOpen(c, st.indent + 1, rest, i);
    } else if c == ',' {
      PlacedOpen(c, st.indent, rest, i);
      assert Emit(st, c) == [c, '\n'] + Pad(st.indent);
    } else if c in "}]" {
      PlacedClose(c, st.indent - 1, rest, i);
    } else if c == ':' {
      assert (": " + rest)[1..][1..] == rest;
    }
  }

  lemma PlacedStep(st: State, c: char, rest: string, i: nat)
    requires st.scan.inStr || !st.scan.esc
    requires i < |Emit(st, c) + rest| && !Read(st, (Emit(st, c) + rest)[..i]).scan.inStr
    requires !Next(st, c).scan.inStr ==> Run(rest) == 0
    requires i >= |Emit(st, c)| ==>
               !Read(Next(st, c), rest[..i - |Emit(st, c)|]).scan.inStr ==> Placed(rest, i - |Emit(st, c)|)
    ensures Placed(Emit(st, c) + rest, i)
  {
    if i >= |Emit(st, c)| {
      ReadBehind(st, c, rest, i - |Emit(st, c)|);
      PlacedBehind(Emit(st, c), rest, i - |Emit(st, c)|);
    } else {
      PlacedInPiece(st, c, rest, i);
    }
  }

  lemma {:induction false} PlacedFrom(st: State, s: string, i: nat)
    requires st.scan.inStr || !st.scan.esc
    requires i < |FormatFrom(st, s)| && !Read(st, FormatFrom(st, s)[..i]).scan.inStr
    ensures Placed(FormatFrom(st, s), i)
    decreases |s|
  {
    var c, next := s[0], Next(st, s[0]);
    var rest := FormatFrom(next, s[1..]);
    if !next.scan.inStr {
      PieceStart(next, s[1..]);
    }
    if i >= |Emit(st, c)| && !Read(next, rest[..i - |Emit(st, c)|]).scan.inStr {
      PlacedFrom(next, s[1..], i - |Emit(st, c)|);
    }
    PlacedStep(st, c, rest, i);
  }

  /** All the white space outside strings is accounted for: a line break behind every opening
      bracket and comma and before every closing bracket, one space behind every colon, the
      indentation, and nothing else. */
  lemma WhiteSpacePlaced(s: string, i: nat)
    requires i < |Format(s)| && !Read(START, Format(s)[..i]).scan.inStr
    ensures Placed(Format(s), i)
  {
    PlacedFrom(START, s, i);
  }

  // ---- What well-formed JSON looks like --------------------------------------------------

  /** A string literal is made of characters and of escapes: a backslash and any one character. */
  datatype Piece = Char(c: char) | Escape(c: char)

  /** Numbers, `true`, `false` and `null` are plain text. */
  datatype Value = Plain(text: string) | Str(pieces: seq<Piece>) | Arr(items: seq<Value>) | Obj(members: seq<Member>)

  datatype Member = Member(key: seq<Piece>, value: Value)

  predicate IsPlainText(t: string) {
    forall c :: c in t ==> c !in "\"{}[],:" && !IsBlank(c)
  }

  predicate IsLiteral(pieces: seq<Piece>) {
    forall p :: p in pieces && p.Char? ==> p.c != '"' && p.c != '\\'
  }

  predicate IsValue(v: Value) {
    match v
    case Plain(text) => IsPlainText(text)
    case Str(pieces) => IsLiteral(pieces)
    case Arr(items) => forall i :: 0 <= i < |items| ==> IsValue(items[i])
    case Obj(members) => forall i :: 0 <= i < |members| ==> IsLiteral(members[i].key) && IsValue(members[i].value)
  }

  function Spell(pieces: seq<Piece>): string {
    if pieces == [] then ""
    else (if pieces[0].Char? then [pieces[0].c] else ['\\', pieces[0].c]) + Spell(pieces[1..])
  }

  function Quoted(pieces: seq<Piece>): string {
    "\"" + Spell(pieces) + "\""
  }

  function Count(v: Value): nat {
    match v
    case Arr(items) => |items|
    case Obj(members) => |members|
    case _ => 0
  }

  /** The value without any white space. */
  function Compact(v: Value): string
    decreases v, 2, 0
  {
    match v
    case Plain(text) => text
    case Str(pieces) => Quoted(pieces)
    case Arr(items) => "[" + CompactParts(v, |items|) + "]"
    case Obj(members) => "{" + CompactParts(v, |members|) + "}"
  }

  function CompactParts(v: Value, n: nat): string
    requires n <= Count(v)
    decreases v, 1, n
  {
    if n == 0 then "" else (if n == 1 then "" else CompactParts(v, n - 1) + ",") + CompactPart(v, n - 1)
  }

  function CompactPart(v: Value, i: nat): string
    requires i < Count(v)
    decreases v, 0, 0
  {
    if v.Arr? then Compact(v.items[i]) else Quoted(v.members[i].key) + ":" + Compact(v.members[i].value)
  }

  /** The value as one expects to see it: one part on a line, two spaces for each level. An empty
      array or object takes two lines as well. */
  function Pretty(v: Value, depth: nat): string
    decreases v, 2, 0
  {
    match v
    case Plain(text) => text
    case Str(pieces) => Quoted(pieces)
    case Arr(items) => "[\n" + Spaces(depth + 1) + PrettyParts(v, |items|, depth + 1) + "\n" + Spaces(depth) + "]"
    case Obj(members) => "{\n" + Spaces(depth + 1) + PrettyParts(v, |members|, depth + 1) + "\n" + Spaces(depth) + "}"
  }

  function PrettyParts(v: Value, n: nat, depth: nat): string
    requires n <= Count(v)
    decreases v, 1, n
  {
    if n == 0 then "" else (if n == 1 then "" else PrettyParts(v, n - 1, depth) + ",\n" + Spaces(depth)) + PrettyPart(v, n - 1, depth)
  }

  function PrettyPart(v: Value, i: nat, depth: nat): string
    requires i < Count(v)
    decreases v, 0, 0
  {
    if v.Arr? then Pretty(v.items[i], depth) else Quoted(v.members[i].key) + ": " + Pretty(v.members[i].value, depth)
  }

  lemma FormatCons(st: State, c: char, rest: string)
    ensures FormatFrom(st, [c] + rest) == Emit(st, c) + FormatFrom(Next(st, c), rest)
    ensures Read(st, [c] + rest) == Read(Next(st, c), rest)
  {
    assert ([c] + rest)[1..] == rest;
  }

  lemma FormatLonger(st: State, c: char, rest: string, b: string, x: string, y: string)
    requires FormatFrom(Next(st, c), rest) == x && FormatFrom(Next(st, c), rest + b) == x + y
    ensures FormatFrom(st, [c] + rest + b) == FormatFrom(st, [c] + rest) + y
  {
    FormatCons(st, c, rest);
    FormatCons(st, c, rest + b);
    Text.Assoc([c], rest, b);
    Text.Assoc(Emit(st, c), x, y);
  }

  lemma {:induction false} FormatAppends(st: State, a: string, b: string)
    ensures FormatFrom(st, a + b) == FormatFrom(st, a) + FormatFrom(Read(st, a), b)
    decreases |a|
  {
    if a == "" {
      assert a + b == b;
    } else {
      var c, rest := a[0], a[1..];
      FormatAppends(Next(st, c), rest, b);
      FormatLonger(st, c, rest, b, FormatFrom(Next(st, c), rest), FormatFrom(Read(Next(st, c), rest), b));
      assert a == [c] + rest;
    }
  }

  lemma FormatConcat(st: State, a: string, b: string)
    ensures FormatFrom(st, a + b) == FormatFrom(st, a) + FormatFrom(Read(st, a), b)
    ensures Read(st, a + b) == Read(Read(st, a), b)
  {
    FormatAppends(st, a, b);
    ReadConcat(st, a, b);
  }

  lemma FormatOne(st: State, c: char)
    ensures FormatFrom(st, [c]) == Emit(st, c) && Read(st, [c]) == Next(st, c)
  {
    assert [c][1..] == "";
    assert Emit(st, c) + "" == Emit(st, c);
  }

  /** The text `s` comes out as `t`, and leaves the scanner where it found it. */
  ghost predicate Becomes(st: State, s: string, t: string) {
    FormatFrom(st, s) == t && Read(st, s) == st
  }

  ghost predicate Outside(st: State, depth: nat) {
    st == State(Scan(false, false), depth)
  }

  lemma BecomesBoth(st: State, a: string, x: string, b: string, y: string)
    requires Becomes(st, a, x) && Becomes(st, b, y)
    ensures Becomes(st, a + b, x + y)
  {
    FormatConcat(st, a, b);
  }

  lemma BecomesOne(st: State, c: char)
    requires Next(st, c) == st
    ensures Becomes(st, [c], Emit(st, c))
  {
    FormatOne(st, c);
  }

  lemma {:induction false} PlainStays(st: State, t: string, depth: nat)
    requires Outside(st, depth) && IsPlainText(t)
    ensures Becomes(st, t, t)
    decreases |t|
  {
    if t != "" {
      var c, rest := t[0], t[1..];
      assert c in t && forall d :: d in rest ==> d in t;
      PlainStays(st, rest, depth);
      BecomesOne(st, c);
      BecomesBoth(st, [c], [c], rest, rest);
      assert t == [c] + rest;
    }
  }

  lemma PieceStays(st: State, p: Piece)
    requires st.scan == Scan(true, false) && IsLiteral([p])
    ensures var s := if p.Char? then [p.c] else ['\\', p.c]; Becomes(st, s, s)
  {
    assert p in [p];
    if p.Char? {
      BecomesOne(st, p.c);
    } else {
      FormatOne(st, '\\');
      FormatOne(Next(st, '\\'), p.c);
      FormatConcat(st, ['\\'], [p.c]);
      assert ['\\'] + [p.c] == ['\\', p.c];
    }
  }

  lemma {:induction false} LiteralStays(st: State, pieces: seq<Piece>)
    requires st.scan == Scan(true, false) && IsLiteral(pieces)
    ensures Becomes(st, Spell(pieces), Spell(pieces))
  {
    if pieces != [] {
      var s := if pieces[0].Char? then [pieces[0].c] else ['\\', pieces[0].c];
      assert pieces[0] in pieces && forall p :: p in pieces[1..] ==> p in pieces;
      PieceStays(st, pieces[0]);
      LiteralStays(st, pieces[1..]);
      BecomesBoth(st, s, s, Spell(pieces[1..]), Spell(pieces[1..]));
    }
  }

  /** A string literal is not touched, whatever it holds. */
  lemma StringStays(st: State, pieces: seq<Piece>, depth: nat)
    requires Outside(st, depth) && IsLiteral(pieces)
    ensures Becomes(st, Quoted(pieces), Quoted(pieces))
  {
    var inside := Next(st, '"');
    FormatOne(st, '"');
    LiteralStays(inside, pieces);
    FormatOne(inside, '"');
    FormatConcat(st, "\"", Spell(pieces));
    FormatConcat(st, "\"" + Spell(pieces), "\"");
  }

  /** A bracket, the parts one level deeper, and the closing bracket. */
  lemma Bracketed(st: State, depth: nat, open: char, parts: string, pretty: string, close: char)
    requires Outside(st, depth) && ((open == '[' && close == ']') || (open == '{' && close == '}'))
    requires Becomes(State(Scan(false, false), depth + 1), parts, pretty)
    ensures Becomes(st, [open] + parts + [close], [open] + "\n" + Spaces(depth + 1) + pretty + "\n" + Spaces(depth) + [close])
  {
    var inner := State(Scan(false, false), depth + 1);
    OpenFormats(st, depth, open);
    CloseFormats(inner, depth, close);
    FormatConcat(st, [open], parts);
    FormatConcat(st, [open] + parts, [close]);
    JoinPieces([open], Spaces(depth + 1), pretty, Spaces(depth), [close]);
  }

  lemma OpenFormats(st: State, depth: nat, open: char)
    requires Outside(st, depth) && (open == '[' || open == '{')
    ensures FormatFrom(st, [open]) == [open, '\n'] + Spaces(depth + 1) && Read(st, [open]) == State(Scan(false, false), depth + 1)
  {
    FormatOne(st, open);
  }

  lemma CloseFormats(inner: State, depth: nat, close: char)
    requires Outside(inner, depth + 1) && (close == ']' || close == '}')
    ensures FormatFrom(inner, [close]) == "\n" + Spaces(depth) + [close] && Read(inner, [close]) == State(Scan(false, false), depth)
  {
    FormatOne(inner, close);
  }

  lemma JoinPieces(a: string, b: string, c: string, d: string, e: string)
    ensures a + ['\n'] + b + c + ("\n" + d + e) == a + "\n" + b + c + "\n" + d + e
    ensures |a| == 1 ==> [a[0], '\n'] == a + ['\n']
  {
  }

  lemma {:induction false} ValueFormats(st: State, v: Value, depth: nat)
    requires Outside(st, depth) && IsValue(v)
    ensures Becomes(st, Compact(v), Pretty(v, depth))
    decreases v, 2, 0
  {
    match v
    case Plain(text) => PlainStays(st, text, depth);
    case Str(pieces) => StringStays(st, pieces, depth);
    case Arr(items) =>
      PartsFormat(State(Scan(false, false), depth + 1), v, |items|, depth + 1);
      Bracketed(st, depth, '[', CompactParts(v, |items|), PrettyParts(v, |items|, depth + 1), ']');
      assert "[" + "\n" == "[\n";
    case Obj(members) =>
      PartsFormat(State(Scan(false, false), depth + 1), v, |members|, depth + 1);
      Bracketed(st, depth, '{', CompactParts(v, |members|), PrettyParts(v, |members|, depth + 1), '}');
      assert "{" + "\n" == "{\n";
  }

  lemma OneMorePart(st: State, depth: nat, parts: string, pretty: string, part: string, more: string)
    requires Outside(st, depth) && Becomes(st, parts, pretty) && Becomes(st, part, more)
    ensures Becomes(st, parts + "," + part, pretty + ",\n" + Spaces(depth) + more)
  {
    BecomesOne(st, ',');
    BecomesBoth(st, parts, pretty, ",", ",\n" + Spaces(depth));
    BecomesBoth(st, parts + ",", pretty + (",\n" + Spaces(depth)), part, more);
    Text.Assoc(pretty, ",\n", Spaces(depth));
  }

  lemma {:induction false} PartsFormat(st: State, v: Value, n: nat, depth: nat)
    requires Outside(st, depth) && IsValue(v) && n <= Count(v)
    ensures Becomes(st, CompactParts(v, n), PrettyParts(v, n, depth))
    decreases v, 1, n
  {
    if n > 0 {
      PartFormats(st, v, n - 1, depth);
      if n == 1 {
        assert "" + CompactPart(v, 0) == CompactPart(v, 0) && "" + PrettyPart(v, 0, depth) == PrettyPart(v, 0, depth);
      } else {
        PartsFormat(st, v, n - 1, depth);
        OneMorePart(st, depth, CompactParts(v, n - 1), PrettyParts(v, n - 1, depth), CompactPart(v, n - 1), PrettyPart(v, n - 1, depth));
      }
    }
  }

  lemma {:induction false} PartFormats(st: State, v: Value, i: nat, depth: nat)
    requires Outside(st, depth) && IsValue(v) && i < Count(v)
    ensures Becomes(st, CompactPart(v, i), PrettyPart(v, i, depth))
    decreases v, 0, 0
  {
    if v.Arr? {
      ValueFormats(st, v.items[i], depth);
    } else {
      var m := v.members[i];
      StringStays(st, m.key, depth);
      BecomesOne(st, ':');
      ValueFormats(st, m.value, depth);
      BecomesBoth(st, Quoted(m.key), Quoted(m.key), ":", ": ");
      BecomesBoth(st, Quoted(m.key) + ":", Quoted(m.key) + ": ", Compact(m.value), Pretty(m.value, depth));
    }
  }

  /** Every well-formed text, however it is spaced, is laid out as its value is. */
  lemma JsonIsPretty(v: Value, s: string)
    requires IsValue(v) && Strip(s) == Compact(v)
    ensures Format(s) == Pretty(v, 0)
  {
    FormatKeepsContent(s);
    ValueFormats(START, v, 0);
  }
}
